/** A small devicetree as its bytes, and what scanning it and finding its children give. */
module DeviceTreeSample {
  import opened Rings
  import opened DeviceTree

  /** A root without a name, with one property of five bytes. */
  const ROOT: seq<Byte> := [
    0, 0, 0, 1,  0, 0, 0, 0,
    0, 0, 0, 3,  0, 0, 0, 5,  0, 0, 0, 9,  104, 101, 108, 108, 111, 0, 0, 0
  ]

  /** Its child a, with a no-operation token. */
  const CHILD: seq<Byte> := [
    0, 0, 0, 1,  97, 0, 0, 0,
    0, 0, 0, 4
  ]

  /** The child bcde of a, and the ends of both. */
  const GRANDCHILD: seq<Byte> := [
    0, 0, 0, 1,  98, 99, 100, 101, 0, 0, 0, 0,
    0, 0, 0, 2,
    0, 0, 0, 2
  ]

  /** A child bcde of the root. */
  const SECOND: seq<Byte> := [
    0, 0, 0, 1,  98, 99, 100, 101, 0, 0, 0, 0,
    0, 0, 0, 2
  ]

  /** Another, the end of the root, and the end of the structure. */
  const THIRD: seq<Byte> := [
    0, 0, 0, 1,  98, 99, 100, 101, 0, 0, 0, 0,
    0, 0, 0, 2,
    0, 0, 0, 2,
    0, 0, 0, 9
  ]

  const TREE: seq<Byte> := ROOT + CHILD + GRANDCHILD + SECOND + THIRD

  const A: seq<Byte> := [97]
  const BCDE: seq<Byte> := [98, 99, 100, 101]

  lemma Sizes()
    ensures |ROOT| == 28 && |CHILD| == 12 && |GRANDCHILD| == 20 && |SECOND| == 16 && |THIRD| == 24
  {
  }

  lemma Parts()
    ensures |TREE| == 100
    ensures |ROOT| == 28 && |CHILD| == 12 && |GRANDCHILD| == 20 && |SECOND| == 16 && |THIRD| == 24
    ensures TREE[0..28] == ROOT && TREE[28..40] == CHILD && TREE[40..60] == GRANDCHILD
    ensures TREE[60..76] == SECOND && TREE[76..100] == THIRD
  {
    hide ROOT, CHILD, GRANDCHILD, SECOND, THIRD;
    Sizes();
  }

  /** What a number of a part is, it is at its place in the tree. */
  lemma PartNumber(loc: nat, part: seq<Byte>, i: nat)
    requires loc + |part| <= |TREE| && TREE[loc..loc + |part|] == part && i + 4 <= |part|
    ensures Number(TREE, loc + i) == Number(part, i)
  {
    hide TREE;
    assert part[i] == TREE[loc + i] && part[i + 1] == TREE[loc + i + 1];
    assert part[i + 2] == TREE[loc + i + 2] && part[i + 3] == TREE[loc + i + 3];
  }

  lemma RootNumbers()
    ensures |ROOT| == 28 && Number(ROOT, 0) == 1 && Number(ROOT, 8) == 3 && Number(ROOT, 12) == 5
    ensures ROOT[4] == 0
  {
  }

  lemma ChildNumbers()
    ensures |CHILD| == 12 && Number(CHILD, 0) == 1 && Number(CHILD, 8) == 4 && CHILD[4] == 97 && CHILD[5] == 0
  {
  }

  lemma GrandchildNumbers()
    ensures |GRANDCHILD| == 20 && Number(GRANDCHILD, 0) == 1
    ensures Number(GRANDCHILD, 12) == 2 && Number(GRANDCHILD, 16) == 2
    ensures GRANDCHILD[4..8] == BCDE && GRANDCHILD[8] == 0
  {
  }

  lemma SecondNumbers()
    ensures |SECOND| == 16 && Number(SECOND, 0) == 1 && Number(SECOND, 12) == 2
    ensures SECOND[4..8] == BCDE && SECOND[8] == 0
  {
  }

  lemma ThirdNumbers()
    ensures |THIRD| == 24 && Number(THIRD, 0) == 1
    ensures Number(THIRD, 12) == 2 && Number(THIRD, 16) == 2 && Number(THIRD, 20) == 9
    ensures THIRD[4..8] == BCDE && THIRD[8] == 0
  {
  }

  lemma Numbers()
    ensures |TREE| == 100
    ensures Number(TREE, 0) == 1 && Number(TREE, 8) == 3 && Number(TREE, 12) == 5 && Number(TREE, 28) == 1
    ensures Number(TREE, 36) == 4 && Number(TREE, 40) == 1 && Number(TREE, 52) == 2 && Number(TREE, 56) == 2
    ensures Number(TREE, 60) == 1 && Number(TREE, 72) == 2
    ensures Number(TREE, 76) == 1 && Number(TREE, 88) == 2 && Number(TREE, 92) == 2 && Number(TREE, 96) == 9
  {
    hide TREE, ROOT, CHILD, GRANDCHILD, SECOND, THIRD, Number;
    Parts();
    RootNumbers();
    ChildNumbers();
    GrandchildNumbers();
    SecondNumbers();
    ThirdNumbers();
    PartNumber(0, ROOT, 0);
    PartNumber(0, ROOT, 8);
    PartNumber(0, ROOT, 12);
    PartNumber(28, CHILD, 0);
    PartNumber(28, CHILD, 8);
    PartNumber(40, GRANDCHILD, 0);
    PartNumber(40, GRANDCHILD, 12);
    PartNumber(40, GRANDCHILD, 16);
    PartNumber(60, SECOND, 0);
    PartNumber(60, SECOND, 12);
    PartNumber(76, THIRD, 0);
    PartNumber(76, THIRD, 12);
    PartNumber(76, THIRD, 16);
    PartNumber(76, THIRD, 20);
  }

  /** A name of a part that ends with a zero byte. */
  lemma PartName(loc: nat, part: seq<Byte>, i: nat, name: seq<Byte>)
    requires loc + |part| <= |TREE| && TREE[loc..loc + |part|] == part
    requires i + |name| < |part| && part[i..i + |name|] == name && part[i + |name|] == 0
    requires forall j | 0 <= j < |name| :: name[j] != 0
    ensures TREE[loc + i..loc + i + |name|] == name
    ensures Terminator(TREE, loc + i) == Some(loc + i + |name|)
  {
    hide TREE, Terminator;
    SliceOfSlice(TREE, loc, part, i, |name|);
    SliceOfSlice(TREE, loc, part, i + |name|, 1);
    NameEnds(TREE, loc + i, name);
  }

  lemma NamesAre()
    ensures |TREE| == 100
    ensures Terminator(TREE, 4) == Some(4) && TREE[4..4] == []
    ensures Terminator(TREE, 32) == Some(33) && TREE[32..33] == A
    ensures Terminator(TREE, 44) == Some(48) && TREE[44..48] == BCDE
    ensures Terminator(TREE, 64) == Some(68) && TREE[64..68] == BCDE
    ensures Terminator(TREE, 80) == Some(84) && TREE[80..84] == BCDE
  {
    hide Terminator, TREE, ROOT, CHILD, GRANDCHILD, SECOND, THIRD, Number;
    Parts();
    RootNumbers();
    ChildNumbers();
    GrandchildNumbers();
    SecondNumbers();
    ThirdNumbers();
    PartName(0, ROOT, 4, []);
    PartName(28, CHILD, 4, A);
    PartName(40, GRANDCHILD, 4, BCDE);
    PartName(60, SECOND, 4, BCDE);
    PartName(76, THIRD, 4, BCDE);
  }

  /** From each node's first property to the node after it. */
  lemma StepsAre()
    ensures |TREE| == 100
    ensures SkipTo(TREE, 4, 1) == 8 && SkipTo(TREE, 33, 1) == 36
    ensures SkipTo(TREE, 48, 1) == 52 && SkipTo(TREE, 68, 1) == 72 && SkipTo(TREE, 84, 1) == 88
    ensures SkipProperties(TREE, 8) == Some(28) && SkipProperties(TREE, 36) == Some(40)
    ensures SkipProperties(TREE, 52) == Some(52) && SkipProperties(TREE, 72) == Some(72)
    ensures SkipProperties(TREE, 88) == Some(88)
    ensures NextNode(TREE, 28) == NodeAt(32) && NextNode(TREE, 40) == NodeAt(44)
    ensures NextNode(TREE, 52) == NodeAt(64) && NextNode(TREE, 72) == NodeAt(80) && NextNode(TREE, 88) == Finished
  {
    hide TREE, Number;
    Numbers();
    assert SkipTo(TREE, 16, 9) == 28;
    assert SkipProperties(TREE, 28) == Some(28);
    assert SkipProperties(TREE, 40) == Some(40);
    assert NextNode(TREE, 60) == NodeAt(64);
    assert NextNode(TREE, 56) == NodeAt(64);
    assert NextNode(TREE, 76) == NodeAt(80);
    assert NextNode(TREE, 96) == Finished;
    assert NextNode(TREE, 92) == Finished;
  }

  /** The same from a node to the next one below the node searched. */
  lemma StepsBelowAre()
    ensures |TREE| == 100
    ensures NextBelow(TREE, 28, 0) == Child(32, 1) && NextBelow(TREE, 40, 1) == Child(44, 2)
    ensures NextBelow(TREE, 52, 2) == Child(64, 1) && NextBelow(TREE, 72, 1) == Child(80, 1)
    ensures NextBelow(TREE, 88, 1) == NoChild
    ensures NextBelow(TREE, 40, 0) == Child(44, 1) && NextBelow(TREE, 52, 1) == NoChild
  {
    hide TREE, Number;
    Numbers();
    assert NextBelow(TREE, 60, 0) == Child(64, 1);
    assert NextBelow(TREE, 56, 1) == Child(64, 1);
    assert NextBelow(TREE, 76, 0) == Child(80, 1);
    assert NextBelow(TREE, 56, 0) == NoChild;
    assert NextBelow(TREE, 92, 0) == NoChild;
  }

  /** Scanning shows the five nodes, parents first, each with the location of what follows
      its name. */
  lemma ScanOfTree(scanner: seq<Visit> -> Verdict)
    requires forall vs :: scanner(vs) == Continue
    ensures |TREE| >= HEADER_SIZE
    ensures Scan(TREE, 0, scanner)
            == Scanned(true, [Visit([], 8), Visit(A, 36), Visit(BCDE, 52), Visit(BCDE, 72), Visit(BCDE, 88)])
  {
    hide TREE, Number, Terminator, SkipTo, SkipProperties, NextNode, A, BCDE;
    Numbers();
    NamesAre();
    StepsAre();
    var v1: seq<Visit> := [Visit([], 8)];
    var v2 := v1 + [Visit(A, 36)];
    var v3 := v2 + [Visit(BCDE, 52)];
    var v4 := v3 + [Visit(BCDE, 72)];
    var v5 := v4 + [Visit(BCDE, 88)];
    assert [] + v1 == v1;
    assert ScanAfter(TREE, 88, v5, scanner) == Scanned(true, v5);
    assert ScanFrom(TREE, 80, v4, scanner) == Scanned(true, v5);
    assert ScanAfter(TREE, 72, v4, scanner) == Scanned(true, v5);
    assert ScanFrom(TREE, 64, v3, scanner) == Scanned(true, v5);
    assert ScanAfter(TREE, 52, v3, scanner) == Scanned(true, v5);
    assert ScanFrom(TREE, 44, v2, scanner) == Scanned(true, v5);
    assert ScanAfter(TREE, 36, v2, scanner) == Scanned(true, v5);
    assert ScanFrom(TREE, 32, v1, scanner) == Scanned(true, v5);
    assert ScanAfter(TREE, 8, v1, scanner) == Scanned(true, v5);
    assert ScanFrom(TREE, 4, [], scanner) == Scanned(true, v5);
  }

  /** Finding bcde below the root passes over the grandchild of that name and gives the
      first of the two children; the grandchild is found below a, and no other name is. */
  lemma ChildrenOfTree(name: seq<Byte>)
    ensures |TREE| == 100
    ensures FindFrom(TREE, 8, 0, A) == Some(36) && FindFrom(TREE, 8, 0, BCDE) == Some(72)
    ensures FindFrom(TREE, 36, 0, BCDE) == Some(52)
    ensures name != A && name != BCDE ==> FindFrom(TREE, 8, 0, name) == None
    ensures name != BCDE ==> FindFrom(TREE, 36, 0, name) == None
  {
    hide TREE, Number, Terminator, SkipTo, SkipProperties, NextBelow;
    NamesAre();
    StepsAre();
    StepsBelowAre();
    assert FindFrom(TREE, 88, 1, name) == None;
    assert FindFrom(TREE, 52, 2, BCDE) == Some(72);
    assert FindFrom(TREE, 36, 1, BCDE) == Some(72);
    assert name != BCDE ==> FindFrom(TREE, 72, 1, name) == None;
    assert name != BCDE ==> FindFrom(TREE, 52, 2, name) == None;
    assert name != BCDE ==> FindFrom(TREE, 36, 1, name) == None;
    assert name != BCDE ==> FindFrom(TREE, 52, 1, name) == None;
  }
}
