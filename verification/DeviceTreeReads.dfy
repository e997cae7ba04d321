/** The devicetree reader reads back what was written: scanning visits every node once in
    preorder, and finding a child gives the first child of that name. */
module DeviceTreeReads {
  import opened Rings
  import opened DeviceTree

  // --------------------------------------------------------------- token by token

  /** Properties follow only a node's name or another property, and every node's items end. */
  predicate Ordered(ts: seq<Token>, items: bool)
  {
    if ts == [] then !items
    else
      match ts[0]
      case BeginToken(_) => Ordered(ts[1..], true)
      case EndToken => Ordered(ts[1..], false)
      case ItemToken(Property(_, _)) => items && Ordered(ts[1..], items)
      case ItemToken(Nop) => Ordered(ts[1..], items)
  }

  /** The tokens from the first that begins or ends a node. */
  function FromBracket(ts: seq<Token>): (r: seq<Token>)
    ensures |r| <= |ts|
  {
    if ts != [] && ts[0].ItemToken? then FromBracket(ts[1..]) else ts
  }

  /** The tokens from the first that begins a node. */
  function FromNode(ts: seq<Token>): (r: seq<Token>)
    ensures |r| <= |ts|
  {
    if ts != [] && !ts[0].BeginToken? then FromNode(ts[1..]) else ts
  }

  lemma {:induction false} PropertiesSkipped(d: seq<Byte>, e: nat, ts: seq<Token>)
    requires Block(d, e, ts) && Ordered(ts, true)
    ensures var r := FromBracket(ts);
            r != [] && Block(d, e, r) && Ordered(r, true) && !r[0].ItemToken?
            && SkipProperties(d, At(e, ts)) == Some(At(e, r))
    decreases |ts|
  {
    hide Block, At, WriteTokens, WriteToken, Number, SkipTo, Word;
    BlockRest(d, e, ts);
    match ts[0]
    case BeginToken(_) => BeginReads(d, e, ts);
    case EndToken => PlainReads(d, e, ts);
    case ItemToken(Property(_, _)) =>
      PropertyReads(d, e, ts);
      PropertiesSkipped(d, e, ts[1..]);
    case ItemToken(Nop) =>
      PlainReads(d, e, ts);
      PropertiesSkipped(d, e, ts[1..]);
  }

  lemma BlockEnd(d: seq<Byte>, e: nat)
    requires Block(d, e, [])
    ensures At(e, []) == e && e + 4 <= |d| && NoMore(Number(d, e))
  {
  }

  lemma {:induction false} NextNodeReads(d: seq<Byte>, e: nat, ts: seq<Token>)
    requires Block(d, e, ts) && Ordered(ts, false)
    ensures var r := FromNode(ts);
            && Block(d, e, r) && Ordered(r, false) && 0 <= At(e, ts) <= |d|
            && e + 4 <= |d|
            && NextNode(d, At(e, ts)) ==
                 if r != [] then NodeAt(At(e, r) + 4) else if Number(d, e) == END then Finished else Malformed
    decreases |ts|
  {
    hide Block, At, WriteTokens, WriteToken, Number, Word;
    if ts == [] {
      BlockEnd(d, e);
    } else {
      BlockRest(d, e, ts);
      match ts[0]
      case BeginToken(_) => BeginReads(d, e, ts);
      case EndToken =>
        PlainReads(d, e, ts);
        NextNodeReads(d, e, ts[1..]);
      case ItemToken(Nop) =>
        PlainReads(d, e, ts);
        NextNodeReads(d, e, ts[1..]);
    }
  }

  /** Each node's name and first property, in the order the nodes begin. */
  function TokenVisits(e: nat, ts: seq<Token>): seq<Visit>
    requires AtsDefined(e, ts)
  {
    if ts == [] then []
    else if ts[0].BeginToken? then [Visit(ts[0].name, At(e, ts[1..]))] + TokenVisits(e, ts[1..])
    else TokenVisits(e, ts[1..])
  }

  /** The tokens fit before e. */
  predicate AtsDefined(e: nat, ts: seq<Token>)
  {
    (forall t | t in ts :: Writable(t)) && At(e, ts) >= 0 && (ts != [] ==> AtsDefined(e, ts[1..]))
  }

  lemma {:induction false} BlockDefined(d: seq<Byte>, e: nat, ts: seq<Token>)
    requires Block(d, e, ts)
    ensures AtsDefined(e, ts)
    decreases |ts|
  {
    if ts != [] {
      hide WriteToken, WriteTokens;
      BlockRest(d, e, ts);
      BlockDefined(d, e, ts[1..]);
    }
  }

  /** The scanner judges the nodes one by one until it stops; if it never does, the scan
      succeeds only on a complete structure. */
  function Judge(before: seq<Visit>, vs: seq<Visit>, scanner: seq<Visit> -> Verdict, complete: bool): Scanned
    decreases |vs|
  {
    if vs == [] then Scanned(complete, before)
    else
      var visits := before + [vs[0]];
      var v := scanner(visits);
      if v != Continue then Scanned(v == Stop, visits) else Judge(visits, vs[1..], scanner, complete)
  }

  /** The scanner goes on after the first j nodes of vs. */
  predicate GoesOn(before: seq<Visit>, vs: seq<Visit>, scanner: seq<Visit> -> Verdict, j: nat)
    requires j <= |vs|
  {
    scanner(before + vs[..j]) == Continue
  }

  /** What judging comes to: where the scanner first says other than to go on, the scan ends
      with the nodes up to there, and succeeds exactly if it was told to stop. */
  lemma {:induction false} JudgeEnds(before: seq<Visit>, vs: seq<Visit>, scanner: seq<Visit> -> Verdict,
                                     complete: bool, k: nat)
    requires k <= |vs| && forall j | 1 <= j <= k :: GoesOn(before, vs, scanner, j)
    ensures k == |vs| ==> Judge(before, vs, scanner, complete) == Scanned(complete, before + vs)
    ensures k < |vs| && !GoesOn(before, vs, scanner, k + 1) ==>
              Judge(before, vs, scanner, complete)
              == Scanned(scanner(before + vs[..k + 1]) == Stop, before + vs[..k + 1])
    decreases |vs|
  {
    if vs == [] {
      assert before + vs == before;
    } else {
      var visits := before + [vs[0]];
      assert before + vs[..1] == visits;
      if k > 0 {
        assert GoesOn(before, vs, scanner, 1);
        forall j | 1 <= j <= k - 1
          ensures GoesOn(visits, vs[1..], scanner, j)
        {
          assert visits + vs[1..][..j] == before + vs[..j + 1];
          assert GoesOn(before, vs, scanner, j + 1);
        }
        JudgeEnds(visits, vs[1..], scanner, complete, k - 1);
        assert visits + vs[1..] == before + vs;
        if k < |vs| { assert visits + vs[1..][..k] == before + vs[..k + 1]; }
      }
    }
  }

  lemma {:induction false} VisitsFromNode(e: nat, ts: seq<Token>)
    requires AtsDefined(e, ts)
    ensures AtsDefined(e, FromNode(ts)) && TokenVisits(e, FromNode(ts)) == TokenVisits(e, ts)
  {
    if ts != [] && !ts[0].BeginToken? { VisitsFromNode(e, ts[1..]); }
  }

  lemma {:induction false} FromNodeBracket(ts: seq<Token>)
    ensures FromNode(FromBracket(ts)) == FromNode(ts)
  {
    if ts != [] && ts[0].ItemToken? { FromNodeBracket(ts[1..]); }
  }

  /** Scanning what was written visits the nodes in the order they begin. */
  lemma {:induction false} ScanReads(d: seq<Byte>, e: nat, ts: seq<Token>, before: seq<Visit>,
                                     scanner: seq<Visit> -> Verdict)
    requires Block(d, e, ts) && Ordered(ts, false) && ts != [] && ts[0].BeginToken?
    ensures AtsDefined(e, ts) && 0 <= At(e, ts) && At(e, ts) + 4 <= |d| && e + 4 <= |d|
    ensures ScanFrom(d, At(e, ts) + 4, before, scanner)
            == Judge(before, TokenVisits(e, ts), scanner, Number(d, e) == END)
    decreases |ts|, 0
  {
    hide Block, At, WriteTokens, WriteToken, Number, Word, Terminator, SkipTo, ScanAfter;
    BlockDefined(d, e, ts);
    BlockRest(d, e, ts);
    BeginReads(d, e, ts);
    var rest := ts[1..];
    var visits := before + [Visit(ts[0].name, At(e, rest))];
    assert TokenVisits(e, ts)[1..] == TokenVisits(e, rest);
    if scanner(visits) == Continue { ScanGoesOn(d, e, rest, visits, scanner); }
  }

  lemma {:induction false} ScanGoesOn(d: seq<Byte>, e: nat, ts: seq<Token>, visits: seq<Visit>,
                                      scanner: seq<Visit> -> Verdict)
    requires Block(d, e, ts) && Ordered(ts, true) && AtsDefined(e, ts) && At(e, ts) <= |d|
    ensures e + 4 <= |d|
    ensures ScanAfter(d, At(e, ts), visits, scanner) == Judge(visits, TokenVisits(e, ts), scanner, Number(d, e) == END)
    decreases |ts|, 1
  {
    hide Block, At, WriteTokens, WriteToken, Number, Word, ScanFrom, SkipProperties, NextNode, TokenVisits;
    PropertiesSkipped(d, e, ts);
    var b := FromBracket(ts);
    NextNodeReads(d, e, b);
    FromNodeBracket(ts);
    VisitsFromNode(e, ts);
    var n := FromNode(ts);
    FromNodeBegins(ts);
    if n == [] {
      NoVisits(e);
    } else {
      ScanReads(d, e, n, visits, scanner);
    }
  }

  lemma NoVisits(e: nat)
    ensures AtsDefined(e, []) ==> TokenVisits(e, []) == []
  {
  }

  lemma FromNodeBegins(ts: seq<Token>)
    ensures FromNode(ts) != [] ==> FromNode(ts)[0].BeginToken?
  {
  }

  // ------------------------------------------------------------------ finding a child

  /** The first property of the first node of a given name one level below, in the tokens
      of a node after its name; depth levels are open below the node. */
  function TokenFind(e: nat, ts: seq<Token>, depth: nat, name: seq<Byte>): Option<nat>
    requires AtsDefined(e, ts)
  {
    if ts == [] then None
    else
      match ts[0]
      case BeginToken(x) =>
        if depth == 0 && x == name then Some(At(e, ts[1..])) else TokenFind(e, ts[1..], depth + 1, name)
      case EndToken => if depth == 0 then None else TokenFind(e, ts[1..], depth - 1, name)
      case ItemToken(_) => TokenFind(e, ts[1..], depth, name)
  }

  lemma {:induction false} FindBracket(e: nat, ts: seq<Token>, depth: nat, name: seq<Byte>)
    requires AtsDefined(e, ts)
    ensures AtsDefined(e, FromBracket(ts))
    ensures TokenFind(e, FromBracket(ts), depth, name) == TokenFind(e, ts, depth, name)
  {
    if ts != [] && ts[0].ItemToken? { FindBracket(e, ts[1..], depth, name); }
  }

  /** Past ends of nodes: either the search ends, or it goes on at a node. */
  lemma {:induction false} NextBelowReads(d: seq<Byte>, e: nat, ts: seq<Token>, depth: nat, name: seq<Byte>)
    returns (r: seq<Token>)
    requires Block(d, e, ts) && Ordered(ts, false) && AtsDefined(e, ts)
    ensures AtsDefined(e, r) && |r| <= |ts| && 0 <= At(e, ts) <= |d|
    ensures var n := NextBelow(d, At(e, ts), depth);
            if n.NoChild? then TokenFind(e, ts, depth, name) == None
            else
              && r != [] && r[0].BeginToken? && Block(d, e, r) && Ordered(r, false) && n.loc == At(e, r) + 4
              && n.depth >= 1 && TokenFind(e, ts, depth, name) == TokenFind(e, r, n.depth - 1, name)
    decreases |ts|
  {
    hide Block, At, WriteTokens, WriteToken, Number, Word;
    r := ts;
    if ts == [] {
      BlockEnd(d, e);
    } else {
      BlockRest(d, e, ts);
      match ts[0]
      case BeginToken(_) => BeginReads(d, e, ts);
      case EndToken =>
        PlainReads(d, e, ts);
        if depth > 0 { r := NextBelowReads(d, e, ts[1..], depth - 1, name); }
      case ItemToken(Nop) =>
        PlainReads(d, e, ts);
        r := NextBelowReads(d, e, ts[1..], depth, name);
    }
  }

  lemma {:induction false} FindReads(d: seq<Byte>, e: nat, ts: seq<Token>, depth: nat, name: seq<Byte>)
    requires Block(d, e, ts) && Ordered(ts, true) && AtsDefined(e, ts)
    ensures 0 <= At(e, ts) <= |d|
    ensures FindFrom(d, At(e, ts), depth, name) == TokenFind(e, ts, depth, name)
    decreases |ts|
  {
    hide Block, At, WriteTokens, WriteToken, Number, Word, Terminator, SkipTo, SkipProperties, NextBelow;
    BlockRest(d, e, ts);
    PropertiesSkipped(d, e, ts);
    var b := FromBracket(ts);
    FindBracket(e, ts, depth, name);
    var r := NextBelowReads(d, e, b, depth, name);
    var n := NextBelow(d, At(e, b), depth);
    if n.Child? {
      BlockRest(d, e, r);
      BeginReads(d, e, r);
      if !(n.depth == 1 && r[0].name == name) { FindReads(d, e, r[1..], n.depth, name); }
    }
  }

  // ------------------------------------------------------------------------- trees

  /** The tokens after a node's name. */
  function Inside(n: Node, rest: seq<Token>): seq<Token>
  {
    ItemTokens(n.items, KidsTokens(n.kids, [EndToken] + rest))
  }

  lemma NodeFirst(n: Node, rest: seq<Token>)
    ensures var ts := NodeTokens(n, rest); ts[0] == BeginToken(n.name) && ts[1..] == Inside(n, rest)
  {
  }

  ghost predicate OrderedBoth(ts: seq<Token>)
  {
    Ordered(ts, true) && Ordered(ts, false)
  }

  lemma {:induction false} ItemsOrdered(items: seq<Item>, rest: seq<Token>)
    requires Ordered(rest, true)
    ensures Ordered(ItemTokens(items, rest), true)
  {
    if items != [] {
      ItemsOrdered(items[1..], rest);
      assert ItemTokens(items, rest)[1..] == ItemTokens(items[1..], rest);
    }
  }

  lemma {:induction false} NodeOrdered(n: Node, rest: seq<Token>)
    requires Ordered(rest, false)
    ensures OrderedBoth(NodeTokens(n, rest)) && Ordered(Inside(n, rest), true)
    decreases n
  {
    NodeFirst(n, rest);
    var t := [EndToken] + rest;
    assert t[1..] == rest;
    KidsOrdered(n.kids, t);
    ItemsOrdered(n.items, KidsTokens(n.kids, t));
  }

  lemma {:induction false} KidsOrdered(k: Kids, rest: seq<Token>)
    requires OrderedBoth(rest)
    ensures OrderedBoth(KidsTokens(k, rest))
    decreases k
  {
    match k
    case NoKids =>
    case NopKid(more) =>
      KidsOrdered(more, rest);
      assert KidsTokens(k, rest)[1..] == KidsTokens(more, rest);
    case Kid(n, more) =>
      KidsOrdered(more, rest);
      NodeOrdered(n, KidsTokens(more, rest));
  }

  /** The names of a node and all below it, parents first. */
  function Preorder(n: Node): seq<seq<Byte>>
  {
    [n.name] + KidsPreorder(n.kids)
  }

  function KidsPreorder(k: Kids): seq<seq<Byte>>
  {
    match k
    case NoKids => []
    case NopKid(more) => KidsPreorder(more)
    case Kid(n, more) => Preorder(n) + KidsPreorder(more)
  }

  function Names(vs: seq<Visit>): seq<seq<Byte>>
  {
    if vs == [] then [] else [vs[0].name] + Names(vs[1..])
  }

  lemma {:induction false} ItemsVisited(e: nat, items: seq<Item>, rest: seq<Token>)
    requires AtsDefined(e, ItemTokens(items, rest))
    ensures AtsDefined(e, rest) && TokenVisits(e, ItemTokens(items, rest)) == TokenVisits(e, rest)
  {
    if items != [] {
      assert ItemTokens(items, rest)[1..] == ItemTokens(items[1..], rest);
      ItemsVisited(e, items[1..], rest);
    }
  }

  /** A written tree's nodes are visited once each, parents first. */
  lemma {:induction false} NodeVisited(e: nat, n: Node, rest: seq<Token>)
    requires AtsDefined(e, NodeTokens(n, rest))
    ensures AtsDefined(e, rest)
    ensures Names(TokenVisits(e, NodeTokens(n, rest))) == Preorder(n) + Names(TokenVisits(e, rest))
    decreases n
  {
    hide TokenVisits, Names, AtsDefined, At;
    NodeFirst(n, rest);
    var t := [EndToken] + rest;
    FirstVisited(e, NodeTokens(n, rest));
    ItemsVisited(e, n.items, KidsTokens(n.kids, t));
    KidsVisited(e, n.kids, t);
    FirstVisited(e, t);
    assert t[1..] == rest;
  }

  lemma FirstVisited(e: nat, ts: seq<Token>)
    requires AtsDefined(e, ts) && ts != []
    ensures AtsDefined(e, ts[1..])
    ensures Names(TokenVisits(e, ts)) ==
              (if ts[0].BeginToken? then [ts[0].name] else []) + Names(TokenVisits(e, ts[1..]))
  {
    if ts[0].BeginToken? {
      assert TokenVisits(e, ts)[1..] == TokenVisits(e, ts[1..]);
    }
  }

  lemma {:induction false} KidsVisited(e: nat, k: Kids, rest: seq<Token>)
    requires AtsDefined(e, KidsTokens(k, rest))
    ensures AtsDefined(e, rest)
    ensures Names(TokenVisits(e, KidsTokens(k, rest))) == KidsPreorder(k) + Names(TokenVisits(e, rest))
    decreases k
  {
    hide TokenVisits, Names, AtsDefined, At, NodeTokens, Preorder;
    match k
    case NoKids =>
    case NopKid(more) =>
      FirstVisited(e, KidsTokens(k, rest));
      assert KidsTokens(k, rest)[1..] == KidsTokens(more, rest);
      KidsVisited(e, more, rest);
    case Kid(n, more) =>
      NodeVisited(e, n, KidsTokens(more, rest));
      KidsVisited(e, more, rest);
  }

  /** The first child of a given name: the location of its first property. */
  function FirstChild(e: nat, k: Kids, rest: seq<Token>, name: seq<Byte>): Option<nat>
    requires AtsDefined(e, KidsTokens(k, rest))
    decreases k
  {
    match k
    case NoKids => None
    case NopKid(more) =>
      assert KidsTokens(k, rest)[1..] == KidsTokens(more, rest);
      FirstChild(e, more, rest, name)
    case Kid(n, more) =>
      assert NodeTokens(n, KidsTokens(more, rest))[1..] == Inside(n, KidsTokens(more, rest));
      if n.name == name then Some(At(e, Inside(n, KidsTokens(more, rest))))
      else
        NodeVisited(e, n, KidsTokens(more, rest));
        FirstChild(e, more, rest, name)
  }

  lemma {:induction false} ItemsPassed(e: nat, items: seq<Item>, rest: seq<Token>, depth: nat, name: seq<Byte>)
    requires AtsDefined(e, ItemTokens(items, rest))
    ensures AtsDefined(e, rest) && TokenFind(e, ItemTokens(items, rest), depth, name) == TokenFind(e, rest, depth, name)
  {
    if items != [] {
      assert ItemTokens(items, rest)[1..] == ItemTokens(items[1..], rest);
      ItemsPassed(e, items[1..], rest, depth, name);
    }
  }

  /** A node that is no child of the node searched, or is another's, is passed over whole. */
  lemma {:induction false} NodePassed(e: nat, n: Node, rest: seq<Token>, depth: nat, name: seq<Byte>)
    requires AtsDefined(e, NodeTokens(n, rest)) && (depth == 0 ==> n.name != name)
    ensures AtsDefined(e, rest) && TokenFind(e, NodeTokens(n, rest), depth, name) == TokenFind(e, rest, depth, name)
    decreases n
  {
    hide TokenFind, AtsDefined, At;
    NodeFirst(n, rest);
    var t := [EndToken] + rest;
    FirstPassed(e, NodeTokens(n, rest), depth, name);
    ItemsPassed(e, n.items, KidsTokens(n.kids, t), depth + 1, name);
    KidsPassed(e, n.kids, t, depth + 1, name);
    FirstPassed(e, t, depth + 1, name);
    assert t[1..] == rest;
  }

  lemma FirstPassed(e: nat, ts: seq<Token>, depth: nat, name: seq<Byte>)
    requires AtsDefined(e, ts) && ts != []
    ensures AtsDefined(e, ts[1..])
    ensures ts[0].BeginToken? && !(depth == 0 && ts[0].name == name) ==>
              TokenFind(e, ts, depth, name) == TokenFind(e, ts[1..], depth + 1, name)
    ensures ts[0].EndToken? && depth > 0 ==> TokenFind(e, ts, depth, name) == TokenFind(e, ts[1..], depth - 1, name)
  {
  }

  lemma {:induction false} KidsPassed(e: nat, k: Kids, rest: seq<Token>, depth: nat, name: seq<Byte>)
    requires AtsDefined(e, KidsTokens(k, rest)) && depth > 0
    ensures AtsDefined(e, rest) && TokenFind(e, KidsTokens(k, rest), depth, name) == TokenFind(e, rest, depth, name)
    decreases k
  {
    match k
    case NoKids =>
    case NopKid(more) =>
      assert KidsTokens(k, rest)[1..] == KidsTokens(more, rest);
      KidsPassed(e, more, rest, depth, name);
    case Kid(n, more) =>
      NodePassed(e, n, KidsTokens(more, rest), depth, name);
      KidsPassed(e, more, rest, depth, name);
  }

  lemma {:induction false} KidsFound(e: nat, k: Kids, rest: seq<Token>, name: seq<Byte>)
    requires rest != [] && rest[0].EndToken? && AtsDefined(e, KidsTokens(k, rest))
    ensures TokenFind(e, KidsTokens(k, rest), 0, name) == FirstChild(e, k, rest, name)
    decreases k
  {
    match k
    case NoKids =>
    case NopKid(more) =>
      assert KidsTokens(k, rest)[1..] == KidsTokens(more, rest);
      KidsFound(e, more, rest, name);
    case Kid(n, more) =>
      NodeFirst(n, KidsTokens(more, rest));
      if n.name != name {
        NodePassed(e, n, KidsTokens(more, rest), 0, name);
        KidsFound(e, more, rest, name);
      }
  }

  // ----------------------------------------------------------------- main theorems

  function Nops(k: nat): seq<Token>
  {
    if k == 0 then [] else [ItemToken(Nop)] + Nops(k - 1)
  }

  lemma {:induction false} NopsOrdered(k: nat)
    ensures Ordered(Nops(k), false)
  {
    if k > 0 {
      NopsOrdered(k - 1);
      assert Nops(k)[1..] == Nops(k - 1);
    }
  }

  lemma {:induction false} NopsVisited(e: nat, k: nat)
    requires AtsDefined(e, Nops(k))
    ensures TokenVisits(e, Nops(k)) == []
  {
    if k > 0 {
      assert Nops(k)[1..] == Nops(k - 1);
      NopsVisited(e, k - 1);
    }
  }

  /** Writing a tree between a header and the end token, or another word, and whatever
      follows makes a block of its tokens. */
  lemma WrittenIsBlock(header: seq<Byte>, ts: seq<Token>, last: nat, tail: seq<Byte>)
    requires |header| % 4 == 0 && AllWritable(ts) && last < 0x1_0000_0000 && NoMore(last)
    ensures var d := header + WriteTokens(ts) + Word(last) + tail;
            var e := |header| + |WriteTokens(ts)|;
            Block(d, e, ts) && At(e, ts) == |header| && Number(d, e) == last
  {
    hide Word, Number, WriteToken, WriteTokens;
    var w := WriteTokens(ts);
    var d, e := header + w + Word(last) + tail, |header| + |w|;
    assert d[|header|..e] == w;
    assert d[e..e + 4] == Word(last);
    NumberReadsBack(d, e, last);
  }

  /** Scanning a written tree, with no-operation tokens anywhere after its root begins,
      shows the scanner every node once, parents first, each with its name and the
      location of its first property, until the scanner stops. If it never stops, the scan
      succeeds exactly when the end token follows. */
  lemma ScanReadsTree(d: seq<Byte>, e: nat, n: Node, nops: nat, scanner: seq<Visit> -> Verdict)
    requires |d| >= HEADER_SIZE && Block(d, e, NodeTokens(n, Nops(nops)))
    ensures var ts := NodeTokens(n, Nops(nops));
            && AtsDefined(e, ts) && e + 4 <= |d|
            && Scan(d, At(e, ts), scanner) == Judge([], TokenVisits(e, ts), scanner, Number(d, e) == END)
            && Names(TokenVisits(e, ts)) == Preorder(n)
  {
    hide Block, At, Number, ScanFrom, Word, WriteToken, WriteTokens;
    var ts := NodeTokens(n, Nops(nops));
    NodeFirst(n, Nops(nops));
    NopsOrdered(nops);
    NodeOrdered(n, Nops(nops));
    BlockDefined(d, e, ts);
    BlockRest(d, e, ts);
    BeginReads(d, e, ts);
    ScanReads(d, e, ts, [], scanner);
    NodeVisited(e, n, Nops(nops));
    NopsVisited(e, nops);
  }

  /** The scan of a written tree ends with the node at which the scanner first says other
      than to go on, and succeeds there exactly if it was told to stop; otherwise it ends
      after the last node, and succeeds exactly when the end token follows. */
  lemma ScanEnds(d: seq<Byte>, e: nat, n: Node, nops: nat, scanner: seq<Visit> -> Verdict, k: nat)
    requires |d| >= HEADER_SIZE && Block(d, e, NodeTokens(n, Nops(nops)))
    requires AtsDefined(e, NodeTokens(n, Nops(nops)))
    requires var vs := TokenVisits(e, NodeTokens(n, Nops(nops)));
             k <= |vs| && forall j | 1 <= j <= k :: GoesOn([], vs, scanner, j)
    ensures At(e, NodeTokens(n, Nops(nops))) >= 0 && e + 4 <= |d|
    ensures var ts := NodeTokens(n, Nops(nops));
            var vs, r := TokenVisits(e, ts), Scan(d, At(e, ts), scanner);
            && (k == |vs| ==> r == Scanned(Number(d, e) == END, vs))
            && (k < |vs| && !GoesOn([], vs, scanner, k + 1) ==>
                  r == Scanned(scanner(vs[..k + 1]) == Stop, vs[..k + 1]))
  {
    hide Block, At, Number, Scan, Judge, TokenVisits;
    ScanReadsTree(d, e, n, nops, scanner);
    var vs := TokenVisits(e, NodeTokens(n, Nops(nops)));
    assert [] + vs == vs;
    if k < |vs| { assert [] + vs[..k + 1] == vs[..k + 1]; }
    JudgeEnds([], vs, scanner, Number(d, e) == END, k);
  }

  /** Finding a child of any node of a written tree gives the first of its own children of
      that name, or none, whatever their descendants are called. */
  lemma FindReadsTree(d: seq<Byte>, e: nat, n: Node, rest: seq<Token>, name: seq<Byte>)
    requires Block(d, e, Inside(n, rest)) && Ordered(rest, false)
    ensures var kids := KidsTokens(n.kids, [EndToken] + rest);
            && AtsDefined(e, kids) && 0 <= At(e, Inside(n, rest)) <= |d|
            && FindFrom(d, At(e, Inside(n, rest)), 0, name) == FirstChild(e, n.kids, [EndToken] + rest, name)
  {
    hide Block, FindFrom;
    NodeOrdered(n, rest);
    BlockDefined(d, e, Inside(n, rest));
    FindReads(d, e, Inside(n, rest), 0, name);
    ItemsPassed(e, n.items, KidsTokens(n.kids, [EndToken] + rest), 0, name);
    KidsFound(e, n.kids, [EndToken] + rest, name);
  }

  /** A no-operation token before the root, which the specification allows, makes the scan
      fail before it visits anything. */
  lemma LeadingNopRejected(d: seq<Byte>, e: nat, ts: seq<Token>, scanner: seq<Visit> -> Verdict)
    requires |d| >= HEADER_SIZE && Block(d, e, [ItemToken(Nop)] + ts)
    ensures AllWritable([ItemToken(Nop)] + ts) && At(e, [ItemToken(Nop)] + ts) >= 0
    ensures Scan(d, At(e, [ItemToken(Nop)] + ts), scanner) == Scanned(false, [])
  {
    PlainReads(d, e, [ItemToken(Nop)] + ts);
  }
}
