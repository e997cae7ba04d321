/** The flattened devicetree: how a tree is written as tokens and bytes (sections 5.4.1 and
    5.4.2 of the Devicetree Specification), what the reader computes from any bytes, and
    that it reads back what was written. */
module DeviceTree {
  import opened Rings

  type Byte = x: int | 0 <= x < 256

  const BEGIN_NODE: nat := 1
  const END_NODE: nat := 2
  const PROP: nat := 3
  const NOOP: nat := 4
  const END: nat := 9
  const HEADER_SIZE: nat := 32

  // ---------------------------------------------------------------------- writing

  /** What may stand between a node's name and its first child, and between children. */
  datatype Item = Property(nameOffset: nat, data: seq<Byte>) | Nop

  datatype Node = Node(name: seq<Byte>, items: seq<Item>, kids: Kids)

  datatype Kids = NoKids | NopKid(rest: Kids) | Kid(node: Node, rest: Kids)

  datatype Token = BeginToken(name: seq<Byte>) | EndToken | ItemToken(item: Item)

  /** The tokens of some items, followed by the rest. */
  function ItemTokens(items: seq<Item>, rest: seq<Token>): seq<Token>
  {
    if items == [] then rest else [ItemToken(items[0])] + ItemTokens(items[1..], rest)
  }

  /** The tokens of a node, followed by the rest. */
  function NodeTokens(n: Node, rest: seq<Token>): seq<Token>
  {
    [BeginToken(n.name)] + ItemTokens(n.items, KidsTokens(n.kids, [EndToken] + rest))
  }

  function KidsTokens(k: Kids, rest: seq<Token>): seq<Token>
  {
    match k
    case NoKids => rest
    case NopKid(more) => [ItemToken(Nop)] + KidsTokens(more, rest)
    case Kid(n, more) => NodeTokens(n, KidsTokens(more, rest))
  }

  /** Names are terminated by a zero byte, and numbers are 32 bits wide. */
  predicate Writable(t: Token)
  {
    match t
    case BeginToken(name) => forall i | 0 <= i < |name| :: name[i] != 0
    case EndToken => true
    case ItemToken(Property(off, data)) => off < 0x1_0000_0000 && |data| < 0x1_0000_0000
    case ItemToken(Nop) => true
  }

  function Word(x: nat): (w: seq<Byte>)
    requires x < 0x1_0000_0000
    ensures |w| == 4
  {
    var q := x / 0x100;
    [q / 0x100 / 0x100, q / 0x100 % 0x100, q % 0x100, x % 0x100]
  }

  /** Zero bytes up to a multiple of four. */
  function Padding(n: nat): (p: seq<Byte>)
    ensures (n + |p|) % 4 == 0 && |p| < 4
  {
    if n % 4 == 0 then [] else if n % 4 == 1 then [0, 0, 0] else if n % 4 == 2 then [0, 0] else [0]
  }

  /** Bytes followed by zero bytes up to a multiple of four. */
  function Padded(b: seq<Byte>): (w: seq<Byte>)
    ensures |w| % 4 == 0 && |b| <= |w| < |b| + 4 && w[..|b|] == b
  {
    b + Padding(|b|)
  }

  function BeginBytes(name: seq<Byte>): (w: seq<Byte>)
    ensures |w| % 4 == 0 && |w| >= 4
  {
    Word(BEGIN_NODE) + Padded(name + [0])
  }

  function PropertyBytes(off: nat, data: seq<Byte>): (w: seq<Byte>)
    requires off < 0x1_0000_0000 && |data| < 0x1_0000_0000
    ensures |w| % 4 == 0 && |w| >= 4
  {
    Word(PROP) + Word(|data|) + Word(off) + Padded(data)
  }

  function WriteToken(t: Token): (w: seq<Byte>)
    requires Writable(t)
    ensures |w| % 4 == 0 && |w| >= 4
  {
    match t
    case BeginToken(name) => BeginBytes(name)
    case EndToken => Word(END_NODE)
    case ItemToken(Property(off, data)) => PropertyBytes(off, data)
    case ItemToken(Nop) => Word(NOOP)
  }

  function WriteTokens(ts: seq<Token>): seq<Byte>
    requires forall t | t in ts :: Writable(t)
  {
    if ts == [] then [] else WriteToken(ts[0]) + WriteTokens(ts[1..])
  }

  // ---------------------------------------------------------------------- reading

  /** The big-endian number at a location. */
  function Number(d: seq<Byte>, loc: nat): (x: nat)
    requires loc + 4 <= |d|
    ensures x < 0x1_0000_0000
  {
    var a: int, b: int, c: int, e: int := d[loc], d[loc + 1], d[loc + 2], d[loc + 3];
    ((a * 0x100 + b) * 0x100 + c) * 0x100 + e
  }

  /** The first zero byte from a location on. */
  function Terminator(d: seq<Byte>, loc: nat): (r: Option<nat>)
    requires loc <= |d|
    ensures r.Some? ==> loc <= r.value < |d| && d[r.value] == 0 && forall i | loc <= i < r.value :: d[i] != 0
    ensures r.None? ==> forall i | loc <= i < |d| :: d[i] != 0
    decreases |d| - loc
  {
    if loc == |d| then None else if d[loc] == 0 then Some(loc) else Terminator(d, loc + 1)
  }

  function AlignUp(x: nat): (y: nat)
    ensures x <= y < x + 4 && y % 4 == 0
  {
    (x + 3) / 4 * 4
  }

  /** The location n bytes on, rounded up to a word; the end if no word is left. */
  function SkipTo(d: seq<Byte>, loc: nat, n: nat): (r: nat)
    requires loc <= |d| && |d| >= 4
    ensures loc <= r <= |d|
  {
    var offset := if |d| - loc < n then |d| - loc else n;
    if loc + offset > |d| - 4 then |d| else AlignUp(loc + offset)
  }

  /** The location of the first token after a node's properties, if it begins or ends a node. */
  function SkipProperties(d: seq<Byte>, loc: nat): (r: Option<nat>)
    requires loc <= |d| && |d| >= 4
    ensures r.Some? ==>
              && loc <= r.value <= |d| - 4
              && (Number(d, r.value) == BEGIN_NODE || Number(d, r.value) == END_NODE)
    decreases |d| - loc
  {
    if loc > |d| - 4 then None
    else
      var m := Number(d, loc);
      if m == PROP then
        if loc + 4 > |d| - 4 then None
        else SkipProperties(d, SkipTo(d, loc + 8, Number(d, loc + 4) + 4))
      else if m == BEGIN_NODE || m == END_NODE then Some(loc)
      else if m == NOOP then SkipProperties(d, loc + 4)
      else None
  }

  datatype Next = NodeAt(loc: nat) | Finished | Malformed

  /** Past the ends of nodes to the next node, whose name starts at the location given. */
  function NextNode(d: seq<Byte>, loc: nat): (r: Next)
    requires loc <= |d| && |d| >= 4
    ensures r.NodeAt? ==> loc < r.loc <= |d|
    decreases |d| - loc
  {
    if loc > |d| - 4 then Malformed
    else
      var m := Number(d, loc);
      if m == BEGIN_NODE then NodeAt(loc + 4)
      else if m == END_NODE || m == NOOP then NextNode(d, loc + 4)
      else if m == END then Finished
      else Malformed
  }

  /** A node's name, and the location of its first property. */
  datatype Visit = Visit(name: seq<Byte>, loc: nat)

  datatype Verdict = Continue | Stop | Fail

  datatype Scanned = Scanned(ok: bool, visits: seq<Visit>)

  /** Visits the node whose name starts at loc and those after it, in addition to the ones
      visited before, until the scanner stops. */
  function ScanFrom(d: seq<Byte>, loc: nat, before: seq<Visit>, scanner: seq<Visit> -> Verdict): Scanned
    requires loc <= |d| && |d| >= 4
    decreases |d| - loc, 1
  {
    var z := Terminator(d, loc);
    if z.None? then Scanned(false, before)
    else
      var first := SkipTo(d, z.value, 1);
      var visits := before + [Visit(d[loc..z.value], first)];
      var v := scanner(visits);
      if v != Continue then Scanned(v == Stop, visits) else ScanAfter(d, first, visits, scanner)
  }

  /** Goes on after a node that was visited, from its first property. */
  function ScanAfter(d: seq<Byte>, first: nat, visits: seq<Visit>, scanner: seq<Visit> -> Verdict): Scanned
    requires first <= |d| && |d| >= 4
    decreases |d| - first, 0
  {
    var p := SkipProperties(d, first);
    if p.None? then Scanned(false, visits)
    else
      var n := NextNode(d, p.value);
      if n.NodeAt? then ScanFrom(d, n.loc, visits, scanner) else Scanned(n.Finished?, visits)
  }

  function Scan(d: seq<Byte>, structOffset: nat, scanner: seq<Visit> -> Verdict): Scanned
    requires |d| >= HEADER_SIZE
  {
    if structOffset > |d| - 4 || Number(d, structOffset) != BEGIN_NODE then Scanned(false, [])
    else ScanFrom(d, structOffset + 4, [], scanner)
  }

  datatype Inner = Child(loc: nat, depth: nat) | NoChild

  /** Past the ends of nodes to the next node below the one searched, and its depth. */
  function NextBelow(d: seq<Byte>, loc: nat, depth: nat): (r: Inner)
    requires loc <= |d| && |d| >= 4
    ensures r.Child? ==> loc < r.loc <= |d| && r.depth >= 1
    decreases |d| - loc
  {
    if loc > |d| - 4 then NoChild
    else
      var m := Number(d, loc);
      if m == BEGIN_NODE then Child(loc + 4, depth + 1)
      else if m == END_NODE then if depth == 0 then NoChild else NextBelow(d, loc + 4, depth - 1)
      else if m == NOOP then NextBelow(d, loc + 4, depth)
      else NoChild
  }

  /** The first property of the first child of a given name. */
  function FindFrom(d: seq<Byte>, loc: nat, depth: nat, name: seq<Byte>): (r: Option<nat>)
    requires loc <= |d| && |d| >= 4
    ensures r.Some? ==> r.value <= |d|
    decreases |d| - loc
  {
    var p := SkipProperties(d, loc);
    if p.None? then None
    else
      var n := NextBelow(d, p.value, depth);
      if n.NoChild? then None
      else
        var z := Terminator(d, n.loc);
        if z.None? then None
        else
          var first := SkipTo(d, z.value, 1);
          if n.depth == 1 && d[n.loc..z.value] == name then Some(first)
          else FindFrom(d, first, n.depth, name)
  }

  // ------------------------------------------------------------ reading what is written

  lemma NumberReadsBack(d: seq<Byte>, loc: nat, x: nat)
    requires loc + 4 <= |d| && x < 0x1_0000_0000 && d[loc..loc + 4] == Word(x)
    ensures Number(d, loc) == x
  {
    var w := d[loc..loc + 4];
    assert d[loc] == w[0] && d[loc + 1] == w[1] && d[loc + 2] == w[2] && d[loc + 3] == w[3];
  }

  /** Where the tokens ts start, when they end at e. */
  function At(e: nat, ts: seq<Token>): int
    requires forall t | t in ts :: Writable(t)
  {
    e - |WriteTokens(ts)|
  }

  ghost predicate AllWritable(ts: seq<Token>)
  {
    forall t | t in ts :: Writable(t)
  }

  /** No more tokens of nodes follow: the end token, or one the reader does not expect. */
  predicate NoMore(m: nat)
  {
    m != BEGIN_NODE && m != END_NODE && m != NOOP
  }

  /** The tokens are written up to e, on a word boundary, and no more follow. */
  ghost predicate Block(d: seq<Byte>, e: nat, ts: seq<Token>)
  {
    && AllWritable(ts) && 0 <= At(e, ts) && At(e, ts) % 4 == 0 && e + 4 <= |d|
    && d[At(e, ts)..e] == WriteTokens(ts) && NoMore(Number(d, e))
  }

  lemma BlockRest(d: seq<Byte>, e: nat, ts: seq<Token>)
    requires Block(d, e, ts) && ts != []
    ensures Writable(ts[0]) && AllWritable(ts[1..]) && Block(d, e, ts[1..])
    ensures var w := WriteToken(ts[0]); At(e, ts) + |w| == At(e, ts[1..]) <= e && d[At(e, ts)..At(e, ts) + |w|] == w
    ensures e + 4 <= |d| && At(e, ts) >= 0 && At(e, ts[1..]) % 4 == 0
  {
    hide WriteToken;
    assert ts[0] in ts && forall t | t in ts[1..] :: t in ts;
    var w, r := WriteToken(ts[0]), WriteTokens(ts[1..]);
    var all := d[At(e, ts)..e];
    assert all == w + r;
    assert all[..|w|] == w && all[|w|..] == r;
    assert all[..|w|] == d[At(e, ts)..At(e, ts) + |w|];
    assert all[|w|..] == d[At(e, ts) + |w|..e];
  }

  /** Skipping to the next word ends at a boundary less than a word away. */
  lemma SkipToBoundary(d: seq<Byte>, loc: nat, n: nat, next: nat)
    requires next + 4 <= |d| && next % 4 == 0 && loc + n <= next < loc + n + 4
    ensures SkipTo(d, loc, n) == next
  {
  }

  lemma NumberAt(d: seq<Byte>, loc: nat, w: seq<Byte>, i: nat, x: nat)
    requires loc + |w| <= |d| && d[loc..loc + |w|] == w && x < 0x1_0000_0000 && i + 4 <= |w| && w[i..i + 4] == Word(x)
    ensures Number(d, loc + i) == x
  {
    hide Word, Number;
    SliceOfSlice(d, loc, w, i, 4);
    NumberReadsBack(d, loc + i, x);
  }

  lemma SliceOfSlice(d: seq<Byte>, loc: nat, w: seq<Byte>, i: nat, n: nat)
    requires loc + |w| <= |d| && d[loc..loc + |w|] == w && i + n <= |w|
    ensures d[loc + i..loc + i + n] == w[i..i + n]
  {
    var a, b := d[loc + i..loc + i + n], w[i..i + n];
    forall j | 0 <= j < n
      ensures a[j] == b[j]
    {
      assert a[j] == d[loc + i + j] == d[loc..loc + |w|][i + j];
    }
    assert a == b;
  }

  lemma BeginReads(d: seq<Byte>, e: nat, ts: seq<Token>)
    requires Block(d, e, ts) && ts != [] && ts[0].BeginToken?
    ensures AllWritable(ts[1..])
    ensures var loc, name := At(e, ts), ts[0].name;
            && loc + 8 <= |d| && Number(d, loc) == BEGIN_NODE
            && loc + 4 + |name| < |d| && Terminator(d, loc + 4) == Some(loc + 4 + |name|)
            && d[loc + 4..loc + 4 + |name|] == name && SkipTo(d, loc + 4 + |name|, 1) == At(e, ts[1..])
  {
    hide Word, Padded, Number, Terminator, SkipTo, Block, At, WriteTokens, WriteToken;
    BlockRest(d, e, ts);
    var loc, name, w := At(e, ts), ts[0].name, WriteToken(ts[0]);
    BeginParts(name);
    NumberAt(d, loc, w, 0, BEGIN_NODE);
    SliceOfSlice(d, loc, w, 4, |name|);
    SliceOfSlice(d, loc, w, 4 + |name|, 1);
    NameEnds(d, loc + 4, name);
    SkipToBoundary(d, loc + 4 + |name|, 1, At(e, ts[1..]));
  }

  lemma BeginParts(name: seq<Byte>)
    requires Writable(BeginToken(name))
    ensures var w := WriteToken(BeginToken(name));
            && 4 + |name| + 1 <= |w| < 4 + |name| + 5
            && w[0..4] == Word(BEGIN_NODE) && w[4..4 + |name|] == name && w[4 + |name|..4 + |name| + 1] == [0]
  {
    hide Word, Padded;
    var b := name + [0];
    var p := Padded(b);
    assert WriteToken(BeginToken(name)) == Word(BEGIN_NODE) + p;
    assert p[..|name|] == p[..|b|][..|name|] && p[|name|..|name| + 1] == p[..|b|][|name|..|name| + 1];
  }

  lemma NameEnds(d: seq<Byte>, loc: nat, name: seq<Byte>)
    requires Writable(BeginToken(name)) && loc + |name| < |d| && d[loc..loc + |name|] == name
    requires d[loc + |name|..loc + |name| + 1] == [0]
    ensures Terminator(d, loc) == Some(loc + |name|)
  {
    hide Terminator;
    var z := loc + |name|;
    assert d[z] == d[z..z + 1][0];
    forall i | loc <= i < z
      ensures d[i] != 0
    {
      assert d[i] == d[loc..z][i - loc];
    }
    TerminatorIs(d, loc, z);
  }

  lemma {:induction false} TerminatorIs(d: seq<Byte>, loc: nat, z: nat)
    requires loc <= z < |d| && d[z] == 0 && forall i | loc <= i < z :: d[i] != 0
    ensures Terminator(d, loc) == Some(z)
    decreases z - loc
  {
    if loc < z { TerminatorIs(d, loc + 1, z); }
  }

  lemma PropertyReads(d: seq<Byte>, e: nat, ts: seq<Token>)
    requires Block(d, e, ts) && ts != [] && ts[0].ItemToken? && ts[0].item.Property?
    ensures AllWritable(ts[1..])
    ensures var loc, data := At(e, ts), ts[0].item.data;
            && loc + 12 <= |d| && Number(d, loc) == PROP && Number(d, loc + 4) == |data|
            && SkipTo(d, loc + 8, |data| + 4) == At(e, ts[1..])
  {
    hide Word, Padded, Number, SkipTo, Block, At, WriteTokens;
    BlockRest(d, e, ts);
    var loc, data, off := At(e, ts), ts[0].item.data, ts[0].item.nameOffset;
    var w := WriteToken(ts[0]);
    assert w == Word(PROP) + Word(|data|) + Word(off) + Padded(data);
    assert w[0..4] == Word(PROP) && w[4..8] == Word(|data|);
    NumberAt(d, loc, w, 0, PROP);
    NumberAt(d, loc, w, 4, |data|);
    SkipToBoundary(d, loc + 8, |data| + 4, At(e, ts[1..]));
  }

  lemma PlainReads(d: seq<Byte>, e: nat, ts: seq<Token>)
    requires Block(d, e, ts) && ts != [] && (ts[0].EndToken? || ts[0] == ItemToken(Nop))
    ensures AllWritable(ts[1..])
    ensures At(e, ts) + 8 <= |d| && At(e, ts[1..]) == At(e, ts) + 4
    ensures Number(d, At(e, ts)) == if ts[0].EndToken? then END_NODE else NOOP
  {
    hide Word;
    BlockRest(d, e, ts);
    var w := WriteToken(ts[0]);
    var x := if ts[0].EndToken? then END_NODE else NOOP;
    assert w[0..4] == Word(x);
    NumberAt(d, At(e, ts), w, 0, x);
  }
}
