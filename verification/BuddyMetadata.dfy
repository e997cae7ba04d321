/** How the page allocator stores its lists: one flag bit for every pair of buddies,
    packed into words level by level, and a checksummed node in each listed block. */
module BuddyMetadata {
  import opened Words
  import opened Rings
  import opened BuddyPool
  import opened BuddyInit

  const WORD_BITS: nat := 64

  /** Words are of 64 bits. */
  const WORD_LIMIT: nat := 0x1_0000_0000_0000_0000

  // -------------------------------------------------------------------- layout

  /** The words that hold one bit for each pair of the given number of blocks. */
  function PairWords(blocks: nat): nat
  {
    ((blocks + 1) / 2 + WORD_BITS - 1) / WORD_BITS
  }

  /** The first flag word of level l, in an area of the given number of pages. */
  function Offset(pages: nat, l: nat): nat
  {
    if l == 0 then 0 else Offset(pages, l - 1) + PairWords(Shr(pages, l - 1))
  }

  function MetadataWords(a: Area): nat
  {
    Offset(a.size, a.top + 1)
  }

  function PairOf(a: Area, b: Block): nat
    requires a.base <= b.page
  {
    Shr(b.page - a.base, b.level) / 2
  }

  function FlagWord(a: Area, b: Block): nat
    requires a.base <= b.page
  {
    Offset(a.size, b.level) + PairOf(a, b) / WORD_BITS
  }

  function FlagBit(a: Area, b: Block): nat
    requires a.base <= b.page
  {
    PairOf(a, b) % WORD_BITS
  }

  lemma {:induction false} ShrStep(x: nat, l: nat)
    ensures Shr(x, l + 1) == Shr(x, l) / 2
  {
    if l > 0 { ShrStep(x / 2, l - 1); }
  }

  lemma OffsetStep(pages: nat, l: nat)
    ensures Offset(pages, 0) == 0 && Shr(pages, 0) == pages
    ensures Offset(pages, l + 1) == Offset(pages, l) + PairWords(Shr(pages, l))
  {
  }

  lemma {:induction false} OffsetMonotone(pages: nat, l: nat, m: nat)
    requires l <= m
    ensures Offset(pages, l) <= Offset(pages, m)
    decreases m - l
  {
    if l < m { OffsetMonotone(pages, l, m - 1); }
  }

  lemma {:induction false} ShrLess(x: nat, y: nat, l: nat)
    requires x + Pow2(l) <= y
    ensures Shr(x, l) < Shr(y, l)
    decreases l
  {
    if l > 0 { ShrLess(x / 2, y / 2, l - 1); }
  }

  /** A block inside the area has its flag word in its own level's slice. */
  lemma FlagInSlice(a: Area, b: Block)
    requires Placed(a, b) && b.level <= a.top
    ensures Offset(a.size, b.level) <= FlagWord(a, b) < Offset(a.size, b.level + 1) <= MetadataWords(a)
  {
    ShrLess(b.page - a.base, a.size, b.level);
    OffsetMonotone(a.size, b.level + 1, a.top + 1);
  }

  /** q times 2^l. */
  function Shl(q: nat, l: nat): nat
    decreases l
  {
    if l == 0 then q else 2 * Shl(q, l - 1)
  }

  lemma {:induction false} ShlFacts(q: nat, l: nat, size: nat)
    requires q < Shr(size, l)
    ensures Multiple(Shl(q, l), l) && Shr(Shl(q, l), l) == q && Shl(q, l) + Pow2(l) <= size
    decreases l
  {
    if l > 0 {
      ShlFacts(q, l - 1, size / 2);
      ShrOuter(size, l);
      ShrDouble(Shl(q, l - 1), l);
    }
  }

  lemma ShrOuter(x: nat, l: nat)
    requires l > 0
    ensures Shr(x, l) == Shr(x / 2, l - 1)
  {
  }

  lemma ShrDouble(x: nat, l: nat)
    requires l > 0
    ensures Shr(2 * x, l) == Shr(x, l - 1) && (Multiple(2 * x, l) <==> Multiple(x, l - 1))
  {
    assert (2 * x) / 2 == x && (2 * x) % 2 == 0;
  }

  /** The level whose slice of the flags holds word w. */
  lemma {:induction false} SliceOf(pages: nat, n: nat, w: nat) returns (l: nat)
    requires w < Offset(pages, n)
    ensures l < n && Offset(pages, l) <= w < Offset(pages, l + 1)
  {
    if w >= Offset(pages, n - 1) { l := n - 1; } else { l := SliceOf(pages, n - 1, w); }
  }

  /** The block lies in the area and starts on a multiple of its size. */
  predicate InArea(a: Area, b: Block)
  {
    Aligned(a.base, b) && b.page + Pow2(b.level) <= a.base + a.size
  }

  /** No flag word is wasted: each holds the flag of some block of the area. With
      FlagInSlice, the words are those the flags need and no more. */
  lemma EveryWordUsed(a: Area, w: nat)
    requires w < MetadataWords(a)
    ensures exists b :: InArea(a, b) && b.level <= a.top && FlagWord(a, b) == w
    ensures a.base > 0 ==> exists b :: Placed(a, b) && b.level <= a.top && FlagWord(a, b) == w
  {
    var l := SliceOf(a.size, a.top + 1, w);
    var n, j := Shr(a.size, l), w - Offset(a.size, l);
    OffsetStep(a.size, l);
    FirstOfWord(n, j);
    ShlFacts(2 * (j * WORD_BITS), l, a.size);
    var b := Block(a.base + Shl(2 * (j * WORD_BITS), l), l);
    assert PairOf(a, b) == j * WORD_BITS;
    assert FlagWord(a, b) == w && InArea(a, b);
    assert a.base > 0 ==> Placed(a, b);
  }

  lemma FirstOfWord(n: nat, j: nat)
    requires j < PairWords(n)
    ensures 2 * (j * WORD_BITS) < n
  {
  }

  lemma {:induction false} ShrInjective(x: nat, y: nat, l: nat)
    requires Multiple(x, l) && Multiple(y, l) && Shr(x, l) == Shr(y, l)
    ensures x == y
    decreases l
  {
    if l > 0 { ShrInjective(x / 2, y / 2, l - 1); }
  }

  /** Two blocks share a flag bit exactly when they are equal or buddies. */
  lemma SharedFlagIff(a: Area, b: Block, c: Block)
    requires Placed(a, b) && b.level <= a.top && Placed(a, c) && c.level <= a.top
    ensures (FlagWord(a, b) == FlagWord(a, c) && FlagBit(a, b) == FlagBit(a, c)) <==> c == b || c == Buddy(a.base, b)
  {
    BuddyFacts(a.base, b);
    FlagInSlice(a, b);
    FlagInSlice(a, c);
    if b.level < c.level {
      OffsetMonotone(a.size, b.level + 1, c.level);
    } else if c.level < b.level {
      OffsetMonotone(a.size, c.level + 1, b.level);
    } else {
      SharedPairIff(a, b, c);
    }
  }

  lemma SharedPairIff(a: Area, b: Block, c: Block)
    requires Aligned(a.base, b) && Aligned(a.base, c) && b.level == c.level
    ensures PairOf(a, b) == PairOf(a, c) <==> c == b || c == Buddy(a.base, b)
  {
    hide Multiple, Merged;
    BuddyFacts(a.base, b);
    var d, x, y, l := Buddy(a.base, b), b.page - a.base, c.page - a.base, b.level;
    ShrNeighbours(x, l);
    if Shr(x, l) == Shr(y, l) { ShrInjective(x, y, l); }
    if Shr(d.page - a.base, l) == Shr(y, l) { ShrInjective(d.page - a.base, y, l); }
  }

  // --------------------------------------------------------------------- flags

  predicate Flag(a: Area, flags: seq<nat>, b: Block)
    requires a.base <= b.page && FlagWord(a, b) < |flags|
  {
    Bit(flags[FlagWord(a, b)], FlagBit(a, b))
  }

  lemma {:induction false} XorBelow(x: nat, y: nat, w: nat)
    requires x < Pow2(w) && y < Pow2(w)
    ensures Xor(x, y) < Pow2(w)
    decreases w
  {
    XorHalf(x, y);
    if w > 0 { XorBelow(x / 2, y / 2, w - 1); }
  }

  lemma WordLimit()
    ensures WORD_LIMIT == Pow2(WORD_BITS)
  {
    assert Pow2(8) == 0x100;
    assert Pow2(16) == 0x1_0000;
    assert Pow2(24) == 0x100_0000;
    assert Pow2(32) == 0x1_0000_0000;
    assert Pow2(40) == 0x100_0000_0000;
    assert Pow2(48) == 0x1_0000_0000_0000;
    assert Pow2(56) == 0x100_0000_0000_0000;
  }

  /** Flipping a flag keeps its word a word. */
  lemma FlippedWord(x: nat, bit: nat)
    requires x < WORD_LIMIT && bit < WORD_BITS
    ensures Xor(x, Pow2(bit)) < WORD_LIMIT
  {
    hide Xor;
    WordLimit();
    Larger(bit, WORD_BITS);
    XorBelow(x, Pow2(bit), WORD_BITS);
  }

  /** Each pair's bit tells whether exactly one of its blocks is listed. */
  ghost predicate FlagsShow(a: Area, flags: seq<nat>, pool: Pool)
  {
    && |flags| == MetadataWords(a)
    && (forall i | 0 <= i < |flags| :: flags[i] < WORD_LIMIT)
    && forall b | Placed(a, b) && b.level <= a.top ::
         FlagWord(a, b) < |flags| && (Flag(a, flags, b) <==> Linked(pool, b) != Linked(pool, Buddy(a.base, b)))
  }

  /** Flipping b's bit when b enters or leaves the lists keeps every bit right. */
  lemma FlipShows(a: Area, flags: seq<nat>, pool: Pool, b: Block, pool': Pool)
    requires FlagsShow(a, flags, pool) && Placed(a, b) && b.level <= a.top
    requires forall c :: Linked(pool', c) <==> (Linked(pool, c) != (c == b))
    ensures FlagWord(a, b) < |flags|
    ensures FlagsShow(a, flags[FlagWord(a, b) := Xor(flags[FlagWord(a, b)], Pow2(FlagBit(a, b)))], pool')
  {
    FlagInSlice(a, b);
    var w := FlagWord(a, b);
    FlippedWord(flags[w], FlagBit(a, b));
    var flags' := flags[w := Xor(flags[w], Pow2(FlagBit(a, b)))];
    forall c | Placed(a, c) && c.level <= a.top
      ensures FlagWord(a, c) < |flags'|
      ensures Flag(a, flags', c) <==> Linked(pool', c) != Linked(pool', Buddy(a.base, c))
    {
      assert Flag(a, flags, c) <==> Linked(pool, c) != Linked(pool, Buddy(a.base, c));
      SharedFlagIff(a, b, c);
      FlipBit(flags[w], FlagBit(a, b), FlagBit(a, c));
      BuddyFacts(a.base, b);
      BuddyFacts(a.base, c);
    }
  }

  /** The single bit test in free: for a block that is not listed, its pair's bit is
      set exactly when its buddy is listed at that level. */
  lemma FlagTellsBuddy(a: Area, flags: seq<nat>, pool: Pool, b: Block)
    requires FlagsShow(a, flags, pool) && Placed(a, b) && b.level <= a.top && !Linked(pool, b)
    ensures FlagWord(a, b) < |flags|
    ensures And(flags[FlagWord(a, b)], Pow2(FlagBit(a, b))) == 0 <==> !Linked(pool, Buddy(a.base, b))
  {
    FlagInSlice(a, b);
    AndPow2(flags[FlagWord(a, b)], FlagBit(a, b));
    assert Flag(a, flags, b) <==> Linked(pool, b) != Linked(pool, Buddy(a.base, b));
  }

  // --------------------------------------------------------------------- nodes

  const CHECKSUM_SEED: nat := 0x09a5_2af1_c62b_d04b

  function Checksum(x: nat, y: nat): nat
  {
    Xor(Xor(CHECKSUM_SEED, x), y)
  }

  datatype BlockNode = BlockNode(next: nat, prev: nat, checksum: nat) {

    function UpdateChecksum(): BlockNode
    {
      this.(checksum := Checksum(prev, next))
    }

    predicate VerifyChecksum()
    {
      Checksum(next, prev) == checksum
    }
  }

  /** The order in which a checksum folds the two links does not matter. */
  lemma UpdatedVerifies(n: BlockNode)
    ensures n.UpdateChecksum().VerifyChecksum()
    ensures n.VerifyChecksum() <==> n == n.UpdateChecksum()
  {
    XorSwap(CHECKSUM_SEED, n.next, n.prev);
  }

  /** A change to one word of a valid node is noticed; the two links changing places is
      not. */
  lemma ChecksumDetects(n: BlockNode, x: nat)
    requires n.VerifyChecksum()
    ensures n.(next := x).VerifyChecksum() <==> x == n.next
    ensures n.(prev := x).VerifyChecksum() <==> x == n.prev
    ensures n.(checksum := x).VerifyChecksum() <==> x == n.checksum
    ensures n.(next := n.prev, prev := n.next).VerifyChecksum()
  {
    hide Xor;
    XorSwap(CHECKSUM_SEED, n.next, n.prev);
    XorSwap(CHECKSUM_SEED, x, n.prev);
    XorCancels(Xor(CHECKSUM_SEED, n.prev), n.next, x);
    XorCancels(Xor(CHECKSUM_SEED, n.next), n.prev, x);
  }

  predicate NodeShows(n: BlockNode, next: int, prev: int)
  {
    n.next == next && n.prev == prev && n.VerifyChecksum()
  }

  /** Every listed block holds a valid node with its links. */
  ghost predicate NodesShow(a: Area, nodes: seq<BlockNode>, pool: Pool)
    requires Sound(a, pool)
  {
    && |nodes| == a.size
    && forall b | Linked(pool, b) ::
         && 0 <= b.page - a.base < a.size
         && b.page in pool[b.level].prev
         && NodeShows(nodes[b.page - a.base], pool[b.level].next[b.page], pool[b.level].prev[b.page])
  }

  /** Zero flags and any nodes describe empty lists. */
  lemma EmptyShows(a: Area, flags: seq<nat>, nodes: seq<BlockNode>)
    requires |flags| == MetadataWords(a) && |nodes| == a.size && forall i | 0 <= i < |flags| :: flags[i] == 0
    ensures Sound(a, Empty(a)) && FlagsShow(a, flags, Empty(a)) && NodesShow(a, nodes, Empty(a))
  {
    assert forall b :: !Linked(Empty(a), b);
    forall b | Placed(a, b) && b.level <= a.top
      ensures FlagWord(a, b) < |flags| && !Flag(a, flags, b)
    {
      FlagInSlice(a, b);
      ZeroBits(FlagBit(a, b));
    }
  }

  /** nodes' agrees with nodes except at the given pages. */
  ghost predicate SameNodesBut(a: Area, nodes: seq<BlockNode>, nodes': seq<BlockNode>, pages: set<int>)
  {
    |nodes'| == |nodes| && forall i | 0 <= i < |nodes| && i + a.base !in pages :: nodes'[i] == nodes[i]
  }

  lemma UpdatedShows(n: BlockNode)
    ensures NodeShows(n.UpdateChecksum(), n.next, n.prev)
  {
    UpdatedVerifies(n);
  }

  lemma BlockIndex(a: Area, nodes: seq<BlockNode>, pool: Pool, b: Block)
    requires Sound(a, pool) && NodesShow(a, nodes, pool) && Placed(a, b)
    ensures |nodes| == a.size && 0 <= b.page - a.base < |nodes|
  {
  }

  /** The head and the tail of a non-empty list, and what their nodes hold. */
  lemma EndsOfList(a: Area, nodes: seq<BlockNode>, pool: Pool, b: Block)
    requires Sound(a, pool) && NodesShow(a, nodes, pool)
    requires Placed(a, b) && b.level < |pool| && Unused(pool, b) && pool[b.level].head != 0
    ensures var k := pool[b.level];
            && k.head in k.prev
            && var h, t := Block(k.head, b.level), Block(k.prev[k.head], b.level);
            && Linked(pool, h) && Linked(pool, t) && t.page in k.prev && k.Prev(h.page, t.page)
            && h.page != b.page && t.page != b.page
            && |nodes| == a.size && 0 <= h.page - a.base < a.size && 0 <= t.page - a.base < a.size
            && NodeShows(nodes[h.page - a.base], k.next[h.page], t.page)
            && NodeShows(nodes[t.page - a.base], h.page, k.prev[t.page])
            && (t == h ==> k.next[h.page] == h.page)
  {
    HeadsLinked(a, pool);
    var k := pool[b.level];
    var h, t := Block(k.head, b.level), Block(k.prev[k.head], b.level);
    assert Linked(pool, h);
    assert Consistent(k) && k.Prev(h.page, t.page) && k.Next(t.page, h.page);
    assert Linked(pool, t);
    assert Apart(b, h) && Apart(b, t);
  }

  /** The neighbours of a listed block, and what the nodes hold. */
  lemma NeighboursOf(a: Area, nodes: seq<BlockNode>, pool: Pool, b: Block)
    requires Sound(a, pool) && NodesShow(a, nodes, pool) && Linked(pool, b)
    ensures var k := pool[b.level];
            && b.page in k.prev
            && var n, q := Block(k.next[b.page], b.level), Block(k.prev[b.page], b.level);
            && Linked(pool, n) && Linked(pool, q) && n.page in k.prev && q.page in k.prev
            && |nodes| == a.size && 0 <= b.page - a.base < a.size
            && 0 <= n.page - a.base < a.size && 0 <= q.page - a.base < a.size
            && (n == b <==> q == b)
            && NodeShows(nodes[b.page - a.base], n.page, q.page)
            && NodeShows(nodes[n.page - a.base], k.next[n.page], b.page)
            && NodeShows(nodes[q.page - a.base], b.page, k.prev[q.page])
  {
    var k := pool[b.level];
    assert Consistent(k);
    LoneOrNot(k, b.page);
    var n, q := Block(k.next[b.page], b.level), Block(k.prev[b.page], b.level);
    assert k.Next(b.page, n.page) && k.Prev(n.page, b.page);
    assert k.Prev(b.page, q.page) && k.Next(q.page, b.page);
    assert Linked(pool, n) && Linked(pool, q);
  }

  /** Writing a self-linked node starts a list. */
  lemma FirstPushShows(a: Area, nodes: seq<BlockNode>, pool: Pool, b: Block, nodes': seq<BlockNode>)
    requires Sound(a, pool) && NodesShow(a, nodes, pool)
    requires Placed(a, b) && b.level < |pool| && Unused(pool, b) && pool[b.level].head == 0
    requires SameNodesBut(a, nodes, nodes', {b.page}) && b.page - a.base < |nodes'|
    requires NodeShows(nodes'[b.page - a.base], b.page, b.page)
    ensures Sound(a, Add(pool, b)) && NodesShow(a, nodes', Add(pool, b))
  {
    hide Consistent, Multiple, NodeShows, Placed, IsFree;
    AddBlock(a, pool, b);
    UnusedPlaced(a, pool, b);
    var after := Add(pool, b);
    forall c | Linked(after, c) && c != b
      ensures NodeShows(nodes'[c.page - a.base], after[c.level].next[c.page], after[c.level].prev[c.page])
    {
      assert Linked(pool, c) && Apart(b, c);
    }
  }

  /** Where the nodes of the blocks in the area are. */
  lemma UnusedPlaced(a: Area, pool: Pool, b: Block)
    requires Sound(a, pool) && Placed(a, b)
    ensures 0 <= b.page - a.base < a.size
    ensures forall c | Linked(pool, c) :: 0 <= c.page - a.base < a.size
  {
    hide Lists, Multiple;
  }

  /** Writing the new node and its neighbours' links appends to a list. */
  lemma PushShows(a: Area, nodes: seq<BlockNode>, pool: Pool, b: Block, nodes': seq<BlockNode>, h: Block, t: Block)
    requires Sound(a, pool) && NodesShow(a, nodes, pool)
    requires Placed(a, b) && b.level < |pool| && Unused(pool, b)
    requires var k := pool[b.level];
             && k.head == h.page != 0 && Linked(pool, h) && k.Prev(h.page, t.page) && Linked(pool, t)
             && h.level == b.level == t.level && t.page in k.prev
    requires |nodes'| == |nodes| && SameNodesBut(a, nodes, nodes', {b.page, h.page, t.page})
    requires var k := pool[b.level];
             && NodeShows(nodes'[b.page - a.base], h.page, t.page)
             && NodeShows(nodes'[h.page - a.base], if t == h then b.page else k.next[h.page], b.page)
             && NodeShows(nodes'[t.page - a.base], b.page, if t == h then b.page else k.prev[t.page])
    ensures Sound(a, Add(pool, b)) && NodesShow(a, nodes', Add(pool, b))
  {
    AddBlock(a, pool, b);
    hide Consistent, Multiple, NodeShows;
    var after := Add(pool, b);
    forall c | Linked(after, c) && c != b && c != h && c != t
      ensures NodeShows(nodes'[c.page - a.base], after[c.level].next[c.page], after[c.level].prev[c.page])
    {
      assert Linked(pool, c) && Apart(b, c) && Apart(c, h) && Apart(c, t);
    }
  }

  /** Joining the neighbours' links takes b out. */
  lemma BypassShows(a: Area, nodes: seq<BlockNode>, pool: Pool, b: Block, nodes': seq<BlockNode>, n: Block, q: Block)
    requires Sound(a, pool) && NodesShow(a, nodes, pool) && Linked(pool, b)
    requires var k := pool[b.level];
             && k.Next(b.page, n.page) && k.Prev(b.page, q.page) && n != b
             && Linked(pool, n) && Linked(pool, q) && n.page in k.prev && q.page in k.prev
             && n.level == b.level == q.level
    requires |nodes'| == |nodes| && SameNodesBut(a, nodes, nodes', {b.page, n.page, q.page})
    requires var k := pool[b.level];
             && NodeShows(nodes'[n.page - a.base], if n == q then n.page else k.next[n.page], q.page)
             && NodeShows(nodes'[q.page - a.base], n.page, if n == q then n.page else k.prev[q.page])
    ensures Remove(pool, b).Some? && Sound(a, Remove(pool, b).value) && NodesShow(a, nodes', Remove(pool, b).value)
  {
    hide Multiple, Aligned, Xor;
    RemoveBlock(a, pool, b);
    LoneOrNot(pool[b.level], b.page);
    var after := Remove(pool, b).value;
    forall c | Linked(after, c) && c != n && c != q
      ensures NodeShows(nodes'[c.page - a.base], after[c.level].next[c.page], after[c.level].prev[c.page])
    {
      assert Linked(pool, c) && Apart(b, c) && Apart(c, n) && Apart(c, q);
    }
  }

  /** Taking a lone block off its list leaves its node as it is. */
  lemma LoneRemoveShows(a: Area, nodes: seq<BlockNode>, pool: Pool, b: Block)
    requires Sound(a, pool) && NodesShow(a, nodes, pool) && Linked(pool, b)
    requires pool[b.level].next[b.page] == b.page == pool[b.level].head && b.page in pool[b.level].prev
    ensures Remove(pool, b).Some? && Sound(a, Remove(pool, b).value) && NodesShow(a, nodes, Remove(pool, b).value)
  {
    RemoveBlock(a, pool, b);
    hide Consistent, Multiple, NodeShows;
    var after := Remove(pool, b).value;
    forall c | Linked(after, c)
      ensures NodeShows(nodes[c.page - a.base], after[c.level].next[c.page], after[c.level].prev[c.page])
    {
      assert Linked(pool, c);
    }
  }

  lemma LoneOrNot(k: Links, b: int)
    requires Consistent(k) && k.Has(b)
    ensures b in k.prev && (k.next[b] == b <==> k.prev[b] == b)
  {
    assert k.Next(b, b) <==> k.Prev(b, b);
  }
}
