/** The page allocator's free lists as values: one list of blocks for every level,
    and what allocating and freeing do to them. A block at level l is 2^l pages
    long; addresses are page numbers. */
module BuddyPool {
  import opened Words
  import opened Rings

  /** The pages [base, base + size) served, with block levels 0 to top. */
  datatype Area = Area(base: nat, size: nat, top: nat)

  datatype Block = Block(page: int, level: nat)

  type Pool = seq<Links>

  predicate Linked(pool: Pool, b: Block)
  {
    b.level < |pool| && pool[b.level].Has(b.page)
  }

  predicate Covers(b: Block, q: int)
  {
    b.page <= q < b.page + Pow2(b.level)
  }

  predicate Apart(b: Block, c: Block)
  {
    b.page + Pow2(b.level) <= c.page || c.page + Pow2(c.level) <= b.page
  }

  /** b starts on a multiple of its size counted from the base of the area. */
  predicate Aligned(base: nat, b: Block)
  {
    base <= b.page && Multiple(b.page - base, b.level)
  }

  predicate Placed(a: Area, b: Block)
  {
    Aligned(a.base, b) && b.page + Pow2(b.level) <= a.base + a.size && 0 < b.page
  }

  /** Page q lies in some listed block. */
  ghost predicate IsFree(pool: Pool, q: int)
  {
    exists b :: Linked(pool, b) && Covers(b, q)
  }

  ghost predicate Unused(pool: Pool, b: Block)
  {
    forall c | Linked(pool, c) :: Apart(b, c)
  }

  ghost predicate Lists(a: Area, pool: Pool)
  {
    |pool| == a.top + 1 && forall l | 0 <= l < |pool| :: Consistent(pool[l])
  }

  /** Listed blocks are aligned, inside the area and pairwise disjoint. */
  ghost predicate Sound(a: Area, pool: Pool)
  {
    && Lists(a, pool)
    && (forall b | Linked(pool, b) :: Placed(a, b))
    && (forall b, c | Linked(pool, b) && Linked(pool, c) && b != c :: Apart(b, c))
  }

  // ------------------------------------------------------------------ buddies

  /** The other half of b's pair, counted from the base of the area. */
  function Buddy(base: nat, b: Block): Block
  {
    Block(base + OtherHalf(b.page - base, b.level), b.level)
  }

  function Merged(base: nat, b: Block): Block
  {
    var c := Buddy(base, b);
    Block(if b.page <= c.page then b.page else c.page, b.level + 1)
  }

  lemma BuddyAligned(base: nat, b: Block)
    requires Aligned(base, b)
    ensures var c, m := Buddy(base, b), Merged(base, b);
            Aligned(base, c) && Buddy(base, c) == b && Aligned(base, m)
  {
    PairFacts(b.page - base, b.level);
  }

  lemma BuddyFacts(base: nat, b: Block)
    requires Aligned(base, b)
    ensures var c, m := Buddy(base, b), Merged(base, b);
            && Aligned(base, c) && c != b && Buddy(base, c) == b && Apart(b, c)
            && Aligned(base, m) && Merged(base, c) == m
            && (forall q :: Covers(m, q) <==> Covers(b, q) || Covers(c, q))
  {
    BuddyAligned(base, b);
  }

  /** free finds the buddy by flipping one bit of the offset from the base. */
  lemma BuddyByXor(base: nat, b: Block)
    requires Aligned(base, b)
    ensures Buddy(base, b).page == Xor(b.page - base, Pow2(b.level)) + base
  {
    XorAligned(b.page - base, b.level);
  }

  /** Aligned blocks nest or are disjoint. */
  lemma Nested(base: nat, b: Block, c: Block)
    requires Aligned(base, b) && Aligned(base, c) && b.level <= c.level
    ensures Apart(b, c) || (c.page <= b.page && b.page + Pow2(b.level) <= c.page + Pow2(c.level))
  {
    var x, y, e := b.page - base, c.page - base, Pow2(c.level);
    Coarser(y, b.level, c.level);
    Pow2Multiple(b.level, c.level);
    MultipleSum(y, e, b.level);
    if x < y { MultipleGap(x, y, b.level); }
    if x < y + e { MultipleGap(x, y + e, b.level); }
  }

  /** Two aligned blocks that share a page nest. */
  lemma Sharing(base: nat, b: Block, c: Block, q: int)
    requires Aligned(base, b) && Aligned(base, c) && b.level <= c.level
    requires Covers(b, q) && Covers(c, q)
    ensures c.page <= b.page && b.page + Pow2(b.level) <= c.page + Pow2(c.level)
    ensures b.level == c.level ==> b == c
  {
    Nested(base, b, c);
  }

  // -------------------------------------------------- adding and removing blocks

  function Add(pool: Pool, b: Block): Pool
    requires b.level < |pool| && (pool[b.level].head != 0 ==> pool[b.level].head in pool[b.level].prev)
  {
    pool[b.level := PushTail(pool[b.level], b.page)]
  }

  function Remove(pool: Pool, b: Block): Option<Pool>
    requires Linked(pool, b) && b.page in pool[b.level].prev
  {
    match Unlink(pool[b.level], b.page)
    case None => None
    case Some(k) => Some(pool[b.level := k])
  }

  lemma AddBlock(a: Area, pool: Pool, b: Block)
    requires Sound(a, pool) && Placed(a, b) && b.level < |pool| && Unused(pool, b)
    ensures pool[b.level].head != 0 ==> pool[b.level].head in pool[b.level].prev
    ensures !Linked(pool, b)
    ensures var after := Add(pool, b);
            && Sound(a, after)
            && (forall c :: Linked(after, c) <==> Linked(pool, c) || c == b)
            && (forall q :: IsFree(after, q) <==> IsFree(pool, q) || Covers(b, q))
  {
    var l := b.level;
    assert !Linked(pool, b);
    assert Consistent(pool[l]);
    PushTailConsistent(pool[l], b.page);
    var after := Add(pool, b);
    forall c
      ensures Linked(after, c) <==> Linked(pool, c) || c == b
    {
      if c.level < |pool| {
        assert after[c.level] == if c.level == l then PushTail(pool[l], b.page) else pool[c.level];
      }
    }
    assert Linked(after, b);
    forall q ensures IsFree(after, q) <==> IsFree(pool, q) || Covers(b, q) {
      if IsFree(pool, q) {
        var c :| Linked(pool, c) && Covers(c, q);
        assert Linked(after, c);
      }
    }
  }

  lemma RemoveBlock(a: Area, pool: Pool, b: Block)
    requires Sound(a, pool) && Linked(pool, b)
    ensures b.page in pool[b.level].prev
    ensures Remove(pool, b).None? <==> pool[b.level].next[b.page] == b.page != pool[b.level].head
    ensures Remove(pool, b).Some? ==>
              var after := Remove(pool, b).value;
              && Sound(a, after)
              && (forall c :: Linked(after, c) <==> Linked(pool, c) && c != b)
              && (forall q :: IsFree(after, q) <==> IsFree(pool, q) && !Covers(b, q))
              && Unused(after, b)
  {
    var l := b.level;
    assert Consistent(pool[l]);
    UnlinkConsistent(pool[l], b.page);
    if Remove(pool, b).Some? {
      var after := Remove(pool, b).value;
      forall c
        ensures Linked(after, c) <==> Linked(pool, c) && c != b
      {
        if c.level < |pool| && c.level != l { assert after[c.level] == pool[c.level]; }
      }
      forall q ensures IsFree(after, q) <==> IsFree(pool, q) && !Covers(b, q) {
        if IsFree(pool, q) && !Covers(b, q) {
          var c :| Linked(pool, c) && Covers(c, q);
          assert Linked(after, c);
        }
      }
    }
  }

  lemma HeadLinked(a: Area, pool: Pool, l: nat)
    requires Sound(a, pool) && l < |pool| && pool[l].head != 0
    ensures Linked(pool, Block(pool[l].head, l)) && pool[l].head in pool[l].prev
  {
    assert Consistent(pool[l]);
  }

  lemma UnusedBlock(a: Area, pool: Pool, b: Block)
    requires Placed(a, b) && Unused(pool, b)
    ensures !Linked(pool, b) && 0 < b.page && a.base <= b.page
  {
  }

  lemma LinkedPlaced(a: Area, pool: Pool, b: Block)
    requires Sound(a, pool) && Linked(pool, b)
    ensures Placed(a, b) && b.level <= a.top
  {
  }

  // --------------------------------------------------------------- allocation

  /** The lowest level from k up whose list has a head, or |pool|. */
  function FirstLevel(pool: Pool, k: nat): (l: nat)
    requires k <= |pool|
    ensures k <= l <= |pool|
    ensures forall m | k <= m < l :: pool[m].head == 0
    ensures l < |pool| ==> pool[l].head != 0
    decreases |pool| - k
  {
    if k == |pool| || pool[k].head != 0 then k else FirstLevel(pool, k + 1)
  }

  lemma HeadsLinked(a: Area, pool: Pool)
    requires Lists(a, pool)
    ensures forall l | 0 <= l < |pool| && pool[l].head != 0 ::
              pool[l].Has(pool[l].head) && pool[l].head in pool[l].prev
  {
    forall l | 0 <= l < |pool|
      ensures pool[l].head != 0 ==> pool[l].Has(pool[l].head) && pool[l].head in pool[l].prev
    {
      assert Consistent(pool[l]);
    }
  }

  /** Halve the free-standing block at page p from level l down to level k, listing
      every odd half. */
  ghost function Split(a: Area, pool: Pool, p: int, l: nat, k: nat): (r: Pool)
    requires Sound(a, pool) && k <= l < |pool|
    requires Placed(a, Block(p, l)) && Unused(pool, Block(p, l))
    ensures |r| == |pool|
    decreases l
  {
    if l == k then pool
    else
      SplitStep(a, pool, p, l);
      Split(a, Add(pool, Block(p + Pow2(l - 1), l - 1)), p, l - 1, k)
  }

  lemma SplitStep(a: Area, pool: Pool, p: int, l: nat)
    requires Sound(a, pool) && 0 < l < |pool|
    requires Placed(a, Block(p, l)) && Unused(pool, Block(p, l))
    ensures pool[l - 1].head != 0 ==> pool[l - 1].head in pool[l - 1].prev
    ensures var half, rest := Block(p + Pow2(l - 1), l - 1), Block(p, l - 1);
            var after := Add(pool, half);
            && !Linked(pool, half) && Placed(a, half) && Unused(pool, half)
            && Sound(a, after) && Placed(a, rest) && Unused(after, rest)
            && (forall c :: Linked(after, c) <==> Linked(pool, c) || c == half)
            && (forall q :: IsFree(after, q) <==> IsFree(pool, q) || Covers(half, q))
  {
    hide Sound, Multiple, Add;
    var half, rest := Block(p + Pow2(l - 1), l - 1), Block(p, l - 1);
    Coarser(p - a.base, l - 1, l);
    Pow2Multiple(l - 1, l - 1);
    MultipleSum(p - a.base, Pow2(l - 1), l - 1);
    assert forall c | Linked(pool, c) :: Apart(Block(p, l), c);
    assert Unused(pool, half);
    AddBlock(a, pool, half);
  }

  lemma {:induction false} SplitEffect(a: Area, pool: Pool, p: int, l: nat, k: nat)
    requires Sound(a, pool) && k <= l < |pool|
    requires Placed(a, Block(p, l)) && Unused(pool, Block(p, l))
    ensures var after := Split(a, pool, p, l, k);
            && Sound(a, after) && Placed(a, Block(p, k)) && Unused(after, Block(p, k))
            && (forall q :: IsFree(after, q) <==>
                  IsFree(pool, q) || (Covers(Block(p, l), q) && !Covers(Block(p, k), q)))
    decreases l
  {
    if l > k {
      SplitStep(a, pool, p, l);
      var half, rest := Block(p + Pow2(l - 1), l - 1), Block(p, l - 1);
      Pow2Monotone(k, l - 1);
      assert forall q :: Covers(Block(p, l), q) <==> Covers(half, q) || Covers(rest, q);
      assert forall q :: Covers(half, q) ==> !Covers(Block(p, k), q);
      SplitEffect(a, Add(pool, half), p, l - 1, k);
    }
  }

  datatype Allocation = NoBlock | Taken(page: int, pool: Pool)

  /** Take the head of the lowest list from level k up that has one, and halve it. */
  ghost function Allocate(a: Area, pool: Pool, k: nat): Allocation
    requires Sound(a, pool)
  {
    if k >= |pool| || FirstLevel(pool, k) == |pool| then NoBlock
    else
      var l := FirstLevel(pool, k);
      HeadsLinked(a, pool);
      var b := Block(pool[l].head, l);
      RemoveBlock(a, pool, b);
      Taken(b.page, Split(a, Remove(pool, b).value, b.page, l, k))
  }

  /** Allocation begins by taking the head of the first level that has one. */
  lemma HeadSplit(a: Area, pool: Pool, k: nat)
    requires Sound(a, pool) && k < |pool| && FirstLevel(pool, k) < |pool|
    ensures var l := FirstLevel(pool, k);
            var b := Block(pool[l].head, l);
            && Linked(pool, b) && b.page in pool[b.level].prev && Remove(pool, b).Some?
            && var rest := Remove(pool, b).value;
            && Sound(a, rest) && Placed(a, b) && Unused(rest, b) && |rest| == |pool|
            && Allocate(a, pool, k) == Taken(b.page, Split(a, rest, b.page, l, k))
  {
    hide Sound, Split;
    var l := FirstLevel(pool, k);
    HeadLinked(a, pool, l);
    RemoveBlock(a, pool, Block(pool[l].head, l));
    LinkedPlaced(a, pool, Block(pool[l].head, l));
  }

  lemma SplitNext(a: Area, pool: Pool, p: int, l: nat, k: nat)
    requires Sound(a, pool) && k < l < |pool|
    requires Placed(a, Block(p, l)) && Unused(pool, Block(p, l))
    ensures pool[l - 1].head != 0 ==> pool[l - 1].head in pool[l - 1].prev
    ensures var half, rest := Block(p + Pow2(l - 1), l - 1), Block(p, l - 1);
            var after := Add(pool, half);
            && Placed(a, half) && Unused(pool, half) && Sound(a, after) && Placed(a, rest) && Unused(after, rest)
            && Split(a, pool, p, l, k) == Split(a, after, p, l - 1, k)
  {
    hide Sound, Placed, Unused;
    SplitStep(a, pool, p, l);
  }

  lemma SplitEnd(a: Area, pool: Pool, p: int, k: nat)
    requires Sound(a, pool) && k < |pool| && Placed(a, Block(p, k)) && Unused(pool, Block(p, k))
    ensures Split(a, pool, p, k, k) == pool
  {
  }

  /** Safety: the block handed out is aligned, inside the area, was entirely free,
      and leaves the free lists; no other page changes hands. It is the start of the first
      block of the lowest sufficient level that has one. */
  lemma AllocateSafe(a: Area, pool: Pool, k: nat)
    requires Sound(a, pool) && Allocate(a, pool, k).Taken?
    ensures var Taken(p, after) := Allocate(a, pool, k);
            var b := Block(p, k);
            && Sound(a, after) && k <= a.top && Placed(a, b)
            && (forall q | Covers(b, q) :: IsFree(pool, q))
            && (forall q :: IsFree(after, q) <==> IsFree(pool, q) && !Covers(b, q))
    ensures exists l ::
              && k <= l < |pool| && pool[l].head == Allocate(a, pool, k).page != 0
              && (forall m | k <= m < l :: pool[m].head == 0)
  {
    var l := FirstLevel(pool, k);
    HeadsLinked(a, pool);
    var b := Block(pool[l].head, l);
    RemoveBlock(a, pool, b);
    SplitEffect(a, Remove(pool, b).value, b.page, l, k);
    Pow2Monotone(k, l);
    assert forall q | Covers(b, q) :: IsFree(pool, q);
  }

  // -------------------------------------------------------------------- freeing

  datatype Freed = Panicked | Listed(pool: Pool) | Dropped(pool: Pool)

  /** Merge b with its buddy for as long as the buddy is listed. A removal may
      panic; a merge at the top level ends the loop with the result unlisted. */
  ghost function Coalesce(a: Area, pool: Pool, b: Block): Freed
    requires Sound(a, pool) && Placed(a, b) && b.level <= |pool|
    decreases |pool| - b.level
  {
    if b.level == |pool| then Dropped(pool)
    else
      var c := Buddy(a.base, b);
      HeadsLinked(a, pool);
      if !Linked(pool, c) then Listed(Add(pool, b))
      else
        RemoveBlock(a, pool, c);
        BuddyFacts(a.base, b);
        match Remove(pool, c)
        case None => Panicked
        case Some(after) => Coalesce(a, after, Merged(a.base, b))
  }

  /** The aligned block of level l that holds b. */
  function Ancestor(base: nat, b: Block, l: nat): Block
    requires base <= b.page
  {
    Block(base + AlignDown(b.page - base, l), l)
  }

  lemma AncestorHolds(base: nat, b: Block, l: nat)
    requires Aligned(base, b) && b.level <= l
    ensures var m := Ancestor(base, b, l);
            && Aligned(base, m)
            && m.page <= b.page && b.page + Pow2(b.level) <= m.page + Pow2(l)
  {
    AlignDownMultiple(b.page - base, l);
    Sharing(base, b, Ancestor(base, b, l), b.page);
  }

  lemma AncestorMerged(base: nat, b: Block, l: nat)
    requires Aligned(base, b) && b.level < l
    ensures Aligned(base, Merged(base, b)) && Ancestor(base, Merged(base, b), l) == Ancestor(base, b, l)
  {
    BuddyFacts(base, b);
    AncestorHolds(base, b, l);
    AncestorHolds(base, Merged(base, b), l);
    Sharing(base, Ancestor(base, b, l), Ancestor(base, Merged(base, b), l), b.page);
  }

  /** Removing b's listed buddy makes room for the merged block. */
  lemma CoalesceStep(a: Area, pool: Pool, b: Block)
    requires Sound(a, pool) && Placed(a, b) && Unused(pool, b) && Linked(pool, Buddy(a.base, b))
    ensures var c, m := Buddy(a.base, b), Merged(a.base, b);
            && c.page in pool[c.level].prev
            && (Remove(pool, c).Some? ==>
                 var after := Remove(pool, c).value;
                 && Sound(a, after) && Placed(a, m) && Unused(after, m)
                 && (forall q :: Covers(m, q) <==> Covers(b, q) || Covers(c, q))
                 && (forall q | Covers(c, q) :: IsFree(pool, q))
                 && (forall q :: IsFree(after, q) <==> IsFree(pool, q) && !Covers(c, q)))
  {
    var c := Buddy(a.base, b);
    RemoveBlock(a, pool, c);
    BuddyFacts(a.base, b);
    if Remove(pool, c).Some? {
      assert forall e | Linked(Remove(pool, c).value, e) :: Apart(b, e) && Apart(c, e);
    }
  }

  lemma CoalesceEnds(a: Area, pool: Pool, b: Block)
    requires Sound(a, pool) && Placed(a, b) && Unused(pool, b) && b.level <= |pool|
    ensures Aligned(a.base, b) && 0 < b.page && b.level <= a.top + 1 == |pool| && !Linked(pool, b)
    ensures b.level == |pool| ==> Coalesce(a, pool, b) == Dropped(pool)
    ensures b.level < |pool| && !Linked(pool, Buddy(a.base, b)) ==>
              (pool[b.level].head != 0 ==> pool[b.level].head in pool[b.level].prev)
              && Coalesce(a, pool, b) == Listed(Add(pool, b))
  {
    HeadsLinked(a, pool);
  }

  /** One round of merging. */
  lemma CoalesceMerges(a: Area, pool: Pool, b: Block)
    requires Sound(a, pool) && Placed(a, b) && Unused(pool, b) && Linked(pool, Buddy(a.base, b))
    ensures var c, m := Buddy(a.base, b), Merged(a.base, b);
            && c.level == b.level < |pool| && m.level == b.level + 1 && c.page in pool[c.level].prev
            && m.page == (if b.page <= c.page then b.page else c.page)
            && (Remove(pool, c).None? ==> Coalesce(a, pool, b) == Panicked)
            && (Remove(pool, c).Some? ==>
                  var after := Remove(pool, c).value;
                  && Sound(a, after) && Placed(a, m) && Unused(after, m)
                  && Coalesce(a, pool, b) == Coalesce(a, after, m))
  {
    hide Consistent, Multiple, Shr, Unused;
    CoalesceStep(a, pool, b);
  }

  /** Safety of free: the freed pages become free and nothing else changes, except
      that a completed pair of top-level blocks leaves the lists altogether. */
  lemma {:induction false} CoalesceEffect(a: Area, pool: Pool, b: Block)
    requires Sound(a, pool) && Placed(a, b) && Unused(pool, b) && b.level <= |pool|
    ensures match Coalesce(a, pool, b)
            case Panicked => true
            case Listed(after) =>
              && Sound(a, after)
              && (forall q :: IsFree(after, q) <==> IsFree(pool, q) || Covers(b, q))
            case Dropped(after) =>
              var d := Ancestor(a.base, b, |pool|);
              && Sound(a, after)
              && (forall q :: IsFree(after, q) <==> IsFree(pool, q) && !Covers(d, q))
              && (forall q | Covers(d, q) :: IsFree(pool, q) || Covers(b, q))
    decreases |pool| - b.level
  {
    HeadsLinked(a, pool);
    AncestorHolds(a.base, b, |pool|);
    if b.level < |pool| {
      if Linked(pool, Buddy(a.base, b)) {
        CoalesceStep(a, pool, b);
        AncestorMerged(a.base, b, |pool|);
        AncestorHolds(a.base, Merged(a.base, b), |pool|);
        var c := Buddy(a.base, b);
        if Remove(pool, c).Some? {
          assert forall q | Covers(c, q) :: Covers(Merged(a.base, b), q);
          assert forall q | Covers(c, q) :: Covers(Ancestor(a.base, b, |pool|), q);
          CoalesceEffect(a, Remove(pool, c).value, Merged(a.base, b));
        }
      } else {
        AddBlock(a, pool, b);
      }
    }
  }

  // ------------------------------------------------------- maximal coalescing

  /** No two buddies below the top level are both listed. */
  ghost predicate Coalesced(a: Area, pool: Pool)
    requires Sound(a, pool)
  {
    forall b | Linked(pool, b) && b.level < a.top :: !Linked(pool, Buddy(a.base, b))
  }

  lemma AddKeepsCoalesced(a: Area, pool: Pool, b: Block)
    requires Sound(a, pool) && Coalesced(a, pool)
    requires Placed(a, b) && b.level < |pool| && Unused(pool, b)
    requires !Linked(pool, Buddy(a.base, b))
    ensures pool[b.level].head != 0 ==> pool[b.level].head in pool[b.level].prev
    ensures Sound(a, Add(pool, b)) && Coalesced(a, Add(pool, b))
  {
    AddBlock(a, pool, b);
    BuddyFacts(a.base, b);
    forall d | Linked(Add(pool, b), d) && d.level < a.top
      ensures !Linked(Add(pool, b), Buddy(a.base, d))
    {
      BuddyFacts(a.base, d);
    }
  }

  lemma RemoveKeepsCoalesced(a: Area, pool: Pool, c: Block)
    requires Sound(a, pool) && Coalesced(a, pool) && Linked(pool, c)
    ensures c.page in pool[c.level].prev
    ensures Remove(pool, c).Some? ==> Sound(a, Remove(pool, c).value) && Coalesced(a, Remove(pool, c).value)
  {
    RemoveBlock(a, pool, c);
  }

  lemma {:induction false} SplitKeepsCoalesced(a: Area, pool: Pool, p: int, l: nat, k: nat)
    requires Sound(a, pool) && k <= l < |pool|
    requires Placed(a, Block(p, l)) && Unused(pool, Block(p, l))
    requires Coalesced(a, pool)
    ensures Sound(a, Split(a, pool, p, l, k)) && Coalesced(a, Split(a, pool, p, l, k))
    decreases l
  {
    hide Sound, Multiple, Add, Unused, Split, Coalesced;
    if l == k {
      SplitEnd(a, pool, p, k);
    } else {
      var half, rest := Block(p + Pow2(l - 1), l - 1), Block(p, l - 1);
      SplitNext(a, pool, p, l, k);
      LowerHalf(a, pool, p, l);
      AddKeepsCoalesced(a, pool, half);
      SplitKeepsCoalesced(a, Add(pool, half), p, l - 1, k);
    }
  }

  /** The lower half of an unused block is not listed, and is the buddy of the upper one. */
  lemma LowerHalf(a: Area, pool: Pool, p: int, l: nat)
    requires l > 0 && Placed(a, Block(p, l)) && Unused(pool, Block(p, l))
    ensures var half, rest := Block(p + Pow2(l - 1), l - 1), Block(p, l - 1);
            Buddy(a.base, half) == rest && !Linked(pool, rest)
  {
    hide Multiple;
    var rest := Block(p, l - 1);
    Coarser(p - a.base, l - 1, l);
    BuddyFacts(a.base, rest);
    PairFacts(p - a.base, l - 1);
  }

  lemma AllocateKeepsCoalesced(a: Area, pool: Pool, k: nat)
    requires Sound(a, pool) && Coalesced(a, pool) && Allocate(a, pool, k).Taken?
    ensures Sound(a, Allocate(a, pool, k).pool) && Coalesced(a, Allocate(a, pool, k).pool)
  {
    var l := FirstLevel(pool, k);
    HeadsLinked(a, pool);
    var b := Block(pool[l].head, l);
    RemoveBlock(a, pool, b);
    RemoveKeepsCoalesced(a, pool, b);
    SplitKeepsCoalesced(a, Remove(pool, b).value, b.page, l, k);
  }

  lemma {:induction false} FreeKeepsCoalesced(a: Area, pool: Pool, b: Block)
    requires Sound(a, pool) && Placed(a, b) && Unused(pool, b) && b.level <= |pool|
    requires Coalesced(a, pool) && !Coalesce(a, pool, b).Panicked?
    ensures Sound(a, Coalesce(a, pool, b).pool) && Coalesced(a, Coalesce(a, pool, b).pool)
    decreases |pool| - b.level
  {
    HeadsLinked(a, pool);
    if b.level < |pool| {
      var c := Buddy(a.base, b);
      if Linked(pool, c) {
        CoalesceStep(a, pool, b);
        RemoveKeepsCoalesced(a, pool, c);
        FreeKeepsCoalesced(a, Remove(pool, c).value, Merged(a.base, b));
      } else {
        AddKeepsCoalesced(a, pool, b);
      }
    }
  }

  /** In a coalesced pool, an aligned run of free pages lies inside a single listed block. */
  lemma {:induction false} RunInOneBlock(a: Area, pool: Pool, r: Block) returns (c: Block)
    requires Sound(a, pool) && Coalesced(a, pool)
    requires Aligned(a.base, r) && r.level <= a.top
    requires forall q | Covers(r, q) :: IsFree(pool, q)
    ensures Linked(pool, c) && c.level >= r.level
    ensures c.page <= r.page && r.page + Pow2(r.level) <= c.page + Pow2(c.level)
    decreases r.level
  {
    if r.level == 0 {
      assert Covers(r, r.page);
      c :| Linked(pool, c) && Covers(c, r.page);
    } else {
      var l := r.level - 1;
      var lo, hi := Block(r.page, l), Block(r.page + Pow2(l), l);
      Coarser(r.page - a.base, l, l + 1);
      PairFacts(r.page - a.base, l);
      assert Buddy(a.base, lo) == hi;
      BuddyFacts(a.base, lo);
      c := RunInOneBlock(a, pool, lo);
      var d := RunInOneBlock(a, pool, hi);
      if c.level == l {
        Sharing(a.base, lo, c, r.page);
        if d.level == l {
          Sharing(a.base, hi, d, hi.page);
          assert false;
        }
        Sharing(a.base, r, d, hi.page);
        c := d;
      } else {
        Sharing(a.base, r, c, r.page);
      }
    }
  }

  /** A page lies in one listed block at most. */
  lemma SoleBlock(a: Area, pool: Pool, b: Block, c: Block, q: int)
    requires Sound(a, pool) && Linked(pool, b) && Linked(pool, c) && Covers(b, q) && Covers(c, q)
    ensures b == c
  {
    hide Lists, Multiple;
    assert b != c ==> Apart(b, c);
  }

  /** The lists are determined by the free pages alone: a block is listed exactly
      when it is a maximal aligned run of free pages of at most the top size. */
  lemma CanonicalForm(a: Area, pool: Pool, b: Block)
    requires Sound(a, pool) && Coalesced(a, pool)
    requires Aligned(a.base, b) && b.level <= a.top
    ensures Linked(pool, b) <==>
            && (forall q | Covers(b, q) :: IsFree(pool, q))
            && (b.level < a.top ==> exists q :: Covers(Merged(a.base, b), q) && !IsFree(pool, q))
  {
    hide Sound, Multiple, Merged, Coalesced;
    var m := Merged(a.base, b);
    BuddyFacts(a.base, b);
    assert m.level == b.level + 1 by { MergedLevel(a.base, b); }
    if Linked(pool, b) {
      if b.level < a.top && forall q | Covers(m, q) :: IsFree(pool, q) {
        var c := RunInOneBlock(a, pool, m);
        assert Covers(b, b.page) && Covers(m, b.page) && Covers(c, b.page);
        SoleBlock(a, pool, b, c, b.page);
        assert false;
      }
    } else if forall q | Covers(b, q) :: IsFree(pool, q) {
      ListedAbove(a, pool, b);
    }
  }

  lemma MergedLevel(base: nat, b: Block)
    ensures Merged(base, b).level == b.level + 1
  {
  }

  /** A free run that is not listed is part of a larger listed block, and its buddy with
      it. */
  lemma ListedAbove(a: Area, pool: Pool, b: Block)
    requires Sound(a, pool) && Coalesced(a, pool) && !Linked(pool, b)
    requires Aligned(a.base, b) && b.level <= a.top && forall q | Covers(b, q) :: IsFree(pool, q)
    ensures b.level < a.top && forall q | Covers(Merged(a.base, b), q) :: IsFree(pool, q)
  {
    hide Sound, Multiple, Merged, Coalesced;
    var m := Merged(a.base, b);
    BuddyFacts(a.base, b);
    MergedLevel(a.base, b);
    var c := RunInOneBlock(a, pool, b);
    LinkedPlaced(a, pool, c);
    assert Covers(b, b.page) && Covers(m, b.page) && Covers(c, b.page);
    if c.level == b.level { Sharing(a.base, b, c, b.page); }
    Sharing(a.base, m, c, b.page);
    assert forall q | Covers(m, q) :: Covers(c, q);
  }

  lemma SameFreePagesSameLists(a: Area, pool: Pool, pool': Pool)
    requires Sound(a, pool) && Coalesced(a, pool)
    requires Sound(a, pool') && Coalesced(a, pool')
    requires forall q :: IsFree(pool, q) <==> IsFree(pool', q)
    ensures forall b :: Linked(pool, b) <==> Linked(pool', b)
  {
    forall b
      ensures Linked(pool, b) <==> Linked(pool', b)
    {
      if Linked(pool, b) || Linked(pool', b) {
        CanonicalForm(a, pool, b);
        CanonicalForm(a, pool', b);
      }
    }
  }

  /** Freeing b completes the aligned block of level l that holds it. */
  ghost predicate Completes(a: Area, pool: Pool, b: Block, l: nat)
    requires a.base <= b.page
  {
    forall q | Covers(Ancestor(a.base, b, l), q) :: IsFree(pool, q) || Covers(b, q)
  }

  /** free drops memory exactly when it completes an aligned pair of top-level blocks. */
  lemma {:induction false} DroppedIff(a: Area, pool: Pool, b: Block)
    requires Sound(a, pool) && Coalesced(a, pool)
    requires Placed(a, b) && Unused(pool, b) && b.level <= |pool|
    requires !Coalesce(a, pool, b).Panicked?
    ensures Coalesce(a, pool, b).Dropped? <==>
            forall q | Covers(Ancestor(a.base, b, a.top + 1), q) :: IsFree(pool, q) || Covers(b, q)
    decreases |pool| - b.level
  {
    hide Lists, Consistent, Multiple, Ancestor, Covers, IsFree, Buddy, Merged;
    CoalesceEffect(a, pool, b);
    assert |pool| == a.top + 1 by { SoundSize(a, pool); }
    if b.level < |pool| && Completes(a, pool, b, a.top + 1) {
      FreeBuddyListed(a, pool, b);
      CoalesceStep(a, pool, b);
      RemoveKeepsCoalesced(a, pool, Buddy(a.base, b));
      MergedLevel(a.base, b);
      assert Coalesce(a, pool, b)
          == Coalesce(a, Remove(pool, Buddy(a.base, b)).value, Merged(a.base, b));
      CompletesMerged(a, pool, b);
      DroppedIff(a, Remove(pool, Buddy(a.base, b)).value, Merged(a.base, b));
    } else if b.level == |pool| {
      AncestorSelf(a.base, b);
    }
  }

  lemma SoundSize(a: Area, pool: Pool)
    requires Sound(a, pool)
    ensures |pool| == a.top + 1
  {
    hide Linked;
  }

  lemma AncestorSelf(base: nat, b: Block)
    requires Aligned(base, b)
    ensures Ancestor(base, b, b.level) == b
  {
    AncestorHolds(base, b, b.level);
    Sharing(base, b, Ancestor(base, b, b.level), b.page);
  }

  /** What the block completes, the merged block completes once the buddy is taken off. */
  lemma CompletesMerged(a: Area, pool: Pool, b: Block)
    requires Sound(a, pool) && Placed(a, b) && Unused(pool, b) && b.level < |pool|
    requires Linked(pool, Buddy(a.base, b)) && Completes(a, pool, b, |pool|)
    requires Buddy(a.base, b).page in pool[Buddy(a.base, b).level].prev && Remove(pool, Buddy(a.base, b)).Some?
    ensures a.base <= Merged(a.base, b).page
    ensures Completes(a, Remove(pool, Buddy(a.base, b)).value, Merged(a.base, b), |pool|)
  {
    hide Sound, Consistent, Multiple, Ancestor, Buddy, Merged, Unlink;
    CoalesceStep(a, pool, b);
    AncestorMerged(a.base, b, |pool|);
  }

  /** A buddy that is free everywhere is listed as one block. */
  lemma FreeBuddyListed(a: Area, pool: Pool, b: Block)
    requires Sound(a, pool) && Coalesced(a, pool)
    requires Placed(a, b) && Unused(pool, b) && b.level < |pool|
    requires forall q | Covers(Ancestor(a.base, b, a.top + 1), q) :: IsFree(pool, q) || Covers(b, q)
    ensures Linked(pool, Buddy(a.base, b))
  {
    hide Sound, Multiple, Coalesced;
    SoundSize(a, pool);
    var c, m := Buddy(a.base, b), Merged(a.base, b);
    BuddyFacts(a.base, b);
    AncestorMerged(a.base, b, a.top + 1);
    AncestorHolds(a.base, m, a.top + 1);
    forall q | Covers(c, q)
      ensures IsFree(pool, q)
    {
      assert Covers(m, q);
      assert Covers(Ancestor(a.base, b, a.top + 1), q);
    }
    var e := RunInOneBlock(a, pool, c);
    LinkedPlaced(a, pool, e);
    assert Apart(b, e);
    assert Covers(c, c.page);
    if e.level == c.level {
      Sharing(a.base, c, e, c.page);
    } else {
      Sharing(a.base, m, e, c.page);
    }
  }
}
