/** Runs on which the page allocator departs from its own comments, one for each condition
    proved exact in BuddyOrder (StepIntactIff in BuddyRuns, FreePanicsIff) and BuddyPool
    (DroppedIff), whatever the number of levels. */
module BuddyDepartures {
  import opened Words
  import opened Rings
  import opened BuddyPool
  import opened BuddyOrder
  import opened BuddyInit
  import opened BuddyRuns

  /** All levels empty but one. */
  ghost function OnlyLevel(a: Area, l: nat, k: Links): Pool
    requires l <= a.top
  {
    Empty(a)[l := k]
  }

  function Lone(p: int): Links
  {
    Links(p, map[p := p], map[p := p])
  }

  function Pair(p: int, q: int): Links
  {
    Links(p, map[p := q, q := p], map[p := q, q := p])
  }

  function Three(p: int, q: int, r: int): Links
  {
    Links(p, map[p := q, q := r, r := p], map[p := r, q := p, r := q])
  }

  lemma Pushed(p: int, q: int, r: int)
    requires p != q && p != r && q != r && p != 0
    ensures PushTail(EMPTY, p) == Lone(p)
    ensures PushTail(Lone(p), q) == Pair(p, q)
    ensures PushTail(Pair(p, q), r) == Three(p, q, r)
  {
  }

  /** Taking the head off leaves the others without one. */
  lemma HeadTaken(p: int, q: int)
    requires p != q
    ensures Unlink(Pair(p, q), p) == Some(Lone(q).(head := 0))
  {
    var pair := Pair(p, q);
    assert pair.next - {p} == map[q := p] && pair.prev - {p} == map[q := p];
    assert map[q := p][q := q] == map[q := q];
  }

  lemma FirstOfThreeTaken(p: int, q: int, r: int)
    requires p != q && p != r && q != r
    ensures Unlink(Three(p, q, r), p) == Some(Pair(q, r).(head := 0))
  {
    hide Three;
    OthersOfThree(p, q, r);
    assert map[q := r, r := p][r := q] == map[q := r, r := q];
    assert map[q := p, r := q][q := r] == map[q := r, r := q];
  }

  lemma OthersOfThree(p: int, q: int, r: int)
    requires p != q && p != r && q != r
    ensures var k := Three(p, q, r);
            && k.head == p && p in k.next && p in k.prev && k.next[p] == q && k.prev[p] == r
            && k.next - {p} == map[q := r, r := p] && k.prev - {p} == map[q := p, r := q]
  {
  }

  /** A one-page range adds its page to the lowest list. */
  lemma FillOne(a: Area, pool: Pool, p: nat)
    requires Multiple(a.base, a.top) && Sound(a, pool) && Fits(a, p, 1)
    requires RangeUnused(pool, p, p + 1)
    ensures pool[0].head != 0 ==> pool[0].head in pool[0].prev
    ensures Fill(a, pool, Range(p, 1), p) == pool[0 := PushTail(pool[0], p)]
  {
    FillStep(a, pool, p, 1);
    assert LevelAt(a.top, p, 1) == 0;
    var b := Block(p, 0);
    assert Fill(a, Add(pool, b), Range(p, 1), p + 1) == Add(pool, b);
  }

  /** The lists built from two one-page ranges. */
  lemma TwoPages(a: Area, p: nat, q: nat)
    requires Multiple(a.base, a.top) && Fits(a, p, 1) && Fits(a, q, 1) && p != q
    ensures var rs := [Range(p, 1), Range(q, 1)];
            Available(a, rs) && Initial(a, rs) == OnlyLevel(a, 0, Pair(p, q))
  {
    hide Multiple, Sound, Fill, Initial, PushTail, RangeUnused;
    var rs := [Range(p, 1), Range(q, 1)];
    assert rs[..0] == [] && rs[..1] == [Range(p, 1)] && rs[..2] == rs;
    assert Available(a, rs);
    InitialStep(a, rs, 0);
    InitialStep(a, rs, 1);
    InitialPrefix(a, rs, 0);
    TwoFilled(a, rs, p, q);
  }

  lemma TwoFilled(a: Area, rs: seq<Range>, p: nat, q: nat)
    requires rs == [Range(p, 1), Range(q, 1)] && p != q && p > 0
    requires Available(a, rs) && Available(a, rs[..0]) && Available(a, rs[..1]) && Available(a, rs[..2])
    requires Fits(a, p, 1) && Fits(a, q, 1) && Initial(a, rs[..0]) == Empty(a)
    requires RangeUnused(Empty(a), p, p + 1) && RangeUnused(Initial(a, rs[..1]), q, q + 1)
    requires Initial(a, rs[..1]) == Fill(a, Initial(a, rs[..0]), Range(p, 1), p)
    requires Initial(a, rs[..2]) == Fill(a, Initial(a, rs[..1]), Range(q, 1), q)
    ensures rs[..2] == rs && Initial(a, rs) == OnlyLevel(a, 0, Pair(p, q))
  {
    hide Sound, Fill, Initial, PushTail, RangeUnused, Multiple;
    FillOne(a, Initial(a, rs[..0]), p);
    FillOne(a, Initial(a, rs[..1]), q);
    Pushed(p, q, 0 - 1);
    assert Initial(a, rs[..1]) == OnlyLevel(a, 0, Lone(p));
    assert rs[..2] == rs;
  }

  /** An allocation takes the head of the first list at the level asked for. */
  lemma HeadAllocated(a: Area, pool: Pool, l: nat)
    requires Sound(a, pool) && l < |pool| && pool[l].head != 0
    ensures pool[l].Has(pool[l].head) && pool[l].head in pool[l].prev
    ensures Unlink(pool[l], pool[l].head).Some?
    ensures Allocate(a, pool, l) == Taken(pool[l].head, pool[l := Unlink(pool[l], pool[l].head).value])
  {
    hide Consistent, Multiple;
    HeadLinked(a, pool, l);
    assert FirstLevel(pool, l) == l;
    AllocateSafe(a, pool, l);
    RemoveBlock(a, pool, Block(pool[l].head, l));
  }

  /** The state of a new allocator. */
  ghost function Built(a: Area, rs: seq<Range>): State
    requires Available(a, rs)
  {
    State(Initial(a, rs), {}, Total(rs), 0)
  }

  /** The request is served with the block, and leaves the state. */
  ghost predicate Serves(a: Area, s: State, pages: nat, after: State, b: Block)
    requires Sound(a, s.pool)
  {
    Sound(a, after.pool) && AcquireStep(a, s, pages) == Done(after, Some(b))
  }

  /** One list is left, of page q alone, without a head. */
  ghost function Stranded(a: Area, p: int, q: int): State
  {
    State(OnlyLevel(a, 0, Lone(q).(head := 0)), {p}, 1, 1)
  }

  /** Allocating one page from a list of two takes the first and strands the second. */
  lemma OneOfTwo(top: nat, p: nat, q: nat, size: nat)
    requires p == Pow2(top) && p < q < p + size
    ensures var a, rs := Area(p, size, top), [Range(p, 1), Range(q, 1)];
            && Multiple(p, top) && Available(a, rs)
            && Serves(a, Built(a, rs), 1, Stranded(a, p, q), Block(p, 0))
  {
    var a, rs := Area(p, size, top), [Range(p, 1), Range(q, 1)];
    Pow2Multiple(top, top);
    TwoPages(a, p, q);
    hide Available, Initial, Sound, Pow2, Allocate, AcquireStep, CeilLog2, PushTail;
    var pool := Initial(a, rs);
    HeadAllocated(a, pool, 0);
    HeadTaken(p, q);
    AllocateSafe(a, pool, 0);
    PowerLogs(1, 0);
    TotalOfTwo(p, q);
    AcquireTaken(a, State(pool, {}, 2, 0), 1, 0);
    OnePage(p);
    assert {} + {p} == {p};
    assert Allocate(a, pool, 0).pool == OnlyLevel(a, 0, Lone(q).(head := 0));
  }

  lemma TotalOfTwo(p: nat, q: nat)
    ensures Total([Range(p, 1), Range(q, 1)]) == 2
  {
    var rs := [Range(p, 1), Range(q, 1)];
    assert rs[..1] == [Range(p, 1)] && rs[..1][..0] == [];
    assert Total(rs[..1]) == 1;
  }

  lemma OnePage(p: int)
    ensures Pow2(0) == 1 && Pages(Block(p, 0)) == {p} && Covers(Block(p, 0), p)
  {
  }

  /** The first allocation takes the first page off a list of two; the second fails
      although the other page is free. */
  lemma StrandedPage(top: nat, p: nat)
    requires p == Pow2(top)
    ensures var a, rs := Area(p, 3, top), [Range(p, 1), Range(p + 2, 1)];
            var s := Stranded(a, p, p + 2);
            && Available(a, rs) && Serves(a, Built(a, rs), 1, s, Block(p, 0))
            && AcquireStep(a, s, 1) == Done(s, None) && IsFree(s.pool, p + 2)
  {
    hide Available, Initial, Sound, AcquireStep, ReleaseStep, Orphaned, Stranded, Built, Pow2, IsFree, Acceptable,
      Legal;
    OneOfTwo(top, p, p + 2, 3);
    NoneLeft(Area(p, 3, top), p, p + 2);
  }

  lemma NoneLeft(a: Area, p: int, q: int)
    requires Sound(a, Stranded(a, p, q).pool)
    ensures var s := Stranded(a, p, q); AcquireStep(a, s, 1) == Done(s, None) && IsFree(s.pool, q)
  {
    hide Sound, CeilLog2, Pow2;
    var s := Stranded(a, p, q);
    OnePage(q);
    PowerLogs(1, 0);
    assert Linked(s.pool, Block(q, 0));
    assert forall l | 0 <= l < |s.pool| :: s.pool[l].head == 0;
    assert FirstLevel(s.pool, 0) == |s.pool|;
  }

  /** Freeing the page again panics: its buddy is now a list of one that no head
      points to. */
  lemma FreeingPanics(top: nat, p: nat)
    requires p == Pow2(top)
    ensures var a, rs := Area(p, 2, top), [Range(p, 1), Range(p + 1, 1)];
            var s := Stranded(a, p, p + 1);
            && Available(a, rs) && Serves(a, Built(a, rs), 1, s, Block(p, 0))
            && Legal(a, s, Release(p, 1)) && Acceptable(a, p, 1) && Orphaned(a, s.pool, Block(p, 0))
            && Multiple(p, top) && ReleaseStep(a, s, p, 1) == Panic
  {
    hide Available, Initial, Sound, AcquireStep, ReleaseStep, Orphaned, Stranded, Built, Pow2, IsFree, Acceptable,
      Legal;
    OneOfTwo(top, p, p + 1, 2);
    BuddyOrphaned(Area(p, 2, top));
  }

  lemma BuddyOrphaned(a: Area)
    requires a.base > 0 && a.size == 2 && Multiple(a.base, a.top)
    requires Sound(a, Stranded(a, a.base, a.base + 1).pool)
    ensures var p, s := a.base, Stranded(a, a.base, a.base + 1);
            && Legal(a, s, Release(p, 1)) && Acceptable(a, p, 1) && Orphaned(a, s.pool, Block(p, 0))
            && ReleaseStep(a, s, p, 1) == Panic
  {
    hide Sound, CeilLog2, FloorLog2, Coalesce, ReleaseStep, AcquireStep;
    var p, s := a.base, Stranded(a, a.base, a.base + 1);
    var b, c := Block(p, 0), Block(p + 1, 0);
    OnePage(p);
    OnePage(p + 1);
    PowerLogs(1, 0);
    assert Buddy(p, b) == c;
    assert Placed(a, b) && Acceptable(a, p, 1);
    assert Linked(s.pool, c) && s.pool[0].next[p + 1] == p + 1 != s.pool[0].head;
    assert Unused(s.pool, b) by {
      assert forall d | Linked(s.pool, d) :: d == c;
    }
    OrphanedAt(a, s.pool, b);
    FreePanicsIff(a, s.pool, b);
    ReleaseCases(a, s, p, 1);
  }

  lemma OrphanedAt(a: Area, pool: Pool, b: Block)
    requires var c := Buddy(a.base, b); b.level < |pool| && Linked(pool, c) && c.level == b.level
    requires var c := Buddy(a.base, b); pool[b.level].next[c.page] == c.page != pool[b.level].head
    ensures Orphaned(a, pool, b)
  {
  }

  /** A block of the top level at a multiple of its size. */
  lemma TopLevelAt(top: nat, p: nat, n: nat)
    requires Multiple(p, top) && p > 0 && n >= Pow2(top)
    ensures LevelAt(top, p, n) == top
  {
    LevelAtLeast(top, p, n, top);
  }

  /** The next block cut from a range whose rest is blocks of the top level. */
  lemma TopBlockFilled(a: Area, pool: Pool, r: Range, p: nat)
    requires Multiple(a.base, a.top) && Sound(a, pool) && Fits(a, p, End(r) - p) && RangeUnused(pool, p, End(r))
    requires r.base <= p && Multiple(p, a.top) && p + Pow2(a.top) <= End(r)
    ensures |pool| == a.top + 1 && (pool[a.top].head != 0 ==> pool[a.top].head in pool[a.top].prev)
    ensures var next := pool[a.top := PushTail(pool[a.top], p)];
            && Sound(a, next) && RangeUnused(next, p + Pow2(a.top), End(r))
            && Fill(a, pool, r, p) == Fill(a, next, r, p + Pow2(a.top))
  {
    hide Sound, RangeUnused, Multiple, LevelAt, PushTail;
    SoundSize(a, pool);
    TopLevelAt(a.top, p, End(r) - p);
    FillStep(a, pool, p, End(r) - p);
  }

  /** The lists built from a range of three blocks of the top level. */
  lemma ThreeBlocks(top: nat, t: nat)
    requires t == Pow2(top)
    ensures var a, rs := Area(t, 3 * t, top), [Range(t, 3 * t)];
            Available(a, rs) && Initial(a, rs) == OnlyLevel(a, top, Three(t, 2 * t, 3 * t))
  {
    hide Multiple, Sound, Fill, Initial, RangeUnused, OnlyLevel, Pow2;
    var a, rs, r := Area(t, 3 * t, top), [Range(t, 3 * t)], Range(t, 3 * t);
    Pow2Multiple(top, top);
    MultipleSum(t, t, top);
    MultipleSum(2 * t, t, top);
    assert rs[..0] == [] && rs[..1] == rs;
    assert Available(a, rs);
    InitialStep(a, rs, 0);
    InitialPrefix(a, rs, 0);
    ThreeFilled(a, r, t);
  }

  lemma ThreeFilled(a: Area, r: Range, t: nat)
    requires t == Pow2(a.top) && r == Range(t, 3 * t) && a == Area(t, 3 * t, a.top)
    requires Multiple(t, a.top) && Multiple(2 * t, a.top) && Multiple(3 * t, a.top)
    requires Sound(a, Empty(a)) && RangeUnused(Empty(a), t, End(r))
    ensures Fill(a, Empty(a), r, t) == OnlyLevel(a, a.top, Three(t, 2 * t, 3 * t))
  {
    hide Sound, RangeUnused, Multiple, PushTail, Pow2;
    Pushed(t, 2 * t, 3 * t);
    var one, two := OnlyLevel(a, a.top, Lone(t)), OnlyLevel(a, a.top, Pair(t, 2 * t));
    TopBlockFilled(a, Empty(a), r, t);
    assert t + t == 2 * t && Empty(a)[a.top := Lone(t)] == one;
    TopBlockFilled(a, one, r, 2 * t);
    assert 2 * t + t == 3 * t && one[a.top := Pair(t, 2 * t)] == two;
    TopBlockFilled(a, two, r, 3 * t);
    assert two[a.top := Three(t, 2 * t, 3 * t)] == OnlyLevel(a, a.top, Three(t, 2 * t, 3 * t));
  }

  lemma {:induction false} ShrZero(l: nat)
    ensures Shr(0, l) == 0
  {
    if l > 0 { ShrZero(l - 1); }
  }

  /** The second block is the buddy of the first. */
  lemma SecondIsBuddy(top: nat, t: nat)
    requires t == Pow2(top)
    ensures Buddy(t, Block(t, top)) == Block(2 * t, top)
  {
    ShrZero(top);
  }

  /** Two lists' worth of blocks are left at the top level, without a head. */
  ghost function TopStranded(a: Area, t: nat): State
  {
    State(OnlyLevel(a, a.top, Pair(2 * t, 3 * t).(head := 0)), Pages(Block(t, a.top)), 2 * t, t)
  }

  /** Allocation takes the first of the three blocks and strands the other two. */
  lemma FirstTaken(top: nat, t: nat)
    requires t == Pow2(top)
    ensures var a, rs := Area(t, 3 * t, top), [Range(t, 3 * t)];
            && Available(a, rs) && Serves(a, Built(a, rs), t, TopStranded(a, t), Block(t, top))
            && forall q :: IsFree(TopStranded(a, t).pool, q) <==> 2 * t <= q < 4 * t
  {
    var a, rs := Area(t, 3 * t, top), [Range(t, 3 * t)];
    ThreeBlocks(top, t);
    hide Available, Initial, Sound, Pow2, Allocate, AcquireStep, CeilLog2, Unlink, IsFree, Pages, Offered;
    var pool := Initial(a, rs);
    HeadAllocated(a, pool, top);
    FirstOfThreeTaken(t, 2 * t, 3 * t);
    AllocateSafe(a, pool, top);
    PowerLogs(t, top);
    TotalOfOne(Range(t, 3 * t));
    AcquireTaken(a, Built(a, rs), t, top);
    assert {} + Pages(Block(t, top)) == Pages(Block(t, top));
    OfferedByOne(Range(t, 3 * t));
    assert Allocate(a, pool, top).pool == TopStranded(a, t).pool;
  }

  lemma OfferedByOne(r: Range)
    ensures forall q :: Offered([r], q) <==> r.base <= q < r.base + r.size
  {
    forall q
      ensures Offered([r], q) <==> r.base <= q < r.base + r.size
    {
      assert Offered([r], q) <==> Holds([r][0], q);
    }
  }

  lemma TotalOfOne(r: Range)
    ensures Total([r]) == r.size
  {
    assert [r][..0] == [];
  }

  /** Freeing the first block again merges it with the second, and drops both. */
  lemma PairDropped(a: Area, t: nat)
    requires t == Pow2(a.top) && a == Area(t, 3 * t, a.top) && Multiple(t, a.top)
    requires var pool := TopStranded(a, t).pool;
             Sound(a, pool) && forall q :: IsFree(pool, q) <==> 2 * t <= q < 4 * t
    ensures var pool, b := TopStranded(a, t).pool, Block(t, a.top);
            && Placed(a, b) && Unused(pool, b)
            && var r := Coalesce(a, pool, b);
            && r.Dropped? && forall q :: IsFree(r.pool, q) <==> 3 * t <= q < 4 * t
  {
    hide Sound, Consistent, Multiple, Pow2, Ancestor, Shr;
    var pool, b, c := TopStranded(a, t).pool, Block(t, a.top), Block(2 * t, a.top);
    SecondIsBuddy(a.top, t);
    assert Placed(a, b) by { ZeroMultiple(a.top); }
    assert Linked(pool, c);
    assert Unused(pool, b) by {
      assert forall d | Linked(pool, d) :: d.level == a.top && (d.page == 2 * t || d.page == 3 * t);
    }
    RemoveBlock(a, pool, c);
    CoalesceStep(a, pool, b);
    MergedLevel(a.base, b);
    SoundSize(a, pool);
    DroppedAtTop(a, pool, b);
    assert forall q :: Covers(c, q) <==> 2 * t <= q < 3 * t;
  }

  /** Merging at the top level ends with the buddy taken off and nothing listed. */
  lemma DroppedAtTop(a: Area, pool: Pool, b: Block)
    requires Sound(a, pool) && Placed(a, b) && b.level == a.top && Linked(pool, Buddy(a.base, b))
    ensures |pool| == a.top + 1 && Buddy(a.base, b).page in pool[Buddy(a.base, b).level].prev
    ensures Remove(pool, Buddy(a.base, b)).Some? ==>
              Coalesce(a, pool, b) == Dropped(Remove(pool, Buddy(a.base, b)).value)
  {
    hide Consistent, Multiple, Shr;
    RemoveBlock(a, pool, Buddy(a.base, b));
    MergedLevel(a.base, b);
  }

  /** Allocating and freeing the first of three blocks of the top level loses it and its
      buddy: merged at the top level, they end up neither listed nor handed out, yet
      counted as free. */
  lemma MergedPairLost(top: nat, t: nat)
    requires t == Pow2(top)
    ensures var a, rs := Area(t, 3 * t, top), [Range(t, 3 * t)];
            var s := TopStranded(a, t);
            && Multiple(t, top) && Available(a, rs) && Serves(a, Built(a, rs), t, s, Block(t, top))
            && Legal(a, s, Release(t, t))
            && var o := ReleaseStep(a, s, t, t);
            && o.Done? && o.state.free == 3 * t == Total(rs) && o.state.live == {}
            && forall q :: IsFree(o.state.pool, q) <==> 3 * t <= q < 4 * t
  {
    hide Available, Sound, Pow2, Coalesce, IsFree, AcquireStep, ReleaseStep, Unused, CeilLog2, FloorLog2, Multiple;
    var a, b := Area(t, 3 * t, top), Block(t, top);
    FirstTaken(top, t);
    PowerLogs(t, top);
    Pow2Multiple(top, top);
    TotalOfOne(Range(t, 3 * t));
    PairDropped(a, t);
    assert Acceptable(a, t, t);
    ReleaseCases(a, TopStranded(a, t), t, t);
    assert forall q | t <= q < t + t :: q in Pages(b);
    assert Pages(b) - Pages(b) == {};
  }

  /** free pairs blocks relative to the base, but initialisation and splitting align
      them absolutely: a merged block keeps its natural alignment exactly when the
      base is itself a multiple of the merged size. */
  lemma MergedNaturallyAlignedIff(base: nat, b: Block)
    requires Aligned(base, b)
    ensures Multiple(Merged(base, b).page, b.level + 1) <==> Multiple(base, b.level + 1)
  {
    BuddyFacts(base, b);
    var m := Merged(base, b);
    if Multiple(base, b.level + 1) {
      MultipleSum(m.page - base, base, b.level + 1);
    }
    if Multiple(m.page, b.level + 1) {
      MultipleSum(m.page, m.page - base, b.level + 1);
    }
  }

  /** With base 1, two pages that merge form a block that free would refuse. */
  lemma MisalignedMerge()
    ensures Aligned(1, Block(1, 0)) && Merged(1, Block(1, 0)) == Block(1, 1)
    ensures !Multiple(1, 1) && !Acceptable(Area(1, 2, 10), 1, 2)
  {
    assert FloorLog2(2) == 1;
    MergedNaturallyAlignedIff(1, Block(1, 0));
  }
}
