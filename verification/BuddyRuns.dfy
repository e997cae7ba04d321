/** Runs of the page allocator: sequences of allocate and free requests, their
    replies, and what every run keeps. */
module BuddyRuns {
  import opened Words
  import opened Rings
  import opened BuddyPool
  import opened BuddyOrder
  import opened BuddyInit

  /** The lists, the pages now handed out, and the two running page counters. */
  datatype State = State(pool: Pool, live: set<int>, free: int, alloc: int)

  datatype Request = Acquire(pages: nat) | Release(page: nat, pages: nat)

  datatype Outcome = Panic | Done(state: State, reply: Option<Block>)

  ghost function Pages(b: Block): set<int>
  {
    set q | b.page <= q < b.page + Pow2(b.level) && Covers(b, q)
  }

  ghost function AcquireStep(a: Area, s: State, pages: nat): Outcome
    requires Sound(a, s.pool)
  {
    var k := CeilLog2(pages);
    if pages == 0 then Done(s, None)
    else match Allocate(a, s.pool, k)
      case NoBlock => Done(s, None)
      case Taken(p, pool) =>
        var b := Block(p, k);
        Done(State(pool, s.live + Pages(b), s.free - Pow2(k), s.alloc + Pow2(k)), Some(b))
  }

  lemma AcquireNothing(a: Area, s: State)
    requires Sound(a, s.pool)
    ensures AcquireStep(a, s, 0) == Done(s, None)
  {
  }

  lemma AcquireTaken(a: Area, s: State, pages: nat, k: nat)
    requires Sound(a, s.pool) && pages > 0 && k == CeilLog2(pages)
    ensures var r := Allocate(a, s.pool, k);
            AcquireStep(a, s, pages) ==
            if r.NoBlock? then Done(s, None)
            else
              var b := Block(r.page, k);
              Done(State(r.pool, s.live + Pages(b), s.free - Pow2(k), s.alloc + Pow2(k)), Some(b))
  {
  }

  /** The asserts free makes about its arguments; their block has 2^k pages. */
  predicate Acceptable(a: Area, page: nat, pages: nat)
  {
    var k := FloorLog2(pages);
    && pages == Pow2(k) && k <= a.top && Multiple(page, k)
    && a.base <= page && page + pages <= a.base + a.size
  }

  ghost function ReleaseStep(a: Area, s: State, page: nat, pages: nat): Outcome
    requires Multiple(a.base, a.top) && Sound(a, s.pool)
  {
    if page == 0 || pages == 0 then Done(s, None)
    else if !Acceptable(a, page, pages) then Panic
    else
      var b := Block(page, FloorLog2(pages));
      AcceptablePlaced(a, page, pages);
      var live, free, alloc := s.live - Pages(b), s.free + pages, s.alloc - pages;
      match Coalesce(a, s.pool, b)
      case Panicked => Panic
      case Listed(pool) => Done(State(pool, live, free, alloc), None)
      case Dropped(pool) => Done(State(pool, live, free, alloc), None)
  }

  lemma AcceptablePlaced(a: Area, page: nat, pages: nat)
    requires Multiple(a.base, a.top) && page > 0 && Acceptable(a, page, pages)
    ensures Placed(a, Block(page, FloorLog2(pages)))
  {
    var k := FloorLog2(pages);
    Coarser(a.base, k, a.top);
    MultipleSum(page, a.base, k);
  }

  /** The tests free makes, on the words themselves. */
  lemma AcceptableTests(a: Area, page: nat, pages: nat)
    requires page > 0 && pages > 0
    ensures Acceptable(a, page, pages) <==>
            && And(pages, pages - 1) == 0 && FloorLog2(pages) <= a.top && And(page, pages - 1) == 0
            && page >= a.base && page + pages - 1 <= a.base + a.size - 1
  {
    PowerOfTwo(pages);
    AndMask(page, FloorLog2(pages));
  }

  lemma ReleaseCases(a: Area, s: State, page: nat, pages: nat)
    requires Multiple(a.base, a.top) && Sound(a, s.pool)
    ensures page == 0 || pages == 0 ==> ReleaseStep(a, s, page, pages) == Done(s, None)
    ensures page > 0 && pages > 0 && !Acceptable(a, page, pages) ==> ReleaseStep(a, s, page, pages) == Panic
    ensures page > 0 && pages > 0 && Acceptable(a, page, pages) ==>
              var b := Block(page, FloorLog2(pages));
              Placed(a, b) && b.level <= a.top &&
              var r := Coalesce(a, s.pool, b);
              ReleaseStep(a, s, page, pages) ==
              if r.Panicked? then Panic
              else Done(State(r.pool, s.live - Pages(b), s.free + pages, s.alloc - pages), None)
  {
    if page > 0 && pages > 0 && Acceptable(a, page, pages) {
      AcceptablePlaced(a, page, pages);
    }
  }

  ghost function Step(a: Area, s: State, r: Request): Outcome
    requires Multiple(a.base, a.top) && Sound(a, s.pool)
  {
    match r
    case Acquire(pages) => AcquireStep(a, s, pages)
    case Release(page, pages) => ReleaseStep(a, s, page, pages)
  }

  /** What callers owe: free only pages that are handed out. */
  predicate Legal(a: Area, s: State, r: Request)
  {
    r.Release? && r.page != 0 && r.pages != 0 && Acceptable(a, r.page, r.pages) ==>
      forall q | r.page <= q < r.page + r.pages :: q in s.live
  }

  // ------------------------------------------------------- safety of every run

  /** Free pages and handed-out pages are disjoint parts of the available pages, and
      the counters agree with them. */
  ghost predicate Safe(a: Area, avail: set<int>, s: State)
  {
    && Multiple(a.base, a.top)
    && Sound(a, s.pool)
    && (forall q | IsFree(s.pool, q) :: q in avail && q !in s.live)
    && s.live <= avail
    && s.alloc == |s.live|
    && s.free == |avail| - |s.live|
  }

  lemma {:induction false} CountPages(b: Block)
    ensures |Pages(b)| == Pow2(b.level)
    decreases b.level
  {
    if b.level == 0 {
      assert Pages(b) == {b.page};
    } else {
      var lo, hi := Block(b.page, b.level - 1), Block(b.page + Pow2(b.level - 1), b.level - 1);
      CountPages(lo);
      CountPages(hi);
      assert Pages(b) == Pages(lo) + Pages(hi) && Pages(lo) !! Pages(hi);
    }
  }

  lemma HandOut(a: Area, avail: set<int>, s: State, b: Block, pool: Pool)
    requires Safe(a, avail, s) && Sound(a, pool)
    requires forall q | Covers(b, q) :: IsFree(s.pool, q)
    requires forall q :: IsFree(pool, q) <==> IsFree(s.pool, q) && !Covers(b, q)
    ensures Pages(b) !! s.live && Pages(b) <= avail && s.free >= Pow2(b.level)
    ensures Safe(a, avail, State(pool, s.live + Pages(b), s.free - Pow2(b.level), s.alloc + Pow2(b.level)))
  {
    assert forall q :: q in Pages(b) <==> Covers(b, q);
    assert Pages(b) !! s.live && Pages(b) <= avail;
    CountPages(b);
    assert |s.live + Pages(b)| == |s.live| + |Pages(b)|;
    var used := s.live + Pages(b);
    assert avail == used + (avail - used) && |used + (avail - used)| == |used| + |avail - used|;
  }

  /** Alignment counted from the base is alignment of the address itself. */
  lemma NaturallyAligned(a: Area, b: Block)
    requires Multiple(a.base, a.top) && Placed(a, b) && b.level <= a.top
    ensures Multiple(b.page, b.level)
  {
    Coarser(a.base, b.level, a.top);
    MultipleSum(b.page - a.base, a.base, b.level);
  }

  /** A block handed out is aligned, available, and disjoint from everything else
      that is handed out. */
  lemma AcquireSafe(a: Area, avail: set<int>, s: State, pages: nat)
    requires Safe(a, avail, s)
    ensures var Done(after, reply) := AcquireStep(a, s, pages);
            && Safe(a, avail, after)
            && (reply.None? ==> after == s)
            && (reply.Some? ==>
                  var b := reply.value;
                  && pages <= Pow2(b.level) && (b.level > 0 ==> Pow2(b.level - 1) < pages)
                  && Placed(a, b) && Multiple(b.page, b.level)
                  && Pages(b) !! s.live && Pages(b) <= avail && after.live == s.live + Pages(b)
                  && after.free == s.free - Pow2(b.level) >= 0)
  {
    var k := CeilLog2(pages);
    if pages != 0 && Allocate(a, s.pool, k).Taken? {
      AllocateSafe(a, s.pool, k);
      var Taken(p, pool) := Allocate(a, s.pool, k);
      hide Safe, Sound;
      HandOut(a, avail, s, Block(p, k), pool);
      NaturallyAligned(a, Block(p, k));
    }
  }

  lemma ReleaseUnused(a: Area, avail: set<int>, s: State, page: nat, pages: nat)
    requires Safe(a, avail, s) && Legal(a, s, Release(page, pages))
    requires page != 0 && pages != 0 && Acceptable(a, page, pages)
    ensures Placed(a, Block(page, FloorLog2(pages))) && Unused(s.pool, Block(page, FloorLog2(pages)))
    ensures Pages(Block(page, FloorLog2(pages))) <= s.live
  {
    var b := Block(page, FloorLog2(pages));
    AcceptablePlaced(a, page, pages);
    forall c | Linked(s.pool, c)
      ensures Apart(b, c)
    {
      if !Apart(b, c) {
        var q := if b.page <= c.page then c.page else b.page;
        assert Covers(c, q) && IsFree(s.pool, q);
      }
    }
  }

  lemma ReleaseSafe(a: Area, avail: set<int>, s: State, page: nat, pages: nat)
    requires Safe(a, avail, s) && Legal(a, s, Release(page, pages))
    ensures var o, b := ReleaseStep(a, s, page, pages), Block(page, FloorLog2(pages));
            o.Done? ==>
              && Safe(a, avail, o.state)
              && (page == 0 || pages == 0 ==> o.state == s)
              && (page != 0 && pages != 0 ==>
                    && Pages(b) <= s.live && o.state.live == s.live - Pages(b)
                    && o.state.free == s.free + Pow2(b.level) && o.state.alloc == s.alloc - Pow2(b.level))
  {
    if page != 0 && pages != 0 && Acceptable(a, page, pages) {
      var b := Block(page, FloorLog2(pages));
      ReleaseUnused(a, avail, s, page, pages);
      CoalesceEffect(a, s.pool, b);
      CountPages(b);
      assert s.live == (s.live - Pages(b)) + Pages(b);
      assert |s.live| == |s.live - Pages(b)| + |Pages(b)|;
      assert forall q :: q in Pages(b) <==> Covers(b, q);
    }
  }

  /** A legal free panics exactly when its arguments are not acceptable or merging meets
      an orphaned buddy. */
  lemma ReleasePanicsIff(a: Area, avail: set<int>, s: State, page: nat, pages: nat)
    requires Safe(a, avail, s) && Legal(a, s, Release(page, pages))
    ensures ReleaseStep(a, s, page, pages) == Panic <==>
              && page != 0 && pages != 0
              && (!Acceptable(a, page, pages) || Orphaned(a, s.pool, Block(page, FloorLog2(pages))))
  {
    hide Orphaned, Unused, Placed;
    ReleaseCases(a, s, page, pages);
    if page != 0 && pages != 0 && Acceptable(a, page, pages) {
      ReleaseUnused(a, avail, s, page, pages);
      FreePanicsIff(a, s.pool, Block(page, FloorLog2(pages)));
    }
  }

  lemma StepSafe(a: Area, avail: set<int>, s: State, r: Request)
    requires Safe(a, avail, s) && Legal(a, s, r)
    ensures Step(a, s, r).Done? ==> Safe(a, avail, Step(a, s, r).state)
  {
    match r
    case Acquire(pages) => AcquireSafe(a, avail, s, pages);
    case Release(page, pages) => ReleaseSafe(a, avail, s, page, pages);
  }

  /** s' is reached from s by legal requests none of which panicked. */
  ghost predicate Reaches(a: Area, avail: set<int>, s: State, rs: seq<Request>, s': State)
    requires Safe(a, avail, s)
    decreases |rs|
  {
    if rs == [] then s == s'
    else
      && Legal(a, s, rs[0])
      && Step(a, s, rs[0]).Done?
      && (StepSafe(a, avail, s, rs[0]); Reaches(a, avail, Step(a, s, rs[0]).state, rs[1..], s'))
  }

  lemma {:induction false} EveryRunSafe(a: Area, avail: set<int>, s: State, rs: seq<Request>, s': State)
    requires Safe(a, avail, s) && Reaches(a, avail, s, rs, s')
    ensures Safe(a, avail, s')
    decreases |rs|
  {
    if rs != [] {
      StepSafe(a, avail, s, rs[0]);
      EveryRunSafe(a, avail, Step(a, s, rs[0]).state, rs[1..], s');
    }
  }

  // --------------------------------------------- coalescing over every run

  /** Every available page is either handed out or listed. */
  ghost predicate NothingLost(avail: set<int>, s: State)
  {
    forall q | q in avail :: q in s.live || IsFree(s.pool, q)
  }

  /** No aligned pair of top-level blocks is wholly available. */
  ghost predicate NoTopPair(a: Area, avail: set<int>)
  {
    forall d: Block | Aligned(a.base, d) && d.level == a.top + 1 :: exists q :: Covers(d, q) && q !in avail
  }

  /** A request loses memory exactly when it frees the last pages of an aligned pair
      of top-level blocks. */
  lemma StepLosesIff(a: Area, avail: set<int>, s: State, r: Request)
    requires Safe(a, avail, s) && Coalesced(a, s.pool) && NothingLost(avail, s)
    requires Legal(a, s, r) && Step(a, s, r).Done?
    ensures Safe(a, avail, Step(a, s, r).state) && Coalesced(a, Step(a, s, r).state.pool)
    ensures NothingLost(avail, Step(a, s, r).state) <==>
            !(r.Release? && r.page != 0 && r.pages != 0 &&
              forall q | Covers(Ancestor(a.base, Block(r.page, FloorLog2(r.pages)), a.top + 1), q) ::
                IsFree(s.pool, q) || Covers(Block(r.page, FloorLog2(r.pages)), q))
  {
    StepSafe(a, avail, s, r);
    match r
    case Acquire(pages) =>
      var k := CeilLog2(pages);
      if pages != 0 && Allocate(a, s.pool, k).Taken? {
        AllocateSafe(a, s.pool, k);
        AllocateKeepsCoalesced(a, s.pool, k);
        var b := Block(Allocate(a, s.pool, k).page, k);
        assert forall q :: q in Pages(b) <==> Covers(b, q);
      }
    case Release(page, pages) =>
      if page != 0 && pages != 0 {
        ReleaseLosesIff(a, avail, s, page, pages);
      }
  }

  lemma ReleaseLosesIff(a: Area, avail: set<int>, s: State, page: nat, pages: nat)
    requires Safe(a, avail, s) && Coalesced(a, s.pool) && NothingLost(avail, s)
    requires page != 0 && pages != 0 && Legal(a, s, Release(page, pages))
    requires ReleaseStep(a, s, page, pages).Done?
    ensures var after, b := ReleaseStep(a, s, page, pages).state, Block(page, FloorLog2(pages));
            && Sound(a, after.pool) && Coalesced(a, after.pool)
            && (NothingLost(avail, after) <==>
                !forall q | Covers(Ancestor(a.base, b, a.top + 1), q) :: IsFree(s.pool, q) || Covers(b, q))
  {
    var b := Block(page, FloorLog2(pages));
    ReleaseUnused(a, avail, s, page, pages);
    FreeKeepsCoalesced(a, s.pool, b);
    DroppedIff(a, s.pool, b);
    LosesIffDropped(a, avail, s, b);
  }

  lemma LosesIffDropped(a: Area, avail: set<int>, s: State, b: Block)
    requires Sound(a, s.pool) && s.live <= avail && NothingLost(avail, s)
    requires Placed(a, b) && b.level <= |s.pool| && Unused(s.pool, b) && Pages(b) <= s.live
    requires !Coalesce(a, s.pool, b).Panicked?
    ensures var r := Coalesce(a, s.pool, b);
            NothingLost(avail, State(r.pool, s.live - Pages(b), s.free, s.alloc)) <==> !r.Dropped?
  {
    CoalesceEffect(a, s.pool, b);
    assert forall q :: q in Pages(b) <==> Covers(b, q);
    if Coalesce(a, s.pool, b).Dropped? {
      AncestorHolds(a.base, b, |s.pool|);
      assert Covers(Ancestor(a.base, b, |s.pool|), b.page) && Covers(b, b.page);
      assert b.page in avail && b.page !in s.live - Pages(b) && !IsFree(Coalesce(a, s.pool, b).pool, b.page);
    }
  }

  lemma StepCoalesced(a: Area, avail: set<int>, s: State, r: Request)
    requires NoTopPair(a, avail)
    requires Safe(a, avail, s) && Coalesced(a, s.pool) && NothingLost(avail, s)
    requires Legal(a, s, r) && Step(a, s, r).Done?
    ensures var after := Step(a, s, r).state;
            Safe(a, avail, after) && Coalesced(a, after.pool) && NothingLost(avail, after)
  {
    StepLosesIff(a, avail, s, r);
    if r.Release? && r.page != 0 && r.pages != 0 {
      var b := Block(r.page, FloorLog2(r.pages));
      ReleaseUnused(a, avail, s, r.page, r.pages);
      AncestorHolds(a.base, b, a.top + 1);
      var q :| Covers(Ancestor(a.base, b, a.top + 1), q) && q !in avail;
      assert !IsFree(s.pool, q) && q !in Pages(b);
    }
  }

  /** Where no top-level pair is wholly available, no run loses memory or leaves two
      buddies below the top level listed: free pages are exactly the available pages
      not handed out. */
  lemma {:induction false} EveryRunCoalesced(a: Area, avail: set<int>, s: State, rs: seq<Request>, s': State)
    requires NoTopPair(a, avail)
    requires Safe(a, avail, s) && Coalesced(a, s.pool) && NothingLost(avail, s) && Reaches(a, avail, s, rs, s')
    ensures Safe(a, avail, s') && Coalesced(a, s'.pool) && NothingLost(avail, s')
    decreases |rs|
  {
    if rs != [] {
      StepCoalesced(a, avail, s, rs[0]);
      EveryRunCoalesced(a, avail, Step(a, s, rs[0]).state, rs[1..], s');
    }
  }

  /** The state that initialisation builds from the available ranges. */
  ghost predicate Starts(a: Area, rs: seq<Range>, avail: set<int>, s: State)
  {
    && Available(a, rs)
    && (forall q :: q in avail <==> Offered(rs, q))
    && s == State(Initial(a, rs), {}, |avail|, 0)
  }

  lemma LastOffered(rs: seq<Range>, q: int)
    requires Disjoint(rs) && rs != []
    ensures Offered(rs, q) <==> Offered(rs[..|rs| - 1], q) || Holds(rs[|rs| - 1], q)
    ensures !(Offered(rs[..|rs| - 1], q) && Holds(rs[|rs| - 1], q))
  {
    var n := |rs| - 1;
    if Offered(rs[..n], q) {
      var i :| 0 <= i < n && Holds(rs[..n][i], q);
      assert Holds(rs[i], q);
    }
    if Offered(rs, q) {
      var i :| 0 <= i < |rs| && Holds(rs[i], q);
      assert i < n ==> Holds(rs[..n][i], q);
    }
  }

  lemma SplitOffered(rs: seq<Range>, avail: set<int>, rest: set<int>)
    requires Disjoint(rs) && rs != [] && forall q :: q in avail <==> Offered(rs, q)
    requires rest == avail - RangePages(rs[|rs| - 1])
    ensures RangePages(rs[|rs| - 1]) <= avail
    ensures forall q :: q in rest <==> Offered(rs[..|rs| - 1], q)
  {
    forall q
      ensures q in rest <==> Offered(rs[..|rs| - 1], q)
      ensures q in RangePages(rs[|rs| - 1]) ==> q in avail
    {
      LastOffered(rs, q);
    }
  }

  /** The available pages number as many as their ranges hold. */
  lemma {:induction false} TotalCounts(rs: seq<Range>, avail: set<int>)
    requires Disjoint(rs) && forall q :: q in avail <==> Offered(rs, q)
    ensures |avail| == Total(rs)
    decreases |rs|
  {
    if rs == [] {
      forall q
        ensures q !in avail
      {
        assert !Offered(rs, q);
      }
      assert avail == {};
    } else {
      var n := |rs| - 1;
      var last := RangePages(rs[n]);
      SplitOffered(rs, avail, avail - last);
      TotalCounts(rs[..n], avail - last);
      CountRange(rs[n]);
      assert |avail| == |avail - last| + |last|;
    }
  }

  ghost function RangePages(r: Range): set<int>
  {
    set q | r.base <= q < End(r) && Holds(r, q)
  }

  lemma {:induction false} CountRange(r: Range)
    ensures |RangePages(r)| == r.size
    decreases r.size
  {
    if r.size > 0 {
      var q, rest := End(r) - 1, Range(r.base, r.size - 1);
      CountRange(rest);
      assert Holds(r, q) && !Holds(rest, q);
      assert forall p :: Holds(r, p) <==> Holds(rest, p) || p == q;
      assert RangePages(r) == RangePages(rest) + {q};
    }
  }

  /** The pages of the ranges. */
  ghost function AllPages(rs: seq<Range>): set<int>
  {
    if rs == [] then {} else AllPages(rs[..|rs| - 1]) + RangePages(rs[|rs| - 1])
  }

  lemma {:induction false} AllPagesOffered(rs: seq<Range>)
    requires Disjoint(rs)
    ensures forall q :: q in AllPages(rs) <==> Offered(rs, q)
    decreases |rs|
  {
    if rs != [] { AllPagesOffered(rs[..|rs| - 1]); }
    forall q
      ensures q in AllPages(rs) <==> Offered(rs, q)
    {
      if rs != [] { LastOffered(rs, q); }
    }
  }

  /** A start state is safe, nothing is lost in it, and its counter is the size of the
      ranges. */
  lemma StartSafe(a: Area, rs: seq<Range>, avail: set<int>, s: State)
    requires Starts(a, rs, avail, s)
    ensures Safe(a, avail, s) && NothingLost(avail, s)
    ensures s.live == {} && s.free == Total(rs) && s.alloc == 0
  {
    TotalCounts(rs, avail);
  }

  /** What a new allocator shows is a start state. */
  lemma ConstructedStarts(a: Area, rs: seq<Range>)
    requires Available(a, rs)
    ensures Starts(a, rs, AllPages(rs), State(Initial(a, rs), {}, Total(rs), 0))
  {
    AllPagesOffered(rs);
    TotalCounts(rs, AllPages(rs));
  }

  /** Freeing everything restores exactly the blocks that initialisation listed. */
  lemma FreeingEverythingRestores(a: Area, ranges: seq<Range>, avail: set<int>, s: State, rs: seq<Request>, s': State)
    requires Starts(a, ranges, avail, s) && NoTopPair(a, avail)
    requires forall r | OfferedRun(a, ranges, r) :: InOneRange(ranges, r)
    requires Safe(a, avail, s) && Reaches(a, avail, s, rs, s') && s'.live == {}
    ensures forall b :: Linked(s'.pool, b) <==> Linked(s.pool, b)
    ensures s'.free == s.free && s'.alloc == 0
  {
    StartSafe(a, ranges, avail, s);
    InitialCoalescedIff(a, ranges);
    EveryRunCoalesced(a, avail, s, rs, s');
    SameFreePagesSameLists(a, s.pool, s'.pool);
  }

  // ------------------------------------------------------- what one call undoes

  /** A block that was handed out may be given back at once, and unless that panics or
      completes a pair of top-level blocks, the lists hold the blocks they held and the
      counters are what they were. */
  lemma ReleaseUndoesAcquire(a: Area, avail: set<int>, s: State, pages: nat, b: Block, after: State)
    requires Safe(a, avail, s) && Coalesced(a, s.pool) && AcquireStep(a, s, pages) == Done(after, Some(b))
    ensures 0 < b.page && Safe(a, avail, after) && Acceptable(a, b.page, Pow2(b.level))
    ensures Legal(a, after, Release(b.page, Pow2(b.level)))
    ensures var o := ReleaseStep(a, after, b.page, Pow2(b.level));
            && a.base <= b.page
            && (o.Done? ==>
                  && o.state.live == s.live && o.state.free == s.free && o.state.alloc == s.alloc
                  && ((forall c :: Linked(o.state.pool, c) <==> Linked(s.pool, c))
                      <==> !forall q | Covers(Ancestor(a.base, b, a.top + 1), q) :: IsFree(s.pool, q)))
  {
    AcquiredAcceptable(a, avail, s, pages, b, after);
    var size := Pow2(b.level);
    PowerLogs(size, b.level);
    ReleaseCases(a, after, b.page, size);
    var o := ReleaseStep(a, after, b.page, size);
    if o.Done? {
      ReleaseUnused(a, avail, after, b.page, size);
      AllocateKeepsCoalesced(a, s.pool, b.level);
      BlocksComeBack(a, s.pool, after.pool, b);
      assert s.live + Pages(b) - Pages(b) == s.live;
    }
  }

  lemma AcquiredAcceptable(a: Area, avail: set<int>, s: State, pages: nat, b: Block, after: State)
    requires Safe(a, avail, s) && AcquireStep(a, s, pages) == Done(after, Some(b))
    ensures 0 < b.page && Placed(a, b) && Safe(a, avail, after) && Acceptable(a, b.page, Pow2(b.level))
    ensures Legal(a, after, Release(b.page, Pow2(b.level)))
    ensures b.level <= a.top && Allocate(a, s.pool, b.level) == Taken(b.page, after.pool)
    ensures (forall q | Covers(b, q) :: IsFree(s.pool, q))
    ensures forall q :: IsFree(after.pool, q) <==> IsFree(s.pool, q) && !Covers(b, q)
    ensures Pages(b) !! s.live && after.live == s.live + Pages(b)
    ensures after.free == s.free - Pow2(b.level) && after.alloc == s.alloc + Pow2(b.level)
  {
    hide AcquireStep, Allocate, Pow2, CeilLog2, FloorLog2, Sound, Multiple, IsFree;
    AcquireSafe(a, avail, s, pages);
    AcquireNothing(a, s);
    if pages > 0 { AcquireTaken(a, s, pages, CeilLog2(pages)); }
    AllocateSafe(a, s.pool, CeilLog2(pages));
    PowerLogs(Pow2(b.level), b.level);
    assert forall q | b.page <= q < b.page + Pow2(b.level) :: q in Pages(b);
  }

  /** Giving back what was taken leaves the lists as they were, unless it drops a pair. */
  lemma BlocksComeBack(a: Area, pool: Pool, mid: Pool, b: Block)
    requires Sound(a, pool) && Coalesced(a, pool) && Sound(a, mid) && Coalesced(a, mid)
    requires Placed(a, b) && b.level <= a.top && Unused(mid, b) && b.level <= |mid|
    requires (forall q | Covers(b, q) :: IsFree(pool, q))
    requires forall q :: IsFree(mid, q) <==> IsFree(pool, q) && !Covers(b, q)
    requires !Coalesce(a, mid, b).Panicked?
    ensures (forall c :: Linked(Coalesce(a, mid, b).pool, c) <==> Linked(pool, c))
            <==> !forall q | Covers(Ancestor(a.base, b, a.top + 1), q) :: IsFree(pool, q)
  {
    hide Sound, Coalesced, Ancestor, Multiple, IsFree, Linked, Unused, Coalesce;
    var r := Coalesce(a, mid, b);
    SoundSize(a, mid);
    CoalesceEffect(a, mid, b);
    FreeKeepsCoalesced(a, mid, b);
    DroppedIff(a, mid, b);
    if r.Listed? {
      SameFreePagesSameLists(a, pool, r.pool);
    } else {
      AncestorHolds(a.base, b, a.top + 1);
      assert Ancestor(a.base, b, a.top + 1).level == a.top + 1 by { AncestorLevel(a.base, b, a.top + 1); }
      assert Covers(b, b.page) && Covers(Ancestor(a.base, b, a.top + 1), b.page);
      if forall c :: Linked(r.pool, c) <==> Linked(pool, c) { ListedSameFree(r.pool, pool, b.page); }
    }
  }

  lemma AncestorLevel(base: nat, b: Block, l: nat)
    requires base <= b.page
    ensures Ancestor(base, b, l).level == l
  {
  }

  lemma ListedSameFree(pool: Pool, pool': Pool, q: int)
    requires forall c :: Linked(pool, c) <==> Linked(pool', c)
    ensures IsFree(pool, q) <==> IsFree(pool', q)
  {
    hide Linked, Covers;
  }

  // ------------------------------------------------- runs that strand no list

  /** The request takes the head of a longer list off, losing the rest of that list. */
  ghost predicate StrandsList(a: Area, s: State, r: Request)
    requires Multiple(a.base, a.top) && Sound(a, s.pool)
  {
    match r
    case Acquire(pages) =>
      var l := FirstLevel(s.pool, Min(CeilLog2(pages), |s.pool|));
      pages != 0 && l < |s.pool| && s.pool[l].Has(s.pool[l].head) && s.pool[l].next[s.pool[l].head] != s.pool[l].head
    case Release(page, pages) =>
      page != 0 && pages != 0 && Acceptable(a, page, pages) && Strands(a, s.pool, Block(page, FloorLog2(pages)))
  }

  /** With every list intact, an acceptable request never panics, an allocation fails
      exactly for want of an aligned free run, and the lists stay intact exactly when
      the request strands none. */
  lemma StepIntactIff(a: Area, avail: set<int>, s: State, r: Request)
    requires Safe(a, avail, s) && Intact(s.pool, 0) && Legal(a, s, r)
    requires r.Release? && r.page != 0 && r.pages != 0 ==> Acceptable(a, r.page, r.pages)
    ensures Step(a, s, r).Done?
    ensures Intact(Step(a, s, r).state.pool, 0) <==> !StrandsList(a, s, r)
    ensures r.Acquire? && 0 < r.pages && CeilLog2(r.pages) <= a.top && Coalesced(a, s.pool) ==>
            (Step(a, s, r).reply.None? <==>
             !exists b: Block :: b.level == CeilLog2(r.pages) && Aligned(a.base, b) && FreeRun(s.pool, b))
  {
    match r
    case Acquire(pages) =>
      var k := CeilLog2(pages);
      if pages != 0 && Allocate(a, s.pool, k).Taken? {
        AllocateKeepsIntactIff(a, s.pool, k);
      }
      if 0 < pages && k <= a.top && Coalesced(a, s.pool) {
        AllocateCompleteIfIntact(a, s.pool, k);
      }
    case Release(page, pages) =>
      if page != 0 && pages != 0 {
        ReleaseUnused(a, avail, s, page, pages);
        FreeKeepsIntactIff(a, s.pool, Block(page, FloorLog2(pages)));
      }
  }
}
