/** The page allocator as its comment intends: removing the head of a list moves the head
    to the next block. The links of the blocks are those of the written code; only heads
    differ. So everything the written code keeps is kept, and in addition every list stays
    reachable, whatever the run. */
module BuddyIntent {
  import opened Words
  import opened Rings
  import opened BuddyPool
  import opened BuddyOrder
  import opened BuddyInit
  import opened BuddyRuns

  // -------------------------------------------------------- pools but for their heads

  /** The same links between blocks at every level; heads may differ. */
  ghost predicate SameLinks(p: Pool, q: Pool)
  {
    |p| == |q| && forall l | 0 <= l < |p| :: p[l].next == q[l].next && p[l].prev == q[l].prev
  }

  lemma SameListed(p: Pool, q: Pool)
    requires SameLinks(p, q)
    ensures forall b :: Linked(p, b) <==> Linked(q, b)
    ensures forall x :: IsFree(p, x) <==> IsFree(q, x)
  {
    forall b
      ensures Linked(p, b) <==> Linked(q, b)
    {
      if b.level < |p| { assert p[b.level].next == q[b.level].next; }
    }
    forall x
      ensures IsFree(p, x) <==> IsFree(q, x)
    {
      if IsFree(p, x) { var b :| Linked(p, b) && Covers(b, x); assert Linked(q, b); }
      if IsFree(q, x) { var b :| Linked(q, b) && Covers(b, x); assert Linked(p, b); }
    }
  }

  lemma ListConsistent(k: Links)
    requires IsSomeList(k)
    ensures Consistent(k)
  {
    var s :| IsList(k, s);
  }

  /** A pool of lists is sound if one with the same links is. */
  lemma SameSound(a: Area, p: Pool, q: Pool)
    requires Sound(a, p) && SameLinks(p, q) && Intact(q, 0)
    ensures Sound(a, q) && (Coalesced(a, p) ==> Coalesced(a, q))
  {
    SameListed(p, q);
    forall l | 0 <= l < |q|
      ensures Consistent(q[l])
    {
      ListConsistent(q[l]);
    }
  }

  // ------------------------------------------------------------------------ removal

  function RemoveAdvance(pool: Pool, b: Block): Pool
    requires Linked(pool, b) && b.page in pool[b.level].prev
  {
    pool[b.level := UnlinkAdvance(pool[b.level], b.page)]
  }

  /** On a list, the two removals leave the same links, and the intended one a list. */
  lemma AdvanceSameLinks(k: Links, b: int)
    requires IsSomeList(k) && k.Has(b)
    ensures b in k.prev && Unlink(k, b).Some?
    ensures var j, i := Unlink(k, b).value, UnlinkAdvance(k, b);
            j.next == i.next && j.prev == i.prev && IsSomeList(i)
  {
    UnlinkKeepsListIff(k, b);
    var s :| IsList(k, s);
    var n :| 0 <= n < |s| && s[n] == b;
    LoneNode(k, s, n);
    UnlinkAdvanceRemoves(k, s, n);
    assert IsList(UnlinkAdvance(k, b), Without(s, n));
    ListConsistent(k);
    assert k.Next(b, b) <==> k.Prev(b, b);
  }

  /** After the intended removal the pool is one of lists, with the links the written
      removal leaves. */
  lemma RemovedSame(a: Area, p: Pool, q: Pool, b: Block)
    requires Sound(a, p) && Sound(a, q) && SameLinks(p, q) && Intact(q, 0) && Linked(q, b) && p[b.level] == q[b.level]
    ensures Linked(p, b) && b.page in p[b.level].prev && b.page in q[b.level].prev && Remove(p, b).Some?
    ensures var p', q' := Remove(p, b).value, RemoveAdvance(q, b);
            && SameLinks(p', q') && Intact(q', 0) && Sound(a, p') && Sound(a, q')
            && forall m | 0 <= m < |p| && m != b.level :: p'[m] == p[m] && q'[m] == q[m]
  {
    hide Consistent, Placed, Apart, Covers, UnlinkAdvance, Unlink;
    assert IsSomeList(q[b.level]);
    AdvanceSameLinks(q[b.level], b.page);
    RemoveBlock(a, p, b);
    RemovedIs(p, b);
    var p', q' := Remove(p, b).value, RemoveAdvance(q, b);
    forall m | 0 <= m < |q'|
      ensures IsSomeList(q'[m])
    {
      if m != b.level { assert q'[m] == q[m] && IsSomeList(q[m]); }
    }
    SameSound(a, p', q');
  }

  lemma RemovedIs(p: Pool, b: Block)
    requires Linked(p, b) && b.page in p[b.level].prev && Unlink(p[b.level], b.page).Some?
    ensures Remove(p, b) == Some(p[b.level := Unlink(p[b.level], b.page).value])
  {
  }

  // --------------------------------------------------------------------- allocation

  ghost function AllocateAdvance(a: Area, pool: Pool, k: nat): Allocation
    requires Sound(a, pool) && Intact(pool, 0)
  {
    if k >= |pool| || FirstLevel(pool, k) == |pool| then NoBlock
    else
      var l := FirstLevel(pool, k);
      HeadsLinked(a, pool);
      var b := Block(pool[l].head, l);
      RemovedSame(a, pool, pool, b);
      RemoveBlock(a, pool, b);
      UnusedSame(Remove(pool, b).value, RemoveAdvance(pool, b), b);
      Taken(b.page, Split(a, RemoveAdvance(pool, b), b.page, l, k))
  }

  lemma UnusedSame(p: Pool, q: Pool, b: Block)
    requires SameLinks(p, q)
    ensures Unused(p, b) <==> Unused(q, b)
  {
    SameListed(p, q);
  }

  /** Splitting depends only on the levels it fills. */
  lemma {:induction false} SplitSame(a: Area, p: Pool, q: Pool, x: int, l: nat, k: nat)
    requires Sound(a, p) && Sound(a, q) && k <= l < |p| && |q| == |p| && forall m | 0 <= m < l :: p[m] == q[m]
    requires Placed(a, Block(x, l)) && Unused(p, Block(x, l)) && Unused(q, Block(x, l))
    ensures forall m | 0 <= m < l :: Split(a, p, x, l, k)[m] == Split(a, q, x, l, k)[m]
    decreases l
  {
    hide Consistent, Multiple, Aligned;
    if l > k {
      SplitStep(a, p, x, l);
      SplitStep(a, q, x, l);
      var half := Block(x + Pow2(l - 1), l - 1);
      var p', q' := Add(p, half), Add(q, half);
      SplitSame(a, p', q', x, l - 1, k);
      SplitAbove(a, p', x, l - 1, k);
      SplitAbove(a, q', x, l - 1, k);
      assert Split(a, p, x, l, k) == Split(a, p', x, l - 1, k);
      assert Split(a, q, x, l, k) == Split(a, q', x, l - 1, k);
    }
  }

  lemma {:induction false} SplitAbove(a: Area, p: Pool, x: int, l: nat, k: nat)
    requires Sound(a, p) && k <= l < |p| && Placed(a, Block(x, l)) && Unused(p, Block(x, l))
    ensures forall m | l <= m < |p| :: Split(a, p, x, l, k)[m] == p[m]
    decreases l
  {
    hide Consistent, Multiple, Aligned;
    if l > k {
      SplitStep(a, p, x, l);
      var p' := Add(p, Block(x + Pow2(l - 1), l - 1));
      SplitAbove(a, p', x, l - 1, k);
      assert Split(a, p, x, l, k) == Split(a, p', x, l - 1, k);
    }
  }

  /** On pools of lists, the intended allocation takes the block the written one takes,
      leaves the same links, and keeps every list. */
  lemma AllocateSame(a: Area, pool: Pool, k: nat)
    requires Sound(a, pool) && Intact(pool, 0)
    ensures var w, i := Allocate(a, pool, k), AllocateAdvance(a, pool, k);
            && (w.NoBlock? <==> i.NoBlock?)
            && (w.Taken? ==> i.page == w.page && SameLinks(w.pool, i.pool) && Intact(i.pool, 0) && Sound(a, i.pool))
  {
    hide Consistent, Multiple, Aligned;
    if Allocate(a, pool, k).Taken? {
      var l := FirstLevel(pool, k);
      HeadsLinked(a, pool);
      var b := Block(pool[l].head, l);
      RemovedSame(a, pool, pool, b);
      RemoveBlock(a, pool, b);
      var p, q := Remove(pool, b).value, RemoveAdvance(pool, b);
      UnusedSame(p, q, b);
      SplitSame(a, p, q, b.page, l, k);
      SplitAbove(a, p, b.page, l, k);
      SplitAbove(a, q, b.page, l, k);
      SplitKeepsLists(a, q, b.page, l, k);
      var w, i := Split(a, p, b.page, l, k), Split(a, q, b.page, l, k);
      assert forall m | 0 <= m < |p| :: w[m].next == i[m].next && w[m].prev == i[m].prev;
      AllocateSafe(a, pool, k);
      SameSound(a, w, i);
    }
  }

  // ------------------------------------------------------------------------- freeing

  ghost function CoalesceAdvance(a: Area, pool: Pool, b: Block): Freed
    requires Sound(a, pool) && Intact(pool, 0) && Placed(a, b) && Unused(pool, b) && b.level <= |pool|
    decreases |pool| - b.level
  {
    if b.level == |pool| then Dropped(pool)
    else
      var c := Buddy(a.base, b);
      HeadsLinked(a, pool);
      if !Linked(pool, c) then Listed(Add(pool, b))
      else
        RemovedSame(a, pool, pool, c);
        CoalesceStep(a, pool, b);
        UnusedSame(Remove(pool, c).value, RemoveAdvance(pool, c), Merged(a.base, b));
        CoalesceAdvance(a, RemoveAdvance(pool, c), Merged(a.base, b))
  }

  /** Freeing into a pool of lists, the intended code merges as the written does, leaves
      the same links, keeps every list, and neither panics. */
  lemma {:induction false} CoalesceSame(a: Area, p: Pool, q: Pool, b: Block)
    requires Sound(a, p) && Sound(a, q) && SameLinks(p, q) && Intact(q, 0)
    requires Placed(a, b) && Unused(q, b) && b.level <= |q| && forall m | b.level <= m < |q| :: p[m] == q[m]
    ensures var w, i := Coalesce(a, p, b), CoalesceAdvance(a, q, b);
            && !w.Panicked? && !i.Panicked? && (w.Listed? <==> i.Listed?)
            && SameLinks(w.pool, i.pool) && Intact(i.pool, 0)
    decreases |q| - b.level
  {
    hide Consistent, Multiple, Aligned;
    SameListed(p, q);
    if b.level < |q| {
      var c := Buddy(a.base, b);
      HeadsLinked(a, p);
      HeadsLinked(a, q);
      if Linked(q, c) {
        RemovedSame(a, p, q, c);
        RemovedSame(a, q, q, c);
        UnusedSame(p, q, b);
        CoalesceStep(a, p, b);
        var p', q', m := Remove(p, c).value, RemoveAdvance(q, c), Merged(a.base, b);
        UnusedSame(p', q', m);
        CoalesceSame(a, p', q', m);
      } else {
        assert !Linked(q, b);
        assert IsSomeList(q[b.level]);
        PushKeepsList(q[b.level], b.page);
        var i := Add(q, b);
        forall m | 0 <= m < |i|
          ensures IsSomeList(i[m])
        {
          if m != b.level { assert i[m] == q[m] && IsSomeList(q[m]); }
        }
      }
    }
  }

  // --------------------------------------------------------------------------- runs

  ghost function StepAdvance(a: Area, avail: set<int>, s: State, r: Request): Outcome
    requires Safe(a, avail, s) && Intact(s.pool, 0) && Legal(a, s, r)
  {
    match r
    case Acquire(pages) =>
      var k := CeilLog2(pages);
      if pages == 0 then Done(s, None)
      else (match AllocateAdvance(a, s.pool, k)
        case NoBlock => Done(s, None)
        case Taken(p, pool) =>
          Done(State(pool, s.live + BuddyRuns.Pages(Block(p, k)), s.free - Pow2(k), s.alloc + Pow2(k)),
               Some(Block(p, k))))
    case Release(page, pages) =>
      if page == 0 || pages == 0 then Done(s, None)
      else if !Acceptable(a, page, pages) then Panic
      else
        var b := Block(page, FloorLog2(pages));
        ReleaseUnused(a, avail, s, page, pages);
        var f := CoalesceAdvance(a, s.pool, b);
        if f.Panicked? then Panic
        else Done(State(f.pool, s.live - BuddyRuns.Pages(b), s.free + pages, s.alloc - pages), None)
  }

  /** States that differ in the heads of their lists only. */
  ghost predicate SameButHeads(s: State, t: State)
  {
    SameLinks(s.pool, t.pool) && s.live == t.live && s.free == t.free && s.alloc == t.alloc
  }

  /** From lists that are all reachable, the intended code replies as the written does,
      keeps every list reachable, and panics only on an unacceptable free. */
  lemma StepSame(a: Area, avail: set<int>, s: State, r: Request)
    requires Safe(a, avail, s) && Intact(s.pool, 0) && Legal(a, s, r)
    ensures var w, i := Step(a, s, r), StepAdvance(a, avail, s, r);
            && (i.Panic? <==> w.Panic?)
            && (i.Panic? <==> r.Release? && r.page != 0 && r.pages != 0 && !Acceptable(a, r.page, r.pages))
            && (i.Done? ==> i.reply == w.reply && SameButHeads(w.state, i.state) && Intact(i.state.pool, 0))
  {
    hide Consistent, Multiple, Aligned, Acceptable;
    match r
    case Acquire(pages) =>
      AllocateSame(a, s.pool, CeilLog2(pages));
      if pages > 0 { AcquireTaken(a, s, pages, CeilLog2(pages)); } else { AcquireNothing(a, s); }
    case Release(page, pages) =>
      ReleaseCases(a, s, page, pages);
      if page != 0 && pages != 0 && Acceptable(a, page, pages) {
        ReleaseUnused(a, avail, s, page, pages);
        CoalesceSame(a, s.pool, s.pool, Block(page, FloorLog2(pages)));
      }
  }

  lemma SameSafe(a: Area, avail: set<int>, s: State, t: State)
    requires Safe(a, avail, s) && SameButHeads(s, t) && Intact(t.pool, 0)
    ensures Safe(a, avail, t)
    ensures Coalesced(a, s.pool) ==> Coalesced(a, t.pool)
    ensures NothingLost(avail, s) ==> NothingLost(avail, t)
  {
    SameSound(a, s.pool, t.pool);
    SameListed(s.pool, t.pool);
  }

  lemma AdvanceSafe(a: Area, avail: set<int>, s: State, r: Request)
    requires Safe(a, avail, s) && Intact(s.pool, 0) && Legal(a, s, r)
    ensures var i := StepAdvance(a, avail, s, r); i.Done? ==> Safe(a, avail, i.state) && Intact(i.state.pool, 0)
  {
    hide Safe, Intact, Legal, SameButHeads, Acceptable, Step, StepAdvance;
    SafeAligned(a, avail, s);
    StepSame(a, avail, s, r);
    StepSafe(a, avail, s, r);
    if StepAdvance(a, avail, s, r).Done? { SameSafe(a, avail, Step(a, s, r).state, StepAdvance(a, avail, s, r).state); }
  }

  lemma SafeAligned(a: Area, avail: set<int>, s: State)
    requires Safe(a, avail, s)
    ensures Multiple(a.base, a.top) && Sound(a, s.pool)
  {
  }

  /** s' is reached from s by legal requests, with the head moved as intended. */
  ghost predicate Runs(a: Area, avail: set<int>, s: State, rs: seq<Request>, s': State)
    requires Safe(a, avail, s) && Intact(s.pool, 0)
    decreases |rs|
  {
    if rs == [] then s == s'
    else
      && Legal(a, s, rs[0])
      && StepAdvance(a, avail, s, rs[0]).Done?
      && (AdvanceSafe(a, avail, s, rs[0]); Runs(a, avail, StepAdvance(a, avail, s, rs[0]).state, rs[1..], s'))
  }

  /** What an acceptable request gets once every list is reachable and coalesced: never a
      panic, and a block exactly when an aligned run of free pages is large enough. */
  ghost predicate Complete(a: Area, avail: set<int>, s: State)
    requires Safe(a, avail, s) && Intact(s.pool, 0)
  {
    forall r | Legal(a, s, r) && (r.Release? && r.page != 0 && r.pages != 0 ==> Acceptable(a, r.page, r.pages)) ::
      var o := StepAdvance(a, avail, s, r);
      && o.Done?
      && (r.Acquire? && 0 < r.pages && CeilLog2(r.pages) <= a.top ==>
            (o.reply.None? <==>
               !exists b: Block :: b.level == CeilLog2(r.pages) && Aligned(a.base, b) && FreeRun(s.pool, b)))
  }

  lemma CompleteIfCoalesced(a: Area, avail: set<int>, s: State)
    requires Safe(a, avail, s) && Intact(s.pool, 0) && Coalesced(a, s.pool)
    ensures Complete(a, avail, s)
  {
    hide Safe, Intact, Legal, Acceptable, Coalesced, FreeRun, Aligned, Step, StepAdvance;
    SafeAligned(a, avail, s);
    forall r | Legal(a, s, r) && (r.Release? && r.page != 0 && r.pages != 0 ==> Acceptable(a, r.page, r.pages))
      ensures var o := StepAdvance(a, avail, s, r);
              && o.Done?
              && (r.Acquire? && 0 < r.pages && CeilLog2(r.pages) <= a.top ==>
                    (o.reply.None? <==>
                       !exists b: Block :: b.level == CeilLog2(r.pages) && Aligned(a.base, b) && FreeRun(s.pool, b)))
    {
      StepSame(a, avail, s, r);
      StepIntactIff(a, avail, s, r);
    }
  }

  /** With the head moved as intended and no wholly available top-level pair, every run
      keeps every list reachable, loses no memory, leaves no two buddies listed, and
      serves every acceptable request that free memory allows. */
  lemma {:induction false} EveryRunAsIntended(a: Area, avail: set<int>, s: State, rs: seq<Request>, s': State)
    requires NoTopPair(a, avail) && Safe(a, avail, s) && Intact(s.pool, 0) && Coalesced(a, s.pool)
    requires NothingLost(avail, s)
    requires Runs(a, avail, s, rs, s')
    ensures Safe(a, avail, s') && Intact(s'.pool, 0) && Coalesced(a, s'.pool) && NothingLost(avail, s')
    ensures Complete(a, avail, s')
    decreases |rs|
  {
    hide Safe, Intact, Legal, Coalesced, NothingLost, NoTopPair, SameButHeads, Complete, Step, StepAdvance;
    SafeAligned(a, avail, s);
    if rs == [] {
      CompleteIfCoalesced(a, avail, s);
    } else {
      AdvanceSafe(a, avail, s, rs[0]);
      StepSame(a, avail, s, rs[0]);
      StepCoalesced(a, avail, s, rs[0]);
      SameSafe(a, avail, Step(a, s, rs[0]).state, StepAdvance(a, avail, s, rs[0]).state);
      EveryRunAsIntended(a, avail, StepAdvance(a, avail, s, rs[0]).state, rs[1..], s');
    }
  }

  /** The lists initialisation builds are all reachable. */
  lemma {:induction false} FillIntact(a: Area, pool: Pool, r: Range, p: nat)
    requires r.base <= p <= End(r) && Multiple(a.base, a.top) && Sound(a, pool)
    requires BuddyInit.Fits(a, p, End(r) - p) && RangeUnused(pool, p, End(r)) && Intact(pool, 0)
    ensures Intact(Fill(a, pool, r, p), 0)
    decreases End(r) - p
  {
    hide Sound, Multiple, LevelAt, RangeUnused, Intact, Add, Unused;
    if p < End(r) {
      var b := Block(p, LevelAt(a.top, p, End(r) - p));
      FillStep(a, pool, p, End(r) - p);
      AddIntact(a, pool, b);
      FillIntact(a, Add(pool, b), r, p + Pow2(b.level));
    }
  }

  lemma AddIntact(a: Area, pool: Pool, b: Block)
    requires b.level < |pool| && (pool[b.level].head != 0 ==> pool[b.level].head in pool[b.level].prev)
    requires Placed(a, b) && Unused(pool, b) && Intact(pool, 0)
    ensures Intact(Add(pool, b), 0)
  {
    hide IsSomeList, Aligned, PushTail;
    UnusedBlock(a, pool, b);
    assert IsSomeList(pool[b.level]);
    PushKeepsList(pool[b.level], b.page);
    var next := Add(pool, b);
    forall m | 0 <= m < |next|
      ensures IsSomeList(next[m])
    {
      if m != b.level { assert next[m] == pool[m] && IsSomeList(pool[m]); }
    }
  }

  lemma {:induction false} InitialIntact(a: Area, rs: seq<Range>)
    requires Available(a, rs)
    ensures Intact(Initial(a, rs), 0)
    decreases |rs|
  {
    if rs == [] {
      forall m | 0 <= m < a.top + 1
        ensures IsSomeList(BuddyInit.Empty(a)[m])
      {
        assert IsList(EMPTY, []);
      }
    } else {
      var n := |rs| - 1;
      InitialStep(a, rs, n);
      InitialIntact(a, rs[..n]);
      assert rs[..n + 1] == rs;
      FillIntact(a, Initial(a, rs[..n]), rs[n], rs[n].base);
    }
  }

  /** From the start, in areas with no wholly available top-level pair and no run across
      ranges: every run as intended keeps all of the above, and freeing everything
      restores exactly the blocks initialisation listed. */
  lemma FromStartAsIntended(a: Area, ranges: seq<Range>, avail: set<int>, s: State, rs: seq<Request>, s': State)
    requires Starts(a, ranges, avail, s) && NoTopPair(a, avail)
    requires forall r | OfferedRun(a, ranges, r) :: InOneRange(ranges, r)
    ensures Safe(a, avail, s) && Intact(s.pool, 0)
    ensures Runs(a, avail, s, rs, s') ==>
              && Safe(a, avail, s') && Intact(s'.pool, 0) && Complete(a, avail, s')
              && (s'.live == {} ==> forall b :: Linked(s'.pool, b) <==> Linked(s.pool, b))
  {
    StartSafe(a, ranges, avail, s);
    InitialIntact(a, ranges);
    InitialCoalescedIff(a, ranges);
    if Runs(a, avail, s, rs, s') {
      EveryRunAsIntended(a, avail, s, rs, s');
      if s'.live == {} {
        AllFree(a, avail, s, s');
        SameFreePagesSameLists(a, s.pool, s'.pool);
      }
    }
  }

  lemma AllFree(a: Area, avail: set<int>, s: State, t: State)
    requires Safe(a, avail, s) && NothingLost(avail, s) && Safe(a, avail, t) && NothingLost(avail, t)
    requires s.live == {} && t.live == {}
    ensures forall q :: IsFree(s.pool, q) <==> IsFree(t.pool, q)
  {
  }
}
