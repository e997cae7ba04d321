/** Runs of the written code that reach the two branches where it departs from its
    documentation, and where one of them leads: two cores are handed the same object. */
module CoreCacheDepartures {
  import opened Words
  import opened Rings
  import opened CoreCaches
  import opened CoreCacheRuns
  import Slabs = SlabPool

  // ------------------------------------------------------------------------ runs

  /** The written code gets from s to t without taking either of the two branches. */
  ghost predicate CanReach(g: Slabs.Geometry, s: State, t: State)
  {
    exists run :: Reaches(AsWritten, g, s, run, t)
  }

  /** A run of the written code through whatever branches. */
  ghost predicate Runs(g: Slabs.Geometry, s: State, run: seq<Action>, t: State)
    decreases |run|
  {
    if run == [] then s == t
    else
      && Slabs.Safe(g, s.pool) && Enabled(g, s, run[0])
      && var r := Step(AsWritten, g, s, run[0]);
      && r.Some? && Runs(g, r.value.state, run[1..], t)
  }

  ghost predicate CanRun(g: Slabs.Geometry, s: State, t: State)
  {
    exists run :: Runs(g, s, run, t)
  }

  lemma {:induction false} RunsOn(g: Slabs.Geometry, s: State, run: seq<Action>, t: State, more: seq<Action>, u: State)
    requires Runs(g, s, run, t) && Runs(g, t, more, u)
    ensures Runs(g, s, run + more, u)
    decreases |run|
  {
    hide Enabled, Slabs.Safe, Step;
    if run == [] {
      assert run + more == more;
    } else {
      assert (run + more)[1..] == run[1..] + more;
      RunsOn(g, Step(AsWritten, g, s, run[0]).value.state, run[1..], t, more, u);
    }
  }

  lemma {:induction false} ReachesOn(g: Slabs.Geometry, s: State, run: seq<Action>, t: State,
                                     more: seq<Action>, u: State)
    requires Reaches(AsWritten, g, s, run, t) && Reaches(AsWritten, g, t, more, u)
    ensures Reaches(AsWritten, g, s, run + more, u)
    decreases |run|
  {
    hide Enabled, Slabs.Safe, Step, Departs;
    if run == [] {
      assert run + more == more;
    } else {
      assert (run + more)[1..] == run[1..] + more;
      ReachesOn(g, Step(AsWritten, g, s, run[0]).value.state, run[1..], t, more, u);
    }
  }

  lemma {:induction false} ReachesRuns(g: Slabs.Geometry, s: State, run: seq<Action>, t: State)
    requires Reaches(AsWritten, g, s, run, t)
    ensures Runs(g, s, run, t)
    decreases |run|
  {
    hide Enabled, Slabs.Safe, Step, Departs;
    if run != [] { ReachesRuns(g, Step(AsWritten, g, s, run[0]).value.state, run[1..], t); }
  }

  lemma ThenReaches(g: Slabs.Geometry, s: State, t: State, u: State)
    requires CanReach(g, s, t) && CanReach(g, t, u)
    ensures CanReach(g, s, u)
  {
    var run :| Reaches(AsWritten, g, s, run, t);
    var more :| Reaches(AsWritten, g, t, more, u);
    ReachesOn(g, s, run, t, more, u);
  }

  lemma ThenRuns(g: Slabs.Geometry, s: State, t: State, u: State)
    requires CanRun(g, s, t) && CanRun(g, t, u)
    ensures CanRun(g, s, u)
  {
    var run :| Runs(g, s, run, t);
    var more :| Runs(g, t, more, u);
    RunsOn(g, s, run, t, more, u);
  }

  lemma ReachedRuns(g: Slabs.Geometry, s: State, t: State)
    requires CanReach(g, s, t)
    ensures CanRun(g, s, t)
  {
    var run :| Reaches(AsWritten, g, s, run, t);
    ReachesRuns(g, s, run, t);
  }

  lemma StepRuns(g: Slabs.Geometry, s: State, a: Action)
    requires Slabs.Safe(g, s.pool) && Enabled(g, s, a) && Step(AsWritten, g, s, a).Some?
    ensures CanRun(g, s, Step(AsWritten, g, s, a).value.state)
  {
    var t := Step(AsWritten, g, s, a).value.state;
    assert Runs(g, t, [], t);
    assert [a][0] == a && [a][1..] == [];
    assert Runs(g, s, [a], t);
  }

  /** A step outside the two branches. */
  lemma StepReaches(g: Slabs.Geometry, s: State, a: Action)
    requires Conserved(g, s) && Enabled(g, s, a) && !Departs(s, a)
    ensures Slabs.Safe(g, s.pool)
    ensures var r := Step(AsWritten, g, s, a);
            && r.Some? && Conserved(g, r.value.state) && CanReach(g, s, r.value.state)
            && Serves(s, a.core, r.value)
  {
    hide Conserved, Enabled, Departs, Slabs.Safe, Step, Serves;
    WrittenStepConservesIff(g, s, a);
    var t := Step(AsWritten, g, s, a).value.state;
    assert Reaches(AsWritten, g, t, [], t);
    assert [a][0] == a && [a][1..] == [];
    assert Reaches(AsWritten, g, s, [a], t);
  }

  // --------------------------------------------------------------- fresh supplies

  /** There is always another slab the page allocator may give. */
  lemma AnotherSlab(g: Slabs.Geometry, s: Slabs.State) returns (node: int)
    requires g.nodeOffset >= 0
    ensures Slabs.Fresh(g, s, Some(node))
  {
    var m := Above(s.free.Keys);
    var b := AlignDown(m, g.shift) + Pow2(g.shift);
    AlignDownMultiple(m, g.shift);
    Pow2Multiple(g.shift, g.shift);
    MultipleSum(AlignDown(m, g.shift), Pow2(g.shift), g.shift);
    node := b + g.nodeOffset;
  }

  lemma {:induction false} Above(s: set<int>) returns (m: nat)
    ensures forall x | x in s :: x <= m
    decreases |s|
  {
    m := 0;
    if x :| x in s {
      var n := Above(s - {x});
      m := if n < x then x else n;
      assert forall y | y in s :: y == x || y in s - {x};
    }
  }

  lemma Member(s: set<int>) returns (x: int)
    requires |s| > 0
    ensures x in s
  {
    assert s != {};
    if forall y :: y !in s { assert false; }
    x :| x in s;
  }

  function NewAt(b: int): Option<NewBundle>
  {
    Some(NewBundle(b, seq(BUNDLE_SIZE, _ => 0)))
  }

  // ------------------------------------------------------------- many allocations

  /** Only the first core has bundles, and it is at the given task; n objects are held. */
  ghost predicate At(g: Slabs.Geometry, s: State, cache: Cache, task: Task, bundles: set<int>, n: nat)
  {
    && Conserved(g, s) && |s.cores| >= 3 && s.cores[0] == Core(cache, task)
    && (forall c | 1 <= c < |s.cores| :: s.cores[c] == Core(NO_CACHE, Idle))
    && s.empty == [] && s.full == [] && s.slots.Keys == bundles && |s.held| == n
  }

  /** The first allocation gets the core its two bundles. */
  lemma FirstBundles(g: Slabs.Geometry, s: State) returns (t: State)
    requires Started(g, s) && |s.cores| >= 3
    ensures CanReach(g, s, t) && At(g, t, Cache(1, 0, 2, 0), Taking, {1, 2}, 0)
  {
    hide Conserved, Reaches, Departs, Slabs.Safe, Serves;
    StartConserved(g, s);
    StepReaches(g, s, StartAlloc(0)) by { NotDeparting(s, StartAlloc(0)); }
    var s1 := SetCore(s, 0, NO_CACHE, FillingCurrent);
    assert Step(AsWritten, g, s, StartAlloc(0)).value.state == s1;
    StepReaches(g, s1, FillCurrent(0, NewAt(1))) by { NotDeparting(s1, FillCurrent(0, NewAt(1))); }
    var s2 := FillCurrentStep(s1, 0, NewAt(1));
    assert s2.cores[0] == Core(Cache(1, 0, 0, 0), FillingStandby) && s2.slots.Keys == {1};
    StepReaches(g, s2, FillStandby(0, NewAt(2))) by { NotDeparting(s2, FillStandby(0, NewAt(2))); }
    t := FillStandbyStep(s2, 0, NewAt(2));
    ThenReaches(g, s, s1, s2);
    ThenReaches(g, s, s2, t);
  }

  lemma NotDeparting(s: State, a: Action)
    requires a.core < |s.cores| && !a.Take? && !a.Put?
    ensures !Departs(s, a)
  {
  }

  /** With no object in the caches, an allocation takes one from a slab. */
  lemma OneMore(g: Slabs.Geometry, s: State, n: nat) returns (t: State)
    requires At(g, s, Cache(1, 0, 2, 0), Taking, {1, 2}, n)
    ensures CanReach(g, s, t) && At(g, t, Cache(1, 0, 2, 0), Idle, {1, 2}, n + 1)
  {
    hide Conserved, Reaches, Slabs.Safe;
    var k := Cache(1, 0, 2, 0);
    ConservedPool(g, s);
    StepReaches(g, s, Take(0));
    var s1 := SetCore(s, 0, k, TakingFromSlab);
    assert Step(AsWritten, g, s, Take(0)).value.state == s1;
    var slab := AnotherSlab(g, s1.pool);
    StepReaches(g, s1, TakeFromSlab(0, Some(slab)));
    Slabs.TakeSafe(g, s1.pool, Some(slab));
    var r := Step(AsWritten, g, s1, TakeFromSlab(0, Some(slab))).value;
    t := r.state;
    assert HandsOut(s1, r) by { assert r.obj.Some?; }
    ThenReaches(g, s, s1, t);
  }

  lemma TakesAgain(g: Slabs.Geometry, s: State, n: nat) returns (t: State)
    requires At(g, s, Cache(1, 0, 2, 0), Idle, {1, 2}, n)
    ensures CanReach(g, s, t) && At(g, t, Cache(1, 0, 2, 0), Taking, {1, 2}, n)
  {
    hide Conserved, Reaches, Departs, Slabs.Safe, Serves;
    var k := Cache(1, 0, 2, 0);
    StepReaches(g, s, StartAlloc(0)) by { NotDeparting(s, StartAlloc(0)); }
    var s1 := SetCore(s, 0, k, FillingCurrent);
    assert Step(AsWritten, g, s, StartAlloc(0)).value.state == s1;
    StepReaches(g, s1, FillCurrent(0, None)) by { NotDeparting(s1, FillCurrent(0, None)); }
    var s2 := SetCore(s1, 0, k, FillingStandby);
    assert Step(AsWritten, g, s1, FillCurrent(0, None)).value.state == s2;
    StepReaches(g, s2, FillStandby(0, None)) by { NotDeparting(s2, FillStandby(0, None)); }
    t := SetCore(s2, 0, k, Taking);
    assert Step(AsWritten, g, s2, FillStandby(0, None)).value.state == t;
    ThenReaches(g, s, s1, s2);
    ThenReaches(g, s, s2, t);
  }

  lemma {:induction false} ManyTaken(g: Slabs.Geometry, s: State, n: nat) returns (t: State)
    requires Started(g, s) && |s.cores| >= 3 && n > 0
    ensures CanReach(g, s, t) && At(g, t, Cache(1, 0, 2, 0), Idle, {1, 2}, n)
    decreases n
  {
    hide Started, CanReach, At;
    var u;
    if n == 1 {
      u := FirstBundles(g, s);
    } else {
      var v := ManyTaken(g, s, n - 1);
      u := TakesAgain(g, v, n - 1);
      ThenReaches(g, s, v, u);
    }
    t := OneMore(g, u, n - 1);
    ThenReaches(g, s, u, t);
  }

  // ------------------------------------------------------------------- many frees

  /** The core's bundles after i objects have been freed. */
  function AfterFrees(i: nat): Cache
  {
    if i <= BUNDLE_SIZE then Cache(1, i, 2, 0) else Cache(2, i - BUNDLE_SIZE, 1, BUNDLE_SIZE)
  }

  /** The core begins to free some object. */
  lemma FreeBegun(g: Slabs.Geometry, s: State, cache: Cache, n: nat) returns (o: int, t: State)
    requires At(g, s, cache, Idle, {1, 2}, n) && n > 0
    ensures CanReach(g, s, t) && At(g, t, cache, Putting(o), {1, 2}, n) && o in s.held
    ensures t == SetCore(s, 0, cache, Putting(o))
  {
    hide Conserved, Reaches, Departs, Slabs.Safe, Serves;
    o := Member(s.held);
    StepReaches(g, s, StartFree(0, o)) by { NotDeparting(s, StartFree(0, o)); }
    t := SetCore(s, 0, cache, Putting(o));
    assert Step(AsWritten, g, s, StartFree(0, o)).value.state == t;
  }

  lemma BundleSlots(g: Slabs.Geometry, s: State, b: int)
    requires Conserved(g, s) && b in s.slots
    ensures |s.slots[b]| == BUNDLE_SIZE
  {
    hide Refs, ObjectsPlaced;
  }

  /** One more object freed goes in the core's bundles. */
  lemma OneFreed(g: Slabs.Geometry, s: State, n: nat, i: nat) returns (t: State)
    requires At(g, s, AfterFrees(i), Idle, {1, 2}, n) && i < 2 * BUNDLE_SIZE && n > 0
    ensures CanReach(g, s, t) && At(g, t, AfterFrees(i + 1), Idle, {1, 2}, n - 1)
  {
    hide Conserved, Reaches, Slabs.Safe, Serves;
    var k := AfterFrees(i);
    var o, s1 := FreeBegun(g, s, k, n);
    BundleSlots(g, s1, 1);
    BundleSlots(g, s1, 2);
    StepReaches(g, s1, Put(0, None));
    var r := Step(AsWritten, g, s1, Put(0, None)).value;
    t := r.state;
    assert t.cores == s1.cores[0 := Core(AfterFrees(i + 1), Idle)] && t.held == s1.held - {o};
    ThenReaches(g, s, s1, t);
  }

  lemma {:induction false} ManyFreed(g: Slabs.Geometry, s: State, n: nat, i: nat) returns (t: State)
    requires At(g, s, AfterFrees(0), Idle, {1, 2}, n) && i <= 2 * BUNDLE_SIZE && i <= n
    ensures CanReach(g, s, t) && At(g, t, AfterFrees(i), Idle, {1, 2}, n - i)
    decreases i
  {
    hide CanReach, At, AfterFrees;
    if i == 0 {
      t := s;
      assert CanReach(g, s, s) by { Stays(g, s); }
    } else {
      var u := ManyFreed(g, s, n, i - 1);
      t := OneFreed(g, u, n - (i - 1), i - 1);
      ThenReaches(g, s, u, t);
    }
  }

  lemma Stays(g: Slabs.Geometry, s: State)
    ensures CanReach(g, s, s)
  {
    assert Reaches(AsWritten, g, s, [], s);
  }

  /** From the start, a core allocates n objects and frees 32 of them, which fill both
      its bundles. */
  lemma BothFull(g: Slabs.Geometry, s: State, n: nat) returns (t: State)
    requires Started(g, s) && |s.cores| >= 3 && n >= 2 * BUNDLE_SIZE
    ensures CanReach(g, s, t) && At(g, t, Cache(2, BUNDLE_SIZE, 1, BUNDLE_SIZE), Idle, {1, 2}, n - 2 * BUNDLE_SIZE)
  {
    hide Started, CanReach, At;
    var u := ManyTaken(g, s, n);
    t := ManyFreed(g, u, n, 2 * BUNDLE_SIZE);
    ThenReaches(g, s, u, t);
  }

  // ------------------------------------------------------------ reaching the branches

  /** From the start, 33 allocations and 33 frees by one core reach the branch that finds
      no empty bundle for a full standby. */
  lemma PutDepartureReached(g: Slabs.Geometry, s: State) returns (t: State)
    requires Started(g, s) && |s.cores| >= 3
    ensures CanReach(g, s, t) && Conserved(g, t) && Enabled(g, t, Put(0, None)) && Departs(t, Put(0, None))
  {
    hide Conserved, Reaches, Started;
    var u := BothFull(g, s, 2 * BUNDLE_SIZE + 1);
    var o;
    o, t := FreeBegun(g, u, Cache(2, BUNDLE_SIZE, 1, BUNDLE_SIZE), 1);
    ThenReaches(g, s, u, t);
  }

  /** The first core has both bundles full but one, a third is on the full list, and the
      second core, with two empty bundles, is about to take an object. */
  ghost predicate AboutToTake(g: Slabs.Geometry, s: State, n: nat)
  {
    && Conserved(g, s) && |s.cores| >= 3
    && s.cores[0].task == Idle
    && s.cores[1] == Core(Cache(4, 0, 5, 0), Taking)
    && (forall c | 2 <= c < |s.cores| :: s.cores[c] == Core(NO_CACHE, Idle))
    && s.empty == [] && s.full == [1] && s.slots.Keys == {1, 2, 3, 4, 5} && |s.held| == n
  }

  /** The next free finds an empty bundle, and puts a full one on the full list. */
  lemma FullListed(g: Slabs.Geometry, s: State, n: nat) returns (t: State)
    requires At(g, s, Cache(2, BUNDLE_SIZE, 1, BUNDLE_SIZE), Idle, {1, 2}, n) && n > 0
    ensures CanReach(g, s, t) && Conserved(g, t) && |t.cores| == |s.cores|
    ensures t.cores == s.cores[0 := Core(Cache(3, 1, 2, BUNDLE_SIZE), Idle)]
    ensures t.empty == [] && t.full == [1] && t.slots.Keys == {1, 2, 3} && |t.held| == n - 1
  {
    hide Conserved, Reaches, Slabs.Safe, Serves;
    var o, s1 := FreeBegun(g, s, Cache(2, BUNDLE_SIZE, 1, BUNDLE_SIZE), n);
    StepReaches(g, s1, Put(0, NewAt(3)));
    var r := Step(AsWritten, g, s1, Put(0, NewAt(3))).value;
    t := r.state;
    assert t.cores == s.cores[0 := Core(Cache(3, 1, 2, BUNDLE_SIZE), Idle)] && t.held == s1.held - {o};
    ThenReaches(g, s, s1, t);
  }

  /** From the start, 33 allocations and 33 frees by one core and the first allocation by
      another reach the branch that takes a full bundle. */
  lemma TakeDepartureReached(g: Slabs.Geometry, s: State, n: nat) returns (t: State)
    requires Started(g, s) && |s.cores| >= 3
    ensures CanReach(g, s, t) && AboutToTake(g, t, n)
    ensures Enabled(g, t, Take(1)) && Departs(t, Take(1))
  {
    hide Conserved, Reaches, Started, Slabs.Safe, Serves;
    var u := BothFull(g, s, n + 2 * BUNDLE_SIZE + 1);
    var v := FullListed(g, u, n + 1);
    ThenReaches(g, s, u, v);
    t := SecondBegins(g, v);
    ThenReaches(g, s, v, t);
  }

  lemma SecondBegins(g: Slabs.Geometry, s: State) returns (t: State)
    requires Conserved(g, s) && |s.cores| >= 2 && s.cores[1] == Core(NO_CACHE, Idle) && s.empty == []
    requires 4 !in s.slots && 5 !in s.slots
    ensures CanReach(g, s, t) && Conserved(g, t)
    ensures t.cores == s.cores[1 := Core(Cache(4, 0, 5, 0), Taking)]
    ensures t.empty == [] && t.full == s.full && t.slots.Keys == s.slots.Keys + {4, 5} && t.held == s.held
  {
    hide Conserved, Reaches, Departs, Slabs.Safe, Serves;
    StepReaches(g, s, StartAlloc(1)) by { NotDeparting(s, StartAlloc(1)); }
    var s1 := SetCore(s, 1, NO_CACHE, FillingCurrent);
    assert Step(AsWritten, g, s, StartAlloc(1)).value.state == s1;
    StepReaches(g, s1, FillCurrent(1, NewAt(4))) by { NotDeparting(s1, FillCurrent(1, NewAt(4))); }
    var s2 := FillCurrentStep(s1, 1, NewAt(4));
    StepReaches(g, s2, FillStandby(1, NewAt(5))) by { NotDeparting(s2, FillStandby(1, NewAt(5))); }
    t := FillStandbyStep(s2, 1, NewAt(5));
    ThenReaches(g, s, s1, s2);
    ThenReaches(g, s, s2, t);
  }

  // ----------------------------------------------------------- handing out an object twice

  lemma SetTwice(s: State, c: nat, k: Cache, t: Task, k': Cache, t': Task)
    requires c < |s.cores|
    ensures SetCore(SetCore(s, c, k, t), c, k', t') == SetCore(s, c, k', t')
  {
    assert s.cores[c := Core(k, t)][c := Core(k', t')] == s.cores[c := Core(k', t')];
  }

  ghost predicate AllIdle(s: State)
  {
    forall c | 0 <= c < |s.cores| :: s.cores[c].task == Idle
  }

  /** A free from beginning to end, while no other core is doing anything. */
  lemma FreeRuns(g: Slabs.Geometry, s: State, c: nat, o: int) returns (t: State)
    requires Slabs.Safe(g, s.pool) && AllIdle(s) && c < |s.cores| && o in s.held
    requires PutStep(AsWritten, SetCore(s, c, s.cores[c].cache, Putting(o)), c, o, None).Some?
    ensures CanRun(g, s, t)
    ensures t == PutStep(AsWritten, SetCore(s, c, s.cores[c].cache, Putting(o)), c, o, None).value.state
  {
    hide Slabs.Safe, PutStep;
    var s1 := SetCore(s, c, s.cores[c].cache, Putting(o));
    StepRuns(g, s, StartFree(c, o));
    assert Step(AsWritten, g, s, StartFree(c, o)).value.state == s1;
    StepRuns(g, s1, Put(c, None));
    t := PutStep(AsWritten, s1, c, o, None).value.state;
    assert Step(AsWritten, g, s1, Put(c, None)).value.state == t;
    ThenRuns(g, s, s1, t);
  }

  /** An allocation up to its first look at the bundles, by a core that has a current
      bundle, with no empty bundle to be had. */
  lemma AllocRuns(g: Slabs.Geometry, s: State, c: nat) returns (t: State)
    requires Slabs.Safe(g, s.pool) && c < |s.cores| && s.cores[c].task == Idle
    requires s.cores[c].cache.current != 0 && s.empty == []
    ensures CanRun(g, s, t) && t == SetCore(s, c, s.cores[c].cache, Taking)
  {
    hide Slabs.Safe;
    var k := s.cores[c].cache;
    StepRuns(g, s, StartAlloc(c));
    var s1 := SetCore(s, c, k, FillingCurrent);
    assert Step(AsWritten, g, s, StartAlloc(c)).value.state == s1;
    StepRuns(g, s1, FillCurrent(c, None));
    var s2 := SetCore(s1, c, k, FillingStandby);
    assert Step(AsWritten, g, s1, FillCurrent(c, None)).value.state == s2;
    StepRuns(g, s2, FillStandby(c, None));
    t := SetCore(s2, c, k, Taking);
    assert k.(standby := k.standby) == k;
    assert Step(AsWritten, g, s2, FillStandby(c, None)).value.state == t;
    SetTwice(s, c, k, FillingCurrent, k, FillingStandby);
    SetTwice(s, c, k, FillingStandby, k, Taking);
    ThenRuns(g, s, s1, s2);
    ThenRuns(g, s, s2, t);
  }

  /** The second core has taken the full bundle; the bundle it gave back is still its
      standby. */
  ghost predicate Shared(g: Slabs.Geometry, s: State, p: int, q: int, r: int)
  {
    && Slabs.Safe(g, s.pool) && |s.cores| >= 3 && AllIdle(s)
    && s.cores[1].cache == Cache(1, BUNDLE_SIZE - 1, 4, 0) && s.cores[2].cache == NO_CACHE
    && s.empty == [4] && HasSlot(s.slots, 1, BUNDLE_SIZE - 1) && HasSlot(s.slots, 4, 0)
    && p in s.held && q in s.held && r in s.held && p != q && p != r && q != r
  }

  /** Two cores are about to take an object, and are both handed this one. */
  ghost predicate HandsOutTwice(g: Slabs.Geometry, s: State, c: nat, d: nat, o: int)
  {
    && c != d && Slabs.Safe(g, s.pool) && Enabled(g, s, Take(c)) && Enabled(g, s, Take(d))
    && var x := Step(AsWritten, g, s, Take(c));
    && x.Some? && x.value.obj == Some(o) && x.value.state.pool == s.pool && Enabled(g, x.value.state, Take(d))
    && var y := Step(AsWritten, g, x.value.state, Take(d));
    && y.Some? && y.value.obj == Some(o)
  }

  /** The shared bundle is taken into use by both cores, each freeing an object into its
      first slot. */
  lemma BothUse(g: Slabs.Geometry, s: State, p: int, q: int, r: int) returns (t: State)
    requires Shared(g, s, p, q, r)
    ensures CanRun(g, s, t)
    ensures Slabs.Safe(g, t.pool) && |t.cores| >= 3 && AllIdle(t) && t.empty == []
    ensures t.cores[1].cache == Cache(4, 1, 1, BUNDLE_SIZE) && t.cores[2].cache == Cache(4, 1, 0, 0)
    ensures HasSlot(t.slots, 4, 0) && SlotAt(t.slots, 4, 0) == r
  {
    hide Slabs.Safe, CanRun;
    var s1 := FreeRuns(g, s, 1, p);
    assert s1.cores == s.cores[1 := Core(Cache(1, BUNDLE_SIZE, 4, 0), Idle)];
    assert s1.held == s.held - {p} && s1.empty == [4] && HasSlot(s1.slots, 4, 0);
    var s2 := FreeRuns(g, s1, 1, q);
    assert s2.cores == s1.cores[1 := Core(Cache(4, 1, 1, BUNDLE_SIZE), Idle)];
    assert s2.held == s1.held - {q} && s2.empty == [4] && HasSlot(s2.slots, 4, 0);
    t := FreeRuns(g, s2, 2, r);
    assert t.cores == s2.cores[2 := Core(Cache(4, 1, 0, 0), Idle)];
    ThenRuns(g, s, s1, s2);
    ThenRuns(g, s, s2, t);
  }

  /** Then both begin to allocate, and both are handed the object freed last. */
  lemma BothTake(g: Slabs.Geometry, s: State, o: int) returns (t: State)
    requires Slabs.Safe(g, s.pool) && |s.cores| >= 3 && AllIdle(s) && s.empty == []
    requires s.cores[1].cache == Cache(4, 1, 1, BUNDLE_SIZE) && s.cores[2].cache == Cache(4, 1, 0, 0)
    requires HasSlot(s.slots, 4, 0) && SlotAt(s.slots, 4, 0) == o
    ensures CanRun(g, s, t) && HandsOutTwice(g, t, 1, 2, o)
  {
    hide Slabs.Safe, CanRun;
    var s1 := AllocRuns(g, s, 1);
    t := AllocRuns(g, s1, 2);
    ThenRuns(g, s, s1, t);
    var u := PopCurrent(t, 1).value.state;
    assert Step(AsWritten, g, t, Take(1)) == PopCurrent(t, 1);
    assert u.cores[2] == Core(Cache(4, 1, 0, 0), Taking);
    assert Step(AsWritten, g, u, Take(2)) == PopCurrent(u, 2);
  }

  /** Three held objects of a set that has three. */
  lemma ThreeOf(s: set<int>) returns (p: int, q: int, r: int)
    requires |s| == 3
    ensures p in s && q in s && r in s && p != q && p != r && q != r
  {
    p := Member(s);
    q := Member(s - {p});
    r := Member(s - {p} - {q});
  }

  /** The departing step leaves the bundle given back both listed and in use. */
  lemma DepartureShares(g: Slabs.Geometry, s: State) returns (t: State, p: int, q: int, r: int)
    requires AboutToTake(g, s, 3)
    ensures CanRun(g, s, t) && Shared(g, t, p, q, r)
  {
    hide Conserved, Slabs.Safe, CanRun;
    ConservedPool(g, s);
    BundleSlots(g, s, 1);
    BundleSlots(g, s, 4);
    p, q, r := ThreeOf(s.held);
    StepRuns(g, s, Take(1));
    t := Step(AsWritten, g, s, Take(1)).value.state;
    assert t.cores == s.cores[1 := Core(Cache(1, BUNDLE_SIZE - 1, 4, 0), Idle)];
  }

  /** From the start, three cores' allocations and frees lead the written code to hand the
      same object to two of them, neither having freed it in between. */
  lemma SameObjectTwice(g: Slabs.Geometry, s: State) returns (t: State, o: int)
    requires Started(g, s) && |s.cores| >= 3
    ensures CanRun(g, s, t) && HandsOutTwice(g, t, 1, 2, o)
  {
    hide Started, AboutToTake, Shared, CanRun, CanReach, HandsOutTwice, AllIdle;
    var u := TakeDepartureReached(g, s, 3);
    ReachedRuns(g, s, u);
    var v, p, q, r := DepartureShares(g, u);
    ThenRuns(g, s, u, v);
    var w := BothUse(g, v, p, q, r);
    ThenRuns(g, s, v, w);
    t := BothTake(g, w, r);
    o := r;
    ThenRuns(g, s, w, t);
  }
}
