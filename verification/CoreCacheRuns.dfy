/** What every step and run of the core caches keeps: the documented exchanges conserve
    bundles and objects always; the exchanges as written do so exactly when a guard
    that a caller can read holds. */
module CoreCacheRuns {
  import opened Rings
  import opened CoreCaches
  import Slabs = SlabPool

  // ------------------------------------------------------- references of a core

  lemma Cancel(x: multiset<Ref>, y: multiset<Ref>, a: multiset<Ref>)
    requires x + a == y + a
    ensures x == y
  {
    forall r
      ensures x[r] == y[r]
    {
      assert (x + a)[r] == (y + a)[r];
    }
  }

  lemma CacheReferred(s: State, c: nat)
    requires c < |s.cores|
    ensures var k := s.cores[c].cache;
            && (k.current != 0 ==> Ref(k.current, k.currCount) in Refs(s))
            && (k.standby != 0 ==> Ref(k.standby, k.stbyCount) in Refs(s))
  {
    RefsSet(s, c, s.cores[c].cache, s.cores[c].task);
    var k := s.cores[c].cache;
    assert k.current != 0 ==> Ref(k.current, k.currCount) in CacheRefs(k);
    assert k.standby != 0 ==> Ref(k.standby, k.stbyCount) in CacheRefs(k);
  }

  /** A task that frees nothing new leaves the cores tidy. */
  ghost predicate FreesNoMore(s: State, c: nat, task: Task)
    requires c < |s.cores|
  {
    forall o | Freeing(task, o) :: Freeing(s.cores[c].task, o)
  }

  lemma TidyStep(s: State, c: nat, cache: Cache, task: Task)
    requires CoresTidy(s.cores, s.held) && c < |s.cores| && FreesNoMore(s, c, task)
    requires NullHasNone(cache)
    ensures CoresTidy(SetCore(s, c, cache, task).cores, s.held)
  {
    assert Tidy(s.cores[c], s.held);
    assert forall o | Freeing(task, o) :: o in s.held;
    forall d, o | 0 <= d < |s.cores| && d != c && Freeing(task, o)
      ensures !Freeing(s.cores[d].task, o)
    {
      assert Freeing(s.cores[c].task, o);
    }
    TidySet(s.cores, s.held, c, Core(cache, task));
  }

  /** A core that keeps its references, in whatever order, conserves everything. */
  lemma SameRefs(g: Slabs.Geometry, s: State, c: nat, cache: Cache, task: Task)
    requires Conserved(g, s) && c < |s.cores| && CacheRefs(cache) == CacheRefs(s.cores[c].cache)
    requires FreesNoMore(s, c, task)
    requires NullHasNone(cache)
    ensures Conserved(g, SetCore(s, c, cache, task))
  {
    hide CacheRefs, Refs, BundlesPlaced, ObjectsPlaced, CoresTidy;
    RefsSet(s, c, cache, task);
    Cancel(Refs(SetCore(s, c, cache, task)), Refs(s), CacheRefs(cache));
    TidyStep(s, c, cache, task);
    Rearranged(g, s, SetCore(s, c, cache, task));
  }

  lemma TidyAt(s: State, c: nat)
    requires CoresTidy(s.cores, s.held) && c < |s.cores|
    ensures var k := s.cores[c].cache;
            NullHasNone(k)
  {
    assert Tidy(s.cores[c], s.held);
  }

  lemma Swapped(g: Slabs.Geometry, s: State, c: nat, task: Task)
    requires Conserved(g, s) && c < |s.cores| && FreesNoMore(s, c, task)
    ensures Conserved(g, SetCore(s, c, Swap(s.cores[c].cache), task))
  {
    TidyAt(s, c);
    hide Conserved;
    SameRefs(g, s, c, Swap(s.cores[c].cache), task);
  }

  /** A bundle a core refers to is on neither list. */
  lemma NotOnLists(g: Slabs.Geometry, s: State, c: nat, b: int, n: nat)
    requires Conserved(g, s) && c < |s.cores| && Ref(b, n) in CacheRefs(s.cores[c].cache) && b != 0
    ensures b !in s.empty && b !in s.full
  {
    hide CoreRefs, ListRefs, CacheRefs;
    CoreRefsSet(s.cores, c, s.cores[c]);
    PlacedOnce(CoreRefs(s.cores), ListRefs(s.empty, 0), ListRefs(s.full, BUNDLE_SIZE), s.slots, Ref(b, n), Ref(b, 0));
    PlacedOnce(CoreRefs(s.cores), ListRefs(s.empty, 0), ListRefs(s.full, BUNDLE_SIZE), s.slots, Ref(b, n),
               Ref(b, BUNDLE_SIZE));
    if b in s.empty { ListRefsMember(s.empty, 0, b); }
    if b in s.full { ListRefsMember(s.full, BUNDLE_SIZE, b); }
  }

  lemma PlacedOnce(x: multiset<Ref>, y: multiset<Ref>, z: multiset<Ref>, slots: map<int, seq<int>>, r: Ref, q: Ref)
    requires BundlesPlaced(x + y + z, slots) && r in x && q.bundle == r.bundle
    ensures q !in y && q !in z
  {
    var all := x + y + z;
    assert r in all && all[r] == 1;
    assert (q in y || q in z) ==> q in all;
  }

  // -------------------------------------------------------------------- objects

  /** What conserved gives about one core. */
  lemma CoreParts(g: Slabs.Geometry, s: State, c: nat)
    requires Conserved(g, s) && c < |s.cores|
    ensures BundlesPlaced(Refs(s), s.slots) && ObjectsPlaced(Refs(s), s.slots, s.held, s.pool.live)
    ensures CoresTidy(s.cores, s.held)
    ensures var k := s.cores[c].cache;
            && NullHasNone(k)
            && (k.current != 0 ==> Ref(k.current, k.currCount) in Refs(s) && k.currCount <= BUNDLE_SIZE)
            && (k.currCount > 0 ==> k.current != 0)
            && (k.current != 0 ==> forall n: nat :: NullHasNone(k.(currCount := n)))
  {
    TidyAt(s, c);
    CacheReferred(s, c);
    if s.cores[c].cache.current != 0 { CountBounded(g, s, s.cores[c].cache.current, s.cores[c].cache.currCount); }
  }

  /** The parts of conserved, of a state whose slabs and lists are as before. */
  lemma PartsConserve(g: Slabs.Geometry, s: State, t: State, refs: multiset<Ref>)
    requires Conserved(g, s) && t.pool == s.pool && 0 !in t.empty && 0 !in t.full && Refs(t) == refs
    requires BundlesPlaced(refs, t.slots) && ObjectsPlaced(refs, t.slots, t.held, t.pool.live)
    requires CoresTidy(t.cores, t.held)
    ensures Conserved(g, t)
  {
  }

  lemma NoNulls(g: Slabs.Geometry, s: State)
    requires Conserved(g, s)
    ensures 0 !in s.empty && 0 !in s.full
  {
  }

  /** A core's new count is the only change to the references. */
  lemma CoreRecounted(g: Slabs.Geometry, s: State, c: nat, n: nat, t: State)
    requires Conserved(g, s) && c < |s.cores| && s.cores[c].cache.current != 0
    requires t.cores == SetCore(s, c, s.cores[c].cache.(currCount := n), Idle).cores && t.empty == s.empty
    requires t.full == s.full
    ensures Refs(t) == Recounted(Refs(s), s.cores[c].cache.current, s.cores[c].cache.currCount, n)
  {
    var k := s.cores[c].cache;
    var k' := k.(currCount := n);
    CoreParts(g, s, c);
    RefsSet(s, c, k', Idle);
    hide Refs, Conserved, BundlesPlaced, ObjectsPlaced, CoresTidy, CacheRefs, Recounted;
    SameLists(SetCore(s, c, k', Idle), t);
    RecountedCore(Refs(s), Refs(t), k, k');
  }

  /** Popping the current bundle hands out an object nobody held. */
  lemma PopSafe(g: Slabs.Geometry, s: State, c: nat)
    requires Conserved(g, s) && c < |s.cores| && s.cores[c].cache.currCount > 0
    ensures var r := PopCurrent(s, c);
            r.Some? && Conserved(g, r.value.state) && HandsOut(s, r.value)
  {
    hide SetCore, Conserved, Refs, BundlesPlaced, ObjectsPlaced, CoresTidy, PopCurrent, CacheRefs, Recounted,
      NullHasNone, SlotAt, HasSlot, WriteSlot;
    var k := s.cores[c].cache;
    CoreParts(g, s, c);
    PopPlaced(Refs(s), s.slots, s.held, s.pool.live, k.current, k.currCount - 1);
    PopIs(s, c);
    var t, o := PopCurrent(s, c).value.state, SlotAt(s.slots, k.current, k.currCount - 1);
    CoreRecounted(g, s, c, k.currCount - 1, t);
    TidyPop(s, c, k.(currCount := k.currCount - 1), o);
    NoNulls(g, s);
    PartsConserve(g, s, t, Recounted(Refs(s), k.current, k.currCount, k.currCount - 1));
  }

  lemma CountBounded(g: Slabs.Geometry, s: State, b: int, n: nat)
    requires Conserved(g, s) && Ref(b, n) in Refs(s)
    ensures n <= BUNDLE_SIZE && b in s.slots && |s.slots[b]| == BUNDLE_SIZE
  {
    hide Refs;
  }

  lemma PopIs(s: State, c: nat)
    requires c < |s.cores|
    requires var k := s.cores[c].cache; k.currCount > 0 && HasSlot(s.slots, k.current, k.currCount - 1)
    ensures var k := s.cores[c].cache;
            var o := SlotAt(s.slots, k.current, k.currCount - 1);
            var t := SetCore(s, c, k.(currCount := k.currCount - 1), Idle);
            PopCurrent(s, c) == Some(Outcome(t.(held := s.held + {o}), Some(o)))
  {
  }

  lemma SameLists(s: State, t: State)
    requires t.cores == s.cores && t.empty == s.empty && t.full == s.full
    ensures Refs(t) == Refs(s)
  {
  }

  lemma TidyPop(s: State, c: nat, k: Cache, o: int)
    requires CoresTidy(s.cores, s.held) && c < |s.cores|
    requires NullHasNone(k)
    ensures CoresTidy(SetCore(s, c, k, Idle).cores, s.held + {o})
  {
    TidyStep(s, c, k, Idle);
    var cores := SetCore(s, c, k, Idle).cores;
    forall d | 0 <= d < |cores|
      ensures Tidy(cores[d], s.held + {o})
    {
      assert Tidy(cores[d], s.held);
    }
  }

  lemma RecountedCore(refs: multiset<Ref>, refs': multiset<Ref>, k: Cache, k': Cache)
    requires k.current != 0 && k' == k.(currCount := k'.currCount)
    requires refs' + CacheRefs(k) == refs + CacheRefs(k') && Ref(k.current, k.currCount) in refs
    ensures refs' == Recounted(refs, k.current, k.currCount, k'.currCount)
  {
    var x := One(k.standby, k.stbyCount);
    forall r
      ensures refs'[r] == Recounted(refs, k.current, k.currCount, k'.currCount)[r]
    {
      assert (refs' + CacheRefs(k))[r] == (refs + CacheRefs(k'))[r];
    }
  }

  /** A step that hands an object to the caller hands out one that nobody held. */
  predicate HandsOut(s: State, r: Outcome)
  {
    r.obj.Some? && r.obj.value !in s.held && r.state.held == s.held + {r.obj.value}
  }

  lemma PushSafe(g: Slabs.Geometry, s: State, c: nat, o: int)
    requires Conserved(g, s) && c < |s.cores| && Room(s.cores[c].cache) && Freeing(s.cores[c].task, o)
    ensures var r := PushCurrent(s, c, o);
            r.Some? && Conserved(g, r.value.state) && r.value.obj.None? && r.value.state.held == s.held - {o}
  {
    hide SetCore, Conserved, Refs, BundlesPlaced, ObjectsPlaced, CoresTidy, PushCurrent, CacheRefs, Recounted,
      NullHasNone, SlotAt, HasSlot, WriteSlot;
    var k := s.cores[c].cache;
    CoreParts(g, s, c);
    FreedHeld(s, c, o);
    PushPlaced(Refs(s), s.slots, s.held, s.pool.live, k.current, k.currCount, o);
    PushIs(s, c, o);
    var t := PushCurrent(s, c, o).value.state;
    CoreRecounted(g, s, c, k.currCount + 1, t);
    TidyLess(s, c, k.(currCount := k.currCount + 1), o);
    NoNulls(g, s);
    PartsConserve(g, s, t, Recounted(Refs(s), k.current, k.currCount, k.currCount + 1));
  }

  lemma FreedHeld(s: State, c: nat, o: int)
    requires CoresTidy(s.cores, s.held) && c < |s.cores| && Freeing(s.cores[c].task, o)
    ensures o in s.held
  {
    assert Tidy(s.cores[c], s.held);
  }

  lemma PushIs(s: State, c: nat, o: int)
    requires c < |s.cores|
    requires HasSlot(s.slots, s.cores[c].cache.current, s.cores[c].cache.currCount)
    ensures var k := s.cores[c].cache;
            var t := SetCore(s, c, k.(currCount := k.currCount + 1), Idle);
            PushCurrent(s, c, o)
            == Some(Outcome(t.(slots := WriteSlot(s.slots, k.current, k.currCount, o), held := s.held - {o}), None))
  {
  }

  lemma TidyLess(s: State, c: nat, k: Cache, o: int)
    requires CoresTidy(s.cores, s.held) && c < |s.cores| && Freeing(s.cores[c].task, o)
    requires NullHasNone(k)
    ensures CoresTidy(SetCore(s, c, k, Idle).cores, s.held - {o})
  {
    var t := SetCore(s, c, k, Idle);
    forall d | 0 <= d < |t.cores|
      ensures Tidy(t.cores[d], s.held - {o})
    {
      assert Tidy(s.cores[d], s.held);
      if d != c { FreedByOne(s, c, d, o); }
    }
  }

  lemma FreedByOne(s: State, c: nat, d: nat, o: int)
    requires CoresTidy(s.cores, s.held) && c < |s.cores| && d < |s.cores| && c != d && Freeing(s.cores[c].task, o)
    ensures !Freeing(s.cores[d].task, o)
  {
    assert c < d || d < c;
  }

  // ------------------------------------------------------------------ exchanges

  /** A bundle taken from the manager is referred to by nothing else. */
  lemma EmptyGot(g: Slabs.Geometry, s: State, given: Option<NewBundle>)
    requires Conserved(g, s) && Unused(s, given)
    ensures var got := AllocEmpty(s, given);
            && got.state.cores == s.cores && got.state.pool == s.pool && got.state.held == s.held
            && BundlesPlaced(Refs(got.state) + One(got.bundle, 0), got.state.slots)
            && ObjectsPlaced(Refs(got.state) + One(got.bundle, 0), got.state.slots, s.held, s.pool.live)
            && 0 !in got.state.empty && 0 !in got.state.full
            && (got.bundle == 0 <==> s.empty == [] && given.None?)
  {
    hide CoreRefs, ListRefs, BundlesPlaced, ObjectsPlaced, One;
    var got, n := AllocEmpty(s, given), |s.empty| - 1;
    if s.empty != [] {
      assert s.empty == s.empty[..n] + [s.empty[n]];
      ListRefsPush(s.empty[..n], s.empty[n], 0);
      Reorder(CoreRefs(s.cores), ListRefs(s.empty[..n], 0), One(s.empty[n], 0), ListRefs(s.full, BUNDLE_SIZE));
      assert Refs(got.state) + One(got.bundle, 0) == Refs(s);
    } else if given.Some? {
      NewPlaced(Refs(s), s.slots, s.held, s.pool.live, given.value.addr, given.value.slots);
      OneIs(given.value.addr, 0);
    } else {
      OneIs(0, 0);
      assert Refs(got.state) + One(got.bundle, 0) == Refs(s);
    }
  }

  lemma OneIs(b: int, n: nat)
    ensures One(b, n) == if b == 0 then multiset{} else multiset{Ref(b, n)}
  {
  }

  lemma Reorder(x: multiset<Ref>, y: multiset<Ref>, o: multiset<Ref>, z: multiset<Ref>)
    ensures x + y + z + o == x + (y + o) + z
  {
  }

  /** A core that had no bundle in one place takes the one from the manager there. */
  lemma BundleTaken(g: Slabs.Geometry, s: State, c: nat, given: Option<NewBundle>, cache: Cache, task: Task)
    requires Conserved(g, s) && Unused(s, given) && c < |s.cores| && FreesNoMore(s, c, task) && NullHasNone(cache)
    requires CacheRefs(cache) == CacheRefs(s.cores[c].cache) + One(AllocEmpty(s, given).bundle, 0)
    ensures AllocEmpty(s, given).state.cores == s.cores
    ensures Conserved(g, SetCore(AllocEmpty(s, given).state, c, cache, task))
  {
    hide Conserved, CacheRefs, One, Refs, BundlesPlaced, ObjectsPlaced, CoresTidy, NullHasNone, AllocEmpty, Freeing,
      SetCore;
    var got := AllocEmpty(s, given);
    EmptyGot(g, s, given);
    var t := SetCore(got.state, c, cache, task);
    RefsSet(got.state, c, cache, task);
    var k, o := CacheRefs(s.cores[c].cache), One(got.bundle, 0);
    assert Refs(t) + k == (Refs(got.state) + o) + k;
    Cancel(Refs(t), Refs(got.state) + o, k);
    CoreParts(g, s, c);
    TidyStep(s, c, cache, task);
    SameCores(s, got.state, c, cache, task);
    PartsConserve(g, s, t, Refs(got.state) + o);
  }

  lemma SameCores(s: State, t: State, c: nat, cache: Cache, task: Task)
    requires t.cores == s.cores && c < |s.cores|
    ensures SetCore(t, c, cache, task).cores == SetCore(s, c, cache, task).cores
  {
  }

  /** The documented exchange of an empty standby bundle for a full one. */
  lemma FullExchanged(g: Slabs.Geometry, s: State, c: nat)
    requires Conserved(g, s) && c < |s.cores| && s.full != []
    requires s.cores[c].cache.currCount == 0 && s.cores[c].cache.stbyCount == 0
    ensures var t := ExchangeForFull(AsDocumented, s, c);
            && t.Some? && Conserved(g, t.value) && t.value.held == s.held && |t.value.cores| == |s.cores|
            && t.value.cores[c].cache.currCount == BUNDLE_SIZE
  {
    hide Conserved, CacheRefs, One, Refs, BundlesPlaced, ObjectsPlaced, CoresTidy, CoreRefs, ListRefs;
    var k, n := s.cores[c].cache, |s.full| - 1;
    var top := s.full[n];
    StandbyReturns(g, s, c);
    NoNulls(g, s);
    var k' := Swap(k.(standby := top, stbyCount := BUNDLE_SIZE));
    var l := ReturnEmpty(s, k.standby).value.(full := s.full[..n]);
    var t := SetCore(l, c, k', Taking);
    assert s.full == s.full[..n] + [top] && top in s.full;
    FullPopped(s, k.standby, l, top);
    RefsSet(l, c, k', Taking);
    CachesAre(k, k', top);
    Balanced(Refs(t), Refs(l), Refs(s), One(k.current, 0), One(k.standby, 0), One(top, BUNDLE_SIZE));
    CoreParts(g, s, c);
    TidyStep(s, c, k', Taking);
    SameCores(s, l, c, k', Taking);
    PartsConserve(g, s, t, Refs(s));
  }

  lemma StandbyReturns(g: Slabs.Geometry, s: State, c: nat)
    requires Conserved(g, s) && c < |s.cores|
    ensures var b := s.cores[c].cache.standby; ReturnEmpty(s, b).Some? && ReturnFull(s, b).Some?
    ensures var b := s.cores[c].cache.current; ReturnEmpty(s, b).Some?
  {
    hide Conserved;
    var k := s.cores[c].cache;
    if k.standby != 0 { NotOnLists(g, s, c, k.standby, k.stbyCount); }
    if k.current != 0 { NotOnLists(g, s, c, k.current, k.currCount); }
  }

  /** The lists after standby went on the empty list and top left the full one. */
  lemma FullPopped(s: State, standby: int, l: State, top: int)
    requires s.full != [] && top == s.full[|s.full| - 1] && ReturnEmpty(s, standby).Some?
    requires l == ReturnEmpty(s, standby).value.(full := s.full[..|s.full| - 1])
    ensures Refs(l) + One(top, BUNDLE_SIZE) == Refs(s) + One(standby, 0)
    ensures 0 !in s.empty && 0 !in s.full ==> 0 !in l.empty && 0 !in l.full
  {
    hide CoreRefs, ListRefs, One;
    var n := |s.full| - 1;
    assert s.full == s.full[..n] + [top];
    ListRefsPush(s.full[..n], top, BUNDLE_SIZE);
    ListRefsPush(s.empty, standby, 0);
    OneIs(0, 0);
  }

  lemma CachesAre(k: Cache, k': Cache, top: int)
    requires k.currCount == 0 && k.stbyCount == 0 && k' == Swap(k.(standby := top, stbyCount := BUNDLE_SIZE))
    ensures CacheRefs(k) == One(k.current, 0) + One(k.standby, 0)
    ensures CacheRefs(k') == One(k.current, 0) + One(top, BUNDLE_SIZE)
    ensures top != 0 ==> NullHasNone(k')
  {
  }

  lemma Balanced(t: multiset<Ref>, l: multiset<Ref>, s: multiset<Ref>, cur: multiset<Ref>, stby: multiset<Ref>,
                 top: multiset<Ref>)
    requires t + (cur + stby) == l + (cur + top) && l + top == s + stby
    ensures t == s
  {
    forall r
      ensures t[r] == s[r]
    {
      assert (t + (cur + stby))[r] == (l + (cur + top))[r] && (l + top)[r] == (s + stby)[r];
    }
  }

  /** The documented exchange of a full standby bundle for an empty one. */
  lemma EmptyExchanged(g: Slabs.Geometry, s: State, c: nat, given: Option<NewBundle>)
    requires Conserved(g, s) && c < |s.cores| && Unused(s, given)
    requires !Room(s.cores[c].cache) && !Room(Swap(s.cores[c].cache))
    ensures var t := ExchangeForEmpty(AsDocumented, s, c, given);
            && t.Some? && Conserved(g, t.value) && t.value.held == s.held && |t.value.cores| == |s.cores|
            && t.value.cores[c].task == s.cores[c].task
  {
    hide Conserved, CacheRefs, One, NullHasNone, AllocEmpty, StandbyMoved, SetCore, ExchangeForEmpty, Swap;
    var task := s.cores[c].task;
    StandbyReturns(g, s, c);
    var m := StandbyMoved(s, c);
    StandbyFilled(g, s, c);
    NoNulls(g, s);
    EmptyExchangeIs(s, c, given);
    if s.empty != [] || given.Some? {
      var got := AllocEmpty(m, given);
      EmptyGot(g, m, given);
      var k' := m.cores[c].cache.(standby := got.bundle);
      NullStandby(m.cores[c].cache, got.bundle);
      BundleTaken(g, m, c, given, k', task);
      Swapped(g, SetCore(got.state, c, k', task), c, task);
    }
  }

  /** The exchange in steps: the standby moves to the full list, the manager's bundle
      becomes the standby, and the two bundles are swapped. */
  lemma EmptyExchangeIs(s: State, c: nat, given: Option<NewBundle>)
    requires c < |s.cores| && ReturnFull(s, s.cores[c].cache.standby).Some? && Unused(s, given) && 0 !in s.empty
    ensures ExchangeForEmpty(AsDocumented, s, c, given).Some?
    ensures s.empty == [] && given.None? ==> ExchangeForEmpty(AsDocumented, s, c, given).value == s
    ensures var m, task := StandbyMoved(s, c), s.cores[c].task;
            && c < |m.cores| && m.cores[c].task == task
            && m.cores[c].cache.standby == 0 && m.cores[c].cache.stbyCount == 0
            && m.held == s.held && Unused(m, given)
            && var got := AllocEmpty(m, given);
            && |got.state.cores| == |s.cores| && got.state.held == s.held
            && var k' := m.cores[c].cache.(standby := got.bundle);
            && (s.empty != [] || given.Some? ==>
                  var u := SetCore(got.state, c, k', task);
                  && |u.cores| == |s.cores| && u.cores[c] == Core(k', task)
                  && SetCore(u, c, Swap(k'), task) == ExchangeForEmpty(AsDocumented, s, c, given).value
                  && |SetCore(u, c, Swap(k'), task).cores| == |s.cores|
                  && SetCore(u, c, Swap(k'), task).cores[c] == Core(Swap(k'), task))
  {
    var m, task := StandbyMoved(s, c), s.cores[c].task;
    var got := AllocEmpty(m, given);
    var k' := m.cores[c].cache.(standby := got.bundle);
    if s.empty != [] || given.Some? {
      var f := AllocEmpty(ReturnFull(s, s.cores[c].cache.standby).value, given);
      assert f.bundle == got.bundle != 0;
      assert SetCore(SetCore(got.state, c, k', task), c, Swap(k'), task).cores
          == SetCore(f.state, c, Swap(k'), task).cores;
    }
  }

  lemma NullStandby(k: Cache, b: int)
    requires k.standby == 0 && k.stbyCount == 0 && NullHasNone(k)
    ensures CacheRefs(k.(standby := b)) == CacheRefs(k) + One(b, 0) && NullHasNone(k.(standby := b))
  {
  }

  /** The standby bundle moved to the full list. */
  function StandbyMoved(s: State, c: nat): State
    requires c < |s.cores| && ReturnFull(s, s.cores[c].cache.standby).Some?
  {
    SetCore(ReturnFull(s, s.cores[c].cache.standby).value, c, s.cores[c].cache.(standby := 0, stbyCount := 0),
            s.cores[c].task)
  }

  lemma StandbyFilled(g: Slabs.Geometry, s: State, c: nat)
    requires Conserved(g, s) && c < |s.cores| && ReturnFull(s, s.cores[c].cache.standby).Some?
    requires !Room(Swap(s.cores[c].cache))
    ensures Conserved(g, StandbyMoved(s, c)) && NullHasNone(StandbyMoved(s, c).cores[c].cache)
  {
    hide Conserved, Refs, BundlesPlaced, ObjectsPlaced, CoresTidy, Freeing, CoreRefs, ListRefs, One;
    var k, task := s.cores[c].cache, s.cores[c].task;
    var l, k', t := ReturnFull(s, k.standby).value, k.(standby := 0, stbyCount := 0), StandbyMoved(s, c);
    CoreParts(g, s, c);
    StandbyFull(g, s, c);
    NoNulls(g, s);
    RefsSet(l, c, k', task);
    FullPushed(s, k.standby, l);
    OneIs(0, 0);
    var o := One(k.standby, k.stbyCount);
    assert CacheRefs(k) == CacheRefs(k') + o;
    assert Refs(t) + CacheRefs(k) == (Refs(s) + o) + CacheRefs(k');
    assert (Refs(s) + o) + CacheRefs(k') == Refs(s) + CacheRefs(k);
    Cancel(Refs(t), Refs(s), CacheRefs(k));
    TidyStep(s, c, k', task);
    SameCores(s, l, c, k', task);
    PartsConserve(g, s, t, Refs(s));
  }

  /** A standby bundle with no room is full. */
  lemma StandbyFull(g: Slabs.Geometry, s: State, c: nat)
    requires Conserved(g, s) && c < |s.cores| && !Room(Swap(s.cores[c].cache))
    ensures var k := s.cores[c].cache; if k.standby == 0 then k.stbyCount == 0 else k.stbyCount == BUNDLE_SIZE
  {
    TidyAt(s, c);
    CacheReferred(s, c);
  }

  lemma FullPushed(s: State, standby: int, l: State)
    requires ReturnFull(s, standby).Some? && l == ReturnFull(s, standby).value
    ensures Refs(l) == Refs(s) + One(standby, if standby == 0 then 0 else BUNDLE_SIZE)
    ensures 0 !in s.empty && 0 !in s.full ==> 0 !in l.empty && 0 !in l.full
  {
    hide CoreRefs, ListRefs, One;
    ListRefsPush(s.full, standby, BUNDLE_SIZE);
    OneIs(0, 0);
  }

  // ----------------------------------------------------------------------- steps

  /** What a step does for its caller: an allocation hands out at most an object that
      nobody held, and a free takes at most the object being freed. */
  ghost predicate Serves(s: State, c: nat, r: Outcome)
    requires c < |s.cores|
  {
    || (r.obj.None? && r.state.held == s.held)
    || HandsOut(s, r)
    || (r.obj.None? && exists o :: Freeing(s.cores[c].task, o) && r.state.held == s.held - {o})
  }

  lemma TakeStepSafe(g: Slabs.Geometry, s: State, c: nat)
    requires Conserved(g, s) && c < |s.cores|
    ensures var r := TakeStep(AsDocumented, s, c);
            r.Some? && Conserved(g, r.value.state) && Serves(s, c, r.value)
  {
    hide Conserved, PopCurrent, ExchangeForFull, CacheRefs;
    var k := s.cores[c].cache;
    if k.currCount > 0 {
      PopSafe(g, s, c);
    } else if k.stbyCount > 0 {
      Swapped(g, s, c, Taking);
      PopSafe(g, SetCore(s, c, Swap(k), Taking), c);
    } else if s.full != [] {
      FullExchanged(g, s, c);
      PopSafe(g, ExchangeForFull(AsDocumented, s, c).value, c);
    } else {
      CoreParts(g, s, c);
      SameRefs(g, s, c, k, TakingFromSlab);
    }
  }

  lemma PutStepSafe(g: Slabs.Geometry, s: State, c: nat, o: int, given: Option<NewBundle>)
    requires Conserved(g, s) && c < |s.cores| && Unused(s, given) && s.cores[c].task == Putting(o)
    ensures var r := PutStep(AsDocumented, s, c, o, given);
            r.Some? && Conserved(g, r.value.state) && Serves(s, c, r.value)
  {
    hide Conserved, PushCurrent, ExchangeForEmpty, CacheRefs, Room;
    var k := s.cores[c].cache;
    assert Freeing(s.cores[c].task, o);
    if Room(k) {
      PushSafe(g, s, c, o);
    } else if Room(Swap(k)) {
      Swapped(g, s, c, s.cores[c].task);
      PushSafe(g, SetCore(s, c, Swap(k), s.cores[c].task), c, o);
    } else {
      EmptyExchanged(g, s, c, given);
      var t := ExchangeForEmpty(AsDocumented, s, c, given).value;
      if Room(t.cores[c].cache) {
        PushSafe(g, t, c, o);
      } else {
        CoreParts(g, t, c);
        SameRefs(g, t, c, t.cores[c].cache, PuttingOnSlab(o));
      }
    }
  }

  /** Taking an object from a slab directly. */
  lemma SlabTaken(g: Slabs.Geometry, s: State, c: nat, slab: Option<int>)
    requires Conserved(g, s) && Enabled(g, s, TakeFromSlab(c, slab))
    ensures var r := Step(AsDocumented, g, s, TakeFromSlab(c, slab));
            r.Some? && Conserved(g, r.value.state) && Serves(s, c, r.value)
  {
    hide Refs, BundlesPlaced, ObjectsPlaced, CoresTidy, CacheRefs, Slabs.SomeFree, Slabs.LiveApart, Slabs.Ready,
      Slabs.Take, Slabs.NodeOf, Slabs.IsObject, Slabs.Sorted, Slabs.Divided;
    Slabs.TakeSafe(g, s.pool, slab);
    CoreParts(g, s, c);
    var k := s.cores[c].cache;
    SameRefs(g, s, c, k, Idle);
    var u, t := SetCore(s, c, k, Idle), Step(AsDocumented, g, s, TakeFromSlab(c, slab)).value.state;
    SameLists(u, t);
    var r := Slabs.Take(Slabs.Ready(g, s.pool, slab));
    if r.obj.Some? {
      LiveMore(Refs(u), s.slots, s.held, s.pool.live, r.obj.value);
      HeldMore(u.cores, s.held, r.obj.value);
    }
  }

  lemma HeldMore(cores: seq<Core>, held: set<int>, o: int)
    requires CoresTidy(cores, held)
    ensures CoresTidy(cores, held + {o})
  {
    forall d | 0 <= d < |cores|
      ensures Tidy(cores[d], held + {o})
    {
      assert Tidy(cores[d], held);
    }
  }

  lemma LiveMore(refs: multiset<Ref>, slots: map<int, seq<int>>, held: set<int>, live: set<int>, o: int)
    requires ObjectsPlaced(refs, slots, held, live) && o !in live
    ensures ObjectsPlaced(refs, slots, held + {o}, live + {o})
  {
    hide InSlot, Cached;
  }

  lemma LiveLess(refs: multiset<Ref>, slots: map<int, seq<int>>, held: set<int>, live: set<int>, o: int)
    requires ObjectsPlaced(refs, slots, held, live) && o in held
    ensures ObjectsPlaced(refs, slots, held - {o}, live - {o})
  {
    hide InSlot, Cached;
  }

  /** Putting an object back on its slab directly never panics. */
  lemma SlabPut(g: Slabs.Geometry, s: State, c: nat)
    requires Conserved(g, s) && Enabled(g, s, PutOnSlab(c))
    ensures var r := Step(AsDocumented, g, s, PutOnSlab(c));
            r.Some? && Conserved(g, r.value.state) && Serves(s, c, r.value)
  {
    var k, o := s.cores[c].cache, s.cores[c].task.obj;
    assert Freeing(s.cores[c].task, o);
    CoreParts(g, s, c);
    FreedHeld(s, c, o);
    HeldOfSlab(g, s, o);
    Slabs.GiveSafe(g, s.pool, o);
    SameRefs(g, s, c, k, Idle);
    var u, t := SetCore(s, c, k, Idle), Step(AsDocumented, g, s, PutOnSlab(c)).value.state;
    hide Refs, BundlesPlaced, CoresTidy;
    SameLists(u, t);
    LiveLess(Refs(u), s.slots, s.held, s.pool.live, o);
    TidyLess(s, c, k, o);
  }

  /** Every object held is an object of a slab. */
  lemma HeldOfSlab(g: Slabs.Geometry, s: State, o: int)
    requires Conserved(g, s) && o in s.held
    ensures o in s.pool.live && Slabs.NodeOf(g, o) in s.pool.free && Slabs.IsObject(g, Slabs.NodeOf(g, o), o)
  {
    hide Refs, BundlesPlaced, CoresTidy, InSlot, Cached;
  }

  lemma FillCurrentSafe(g: Slabs.Geometry, s: State, c: nat, given: Option<NewBundle>)
    requires Conserved(g, s) && c < |s.cores| && Unused(s, given) && s.cores[c].task.FillingCurrent?
    ensures Conserved(g, FillCurrentStep(s, c, given)) && FillCurrentStep(s, c, given).held == s.held
  {
    hide Conserved, CacheRefs, AllocEmpty, SetCore, One;
    var k, got := s.cores[c].cache, AllocEmpty(s, given);
    CoreParts(g, s, c);
    EmptyGot(g, s, given);
    if k.current != 0 { SameRefs(g, s, c, k, FillingStandby); } else {
      CurrentFilled(k, got.bundle);
      BundleTaken(g, s, c, given, k.(current := got.bundle), FillingStandby);
    }
  }

  lemma FillStandbySafe(g: Slabs.Geometry, s: State, c: nat, given: Option<NewBundle>)
    requires Conserved(g, s) && c < |s.cores| && Unused(s, given) && s.cores[c].task.FillingStandby?
    ensures Conserved(g, FillStandbyStep(s, c, given)) && FillStandbyStep(s, c, given).held == s.held
  {
    hide Conserved, CacheRefs, AllocEmpty, SetCore, One;
    var k, got := s.cores[c].cache, AllocEmpty(s, given);
    CoreParts(g, s, c);
    EmptyGot(g, s, given);
    if k.standby != 0 { SameRefs(g, s, c, k, Taking); } else {
      NullStandby(k, got.bundle);
      BundleTaken(g, s, c, given, k.(standby := got.bundle), Taking);
    }
  }

  lemma ConservedPool(g: Slabs.Geometry, s: State)
    requires Conserved(g, s)
    ensures Slabs.Safe(g, s.pool)
  {
  }

  lemma CurrentFilled(k: Cache, b: int)
    requires k.current == 0 && NullHasNone(k)
    ensures CacheRefs(k.(current := b)) == CacheRefs(k) + One(b, 0) && NullHasNone(k.(current := b))
  {
  }

  lemma StartFreeSafe(g: Slabs.Geometry, s: State, c: nat, o: int)
    requires Conserved(g, s) && Enabled(g, s, StartFree(c, o))
    ensures Conserved(g, SetCore(s, c, s.cores[c].cache, Putting(o)))
  {
    hide CacheRefs, BundlesPlaced, ObjectsPlaced;
    var k := s.cores[c].cache;
    assert Tidy(s.cores[c], s.held);
    CoreRefsSet(s.cores, c, Core(k, Putting(o)));
    Cancel(CoreRefs(s.cores[c := Core(k, Putting(o))]), CoreRefs(s.cores), CacheRefs(k));
    TidySet(s.cores, s.held, c, Core(k, Putting(o)));
  }

  /** Every step of every core, with the exchanges as documented, conserves bundles and
      objects, serves its caller and does not panic. */
  lemma StepConserves(g: Slabs.Geometry, s: State, a: Action)
    requires Conserved(g, s) && Enabled(g, s, a)
    ensures Slabs.Safe(g, s.pool)
    ensures var r := Step(AsDocumented, g, s, a);
            r.Some? && Conserved(g, r.value.state) && Serves(s, a.core, r.value)
  {
    hide Conserved, CacheRefs, TakeStep, PutStep, ExchangeForFull, ExchangeForEmpty, Slabs.Safe;
    ConservedPool(g, s);
    CoreParts(g, s, a.core);
    match a
    case StartAlloc(c) => SameRefs(g, s, c, s.cores[c].cache, FillingCurrent);
    case FillCurrent(c, given) => FillCurrentSafe(g, s, c, given);
    case FillStandby(c, given) => FillStandbySafe(g, s, c, given);
    case Take(c) => TakeStepSafe(g, s, c);
    case TakeFromSlab(c, slab) => SlabTaken(g, s, c, slab);
    case StartFree(c, o) => StartFreeSafe(g, s, c, o);
    case Put(c, given) => PutStepSafe(g, s, c, s.cores[c].task.obj, given);
    case PutOnSlab(c) => SlabPut(g, s, c);
  }

  // ------------------------------------------------------- when the slabs are asked

  /** The core's two bundles have no object, and no bundle is full. */
  predicate NoneCached(s: State, c: nat)
    requires c < |s.cores|
  {
    s.cores[c].cache.currCount == 0 && s.cores[c].cache.stbyCount == 0 && s.full == []
  }

  /** Neither of the core's two bundles can take an object, and there is no empty bundle. */
  predicate NoPlace(s: State, c: nat, given: Option<NewBundle>)
    requires c < |s.cores|
  {
    var k := s.cores[c].cache;
    && (k.current == 0 || k.currCount >= BUNDLE_SIZE) && (k.standby == 0 || k.stbyCount >= BUNDLE_SIZE)
    && s.empty == [] && given.None?
  }

  /** A core goes to the slabs for an object exactly when none is cached for it, and takes
      from the lists only when its own bundles have none. */
  lemma TakeAsksSlabIff(v: Variant, s: State, c: nat)
    requires c < |s.cores| && TakeStep(v, s, c).Some?
    ensures var r := TakeStep(v, s, c).value;
            && |r.state.cores| == |s.cores|
            && (r.obj.None? <==> NoneCached(s, c))
            && (r.obj.None? ==> r.state == SetCore(s, c, s.cores[c].cache, TakingFromSlab))
            && (r.obj.Some? ==>
                  && r.state.cores[c].task == Idle && r.state.held == s.held + {r.obj.value}
                  && r.state.pool == s.pool && r.state.slots == s.slots)
            && (s.cores[c].cache.currCount > 0 || s.cores[c].cache.stbyCount > 0 ==>
                  r.state.empty == s.empty && r.state.full == s.full)
  {
  }

  /** Where there is a place, a free ends by pushing the object on the current bundle. */
  lemma PutPushes(v: Variant, s: State, c: nat, o: int, given: Option<NewBundle>) returns (u: State)
    requires c < |s.cores| && Unused(s, given) && 0 !in s.empty && PutStep(v, s, c, o, given).Some?
    requires !NoPlace(s, c, given)
    ensures c < |u.cores| == |s.cores| && u.pool == s.pool && u.held == s.held
    ensures PutStep(v, s, c, o, given) == PushCurrent(u, c, o)
  {
    hide PushCurrent;
    var k := s.cores[c].cache;
    if Room(k) {
      u := s;
    } else if Room(Swap(k)) {
      u := SetCore(s, c, Swap(k), s.cores[c].task);
    } else {
      if s.empty != [] { assert s.empty[|s.empty| - 1] in s.empty; }
      u := ExchangeForEmpty(v, s, c, given).value;
    }
  }

  /** Where there is none, the object goes to its slab. */
  lemma PutLeaves(v: Variant, s: State, c: nat, o: int, given: Option<NewBundle>)
    requires c < |s.cores| && NoPlace(s, c, given) && PutStep(v, s, c, o, given).Some?
    ensures var r := PutStep(v, s, c, o, given).value;
            && |r.state.cores| == |s.cores| && r.state.pool == s.pool && r.obj.None?
            && r.state.cores[c].task == PuttingOnSlab(o)
  {
  }

  lemma PushEnds(u: State, c: nat, o: int)
    requires c < |u.cores| && PushCurrent(u, c, o).Some?
    ensures var r := PushCurrent(u, c, o).value;
            && |r.state.cores| == |u.cores| && r.state.pool == u.pool && r.obj.None?
            && r.state.cores[c].task == Idle && r.state.held == u.held - {o}
  {
  }

  lemma PushThenTake(v: Variant, u: State, c: nat, o: int)
    requires c < |u.cores| && PushCurrent(u, c, o).Some?
    ensures var t := PushCurrent(u, c, o).value.state;
            && |t.cores| == |u.cores| && TakeStep(v, t, c).Some?
            && var r := TakeStep(v, t, c).value;
            r.obj == Some(o) && r.state.held == t.held + {o} && r.state.empty == t.empty && r.state.full == t.full
  {
  }

  /** A core puts an object back on its slab exactly when there is no place for it. */
  lemma PutAsksSlabIff(v: Variant, s: State, c: nat, o: int, given: Option<NewBundle>)
    requires c < |s.cores| && Unused(s, given) && 0 !in s.empty && PutStep(v, s, c, o, given).Some?
    ensures var r := PutStep(v, s, c, o, given).value;
            && |r.state.cores| == |s.cores| && r.state.pool == s.pool && r.obj.None?
            && (r.state.cores[c].task == PuttingOnSlab(o) <==> NoPlace(s, c, given))
            && (!NoPlace(s, c, given) ==> r.state.cores[c].task == Idle && r.state.held == s.held - {o})
  {
    hide PutStep, PushCurrent, NoPlace, Unused;
    if NoPlace(s, c, given) {
      PutLeaves(v, s, c, o, given);
    } else {
      var u := PutPushes(v, s, c, o, given);
      PushEnds(u, c, o);
    }
  }

  /** What a core has put in its bundles last, it takes first. */
  lemma FreedLastTakenFirst(v: Variant, s: State, c: nat, o: int, given: Option<NewBundle>)
    requires c < |s.cores| && Unused(s, given) && 0 !in s.empty && PutStep(v, s, c, o, given).Some?
    requires !NoPlace(s, c, given)
    ensures var t := PutStep(v, s, c, o, given).value.state;
            && |t.cores| == |s.cores| && TakeStep(v, t, c).Some?
            && var r := TakeStep(v, t, c).value;
            r.obj == Some(o) && r.state.held == t.held + {o} && r.state.empty == t.empty && r.state.full == t.full
  {
    hide PutStep, PushCurrent, TakeStep, NoPlace, Unused;
    var u := PutPushes(v, s, c, o, given);
    PushThenTake(v, u, c, o);
  }

  /** A bundle is taken from the slabs of bundles only when no empty one is listed, and the
      core is left without one only when none is given either. */
  lemma NewBundleIff(s: State, given: Option<NewBundle>)
    requires Unused(s, given) && 0 !in s.empty
    ensures var got := AllocEmpty(s, given);
            && (got.state.slots.Keys != s.slots.Keys <==> s.empty == [] && given.Some?)
            && (got.bundle == 0 <==> s.empty == [] && given.None?)
            && (got.bundle != 0 ==> got.bundle in s.empty || got.bundle !in s.slots)
  {
    if s.empty != [] {
      assert s.empty[|s.empty| - 1] in s.empty;
    } else if given.Some? {
      assert given.value.addr in AllocEmpty(s, given).state.slots.Keys;
    }
  }

  /** A core that looks for its bundles keeps those it has, and lacks one afterwards only
      when no empty one was listed and none was given. */
  lemma BundlesFilled(s: State, c: nat, given: Option<NewBundle>)
    requires c < |s.cores| && Unused(s, given) && 0 !in s.empty
    ensures var k, t := s.cores[c].cache, FillCurrentStep(s, c, given);
            && |t.cores| == |s.cores| && t.cores[c].cache.standby == k.standby
            && (t.cores[c].cache.current == 0 <==> k.current == 0 && s.empty == [] && given.None?)
            && (k.current != 0 ==> t.cores[c].cache == k && t.slots == s.slots)
    ensures var k, t := s.cores[c].cache, FillStandbyStep(s, c, given);
            && |t.cores| == |s.cores| && t.cores[c].cache.current == k.current
            && (t.cores[c].cache.standby == 0 <==> k.standby == 0 && s.empty == [] && given.None?)
            && (k.standby != 0 ==> t.cores[c].cache == k && t.slots == s.slots)
  {
    hide AllocEmpty;
    NewBundleIff(s, given);
  }

  // ------------------------------------------------------- the code as written

  /** The two branches where the written code departs from its documentation: taking a
      full bundle while the core has bundles of its own, and finding no empty bundle for
      a full standby. */
  predicate Departs(s: State, a: Action)
    requires a.core < |s.cores|
  {
    var k := s.cores[a.core].cache;
    || (a.Take? && k.currCount == 0 && k.stbyCount == 0 && s.full != [] && (k.current != 0 || k.standby != 0))
    || (a.Put? && !Room(k) && !Room(Swap(k)) && k.standby != 0 && s.empty == [] && a.given.None?)
  }

  /** Outside those branches the written code and the documentation agree. */
  lemma SameUnlessDeparts(g: Slabs.Geometry, s: State, a: Action)
    requires Conserved(g, s) && Enabled(g, s, a) && Slabs.Safe(g, s.pool) && !Departs(s, a)
    ensures Step(AsWritten, g, s, a) == Step(AsDocumented, g, s, a)
  {
    hide Conserved, Slabs.Safe, PopCurrent, PushCurrent;
    var k := s.cores[a.core].cache;
    if a.Put? && !Room(k) && !Room(Swap(k)) && s.empty == [] && a.given.None? {
      assert ExchangeForEmpty(AsWritten, s, a.core, a.given) == Some(s);
    }
  }

  /** Giving back the current bundle but forgetting the standby leaves the core's new
      standby on the empty list too, or loses the old standby. */
  lemma FullExchangeDeparts(g: Slabs.Geometry, s: State, c: nat)
    requires Conserved(g, s) && c < |s.cores| && Departs(s, Take(c))
    ensures var r := TakeStep(AsWritten, s, c);
            && r.Some? && !BundlesPlaced(Refs(r.value.state), r.value.state.slots)
            && c < |r.value.state.cores|
            && (s.cores[c].cache.current != 0 ==>
                  && r.value.state.cores[c].cache.standby == s.cores[c].cache.current
                  && AllocEmpty(r.value.state, None).bundle == s.cores[c].cache.current)
  {
    hide Conserved, Refs, BundlesPlaced, CacheRefs;
    var k, n := s.cores[c].cache, |s.full| - 1;
    var top := s.full[n];
    StandbyReturns(g, s, c);
    NoNulls(g, s);
    assert top in s.full;
    TopSlots(g, s);
    var l := ReturnEmpty(s, k.current).value.(full := s.full[..n]);
    var k' := Cache(top, BUNDLE_SIZE - 1, k.current, 0);
    var t := TakeStep(AsWritten, s, c).value.state;
    assert t.cores == s.cores[c := Core(k', Idle)];
    if k.current != 0 {
      assert l.empty[|l.empty| - 1] == k.current;
      TwiceReferred(t, c, k.current);
    } else {
      FullPopped(s, 0, l, top);
      CoreParts(g, s, c);
      StandbyNotTop(g, s, c, top);
      RefsSet(l, c, k', Idle);
      SameLists(SetCore(l, c, k', Idle), t);
      StandbyLost(Refs(t), Refs(l), Refs(s), k, k', top, s.slots);
    }
  }

  lemma TopSlots(g: Slabs.Geometry, s: State)
    requires Conserved(g, s) && s.full != []
    ensures var top := s.full[|s.full| - 1]; top != 0 && HasSlot(s.slots, top, BUNDLE_SIZE - 1)
  {
    var top := s.full[|s.full| - 1];
    assert top in s.full;
    ListRefsMember(s.full, BUNDLE_SIZE, top);
    assert Ref(top, BUNDLE_SIZE) in Refs(s);
  }

  lemma StandbyNotTop(g: Slabs.Geometry, s: State, c: nat, top: int)
    requires Conserved(g, s) && c < |s.cores| && top in s.full && s.cores[c].cache.standby != 0
    ensures s.cores[c].cache.standby != top
    ensures BundlesPlaced(Refs(s), s.slots) && Ref(s.cores[c].cache.standby, s.cores[c].cache.stbyCount) in Refs(s)
  {
    CacheReferred(s, c);
    NotOnLists(g, s, c, s.cores[c].cache.standby, s.cores[c].cache.stbyCount);
  }

  /** A bundle that is a core's standby and on the empty list is in two places. */
  lemma TwiceReferred(s: State, c: nat, b: int)
    requires c < |s.cores| && b != 0 && s.cores[c].cache.standby == b && s.cores[c].cache.stbyCount == 0 && b in s.empty
    ensures !BundlesPlaced(Refs(s), s.slots)
  {
    CoreRefsSet(s.cores, c, s.cores[c]);
    ListRefsMember(s.empty, 0, b);
    assert Ref(b, 0) in CacheRefs(s.cores[c].cache) && Ref(b, 0) in CoreRefs(s.cores);
    assert Refs(s)[Ref(b, 0)] >= 2;
  }

  lemma StandbyLost(t: multiset<Ref>, l: multiset<Ref>, s: multiset<Ref>, k: Cache, k': Cache, top: int,
                    slots: map<int, seq<int>>)
    requires BundlesPlaced(s, slots) && k.standby != 0 && k.standby != top && Ref(k.standby, k.stbyCount) in s
    requires k.current == 0 && k'.standby == 0 && k'.current == top != 0
    requires t + CacheRefs(k) == l + CacheRefs(k') && l + One(top, BUNDLE_SIZE) == s
    ensures !BundlesPlaced(t, slots)
  {
    var b := k.standby;
    forall r: Ref | r.bundle == b
      ensures r !in t
    {
      assert (t + CacheRefs(k))[r] == (l + CacheRefs(k'))[r] && (l + One(top, BUNDLE_SIZE))[r] == s[r];
      assert r in s ==> r == Ref(b, k.stbyCount);
    }
    assert !Referred(t, b);
  }

  /** Finding no empty bundle after moving the standby leaves it in two places. */
  lemma EmptyExchangeDeparts(g: Slabs.Geometry, s: State, c: nat, o: int)
    requires Conserved(g, s) && c < |s.cores| && Departs(s, Put(c, None)) && s.cores[c].task == Putting(o)
    ensures var r := PutStep(AsWritten, s, c, o, None);
            r.Some? && !BundlesPlaced(Refs(r.value.state), r.value.state.slots)
  {
    hide Conserved, BundlesPlaced, PushCurrent;
    var k := s.cores[c].cache;
    StandbyReturns(g, s, c);
    StandbyFull(g, s, c);
    var t := PutStep(AsWritten, s, c, o, None).value.state;
    assert t.full == s.full + [k.standby] && t.cores == s.cores[c := Core(k, PuttingOnSlab(o))];
    FullAndStandby(t, c, k.standby);
  }

  lemma FullAndStandby(s: State, c: nat, b: int)
    requires c < |s.cores| && b != 0 && s.cores[c].cache.standby == b && s.cores[c].cache.stbyCount == BUNDLE_SIZE
    requires b in s.full
    ensures !BundlesPlaced(Refs(s), s.slots)
  {
    CoreRefsSet(s.cores, c, s.cores[c]);
    ListRefsMember(s.full, BUNDLE_SIZE, b);
    assert Ref(b, BUNDLE_SIZE) in CacheRefs(s.cores[c].cache) && Ref(b, BUNDLE_SIZE) in CoreRefs(s.cores);
    assert Refs(s)[Ref(b, BUNDLE_SIZE)] >= 2;
  }

  /** A step of the written code conserves bundles and objects exactly when it takes
      neither of the two branches. */
  lemma WrittenStepConservesIff(g: Slabs.Geometry, s: State, a: Action)
    requires Conserved(g, s) && Enabled(g, s, a)
    ensures Slabs.Safe(g, s.pool)
    ensures var r := Step(AsWritten, g, s, a);
            && r.Some? && (Conserved(g, r.value.state) <==> !Departs(s, a))
            && (!Departs(s, a) ==> Serves(s, a.core, r.value))
  {
    hide Refs, BundlesPlaced, ObjectsPlaced, CoresTidy, TakeStep, PutStep;
    if !Departs(s, a) {
      StepConserves(g, s, a);
      SameUnlessDeparts(g, s, a);
    } else if a.Take? {
      FullExchangeDeparts(g, s, a.core);
    } else {
      EmptyExchangeDeparts(g, s, a.core, s.cores[a.core].task.obj);
    }
  }

  /** What a shared bundle leads to: two cores free different objects into it and then
      both allocate the one freed last. */
  lemma SharedBundleHandsOutTwice(s: State, c: nat, d: nat, o: int, p: int)
    requires c < |s.cores| && d < |s.cores| && c != d && o != p
    requires s.cores[c].cache.current == s.cores[d].cache.current && HasSlot(s.slots, s.cores[c].cache.current, 0)
    requires s.cores[c].cache.currCount == 0 && s.cores[d].cache.currCount == 0
    ensures PushCurrent(s, c, o).Some?
    ensures var s1 := PushCurrent(s, c, o).value.state;
            && |s1.cores| == |s.cores| && PushCurrent(s1, d, p).Some?
            && var s2 := PushCurrent(s1, d, p).value.state;
            && |s2.cores| == |s.cores| && PopCurrent(s2, c).Some?
            && var r := PopCurrent(s2, c).value;
            && |r.state.cores| == |s.cores|
            && PopCurrent(r.state, d).Some? && r.obj == PopCurrent(r.state, d).value.obj == Some(p)
  {
  }

  // ------------------------------------------------------------------------ runs

  /** A run of steps of any cores leads from s to t; for the written code, without
      taking either of the two branches. */
  ghost predicate Reaches(v: Variant, g: Slabs.Geometry, s: State, run: seq<Action>, t: State)
    decreases |run|
  {
    if run == [] then s == t
    else
      && Slabs.Safe(g, s.pool) && Enabled(g, s, run[0]) && (v.AsWritten? ==> !Departs(s, run[0]))
      && var r := Step(v, g, s, run[0]);
      && r.Some? && Reaches(v, g, r.value.state, run[1..], t)
  }

  /** At the start no core has a bundle, and no object is out. */
  ghost predicate Started(g: Slabs.Geometry, s: State)
  {
    && Slabs.Proper(g) && s.pool == Slabs.START && s.held == {} && s.slots == map[] && s.empty == [] && s.full == []
    && forall c | 0 <= c < |s.cores| :: s.cores[c] == Core(NO_CACHE, Idle)
  }

  lemma {:induction false} StartedRefs(cores: seq<Core>)
    requires forall c | 0 <= c < |cores| :: cores[c] == Core(NO_CACHE, Idle)
    ensures CoreRefs(cores) == multiset{}
    decreases |cores|
  {
    if cores != [] { StartedRefs(cores[..|cores| - 1]); }
  }

  lemma StartConserved(g: Slabs.Geometry, s: State)
    requires Started(g, s)
    ensures Conserved(g, s)
  {
    StartedRefs(s.cores);
    assert Refs(s) == multiset{};
  }

  lemma HeldApart(g: Slabs.Geometry, s: State)
    requires Conserved(g, s)
    ensures Slabs.LiveApart(g, s.held)
  {
    hide Refs, BundlesPlaced, CoresTidy, InSlot, Cached, Slabs.NodeOf, Slabs.Base, Slabs.ObjectsApart;
    Slabs.SafeApart(g, s.pool);
  }

  /** Over every interleaving of the cores: every bundle stays in one place, every object
      the slabs gave out is held by one caller or sits in one slot of one bundle, the memory
      of different objects that are held does not overlap, and no step panics. */
  lemma {:induction false} EveryRunConserves(v: Variant, g: Slabs.Geometry, s: State, run: seq<Action>, t: State)
    requires Conserved(g, s) && Reaches(v, g, s, run, t)
    ensures Conserved(g, t) && Slabs.LiveApart(g, t.held)
    ensures forall a | Enabled(g, t, a) && (v.AsWritten? ==> !Departs(t, a)) ::
              && Step(v, g, t, a).Some? && Serves(t, a.core, Step(v, g, t, a).value)
    decreases |run|
  {
    if run == [] {
      HeldApart(g, t);
      forall a | Enabled(g, t, a) && (v.AsWritten? ==> !Departs(t, a))
        ensures Step(v, g, t, a).Some? && Serves(t, a.core, Step(v, g, t, a).value)
      {
        StepConserves(g, t, a);
        WrittenStepConservesIff(g, t, a);
      }
    } else {
      StepConserves(g, s, run[0]);
      WrittenStepConservesIff(g, s, run[0]);
      EveryRunConserves(v, g, Step(v, g, s, run[0]).value.state, run[1..], t);
    }
  }
}
