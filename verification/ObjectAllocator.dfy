/** Whole allocations and frees of kernel objects: the core's bundles first, and the slab
    manager where they cannot serve. */
module ObjectAllocator {
  import opened Rings
  import opened CoreCaches
  import opened CoreCacheRuns
  import opened CoreCacheDepartures
  import opened CoreCacheAllocator
  import Slabs = SlabPool
  import SlabManager

  // ------------------------------------------------------------------- specification

  lemma TakeLeaves(s: State, c: nat)
    requires c < |s.cores| && TakeStep(AsWritten, s, c).Some? && TakeStep(AsWritten, s, c).value.obj.None?
    ensures var t := TakeStep(AsWritten, s, c).value.state;
            t == SetCore(s, c, s.cores[c].cache, TakingFromSlab) && t.pool == s.pool
  {
  }

  /** An allocation by one core, not interrupted by others; None if it panics. The bundles
      and the slab are those given if asked for. */
  ghost function WholeAlloc(g: Slabs.Geometry, s: State, c: nat, current: Option<NewBundle>,
                            standby: Option<NewBundle>, slab: Option<int>): Option<Outcome>
    requires c < |s.cores| && Slabs.Safe(g, s.pool) && Slabs.Fresh(g, s.pool, slab)
  {
    var t := FillStandbyStep(FillCurrentStep(s, c, current), c, standby);
    var x := TakeStep(AsWritten, t, c);
    if x.None? || x.value.obj.Some? then x
    else
      TakeLeaves(t, c);
      Step(AsWritten, g, x.value.state, TakeFromSlab(c, slab))
  }

  predicate LeftForSlab(s: State, c: nat, o: int)
  {
    c < |s.cores| && s.cores[c].task == PuttingOnSlab(o)
  }

  /** A free by one core, not interrupted by others; None if it panics. */
  ghost function WholeFree(g: Slabs.Geometry, s: State, c: nat, o: int, given: Option<NewBundle>): Option<Outcome>
    requires c < |s.cores| && Slabs.Safe(g, s.pool)
  {
    var x := PutStep(AsWritten, SetCore(s, c, s.cores[c].cache, Putting(o)), c, o, given);
    if x.None? || !LeftForSlab(x.value.state, c, o) then x
    else
      PutKeeps(SetCore(s, c, s.cores[c].cache, Putting(o)), c, o, given);
      Step(AsWritten, g, x.value.state, PutOnSlab(c))
  }

  lemma PutKeeps(s: State, c: nat, o: int, given: Option<NewBundle>)
    requires c < |s.cores| && PutStep(AsWritten, s, c, o, given).Some?
    ensures PutStep(AsWritten, s, c, o, given).value.state.pool == s.pool
    ensures |PutStep(AsWritten, s, c, o, given).value.state.cores| == |s.cores|
  {
  }

  /** A whole allocation is a run of the state machine. */
  lemma WholeAllocRuns(g: Slabs.Geometry, s: State, c: nat, current: Option<NewBundle>,
                       standby: Option<NewBundle>, slab: Option<int>)
    requires c < |s.cores| && s.cores[c].task == Idle && Slabs.Safe(g, s.pool) && Slabs.Fresh(g, s.pool, slab)
    requires Unused(s, current) && Unused(FillCurrentStep(s, c, current), standby)
    requires WholeAlloc(g, s, c, current, standby, slab).Some?
    ensures CanRun(g, s, WholeAlloc(g, s, c, current, standby, slab).value.state)
  {
    hide Slabs.Safe, Slabs.Fresh, TakeStep, AllocEmpty, CanRun;
    var k := s.cores[c].cache;
    FilledCores(s, c, current, standby);
    StepRuns(g, s, StartAlloc(c));
    var s1 := SetCore(s, c, k, FillingCurrent);
    StepRuns(g, s1, FillCurrent(c, current));
    var s2 := FillCurrentStep(s1, c, current);
    FillingSame(s, c, current);
    StepRuns(g, s2, FillStandby(c, standby));
    var s3 := FillStandbyStep(s2, c, standby);
    StepRuns(g, s3, Take(c));
    var x := TakeStep(AsWritten, s3, c).value;
    ThenRuns(g, s, s1, s2);
    ThenRuns(g, s, s2, s3);
    ThenRuns(g, s, s3, x.state);
    if x.obj.None? {
      TakeLeaves(s3, c);
      StepRuns(g, x.state, TakeFromSlab(c, slab));
      ThenRuns(g, s, x.state, WholeAlloc(g, s, c, current, standby, slab).value.state);
    }
  }

  /** A whole allocation that does not panic fails exactly when the core's bundles have no
      object, no bundle is full, no slab has an object and no slab is given; the slabs are
      asked only in the first two cases. */
  lemma WholeAllocFailsIff(g: Slabs.Geometry, s: State, c: nat, current: Option<NewBundle>,
                           standby: Option<NewBundle>, slab: Option<int>)
    requires c < |s.cores| && Slabs.Safe(g, s.pool) && Slabs.Fresh(g, s.pool, slab)
    requires WholeAlloc(g, s, c, current, standby, slab).Some?
    ensures var r := WholeAlloc(g, s, c, current, standby, slab).value;
            && (r.obj.None? <==> NoneCached(s, c) && !Slabs.SomeFree(s.pool) && slab.None?)
            && (!NoneCached(s, c) ==> r.state.pool == s.pool)
            && (NoneCached(s, c) && r.obj.Some? ==> r.state.pool.live == s.pool.live + {r.obj.value})
            && r.state.held == (if r.obj.Some? then s.held + {r.obj.value} else s.held)
  {
    hide Slabs.Safe, Slabs.Fresh, TakeStep, Slabs.Take, Slabs.Ready;
    var t := FillStandbyStep(FillCurrentStep(s, c, current), c, standby);
    FilledSame(s, c, current, standby);
    TakeAsksSlabIff(AsWritten, t, c);
    Slabs.TakeSafe(g, s.pool, slab);
  }

  lemma FilledSame(s: State, c: nat, current: Option<NewBundle>, standby: Option<NewBundle>)
    requires c < |s.cores|
    ensures |FillCurrentStep(s, c, current).cores| == |s.cores|
    ensures var t := FillStandbyStep(FillCurrentStep(s, c, current), c, standby);
            && |t.cores| == |s.cores| && t.pool == s.pool && t.full == s.full && t.held == s.held
            && t.cores[c].cache.currCount == s.cores[c].cache.currCount
            && t.cores[c].cache.stbyCount == s.cores[c].cache.stbyCount
  {
  }

  /** A whole free that does not panic takes the object from the caller, and puts it on its
      slab exactly when neither of the core's bundles can take it and there is no empty
      one. */
  lemma WholeFreeToSlabIff(g: Slabs.Geometry, s: State, c: nat, o: int, given: Option<NewBundle>)
    requires c < |s.cores| && Slabs.Safe(g, s.pool) && Unused(s, given) && 0 !in s.empty && o in s.pool.live
    requires WholeFree(g, s, c, o, given).Some?
    ensures var r := WholeFree(g, s, c, o, given).value;
            && r.obj.None? && r.state.held == s.held - {o}
            && (NoPlace(s, c, given) <==> o !in r.state.pool.live)
            && (!NoPlace(s, c, given) ==> r.state.pool == s.pool)
  {
    hide Slabs.Safe, PutStep;
    var s1 := SetCore(s, c, s.cores[c].cache, Putting(o));
    var x := PutStep(AsWritten, s1, c, o, given).value;
    PutAsksSlabIff(AsWritten, s1, c, o, given);
    PutHeld(s1, c, o, given);
    if NoPlace(s, c, given) { Slabs.GiveLive(g, s.pool, Slabs.NodeOf(g, o), o); }
  }

  /** An object on its way to its slab is still held. */
  lemma PutHeld(s: State, c: nat, o: int, given: Option<NewBundle>)
    requires c < |s.cores| && PutStep(AsWritten, s, c, o, given).Some?
    ensures LeftForSlab(PutStep(AsWritten, s, c, o, given).value.state, c, o) ==>
              PutStep(AsWritten, s, c, o, given).value.state.held == s.held
  {
  }

  lemma FillingSame(s: State, c: nat, current: Option<NewBundle>)
    requires c < |s.cores|
    ensures FillCurrentStep(SetCore(s, c, s.cores[c].cache, FillingCurrent), c, current)
            == FillCurrentStep(s, c, current)
    ensures |FillCurrentStep(s, c, current).cores| == |s.cores| && FillCurrentStep(s, c, current).pool == s.pool
    ensures FillCurrentStep(s, c, current).cores[c].task == FillingStandby
  {
    var k, t := s.cores[c].cache, SetCore(s, c, s.cores[c].cache, FillingCurrent);
    assert t.cores[c].cache == k;
    forall k': Cache
      ensures t.cores[c := Core(k', FillingStandby)] == s.cores[c := Core(k', FillingStandby)]
    {
    }
  }

  /** So is a whole free. */
  lemma WholeFreeRuns(g: Slabs.Geometry, s: State, c: nat, o: int, given: Option<NewBundle>)
    requires c < |s.cores| && s.cores[c].task == Idle && o in s.held && Slabs.Safe(g, s.pool) && Unused(s, given)
    requires forall d | 0 <= d < |s.cores| :: !Freeing(s.cores[d].task, o)
    requires WholeFree(g, s, c, o, given).Some?
    ensures CanRun(g, s, WholeFree(g, s, c, o, given).value.state)
  {
    hide Slabs.Safe, PutStep, CanRun;
    StepRuns(g, s, StartFree(c, o));
    var s1 := SetCore(s, c, s.cores[c].cache, Putting(o));
    StepRuns(g, s1, Put(c, given));
    var x := PutStep(AsWritten, s1, c, o, given).value;
    ThenRuns(g, s, s1, x.state);
    if LeftForSlab(x.state, c, o) {
      PutKeeps(s1, c, o, given);
      StepRuns(g, x.state, PutOnSlab(c));
      ThenRuns(g, s, x.state, WholeFree(g, s, c, o, given).value.state);
    }
  }

  lemma GivenSome(g: Slabs.Geometry, given: Option<nat>)
    ensures SlabManager.GivenNode(g, given).None? <==> given.None?
  {
  }

  lemma ManagerSafe(m: SlabManager.Manager)
    requires m.Valid()
    ensures Slabs.Safe(m.g, m.s)
  {
  }

  lemma FilledCores(s: State, c: nat, current: Option<NewBundle>, standby: Option<NewBundle>)
    requires c < |s.cores|
    ensures |FillCurrentStep(s, c, current).cores| == |s.cores|
    ensures var t := FillStandbyStep(FillCurrentStep(s, c, current), c, standby);
            |t.cores| == |s.cores| && t.pool == s.pool
  {
  }

  lemma TakePool(s: State, c: nat)
    requires c < |s.cores| && TakeStep(AsWritten, s, c).Some?
    ensures TakeStep(AsWritten, s, c).value.state.pool == s.pool
  {
  }

  lemma StillUnused(s: State, t: State, given: Option<NewBundle>)
    requires Unused(s, given) && t.slots == s.slots
    ensures Unused(t, given)
  {
  }

  /** What the slab manager does for a core that takes from it. */
  lemma TakenFromSlab(g: Slabs.Geometry, s: State, c: nat, slab: Option<int>, t: Slabs.State, r: Option<int>)
    requires c < |s.cores| && s.cores[c].task == TakingFromSlab
    requires Slabs.Safe(g, s.pool) && Slabs.Fresh(g, s.pool, slab) && SlabManager.Takes(g, s.pool, slab, t, r)
    ensures var x := Step(AsWritten, g, s, TakeFromSlab(c, slab));
            && x.Some? && x.value.obj == r && x.value.state.pool == t
            && x.value.state.slots == s.slots && x.value.state.empty == s.empty && x.value.state.full == s.full
            && |x.value.state.cores| == |s.cores|
            && forall d | 0 <= d < |s.cores| :: x.value.state.cores[d].cache == s.cores[d].cache
  {
    hide Slabs.Safe, Slabs.Fresh, Slabs.Ready, Slabs.Take;
  }

  /** What the slab manager does for a core that puts an object back on its slab. */
  lemma PutOnSlabIs(g: Slabs.Geometry, s: State, c: nat, o: int, ok: bool, t: Slabs.State)
    requires c < |s.cores| && s.cores[c].task == PuttingOnSlab(o) && Slabs.Safe(g, s.pool)
    requires Slabs.NodeOf(g, o) in s.pool.free && SlabManager.Gives(g, s.pool, o, ok, t)
    ensures var x := Step(AsWritten, g, s, PutOnSlab(c));
            && (x.Some? <==> ok)
            && (ok ==>
                  && x.value.obj == None && x.value.state.pool == t
                  && x.value.state.slots == s.slots && x.value.state.empty == s.empty && x.value.state.full == s.full
                  && |x.value.state.cores| == |s.cores|
                  && forall d | 0 <= d < |s.cores| :: x.value.state.cores[d].cache == s.cores[d].cache)
  {
    hide Slabs.Safe, Slabs.NodeOf, Slabs.Give;
  }

  // ------------------------------------------------------------------------ the class

  class KernelObjects {
    const caches: SlabAllocator
    const objects: SlabManager.Manager

    ghost predicate Valid()
      reads this, caches, objects
    {
      caches.Valid() && objects.Valid() && caches.s.pool == objects.s
    }

    constructor (g: Slabs.Geometry, cores: nat)
      requires Slabs.Proper(g)
      ensures Valid() && objects.g == g && fresh(caches) && fresh(objects)
      ensures |caches.s.cores| == cores && Started(g, caches.s)
    {
      objects := new SlabManager.Manager(g);
      caches := new SlabAllocator(cores, Slabs.START);
    }

    /** Allocates an object for a core. False if the kernel panicked. */
    method AllocInternal(c: nat, current: Option<NewBundle>, standby: Option<NewBundle>, given: Option<nat>)
      returns (ok: bool, r: Option<int>)
      requires Valid() && c < |caches.cache|
      requires Unused(caches.s, current) && Unused(FillCurrentStep(caches.s, c, current), standby)
      requires current.Some? ==> current.value.addr != CoreCacheAllocator.POISON
      requires standby.Some? ==> standby.value.addr != CoreCacheAllocator.POISON
      requires Slabs.Fresh(objects.g, objects.s, SlabManager.GivenNode(objects.g, given))
      requires given.Some? ==> !Slabs.IsObject(objects.g, given.value + objects.g.nodeOffset, SlabManager.POISON)
      modifies caches, objects
      ensures old(c < |caches.s.cores| && Slabs.Safe(objects.g, caches.s.pool))
      ensures WholeAlloc(objects.g, old(caches.s), c, current, standby, SlabManager.GivenNode(objects.g, given))
              == if ok then Some(Outcome(caches.s, r)) else None
      ensures ok ==> Valid()
      ensures ok ==> (r.None? <==> old(NoneCached(caches.s, c) && !Slabs.SomeFree(objects.s)) && given.None?)
    {
      hide Slabs.Safe, Slabs.Fresh, SlabManager.GivenNode, Slabs.IsObject, TakeStep, AllocEmpty, FillCurrentStep,
        FillStandbyStep, Unused, SlabAllocator.Valid, SlabManager.Manager.Valid;
      ManagerSafe(objects);
      caches.KnownCores();
      ghost var s0 := caches.s;
      FilledCores(s0, c, current, standby);
      if WholeAlloc(objects.g, s0, c, current, standby, SlabManager.GivenNode(objects.g, given)).Some? {
        WholeAllocFailsIff(objects.g, s0, c, current, standby, SlabManager.GivenNode(objects.g, given));
      }
      GivenSome(objects.g, given);
      ghost var filled := FillStandbyStep(FillCurrentStep(s0, c, current), c, standby);
      ok, r := caches.AllocInternal(c, current, standby);
      if !ok || r.Some? {
        if ok { TakePool(filled, c); }
        return;
      }
      TakeLeaves(filled, c);
      ghost var t, slab := caches.s, SlabManager.GivenNode(objects.g, given);
      r := objects.Alloc(given);
      TakenFromSlab(objects.g, t, c, slab, objects.s, r);
      caches.Settle(Step(AsWritten, objects.g, t, TakeFromSlab(c, slab)).value.state);
    }

    /** Frees an object of this allocator. False if the kernel panicked. */
    method FreeInternal(c: nat, obj: nat, given: Option<NewBundle>) returns (ok: bool)
      requires Valid() && c < |caches.cache| && Unused(caches.s, given)
      requires given.Some? ==> given.value.addr != CoreCacheAllocator.POISON
      requires obj != 0 ==>
                 var node := Slabs.NodeOf(objects.g, obj);
                 node in objects.s.free && Slabs.IsObject(objects.g, node, obj)
      modifies caches, objects
      ensures old(c < |caches.s.cores| && Slabs.Safe(objects.g, caches.s.pool))
      ensures obj == 0 ==> !ok
      ensures obj != 0 ==>
                WholeFree(objects.g, old(caches.s), c, obj, given) == if ok then Some(Outcome(caches.s, None)) else None
      ensures ok ==> Valid()
    {
      hide Slabs.Safe, Slabs.NodeOf, Slabs.IsObject, PutStep, Unused, SlabAllocator.Valid, SlabManager.Manager.Valid;
      ManagerSafe(objects);
      caches.KnownCores();
      if obj == 0 {
        return false;
      }
      ghost var s1 := SetCore(caches.s, c, caches.s.cores[c].cache, Putting(obj));
      StillUnused(caches.s, s1, given);
      caches.Settle(s1);
      var done;
      ok, done := caches.Put(c, obj, given);
      if !ok {
        return;
      }
      PutKeeps(s1, c, obj, given);
      if done {
        return;
      }
      ghost var t := caches.s;
      ok := objects.Free(obj);
      PutOnSlabIs(objects.g, t, c, obj, ok, objects.s);
      if ok {
        caches.Settle(Step(AsWritten, objects.g, t, PutOnSlab(c)).value.state);
      }
    }
  }
}
