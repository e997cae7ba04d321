/** The caching layers above the slabs: bundles of sixteen objects, a manager of empty
    and full bundles, and a current and a standby bundle for each core, stepped by any
    interleaving of the cores. A step is what a core does between two lock operations.
    The step that hands a full bundle out and the one that takes one back exist in two
    variants: as the code is written, and as its documentation describes them. */
module CoreCaches {
  import opened Rings
  import Slabs = SlabPool

  const BUNDLE_SIZE: nat := 16

  datatype Cache = Cache(current: int, currCount: nat, standby: int, stbyCount: nat)

  const NO_CACHE := Cache(0, 0, 0, 0)

  /** Where a core is in an allocation or a free. */
  datatype Task =
    | Idle
    | FillingCurrent
    | FillingStandby
    | Taking
    | TakingFromSlab
    | Putting(obj: int)
    | PuttingOnSlab(obj: int)

  datatype Core = Core(cache: Cache, task: Task)

  /** The cores; the stacks of empty and full bundles, top last; the slots of every
      bundle; the slabs; and the objects the callers hold. */
  datatype State = State(cores: seq<Core>, empty: seq<int>, full: seq<int>, slots: map<int, seq<int>>,
                         pool: Slabs.State, held: set<int>)

  datatype Variant = AsWritten | AsDocumented

  // -------------------------------------------------------------------- steps

  function Swap(c: Cache): Cache
  {
    Cache(c.standby, c.stbyCount, c.current, c.currCount)
  }

  function SetCore(s: State, c: nat, cache: Cache, task: Task): (t: State)
    requires c < |s.cores|
    ensures t.empty == s.empty && t.full == s.full && t.slots == s.slots && t.pool == s.pool && t.held == s.held
  {
    s.(cores := s.cores[c := Core(cache, task)])
  }

  /** A bundle from the slabs of bundles, with whatever its memory holds. */
  datatype NewBundle = NewBundle(addr: int, slots: seq<int>)

  datatype Got = Got(state: State, bundle: int)

  /** The top empty bundle, or a new one if there is none and one is given, or null. */
  function AllocEmpty(s: State, given: Option<NewBundle>): (got: Got)
    ensures got.state.cores == s.cores
  {
    if s.empty != [] then Got(s.(empty := s.empty[..|s.empty| - 1]), s.empty[|s.empty| - 1])
    else if given.Some? then Got(s.(slots := s.slots[given.value.addr := given.value.slots]), given.value.addr)
    else Got(s, 0)
  }

  /** Puts a bundle on the empty list. None: the bundle is on a list already, so its
      link is not poisoned and the assertion fails. */
  function ReturnEmpty(s: State, b: int): Option<State>
  {
    if b == 0 then Some(s)
    else if b in s.empty || b in s.full then None
    else Some(s.(empty := s.empty + [b]))
  }

  function ReturnFull(s: State, b: int): Option<State>
  {
    if b == 0 then Some(s)
    else if b in s.empty || b in s.full then None
    else Some(s.(full := s.full + [b]))
  }

  /** What a step leaves, and the object it hands to the caller, if any. */
  datatype Outcome = Outcome(state: State, obj: Option<int>)

  /** What the n-th slot of bundle b holds. */
  function SlotAt(slots: map<int, seq<int>>, b: int, n: nat): int
    requires HasSlot(slots, b, n)
  {
    slots[b][n]
  }

  predicate HasSlot(slots: map<int, seq<int>>, b: int, n: nat)
  {
    b in slots && n < |slots[b]|
  }

  function WriteSlot(slots: map<int, seq<int>>, b: int, n: nat, o: int): map<int, seq<int>>
    requires HasSlot(slots, b, n)
  {
    slots[b := slots[b][n := o]]
  }

  /** Pops the core's current bundle and ends the allocation. */
  function PopCurrent(s: State, c: nat): Option<Outcome>
    requires c < |s.cores|
  {
    var k := s.cores[c].cache;
    if k.currCount == 0 || !HasSlot(s.slots, k.current, k.currCount - 1) then None
    else
      var o := SlotAt(s.slots, k.current, k.currCount - 1);
      Some(Outcome(SetCore(s, c, k.(currCount := k.currCount - 1), Idle).(held := s.held + {o}), Some(o)))
  }

  /** Pushes an object on the core's current bundle and ends the free. */
  function PushCurrent(s: State, c: nat, o: int): Option<Outcome>
    requires c < |s.cores|
  {
    var k := s.cores[c].cache;
    if !HasSlot(s.slots, k.current, k.currCount) then None
    else
      var t := SetCore(s, c, k.(currCount := k.currCount + 1), Idle);
      Some(Outcome(t.(slots := WriteSlot(s.slots, k.current, k.currCount, o), held := s.held - {o}), None))
  }

  /** Gives the core the top full bundle for one of its own; the code gives back the
      current bundle, its documentation the standby. */
  function ExchangeForFull(v: Variant, s: State, c: nat): Option<State>
    requires c < |s.cores| && s.full != []
  {
    var k, top := s.cores[c].cache, s.full[|s.full| - 1];
    var r := ReturnEmpty(s, if v.AsWritten? then k.current else k.standby);
    if r.None? then None
    else
      var t := r.value.(full := s.full[..|s.full| - 1]);
      Some(SetCore(t, c, Swap(k.(standby := top, stbyCount := BUNDLE_SIZE)), Taking))
  }

  /** Exchanges the core's standby bundle for an empty one. When there is none, the
      code has already moved the standby to the full list and keeps its address; its
      documentation leaves the standby where it is. */
  function ExchangeForEmpty(v: Variant, s: State, c: nat, given: Option<NewBundle>): Option<State>
    requires c < |s.cores|
  {
    var k := s.cores[c].cache;
    if v.AsDocumented? && s.empty == [] && given.None? then Some(s)
    else
      var r := ReturnFull(s, k.standby);
      if r.None? then None
      else
        var got := AllocEmpty(r.value, given);
        if got.bundle == 0 then Some(got.state)
        else Some(SetCore(got.state, c, Swap(k.(standby := got.bundle, stbyCount := 0)), s.cores[c].task))
  }

  datatype Action =
    | StartAlloc(core: nat)
    | FillCurrent(core: nat, given: Option<NewBundle>)
    | FillStandby(core: nat, given: Option<NewBundle>)
    | Take(core: nat)
    | TakeFromSlab(core: nat, slab: Option<int>)
    | StartFree(core: nat, obj: int)
    | Put(core: nat, given: Option<NewBundle>)
    | PutOnSlab(core: nat)

  /** Gives the core a current bundle if it has none. */
  function FillCurrentStep(s: State, c: nat, given: Option<NewBundle>): State
    requires c < |s.cores|
  {
    var k, got := s.cores[c].cache, AllocEmpty(s, given);
    if k.current != 0 then SetCore(s, c, k, FillingStandby)
    else SetCore(got.state, c, k.(current := got.bundle), FillingStandby)
  }

  /** Gives the core a standby bundle if it has none. */
  function FillStandbyStep(s: State, c: nat, given: Option<NewBundle>): State
    requires c < |s.cores|
  {
    var k, got := s.cores[c].cache, AllocEmpty(s, given);
    if k.standby != 0 then SetCore(s, c, k, Taking)
    else SetCore(got.state, c, k.(standby := got.bundle), Taking)
  }

  /** Takes an object from the core's bundles, or from a full bundle. */
  function TakeStep(v: Variant, s: State, c: nat): Option<Outcome>
    requires c < |s.cores|
  {
    var k := s.cores[c].cache;
    if k.currCount > 0 then PopCurrent(s, c)
    else if k.stbyCount > 0 then PopCurrent(SetCore(s, c, Swap(k), Taking), c)
    else if s.full != [] then
      var t := ExchangeForFull(v, s, c);
      if t.None? then None else PopCurrent(t.value, c)
    else Some(Outcome(SetCore(s, c, k, TakingFromSlab), None))
  }

  /** Whether the core's current bundle can take an object. */
  predicate Room(k: Cache)
  {
    k.current != 0 && k.currCount < BUNDLE_SIZE
  }

  function PutStep(v: Variant, s: State, c: nat, o: int, given: Option<NewBundle>): Option<Outcome>
    requires c < |s.cores|
  {
    var k := s.cores[c].cache;
    if Room(k) then PushCurrent(s, c, o)
    else if Room(Swap(k)) then PushCurrent(SetCore(s, c, Swap(k), s.cores[c].task), c, o)
    else
      var t := ExchangeForEmpty(v, s, c, given);
      if t.None? then None
      else if Room(t.value.cores[c].cache) then PushCurrent(t.value, c, o)
      else Some(Outcome(SetCore(t.value, c, t.value.cores[c].cache, PuttingOnSlab(o)), None))
  }

  /** A core starts, or takes the next step of, what it is doing; bundles and slabs
      given were not in use. An object is freed by one that holds it, once. */
  ghost predicate Enabled(g: Slabs.Geometry, s: State, a: Action)
  {
    && a.core < |s.cores|
    && var task := s.cores[a.core].task;
    match a
    case StartAlloc(_) => task.Idle?
    case FillCurrent(_, given) => task.FillingCurrent? && Unused(s, given)
    case FillStandby(_, given) => task.FillingStandby? && Unused(s, given)
    case Take(_) => task.Taking?
    case TakeFromSlab(_, slab) => task.TakingFromSlab? && Slabs.Fresh(g, s.pool, slab)
    case StartFree(_, o) => task.Idle? && o in s.held && forall d | 0 <= d < |s.cores| :: !Freeing(s.cores[d].task, o)
    case Put(_, given) => task.Putting? && Unused(s, given)
    case PutOnSlab(_) => task.PuttingOnSlab?
  }

  ghost predicate Unused(s: State, given: Option<NewBundle>)
  {
    given.Some? ==> given.value.addr != 0 && given.value.addr !in s.slots && |given.value.slots| == BUNDLE_SIZE
  }

  predicate Freeing(t: Task, o: int)
  {
    (t.Putting? || t.PuttingOnSlab?) && t.obj == o
  }

  /** One step; None when an assertion fails and the kernel panics. */
  ghost function Step(v: Variant, g: Slabs.Geometry, s: State, a: Action): Option<Outcome>
    requires Enabled(g, s, a) && Slabs.Safe(g, s.pool)
  {
    var c, k := a.core, s.cores[a.core].cache;
    match a
    case StartAlloc(_) => Some(Outcome(SetCore(s, c, k, FillingCurrent), None))
    case FillCurrent(_, given) => Some(Outcome(FillCurrentStep(s, c, given), None))
    case FillStandby(_, given) => Some(Outcome(FillStandbyStep(s, c, given), None))
    case Take(_) => TakeStep(v, s, c)
    case TakeFromSlab(_, slab) =>
      Slabs.TakeSafe(g, s.pool, slab);
      var r := Slabs.Take(Slabs.Ready(g, s.pool, slab));
      var t := SetCore(s, c, k, Idle).(pool := r.state);
      Some(Outcome(if r.obj.Some? then t.(held := s.held + {r.obj.value}) else t, r.obj))
    case StartFree(_, o) => Some(Outcome(SetCore(s, c, k, Putting(o)), None))
    case Put(_, given) => PutStep(v, s, c, s.cores[c].task.obj, given)
    case PutOnSlab(_) =>
      var o := s.cores[c].task.obj;
      if Slabs.NodeOf(g, o) !in s.pool.free then None
      else
        var r := Slabs.Give(g, s.pool, Slabs.NodeOf(g, o), o);
        if r.None? then None
        else Some(Outcome(SetCore(s, c, k, Idle).(pool := r.value, held := s.held - {o}), None))
  }

  // ---------------------------------------------------------------- invariant

  /** A place that refers to a bundle, and how many of its slots it uses. */
  datatype Ref = Ref(bundle: int, count: nat)

  function One(b: int, n: nat): multiset<Ref>
  {
    if b == 0 then multiset{} else multiset{Ref(b, n)}
  }

  function CacheRefs(k: Cache): multiset<Ref>
  {
    One(k.current, k.currCount) + One(k.standby, k.stbyCount)
  }

  function CoreRefs(cores: seq<Core>): multiset<Ref>
  {
    if cores == [] then multiset{} else CoreRefs(cores[..|cores| - 1]) + CacheRefs(cores[|cores| - 1].cache)
  }

  function ListRefs(l: seq<int>, n: nat): multiset<Ref>
  {
    if l == [] then multiset{} else ListRefs(l[..|l| - 1], n) + One(l[|l| - 1], n)
  }

  /** Every reference to a bundle: from the cores, the empty list and the full list. */
  function Refs(s: State): multiset<Ref>
  {
    CoreRefs(s.cores) + ListRefs(s.empty, 0) + ListRefs(s.full, BUNDLE_SIZE)
  }

  /** Every bundle is in exactly one place. */
  ghost predicate BundlesPlaced(refs: multiset<Ref>, slots: map<int, seq<int>>)
  {
    && (forall r | r in refs :: refs[r] == 1 && r.bundle in slots && r.count <= BUNDLE_SIZE)
    && (forall r, q | r in refs && q in refs :: r.bundle == q.bundle ==> r == q)
    && (forall b | b in slots :: b != 0 && |slots[b]| == BUNDLE_SIZE && Referred(refs, b))
  }

  ghost predicate Referred(refs: multiset<Ref>, b: int)
  {
    exists r :: r in refs && r.bundle == b
  }

  /** The i-th slot of bundle b is in use. */
  ghost predicate UsedSlot(refs: multiset<Ref>, b: int, i: int)
  {
    exists r :: r in refs && r.bundle == b && 0 <= i < r.count
  }

  /** Object o is in the i-th slot of bundle b, and the slot is in use. */
  ghost predicate InSlot(refs: multiset<Ref>, slots: map<int, seq<int>>, b: int, i: int, o: int)
  {
    b in slots && 0 <= i < |slots[b]| && slots[b][i] == o && UsedSlot(refs, b, i)
  }

  ghost predicate Cached(refs: multiset<Ref>, slots: map<int, seq<int>>, o: int)
  {
    exists b, i :: InSlot(refs, slots, b, i, o)
  }

  /** Every object the slabs have given out is in exactly one place: held by a caller
      or in one used slot of one bundle. */
  ghost predicate ObjectsPlaced(refs: multiset<Ref>, slots: map<int, seq<int>>, held: set<int>, live: set<int>)
  {
    && (forall b, i, c, j, o | InSlot(refs, slots, b, i, o) && InSlot(refs, slots, c, j, o) :: b == c && i == j)
    && (forall b, i, o | InSlot(refs, slots, b, i, o) :: o !in held && o in live)
    && (forall o | o in held :: o in live)
    && (forall o | o in live :: o in held || Cached(refs, slots, o))
  }

  /** A missing bundle has no objects, and the objects being freed are held and distinct. */
  ghost predicate CoresTidy(cores: seq<Core>, held: set<int>)
  {
    && (forall c | 0 <= c < |cores| :: Tidy(cores[c], held))
    && (forall c, d, o | 0 <= c < d < |cores| :: !(Freeing(cores[c].task, o) && Freeing(cores[d].task, o)))
  }

  predicate NullHasNone(k: Cache)
  {
    (k.current == 0 ==> k.currCount == 0) && (k.standby == 0 ==> k.stbyCount == 0)
  }

  ghost predicate Tidy(core: Core, held: set<int>)
  {
    && NullHasNone(core.cache)
    && forall o | Freeing(core.task, o) :: o in held
  }

  ghost predicate Conserved(g: Slabs.Geometry, s: State)
  {
    && Slabs.Safe(g, s.pool)
    && BundlesPlaced(Refs(s), s.slots)
    && ObjectsPlaced(Refs(s), s.slots, s.held, s.pool.live)
    && CoresTidy(s.cores, s.held)
    && 0 !in s.empty && 0 !in s.full
  }

  // --------------------------------------------------- moving references around

  lemma {:induction false} CoreRefsSet(cores: seq<Core>, c: nat, core: Core)
    requires c < |cores|
    ensures CoreRefs(cores[c := core]) + CacheRefs(cores[c].cache) == CoreRefs(cores) + CacheRefs(core.cache)
    ensures CacheRefs(cores[c].cache) <= CoreRefs(cores)
    decreases |cores|
  {
    hide CacheRefs;
    var n := |cores| - 1;
    var l, l' := CacheRefs(cores[n].cache), CacheRefs(core.cache);
    if c < n {
      CoreRefsSet(cores[..n], c, core);
      assert cores[c := core][..n] == cores[..n][c := core];
      Regroup(CoreRefs(cores[..n][c := core]), CacheRefs(cores[c].cache), CoreRefs(cores[..n]), l', l);
    } else {
      assert cores[c := core][..n] == cores[..n];
    }
  }

  lemma Regroup(x: multiset<Ref>, a: multiset<Ref>, y: multiset<Ref>, b: multiset<Ref>, l: multiset<Ref>)
    requires x + a == y + b
    ensures (x + l) + a == (y + l) + b
    ensures a <= y ==> a <= y + l
  {
    forall r
      ensures ((x + l) + a)[r] == ((y + l) + b)[r]
    {
      assert (x + a)[r] == (y + b)[r];
    }
  }

  lemma RefsSet(s: State, c: nat, cache: Cache, task: Task)
    requires c < |s.cores|
    ensures Refs(SetCore(s, c, cache, task)) + CacheRefs(s.cores[c].cache) == Refs(s) + CacheRefs(cache)
    ensures CacheRefs(s.cores[c].cache) <= Refs(s)
  {
    hide CacheRefs, CoreRefs, ListRefs;
    var x, lists := Core(cache, task), ListRefs(s.empty, 0) + ListRefs(s.full, BUNDLE_SIZE);
    CoreRefsSet(s.cores, c, x);
    Regroup(CoreRefs(s.cores[c := x]), CacheRefs(s.cores[c].cache), CoreRefs(s.cores), CacheRefs(cache), lists);
    RefsGrouped(s);
    RefsGrouped(SetCore(s, c, cache, task));
  }

  lemma RefsGrouped(s: State)
    ensures Refs(s) == CoreRefs(s.cores) + (ListRefs(s.empty, 0) + ListRefs(s.full, BUNDLE_SIZE))
  {
  }

  lemma {:induction false} ListRefsMember(l: seq<int>, n: nat, b: int)
    requires b in l && b != 0
    ensures Ref(b, n) in ListRefs(l, n)
  {
    var last := |l| - 1;
    assert l == l[..last] + [l[last]];
    if b != l[last] { ListRefsMember(l[..last], n, b); }
  }

  lemma ListRefsPush(l: seq<int>, b: int, n: nat)
    ensures ListRefs(l + [b], n) == ListRefs(l, n) + One(b, n)
  {
    assert (l + [b])[..|l|] == l;
  }

  /** A core's change of cache and task keeps the cores tidy if the new task frees
      nothing that another core is freeing. */
  lemma TidySet(cores: seq<Core>, held: set<int>, c: nat, core: Core)
    requires CoresTidy(cores, held) && c < |cores| && Tidy(core, held)
    requires forall d, o | 0 <= d < |cores| && d != c && Freeing(core.task, o) :: !Freeing(cores[d].task, o)
    ensures CoresTidy(cores[c := core], held)
  {
  }

  /** Moving bundles around changes nothing that matters. */
  lemma Rearranged(g: Slabs.Geometry, s: State, t: State)
    requires Conserved(g, s) && Refs(t) == Refs(s) && t.slots == s.slots && t.held == s.held && t.pool == s.pool
    requires CoresTidy(t.cores, t.held) && 0 !in t.empty && 0 !in t.full
    ensures Conserved(g, t)
  {
  }

  // ------------------------------------------------------- moving objects around

  /** The references when the one to bundle b counts n slots instead of m. */
  function Recounted(refs: multiset<Ref>, b: int, m: nat, n: nat): multiset<Ref>
  {
    refs - multiset{Ref(b, m)} + multiset{Ref(b, n)}
  }

  lemma RecountedMembers(refs: multiset<Ref>, slots: map<int, seq<int>>, b: int, m: nat, n: nat)
    requires BundlesPlaced(refs, slots) && Ref(b, m) in refs
    ensures forall r :: r in Recounted(refs, b, m, n) <==> (r in refs && r.bundle != b) || r == Ref(b, n)
    ensures forall r :: Recounted(refs, b, m, n)[r] <= 1
  {
    var was, now := Ref(b, m), Ref(b, n);
    assert refs[was] == 1;
    assert now != was ==> now !in refs;
    forall r
      ensures r in Recounted(refs, b, m, n) <==> (r in refs && r.bundle != b) || r == now
      ensures Recounted(refs, b, m, n)[r] <= 1
    {
      if r in refs { assert refs[r] == 1 && (r.bundle == was.bundle ==> r == was); }
    }
  }

  lemma RecountedPlaced(refs: multiset<Ref>, slots: map<int, seq<int>>, b: int, m: nat, n: nat)
    requires BundlesPlaced(refs, slots) && Ref(b, m) in refs && n <= BUNDLE_SIZE
    ensures b in slots && |slots[b]| == BUNDLE_SIZE && m <= BUNDLE_SIZE
    ensures BundlesPlaced(Recounted(refs, b, m, n), slots)
  {
    hide Recounted, Referred;
    RecountedMembers(refs, slots, b, m, n);
    var refs' := Recounted(refs, b, m, n);
    forall c | c in slots
      ensures Referred(refs', c)
    {
      assert Referred(refs, c);
      StillReferred(refs, refs', b, n, c);
    }
  }

  lemma StillReferred(refs: multiset<Ref>, refs': multiset<Ref>, b: int, n: nat, c: int)
    requires Referred(refs, c) && forall r :: r in refs' <==> (r in refs && r.bundle != b) || r == Ref(b, n)
    ensures Referred(refs', c)
  {
    var r :| r in refs && r.bundle == c;
    assert (if c == b then Ref(b, n) else r) in refs';
  }

  lemma RecountedSlots(refs: multiset<Ref>, slots: map<int, seq<int>>, b: int, m: nat, n: nat)
    requires BundlesPlaced(refs, slots) && Ref(b, m) in refs
    ensures forall i :: UsedSlot(refs, b, i) <==> 0 <= i < m
    ensures forall i :: UsedSlot(Recounted(refs, b, m, n), b, i) <==> 0 <= i < n
    ensures forall c, i | c != b :: UsedSlot(Recounted(refs, b, m, n), c, i) <==> UsedSlot(refs, c, i)
  {
    RecountedMembers(refs, slots, b, m, n);
    hide Recounted;
  }

  /** Taking the last object used from a bundle gives it to the caller. */
  lemma PopPlaced(refs: multiset<Ref>, slots: map<int, seq<int>>, held: set<int>, live: set<int>, b: int, n: nat)
    requires BundlesPlaced(refs, slots) && ObjectsPlaced(refs, slots, held, live) && Ref(b, n + 1) in refs
    requires n < BUNDLE_SIZE
    ensures HasSlot(slots, b, n) && SlotAt(slots, b, n) !in held
    ensures BundlesPlaced(Recounted(refs, b, n + 1, n), slots)
    ensures ObjectsPlaced(Recounted(refs, b, n + 1, n), slots, held + {SlotAt(slots, b, n)}, live)
  {
    RecountedPlaced(refs, slots, b, n + 1, n);
    RecountedSlots(refs, slots, b, n + 1, n);
    hide BundlesPlaced, Recounted, UsedSlot;
    var o, refs' := slots[b][n], Recounted(refs, b, n + 1, n);
    assert InSlot(refs, slots, b, n, o);
    forall c, i, x
      ensures InSlot(refs', slots, c, i, x) <==> x != o && InSlot(refs, slots, c, i, x)
    {
      if InSlot(refs, slots, c, i, x) && x == o { assert c == b && i == n; }
    }
    Popped(refs, refs', slots, held, live, o);
  }

  lemma Popped(refs: multiset<Ref>, refs': multiset<Ref>, slots: map<int, seq<int>>, held: set<int>, live: set<int>,
               o: int)
    requires ObjectsPlaced(refs, slots, held, live) && o in live
    requires forall c, i, x :: InSlot(refs', slots, c, i, x) <==> x != o && InSlot(refs, slots, c, i, x)
    ensures ObjectsPlaced(refs', slots, held + {o}, live)
  {
    hide InSlot;
    forall x | x in live && x !in held && x != o
      ensures Cached(refs', slots, x)
    {
      assert Cached(refs, slots, x);
      var c, i :| InSlot(refs, slots, c, i, x);
      assert InSlot(refs', slots, c, i, x);
    }
  }

  /** Putting an object in the next slot of a bundle takes it from the caller. */
  lemma PushPlaced(refs: multiset<Ref>, slots: map<int, seq<int>>, held: set<int>, live: set<int>, b: int, n: nat,
                   o: int)
    requires BundlesPlaced(refs, slots) && ObjectsPlaced(refs, slots, held, live) && Ref(b, n) in refs
    requires n < BUNDLE_SIZE && o in held
    ensures HasSlot(slots, b, n)
    ensures BundlesPlaced(Recounted(refs, b, n, n + 1), WriteSlot(slots, b, n, o))
    ensures ObjectsPlaced(Recounted(refs, b, n, n + 1), WriteSlot(slots, b, n, o), held - {o}, live)
  {
    hide BundlesPlaced, Recounted, UsedSlot, InSlot, ObjectsPlaced;
    RecountedPlaced(refs, slots, b, n, n + 1);
    var refs', slots' := Recounted(refs, b, n, n + 1), slots[b := slots[b][n := o]];
    Rewritten(refs', slots, b, n, o);
    forall c, i, x
      ensures InSlot(refs', slots', c, i, x) <==> (c == b && i == n && x == o) || InSlot(refs, slots, c, i, x)
    {
      PushedSlots(refs, slots, b, n, o, c, i, x);
    }
    Pushed(refs, refs', slots, slots', held, live, b, n, o);
  }

  lemma Rewritten(refs: multiset<Ref>, slots: map<int, seq<int>>, b: int, n: nat, o: int)
    requires BundlesPlaced(refs, slots) && b in slots && n < |slots[b]|
    ensures BundlesPlaced(refs, slots[b := slots[b][n := o]])
  {
    hide Referred;
  }

  lemma PushedSlots(refs: multiset<Ref>, slots: map<int, seq<int>>, b: int, n: nat, o: int, c: int, i: int, x: int)
    requires BundlesPlaced(refs, slots) && Ref(b, n) in refs && n < BUNDLE_SIZE && b in slots && n < |slots[b]|
    ensures InSlot(Recounted(refs, b, n, n + 1), slots[b := slots[b][n := o]], c, i, x)
            <==> (c == b && i == n && x == o) || InSlot(refs, slots, c, i, x)
  {
    hide BundlesPlaced, Recounted, UsedSlot;
    RecountedSlots(refs, slots, b, n, n + 1);
    if c == b {
      assert UsedSlot(refs, b, i) <==> 0 <= i < n;
      assert UsedSlot(Recounted(refs, b, n, n + 1), b, i) <==> 0 <= i < n + 1;
    }
  }

  lemma Pushed(refs: multiset<Ref>, refs': multiset<Ref>, slots: map<int, seq<int>>, slots': map<int, seq<int>>,
               held: set<int>, live: set<int>, b: int, n: int, o: int)
    requires ObjectsPlaced(refs, slots, held, live) && o in held
    requires forall c, i, x ::
               InSlot(refs', slots', c, i, x) <==> (c == b && i == n && x == o) || InSlot(refs, slots, c, i, x)
    ensures ObjectsPlaced(refs', slots', held - {o}, live)
  {
    hide InSlot;
    assert InSlot(refs', slots', b, n, o);
    forall x | x in live && x !in held - {o}
      ensures Cached(refs', slots', x)
    {
      if x != o {
        assert Cached(refs, slots, x);
        var c, i :| InSlot(refs, slots, c, i, x);
        assert InSlot(refs', slots', c, i, x);
      }
    }
  }

  lemma NewPlaced(refs: multiset<Ref>, slots: map<int, seq<int>>, held: set<int>, live: set<int>, b: int,
                  junk: seq<int>)
    requires BundlesPlaced(refs, slots) && ObjectsPlaced(refs, slots, held, live)
    requires b != 0 && b !in slots && |junk| == BUNDLE_SIZE
    ensures BundlesPlaced(refs + multiset{Ref(b, 0)}, slots[b := junk])
    ensures ObjectsPlaced(refs + multiset{Ref(b, 0)}, slots[b := junk], held, live)
  {
    var refs', slots' := refs + multiset{Ref(b, 0)}, slots[b := junk];
    assert forall r :: r in refs' <==> r in refs || r == Ref(b, 0);
    forall x | x in slots'
      ensures Referred(refs', x)
    {
      if x == b { assert Ref(b, 0) in refs'; } else { var r :| r in refs && r.bundle == x; assert r in refs'; }
    }
    forall c, i, o
      ensures InSlot(refs', slots', c, i, o) <==> InSlot(refs, slots, c, i, o)
    {
    }
    forall x | x in live && x !in held
      ensures Cached(refs', slots', x)
    {
      var c, i :| InSlot(refs, slots, c, i, x);
      assert InSlot(refs', slots', c, i, x);
    }
  }
}
