/** The spin lock as steps of any number of cores, one instruction that touches the lock
    word or the exclusive monitor at a time. */
module SpinLock {

  /** Where a core is: the value read or the status written is in its register. */
  datatype Place =
    | Idle
    | Loading(once: bool)              // before ldaxr
    | Loaded(once: bool, value: nat)   // before the first cbnz
    | Storing(once: bool)              // before stxr
    | Stored(once: bool, status: nat)  // before the last cbnz, or the return
    | Holding                          // after a successful acquire, before stlr

  /** Whether the core's exclusive monitor covers the lock word. */
  datatype Core = Core(place: Place, monitor: bool)

  datatype State = State(word: nat, cores: seq<Core>)

  datatype Action =
    | Begin(core: nat, once: bool)          // calls lock, or try_lock
    | Advance(core: nat, fails: bool)       // the next instruction; stxr may fail for no reason
    | Unlock(core: nat)
    | LoseMonitor(core: nat)                // any other event that clears a monitor

  /** A store to the lock word clears every other core's monitor. */
  function ClearOthers(cores: seq<Core>, c: nat): (r: seq<Core>)
    ensures |r| == |cores|
    ensures forall d | 0 <= d < |cores| :: r[d] == if d == c then cores[d] else Core(cores[d].place, false)
  {
    seq(|cores|, d requires 0 <= d < |cores| => if d == c then cores[d] else Core(cores[d].place, false))
  }

  function SetCore(s: State, c: nat, core: Core): State
    requires c < |s.cores|
  {
    s.(cores := s.cores[c := core])
  }

  /** The caller of unlock must hold the lock; a core acquires when it is idle. */
  predicate Enabled(s: State, a: Action)
  {
    && a.core < |s.cores|
    && var p := s.cores[a.core].place;
    match a
    case Begin(_, _) => p.Idle?
    case Advance(_, _) => !p.Idle? && !p.Holding?
    case Unlock(_) => p.Holding?
    case LoseMonitor(_) => true
  }

  function Step(s: State, a: Action): State
    requires Enabled(s, a)
  {
    var c, k := a.core, s.cores[a.core];
    match a
    case Begin(_, once) => SetCore(s, c, Core(Loading(once), k.monitor))
    case Advance(_, fails) => Next(s, c, fails)
    case Unlock(_) => State(0, ClearOthers(s.cores[c := Core(Idle, k.monitor)], c))
    case LoseMonitor(_) => SetCore(s, c, Core(k.place, false))
  }

  /** The next instruction of an acquire: spinning for lock, giving up for try_lock. */
  function Next(s: State, c: nat, fails: bool): State
    requires c < |s.cores| && !s.cores[c].place.Idle? && !s.cores[c].place.Holding?
  {
    var k := s.cores[c];
    match k.place
    case Loading(once) => SetCore(s, c, Core(Loaded(once, s.word), true))
    case Loaded(once, value) =>
      SetCore(s, c, Core(if value == 0 then Storing(once) else if once then Idle else Loading(once), k.monitor))
    case Storing(once) =>
      if k.monitor && !fails then State(1, ClearOthers(s.cores[c := Core(Stored(once, 0), false)], c))
      else SetCore(s, c, Core(Stored(once, 1), false))
    case Stored(once, status) =>
      SetCore(s, c, Core(if status == 0 then Holding else if once then Idle else Loading(once), k.monitor))
  }

  /** Between the store that acquired the lock and its release. */
  predicate Owns(k: Core)
  {
    k.place.Holding? || (k.place.Stored? && k.place.status == 0)
  }

  /** A monitor that is still set vouches for what the core read. */
  predicate Vouched(s: State, k: Core)
  {
    k.monitor ==> (k.place.Loaded? ==> k.place.value == s.word) && (k.place.Storing? ==> s.word == 0)
  }

  /** The lock word is 1 exactly while some core owns the lock, and 0 otherwise; at most
      one core does. */
  ghost predicate Exclusive(s: State)
  {
    && s.word <= 1
    && (s.word == 1 <==> exists c :: 0 <= c < |s.cores| && Owns(s.cores[c]))
    && (forall c, d | 0 <= c < |s.cores| && 0 <= d < |s.cores| :: Owns(s.cores[c]) && Owns(s.cores[d]) ==> c == d)
    && (forall c | 0 <= c < |s.cores| :: Vouched(s, s.cores[c]))
  }

  lemma StepExclusive(s: State, a: Action)
    requires Exclusive(s) && Enabled(s, a)
    ensures Exclusive(Step(s, a))
  {
    var t, c := Step(s, a), a.core;
    forall d | 0 <= d < |s.cores| && d != c
      ensures t.cores[d].place == s.cores[d].place && (Owns(t.cores[d]) <==> Owns(s.cores[d]))
    {
    }
    if Owns(t.cores[c]) && Owns(s.cores[c]) {
      assert t.word == s.word;
    }
    if x :| 0 <= x < |s.cores| && Owns(s.cores[x]) {
      assert x != c ==> Owns(t.cores[x]);
    }
  }

  ghost predicate Reaches(s: State, run: seq<Action>, t: State)
    decreases |run|
  {
    if run == [] then s == t else Enabled(s, run[0]) && Reaches(Step(s, run[0]), run[1..], t)
  }

  /** The lock is free and no core is acquiring it; monitors may be left set. */
  predicate Start(s: State)
  {
    s.word == 0 && forall c | 0 <= c < |s.cores| :: s.cores[c].place.Idle?
  }

  /** Over every interleaving of any number of cores, at most one core is between a
      successful acquire and its release, and the word says whether one is. */
  lemma {:induction false} MutualExclusion(s: State, run: seq<Action>, t: State)
    requires Exclusive(s) && Reaches(s, run, t)
    ensures Exclusive(t)
    decreases |run|
  {
    if run != [] {
      StepExclusive(s, run[0]);
      MutualExclusion(Step(s, run[0]), run[1..], t);
    }
  }

  /** The same from the start, in terms of who holds the lock. */
  lemma HeldByOne(s: State, run: seq<Action>, t: State, c: nat, d: nat)
    requires Start(s) && Reaches(s, run, t) && c < |t.cores| && d < |t.cores| && c != d
    ensures !(t.cores[c].place.Holding? && t.cores[d].place.Holding?)
    ensures t.cores[c].place.Holding? ==> t.word == 1
  {
    MutualExclusion(s, run, t);
  }

  /** The store of a core whose monitor is set succeeds, unless it fails for no reason,
      and makes every other pending store fail: of the cores that read a free lock, the
      first to store gets it. */
  lemma FirstStoreWins(s: State, c: nat, d: nat)
    requires Exclusive(s) && c < |s.cores| && d < |s.cores| && c != d
    requires s.cores[c].place.Storing? && s.cores[c].monitor && s.cores[d].place.Storing?
    ensures var t := Step(s, Advance(c, false));
            && Owns(t.cores[c]) && t.word == 1 && !t.cores[d].monitor
            && Enabled(t, Advance(d, false))
            && var u := Step(t, Advance(d, false));
            u.word == 1 && !Owns(u.cores[d]) && Owns(u.cores[c])
  {
  }

  /** Alone, lock acquires a free lock in one pass, whatever its monitor was. */
  lemma FreeLockAcquired(s: State, c: nat, once: bool)
    requires s.word == 0 && c < |s.cores| && s.cores[c].place == Loading(once)
    ensures var s1 := Next(s, c, false);
            && !s1.cores[c].place.Idle? && !s1.cores[c].place.Holding?
            && var s2 := Next(s1, c, false);
            && !s2.cores[c].place.Idle? && !s2.cores[c].place.Holding?
            && var s3 := Next(s2, c, false);
            && !s3.cores[c].place.Idle? && !s3.cores[c].place.Holding?
            && Next(s3, c, false).cores[c].place.Holding?
  {
  }

  /** A try_lock that finds the lock held returns without it, and leaves the word alone. */
  lemma HeldLockRefused(s: State, c: nat)
    requires s.word == 1 && c < |s.cores| && s.cores[c].place == Loading(true)
    ensures var s1 := Next(s, c, false);
            && s1.cores[c].place == Loaded(true, 1)
            && Next(s1, c, false).cores[c].place.Idle? && Next(s1, c, false).word == 1
  {
  }

  // -------------------------------------------------------------- how calls return

  /** The core is inside a call of lock, or of try_lock. */
  predicate InCall(p: Place, once: bool)
  {
    match p
    case Loading(o) => o == once
    case Loaded(o, _) => o == once
    case Storing(o) => o == once
    case Stored(o, _) => o == once
    case _ => false
  }

  /** A core inside lock stays inside, or comes to hold the lock; no other core's step and
      no lost monitor takes it out. */
  lemma LockStays(s: State, a: Action, c: nat)
    requires Enabled(s, a) && c < |s.cores| && InCall(s.cores[c].place, false)
    ensures var t := Step(s, a);
            |t.cores| == |s.cores| && (InCall(t.cores[c].place, false) || t.cores[c].place.Holding?)
  {
  }

  /** Some state of the run, its first included, has the core holding the lock. */
  ghost predicate HoldsIn(s: State, run: seq<Action>, c: nat)
  {
    exists i, u ::
      0 <= i <= |run| && Reaches(s, run[..i], u) && c < |u.cores| && u.cores[c].place.Holding?
  }

  lemma HoldsLater(s: State, run: seq<Action>, c: nat)
    requires run != [] && Enabled(s, run[0]) && HoldsIn(Step(s, run[0]), run[1..], c)
    ensures HoldsIn(s, run, c)
  {
    hide Step, Enabled;
    var i, u :| 0 <= i <= |run| - 1 && Reaches(Step(s, run[0]), run[1..][..i], u)
                && c < |u.cores| && u.cores[c].place.Holding?;
    assert run[..i + 1][0] == run[0] && run[..i + 1][1..] == run[1..][..i];
    assert Reaches(s, run[..i + 1], u);
  }

  /** Over every interleaving, a call of lock is left only through holding the lock. */
  lemma {:induction false} LockReturnsHolding(s: State, run: seq<Action>, t: State, c: nat)
    requires Reaches(s, run, t) && c < |s.cores| && InCall(s.cores[c].place, false)
    ensures c < |t.cores| && (InCall(t.cores[c].place, false) || HoldsIn(s, run, c))
    decreases |run|
  {
    if run != [] {
      hide Step, Enabled, HoldsIn;
      LockStays(s, run[0], c);
      var n := Step(s, run[0]);
      if InCall(n.cores[c].place, false) {
        LockReturnsHolding(n, run[1..], t, c);
      } else {
        SameCount(n, run[1..], t);
        HoldsNow(n, run[1..], c);
      }
      if HoldsIn(n, run[1..], c) { HoldsLater(s, run, c); }
    }
  }

  lemma HoldsNow(s: State, run: seq<Action>, c: nat)
    requires c < |s.cores| && s.cores[c].place.Holding?
    ensures HoldsIn(s, run, c)
  {
    assert run[..0] == [] && Reaches(s, run[..0], s);
  }

  lemma {:induction false} SameCount(s: State, run: seq<Action>, t: State)
    requires Reaches(s, run, t)
    ensures |t.cores| == |s.cores|
    decreases |run|
  {
    if run != [] {
      StepCount(s, run[0]);
      SameCount(Step(s, run[0]), run[1..], t);
    }
  }

  lemma StepCount(s: State, a: Action)
    requires Enabled(s, a)
    ensures |Step(s, a).cores| == |s.cores|
  {
  }

  /** The step reads a word that is not zero for the core, or its store fails: the monitor
      is clear, or it fails for no reason. */
  predicate Refuses(s: State, a: Action, c: nat)
  {
    && a.Advance? && a.core == c < |s.cores|
    && ((s.cores[c].place.Loading? && s.word != 0) || (s.cores[c].place.Storing? && (!s.cores[c].monitor || a.fails)))
  }

  /** Some step of the run refuses the core. */
  ghost predicate RefusedIn(s: State, run: seq<Action>, c: nat)
  {
    exists i, u :: 0 <= i < |run| && Reaches(s, run[..i], u) && Refuses(u, run[i], c)
  }

  lemma RefusedLater(s: State, run: seq<Action>, c: nat)
    requires run != [] && Enabled(s, run[0]) && RefusedIn(Step(s, run[0]), run[1..], c)
    ensures RefusedIn(s, run, c)
  {
    hide Step, Enabled, Refuses;
    var i, u :| 0 <= i < |run| - 1 && Reaches(Step(s, run[0]), run[1..][..i], u) && Refuses(u, run[1..][i], c);
    assert run[..i + 1][0] == run[0] && run[..i + 1][1..] == run[1..][..i] && run[i + 1] == run[1..][i];
    assert Reaches(s, run[..i + 1], u);
  }

  lemma RefusedNow(s: State, run: seq<Action>, c: nat)
    requires run != [] && Refuses(s, run[0], c)
    ensures RefusedIn(s, run, c)
  {
    assert run[..0] == [] && Reaches(s, run[..0], s);
  }

  /** What a core inside try_lock has met that will make it return without the lock. */
  predicate Doomed(p: Place)
  {
    (p.Loaded? && p.value != 0) || (p.Stored? && p.status != 0)
  }

  /** A core inside try_lock stays inside or comes to hold the lock, or has been refused;
      it goes through each instruction once. */
  lemma TryStep(s: State, a: Action, c: nat)
    requires Enabled(s, a) && c < |s.cores| && InCall(s.cores[c].place, true)
    ensures var p, q := s.cores[c].place, Step(s, a).cores[c].place;
            && |Step(s, a).cores| == |s.cores|
            && (InCall(q, true) || q.Holding? || (q.Idle? && Doomed(p)))
            && (Doomed(q) ==> Doomed(p) || Refuses(s, a, c))
            && (if a.Advance? && a.core == c then Left(q) < Left(p) else q == p)
  {
  }

  /** How many more instructions try_lock can take. */
  function Left(p: Place): nat
  {
    match p
    case Loading(_) => 4
    case Loaded(_, _) => 3
    case Storing(_) => 2
    case Stored(_, _) => 1
    case _ => 0
  }

  /** Over every interleaving, a call of try_lock is left only through holding the lock or
      after reading a word that is not zero or a store that failed. */
  lemma {:induction false} TryReturnsRefused(s: State, run: seq<Action>, t: State, c: nat)
    requires Reaches(s, run, t) && c < |s.cores| && InCall(s.cores[c].place, true)
    ensures c < |t.cores|
    ensures InCall(t.cores[c].place, true) || HoldsIn(s, run, c) || RefusedIn(s, run, c) || Doomed(s.cores[c].place)
    decreases |run|
  {
    if run != [] {
      hide Step, Enabled, HoldsIn, RefusedIn, Refuses, Doomed;
      TryStep(s, run[0], c);
      var n := Step(s, run[0]);
      SameCount(n, run[1..], t);
      if InCall(n.cores[c].place, true) {
        TryReturnsRefused(n, run[1..], t, c);
        if Refuses(s, run[0], c) { RefusedNow(s, run, c); }
      } else if n.cores[c].place.Holding? {
        HoldsNow(n, run[1..], c);
      }
      if HoldsIn(n, run[1..], c) { HoldsLater(s, run, c); }
      if RefusedIn(n, run[1..], c) { RefusedLater(s, run, c); }
    }
  }

  /** Alone, either call takes a free lock, from its beginning. */
  lemma FreeLockTaken(s: State, c: nat, once: bool, t: State)
    requires s.word == 0
    requires var go := Advance(c, false); Reaches(s, [Begin(c, once), go, go, go, go], t)
    ensures t.word == 1 && c < |t.cores| && t.cores[c].place.Holding?
  {
    var go := Advance(c, false);
    var run := [Begin(c, once), go, go, go, go];
    assert run[0] == Begin(c, once) && run[1..] == [go, go, go, go];
    var s1 := Step(s, run[0]);
    FourSteps(s1, go, t);
  }

  lemma FourSteps(s: State, a: Action, t: State)
    requires Reaches(s, [a, a, a, a], t)
    ensures Enabled(s, a)
    ensures var s1 := Step(s, a);
            && Enabled(s1, a)
            && var s2 := Step(s1, a);
            && Enabled(s2, a)
            && var s3 := Step(s2, a);
            && Enabled(s3, a) && t == Step(s3, a)
  {
    hide Enabled, Step;
    assert [a, a, a, a][1..] == [a, a, a] && [a, a, a][1..] == [a, a] && [a, a][1..] == [a] && [a][1..] == [];
    var s1 := Step(s, a);
    assert Reaches(s1, [a, a, a], t);
    var s2 := Step(s1, a);
    assert Reaches(s2, [a, a], t);
    var s3 := Step(s2, a);
    assert Reaches(s3, [a], t);
    assert Reaches(Step(s3, a), [], t);
  }

  /** A call as it begins. */
  lemma BegunCalls(s: State, c: nat, once: bool)
    requires Enabled(s, Begin(c, once))
    ensures var p := Step(s, Begin(c, once)).cores[c].place; InCall(p, once) && !Doomed(p)
  {
  }
}
