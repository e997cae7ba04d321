/** The caching layers as the code lays them out: a cache for each core, bundles on two
    lists linked through the bundles themselves, and a poisoned link in every bundle
    that is on neither. Refines the steps of CoreCaches, as written. */
module CoreCacheAllocator {
  import opened Rings
  import opened CoreCaches
  import Slabs = SlabPool

  const POISON: int := 0xcccc_cccc_cccc_cccc

  function Top(l: seq<int>): int
  {
    if l == [] then 0 else l[|l| - 1]
  }

  /** The bundle below the i-th of a stack. */
  function Below(l: seq<int>, i: nat): int
    requires i < |l|
  {
    if i == 0 then 0 else l[i - 1]
  }

  predicate Link(next: map<int, int>, b: int, c: int)
  {
    b in next && next[b] == c
  }

  /** Each bundle of a stack links to the one below. */
  ghost predicate StackShows(next: map<int, int>, l: seq<int>)
  {
    && Distinct(l)
    && forall i | 0 <= i < |l| :: Link(next, l[i], Below(l, i)) && l[i] != 0 && l[i] != POISON
  }

  /** The links show both stacks, and every other bundle's link is poisoned. */
  ghost predicate LinksShow(next: map<int, int>, empty: seq<int>, full: seq<int>)
  {
    && StackShows(next, empty) && StackShows(next, full)
    && (forall b | b in empty :: b !in full)
    && forall b | b in next :: Link(next, b, POISON) <==> b !in empty && b !in full
  }

  lemma StackPushed(next: map<int, int>, l: seq<int>, b: int)
    requires StackShows(next, l) && b !in l && b != 0 && b != POISON
    ensures StackShows(next[b := Top(l)], l + [b])
  {
    var m, next' := l + [b], next[b := Top(l)];
    forall i | 0 <= i < |m|
      ensures Link(next', m[i], Below(m, i)) && m[i] != 0 && m[i] != POISON
    {
      if i < |l| { assert m[i] == l[i] && l[i] in l && Link(next, l[i], Below(l, i)); }
    }
  }

  lemma StackPopped(next: map<int, int>, l: seq<int>, x: int)
    requires StackShows(next, l) && l != []
    ensures var n := |l| - 1; Link(next, l[n], Top(l[..n])) && StackShows(next[l[n] := x], l[..n]) && l[n] !in l[..n]
  {
    var n := |l| - 1;
    assert Link(next, l[n], Below(l, n));
    forall i | 0 <= i < n
      ensures Link(next[l[n] := x], l[i], Below(l[..n], i)) && l[i] != 0 && l[i] != POISON
    {
      assert Link(next, l[i], Below(l, i)) && l[i] != l[n];
    }
  }

  lemma StackKept(next: map<int, int>, l: seq<int>, b: int, x: int)
    requires StackShows(next, l) && b !in l
    ensures StackShows(next[b := x], l)
  {
    forall i | 0 <= i < |l|
      ensures Link(next[b := x], l[i], Below(l, i))
    {
      assert l[i] in l && Link(next, l[i], Below(l, i));
    }
  }

  /** Pushing a bundle that is on neither list links it to the old top. */
  lemma PushShows(next: map<int, int>, l: seq<int>, other: seq<int>, b: int)
    requires (LinksShow(next, l, other) || LinksShow(next, other, l)) && b in next && b != 0 && b != POISON
    requires b !in l && b !in other
    ensures LinksShow(next[b := Top(l)], l + [b], other) && LinksShow(next[b := Top(l)], other, l + [b])
  {
    StackPushed(next, l, b);
    StackKept(next, other, b, Top(l));
    TopNotPoison(next, l);
    assert forall x :: x in l + [b] <==> x in l || x == b;
    forall x | x in next[b := Top(l)]
      ensures Link(next[b := Top(l)], x, POISON) <==> x !in l + [b] && x !in other
    {
      if x != b { assert Link(next, x, POISON) <==> x !in l && x !in other; }
    }
  }

  /** Popping the top bundle poisons its link. */
  lemma PopShows(next: map<int, int>, l: seq<int>, other: seq<int>)
    requires (LinksShow(next, l, other) || LinksShow(next, other, l)) && l != []
    ensures var n := |l| - 1;
            && Link(next, l[n], Top(l[..n])) && l[n] != 0
            && LinksShow(next[l[n] := POISON], l[..n], other) && LinksShow(next[l[n] := POISON], other, l[..n])
  {
    hide StackShows;
    var n := |l| - 1;
    StackPopped(next, l, POISON);
    assert l == l[..n] + [l[n]] && l[n] in l;
    StackTop(next, l);
    StackKept(next, other, l[n], POISON);
    var next' := next[l[n] := POISON];
    forall x | x in next'
      ensures Link(next', x, POISON) <==> x !in l[..n] && x !in other
    {
      if x != l[n] { assert Link(next, x, POISON) <==> x !in l && x !in other; }
    }
    assert forall b | b in l[..n] :: b in l;
  }

  lemma StackTop(next: map<int, int>, l: seq<int>)
    requires StackShows(next, l) && l != []
    ensures l[|l| - 1] != 0
  {
    assert Link(next, l[|l| - 1], Below(l, |l| - 1));
  }

  lemma NewShows(next: map<int, int>, empty: seq<int>, full: seq<int>, b: int)
    requires LinksShow(next, empty, full) && b !in next
    ensures LinksShow(next[b := POISON], empty, full) && b !in empty && b !in full
  {
    forall i | 0 <= i < |empty| ensures empty[i] != b { assert Link(next, empty[i], Below(empty, i)); }
    forall i | 0 <= i < |full| ensures full[i] != b { assert Link(next, full[i], Below(full, i)); }
    StackKept(next, empty, b, POISON);
    StackKept(next, full, b, POISON);
    forall x | x in next[b := POISON]
      ensures Link(next[b := POISON], x, POISON) <==> x !in empty && x !in full
    {
      if x != b { assert Link(next, x, POISON) <==> x !in empty && x !in full; }
    }
  }

  lemma TopNotPoison(next: map<int, int>, l: seq<int>)
    requires StackShows(next, l)
    ensures Top(l) != POISON && (Top(l) == 0 <==> l == [])
  {
    if l != [] { assert Link(next, l[|l| - 1], Below(l, |l| - 1)); }
  }

  /** Every bundle a core or a list refers to is a bundle, at a proper address. */
  ghost predicate Known(s: State, next: map<int, int>)
  {
    && next.Keys == s.slots.Keys
    && (forall b | b in s.slots :: b != 0 && b != POISON && |s.slots[b]| == BUNDLE_SIZE)
    && (forall c | 0 <= c < |s.cores| :: KnownCache(s.slots, s.cores[c].cache))
  }

  ghost predicate KnownCache(slots: map<int, seq<int>>, k: Cache)
  {
    && (k.current != 0 ==> k.current in slots) && (k.standby != 0 ==> k.standby in slots)
    && k.currCount <= BUNDLE_SIZE && k.stbyCount <= BUNDLE_SIZE
  }

  ghost predicate CachesShow(cache: seq<Cache>, cores: seq<Core>)
  {
    |cache| == |cores| && forall c | 0 <= c < |cache| :: cache[c] == cores[c].cache
  }

  /** A core's change of cache keeps what is known. */
  lemma KnownSet(s: State, next: map<int, int>, c: nat, k: Cache, task: Task)
    requires Known(s, next) && c < |s.cores| && KnownCache(s.slots, k)
    ensures Known(SetCore(s, c, k, task), next)
  {
  }

  lemma CachesSet(cache: seq<Cache>, cores: seq<Core>, c: nat, k: Cache, task: Task)
    requires CachesShow(cache, cores) && c < |cores|
    ensures CachesShow(cache[c := k], cores[c := Core(k, task)])
  {
  }

  class SlabAllocator {
    var cache: seq<Cache>
    var empty: int
    var full: int
    var slots: map<int, seq<int>>
    var next: map<int, int>

    ghost var s: State

    ghost predicate Valid()
      reads this
    {
      && CachesShow(cache, s.cores) && slots == s.slots && empty == Top(s.empty) && full == Top(s.full)
      && LinksShow(next, s.empty, s.full) && Known(s, next)
    }

    constructor (cores: nat, ghost pool: Slabs.State)
      ensures Valid() && |s.cores| == cores && s.empty == [] && s.full == [] && s.held == {} && s.pool == pool
      ensures s.slots == map[]
      ensures forall c | 0 <= c < cores :: s.cores[c] == Core(NO_CACHE, Idle)
    {
      cache := seq(cores, _ => NO_CACHE);
      empty, full := 0, 0;
      slots, next := map[], map[];
      s := State(seq(cores, _ => Core(NO_CACHE, Idle)), [], [], map[], pool, {});
    }

    /** Pushes a bundle on a list, unless it is null; false if its link is not poisoned. */
    method ReturnBundle(b: int, list: int, ghost l: seq<int>, ghost other: seq<int>) returns (ok: bool, list': int)
      requires LinksShow(next, l, other) || LinksShow(next, other, l)
      requires list == Top(l) && (b != 0 ==> b in next && b != POISON)
      modifies this`next
      ensures ok <==> b == 0 || (b !in l && b !in other)
      ensures ok ==>
                var m := if b == 0 then l else l + [b];
                && list' == Top(m) && next.Keys == old(next).Keys
                && (old(LinksShow(next, l, other)) ==> LinksShow(next, m, other))
                && (old(LinksShow(next, other, l)) ==> LinksShow(next, other, m))
      ensures !ok ==> next == old(next)
    {
      hide StackShows;
      if b == 0 {
        return true, list;
      }
      assert Link(next, b, POISON) <==> b !in l && b !in other;
      if next[b] != POISON {
        return false, list;
      }
      PushShows(next, l, other, b);
      next := next[b := list];
      return true, b;
    }

    /** Pops the bundle on top of a list and poisons its link. */
    method PopBundle(list: int, ghost l: seq<int>, ghost other: seq<int>) returns (list': int)
      requires LinksShow(next, l, other) || LinksShow(next, other, l)
      requires list == Top(l) && l != []
      modifies this`next
      ensures list' == Top(l[..|l| - 1]) && next.Keys == old(next).Keys && list != 0
      ensures old(LinksShow(next, l, other)) ==> LinksShow(next, l[..|l| - 1], other)
      ensures old(LinksShow(next, other, l)) ==> LinksShow(next, other, l[..|l| - 1])
    {
      hide StackShows, LinksShow;
      PopShows(next, l, other);
      list' := next[list];
      next := next[list := POISON];
    }

    /** Allocates an empty bundle, taking the given one if there is none. */
    method AllocEmptyBundle(given: Option<NewBundle>) returns (b: int)
      requires Valid() && Unused(s, given) && (given.Some? ==> given.value.addr != POISON)
      modifies this`empty, this`next, this`slots, this`s
      ensures Valid() && Got(s, b) == AllocEmpty(old(s), given) && (b != 0 ==> b in slots)
    {
      hide StackShows, LinksShow, KnownCache;
      HeadsTell(next, s);
      if empty == 0 && given.Some? {
        NewShows(next, s.empty, s.full, given.value.addr);
        NewKnown(s, next, given.value);
        slots := slots[given.value.addr := given.value.slots];
        next := next[given.value.addr := POISON];
        s := s.(slots := slots);
        return given.value.addr;
      }
      if empty == 0 {
        return 0;
      }
      b := empty;
      empty := PopBundle(empty, s.empty, s.full);
      s := s.(empty := s.empty[..|s.empty| - 1]);
    }

    /** Exchanges an empty bundle for the top full one; null if there is no full one.
        False if the bundle given back is on a list. */
    method ExchangeEmptyBundle(b: int) returns (ok: bool, r: int)
      requires Valid() && (b != 0 ==> b in slots)
      modifies this`empty, this`full, this`next, this`s
      ensures old(s).full == [] ==> ok && r == 0 && s == old(s) && Valid()
      ensures old(s).full != [] ==> (ok <==> ReturnEmpty(old(s), b).Some?)
      ensures old(s).full != [] && ok ==>
                && Valid() && r == Top(old(s).full) && r != 0 && r in slots
                && s == ReturnEmpty(old(s), b).value.(full := old(s).full[..|old(s).full| - 1])
    {
      hide StackShows, LinksShow, KnownCache;
      HeadsTell(next, s);
      r := 0;
      if full == 0 {
        return true, 0;
      }
      ghost var m := if b == 0 then s.empty else s.empty + [b];
      ok, empty := ReturnBundle(b, empty, s.empty, s.full);
      if ok {
        r := full;
        full := PopBundle(full, s.full, m);
        s := s.(empty := m, full := s.full[..|s.full| - 1]);
      }
    }

    /** Exchanges a full bundle for an empty one; null if there is none. */
    method ExchangeFullBundle(b: int, given: Option<NewBundle>) returns (ok: bool, r: int)
      requires Valid() && (b != 0 ==> b in slots) && Unused(s, given) && (given.Some? ==> given.value.addr != POISON)
      modifies this`empty, this`full, this`next, this`slots, this`s
      ensures ok <==> ReturnFull(old(s), b).Some?
      ensures ok ==> Valid() && Got(s, r) == AllocEmpty(ReturnFull(old(s), b).value, given) && (r != 0 ==> r in slots)
    {
      hide StackShows, LinksShow, KnownCache;
      r := 0;
      ok, full := ReturnBundle(b, full, s.full, s.empty);
      if ok {
        s := ReturnFull(s, b).value;
        r := AllocEmptyBundle(given);
      }
    }

    /** Writes a core's cache, and who holds what. */
    method SetCache(c: nat, k: Cache, ghost task: Task, ghost held: set<int>)
      requires Valid() && c < |cache| && KnownCache(slots, k)
      modifies this`cache, this`s
      ensures Valid() && s == SetCore(old(s), c, k, task).(held := held)
    {
      hide StackShows, LinksShow, KnownCache, Known;
      KnownSet(s, next, c, k, task);
      CachesSet(cache, s.cores, c, k, task);
      cache := cache[c := k];
      ghost var t := SetCore(s, c, k, task);
      SameKnown(t, t.(held := held), next);
      s := t.(held := held);
    }

    /** Records a step that is not about bundles. */
    ghost method Settle(t: State)
      requires Valid() && t.slots == s.slots && t.empty == s.empty && t.full == s.full && |t.cores| == |s.cores|
      requires forall d | 0 <= d < |s.cores| :: t.cores[d].cache == s.cores[d].cache
      modifies this`s
      ensures Valid() && s == t
    {
      hide StackShows, LinksShow;
      s := t;
    }

    lemma KnownCores()
      requires Valid()
      ensures |cache| == |s.cores|
    {
      hide StackShows, LinksShow, Known;
    }

    lemma KnownAt(c: nat)
      requires Valid() && c < |cache|
      ensures c < |s.cores| && cache[c] == s.cores[c].cache && KnownCache(slots, cache[c])
      ensures 0 !in slots && forall b | b in slots :: |slots[b]| == BUNDLE_SIZE
    {
      hide LinksShow;
    }

    /** Pops the core's current bundle; false if it has none. */
    method AllocFromCache(c: nat) returns (ok: bool, o: int)
      requires Valid() && c < |cache| && cache[c].currCount > 0
      modifies this`cache, this`s
      ensures PopCurrent(old(s), c) == if ok then Some(Outcome(s, Some(o))) else None
      ensures ok ==> Valid()
    {
      hide LinksShow, Known, StackShows;
      KnownAt(c);
      var k := cache[c];
      if k.current == 0 || k.current !in slots {
        return false, 0;
      }
      o := slots[k.current][k.currCount - 1];
      PopKnown(s, next, c);
      SetCache(c, k.(currCount := k.currCount - 1), Idle, s.held + {o});
      ok := true;
    }

    /** Pushes an object on the core's current bundle, which has room. */
    method ReleaseToCache(c: nat, o: int)
      requires Valid() && c < |cache| && Room(cache[c])
      modifies this`cache, this`slots, this`s
      ensures PushCurrent(old(s), c, o) == Some(Outcome(s, None)) && Valid()
      ensures |s.cores| == |old(s).cores| && s.cores[c].task == Idle
    {
      hide LinksShow, Known, StackShows;
      KnownAt(c);
      var k := cache[c];
      assert PushCurrent(s, c, o).Some?;
      PushKnown(s, next, c, o);
      CachesSet(cache, s.cores, c, k.(currCount := k.currCount + 1), Idle);
      slots := slots[k.current := slots[k.current][k.currCount := o]];
      cache := cache[c := k.(currCount := k.currCount + 1)];
      s := PushCurrent(s, c, o).value.state;
    }

    /** Swaps the core's two bundles. */
    method SwapCacheBundles(c: nat, ghost task: Task)
      requires Valid() && c < |cache|
      modifies this`cache, this`s
      ensures Valid() && s == SetCore(old(s), c, Swap(old(s).cores[c].cache), task)
    {
      hide LinksShow, Known, StackShows;
      KnownAt(c);
      var k := cache[c];
      SetCache(c, Cache(k.standby, k.stbyCount, k.current, k.currCount), task, s.held);
    }

    /** Takes an object from the core's bundles, or from a full bundle exchanged for one
        of its own. False if the kernel panicked. */
    method Take(c: nat) returns (ok: bool, r: Option<int>)
      requires Valid() && c < |cache|
      modifies this
      ensures TakeStep(AsWritten, old(s), c) == if ok then Some(Outcome(s, r)) else None
      ensures ok ==> Valid()
    {
      hide LinksShow, Known, StackShows, PopCurrent;
      KnownAt(c);
      r := None;
      var o;
      if cache[c].currCount > 0 {
        ok, o := AllocFromCache(c);
        return ok, Some(o);
      }
      if cache[c].stbyCount > 0 {
        SwapCacheBundles(c, Taking);
        ok, o := AllocFromCache(c);
        return ok, Some(o);
      }
      ghost var s0 := s;
      var b;
      ok, b := ExchangeEmptyBundle(cache[c].current);
      if !ok {
        return false, None;
      }
      KnownAt(c);
      if b != 0 {
        ghost var l := s;
        SetCache(c, cache[c].(standby := b, stbyCount := BUNDLE_SIZE), Taking, s.held);
        SwapCacheBundles(c, Taking);
        SetTwice(l, c, s0.cores[c].cache.(standby := b, stbyCount := BUNDLE_SIZE), Taking, s.cores[c].cache, Taking);
        assert ExchangeForFull(AsWritten, s0, c) == Some(s);
        ok, o := AllocFromCache(c);
        return ok, Some(o);
      }
      SetCache(c, cache[c], TakingFromSlab, s.held);
    }

    /** Puts an object in one of the core's bundles, or in an empty bundle exchanged for
        its full standby; false for done if it has to go to its slab. */
    method Put(c: nat, o: int, given: Option<NewBundle>) returns (ok: bool, done: bool)
      requires Valid() && c < |cache| && Unused(s, given) && (given.Some? ==> given.value.addr != POISON)
      modifies this
      ensures PutStep(AsWritten, old(s), c, o, given) == if ok then Some(Outcome(s, None)) else None
      ensures ok ==> Valid() && |s.cores| == |old(s).cores|
      ensures ok ==> s.cores[c].task == if done then Idle else PuttingOnSlab(o)
    {
      hide LinksShow, Known, StackShows, PushCurrent, ExchangeForEmpty;
      KnownAt(c);
      ghost var task := s.cores[c].task;
      if cache[c].currCount < BUNDLE_SIZE && cache[c].current != 0 {
        ReleaseToCache(c, o);
        return true, true;
      }
      if cache[c].stbyCount < BUNDLE_SIZE && cache[c].standby != 0 {
        SwapCacheBundles(c, task);
        ReleaseToCache(c, o);
        return true, true;
      }
      ok := ExchangeStandby(c, given);
      if !ok {
        return false, false;
      }
      if cache[c].current != 0 && cache[c].currCount < BUNDLE_SIZE {
        ReleaseToCache(c, o);
        return true, true;
      }
      KnownAt(c);
      SetCache(c, cache[c], PuttingOnSlab(o), s.held);
      done := false;
    }

    /** Exchanges the core's full standby bundle for an empty one, and swaps. */
    method ExchangeStandby(c: nat, given: Option<NewBundle>) returns (ok: bool)
      requires Valid() && c < |cache| && Unused(s, given) && (given.Some? ==> given.value.addr != POISON)
      modifies this
      ensures ExchangeForEmpty(AsWritten, old(s), c, given) == if ok then Some(s) else None
      ensures ok ==> Valid() && |s.cores| == |old(s).cores|
    {
      hide LinksShow, Known, StackShows, AllocEmpty;
      KnownAt(c);
      ghost var s0, task := s, s.cores[c].task;
      var b;
      ok, b := ExchangeFullBundle(cache[c].standby, given);
      if ok && b != 0 {
        KnownAt(c);
        ghost var l := s;
        SetCache(c, cache[c].(standby := b, stbyCount := 0), task, s.held);
        SwapCacheBundles(c, task);
        SetTwice(l, c, s0.cores[c].cache.(standby := b, stbyCount := 0), task, s.cores[c].cache, task);
      }
    }

    /** Gives the core a current bundle, if it has none. */
    method FillCurrent(c: nat, given: Option<NewBundle>)
      requires Valid() && c < |cache| && Unused(s, given) && (given.Some? ==> given.value.addr != POISON)
      modifies this
      ensures Valid() && s == FillCurrentStep(old(s), c, given)
    {
      hide LinksShow, Known, StackShows, AllocEmpty;
      KnownAt(c);
      var b := cache[c].current;
      if b == 0 {
        b := AllocEmptyBundle(given);
        KnownAt(c);
      }
      SetCache(c, cache[c].(current := b), FillingStandby, s.held);
    }

    /** Gives the core a standby bundle, if it has none. */
    method FillStandby(c: nat, given: Option<NewBundle>)
      requires Valid() && c < |cache| && Unused(s, given) && (given.Some? ==> given.value.addr != POISON)
      modifies this
      ensures Valid() && s == FillStandbyStep(old(s), c, given)
    {
      hide LinksShow, Known, StackShows, AllocEmpty;
      KnownAt(c);
      var b := cache[c].standby;
      if b == 0 {
        b := AllocEmptyBundle(given);
        KnownAt(c);
      }
      SetCache(c, cache[c].(standby := b), Taking, s.held);
    }

    /** A whole allocation by one core, up to asking the slabs: given are the bundles
        the slabs of bundles give if asked. */
    method AllocInternal(c: nat, current: Option<NewBundle>, standby: Option<NewBundle>)
      returns (ok: bool, r: Option<int>)
      requires Valid() && c < |cache| && Unused(s, current) && Unused(FillCurrentStep(s, c, current), standby)
      requires (current.Some? ==> current.value.addr != POISON) && (standby.Some? ==> standby.value.addr != POISON)
      modifies this
      ensures TakeStep(AsWritten, FillStandbyStep(FillCurrentStep(old(s), c, current), c, standby), c)
              == if ok then Some(Outcome(s, r)) else None
      ensures ok ==> Valid()
    {
      hide LinksShow, Known, StackShows, TakeStep, AllocEmpty;
      FillCurrent(c, current);
      FillStandby(c, standby);
      ok, r := Take(c);
    }
  }

  lemma SetTwice(s: State, c: nat, k: Cache, t: Task, k': Cache, t': Task)
    requires c < |s.cores|
    ensures SetCore(SetCore(s, c, k, t), c, k', t') == SetCore(s, c, k', t')
  {
    assert SetCore(SetCore(s, c, k, t), c, k', t').cores == SetCore(s, c, k', t').cores;
  }


  lemma SameKnown(s: State, t: State, next: map<int, int>)
    requires Known(s, next) && t.slots == s.slots && t.cores == s.cores
    ensures Known(t, next)
  {
  }

  lemma PushKnown(s: State, next: map<int, int>, c: nat, o: int)
    requires Known(s, next) && c < |s.cores| && Room(s.cores[c].cache) && PushCurrent(s, c, o).Some?
    ensures Known(PushCurrent(s, c, o).value.state, next)
  {
    var k, t := s.cores[c].cache, PushCurrent(s, c, o).value.state;
    assert t.slots.Keys == s.slots.Keys;
  }

  lemma PopKnown(s: State, next: map<int, int>, c: nat)
    requires Known(s, next) && c < |s.cores| && s.cores[c].cache.currCount > 0
    ensures KnownCache(s.slots, s.cores[c].cache.(currCount := s.cores[c].cache.currCount - 1))
  {
  }


  lemma HeadsTell(next: map<int, int>, s: State)
    requires LinksShow(next, s.empty, s.full)
    ensures Top(s.empty) == 0 <==> s.empty == []
    ensures Top(s.full) == 0 <==> s.full == []
    ensures s.empty != [] ==> Top(s.empty) in next
    ensures s.full != [] ==> Top(s.full) in next
  {
    TopNotPoison(next, s.empty);
    TopNotPoison(next, s.full);
    if s.empty != [] { assert Link(next, Top(s.empty), Below(s.empty, |s.empty| - 1)); }
    if s.full != [] { assert Link(next, Top(s.full), Below(s.full, |s.full| - 1)); }
  }

  lemma NewKnown(s: State, next: map<int, int>, b: NewBundle)
    requires Known(s, next) && b.addr != 0 && b.addr != POISON && |b.slots| == BUNDLE_SIZE && b.addr !in s.slots
    ensures Known(s.(slots := s.slots[b.addr := b.slots]), next[b.addr := POISON])
  {
  }
}
