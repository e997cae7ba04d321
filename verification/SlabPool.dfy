/** The slab layer as values: slabs of equal objects on three lists, what allocating
    and freeing an object do to them, and what every run keeps. A slab is named by
    the address of its node, which follows its objects. */
module SlabPool {
  import opened Words
  import opened Rings

  /** Slabs are 2^shift bytes; the node sits nodeOffset bytes in, after the objects. */
  datatype Geometry = Geometry(shift: nat, objSize: nat, objs: nat, nodeOffset: nat)

  ghost predicate Proper(g: Geometry)
  {
    && g.objs > 0 && g.objSize > 0
    && ObjAddr(g, 0, g.objs) <= g.nodeOffset < Pow2(g.shift)
  }

  /** The i-th object of the slab at the given base. */
  function ObjAddr(g: Geometry, base: int, i: nat): int
  {
    if i == 0 then base else ObjAddr(g, base, i - 1) + g.objSize
  }

  /** The first n objects, last first: the order in which a new slab lists them. */
  function Objects(g: Geometry, base: int, n: nat): seq<int>
  {
    if n == 0 then [] else [ObjAddr(g, base, n - 1)] + Objects(g, base, n - 1)
  }

  function Base(g: Geometry, node: int): int { node - g.nodeOffset }

  /** The slab an object belongs to: its address rounded down to the slab size. */
  function NodeOf(g: Geometry, obj: int): int { AlignDown(obj, g.shift) + g.nodeOffset }

  ghost predicate IsSlab(g: Geometry, node: int)
  {
    Multiple(Base(g, node), g.shift) && Base(g, node) > 0
  }

  ghost predicate IsObject(g: Geometry, node: int, obj: int)
  {
    obj in Objects(g, Base(g, node), g.objs)
  }

  lemma {:induction false} ObjectFacts(g: Geometry, base: int, n: nat)
    requires g.objSize > 0
    ensures |Objects(g, base, n)| == n && Distinct(Objects(g, base, n))
    ensures forall o | o in Objects(g, base, n) :: base <= o < ObjAddr(g, base, n)
    ensures ObjAddr(g, base, n) == base + ObjAddr(g, 0, n)
    ensures n > 0 ==> ObjAddr(g, base, n) > base
  {
    if n > 0 {
      ObjectFacts(g, base, n - 1);
      DistinctCons(ObjAddr(g, base, n - 1), Objects(g, base, n - 1));
    }
  }

  lemma DistinctCons(x: int, s: seq<int>)
    requires x !in s && Distinct(s)
    ensures Distinct([x] + s)
  {
    assert forall i | 0 <= i < |s| :: s[i] in s;
  }

  lemma {:induction false} AlignDownIs(x: int, y: int, l: nat)
    requires Multiple(x, l) && x <= y < x + Pow2(l)
    ensures AlignDown(y, l) == x
    decreases l
  {
    if l > 0 { AlignDownIs(x / 2, y / 2, l - 1); }
  }

  /** Rounding an object's address down finds its own slab's node, and no other. */
  lemma ObjectNode(g: Geometry, node: int, obj: int)
    requires Proper(g) && IsSlab(g, node) && IsObject(g, node, obj)
    ensures NodeOf(g, obj) == node && 0 < Base(g, node) <= obj < node
  {
    ObjectFacts(g, Base(g, node), g.objs);
    AlignDownIs(Base(g, node), obj, g.shift);
  }

  /** The memory of two objects does not overlap. */
  predicate ObjectsApart(g: Geometry, o: int, p: int)
  {
    o + g.objSize <= p || p + g.objSize <= o
  }

  lemma {:induction false} ObjectsOfOne(g: Geometry, base: int, n: nat, o: int, p: int)
    requires g.objSize > 0 && o in Objects(g, base, n) && p in Objects(g, base, n)
    ensures base <= o && o + g.objSize <= ObjAddr(g, base, n)
    ensures o != p ==> ObjectsApart(g, o, p)
  {
    var last := ObjAddr(g, base, n - 1);
    ObjectFacts(g, base, n - 1);
    if o != last { ObjectsOfOne(g, base, n - 1, o, o); }
    if p != last { ObjectsOfOne(g, base, n - 1, p, p); }
    if o != last && p != last { ObjectsOfOne(g, base, n - 1, o, p); }
  }

  /** Different objects, of one slab or of two, do not overlap, and none reaches its slab's
      node. */
  lemma DifferentObjectsApart(g: Geometry, a: int, b: int, o: int, p: int)
    requires Proper(g) && IsSlab(g, a) && IsSlab(g, b) && IsObject(g, a, o) && IsObject(g, b, p)
    ensures Base(g, a) <= o && o + g.objSize <= a
    ensures o != p ==> ObjectsApart(g, o, p)
  {
    hide Multiple, Objects, ObjAddr;
    ObjectFacts(g, Base(g, a), g.objs);
    ObjectFacts(g, Base(g, b), g.objs);
    ObjectsOfOne(g, Base(g, a), g.objs, o, o);
    ObjectsOfOne(g, Base(g, b), g.objs, p, p);
    if a == b {
      ObjectsOfOne(g, Base(g, a), g.objs, o, p);
    } else if a < b {
      MultipleGap(Base(g, a), Base(g, b), g.shift);
    } else {
      MultipleGap(Base(g, b), Base(g, a), g.shift);
    }
  }

  // --------------------------------------------------------------------- state

  /** The three lists, each slab's free list, and the objects handed out. */
  datatype State = State(unused: seq<int>, inUse: seq<int>, empty: seq<int>, free: map<int, seq<int>>, live: set<int>)

  const START := State([], [], [], map[], {})

  /** Which list a slab with n available objects belongs on, given that each list
      holds distinct slabs. */
  ghost predicate Sorted(g: Geometry, s: State)
  {
    && Distinct(s.unused) && Distinct(s.inUse) && Distinct(s.empty)
    && (forall a :: a in s.free <==> a in s.unused || a in s.inUse || a in s.empty)
    && (forall a | a in s.free ::
          && (a in s.unused <==> |s.free[a]| == g.objs)
          && (a in s.inUse <==> 0 < |s.free[a]| < g.objs)
          && (a in s.empty <==> |s.free[a]| == 0))
  }

  /** Each slab's objects are divided between its free list and the callers. */
  ghost predicate Divided(g: Geometry, s: State)
  {
    && (forall a | a in s.free :: IsSlab(g, a) && SlabDivided(g, a, s.free[a], s.live))
    && (forall o | o in s.live :: NodeOf(g, o) in s.free && IsObject(g, NodeOf(g, o), o))
  }

  ghost predicate SlabDivided(g: Geometry, a: int, free: seq<int>, live: set<int>)
  {
    Distinct(free) && forall o :: o in free <==> IsObject(g, a, o) && o !in live
  }

  ghost predicate Safe(g: Geometry, s: State)
  {
    Proper(g) && Sorted(g, s) && Divided(g, s)
  }

  // --------------------------------------------------------------------- steps

  /** The first unused slab becomes the in-use list when that is empty. */
  function Promote(s: State): State
  {
    if s.inUse == [] && s.unused != [] then s.(unused := s.unused[1..], inUse := [s.unused[0]]) else s
  }

  /** A slab from the page allocator, if one is needed and given. */
  function Grow(g: Geometry, s: State, given: Option<int>): State
  {
    if s.inUse == [] && given.Some? then
      s.(inUse := [given.value], free := s.free[given.value := Objects(g, Base(g, given.value), g.objs)])
    else s
  }

  datatype Reply = Reply(state: State, obj: Option<int>)

  /** Hands out the first free object of the first slab in use. */
  function Take(s: State): Reply
    requires s.inUse != [] ==> s.inUse[0] in s.free && s.free[s.inUse[0]] != []
  {
    if s.inUse == [] then Reply(s, None)
    else
      var a := s.inUse[0];
      var o, rest := s.free[a][0], s.free[a][1..];
      var t := s.(free := s.free[a := rest], live := s.live + {o});
      Reply(if rest == [] then t.(inUse := s.inUse[1..], empty := s.empty + [a]) else t, Some(o))
  }

  function Ready(g: Geometry, s: State, given: Option<int>): State
  {
    Grow(g, Promote(s), given)
  }

  function IndexOf(s: seq<int>, x: int): (i: nat)
    requires x in s
    ensures i < |s| && s[i] == x
  {
    if s[0] == x then 0 else 1 + IndexOf(s[1..], x)
  }

  function Drop(s: seq<int>, x: int): seq<int>
  {
    if x in s then Without(s, IndexOf(s, x)) else s
  }

  /** A slab without free objects goes back to the in-use list. */
  function Reopen(s: State, a: int): State
    requires a in s.free
  {
    if s.free[a] == [] then s.(empty := Drop(s.empty, a), inUse := s.inUse + [a]) else s
  }

  function PutBack(s: State, a: int, o: int): State
    requires a in s.free
  {
    s.(free := s.free[a := [o] + s.free[a]], live := s.live - {o})
  }

  /** A slab with all its objects free goes to the unused list. */
  function Retire(g: Geometry, s: State, a: int): State
    requires a in s.free
  {
    if |s.free[a]| == g.objs then s.(inUse := Drop(s.inUse, a), unused := s.unused + [a]) else s
  }

  /** Puts object o back on slab a, or panics (None): on a full slab, or when the
      object does not carry the poison of an object handed out. */
  function Give(g: Geometry, s: State, a: int, o: int): Option<State>
    requires a in s.free
  {
    if |s.free[a]| >= g.objs || o !in s.live then None
    else Some(Retire(g, PutBack(Reopen(s, a), a, o), a))
  }

  // -------------------------------------------------------------------- safety

  /** A slab the page allocator may give: aligned and not in use here. */
  ghost predicate Fresh(g: Geometry, s: State, given: Option<int>)
  {
    given.Some? ==> IsSlab(g, given.value) && given.value !in s.free
  }

  /** No two objects handed out overlap, and each ends before the node of its slab. */
  ghost predicate LiveApart(g: Geometry, live: set<int>)
  {
    && (forall o, p | o in live && p in live && o != p :: ObjectsApart(g, o, p))
    && (forall o | o in live :: Base(g, NodeOf(g, o)) <= o && o + g.objSize <= NodeOf(g, o))
  }

  lemma SafeApart(g: Geometry, s: State)
    requires Safe(g, s)
    ensures LiveApart(g, s.live)
  {
    hide NodeOf, IsObject, IsSlab, SlabDivided, ObjectsApart;
    forall o, p | o in s.live && p in s.live
      ensures Base(g, NodeOf(g, o)) <= o && o + g.objSize <= NodeOf(g, o)
      ensures o != p ==> ObjectsApart(g, o, p)
    {
      DifferentObjectsApart(g, NodeOf(g, o), NodeOf(g, p), o, p);
    }
  }

  /** Some slab has an object to hand out. */
  ghost predicate SomeFree(s: State)
  {
    exists a :: a in s.free && s.free[a] != []
  }

  lemma SomeFreeIff(g: Geometry, s: State)
    requires Sorted(g, s) && g.objs > 0
    ensures SomeFree(s) <==> s.inUse != [] || s.unused != []
  {
    if s.inUse != [] || s.unused != [] {
      var a := if s.inUse != [] then s.inUse[0] else s.unused[0];
      assert a in s.inUse || a in s.unused;
      assert a in s.free <==> a in s.unused || a in s.inUse || a in s.empty;
    }
  }

  /** Between promotion or growth and the allocation itself, the only slab in use may
      still have every object available. */
  ghost predicate Sorting(g: Geometry, s: State)
  {
    && Distinct(s.unused) && Distinct(s.inUse) && Distinct(s.empty)
    && (forall a :: a in s.free <==> a in s.unused || a in s.inUse || a in s.empty)
    && (forall a | a in s.unused :: |s.free[a]| == g.objs && a !in s.inUse)
    && (forall a | a in s.inUse :: 0 < |s.free[a]| <= g.objs && (|s.free[a]| == g.objs ==> |s.inUse| == 1))
    && (forall a | a in s.empty :: |s.free[a]| == 0)
  }

  lemma ReadySafe(g: Geometry, s: State, given: Option<int>)
    requires Safe(g, s) && Fresh(g, s, given)
    ensures var t := Ready(g, s, given);
            && Sorting(g, t) && Divided(g, t) && t.live == s.live
            && (t.inUse == [] <==> s.inUse == [] && s.unused == [] && given.None?)
            && s.free.Keys <= t.free.Keys
  {
    var p := Promote(s);
    PromoteSorting(g, s);
    if p.inUse == [] && given.Some? {
      var a := given.value;
      ObjectFacts(g, Base(g, a), g.objs);
      forall o | IsObject(g, a, o) ensures o !in s.live { ObjectNode(g, a, o); }
    }
  }

  lemma PromoteSorting(g: Geometry, s: State)
    requires Safe(g, s)
    ensures Sorting(g, Promote(s)) && Divided(g, Promote(s))
  {
    if s.inUse == [] && s.unused != [] {
      assert s.unused == [s.unused[0]] + s.unused[1..];
    }
  }

  /** An allocation hands out an object that was not handed out, of some slab, and
      nothing else changes hands; it fails exactly when no slab has an object left
      and the page allocator gives none. The objects handed out never overlap. A slab in
      use serves before an unused one, and a slab is taken from the page allocator only
      when no other has an object. */
  lemma TakeSafe(g: Geometry, s: State, given: Option<int>)
    requires Safe(g, s) && Fresh(g, s, given)
    ensures var t := Ready(g, s, given);
            && (t.inUse != [] ==> t.inUse[0] in t.free && t.free[t.inUse[0]] != [])
            && var r := Take(t);
            && Safe(g, r.state)
            && (r.obj.None? <==> s.inUse == [] && s.unused == [] && given.None?)
            && (r.obj.None? <==> !SomeFree(s) && given.None?)
            && (r.obj.None? ==> r.state == s)
            && (r.obj.Some? ==>
                  var o := r.obj.value;
                  && o !in s.live && r.state.live == s.live + {o}
                  && NodeOf(g, o) in r.state.free && IsObject(g, NodeOf(g, o), o)
                  && (SomeFree(s) ==> r.state.free.Keys == s.free.Keys)
                  && (s.inUse != [] ==> NodeOf(g, o) == s.inUse[0])
                  && (s.inUse == [] && s.unused != [] ==> NodeOf(g, o) == s.unused[0])
                  && (forall a | a in s.free && a != NodeOf(g, o) ::
                        a in r.state.free && r.state.free[a] == s.free[a]))
            && LiveApart(g, r.state.live)
  {
    SomeFreeIff(g, s);
    TakeMeans(g, s, given);
    SafeApart(g, Take(Ready(g, s, given)).state);
  }

  lemma TakeMeans(g: Geometry, s: State, given: Option<int>)
    requires Safe(g, s) && Fresh(g, s, given)
    ensures var t := Ready(g, s, given);
            && (t.inUse != [] ==> t.inUse[0] in t.free && t.free[t.inUse[0]] != [])
            && var r := Take(t);
            && Safe(g, r.state)
            && (r.obj.None? <==> s.inUse == [] && s.unused == [] && given.None?)
            && (r.obj.None? ==> r.state == s)
            && (r.obj.Some? ==>
                  var o := r.obj.value;
                  && o !in s.live && r.state.live == s.live + {o}
                  && NodeOf(g, o) in r.state.free && IsObject(g, NodeOf(g, o), o)
                  && (s.inUse != [] || s.unused != [] ==> r.state.free.Keys == s.free.Keys)
                  && (s.inUse != [] ==> NodeOf(g, o) == s.inUse[0])
                  && (s.inUse == [] && s.unused != [] ==> NodeOf(g, o) == s.unused[0])
                  && (forall a | a in s.free && a != NodeOf(g, o) ::
                        a in r.state.free && r.state.free[a] == s.free[a]))
  {
    hide Ready, Sorted, NodeOf, IsObject, IsSlab, SlabDivided;
    ReadySafe(g, s, given);
    ReadyPlaces(g, s, given);
    var t := Ready(g, s, given);
    if t.inUse != [] {
      FirstObject(g, t);
      TakenSorted(g, t);
      TakenDivided(g, t);
    }
  }

  /** Which slab is first in use when the allocation comes to it. */
  lemma ReadyPlaces(g: Geometry, s: State, given: Option<int>)
    requires Safe(g, s) && Fresh(g, s, given)
    ensures var t := Ready(g, s, given);
            && (s.inUse != [] ==> t == s)
            && (s.inUse == [] && s.unused != [] ==> t.free == s.free && t.inUse == [s.unused[0]])
            && (t.inUse == [] ==> t == s)
            && (forall a | a in s.free :: a in t.free && t.free[a] == s.free[a])
            && (forall a | a in t.free :: |t.free[a]| <= g.objs)
  {
    hide SlabDivided, IsSlab, NodeOf, IsObject;
    if s.inUse == [] && s.unused == [] && given.Some? { ObjectFacts(g, Base(g, given.value), g.objs); }
  }

  /** The object handed out is the first slab's, and was not handed out. */
  lemma FirstObject(g: Geometry, t: State)
    requires Proper(g) && Sorting(g, t) && Divided(g, t) && t.inUse != []
    ensures var a := t.inUse[0];
            && a in t.free && t.free[a] != [] && t.free[a][0] !in t.live
            && NodeOf(g, t.free[a][0]) == a && IsObject(g, a, t.free[a][0])
  {
    var a := t.inUse[0];
    assert a in t.inUse;
    assert t.free[a][0] in t.free[a] && SlabDivided(g, a, t.free[a], t.live);
    ObjectNode(g, a, t.free[a][0]);
  }

  lemma TakenSorted(g: Geometry, t: State)
    requires Sorting(g, t) && t.inUse != [] && t.inUse[0] in t.free && t.free[t.inUse[0]] != [] && g.objs > 0
    requires forall a | a in t.free :: |t.free[a]| <= g.objs
    ensures Sorted(g, Take(t).state)
  {
    var a := t.inUse[0];
    assert t.inUse == [a] + t.inUse[1..];
    assert a !in t.inUse[1..];
  }

  lemma TakenDivided(g: Geometry, t: State)
    requires Proper(g) && Divided(g, t) && t.inUse != [] && t.inUse[0] in t.free && t.free[t.inUse[0]] != []
    ensures Divided(g, Take(t).state)
  {
    var a, r := t.inUse[0], Take(t).state;
    var f := t.free[a];
    assert f == [f[0]] + f[1..] && f[0] in f;
    ObjectNode(g, a, f[0]);
    forall b | b in r.free
      ensures SlabDivided(g, b, r.free[b], r.live)
    {
      assert SlabDivided(g, b, t.free[b], t.live);
      if b != a && IsObject(g, b, f[0]) { ObjectNode(g, b, f[0]); }
    }
  }

  lemma DropFacts(s: seq<int>, x: int)
    requires Distinct(s)
    ensures Distinct(Drop(s, x)) && forall y :: y in Drop(s, x) <==> y in s && y != x
  {
    if x in s { WithoutMembers(s, IndexOf(s, x)); }
  }

  /** Freeing an object of a slab panics exactly when the object is already free, and
      otherwise takes just that object back. */
  lemma GiveSafe(g: Geometry, s: State, o: int)
    requires Safe(g, s) && NodeOf(g, o) in s.free && IsObject(g, NodeOf(g, o), o)
    ensures var r := Give(g, s, NodeOf(g, o), o);
            && (r.None? <==> o in s.free[NodeOf(g, o)])
            && (r.None? <==> o !in s.live)
            && (r.Some? ==> Safe(g, r.value) && r.value.live == s.live - {o} && r.value.free.Keys == s.free.Keys)
  {
    var a := NodeOf(g, o);
    assert SlabDivided(g, a, s.free[a], s.live);
    if o in s.live {
      NotFull(g, s, a, o);
      GivenSorted(g, s, a, o);
      GivenDivided(g, s, a, o);
    }
  }

  lemma GiveLive(g: Geometry, s: State, a: int, o: int)
    requires a in s.free
    ensures Give(g, s, a, o).Some? ==> Give(g, s, a, o).value.live == s.live - {o}
  {
  }

  /** A slab with an object handed out does not list all its objects. */
  lemma NotFull(g: Geometry, s: State, a: int, o: int)
    requires Safe(g, s) && a in s.free && IsObject(g, a, o) && o in s.live
    ensures |s.free[a]| < g.objs
  {
    var f, all := s.free[a], Objects(g, Base(g, a), g.objs);
    ObjectFacts(g, Base(g, a), g.objs);
    assert SlabDivided(g, a, f, s.live);
    DistinctCons(o, f);
    DistinctSubset([o] + f, all);
  }

  lemma {:induction false} DistinctSubset(s: seq<int>, t: seq<int>)
    requires Distinct(s) && Distinct(t) && forall x | x in s :: x in t
    ensures |s| <= |t|
    decreases |s|
  {
    if s != [] {
      var x, rest := s[0], s[1..];
      assert x in s && s == [x] + rest;
      assert x !in rest;
      DropFacts(t, x);
      assert forall y | y in rest :: y in s;
      DistinctSubset(rest, Drop(t, x));
    }
  }

  lemma GivenSorted(g: Geometry, s: State, a: int, o: int)
    requires Safe(g, s) && a in s.free && o in s.live && |s.free[a]| < g.objs
    ensures Give(g, s, a, o).Some? && Sorted(g, Give(g, s, a, o).value)
  {
    hide Divided, Proper, Drop, Give;
    GiveIs(g, s, a, o);
    ReopenSorted(g, s, a);
    PutSorted(g, Reopen(s, a), a, o);
    RetireSorted(g, PutBack(Reopen(s, a), a, o), a);
  }

  lemma GiveIs(g: Geometry, s: State, a: int, o: int)
    requires a in s.free && o in s.live && |s.free[a]| < g.objs
    ensures Give(g, s, a, o) == Some(Retire(g, PutBack(Reopen(s, a), a, o), a))
  {
  }

  /** Every slab but a is on the list its free count calls for, and a is in use. */
  ghost predicate SortedBut(g: Geometry, s: State, a: int)
  {
    && Distinct(s.unused) && Distinct(s.inUse) && Distinct(s.empty)
    && (forall b :: b in s.free <==> b in s.unused || b in s.inUse || b in s.empty)
    && (forall b | b in s.free && b != a ::
          && (b in s.unused <==> |s.free[b]| == g.objs)
          && (b in s.inUse <==> 0 < |s.free[b]| < g.objs)
          && (b in s.empty <==> |s.free[b]| == 0))
    && a in s.inUse && a !in s.unused && a !in s.empty
  }

  lemma ReopenSorted(g: Geometry, s: State, a: int)
    requires Sorted(g, s) && a in s.free && |s.free[a]| < g.objs
    ensures SortedBut(g, Reopen(s, a), a) && Reopen(s, a).free == s.free && Reopen(s, a).live == s.live
  {
    hide Drop;
    DropFacts(s.empty, a);
  }

  lemma PutSorted(g: Geometry, s: State, a: int, o: int)
    requires SortedBut(g, s, a) && a in s.free
    ensures SortedBut(g, PutBack(s, a, o), a)
  {
  }

  lemma RetireSorted(g: Geometry, s: State, a: int)
    requires SortedBut(g, s, a) && a in s.free && 0 < |s.free[a]| <= g.objs
    ensures Sorted(g, Retire(g, s, a))
  {
    hide Drop;
    DropFacts(s.inUse, a);
  }

  lemma GivenDivided(g: Geometry, s: State, a: int, o: int)
    requires Safe(g, s) && a == NodeOf(g, o) && a in s.free && IsObject(g, a, o) && o in s.live && |s.free[a]| < g.objs
    ensures Give(g, s, a, o).Some? && Divided(g, Give(g, s, a, o).value)
  {
    var r, f := Give(g, s, a, o).value, s.free[a];
    assert r.free == s.free[a := [o] + f] && r.live == s.live - {o};
    assert SlabDivided(g, a, f, s.live);
    DistinctCons(o, f);
    forall b | b in r.free
      ensures SlabDivided(g, b, r.free[b], r.live)
    {
      assert SlabDivided(g, b, s.free[b], s.live);
      if b != a && IsObject(g, b, o) { ObjectNode(g, b, o); }
    }
  }

  // ------------------------------------------------------------ returning slabs

  /** Gives every unused slab back to the page allocator. */
  function Sweep(s: State): State
  {
    s.(unused := [], free := map a | a in s.free && a !in s.unused :: s.free[a])
  }

  /** Sweeping the unused slabs loses no object that is handed out. */
  lemma SweepSafe(g: Geometry, s: State)
    requires Safe(g, s)
    ensures Safe(g, Sweep(s)) && Sweep(s).live == s.live
  {
    var t := Sweep(s);
    forall o | o in s.live
      ensures NodeOf(g, o) in t.free
    {
      NotFull(g, s, NodeOf(g, o), o);
    }
    forall a | a in t.free
      ensures SlabDivided(g, a, t.free[a], t.live)
    {
      assert SlabDivided(g, a, s.free[a], s.live);
    }
  }

  /** The slabs in the order FreeUnused returns them: each step returns the successor's. */
  ghost predicate ReturnedInOrder(g: Geometry, unused: seq<int>, freed: seq<int>)
  {
    |freed| == |unused| && forall i | 0 <= i < |unused| :: freed[i] == Base(g, After(unused, i))
  }

  /** At the j-th step FreeUnused reads and poisons the j-th node of the list; some slab
      has been returned by an earlier step. */
  ghost predicate AccessedReturned(g: Geometry, accessed: seq<int>, freed: seq<int>)
  {
    exists i, j :: 0 <= i < j < |accessed| && i < |freed| && freed[i] == Base(g, accessed[j])
  }

  /** Every step but the first works on the slab returned by the step before it, so no
      returned slab is accessed exactly when there is only one. */
  lemma AccessedReturnedIff(g: Geometry, unused: seq<int>, freed: seq<int>)
    requires ReturnedInOrder(g, unused, freed) && unused != []
    ensures forall j | 1 <= j < |unused| :: freed[j - 1] == Base(g, unused[j])
    ensures !AccessedReturned(g, unused, freed) <==> |unused| == 1
  {
    forall j | 1 <= j < |unused|
      ensures freed[j - 1] == Base(g, unused[j])
    {
      assert freed[j - 1] == Base(g, After(unused, j - 1));
    }
    if |unused| > 1 {
      assert freed[1 - 1] == Base(g, unused[1]);
    }
  }

  /** Two slabs: the second is returned, then read and poisoned, and then the first is
      returned. */
  lemma SecondOfTwo(g: Geometry, a: int, b: int, freed: seq<int>)
    requires ReturnedInOrder(g, [a, b], freed)
    ensures freed == [Base(g, b), Base(g, a)] && AccessedReturned(g, [a, b], freed)
  {
    AccessedReturnedIff(g, [a, b], freed);
    assert freed[1] == Base(g, After([a, b], 1));
  }

  /** Though each step returns the successor's slab, every unused slab is returned
      exactly once, and no other is. */
  lemma ReturnedOnce(g: Geometry, unused: seq<int>, freed: seq<int>)
    requires ReturnedInOrder(g, unused, freed) && Distinct(unused)
    ensures Distinct(freed) && forall a :: Base(g, a) in freed <==> a in unused
  {
    forall a | a in unused
      ensures Base(g, a) in freed
    {
      var j := IndexOf(unused, a);
      var i := if j == 0 then |unused| - 1 else j - 1;
      assert freed[i] == Base(g, After(unused, i));
    }
    forall i, j | 0 <= i < j < |freed|
      ensures freed[i] != freed[j]
    {
      assert freed[i] == Base(g, After(unused, i)) && freed[j] == Base(g, After(unused, j));
    }
    forall a | Base(g, a) in freed
      ensures a in unused
    {
      var i :| 0 <= i < |freed| && freed[i] == Base(g, a);
      assert freed[i] == Base(g, After(unused, i));
    }
  }

  // -------------------------------------------------------------------- counts

  ghost function SlabObjects(g: Geometry, slabs: set<int>): set<int>
  {
    set a, o | a in slabs && o in Objects(g, Base(g, a), g.objs) :: o
  }

  ghost function FreeObjects(s: State): set<int>
  {
    set a, o | a in s.free && o in s.free[a] :: o
  }

  lemma {:induction false} CountObjects(g: Geometry, slabs: set<int>)
    requires Proper(g) && forall a | a in slabs :: IsSlab(g, a)
    ensures |SlabObjects(g, slabs)| == g.objs * |slabs|
    decreases slabs
  {
    if forall a :: a !in slabs {
      assert slabs == {} && SlabObjects(g, slabs) == {};
    } else {
      var a :| a in slabs;
      CountObjects(g, slabs - {a});
      OneMoreSlab(g, slabs, a);
      TimesNext(g.objs, |slabs - {a}|);
    }
  }

  lemma TimesNext(x: int, n: int)
    ensures x * (n + 1) == x * n + x
  {
  }

  lemma OneMoreSlab(g: Geometry, slabs: set<int>, a: int)
    requires Proper(g) && (forall b | b in slabs :: IsSlab(g, b)) && a in slabs
    ensures |SlabObjects(g, slabs)| == |SlabObjects(g, slabs - {a})| + g.objs
  {
    var rest, own := SlabObjects(g, slabs - {a}), Objects(g, Base(g, a), g.objs);
    var mine := set o | o in own;
    ObjectFacts(g, Base(g, a), g.objs);
    CountDistinct(own, mine);
    forall o | o in mine
      ensures o !in rest
    {
      ObjectNode(g, a, o);
      if o in rest {
        var b :| b in slabs - {a} && o in Objects(g, Base(g, b), g.objs);
        ObjectNode(g, b, o);
      }
    }
    assert SlabObjects(g, slabs) == rest + mine;
  }

  lemma {:induction false} CountDistinct(s: seq<int>, elems: set<int>)
    requires Distinct(s) && elems == set o | o in s
    ensures |elems| == |s|
    decreases |s|
  {
    if s != [] {
      var x, rest := s[0], s[1..];
      assert s == [x] + rest && x !in rest;
      CountDistinct(rest, elems - {x});
    }
  }

  /** Every object of every slab is either handed out or on its slab's free list, so
      the two counts add up to the objects of all slabs. */
  lemma CountsAgree(g: Geometry, s: State)
    requires Safe(g, s)
    ensures FreeObjects(s) !! s.live
    ensures |FreeObjects(s)| + |s.live| == g.objs * |s.free.Keys|
  {
    CountObjects(g, s.free.Keys);
    forall o
      ensures o in SlabObjects(g, s.free.Keys) <==> o in FreeObjects(s) || o in s.live
      ensures !(o in FreeObjects(s) && o in s.live)
    {
      if a :| a in s.free && IsObject(g, a, o) {
        ObjectNode(g, a, o);
        assert SlabDivided(g, a, s.free[a], s.live);
      }
      if a :| a in s.free && o in s.free[a] {
        assert SlabDivided(g, a, s.free[a], s.live);
      }
    }
    assert SlabObjects(g, s.free.Keys) == FreeObjects(s) + s.live;
  }

  // ---------------------------------------------------------------------- runs

  /** One call: an allocation, with the slab the page allocator gives if asked, the
      return of an object, or the return of the unused slabs. */
  datatype Request = Ask(given: Option<int>) | Return(obj: int) | ReturnSlabs

  /** What the callers may ask: the page allocator gives only memory not in use, and
      what is returned was an object of a slab, handed out or not. */
  ghost predicate Legal(g: Geometry, s: State, r: Request)
  {
    match r
    case Ask(given) => Fresh(g, s, given)
    case Return(o) => NodeOf(g, o) in s.free && IsObject(g, NodeOf(g, o), o)
    case ReturnSlabs => true
  }

  /** The state after a call; None when an assertion fails and the kernel panics. */
  ghost function Step(g: Geometry, s: State, r: Request): Option<State>
    requires Safe(g, s) && Legal(g, s, r)
  {
    match r
    case Ask(given) => TakeSafe(g, s, given); Some(Take(Ready(g, s, given)).state)
    case Return(o) => Give(g, s, NodeOf(g, o), o)
    case ReturnSlabs => if s.unused == [] then None else Some(Sweep(s))
  }

  /** A run of calls leads from s to t without a panic. */
  ghost predicate Reaches(g: Geometry, s: State, run: seq<Request>, t: State)
    decreases |run|
  {
    if run == [] then s == t
    else
      && Safe(g, s) && Legal(g, s, run[0])
      && var n := Step(g, s, run[0]);
      && n.Some? && Reaches(g, n.value, run[1..], t)
  }

  /** Every run keeps every slab on the one list its number of free objects calls for,
      every object of every slab either free or handed out, the memory of different
      objects handed out apart, and the counts in step.
      The next call panics exactly when it returns an object that is already free or
      returns the unused slabs when there are none. */
  lemma {:induction false} EveryRunSafe(g: Geometry, s: State, run: seq<Request>, t: State)
    requires Safe(g, s) && Reaches(g, s, run, t)
    ensures Safe(g, t) && |FreeObjects(t)| + |t.live| == g.objs * |t.free.Keys|
    ensures LiveApart(g, t.live)
    ensures forall r | Legal(g, t, r) ::
              Step(g, t, r).None? <==> (r.Return? && r.obj !in t.live) || (r.ReturnSlabs? && t.unused == [])
    decreases |run|
  {
    if run == [] {
      CountsAgree(g, t);
      SafeApart(g, t);
      forall r | Legal(g, t, r)
        ensures Step(g, t, r).None? <==> (r.Return? && r.obj !in t.live) || (r.ReturnSlabs? && t.unused == [])
      {
        if r.Return? { GiveSafe(g, t, r.obj); }
      }
    } else {
      StepSafe(g, s, run[0]);
      EveryRunSafe(g, Step(g, s, run[0]).value, run[1..], t);
    }
  }

  lemma StepSafe(g: Geometry, s: State, r: Request)
    requires Safe(g, s) && Legal(g, s, r)
    ensures Step(g, s, r).Some? ==> Safe(g, Step(g, s, r).value)
  {
    match r
    case Ask(given) => TakeSafe(g, s, given);
    case Return(o) => GiveSafe(g, s, o);
    case ReturnSlabs => SweepSafe(g, s);
  }
}
