/** The core configuration: a list of cores with the primary at index zero, and a hash
    map from core ids to indexes. Both branches of the index lookup agree. */
module CoreIndex {
  import opened Rings
  import opened Probing
  import opened HashTable

  const MAX_CORES: nat := 256
  const CORE_MAP_SIZE: nat := 389

  /** A core's id and the rest of what is known of it. */
  datatype Core = Core(id: int, kind: string, releaseAddr: int)

  /** The ids are those of different cores. */
  ghost predicate DistinctIds(cores: seq<Core>)
  {
    forall i, j | 0 <= i < j < |cores| :: cores[i].id != cores[j].id
  }

  /** The first core with an id, if there is one: the linear search. */
  function IndexOf(cores: seq<Core>, id: int): Option<nat>
  {
    if cores == [] then None
    else if cores[0].id == id then Some(0)
    else
      var r := IndexOf(cores[1..], id);
      if r.None? then None else Some(r.value + 1)
  }

  lemma {:induction false} IndexOfIs(cores: seq<Core>, id: int)
    ensures var r := IndexOf(cores, id);
            if r.None? then forall i | 0 <= i < |cores| :: cores[i].id != id
            else r.value < |cores| && cores[r.value].id == id && forall i | 0 <= i < r.value :: cores[i].id != id
    decreases |cores|
  {
    if cores != [] {
      IndexOfIs(cores[1..], id);
      var r := IndexOf(cores, id);
      forall i | 0 <= i < (if r.None? then |cores| else r.value)
        ensures cores[i].id != id
      {
        if i > 0 { assert cores[i] == cores[1..][i - 1]; }
      }
    }
  }

  /** The map gives the index the linear search finds, for every id. */
  ghost predicate Agrees(cores: seq<Core>, m: map<int, nat>)
  {
    forall id :: Lookup(m, id) == IndexOf(cores, id)
  }

  ghost function Lookup(m: map<int, nat>, id: int): Option<nat>
  {
    if id in m then Some(m[id]) else None
  }

  /** The cores after one is added; the primary changes places with the first. */
  function Added(cores: seq<Core>, core: Core, primary: bool): seq<Core>
  {
    if primary && cores != [] then [core] + cores[1..] + [cores[0]] else cores + [core]
  }

  /** The indexes after one is added, when the id map takes it. */
  function AddedIds(m: map<int, nat>, cores: seq<Core>, core: Core, primary: bool): map<int, nat>
  {
    var n := |cores|;
    if primary && n > 0 then m[core.id := n][cores[0].id := n][core.id := 0] else m[core.id := n]
  }

  /** The list gains the core's own record and keeps every other; the primary comes first,
      any other core last, and all but the first the primary replaces keep their indexes. */
  lemma AddedRecords(cores: seq<Core>, core: Core, primary: bool)
    ensures var c := Added(cores, core, primary);
            && |c| == |cores| + 1 && multiset(c) == multiset(cores) + multiset{core}
            && c[if primary then 0 else |cores|] == core
            && (forall i | 0 <= i < |cores| && !(primary && i == 0) :: c[i] == cores[i])
            && (primary && cores != [] ==> c[|cores|] == cores[0])
  {
    if primary && cores != [] {
      assert cores == [cores[0]] + cores[1..];
    }
  }

  /** Adding a new core keeps the map and the list in agreement, through the primary's
      change of places. */
  lemma AddedAgrees(cores: seq<Core>, m: map<int, nat>, core: Core, primary: bool)
    requires Agrees(cores, m) && DistinctIds(cores + [core])
    ensures Agrees(Added(cores, core, primary), AddedIds(m, cores, core, primary))
    ensures DistinctIds(Added(cores, core, primary))
  {
    var c, m' := Added(cores, core, primary), AddedIds(m, cores, core, primary);
    StillDistinct(cores, core, primary);
    forall id
      ensures Lookup(m', id) == IndexOf(c, id)
    {
      AddedAt(cores, m, core, primary, id);
    }
  }

  lemma AddedAt(cores: seq<Core>, m: map<int, nat>, core: Core, primary: bool, id: int)
    requires Lookup(m, id) == IndexOf(cores, id) && DistinctIds(Added(cores, core, primary))
    ensures Lookup(AddedIds(m, cores, core, primary), id) == IndexOf(Added(cores, core, primary), id)
  {
    var c, n := Added(cores, core, primary), |cores|;
    IndexOfIs(cores, id);
    IndexOfIs(c, id);
    if primary && n > 0 {
      assert c[0] == core && c[n] == cores[0] && forall i | 0 < i < n :: c[i] == cores[i];
    } else {
      assert c[n] == core && forall i | 0 <= i < n :: c[i] == cores[i];
    }
  }

  /** A core the id map did not take is found by the linear search only. */
  lemma MissedDisagrees(cores: seq<Core>, m: map<int, nat>, core: Core, primary: bool)
    requires core.id !in m
    ensures !Agrees(Added(cores, core, primary), m)
  {
    var c := Added(cores, core, primary);
    IndexOfIs(c, core.id);
    assert c[if primary && cores != [] then 0 else |cores|] == core;
    assert Lookup(m, core.id) != IndexOf(c, core.id);
  }

  lemma StillDistinct(cores: seq<Core>, core: Core, primary: bool)
    requires DistinctIds(cores + [core])
    ensures DistinctIds(Added(cores, core, primary))
  {
    var d, c := cores + [core], Added(cores, core, primary);
    var n := |cores|;
    assert primary && n > 0 ==> c[0] == d[n] && c[n] == d[0] && forall i | 0 < i < n :: c[i] == d[i];
  }

  ghost function Ids(cores: seq<Core>): set<int>
  {
    set i | 0 <= i < |cores| :: cores[i].id
  }

  lemma {:induction false} CountIds(cores: seq<Core>)
    ensures |Ids(cores)| <= |cores|
  {
    if cores != [] {
      var n := |cores| - 1;
      CountIds(cores[..n]);
      assert Ids(cores) == Ids(cores[..n]) + {cores[n].id};
    }
  }

  lemma AddedIdSet(cores: seq<Core>, core: Core, primary: bool)
    ensures Ids(Added(cores, core, primary)) == Ids(cores) + {core.id}
    ensures cores != [] ==> cores[0].id in Ids(cores)
  {
    var c, n := Added(cores, core, primary), |cores|;
    forall x | x in Ids(cores) + {core.id}
      ensures x in Ids(c)
    {
      if x == core.id {
        assert c[if primary && n > 0 then 0 else n].id == x;
      } else {
        var i :| 0 <= i < n && cores[i].id == x;
        assert c[if primary && i == 0 then n else i].id == x;
      }
    }
  }

  /** Under agreement every core's id is in the map. */
  lemma AgreedId(cores: seq<Core>, m: map<int, nat>, i: nat)
    requires Agrees(cores, m) && i < |cores|
    ensures cores[i].id in m
  {
    IndexOfIs(cores, cores[i].id);
    assert Lookup(m, cores[i].id) == IndexOf(cores, cores[i].id);
  }

  class CoreConfig {
    const cores: array<Core>
    var count: nat
    const ids: HashMap<int, nat>

    ghost predicate Valid()
      reads this, cores, ids, ids.slots
    {
      && cores.Length == MAX_CORES && count <= MAX_CORES
      && ids.Valid() && ids.slots.Length == CORE_MAP_SIZE
      && ids.m.Keys <= Ids(cores[..count])
    }

    constructor (hash: int -> nat)
      requires Short(hash)
      ensures Valid() && fresh(cores) && fresh(ids) && fresh(ids.slots) && count == 0 && ids.m == map[]
      ensures ids.hash == hash
    {
      cores := new Core[MAX_CORES](_ => Core(0, "", 0));
      count := 0;
      ids := new HashMap(CORE_MAP_SIZE, hash);
    }

    /** Adds a core; false if there are too many. The list keeps every record and gains the
        core's, at index zero if it is the primary. The id map takes the new id unless all
        its probes find other ids; while there are fewer than half the map's size cores,
        it always does. For different ids, the map and the list then go on agreeing
        exactly when the map took the id. */
    method AddCore(core: Core, primary: bool) returns (ok: bool, ghost took: bool)
      requires Valid()
      modifies this`count, cores, ids.slots, ids`m
      ensures Valid()
      ensures ok <==> old(count) < MAX_CORES
      ensures !ok ==> count == old(count) && cores[..] == old(cores[..]) && ids.m == old(ids.m)
      ensures ok ==> count == old(count) + 1 && cores[..count] == Added(old(cores[..count]), core, primary)
      ensures ok ==> multiset(cores[..count]) == old(multiset(cores[..count])) + multiset{core}
      ensures ok ==> cores[if primary then 0 else old(count)] == core
      ensures ok ==> forall i | 0 <= i < old(count) && !(primary && i == 0) :: cores[i] == old(cores[i])
      ensures ok && primary && old(count) > 0 ==> cores[old(count)] == old(cores[0])
      ensures ok ==> (took <==> !old(NoRoom(ids.hash, ids.slots[..], core.id)))
      ensures ok && 2 * old(count) < CORE_MAP_SIZE + 1 ==> took
      ensures ok && old(Agrees(cores[..count], ids.m)) && DistinctIds(old(cores[..count]) + [core]) ==>
                (Agrees(cores[..count], ids.m) <==> took) && DistinctIds(cores[..count])
    {
      hide HashMap.Valid, ProbeIndex, Agrees, Added, DistinctIds, Ids, NoRoom;
      ghost var c := cores[..count];
      if count >= MAX_CORES {
        return false, false;
      }
      took := AddIndexed(core, primary);
      AddedRecords(c, core, primary);
      SamePlaces(cores[..], cores[..count], c, core, primary);
      ok := true;
    }

    /** Adds a core, for which there is a place. */
    method AddIndexed(core: Core, primary: bool) returns (ghost took: bool)
      requires Valid() && count < MAX_CORES
      modifies this`count, cores, ids.slots, ids`m
      ensures Valid()
      ensures count == old(count) + 1 && cores[..count] == Added(old(cores[..count]), core, primary)
      ensures took <==> !old(NoRoom(ids.hash, ids.slots[..], core.id))
      ensures 2 * old(count) < CORE_MAP_SIZE + 1 ==> took
      ensures old(Agrees(cores[..count], ids.m)) && DistinctIds(old(cores[..count]) + [core]) ==>
                (Agrees(cores[..count], ids.m) <==> took) && DistinctIds(cores[..count])
    {
      hide ProbeIndex, Agrees, Added, AddedIds, DistinctIds, Ids, NoRoom, WellProbed, Shows, Short;
      ghost var c, m := cores[..count], ids.m;
      CoreMapSizesPrime();
      KeysCount(m, c);
      took := ids.Insert(core.id, count);
      ghost var m1 := ids.m;
      PlaceCore(core, primary);
      count := count + 1;
      AddedIdSet(c, core, primary);
      if Agrees(c, m) && DistinctIds(c + [core]) {
        ConcludeAgrees(c, m, core, primary, took, m1, ids.m);
      }
    }

    /** Forgets every core. */
    method Reset()
      requires Valid()
      modifies this`count, ids.slots, ids`m
      ensures Valid() && count == 0 && ids.m == map[] && Agrees(cores[..count], ids.m)
    {
      ids.Clear();
      count := 0;
    }

    /** The index of the core with an id: by linear search among few cores, by the id map
        otherwise. When the map and the list agree, both give the same. */
    method GetCoreIndex(id: int) returns (r: Option<nat>)
      requires Valid()
      ensures count <= 32 ==> r == IndexOf(cores[..count], id)
      ensures count > 32 ==> r == Lookup(ids.m, id)
      ensures Agrees(cores[..count], ids.m) ==> r == IndexOf(cores[..count], id)
    {
      if count <= 32 {
        var i := 0;
        IndexOfIs(cores[..count], id);
        while i < count
          invariant 0 <= i <= count
          invariant forall j | 0 <= j < i :: cores[j].id != id
        {
          if cores[i].id == id {
            assert cores[..count][i].id == id;
            return Some(i);
          }
          i := i + 1;
        }
        return None;
      }
      r := ids.Find(id);
    }

    /** Stores a core, whose id has gone to the map; the primary changes places with the
        first core, and so do their indexes. */
    method PlaceCore(core: Core, primary: bool)
      requires cores.Length == MAX_CORES && count < MAX_CORES && ids.Valid()
      modifies cores, ids.slots, ids`m
      ensures ids.Valid()
      ensures cores[..count + 1] == Added(old(cores[..count]), core, primary)
      ensures !primary ==> ids.m == old(ids.m)
      ensures primary ==> Moved(old(ids.m), ids.m, core.id, if count == 0 then core.id else old(cores[0].id), count)
      ensures old(NoRoom(ids.hash, ids.slots[..], core.id)) && core.id !in old(ids.m) ==> core.id !in ids.m
    {
      hide ProbeIndex, NoRoom, WellProbed, Shows, Short;
      ghost var c := cores[..count];
      cores[count] := core;
      if primary {
        var first := ids.Insert(cores[0].id, count);
        var second := ids.Insert(cores[count].id, 0);
        cores[0], cores[count] := cores[count], cores[0];
      }
      assert cores[..count + 1] == Added(c, core, primary);
    }
  }

  /** What holds of the list holds of the array that begins with it. */
  lemma SamePlaces(a: seq<Core>, d: seq<Core>, c: seq<Core>, core: Core, primary: bool)
    requires |c| < |a| && d == a[..|c| + 1] && d[if primary then 0 else |c|] == core
    requires forall i | 0 <= i < |c| && !(primary && i == 0) :: d[i] == c[i]
    requires primary && c != [] ==> d[|c|] == c[0]
    ensures a[if primary then 0 else |c|] == core && (primary && c != [] ==> a[|c|] == c[0])
    ensures forall i | 0 <= i < |c| && !(primary && i == 0) :: a[i] == c[i]
  {
    assert forall i | 0 <= i <= |c| :: a[i] == d[i];
  }

  /** The map after the ids of the first core and the primary swap their indexes; ids it
      did not have, it may not take. */
  ghost predicate Moved(m: map<int, nat>, m': map<int, nat>, id: int, first: int, n: nat)
  {
    && (id in m && first in m ==> m' == m[first := n][id := 0])
    && m'.Keys <= m.Keys + {id, first}
  }

  lemma KeysCount(m: map<int, nat>, c: seq<Core>)
    requires m.Keys <= Ids(c)
    ensures |m| <= |c|
  {
    CountIds(c);
    assert Ids(c) == m.Keys + (Ids(c) - m.Keys);
  }

  lemma ConcludeAgrees(c: seq<Core>, m: map<int, nat>, core: Core, primary: bool, took: bool, m1: map<int, nat>,
                       m2: map<int, nat>)
    requires Agrees(c, m) && DistinctIds(c + [core]) && m1 == (if took then m[core.id := |c|] else m)
    requires !primary ==> m2 == m1
    requires primary ==> Moved(m1, m2, core.id, if c == [] then core.id else c[0].id, |c|)
    requires !took ==> core.id !in m2
    ensures (Agrees(Added(c, core, primary), m2) <==> took) && DistinctIds(Added(c, core, primary))
  {
    AddedAgrees(c, m, core, primary);
    if took {
      if c != [] { AgreedId(c, m, 0); }
      assert m2 == AddedIds(m, c, core, primary);
    } else {
      MissedDisagrees(c, m2, core, primary);
    }
  }
}
