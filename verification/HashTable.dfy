/** The fixed-size hash map with quadratic probing. Without erasing, it refines a finite
    map; an insertion fails exactly when every probe of the key finds another key. */
module HashTable {
  import opened Rings
  import opened Probing

  datatype Slot<K, V> = Free | Taken(key: K, value: V)

  type Table<K, V> = seq<Slot<K, V>>

  /** The slot of the i-th probe. */
  function Probe<K, V>(t: Table<K, V>, h: nat, i: nat): Slot<K, V>
    requires |t| > 0
  {
    t[ProbeIndex(h, i, |t|)]
  }

  predicate HoldsKey<K(==), V>(s: Slot<K, V>, k: K)
  {
    s.Taken? && s.key == k
  }

  /** Every probe of hash h before the p-th finds a slot taken by another key than k. */
  ghost predicate PassedOver<K, V>(t: Table<K, V>, h: nat, k: K, p: nat)
    requires |t| > 0
  {
    forall i | 0 <= i < p :: Probe(t, h, i).Taken? && !HoldsKey(Probe(t, h, i), k)
  }

  /** A stored key is found by its own probes, past none but taken slots. */
  ghost predicate Reached<K, V>(hash: K -> nat, t: Table<K, V>, s: nat)
    requires s < |t| && t[s].Taken?
  {
    exists p: nat :: p < |t| && ProbeIndex(hash(t[s].key), p, |t|) == s && AllTaken(t, hash(t[s].key), p)
  }

  ghost predicate AllTaken<K, V>(t: Table<K, V>, h: nat, p: nat)
    requires |t| > 0
  {
    forall i | 0 <= i < p :: Probe(t, h, i).Taken?
  }

  ghost predicate WellProbed<K, V>(hash: K -> nat, t: Table<K, V>)
  {
    && (forall i, j | 0 <= i < j < |t| :: t[i].Taken? && t[j].Taken? ==> t[i].key != t[j].key)
    && (forall s | 0 <= s < |t| && t[s].Taken? :: Reached(hash, t, s))
  }

  /** The table holds exactly the pairs of the map. */
  ghost predicate Shows<K, V>(t: Table<K, V>, m: map<K, V>)
  {
    && (forall s | 0 <= s < |t| && t[s].Taken? :: t[s].key in m && m[t[s].key] == t[s].value)
    && (forall k | k in m :: Stored(t, k))
  }

  ghost predicate Stored<K, V>(t: Table<K, V>, k: K)
  {
    exists s :: 0 <= s < |t| && HoldsKey(t[s], k)
  }

  // ----------------------------------------------------------------------- probes

  /** A key that no probe before a free one finds, or that no probe finds at all, is
      not in the table. */
  lemma NotStored<K, V>(hash: K -> nat, t: Table<K, V>, k: K, p: nat)
    requires |t| > 0 && WellProbed(hash, t) && PassedOver(t, hash(k), k, p)
    requires p == |t| || (p < |t| && Probe(t, hash(k), p).Free?)
    ensures !Stored(t, k)
  {
    hide ProbeIndex;
    if Stored(t, k) {
      var q := StoredProbe(hash, t, k);
      assert false;
    }
  }

  /** The probe that finds a stored key. */
  lemma StoredProbe<K, V>(hash: K -> nat, t: Table<K, V>, k: K) returns (q: nat)
    requires WellProbed(hash, t) && Stored(t, k)
    ensures q < |t| && HoldsKey(Probe(t, hash(k), q), k) && AllTaken(t, hash(k), q)
  {
    hide ProbeIndex;
    var s: nat :| s < |t| && HoldsKey(t[s], k);
    assert Reached(hash, t, s);
    q :| q < |t| && ProbeIndex(hash(k), q, |t|) == s && AllTaken(t, hash(k), q);
  }

  lemma ReachedBy<K, V>(hash: K -> nat, t: Table<K, V>, s: nat, p: nat)
    requires s < |t| && t[s].Taken? && p < |t| && ProbeIndex(hash(t[s].key), p, |t|) == s
    requires AllTaken(t, hash(t[s].key), p)
    ensures Reached(hash, t, s)
  {
  }

  /** Storing in the first free probe keeps every key reachable. */
  lemma StoredFree<K, V>(hash: K -> nat, t: Table<K, V>, m: map<K, V>, k: K, v: V, p: nat)
    requires |t| > 0 && WellProbed(hash, t) && Shows(t, m)
    requires p < |t| && PassedOver(t, hash(k), k, p) && Probe(t, hash(k), p).Free?
    ensures var t' := t[ProbeIndex(hash(k), p, |t|) := Taken(k, v)];
            WellProbed(hash, t') && Shows(t', m[k := v]) && k !in m
  {
    hide ProbeIndex;
    var s := ProbeIndex(hash(k), p, |t|);
    var t' := t[s := Taken(k, v)];
    NotStored(hash, t, k, p);
    StillReached(hash, t, s, Taken(k, v));
    forall i | 0 <= i < |t| && t[i].Taken?
      ensures t[i].key != k
    {
      assert t[i].key == k <==> HoldsKey(t[i], k);
    }
    forall j | 0 <= j < p
      ensures Probe(t', hash(k), j).Taken?
    {
      assert Probe(t, hash(k), j).Taken?;
    }
    assert AllTaken(t', hash(k), p);
    ReachedBy(hash, t', s, p);
    StillStored(t, m, k, v, s);
  }

  /** Overwriting a slot that is free or holds the same key hides no other key. */
  lemma StillReached<K, V>(hash: K -> nat, t: Table<K, V>, s: nat, x: Slot<K, V>)
    requires s < |t| && WellProbed(hash, t) && x.Taken?
    ensures forall i | 0 <= i < |t| && i != s && t[i].Taken? :: Reached(hash, t[s := x], i)
  {
    hide ProbeIndex;
    var t' := t[s := x];
    forall i | 0 <= i < |t| && i != s && t[i].Taken?
      ensures Reached(hash, t', i)
    {
      assert Reached(hash, t, i);
      var p: nat :| p < |t| && ProbeIndex(hash(t[i].key), p, |t|) == i && AllTaken(t, hash(t[i].key), p);
      forall j | 0 <= j < p
        ensures Probe(t', hash(t[i].key), j).Taken?
      {
        assert Probe(t, hash(t[i].key), j).Taken?;
      }
      assert AllTaken(t', hash(t[i].key), p);
      ReachedBy(hash, t', i, p);
    }
  }

  lemma StillStored<K, V>(t: Table<K, V>, m: map<K, V>, k: K, v: V, s: nat)
    requires s < |t| && Shows(t, m) && (t[s].Taken? ==> t[s].key == k)
    requires forall i | 0 <= i < |t| && i != s && t[i].Taken? :: t[i].key != k
    ensures Shows(t[s := Taken(k, v)], m[k := v])
  {
    var t' := t[s := Taken(k, v)];
    assert HoldsKey(t'[s], k);
    forall x | x in m && x != k
      ensures Stored(t', x)
    {
      var i :| 0 <= i < |t| && HoldsKey(t[i], x);
      assert HoldsKey(t'[i], x);
    }
  }

  /** Overwriting the value of a key keeps the rest. */
  lemma StoredAgain<K, V>(hash: K -> nat, t: Table<K, V>, m: map<K, V>, k: K, v: V, p: nat)
    requires |t| > 0 && WellProbed(hash, t) && Shows(t, m) && HoldsKey(Probe(t, hash(k), p), k)
    ensures var t' := t[ProbeIndex(hash(k), p, |t|) := Taken(k, v)];
            WellProbed(hash, t') && Shows(t', m[k := v]) && k in m
  {
    hide ProbeIndex;
    var s := ProbeIndex(hash(k), p, |t|);
    var t' := t[s := Taken(k, v)];
    StillReached(hash, t, s, Taken(k, v));
    assert Reached(hash, t, s);
    var q: nat :| q < |t| && ProbeIndex(hash(k), q, |t|) == s && AllTaken(t, hash(k), q);
    forall j | 0 <= j < q
      ensures Probe(t', hash(k), j).Taken?
    {
      assert Probe(t, hash(k), j).Taken?;
    }
    assert AllTaken(t', hash(k), q);
    ReachedBy(hash, t', s, q);
    StillStored(t, m, k, v, s);
  }

  // ----------------------------------------------------------------------- counts

  ghost function TakenSlots<K, V>(t: Table<K, V>): set<nat>
  {
    set s: nat | s < |t| && t[s].Taken?
  }

  /** As many slots are taken as there are keys, at most. */
  lemma {:induction false} CountTaken<K, V>(t: Table<K, V>, slots: set<nat>, keys: set<K>)
    requires forall s | s in slots :: s < |t| && t[s].Taken? && t[s].key in keys
    requires forall i, j | i in slots && j in slots && i != j :: t[i].key != t[j].key
    ensures |slots| <= |keys|
    decreases |slots|
  {
    if slots != {} {
      var s :| s in slots;
      CountTaken(t, slots - {s}, keys - {t[s].key});
    }
  }

  /** In a table of odd prime size less than half full, some probe finds a free slot. */
  lemma ProbeFindsFree<K, V>(hash: K -> nat, t: Table<K, V>, m: map<K, V>, h: nat)
    requires WellProbed(hash, t) && Shows(t, m) && Prime(|t|) && |t| > 2 && 2 * |m| < |t| + 1
    ensures exists i: nat :: i < |t| && Probe(t, h, i).Free?
  {
    hide ProbeIndex;
    CountTaken(t, TakenSlots(t), m.Keys);
    FreeProbe(|t|, h, TakenSlots(t));
    var i: nat :| i < |t| && ProbeIndex(h, i, |t|) !in TakenSlots(t);
    assert Probe(t, h, i).Free?;
  }

  /** Every probe of the key finds a slot taken by another key. */
  ghost predicate NoRoom<K, V>(hash: K -> nat, t: Table<K, V>, k: K)
    requires |t| > 0
  {
    PassedOver(t, hash(k), k, |t|)
  }

  /** Hashes are at most 32 bits wide. */
  ghost predicate Short<K(!new)>(hash: K -> nat)
  {
    forall k :: hash(k) < 0x1_0000_0000
  }

  /** Storing another key frees no probe. */
  lemma StillNoRoom<K, V>(hash: K -> nat, t: Table<K, V>, s: nat, x: Slot<K, V>, k: K)
    requires s < |t| && NoRoom(hash, t, k) && x.Taken? && x.key != k
    ensures NoRoom(hash, t[s := x], k)
  {
    hide ProbeIndex;
    var t' := t[s := x];
    forall i | 0 <= i < |t|
      ensures Probe(t', hash(k), i).Taken? && !HoldsKey(Probe(t', hash(k), i), k)
    {
      assert Probe(t, hash(k), i).Taken?;
    }
  }

  lemma KeepNoRoom<K(!new), V>(hash: K -> nat, t: Table<K, V>, s: nat, key: K, v: V)
    requires s < |t|
    ensures forall k | k != key && NoRoom(hash, t, k) :: NoRoom(hash, t[s := Taken(key, v)], k)
  {
    forall k | k != key && NoRoom(hash, t, k)
      ensures NoRoom(hash, t[s := Taken(key, v)], k)
    {
      StillNoRoom(hash, t, s, Taken(key, v), k);
    }
  }

  class HashMap<K(==,!new), V> {
    const hash: K -> nat
    const slots: array<Slot<K, V>>
    ghost var m: map<K, V>

    /** The sizes for which the probe calculation stays inside 64 bits. */
    ghost predicate Sized()
    {
      0 < slots.Length <= 0x8000_0000 && Short(hash)
    }

    ghost predicate Valid()
      reads this, slots
    {
      Sized() && WellProbed(hash, slots[..]) && Shows(slots[..], m)
    }

    constructor (n: nat, hash: K -> nat)
      requires 0 < n <= 0x8000_0000 && Short(hash)
      ensures Valid() && m == map[] && slots.Length == n && fresh(slots) && this.hash == hash
    {
      this.hash := hash;
      this.m := map[];
      var a := new Slot<K, V>[n](_ => Free);
      slots := a;
    }

    method MakeProbeIndex(h: nat, i: nat, n: nat) returns (q: nat)
      requires h < 0x1_0000_0000 && i < n <= 0x8000_0000
      ensures q == ProbeIndex(h, i, n) && h + i * i < 0x1_0000_0000_0000_0000
    {
      SquareBound(i);
      q := (h + i * i) % n;
    }

    /** Inserts a pair, or overwrites the key's value; false if there is no room. */
    method Insert(key: K, value: V) returns (ok: bool)
      requires Valid()
      modifies slots, this`m
      ensures Valid() && m == if ok then old(m)[key := value] else old(m)
      ensures !ok <==> old(NoRoom(hash, slots[..], key))
      ensures !ok ==> key !in old(m) && slots[..] == old(slots[..])
      ensures Prime(slots.Length) && slots.Length > 2 && 2 * |old(m)| < slots.Length + 1 ==> ok
      ensures forall k | k != key && old(NoRoom(hash, slots[..], k)) :: NoRoom(hash, slots[..], k)
    {
      ghost var t := slots[..];
      var n := slots.Length;
      var i := 0;
      while i < n
        invariant 0 <= i <= n && slots[..] == t && m == old(m)
        invariant PassedOver(t, hash(key), key, i)
      {
        var s := MakeProbeIndex(hash(key), i, n);
        assert Probe(t, hash(key), i) == slots[s];
        if slots[s].Free? {
          StoredFree(hash, t, m, key, value, i);
          slots[s] := Taken(key, value);
          m := m[key := value];
          assert slots[..] == t[s := Taken(key, value)];
          KeepNoRoom(hash, t, s, key, value);
          return true;
        }
        if slots[s].key == key {
          StoredAgain(hash, t, m, key, value, i);
          slots[s] := Taken(key, value);
          m := m[key := value];
          assert slots[..] == t[s := Taken(key, value)];
          KeepNoRoom(hash, t, s, key, value);
          return true;
        }
        i := i + 1;
      }
      NotStored(hash, t, key, n);
      if Prime(n) && n > 2 && 2 * |m| < n + 1 {
        ProbeFindsFree(hash, t, m, hash(key));
      }
      return false;
    }

    /** The value of a key, if it is there. */
    method Find(key: K) returns (r: Option<V>)
      requires Valid()
      ensures r == if key in m then Some(m[key]) else None
    {
      ghost var t := slots[..];
      var n := slots.Length;
      var i := 0;
      while i < n
        invariant 0 <= i <= n
        invariant forall j | 0 <= j < i :: !HoldsKey(Probe(t, hash(key), j), key)
      {
        var s := MakeProbeIndex(hash(key), i, n);
        assert Probe(t, hash(key), i) == slots[s] == t[s];
        if slots[s].Taken? && slots[s].key == key {
          return Some(slots[s].value);
        }
        i := i + 1;
      }
      NeverFound(hash, t, key);
      return None;
    }

    method Clear()
      requires Valid()
      modifies slots, this`m
      ensures Valid() && m == map[]
      ensures forall k :: !NoRoom(hash, slots[..], k)
    {
      var i := 0;
      while i < slots.Length
        invariant 0 <= i <= slots.Length
        invariant forall j | 0 <= j < i :: slots[j].Free?
      {
        slots[i] := Free;
        i := i + 1;
      }
      m := map[];
      forall k
        ensures !NoRoom(hash, slots[..], k)
      {
        assert !Probe(slots[..], hash(k), 0).Taken?;
      }
    }
  }

  lemma Product(a: nat, b: nat, c: nat)
    requires b <= c
    ensures a * b <= c * a
  {
    assert c * a == a * b + a * (c - b);
  }

  lemma SquareBound(i: nat)
    requires i < 0x8000_0000
    ensures i * i <= 0x4000_0000_0000_0000
  {
    assert i * i <= 0x8000_0000 * i by { Product(i, i, 0x8000_0000); }
  }

  /** A key that no probe finds is not in the table, even past free slots. */
  lemma NeverFound<K, V>(hash: K -> nat, t: Table<K, V>, k: K)
    requires |t| > 0 && WellProbed(hash, t)
    requires forall j | 0 <= j < |t| :: !HoldsKey(Probe(t, hash(k), j), k)
    ensures !Stored(t, k)
  {
    hide ProbeIndex;
    if Stored(t, k) {
      var q := StoredProbe(hash, t, k);
      assert false;
    }
  }
}
