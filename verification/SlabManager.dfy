/** The slab manager itself: three rings of checksummed slab nodes and a chain of free
    objects in each slab, updated in place, refining the steps of SlabPool. */
module SlabManager {
  import opened Words
  import opened Rings
  import opened SlabPool

  const POISON: int := 0xcccc_cccc_cccc_cccc

  datatype SlabNode = SlabNode(avail: nat, free: nat, prev: nat, next: nat, checksum: nat) {

    function Sum(): nat
    {
      Xor(Xor(Xor(Xor(CHECKSUM_SEED, avail), free), prev), next)
    }

    function UpdateChecksum(): SlabNode
    {
      this.(checksum := Sum())
    }

    predicate VerifyChecksum()
    {
      checksum == Sum()
    }
  }

  const CHECKSUM_SEED: nat := 0x09a5_2af1_c62b_d04b

  type Nodes = map<int, SlabNode>

  /** The node at a holds a valid checksum, these links and this free list. */
  predicate NodeAt(nodes: Nodes, a: int, next: int, prev: int)
  {
    a in nodes && nodes[a].next == next && nodes[a].prev == prev && nodes[a].VerifyChecksum()
  }

  /** The nodes of a ring hold its links. */
  ghost predicate RingShows(nodes: Nodes, k: Links)
  {
    forall a | k.Has(a) :: a in k.prev && NodeAt(nodes, a, k.next[a], k.prev[a])
  }

  /** Only the nodes named may differ, and only in their links. */
  ghost predicate Relinked(before: Nodes, after: Nodes, who: set<int>)
  {
    && after.Keys == before.Keys
    && (forall a | a in before && a !in who :: after[a] == before[a])
    && (forall a | a in before :: after[a].avail == before[a].avail && after[a].free == before[a].free
                                  && (before[a].VerifyChecksum() ==> after[a].VerifyChecksum()))
  }

  /** Writing the new node and its neighbours' links appends to a ring. */
  lemma AppendShows(nodes: Nodes, k: Links, a: int, h: int, t: int, nodes': Nodes)
    requires RingShows(nodes, k) && !k.Has(a) && h == k.head != 0 && k.Has(h) && k.Has(t) && k.Prev(h, t) && t in k.prev
    requires Relinked(nodes, nodes', {a, h, t}) && NodeAt(nodes', a, h, t)
    requires NodeAt(nodes', h, if h == t then a else k.next[h], a)
    requires NodeAt(nodes', t, a, if h == t then a else k.prev[t])
    ensures RingShows(nodes', PushTail(k, a))
  {
    var j := PushTail(k, a);
    forall x | j.Has(x) && x != a && x != h && x != t
      ensures x in j.prev && NodeAt(nodes', x, j.next[x], j.prev[x])
    {
      assert k.Has(x);
    }
  }

  /** Joining the neighbours' links takes a node out of a ring. */
  lemma RemoveShows(nodes: Nodes, k: Links, a: int, n: int, p: int, nodes': Nodes)
    requires RingShows(nodes, k) && k.Next(a, n) && k.Prev(a, p) && n != a && p != a
    requires k.Has(n) && k.Has(p) && n in k.prev && p in k.prev
    requires Relinked(nodes, nodes', {a, n, p})
    requires NodeAt(nodes', n, if n == p then n else k.next[n], p)
    requires NodeAt(nodes', p, n, if n == p then n else k.prev[p])
    ensures RingShows(nodes', UnlinkAdvance(k, a))
  {
    var j := UnlinkAdvance(k, a);
    forall x | j.Has(x) && x != n && x != p
      ensures x in j.prev && NodeAt(nodes', x, j.next[x], j.prev[x])
    {
      assert k.Has(x);
    }
  }

  lemma RingKept(nodes: Nodes, nodes': Nodes, k: Links, s: seq<int>, who: set<int>)
    requires RingShows(nodes, k) && IsList(k, s) && Relinked(nodes, nodes', who)
    requires forall a | a in s :: a !in who
    ensures RingShows(nodes', k)
  {
  }

  function Elements(s: seq<int>): set<int>
  {
    set a | a in s
  }

  lemma ElementsOf(s: seq<int>)
    ensures forall a :: a in Elements(s) <==> a in s
  {
  }

  lemma ListWithout(k: Links, s: seq<int>, i: nat)
    requires IsList(k, s) && i < |s|
    ensures forall a :: a in Without(s, i) <==> a in s && a != s[i]
    ensures s[i] in s
  {
    WithoutMembers(s, i);
  }

  lemma NodeKept(nodes: Nodes, nodes': Nodes, k: Links, a: int, who: set<int>)
    requires RingShows(nodes, k) && a in k.next && Relinked(nodes, nodes', who)
    ensures a in nodes'
  {
  }

  lemma RelinkedBoth(x: Nodes, y: Nodes, z: Nodes, p: set<int>, q: set<int>, r: set<int>)
    requires Relinked(x, y, p) && Relinked(y, z, q) && p <= r && q <= r
    ensures Relinked(x, z, r)
  {
  }

  function First(f: seq<int>): int { if f == [] then 0 else f[0] }

  /** Each slab's node counts its free objects and points at the first. */
  ghost predicate SlabsShow(nodes: Nodes, free: map<int, seq<int>>)
  {
    forall a | a in free ::
      a in nodes && nodes[a].VerifyChecksum() && nodes[a].avail == |free[a]| && nodes[a].free == First(free[a])
  }

  /** Each free object's next word leads to the one after it, 0 at the end. */
  ghost predicate ChainShows(next: map<int, int>, f: seq<int>)
  {
    forall i | 0 <= i < |f| :: Leads(next, f[i], Later(f, i))
  }

  predicate Leads(next: map<int, int>, x: int, y: int)
  {
    x in next && next[x] == y
  }

  function Later(f: seq<int>, i: nat): int
    requires i < |f|
  {
    if i + 1 < |f| then f[i + 1] else 0
  }

  ghost predicate ObjectsShow(g: Geometry, next: map<int, int>, s: State)
  {
    && (forall a | a in s.free :: ChainShows(next, s.free[a]) && !IsObject(g, a, POISON))
    && (forall o | o in s.live :: o in next && next[o] == POISON)
  }

  ghost predicate RingsShow(nodes: Nodes, s: State, unused: int, inUse: int, empty: int,
                            kUnused: Links, kInUse: Links, kEmpty: Links)
  {
    && IsList(kUnused, s.unused) && unused == kUnused.head && RingShows(nodes, kUnused)
    && IsList(kInUse, s.inUse) && inUse == kInUse.head && RingShows(nodes, kInUse)
    && IsList(kEmpty, s.empty) && empty == kEmpty.head && RingShows(nodes, kEmpty)
  }

  /** The counters of slabs, of objects handed out and of objects available. */
  ghost predicate Counts(g: Geometry, s: State, slabs: int, out: int, available: int)
  {
    slabs == |s.free.Keys| && out == |s.live| && out + available == g.objs * slabs
  }

  class Manager {
    const g: Geometry
    var unused: nat
    var inUse: nat
    var empty: nat
    var slabsAllocated: int
    var objectsAllocated: int
    var objectsAvailable: int

    // Memory: the slab nodes, and the word that follows each object.
    var nodes: Nodes
    var next: map<int, int>

    ghost var s: State
    ghost var kUnused: Links
    ghost var kInUse: Links
    ghost var kEmpty: Links

    ghost predicate Stored()
      reads this
    {
      && RingsShow(nodes, s, unused, inUse, empty, kUnused, kInUse, kEmpty)
      && SlabsShow(nodes, s.free) && ObjectsShow(g, next, s)
    }

    ghost predicate Counted()
      reads this
    {
      Counts(g, s, slabsAllocated, objectsAllocated, objectsAvailable)
    }

    ghost predicate Valid()
      reads this
    {
      Stored() && Safe(g, s) && Counted()
    }

    constructor (g: Geometry)
      requires Proper(g)
      ensures Valid() && this.g == g && s == START
    {
      this.g := g;
      unused, inUse, empty := 0, 0, 0;
      slabsAllocated, objectsAllocated, objectsAvailable := 0, 0, 0;
      nodes, next := map[], map[];
      s := START;
      kUnused, kInUse, kEmpty := EMPTY, EMPTY, EMPTY;
      new;
      assert s.free.Keys == {};
    }

    lemma StoredSlab(a: int)
      requires Stored() && a in s.free
      ensures a in nodes && nodes[a].VerifyChecksum() && nodes[a].avail == |s.free[a]|
    {
      hide RingsShow, ObjectsShow;
    }

    /** Writes a node's links and updates its checksum. */
    method WriteLinks(a: nat, next: nat, prev: nat)
      requires a in nodes
      modifies this`nodes
      ensures NodeAt(nodes, a, next, prev) && Relinked(old(nodes), nodes, {a})
    {
      nodes := nodes[a := nodes[a].(prev := prev, next := next).UpdateChecksum()];
    }

    method AppendNode(node: nat, list: nat, tail: nat)
      requires node in nodes && list in nodes && tail in nodes && node != list && node != tail
      modifies this`nodes
      ensures Relinked(old(nodes), nodes, {node, list, tail}) && NodeAt(nodes, node, list, tail)
      ensures NodeAt(nodes, list, if list == tail then node else old(nodes[list].next), node)
      ensures NodeAt(nodes, tail, node, if list == tail then node else old(nodes[tail].prev))
    {
      hide SlabNode.Sum;
      WriteLinks(node, list, tail);
      WriteLinks(list, nodes[list].next, node);
      WriteLinks(tail, node, nodes[tail].prev);
    }

    method BypassNode(node: nat, n: nat, p: nat)
      requires node in nodes && n in nodes && p in nodes && node != n && node != p
      modifies this`nodes
      ensures Relinked(old(nodes), nodes, {node, n, p}) && NodeAt(nodes, node, 0, 0)
      ensures NodeAt(nodes, n, if n == p then n else old(nodes[n].next), p)
      ensures NodeAt(nodes, p, n, if n == p then n else old(nodes[p].prev))
    {
      hide SlabNode.Sum;
      WriteLinks(n, nodes[n].next, p);
      WriteLinks(p, n, nodes[p].prev);
      WriteLinks(node, 0, 0);
    }

    /** Adds a slab to the tail of a list; the new head is returned. */
    method AddSlabToTail(list: nat, node: nat, ghost k: Links, ghost s: seq<int>) returns (list': nat)
      requires IsList(k, s) && RingShows(nodes, k) && list == k.head
      requires node != 0 ==> node !in s && node in nodes && nodes[node].VerifyChecksum()
      modifies this`nodes
      ensures node == 0 ==> list' == list && nodes == old(nodes)
      ensures node != 0 ==>
                && (k.head != 0 ==> k.head in k.prev)
                && IsList(PushTail(k, node), s + [node]) && RingShows(nodes, PushTail(k, node))
                && list' == PushTail(k, node).head
                && Relinked(old(nodes), nodes, {node} + Elements(s))
    {
      hide SlabNode.Sum;
      if node == 0 {
        return list;
      }
      PushTailAppends(k, s, node);
      ghost var before := nodes;
      if list == 0 {
        WriteLinks(node, node, node);
        return node;
      }
      TailOf(k, s);
      assert k.Has(list);
      var tail := nodes[list].prev;
      assert tail in s && k.Has(tail);
      assert k.Prev(list, tail) && k.Next(tail, list);
      assert nodes[list].VerifyChecksum() && nodes[tail].VerifyChecksum();
      AppendNode(node, list, tail);
      AppendShows(before, k, node, list, tail, nodes);
      return list;
    }

    /** Removes a slab from a list; the new head is returned. */
    method RemoveSlabFromList(list: nat, node: nat, ghost k: Links, ghost s: seq<int>, ghost i: nat)
      returns (list': nat)
      requires IsList(k, s) && RingShows(nodes, k) && list == k.head
      requires i < |s| && s[i] == node != 0
      modifies this`nodes
      ensures node in k.next && node in k.prev
      ensures IsList(UnlinkAdvance(k, node), Without(s, i)) && RingShows(nodes, UnlinkAdvance(k, node))
      ensures list' == UnlinkAdvance(k, node).head
      ensures Relinked(old(nodes), nodes, Elements(s)) && nodes[node].VerifyChecksum()
    {
      hide *;
      ghost var before := nodes;
      NeighboursListed(k, s, i);
      UnlinkAdvanceRemoves(k, s, i);
      RingNode(nodes, k, node);
      RingNode(nodes, k, k.next[node]);
      RingNode(nodes, k, k.prev[node]);
      var n, p := nodes[node].next, nodes[node].prev;
      if p == node && n == node {
        WriteLinks(node, 0, 0);
        EmptyRing(nodes, UnlinkAdvance(k, node));
        WrittenNode(before, nodes, node, {node}, Elements(s));
        return 0;
      }
      BypassNode(node, n, p);
      RemoveShows(before, k, node, n, p, nodes);
      WrittenNode(before, nodes, node, {node, n, p}, Elements(s));
      JoinedHead(nodes, n, p);
      list' := if list == node then nodes[p].next else list;
    }

    /** Moves a slab from one list to the tail of another. */
    method MoveSlab(from: nat, to: nat, node: nat, ghost kf: Links, ghost sf: seq<int>, ghost i: nat,
                    ghost kt: Links, ghost st: seq<int>)
      returns (from': nat, to': nat, ghost kf': Links, ghost kt': Links)
      requires IsList(kf, sf) && RingShows(nodes, kf) && from == kf.head
      requires IsList(kt, st) && RingShows(nodes, kt) && to == kt.head
      requires i < |sf| && sf[i] == node != 0 && forall a | a in st :: a !in sf
      modifies this`nodes
      ensures IsList(kf', Without(sf, i)) && RingShows(nodes, kf') && from' == kf'.head
      ensures IsList(kt', st + [node]) && RingShows(nodes, kt') && to' == kt'.head
      ensures Relinked(old(nodes), nodes, Elements(sf) + Elements(st))
    {
      hide *;
      ghost var before := nodes;
      ListWithout(kf, sf, i);
      from' := RemoveSlabFromList(from, node, kf, sf, i);
      kf' := UnlinkAdvance(kf, node);
      ghost var mid := nodes;
      ElementsOf(st);
      ElementsOf(sf);
      RingKept(before, mid, kt, st, Elements(sf));
      NodeKept(before, mid, kf, node, Elements(sf));
      to' := AddSlabToTail(to, node, kt, st);
      kt' := PushTail(kt, node);
      RingKept(mid, nodes, kf', Without(sf, i), {node} + Elements(st));
      RelinkedBoth(before, mid, nodes, Elements(sf), {node} + Elements(st), Elements(sf) + Elements(st));
    }

    /** If no slab is in use, moves the first unused slab to the in-use list. */
    method PromoteUnused()
      requires Stored() && Safe(g, s)
      modifies this`nodes, this`unused, this`inUse, this`s, this`kUnused, this`kInUse
      ensures Stored() && s == Promote(old(s))
    {
      hide IsList, RingShows, SlabsShow, ObjectsShow, Relinked, Safe, Elements, Without;
      ghost var before := nodes;
      ListHead(kUnused, s.unused);
      ListHead(kInUse, s.inUse);
      if inUse == 0 && unused != 0 {
        ListsApart(g, s);
        unused, inUse, kUnused, kInUse := MoveSlab(unused, inUse, unused, kUnused, s.unused, 0, kInUse, s.inUse);
        ElementsOf(s.unused);
        ElementsOf(s.inUse);
        RingKept(before, nodes, kEmpty, s.empty, Elements(s.unused) + Elements(s.inUse));
        SlabsKept(before, nodes, s.free, Elements(s.unused) + Elements(s.inUse));
        PromotedObjects(g, next, s);
        s := Promote(s);
      }
    }

    /** Chains the objects of a new slab, and writes its node. */
    method InitSlab(base: nat, node: nat)
      requires Proper(g) && IsSlab(g, node) && base == Base(g, node)
      modifies this`nodes, this`next
      ensures ChainShows(next, Objects(g, base, g.objs))
      ensures forall o | o in old(next) && o !in Objects(g, base, g.objs) :: o in next && next[o] == old(next)[o]
      ensures node in nodes && nodes[node].VerifyChecksum() && nodes[node].avail == g.objs
      ensures nodes[node].free == First(Objects(g, base, g.objs))
      ensures forall a | a in old(nodes) && a != node :: a in nodes && nodes[a] == old(nodes)[a]
    {
      var obj, free, i := base, 0, 0;
      while i < g.objs
        invariant 0 <= i <= g.objs && obj == ObjAddr(g, base, i) && free == First(Objects(g, base, i))
        invariant ChainShows(next, Objects(g, base, i))
        invariant forall o | o in old(next) && o !in Objects(g, base, i) :: o in next && next[o] == old(next)[o]
        invariant nodes == old(nodes) && free >= 0 && obj >= base
      {
        ObjectFacts(g, base, i);
        ChainGrows(next, Objects(g, base, i), obj);
        next := next[obj := free];
        free := obj;
        obj := obj + g.objSize;
        i := i + 1;
      }
      nodes := nodes[node := SlabNode(g.objs, free, 0, 0, 0).UpdateChecksum()];
    }

    /** If still no slab is in use, takes one from the page allocator, if it gives one,
        whose base address is the given one. */
    method AllocSlab(given: Option<nat>)
      requires Stored() && Sorting(g, s) && Divided(g, s) && Proper(g)
      requires given.Some? ==> var a := given.value + g.nodeOffset;
                 IsSlab(g, a) && a !in s.free && !IsObject(g, a, POISON)
      modifies this`nodes, this`next, this`inUse, this`s, this`kInUse, this`slabsAllocated, this`objectsAvailable
      ensures var grown := old(s).inUse == [] && given.Some?;
              && slabsAllocated == old(slabsAllocated) + (if grown then 1 else 0)
              && objectsAvailable == old(objectsAvailable) + (if grown then g.objs else 0)
      ensures Stored() && s == Grow(g, old(s), GivenNode(g, given))
    {
      hide IsList, RingShows, SlabsShow, ObjectsShow, Relinked, Sorting, Divided, Proper, IsSlab, IsObject, Elements,
        ChainShows, PushTail, Objects, SlabNode.VerifyChecksum;
      ListHead(kInUse, s.inUse);
      if inUse == 0 && given.Some? {
        var a := given.value + g.nodeOffset;
        ghost var before, beforeNext := nodes, next;
        NotListed(g, s, a);
        InitSlab(given.value, a);
        ghost var mid := nodes;
        RingsAfterInit(before, mid, kUnused, s.unused, a);
        RingsAfterInit(before, mid, kEmpty, s.empty, a);
        RingsAfterInit(before, mid, kInUse, s.inUse, a);
        inUse := AddSlabToTail(inUse, a, kInUse, s.inUse);
        kInUse := PushTail(kInUse, a);
        ElementsOf(s.inUse);
        RingKept(mid, nodes, kUnused, s.unused, {a} + Elements(s.inUse));
        RingKept(mid, nodes, kEmpty, s.empty, {a} + Elements(s.inUse));
        GrownShows(g, s, a, before, mid, nodes, beforeNext, next);
        s := Grow(g, s, Some(a));
        slabsAllocated := slabsAllocated + 1;
        objectsAvailable := objectsAvailable + g.objs;
      }
    }

    /** Hands out the first object of the first slab in use, if there is one. */
    method TakeObject() returns (r: Option<int>)
      requires Stored() && Sorting(g, s) && Divided(g, s) && Proper(g)
      modifies this`nodes, this`next, this`inUse, this`empty, this`s, this`kInUse, this`kEmpty
      ensures Stored() && old(s.inUse != [] ==> s.inUse[0] in s.free && s.free[s.inUse[0]] != [])
      ensures Take(old(s)) == Reply(s, r)
    {
      hide IsList, RingShows, SlabsShow, ObjectsShow, Relinked, Sorting, Divided, Proper, IsSlab, IsObject, Elements,
        ChainShows;
      ListHead(kInUse, s.inUse);
      TakeFacts(g, nodes, next, s);
      if inUse == 0 {
        return None;
      }
      var a := inUse;
      ghost var before := nodes;
      assert nodes[a].VerifyChecksum() && nodes[a].free != 0 && nodes[a].avail > 0;
      var o := nodes[a].free;
      var avail := nodes[a].avail - 1;
      nodes := nodes[a := nodes[a].(avail := avail, free := next[o]).UpdateChecksum()];
      next := next[o := POISON];
      ghost var mid := nodes;
      RingsAfterWrite(before, mid, kUnused, s.unused, a);
      RingsAfterWrite(before, mid, kInUse, s.inUse, a);
      RingsAfterWrite(before, mid, kEmpty, s.empty, a);
      ghost var was := s;
      if avail == 0 {
        TakeApart(g, s);
        inUse, empty, kInUse, kEmpty := MoveSlab(inUse, empty, a, kInUse, s.inUse, 0, kEmpty, s.empty);
        ElementsOf(s.inUse);
        ElementsOf(s.empty);
        RingKept(mid, nodes, kUnused, s.unused, Elements(s.inUse) + Elements(s.empty));
        SlabsKept(mid, nodes, s.free[a := s.free[a][1..]], Elements(s.inUse) + Elements(s.empty));
      }
      s := Take(s).state;
      r := Some(o);
    }

    /** Allocates an object, taking a slab from the page allocator if none is left;
        given is the slab the page allocator gives when asked. */
    method Alloc(given: Option<nat>) returns (r: Option<int>)
      requires Valid() && Fresh(g, s, GivenNode(g, given))
      requires given.Some? ==> !IsObject(g, given.value + g.nodeOffset, POISON)
      modifies this
      ensures Valid() && Takes(g, old(s), GivenNode(g, given), s, r)
    {
      hide Stored, Counts, Safe, Fresh, GivenNode, IsObject, Takes;
      r := AllocCounted(given);
    }

    /** Alloc, in terms of what the counters mean. */
    method AllocCounted(given: Option<nat>) returns (r: Option<int>)
      requires Stored() && Safe(g, s) && Counts(g, s, slabsAllocated, objectsAllocated, objectsAvailable)
      requires Fresh(g, s, GivenNode(g, given)) && (given.Some? ==> !IsObject(g, given.value + g.nodeOffset, POISON))
      modifies this
      ensures Stored() && Safe(g, s) && Counts(g, s, slabsAllocated, objectsAllocated, objectsAvailable)
      ensures Takes(g, old(s), GivenNode(g, given), s, r)
    {
      hide *;
      ghost var s0 := s;
      ghost var slabs, out, available := slabsAllocated, objectsAllocated, objectsAvailable;
      r := AllocObject(given);
      AllocEnds(g, s0, GivenNode(g, given), s, r, slabs, out, available, slabsAllocated, objectsAllocated,
                objectsAvailable);
    }

    /** Alloc but for what its counters mean. */
    method AllocObject(given: Option<nat>) returns (r: Option<int>)
      requires Stored() && Safe(g, s) && Fresh(g, s, GivenNode(g, given))
      requires given.Some? ==> !IsObject(g, given.value + g.nodeOffset, POISON)
      modifies this
      ensures Stored() && Takes(g, old(s), GivenNode(g, given), s, r)
      ensures CountersMoved(g, old(s), GivenNode(g, given), r,
                            old(slabsAllocated), old(objectsAllocated), old(objectsAvailable),
                            slabsAllocated, objectsAllocated, objectsAvailable)
    {
      hide *;
      ghost var s0 := s;
      ghost var slabs, out, available := slabsAllocated, objectsAllocated, objectsAvailable;
      AllocSteps(g, s, GivenNode(g, given));
      GivenAddress(g, given);
      r := PromoteGrowTake(given);
      AllocSum(g, s0, GivenNode(g, given), s, r, slabs, out, available, slabsAllocated, objectsAllocated,
               objectsAvailable);
    }

    /** The three steps of Alloc. */
    method PromoteGrowTake(given: Option<nat>) returns (r: Option<int>)
      requires Stored() && Safe(g, s)
      requires var p, t := Promote(s), Grow(g, Promote(s), GivenNode(g, given));
               && Sorting(g, p) && Divided(g, p) && Proper(g) && Sorting(g, t) && Divided(g, t)
               && (t.inUse != [] ==> t.inUse[0] in t.free && t.free[t.inUse[0]] != [])
               && (given.Some? ==>
                     var a := given.value + g.nodeOffset;
                     IsSlab(g, a) && a !in p.free && !IsObject(g, a, POISON))
      modifies this
      ensures Stored()
      ensures var p, t := Promote(old(s)), Grow(g, Promote(old(s)), GivenNode(g, given));
              && Take(t) == Reply(s, r)
              && slabsAllocated == old(slabsAllocated) + (if p.inUse == [] && given.Some? then 1 else 0)
              && objectsAllocated == (if r.Some? then old(objectsAllocated) + 1 else old(objectsAllocated))
              && objectsAvailable == old(objectsAvailable) + (if p.inUse == [] && given.Some? then g.objs else 0)
                                     - (if r.Some? then 1 else 0)
    {
      hide *;
      PromoteUnused();
      AllocSlab(given);
      r := TakeObject();
      if r.Some? {
        CountObjects(1);
      }
    }

    /** Moves n objects from available to handed out in the counters. */
    method CountObjects(n: int)
      requires Stored()
      modifies this`objectsAllocated, this`objectsAvailable
      ensures Stored() && objectsAllocated == old(objectsAllocated) + n && objectsAvailable == old(objectsAvailable) - n
    {
      hide RingsShow, SlabsShow, ObjectsShow;
      objectsAllocated := objectsAllocated + n;
      objectsAvailable := objectsAvailable - n;
    }

    /** Moves a slab with no free objects to the in-use list. */
    method ReopenSlab(node: nat)
      requires Stored() && ListsDisjoint(s) && node in s.free && node != 0
      requires s.free[node] == [] ==> node in s.empty
      modifies this`nodes, this`empty, this`inUse, this`s, this`kEmpty, this`kInUse
      ensures Stored() && s == Reopen(old(s), node) && ListsDisjoint(s)
    {
      hide IsList, RingShows, SlabsShow, ObjectsShow, Relinked, Elements, ListsDisjoint;
      SlabAt(nodes, s.free, node);
      if nodes[node].avail == 0 {
        ghost var before, t := nodes, s;
        ApartLists(s);
        MovedLists(g, next, s, node);
        empty, inUse, kEmpty, kInUse :=
          MoveSlab(empty, inUse, node, kEmpty, s.empty, IndexOf(s.empty, node), kInUse, s.inUse);
        ElementsOf(s.inUse);
        ElementsOf(s.empty);
        RingKept(before, nodes, kUnused, s.unused, Elements(s.empty) + Elements(s.inUse));
        SlabsKept(before, nodes, s.free, Elements(s.empty) + Elements(s.inUse));
        s := Reopen(s, node);
      }
    }

    /** Moves a slab with all objects free to the unused list. */
    method RetireSlab(node: nat)
      requires Stored() && ListsDisjoint(s) && node in s.free && node != 0
      requires |s.free[node]| == g.objs ==> node in s.inUse
      modifies this`nodes, this`unused, this`inUse, this`s, this`kUnused, this`kInUse
      ensures Stored() && s == Retire(g, old(s), node)
    {
      hide IsList, RingShows, SlabsShow, ObjectsShow, Relinked, Elements, ListsDisjoint;
      SlabAt(nodes, s.free, node);
      if nodes[node].avail == g.objs {
        ghost var before := nodes;
        ApartLists(s);
        MovedLists(g, next, s, node);
        inUse, unused, kInUse, kUnused :=
          MoveSlab(inUse, unused, node, kInUse, s.inUse, IndexOf(s.inUse, node), kUnused, s.unused);
        ElementsOf(s.inUse);
        ElementsOf(s.unused);
        RingKept(before, nodes, kEmpty, s.empty, Elements(s.inUse) + Elements(s.unused));
        SlabsKept(before, nodes, s.free, Elements(s.inUse) + Elements(s.unused));
        s := Retire(g, s, node);
      }
    }

    /** Puts an object on its slab's free list, unless it is not poisoned. */
    method PutObject(node: nat, obj: nat) returns (ok: bool)
      requires Stored() && Divided(g, s) && Proper(g) && obj > 0
      requires node in s.free && node == NodeOf(g, obj) && IsObject(g, node, obj)
      modifies this`nodes, this`next, this`s
      ensures ok <==> obj in old(s).live
      ensures ok ==> Stored() && s == PutBack(old(s), node, obj)
    {
      hide IsList, RingShows, SlabsShow, ObjectsShow, Divided, Proper, IsObject, ChainShows;
      PoisonTells(g, next, s, obj);
      SlabAt(nodes, s.free, node);
      if next[obj] != POISON {
        return false;
      }
      PutShows(g, nodes, next, s, node, obj);
      ghost var before := nodes;
      next := next[obj := nodes[node].free];
      nodes := nodes[node := nodes[node].(avail := nodes[node].avail + 1, free := obj).UpdateChecksum()];
      RingsAfterWrite(before, nodes, kUnused, s.unused, node);
      RingsAfterWrite(before, nodes, kInUse, s.inUse, node);
      RingsAfterWrite(before, nodes, kEmpty, s.empty, node);
      s := PutBack(s, node, obj);
      ok := true;
    }

    /** Releases an object back to its slab. False means an assertion failed and the
        kernel panicked. */
    method Free(obj: nat) returns (ok: bool)
      requires Valid() && (obj != 0 ==> NodeOf(g, obj) in s.free && IsObject(g, NodeOf(g, obj), obj))
      modifies this
      ensures obj == 0 ==> ok && s == old(s)
      ensures obj != 0 ==> Gives(g, old(s), obj, ok, s)
      ensures ok ==> Valid()
    {
      if obj == 0 {
        return true;
      }
      hide Stored, Counts, Safe, Gives, NodeOf, IsObject;
      ok := FreeCounted(obj);
    }

    /** Free for an address that is not null. */
    method FreeCounted(obj: nat) returns (ok: bool)
      requires Stored() && Safe(g, s) && Counts(g, s, slabsAllocated, objectsAllocated, objectsAvailable)
      requires obj != 0 && NodeOf(g, obj) in s.free && IsObject(g, NodeOf(g, obj), obj)
      modifies this
      ensures Gives(g, old(s), obj, ok, s)
      ensures ok ==> Stored() && Safe(g, s) && Counts(g, s, slabsAllocated, objectsAllocated, objectsAvailable)
    {
      hide *;
      ghost var s0 := s;
      ok := FreeObject(obj);
      if ok {
        FreeSafe(g, s0, obj, s, slabsAllocated, objectsAllocated, objectsAvailable);
        CountObjects(-1);
      }
    }

    /** Free but for the counters. */
    method FreeObject(obj: nat) returns (ok: bool)
      requires Stored() && Safe(g, s) && obj != 0 && NodeOf(g, obj) in s.free && IsObject(g, NodeOf(g, obj), obj)
      modifies this`nodes, this`next, this`unused, this`inUse, this`empty
      modifies this`s, this`kUnused, this`kInUse, this`kEmpty
      ensures Gives(g, old(s), obj, ok, s) && (ok ==> Stored())
    {
      hide *;
      var node := NodeOf(g, obj);
      ghost var s0 := s;
      FreeSteps(g, s, obj);
      StoredSlab(node);
      if nodes[node].avail >= g.objs {
        FullSlab(g, s, obj);
        return false;
      }
      ReopenSlab(node);
      ok := PutObject(node, obj);
      if ok {
        RetireSlab(node);
      }
      FreeSum(g, s0, obj, ok, s);
    }

    /** Returns every unused slab to the page allocator, in the order given by freed; the
        nodes read and poisoned, one before each return, are those in accessed. False means
        the list was empty and the null node made the kernel panic. */
    method FreeUnused() returns (ok: bool, freed: seq<int>, ghost accessed: seq<int>)
      requires Valid()
      modifies this
      ensures ok <==> old(s).unused != []
      ensures ok ==> Valid() && s == Sweep(old(s)) && ReturnedInOrder(g, old(s).unused, freed)
      ensures ok ==> accessed == old(s).unused
      ensures ok ==> (AccessedReturned(g, accessed, freed) <==> |old(s).unused| > 1)
    {
      hide Safe, RingsShow, SlabsShow, ObjectsShow, Counts, IsList, ReturnedInOrder, Sweep, AccessedReturned;
      UnusedHead(g, nodes, s, unused, inUse, empty, kUnused, kInUse, kEmpty);
      if unused == 0 {
        return false, [], [];
      }
      ghost var before := nodes;
      SweepCounts(g, s, slabsAllocated, objectsAllocated, objectsAvailable);
      SweepSafe(g, s);
      freed, accessed := ReturnSlabs(kUnused, s.unused);
      AccessedReturnedIff(g, s.unused, freed);
      SweepShows(g, before, nodes, next, s, unused, inUse, empty, kUnused, kInUse, kEmpty);
      unused, kUnused, s := 0, EMPTY, Sweep(s);
      ok := true;
    }

    /** The loop of FreeUnused. */
    method ReturnSlabs(ghost k: Links, ghost u: seq<int>) returns (freed: seq<int>, ghost accessed: seq<int>)
      requires IsList(k, u) && RingShows(nodes, k) && unused == k.head && u != [] && 0 !in u
      requires Proper(g) && forall a | a in u :: IsSlab(g, a)
      modifies this`nodes, this`slabsAllocated, this`objectsAvailable
      ensures ReturnedInOrder(g, u, freed) && ElsewhereKept(old(nodes), nodes, u) && accessed == u
      ensures slabsAllocated == old(slabsAllocated) - |u|
      ensures objectsAvailable == old(objectsAvailable) - g.objs * |u|
    {
      hide *;
      var a := unused;
      freed, accessed := [], [];
      ghost var before := nodes;
      ghost var i := 0;
      ReturnedNone(g, nodes, k, u);
      while true
        invariant 0 <= i < |u| && a == u[i] && ReturnedTo(g, before, nodes, u, i, freed) && accessed == u[..i]
        invariant slabsAllocated == old(slabsAllocated) - i && objectsAvailable == old(objectsAvailable) - g.objs * i
        decreases |u| - i
      {
        Successor(g, before, k, u, i);
        var n := ReturnNext(a, before, u, i, freed);
        freed, accessed := freed + [AlignDown(n, g.shift)], accessed + [a];
        TimesNext(g.objs, i);
        i := i + 1;
        a := n;
        if a == unused {
          break;
        }
      }
      ReturnedAll(g, before, nodes, u, freed);
    }

    /** Poisons the node at a and lowers the counters; the node's successor is returned. */
    method ReturnNext(a: nat, ghost before: Nodes, ghost u: seq<int>, ghost i: nat, ghost freed: seq<int>)
      returns (n: nat)
      requires i < |u| && a == u[i] && ReturnedTo(g, before, nodes, u, i, freed) && u[i] !in u[..i]
      requires u[i] in before && before[u[i]].next == After(u, i) && before[u[i]].VerifyChecksum()
      requires AlignDown(After(u, i), g.shift) == Base(g, After(u, i))
      modifies this`nodes, this`slabsAllocated, this`objectsAvailable
      ensures n == After(u, i)
      ensures ReturnedTo(g, before, nodes, u, i + 1, freed + [AlignDown(n, g.shift)])
      ensures slabsAllocated == old(slabsAllocated) - 1 && objectsAvailable == old(objectsAvailable) - g.objs
    {
      ReturnedNext(g, before, nodes, u, i, freed, SlabNode(POISON, POISON, POISON, POISON, POISON));
      assert nodes[a].VerifyChecksum();
      n := nodes[a].next;
      nodes := nodes[a := SlabNode(POISON, POISON, POISON, POISON, POISON)];
      slabsAllocated := slabsAllocated - 1;
      objectsAvailable := objectsAvailable - g.objs;
    }
  }

  /** A change to one word of a valid node is noticed. */
  lemma ChecksumDetects(n: SlabNode, x: nat)
    requires n.VerifyChecksum()
    ensures n.(avail := x).VerifyChecksum() <==> x == n.avail
    ensures n.(free := x).VerifyChecksum() <==> x == n.free
    ensures n.(prev := x).VerifyChecksum() <==> x == n.prev
    ensures n.(next := x).VerifyChecksum() <==> x == n.next
    ensures n.(checksum := x).VerifyChecksum() <==> x == n.checksum
  {
    hide Xor;
    var seed := CHECKSUM_SEED;
    forall u: nat, v: nat, w: nat
      ensures Xor(u, w) == Xor(v, w) <==> u == v
    {
      XorRight(u, v, w);
    }
    XorCancels(seed, n.avail, x);
    XorCancels(Xor(seed, n.avail), n.free, x);
    XorCancels(Xor(Xor(seed, n.avail), n.free), n.prev, x);
    XorCancels(Xor(Xor(Xor(seed, n.avail), n.free), n.prev), n.next, x);
  }

  lemma XorRight(u: nat, v: nat, w: nat)
    ensures Xor(u, w) == Xor(v, w) <==> u == v
  {
    XorSwap(0, u, w);
    XorSwap(0, v, w);
    XorCancels(w, u, v);
  }

  /** Only the nodes listed may differ. */
  ghost predicate ElsewhereKept(before: Nodes, after: Nodes, u: seq<int>)
  {
    after.Keys == before.Keys && forall a | a in before && a !in u :: SameAt(before, after, a)
  }

  ghost predicate SameAt(before: Nodes, after: Nodes, a: int)
  {
    a in before && a in after && after[a] == before[a]
  }

  lemma UnusedHead(g: Geometry, nodes: Nodes, s: State, unused: int, inUse: int, empty: int,
                   kUnused: Links, kInUse: Links, kEmpty: Links)
    requires Safe(g, s) && RingsShow(nodes, s, unused, inUse, empty, kUnused, kInUse, kEmpty)
    ensures IsList(kUnused, s.unused) && RingShows(nodes, kUnused) && unused == kUnused.head
    ensures (unused == 0 <==> s.unused == []) && 0 !in s.unused && Proper(g)
    ensures forall a | a in s.unused :: IsSlab(g, a)
  {
    ListHead(kUnused, s.unused);
  }

  lemma SweepCounts(g: Geometry, s: State, slabs: int, out: int, available: int)
    requires Safe(g, s) && Counts(g, s, slabs, out, available)
    ensures Counts(g, Sweep(s), slabs - |s.unused|, out, available - g.objs * |s.unused|)
  {
    SweptKeys(g, s);
    hide Safe, Sweep;
    TimesMinus(g.objs, slabs, |s.unused|);
  }

  lemma SweptKeys(g: Geometry, s: State)
    requires Safe(g, s)
    ensures |Sweep(s).free.Keys| == |s.free.Keys| - |s.unused| && Sweep(s).live == s.live
  {
    hide Divided;
    var u := Elements(s.unused);
    CountDistinct(s.unused, u);
    assert Sweep(s).free.Keys == s.free.Keys - u && u <= s.free.Keys;
    assert |s.free.Keys - u| == |s.free.Keys| - |u|;
  }

  lemma TimesMinus(x: int, m: int, n: int)
    ensures x * (m - n) == x * m - x * n
  {
  }

  lemma SweepShows(g: Geometry, before: Nodes, after: Nodes, next: map<int, int>, s: State, unused: int, inUse: int,
                   empty: int, kUnused: Links, kInUse: Links, kEmpty: Links)
    requires RingsShow(before, s, unused, inUse, empty, kUnused, kInUse, kEmpty) && SlabsShow(before, s.free)
    requires ObjectsShow(g, next, s) && Safe(g, s) && ElsewhereKept(before, after, s.unused)
    ensures RingsShow(after, Sweep(s), 0, inUse, empty, EMPTY, kInUse, kEmpty)
    ensures SlabsShow(after, Sweep(s).free) && ObjectsShow(g, next, Sweep(s))
  {
    hide RingShows, IsList, Safe, SlabsShow, ObjectsShow;
    ListsApart(g, s);
    ElsewhereRing(before, after, kInUse, s.inUse, s.unused);
    ElsewhereRing(before, after, kEmpty, s.empty, s.unused);
    ElsewhereSlabs(g, before, after, next, s);
  }

  lemma ElsewhereRing(before: Nodes, after: Nodes, k: Links, s: seq<int>, u: seq<int>)
    requires IsList(k, s) && RingShows(before, k) && ElsewhereKept(before, after, u)
    requires forall a | a in u :: a !in s
    ensures RingShows(after, k) && IsList(EMPTY, []) && RingShows(after, EMPTY)
  {
  }

  lemma ElsewhereSlabs(g: Geometry, before: Nodes, after: Nodes, next: map<int, int>, s: State)
    requires SlabsShow(before, s.free) && ObjectsShow(g, next, s) && ElsewhereKept(before, after, s.unused)
    ensures SlabsShow(after, Sweep(s).free) && ObjectsShow(g, next, Sweep(s))
  {
  }

  lemma FullSlab(g: Geometry, s: State, o: int)
    requires NodeOf(g, o) in s.free && |s.free[NodeOf(g, o)]| >= g.objs
    ensures Gives(g, s, o, false, s)
  {
  }

  lemma FreeSum(g: Geometry, s: State, o: int, ok: bool, t: State)
    requires NodeOf(g, o) in s.free && |s.free[NodeOf(g, o)]| < g.objs && (ok <==> o in Reopen(s, NodeOf(g, o)).live)
    requires var a := NodeOf(g, o); a in Reopen(s, a).free && a in PutBack(Reopen(s, a), a, o).free
    requires ok ==> t == Retire(g, PutBack(Reopen(s, NodeOf(g, o)), NodeOf(g, o), o), NodeOf(g, o))
    ensures Gives(g, s, o, ok, t)
  {
  }

  /** The first i steps: the nodes before the i-th of the list may differ and no
      others, and each step returned its successor's slab. */
  ghost predicate ReturnedTo(g: Geometry, before: Nodes, after: Nodes, u: seq<int>, i: nat, freed: seq<int>)
    requires i <= |u|
  {
    && ElsewhereKept(before, after, u[..i])
    && |freed| == i && forall j | 0 <= j < i :: freed[j] == Base(g, After(u, j))
  }

  lemma ReturnedNone(g: Geometry, nodes: Nodes, k: Links, u: seq<int>)
    requires IsList(k, u) && u != []
    ensures ReturnedTo(g, nodes, nodes, u, 0, []) && k.head == u[0]
  {
  }

  lemma ReturnedAll(g: Geometry, before: Nodes, nodes: Nodes, u: seq<int>, freed: seq<int>)
    requires ReturnedTo(g, before, nodes, u, |u|, freed)
    ensures ReturnedInOrder(g, u, freed) && ElsewhereKept(before, nodes, u)
  {
    assert u[..|u|] == u;
  }

  lemma Successor(g: Geometry, nodes: Nodes, k: Links, u: seq<int>, i: nat)
    requires IsList(k, u) && RingShows(nodes, k) && i < |u| && Proper(g) && forall a | a in u :: IsSlab(g, a)
    ensures u[i] in nodes && nodes[u[i]].next == After(u, i) && nodes[u[i]].VerifyChecksum()
    ensures AlignDown(After(u, i), g.shift) == Base(g, After(u, i))
    ensures u[i] !in u[..i] && k.head == u[0]
    ensures After(u, i) == u[0] <==> i + 1 == |u|
    ensures i + 1 < |u| ==> After(u, i) == u[i + 1]
  {
    assert k.Next(u[i], After(u, i)) && k.Has(u[i]);
    ObjectFacts(g, 0, g.objs);
    assert After(u, i) in u && IsSlab(g, After(u, i));
    AlignDownIs(Base(g, After(u, i)), After(u, i), g.shift);
  }

  lemma ReturnedNext(g: Geometry, before: Nodes, nodes: Nodes, u: seq<int>, i: nat, freed: seq<int>, x: SlabNode)
    requires i < |u| && ReturnedTo(g, before, nodes, u, i, freed) && u[i] in before && u[i] !in u[..i]
    ensures u[i] in nodes && nodes[u[i]] == before[u[i]]
    ensures ReturnedTo(g, before, nodes[u[i] := x], u, i + 1, freed + [Base(g, After(u, i))])
  {
    assert SameAt(before, nodes, u[i]);
    var v := u[..i + 1];
    assert v == u[..i] + [u[i]];
    forall a | a in before && a !in v
      ensures SameAt(before, nodes[u[i] := x], a)
    {
      assert a !in u[..i] && u[i] in v;
      assert SameAt(before, nodes, a);
    }
  }

  /** The steps of freeing an object. */
  lemma FreeSteps(g: Geometry, s: State, o: int)
    requires Safe(g, s) && NodeOf(g, o) in s.free && IsObject(g, NodeOf(g, o), o)
    ensures var a := NodeOf(g, o);
            && Proper(g) && a > 0 && ListsDisjoint(s) && (s.free[a] == [] ==> a in s.empty)
            && var t := Reopen(s, a);
            && t.free == s.free && t.live == s.live && Divided(g, t) && ListsDisjoint(t)
            && var u := PutBack(t, a, o);
            && a in u.free && ListsDisjoint(u)
            && (|s.free[a]| < g.objs && |u.free[a]| == g.objs ==> a in u.inUse)
  {
    var a := NodeOf(g, o);
    ObjectNode(g, a, o);
    DropFacts(s.empty, a);
    if s.free[a] == [] { assert a !in s.inUse; }
  }

  /** Freeing o leads from s to t, or panics. */
  ghost predicate Gives(g: Geometry, s: State, o: int, ok: bool, t: State)
    requires NodeOf(g, o) in s.free
  {
    Give(g, s, NodeOf(g, o), o) == if ok then Some(t) else None
  }

  /** A free that does not panic keeps the manager safe and moves one object in the counts. */
  lemma FreeSafe(g: Geometry, s: State, o: int, t: State, slabs: int, out: int, available: int)
    requires Safe(g, s) && Counts(g, s, slabs, out, available) && NodeOf(g, o) in s.free
    requires IsObject(g, NodeOf(g, o), o) && Gives(g, s, o, true, t)
    ensures Safe(g, t) && Counts(g, t, slabs, out - 1, available + 1)
  {
    GiveSafe(g, s, o);
    assert t.free.Keys == s.free.Keys && t.live == s.live - {o};
  }

  ghost predicate ListsDisjoint(s: State)
  {
    && (forall a | a in s.unused :: a !in s.inUse && a !in s.empty)
    && (forall a | a in s.inUse :: a !in s.unused && a !in s.empty)
    && (forall a | a in s.empty :: a !in s.unused && a !in s.inUse)
    && Distinct(s.unused) && Distinct(s.inUse) && Distinct(s.empty)
  }

  lemma ApartLists(s: State)
    requires ListsDisjoint(s)
    ensures forall a | a in s.unused :: a !in s.inUse && a !in s.empty
    ensures forall a | a in s.inUse :: a !in s.unused && a !in s.empty
    ensures forall a | a in s.empty :: a !in s.unused && a !in s.inUse
  {
  }

  lemma SlabAt(nodes: Nodes, free: map<int, seq<int>>, a: int)
    requires SlabsShow(nodes, free) && a in free
    ensures a in nodes && nodes[a].VerifyChecksum() && nodes[a].avail == |free[a]| && nodes[a].free == First(free[a])
  {
  }

  lemma MovedLists(g: Geometry, next: map<int, int>, s: State, a: int)
    requires ObjectsShow(g, next, s) && ListsDisjoint(s) && a in s.free
    ensures a in s.empty ==> Without(s.empty, IndexOf(s.empty, a)) == Drop(s.empty, a)
    ensures a in s.inUse ==> Without(s.inUse, IndexOf(s.inUse, a)) == Drop(s.inUse, a)
    ensures ObjectsShow(g, next, Reopen(s, a)) && ObjectsShow(g, next, Retire(g, s, a))
    ensures a in s.empty ==> ListsDisjoint(Reopen(s, a))
  {
    DropFacts(s.empty, a);
    DropFacts(s.inUse, a);
    assert ObjectsShow(g, next, Reopen(s, a));
  }

  /** The poison word tells whether an object of a slab is handed out. */
  lemma PoisonTells(g: Geometry, next: map<int, int>, s: State, obj: int)
    requires ObjectsShow(g, next, s) && Divided(g, s) && Proper(g)
    requires NodeOf(g, obj) in s.free && IsObject(g, NodeOf(g, obj), obj)
    ensures obj in next && (next[obj] == POISON <==> obj in s.live)
  {
    var a := NodeOf(g, obj);
    var f := s.free[a];
    assert SlabDivided(g, a, f, s.live) && ChainShows(next, f);
    if obj in f {
      var i :| 0 <= i < |f| && f[i] == obj;
      assert Leads(next, f[i], Later(f, i));
      if i + 1 < |f| { assert f[i + 1] in f && IsObject(g, a, f[i + 1]); }
    }
  }

  lemma PutShows(g: Geometry, nodes: Nodes, next: map<int, int>, s: State, a: int, o: int)
    requires SlabsShow(nodes, s.free) && ObjectsShow(g, next, s) && Divided(g, s) && Proper(g)
    requires a in s.free && a == NodeOf(g, o) && IsObject(g, a, o) && o in s.live && o > 0
    ensures var n, t := nodes[a].(avail := nodes[a].avail + 1, free := o).UpdateChecksum(), PutBack(s, a, o);
            SlabsShow(nodes[a := n], t.free) && ObjectsShow(g, next[o := nodes[a].free], t)
  {
    var t, x := PutBack(s, a, o), nodes[a].free;
    forall b | b in t.free
      ensures ChainShows(next[o := x], t.free[b])
    {
      assert ChainShows(next, s.free[b]) && SlabDivided(g, b, s.free[b], s.live);
      if b == a {
        ChainGrows(next, s.free[a], o);
      } else {
        ChainKept(next, s.free[b], o, x);
      }
    }
  }

  /** The node of the slab at the given base. */
  function GivenNode(g: Geometry, given: Option<nat>): Option<int>
  {
    if given.Some? then Some(given.value + g.nodeOffset) else None
  }

  lemma GivenAddress(g: Geometry, given: Option<nat>)
    ensures GivenNode(g, given) == if given.Some? then Some(given.value + g.nodeOffset) else None
  {
  }

  /** The steps of an allocation. */
  lemma AllocSteps(g: Geometry, s: State, slab: Option<int>)
    requires Safe(g, s) && Fresh(g, s, slab)
    ensures Proper(g) && Sorting(g, Promote(s)) && Divided(g, Promote(s))
    ensures Ready(g, s, slab) == Grow(g, Promote(s), slab)
    ensures slab.Some? ==> IsSlab(g, slab.value) && slab.value !in Promote(s).free
    ensures var t := Ready(g, s, slab);
            && Sorting(g, t) && Divided(g, t)
            && (t.inUse != [] ==> t.inUse[0] in t.free && t.free[t.inUse[0]] != [])
            && Safe(g, Take(t).state)
            && (t.inUse != [] ==> t.free[t.inUse[0]][0] !in s.live)
  {
    PromoteSorting(g, s);
    ReadySafe(g, s, slab);
    TakeSafe(g, s, slab);
  }

  /** An allocation leads from s to t and hands out r. */
  ghost predicate Takes(g: Geometry, s: State, slab: Option<int>, t: State, r: Option<int>)
  {
    var u := Ready(g, s, slab);
    && (u.inUse != [] ==> u.inUse[0] in u.free && u.free[u.inUse[0]] != [])
    && Take(u) == Reply(t, r)
  }

  /** How an allocation moves the counters. */
  ghost predicate CountersMoved(g: Geometry, s: State, slab: Option<int>, r: Option<int>, slabs: int, out: int,
                                available: int,
                                slabs': int, out': int, available': int)
  {
    var grown := Promote(s).inUse == [] && slab.Some?;
    && slabs' == slabs + (if grown then 1 else 0)
    && out' == (if r.Some? then out + 1 else out)
    && available' == available + (if grown then g.objs else 0) - (if r.Some? then 1 else 0)
  }

  lemma AllocSum(g: Geometry, s: State, slab: Option<int>, t: State, r: Option<int>, slabs: int, out: int,
                 available: int,
                 slabs': int, out': int, available': int)
    requires var u := Ready(g, s, slab);
             (u.inUse != [] ==> u.inUse[0] in u.free && u.free[u.inUse[0]] != []) && Take(u) == Reply(t, r)
    requires slabs' == slabs + (if Promote(s).inUse == [] && slab.Some? then 1 else 0)
    requires out' == (if r.Some? then out + 1 else out)
    requires var grown := Promote(s).inUse == [] && slab.Some?;
             available' == available + (if grown then g.objs else 0) - (if r.Some? then 1 else 0)
    ensures Takes(g, s, slab, t, r) && CountersMoved(g, s, slab, r, slabs, out, available, slabs', out', available')
  {
  }

  lemma AllocEnds(g: Geometry, s: State, slab: Option<int>, t: State, r: Option<int>, slabs: int, out: int,
                  available: int,
                  slabs': int, out': int, available': int)
    requires Safe(g, s) && Fresh(g, s, slab) && Counts(g, s, slabs, out, available)
    requires Takes(g, s, slab, t, r) && CountersMoved(g, s, slab, r, slabs, out, available, slabs', out', available')
    ensures Safe(g, t) && Counts(g, t, slabs', out', available')
  {
    hide Counts, Safe, Promote, Ready, Sorting, Divided;
    AllocSteps(g, s, slab);
    AllocCounts(g, s, slab, slabs, out, available);
  }

  /** How an allocation moves the counts. */
  lemma AllocCounts(g: Geometry, s: State, slab: Option<int>, slabs: int, out: int, available: int)
    requires Counts(g, s, slabs, out, available) && (slab.Some? ==> slab.value !in s.free)
    requires var t := Ready(g, s, slab);
             t.inUse != [] ==> t.inUse[0] in t.free && t.free[t.inUse[0]] != [] && t.free[t.inUse[0]][0] !in s.live
    ensures var t, grown := Ready(g, s, slab), Promote(s).inUse == [] && slab.Some?;
            var taken := Take(t).obj.Some?;
            && Counts(g, Take(t).state, slabs + (if grown then 1 else 0),
                      if taken then out + 1 else out,
                      available + (if grown then g.objs else 0) - (if taken then 1 else 0))
  {
    hide Grow, Promote, Counts, Take;
    PromoteCounts(g, s, slabs, out, available);
    GrowCounts(g, Promote(s), slab, slabs, out, available);
    var grown := Promote(s).inUse == [] && slab.Some?;
    TakeCounts(g, Ready(g, s, slab), slabs + (if grown then 1 else 0), out,
               available + (if grown then g.objs else 0));
  }

  lemma PromoteCounts(g: Geometry, s: State, slabs: int, out: int, available: int)
    requires Counts(g, s, slabs, out, available)
    ensures Counts(g, Promote(s), slabs, out, available)
    ensures Promote(s).free == s.free && Promote(s).live == s.live
    ensures forall slab :: Grow(g, Promote(s), slab).live == s.live
  {
  }

  lemma TakeCounts(g: Geometry, t: State, slabs: int, out: int, available: int)
    requires Counts(g, t, slabs, out, available)
    requires t.inUse != [] ==> t.inUse[0] in t.free && t.free[t.inUse[0]] != [] && t.free[t.inUse[0]][0] !in t.live
    ensures var taken := Take(t).obj.Some?;
            Counts(g, Take(t).state, slabs, if taken then out + 1 else out, available - (if taken then 1 else 0))
  {
    var r := Take(t);
    if t.inUse != [] {
      assert r.state.free.Keys == t.free.Keys && r.state.live == t.live + {r.obj.value};
    }
  }

  lemma GrowCounts(g: Geometry, p: State, slab: Option<int>, slabs: int, out: int, available: int)
    requires Counts(g, p, slabs, out, available) && (slab.Some? ==> slab.value !in p.free)
    ensures var grown := p.inUse == [] && slab.Some?;
            Counts(g, Grow(g, p, slab), slabs + (if grown then 1 else 0), out,
                   available + (if grown then g.objs else 0))
  {
    if p.inUse == [] && slab.Some? {
      assert Grow(g, p, slab).free.Keys == p.free.Keys + {slab.value};
      TimesNext(g.objs, slabs);
    }
  }

  /** What TakeObject reads and writes, on values. */
  lemma TakeFacts(g: Geometry, nodes: Nodes, next: map<int, int>, s: State)
    requires Sorting(g, s) && Divided(g, s) && Proper(g) && SlabsShow(nodes, s.free) && ObjectsShow(g, next, s)
    ensures s.inUse != [] ==>
              var a := s.inUse[0];
              && a in s.free && s.free[a] != [] && a in nodes && nodes[a].VerifyChecksum()
              && var f := s.free[a];
              && nodes[a].free == f[0] && f[0] > 0 && nodes[a].avail == |f| > 0
              && f[0] in next && next[f[0]] == First(f[1..]) && next[f[0]] >= 0
              && (|f| == 1 <==> f[1..] == [])
              && var node := nodes[a].(avail := |f| - 1, free := next[f[0]]).UpdateChecksum();
              && SlabsShow(nodes[a := node], s.free[a := f[1..]])
              && ObjectsShow(g, next[f[0] := POISON], Take(s).state)
              && Without(s.inUse, 0) == s.inUse[1..]
  {
    if s.inUse != [] {
      var a := s.inUse[0];
      assert a in s.inUse && a in s.free;
      var f := s.free[a];
      assert SlabDivided(g, a, f, s.live) && ChainShows(next, f);
      assert f[0] in f;
      ObjectNode(g, a, f[0]);
      ChainTail(next, f);
      if |f| > 1 {
        assert f[1] in f;
        ObjectNode(g, a, f[1]);
      }
      TakenChains(g, next, s, a);
    }
  }

  lemma TakenChains(g: Geometry, next: map<int, int>, s: State, a: int)
    requires Divided(g, s) && Proper(g) && ObjectsShow(g, next, s)
    requires s.inUse != [] && a == s.inUse[0] && a in s.free && s.free[a] != []
    ensures ObjectsShow(g, next[s.free[a][0] := POISON], Take(s).state)
  {
    var o, t := s.free[a][0], Take(s).state;
    var next' := next[o := POISON];
    assert SlabDivided(g, a, s.free[a], s.live) && o in s.free[a];
    ObjectNode(g, a, o);
    forall b | b in t.free
      ensures ChainShows(next', t.free[b])
    {
      var f := s.free[b];
      assert ChainShows(next, f) && SlabDivided(g, b, f, s.live);
      if b == a {
        assert f == [o] + f[1..] && o !in f[1..];
        ChainTail(next, f);
      } else if o in f {
        ObjectNode(g, b, o);
      }
      ChainKept(next, t.free[b], o, POISON);
    }
  }

  lemma TakeApart(g: Geometry, s: State)
    requires Sorting(g, s) && Proper(g)
    ensures forall a | a in s.empty :: a !in s.inUse
    ensures forall a | a in s.unused :: a !in s.inUse && a !in s.empty
  {
  }

  lemma RingsAfterWrite(nodes: Nodes, nodes': Nodes, k: Links, s: seq<int>, a: int)
    requires RingShows(nodes, k) && IsList(k, s) && a in nodes && a in nodes'
    requires forall b | b in nodes && b != a :: b in nodes' && nodes'[b] == nodes[b]
    requires nodes'[a].next == nodes[a].next && nodes'[a].prev == nodes[a].prev && nodes'[a].VerifyChecksum()
    ensures RingShows(nodes', k)
  {
  }

  lemma ChainGrows(next: map<int, int>, f: seq<int>, o: int)
    requires ChainShows(next, f) && o !in f
    ensures ChainShows(next[o := First(f)], [o] + f)
  {
    var c, n := [o] + f, next[o := First(f)];
    forall i | 0 <= i < |c|
      ensures Leads(n, c[i], Later(c, i))
    {
      if i > 0 {
        assert f[i - 1] in f && Leads(next, f[i - 1], Later(f, i - 1));
      }
    }
  }

  lemma ChainTail(next: map<int, int>, f: seq<int>)
    requires ChainShows(next, f) && f != []
    ensures ChainShows(next, f[1..]) && Leads(next, f[0], First(f[1..]))
  {
    assert Leads(next, f[0], Later(f, 0));
    forall i | 0 <= i < |f[1..]|
      ensures Leads(next, f[1..][i], Later(f[1..], i))
    {
      assert Leads(next, f[i + 1], Later(f, i + 1));
    }
  }

  lemma ChainKept(next: map<int, int>, f: seq<int>, o: int, x: int)
    requires ChainShows(next, f) && o !in f
    ensures ChainShows(next[o := x], f)
  {
    forall i | 0 <= i < |f|
      ensures Leads(next[o := x], f[i], Later(f, i))
    {
      assert f[i] in f && Leads(next, f[i], Later(f, i));
    }
  }

  lemma NotListed(g: Geometry, s: State, a: int)
    requires Sorting(g, s) && a !in s.free && IsSlab(g, a)
    ensures a !in s.unused && a !in s.inUse && a !in s.empty && a != 0
  {
  }

  lemma RingsAfterInit(nodes: Nodes, nodes': Nodes, k: Links, s: seq<int>, a: int)
    requires RingShows(nodes, k) && IsList(k, s) && a !in s
    requires forall b | b in nodes && b != a :: b in nodes' && nodes'[b] == nodes[b]
    ensures RingShows(nodes', k)
  {
  }

  lemma GrownShows(g: Geometry, s: State, a: int, before: Nodes, mid: Nodes, after: Nodes,
                   next: map<int, int>, next': map<int, int>)
    requires Proper(g) && Divided(g, s) && IsSlab(g, a) && a !in s.free && !IsObject(g, a, POISON)
    requires s.inUse == [] && SlabsShow(before, s.free) && ObjectsShow(g, next, s)
    requires a in mid && mid[a].VerifyChecksum() && mid[a].avail == g.objs
    requires mid[a].free == First(Objects(g, Base(g, a), g.objs))
    requires forall b | b in before && b != a :: b in mid && mid[b] == before[b]
    requires Relinked(mid, after, {a} + Elements(s.inUse))
    requires ChainShows(next', Objects(g, Base(g, a), g.objs))
    requires forall o | o in next && o !in Objects(g, Base(g, a), g.objs) :: o in next' && next'[o] == next[o]
    ensures SlabsShow(after, Grow(g, s, Some(a)).free) && ObjectsShow(g, next', Grow(g, s, Some(a)))
    ensures s.inUse + [a] == [a]
  {
    var all := Objects(g, Base(g, a), g.objs);
    ObjectFacts(g, Base(g, a), g.objs);
    forall b | b in s.free
      ensures ChainShows(next', s.free[b])
    {
      assert ChainShows(next, s.free[b]) && SlabDivided(g, b, s.free[b], s.live);
      forall i | 0 <= i < |s.free[b]|
        ensures s.free[b][i] !in all
      {
        var o := s.free[b][i];
        assert o in s.free[b];
        ObjectNode(g, b, o);
        if IsObject(g, a, o) { ObjectNode(g, a, o); }
      }
    }
    forall o | o in s.live
      ensures o !in all
    {
      if IsObject(g, a, o) { ObjectNode(g, a, o); }
    }
  }

  lemma ListHead(k: Links, s: seq<int>)
    requires IsList(k, s)
    ensures k.head == (if s == [] then 0 else s[0]) && 0 !in s
  {
    assert !k.Has(0);
  }

  lemma ListsApart(g: Geometry, s: State)
    requires Safe(g, s)
    ensures forall a | a in s.unused :: a !in s.inUse && a !in s.empty
    ensures forall a | a in s.inUse :: a !in s.unused && a !in s.empty
    ensures forall a | a in s.empty :: a !in s.unused && a !in s.inUse
  {
  }

  lemma SlabsKept(nodes: Nodes, nodes': Nodes, free: map<int, seq<int>>, who: set<int>)
    requires SlabsShow(nodes, free) && Relinked(nodes, nodes', who)
    ensures SlabsShow(nodes', free)
  {
  }

  lemma PromotedObjects(g: Geometry, next: map<int, int>, s: State)
    requires ObjectsShow(g, next, s) && s.unused != [] && s.inUse == []
    ensures s.inUse + [s.unused[0]] == [s.unused[0]]
    ensures ObjectsShow(g, next, Promote(s)) && Without(s.unused, 0) == s.unused[1..]
  {
  }

  lemma NeighboursListed(k: Links, s: seq<int>, i: nat)
    requires IsList(k, s) && i < |s|
    ensures s[i] in k.next && s[i] in k.prev
    ensures var n, p := k.next[s[i]], k.prev[s[i]];
            && n in Elements(s) && p in Elements(s) && s[i] in Elements(s)
            && k.Has(n) && k.Has(p) && n in k.prev && p in k.prev && n in k.next && p in k.next
            && (n == s[i] <==> p == s[i]) && k.Next(s[i], n) && k.Prev(s[i], p)
            && UnlinkAdvance(k, s[i]).head == (if n == s[i] then 0 else if k.head == s[i] then n else k.head)
            && (n == s[i] ==> forall a :: !UnlinkAdvance(k, s[i]).Has(a))
  {
    LoneNode(k, s, i);
    var n, p := k.next[s[i]], k.prev[s[i]];
    assert k.Next(s[i], n) && k.Prev(n, s[i]) && k.Prev(s[i], p) && k.Next(p, s[i]);
    UnlinkAdvanceRemoves(k, s, i);
    assert k.Has(n) && k.Has(p);
    if n == s[i] {
      assert Without(s, i) == [];
    }
  }

  lemma RingNode(nodes: Nodes, k: Links, a: int)
    requires RingShows(nodes, k) && a in k.next && a in k.prev
    ensures a in nodes && nodes[a].next == k.next[a] && nodes[a].prev == k.prev[a] && nodes[a].VerifyChecksum()
  {
    assert k.Has(a);
  }

  lemma EmptyRing(nodes: Nodes, k: Links)
    requires forall a :: !k.Has(a)
    ensures RingShows(nodes, k)
  {
  }

  lemma WrittenNode(before: Nodes, after: Nodes, a: int, who: set<int>, all: set<int>)
    requires Relinked(before, after, who) && who <= all && NodeAt(after, a, 0, 0)
    ensures Relinked(before, after, all) && a in after && after[a].VerifyChecksum()
  {
  }

  lemma JoinedHead(nodes: Nodes, n: int, p: int)
    requires exists x :: NodeAt(nodes, p, n, x)
    ensures p in nodes && nodes[p].next == n
  {
  }
}
