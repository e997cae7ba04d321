/** When the free lists stay reachable: each level's blocks must form one list
    walked from its head. Clearing a node before copying its next word into the head
    loses the rest of a list whose head is removed; these results say exactly when. */
module BuddyOrder {
  import opened Words
  import opened Rings
  import opened BuddyPool

  ghost predicate IsSomeList(k: Links)
  {
    exists s :: IsList(k, s)
  }

  /** Every level from l up is one list reached from its head. */
  ghost predicate Intact(pool: Pool, l: nat)
  {
    forall m | l <= m < |pool| :: IsSomeList(pool[m])
  }

  lemma PushKeepsList(k: Links, b: int)
    requires IsSomeList(k) && b != 0 && !k.Has(b)
    ensures k.head != 0 ==> k.head in k.prev
    ensures IsSomeList(PushTail(k, b))
  {
    var s :| IsList(k, s);
    PushTailAppends(k, s, b);
    assert IsList(PushTail(k, b), s + [b]);
  }

  /** Removing a listed block never panics, and leaves one list exactly when the
      block is not the head of a longer list. */
  lemma UnlinkKeepsListIff(k: Links, b: int)
    requires IsSomeList(k) && k.Has(b)
    ensures b in k.prev && Unlink(k, b).Some?
    ensures IsSomeList(Unlink(k, b).value) <==> !(k.head == b && k.next[b] != b)
  {
    var s :| IsList(k, s);
    var i :| 0 <= i < |s| && s[i] == b;
    UnlinkMeetsIntentIff(k, s, i);
    LoneNode(k, s, i);
    var j := Unlink(k, b).value;
    if k.head == b && k.next[b] != b {
      UnlinkConsistent(k, b);
      assert k.Next(b, k.next[b]) && k.Prev(k.next[b], b);
      assert j.head == 0 && j.Has(k.next[b]);
      assert !IsSomeList(j);
    } else {
      assert IsList(j, Without(s, i));
    }
  }

  lemma EmptyHead(k: Links)
    requires IsSomeList(k)
    ensures k.head == 0 <==> forall b :: !k.Has(b)
  {
    var s :| IsList(k, s);
    if s != [] { assert s[0] in s; }
  }

  // --------------------------------------------------------------- allocation

  /** With every list intact, allocation fails exactly when no aligned run of 2^k
      pages is free anywhere in the area. */
  lemma AllocateCompleteIfIntact(a: Area, pool: Pool, k: nat)
    requires Sound(a, pool) && Coalesced(a, pool) && Intact(pool, 0) && k <= a.top
    ensures Allocate(a, pool, k).NoBlock? <==>
            !exists r: Block :: r.level == k && Aligned(a.base, r) && FreeRun(pool, r)
  {
    if Allocate(a, pool, k).Taken? {
      AllocateSafe(a, pool, k);
      assert FreeRun(pool, Block(Allocate(a, pool, k).page, k));
    } else if exists r: Block :: r.level == k && Aligned(a.base, r) && FreeRun(pool, r) {
      var r: Block :| r.level == k && Aligned(a.base, r) && FreeRun(pool, r);
      var c := RunInOneBlock(a, pool, r);
      EmptyHead(pool[c.level]);
      assert false;
    }
  }

  ghost predicate FreeRun(pool: Pool, r: Block)
  {
    forall q | Covers(r, q) :: IsFree(pool, q)
  }

  /** For any lists, coalesced or not: allocation fails exactly when it asks for more than
      the largest block or no sufficient level has a head. */
  lemma AllocateNoneIff(a: Area, pool: Pool, k: nat)
    requires Sound(a, pool)
    ensures Allocate(a, pool, k).NoBlock? <==> k > a.top || forall l | k <= l <= a.top :: pool[l].head == 0
  {
    SoundSize(a, pool);
    hide Sound, Split;
    if k <= a.top {
      var l := FirstLevel(pool, k);
      if l <= a.top { HeadSplit(a, pool, k); }
    }
  }

  /** For any lists, intact or not: allocation wrongly fails exactly when a block
      large enough is listed but every sufficient level has lost its head. */
  lemma AllocateFailsIff(a: Area, pool: Pool, k: nat)
    requires Sound(a, pool) && Coalesced(a, pool) && k <= a.top
    ensures (Allocate(a, pool, k).NoBlock? && exists r: Block :: r.level == k && Aligned(a.base, r) && FreeRun(pool, r))
       <==> ((forall l | k <= l <= a.top :: pool[l].head == 0) && exists c :: Linked(pool, c) && c.level >= k)
  {
    hide Sound, Coalesced, Multiple, FreeRun;
    SoundSize(a, pool);
    if r: Block :| r.level == k && Aligned(a.base, r) && FreeRun(pool, r) {
      var c := ListedRun(a, pool, r);
    }
    if c :| Linked(pool, c) && c.level >= k {
      RunOfListed(a, pool, c, k);
    }
  }

  lemma ListedRun(a: Area, pool: Pool, r: Block) returns (c: Block)
    requires Sound(a, pool) && Coalesced(a, pool)
    requires Aligned(a.base, r) && r.level <= a.top && FreeRun(pool, r)
    ensures Linked(pool, c) && c.level >= r.level
  {
    hide Sound, Coalesced, Aligned;
    c := RunInOneBlock(a, pool, r);
  }

  /** A listed block begins with a free run of each smaller size. */
  lemma RunOfListed(a: Area, pool: Pool, c: Block, k: nat)
    requires Sound(a, pool) && Linked(pool, c) && k <= c.level
    ensures Aligned(a.base, Block(c.page, k)) && FreeRun(pool, Block(c.page, k))
  {
    hide Sound;
    LinkedPlaced(a, pool, c);
    Coarser(c.page - a.base, k, c.level);
    Pow2Monotone(k, c.level);
    assert forall q | Covers(Block(c.page, k), q) :: Covers(c, q);
  }

  /** An allocation leaves every list intact exactly when the list it takes from has
      a single block. */
  lemma AllocateKeepsIntactIff(a: Area, pool: Pool, k: nat)
    requires Sound(a, pool) && Intact(pool, 0) && Allocate(a, pool, k).Taken?
    ensures var l := FirstLevel(pool, k);
            pool[l].Has(pool[l].head) &&
            (Intact(Allocate(a, pool, k).pool, 0) <==> pool[l].next[pool[l].head] == pool[l].head)
  {
    var l := FirstLevel(pool, k);
    HeadsLinked(a, pool);
    var b := Block(pool[l].head, l);
    assert IsSomeList(pool[l]);
    UnlinkKeepsListIff(pool[l], b.page);
    RemoveBlock(a, pool, b);
    var rest := Remove(pool, b).value;
    assert forall m | 0 <= m < |pool| && m != l :: rest[m] == pool[m];
    SplitKeepsLists(a, rest, b.page, l, k);
    var after := Split(a, rest, b.page, l, k);
    assert after == Allocate(a, pool, k).pool;
    assert after[l] == rest[l];
    assert forall m | l < m < |pool| :: after[m] == pool[m];
  }

  /** Splitting touches only the levels below l, and keeps them lists. */
  lemma {:induction false} SplitKeepsLists(a: Area, pool: Pool, p: int, l: nat, k: nat)
    requires Sound(a, pool) && k <= l < |pool|
    requires Placed(a, Block(p, l)) && Unused(pool, Block(p, l))
    requires forall m | 0 <= m < l :: IsSomeList(pool[m])
    ensures var after := Split(a, pool, p, l, k);
            && (forall m | 0 <= m < l :: IsSomeList(after[m]))
            && (forall m | l <= m < |pool| :: after[m] == pool[m])
    decreases l
  {
    hide Sound, Multiple, Split, Placed, Unused;
    if l == k {
      SplitEnd(a, pool, p, k);
    } else {
      var half := Block(p + Pow2(l - 1), l - 1);
      SplitNext(a, pool, p, l, k);
      UnusedBlock(a, pool, half);
      PushKeepsList(pool[l - 1], half.page);
      var next := Add(pool, half);
      assert forall m | 0 <= m < |pool| && m != l - 1 :: next[m] == pool[m];
      assert IsSomeList(next[l - 1]);
      SplitKeepsLists(a, next, p, l - 1, k);
    }
  }

  // -------------------------------------------------------------------- freeing

  /** Some buddy that freeing b would merge with is the head of a longer list. */
  ghost predicate Strands(a: Area, pool: Pool, b: Block)
    decreases |pool| - b.level
  {
    var c := Buddy(a.base, b);
    && b.level < |pool|
    && Linked(pool, c)
    && ((pool[b.level].head == c.page && pool[b.level].next[c.page] != c.page)
        || Strands(a, pool, Merged(a.base, b)))
  }

  lemma {:induction false} StrandsAbove(a: Area, pool: Pool, pool': Pool, b: Block)
    requires |pool| == |pool'| && forall m | b.level <= m < |pool| :: pool[m] == pool'[m]
    ensures Strands(a, pool, b) == Strands(a, pool', b)
    decreases |pool| - b.level
  {
    if b.level < |pool| { StrandsAbove(a, pool, pool', Merged(a.base, b)); }
  }

  /** With intact lists free never panics, and leaves them intact exactly when none
      of the buddies it merges with is the head of a longer list. */
  lemma {:induction false} FreeKeepsIntactIff(a: Area, pool: Pool, b: Block)
    requires Sound(a, pool) && Placed(a, b) && Unused(pool, b) && b.level <= |pool|
    requires Intact(pool, b.level)
    ensures var r := Coalesce(a, pool, b);
            && !r.Panicked?
            && |r.pool| == |pool| && (forall m | 0 <= m < b.level :: r.pool[m] == pool[m])
            && (Intact(r.pool, b.level) <==> !Strands(a, pool, b))
    decreases |pool| - b.level
  {
    hide Consistent, Multiple, Shr;
    HeadsLinked(a, pool);
    if b.level < |pool| {
      var c, l := Buddy(a.base, b), b.level;
      assert IsSomeList(pool[l]);
      if Linked(pool, c) {
        CoalesceStep(a, pool, b);
        UnlinkKeepsListIff(pool[l], c.page);
        var rest, m := Remove(pool, c).value, Merged(a.base, b);
        FreeKeepsIntactIff(a, rest, m);
        StrandsAbove(a, pool, rest, m);
        IntactFrom(Coalesce(a, rest, m).pool, l);
      } else {
        assert !Linked(pool, b);
        PushKeepsList(pool[l], b.page);
      }
    }
  }

  /** Some buddy that freeing b would merge with is a list of one that no head points to. */
  ghost predicate Orphaned(a: Area, pool: Pool, b: Block)
    decreases |pool| - b.level
  {
    var c := Buddy(a.base, b);
    && b.level < |pool|
    && Linked(pool, c)
    && ((pool[b.level].next[c.page] == c.page != pool[b.level].head)
        || Orphaned(a, pool, Merged(a.base, b)))
  }

  lemma {:induction false} OrphanedAbove(a: Area, pool: Pool, pool': Pool, b: Block)
    requires |pool| == |pool'| && forall m | b.level <= m < |pool| :: pool[m] == pool'[m]
    ensures Orphaned(a, pool, b) == Orphaned(a, pool', b)
    decreases |pool| - b.level
  {
    if b.level < |pool| { OrphanedAbove(a, pool, pool', Merged(a.base, b)); }
  }

  /** With any lists, intact or not: free panics exactly when a buddy it would merge with
      is a list of one that no head points to. */
  lemma {:induction false} FreePanicsIff(a: Area, pool: Pool, b: Block)
    requires Sound(a, pool) && Placed(a, b) && Unused(pool, b) && b.level <= |pool|
    ensures Coalesce(a, pool, b).Panicked? <==> Orphaned(a, pool, b)
    decreases |pool| - b.level
  {
    hide Consistent, Multiple, Shr;
    HeadsLinked(a, pool);
    if b.level < |pool| {
      var c := Buddy(a.base, b);
      if Linked(pool, c) {
        CoalesceStep(a, pool, b);
        RemoveBlock(a, pool, c);
        if Remove(pool, c).Some? {
          var rest, m := Remove(pool, c).value, Merged(a.base, b);
          FreePanicsIff(a, rest, m);
          OrphanedAbove(a, pool, rest, m);
        }
      }
    }
  }

  lemma IntactFrom(pool: Pool, l: nat)
    requires l < |pool|
    ensures Intact(pool, l) <==> IsSomeList(pool[l]) && Intact(pool, l + 1)
  {
  }
}
