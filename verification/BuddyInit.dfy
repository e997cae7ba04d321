/** Filling the free lists of a new allocator from its available ranges. */
module BuddyInit {
  import opened Words
  import opened Rings
  import opened BuddyPool

  /** The pages [base, base + size). */
  datatype Range = Range(base: nat, size: nat)

  function End(r: Range): nat { r.base + r.size }

  predicate Holds(r: Range, q: int)
  {
    r.base <= q < End(r)
  }

  predicate Within(b: Block, r: Range)
  {
    r.base <= b.page && b.page + Pow2(b.level) <= End(r)
  }

  function Min(x: nat, y: nat): nat { if x <= y then x else y }

  /** The level of the block placed at page p with n pages left: bounded by the
      alignment of p, by the top level and by n. */
  function LevelAt(top: nat, p: nat, n: nat): nat
  {
    Min(FloorLog2(n), Min(if p == 0 then 0 else LowestBit(p), top))
  }

  lemma {:induction false} LevelAtLeast(top: nat, p: nat, n: nat, l: nat)
    requires Multiple(p, l) && p > 0 && l <= top && Pow2(l) <= n
    ensures l <= LevelAt(top, p, n)
  {
    if FloorLog2(n) < l { Pow2Monotone(FloorLog2(n) + 1, l); }
    if LowestBit(p) < l { Coarser(p, LowestBit(p) + 1, l); }
  }

  ghost predicate RangeUnused(pool: Pool, lo: int, hi: int)
  {
    forall c | Linked(pool, c) :: c.page + Pow2(c.level) <= lo || hi <= c.page
  }

  predicate Fits(a: Area, p: int, n: int)
  {
    0 < p && a.base <= p && p + n <= a.base + a.size
  }

  lemma PlacedAt(a: Area, p: nat, n: nat)
    requires Multiple(a.base, a.top) && Fits(a, p, n) && n > 0
    ensures var l := LevelAt(a.top, p, n);
            l <= a.top && Pow2(l) <= n && Placed(a, Block(p, l))
  {
    var l := LevelAt(a.top, p, n);
    Pow2Monotone(l, FloorLog2(n));
    Coarser(p, l, LowestBit(p));
    Coarser(a.base, l, a.top);
    MultipleSum(p, a.base, l);
  }

  /** Cut what is left of range r from page p on into blocks, each as large as
      possible, listing each. */
  ghost function Fill(a: Area, pool: Pool, r: Range, p: nat): (after: Pool)
    requires r.base <= p <= End(r)
    requires Multiple(a.base, a.top) && Sound(a, pool) && Fits(a, p, End(r) - p) && RangeUnused(pool, p, End(r))
    ensures Sound(a, after)
    decreases End(r) - p
  {
    if p == End(r) then pool
    else
      var b := Block(p, LevelAt(a.top, p, End(r) - p));
      FillStep(a, pool, p, End(r) - p);
      Fill(a, Add(pool, b), r, p + Pow2(b.level))
  }

  lemma FillStep(a: Area, pool: Pool, p: nat, n: nat)
    requires Multiple(a.base, a.top) && Sound(a, pool) && Fits(a, p, n) && n > 0
    requires RangeUnused(pool, p, p + n)
    ensures var b := Block(p, LevelAt(a.top, p, n));
            && b.level < |pool| && Pow2(b.level) <= n && Placed(a, b) && Unused(pool, b)
            && (pool[b.level].head != 0 ==> pool[b.level].head in pool[b.level].prev)
            && var after := Add(pool, b);
            && Sound(a, after)
            && RangeUnused(after, p + Pow2(b.level), p + n)
            && (forall c :: Linked(after, c) <==> Linked(pool, c) || c == b)
            && (forall q :: IsFree(after, q) <==> IsFree(pool, q) || Covers(b, q))
  {
    PlacedAt(a, p, n);
    AddBlock(a, pool, Block(p, LevelAt(a.top, p, n)));
  }

  lemma FillEnd(a: Area, pool: Pool, r: Range)
    requires Multiple(a.base, a.top) && Sound(a, pool) && Fits(a, End(r), 0) && RangeUnused(pool, End(r), End(r))
    ensures Fill(a, pool, r, End(r)) == pool
  {
  }

  /** The first block cut from what is left of the range, and the rest after it. */
  lemma FillNext(a: Area, pool: Pool, r: Range, p: nat)
    requires r.base <= p < End(r)
    requires Multiple(a.base, a.top) && Sound(a, pool) && Fits(a, p, End(r) - p) && RangeUnused(pool, p, End(r))
    ensures var b := Block(p, LevelAt(a.top, p, End(r) - p));
            && b.level <= a.top && p + Pow2(b.level) <= End(r) && Placed(a, b) && Unused(pool, b)
            && b.level < |pool| && (pool[b.level].head != 0 ==> pool[b.level].head in pool[b.level].prev)
            && Sound(a, Add(pool, b)) && RangeUnused(Add(pool, b), p + Pow2(b.level), End(r))
            && Fill(a, pool, r, p) == Fill(a, Add(pool, b), r, p + Pow2(b.level))
  {
    hide Sound, Placed, Multiple, LevelAt, RangeUnused;
    SoundSize(a, pool);
    FillStep(a, pool, p, End(r) - p);
  }

  /** The listed block b was cut from range r, at the level the rule above gives. */
  predicate CutFrom(a: Area, b: Block, r: Range)
  {
    Within(b, r) && b.page >= 0 && b.level == LevelAt(a.top, b.page, End(r) - b.page)
  }

  /** after lists the blocks of pool and blocks cut from the rest of r, from page p on. */
  ghost predicate Filled(a: Area, pool: Pool, after: Pool, r: Range, p: int)
  {
    && (forall q :: IsFree(after, q) <==> IsFree(pool, q) || p <= q < End(r))
    && (forall b | Linked(pool, b) :: Linked(after, b))
    && (forall b | Linked(after, b) :: Linked(pool, b) || CutFrom(a, b, r))
  }

  lemma FilledStep(a: Area, pool: Pool, mid: Pool, after: Pool, r: Range, b: Block)
    requires forall c :: Linked(mid, c) <==> Linked(pool, c) || c == b
    requires forall q :: IsFree(mid, q) <==> IsFree(pool, q) || Covers(b, q)
    requires CutFrom(a, b, r) && Filled(a, mid, after, r, b.page + Pow2(b.level))
    ensures Filled(a, pool, after, r, b.page)
  {
    forall q
      ensures IsFree(after, q) <==> IsFree(pool, q) || b.page <= q < End(r)
    {
      assert IsFree(mid, q) <==> IsFree(pool, q) || Covers(b, q);
    }
  }

  lemma NoneFilled(a: Area, pool: Pool, r: Range)
    requires Sound(a, pool)
    ensures Filled(a, pool, pool, r, End(r))
  {
  }

  lemma {:induction false} FillEffect(a: Area, pool: Pool, r: Range, p: nat)
    requires r.base <= p <= End(r)
    requires Multiple(a.base, a.top) && Sound(a, pool) && Fits(a, p, End(r) - p)
    requires RangeUnused(pool, p, End(r))
    ensures Filled(a, pool, Fill(a, pool, r, p), r, p)
    decreases End(r) - p
  {
    hide Sound, LevelAt, Multiple, Filled, RangeUnused, Add, Linked;
    if p == End(r) {
      NoneFilled(a, pool, r);
    } else {
      FillStep(a, pool, p, End(r) - p);
      var b := Block(p, LevelAt(a.top, p, End(r) - p));
      FillEffect(a, Add(pool, b), r, p + Pow2(b.level));
      FilledStep(a, pool, Add(pool, b), Fill(a, pool, r, p), r, b);
    }
  }

  // ---------------------------------------------------------------- all ranges

  predicate Disjoint(rs: seq<Range>)
  {
    forall i, j | 0 <= i < j < |rs| ::
      End(rs[i]) <= rs[j].base || End(rs[j]) <= rs[i].base
  }

  predicate Available(a: Area, rs: seq<Range>)
  {
    Multiple(a.base, a.top) && Disjoint(rs) && forall r | r in rs :: Fits(a, r.base, r.size)
  }

  predicate Offered(rs: seq<Range>, q: int)
  {
    exists i :: 0 <= i < |rs| && Holds(rs[i], q)
  }

  ghost function Empty(a: Area): Pool
  {
    seq(a.top + 1, i => EMPTY)
  }

  /** The lists after the first n ranges; its contract is the meaning of initialisation:
      exactly the offered pages are free, each block cut from one range. */
  ghost function Initial(a: Area, rs: seq<Range>): (pool: Pool)
    requires Available(a, rs)
    ensures Sound(a, pool)
    ensures forall q :: IsFree(pool, q) <==> Offered(rs, q)
    ensures forall b | Linked(pool, b) :: exists i :: 0 <= i < |rs| && CutFrom(a, b, rs[i])
    decreases |rs|
  {
    if rs == [] then
      Empty(a)
    else
      var n := |rs| - 1;
      var r, before := rs[n], Initial(a, rs[..n]);
      NextRangeUnused(a, rs, before);
      FillEffect(a, before, r, r.base);
      var after := Fill(a, before, r, r.base);
      NextRangeOffered(a, rs, before, after);
      after
  }

  function Total(rs: seq<Range>): nat
  {
    if rs == [] then 0 else Total(rs[..|rs| - 1]) + rs[|rs| - 1].size
  }

  lemma NextRangeUnused(a: Area, rs: seq<Range>, pool: Pool)
    requires rs != [] && Available(a, rs)
    requires var n := |rs| - 1; forall b | Linked(pool, b) :: exists i :: 0 <= i < n && CutFrom(a, b, rs[..n][i])
    ensures var r := rs[|rs| - 1]; RangeUnused(pool, r.base, End(r))
  {
    var n := |rs| - 1;
    forall c | Linked(pool, c)
      ensures c.page + Pow2(c.level) <= rs[n].base || End(rs[n]) <= c.page
    {
      var i :| 0 <= i < n && CutFrom(a, c, rs[..n][i]);
      assert rs[..n][i] == rs[i];
    }
  }

  lemma NextRangeOffered(a: Area, rs: seq<Range>, before: Pool, after: Pool)
    requires rs != []
    requires var n := |rs| - 1;
             && (forall q :: IsFree(before, q) <==> Offered(rs[..n], q))
             && (forall b | Linked(before, b) :: exists i :: 0 <= i < n && CutFrom(a, b, rs[..n][i]))
             && Filled(a, before, after, rs[n], rs[n].base)
    ensures forall q :: IsFree(after, q) <==> Offered(rs, q)
    ensures forall b | Linked(after, b) :: exists i :: 0 <= i < |rs| && CutFrom(a, b, rs[i])
  {
    var n := |rs| - 1;
    forall q
      ensures IsFree(after, q) <==> Offered(rs, q)
    {
      if Offered(rs[..n], q) {
        var i :| 0 <= i < n && Holds(rs[..n][i], q);
        assert Holds(rs[i], q);
      }
      if Offered(rs, q) {
        var i :| 0 <= i < |rs| && Holds(rs[i], q);
        if i < n { assert Holds(rs[..n][i], q); }
      }
    }
    forall b | Linked(after, b)
      ensures exists i :: 0 <= i < |rs| && CutFrom(a, b, rs[i])
    {
      if Linked(before, b) {
        var i :| 0 <= i < n && CutFrom(a, b, rs[..n][i]);
        assert CutFrom(a, b, rs[i]);
      } else {
        assert CutFrom(a, b, rs[n]);
      }
    }
  }

  lemma InitialPrefix(a: Area, rs: seq<Range>, i: nat)
    requires Available(a, rs) && i <= |rs|
    ensures Available(a, rs[..i])
    ensures i == 0 ==> Initial(a, rs[..i]) == Empty(a)
  {
  }

  /** One more range: its pages are unused so far, and filling them gives the next lists. */
  lemma InitialStep(a: Area, rs: seq<Range>, i: nat)
    requires Available(a, rs) && i < |rs|
    ensures Available(a, rs[..i]) && Available(a, rs[..i + 1]) && Fits(a, rs[i].base, rs[i].size)
    ensures var pool, r := Initial(a, rs[..i]), rs[i];
            RangeUnused(pool, r.base, End(r)) && Initial(a, rs[..i + 1]) == Fill(a, pool, r, r.base)
  {
    var next := rs[..i + 1];
    assert next[..i] == rs[..i] && next[i] == rs[i] && rs[i] in rs;
    NextRangeUnused(a, next, Initial(a, rs[..i]));
  }

  /** Two buddies below the top level are never both cut from the same range. */
  lemma NoBuddiesFromOneRange(a: Area, b: Block, r: Range)
    requires Multiple(a.base, a.top) && 0 < b.page && Aligned(a.base, b) && b.level < a.top
    requires 0 < r.base && CutFrom(a, b, r)
    ensures !CutFrom(a, Buddy(a.base, b), r)
  {
    BuddyFacts(a.base, b);
    var m := Merged(a.base, b);
    Coarser(a.base, m.level, a.top);
    MultipleSum(m.page - a.base, a.base, m.level);
    hide Multiple, Shr, LowestBit, FloorLog2;
    if Within(Buddy(a.base, b), r) {
      LevelAtLeast(a.top, m.page, End(r) - m.page, m.level);
    }
  }

  predicate InOneRange(rs: seq<Range>, r: Block)
  {
    exists i :: 0 <= i < |rs| && Within(r, rs[i])
  }

  ghost predicate OfferedRun(a: Area, rs: seq<Range>, r: Block)
  {
    r.level <= a.top && Aligned(a.base, r) && forall q | Covers(r, q) :: Offered(rs, q)
  }

  /** The initial lists are maximally coalesced exactly when every aligned run of
      offered pages, up to the top size, lies inside a single range. */
  lemma InitialCoalescedIff(a: Area, rs: seq<Range>)
    requires Available(a, rs)
    ensures Coalesced(a, Initial(a, rs)) <==> forall r | OfferedRun(a, rs, r) :: InOneRange(rs, r)
  {
    var pool := Initial(a, rs);
    if Coalesced(a, pool) {
      forall r | OfferedRun(a, rs, r)
        ensures InOneRange(rs, r)
      {
        var c := RunInOneBlock(a, pool, r);
        var i :| 0 <= i < |rs| && CutFrom(a, c, rs[i]);
        assert Within(r, rs[i]);
      }
    } else {
      var b :| Linked(pool, b) && b.level < a.top && Linked(pool, Buddy(a.base, b));
      ListedBuddiesStraddle(a, rs, b);
    }
  }

  lemma ListedBuddiesStraddle(a: Area, rs: seq<Range>, b: Block)
    requires Available(a, rs)
    requires var pool := Initial(a, rs);
             Linked(pool, b) && b.level < a.top && Linked(pool, Buddy(a.base, b))
    ensures var m := Merged(a.base, b); OfferedRun(a, rs, m) && !InOneRange(rs, m)
  {
    var pool, c, m := Initial(a, rs), Buddy(a.base, b), Merged(a.base, b);
    BuddyFacts(a.base, b);
    forall q | Covers(m, q)
      ensures Offered(rs, q)
    {
      assert IsFree(pool, q);
    }
    var i :| 0 <= i < |rs| && CutFrom(a, b, rs[i]);
    var j :| 0 <= j < |rs| && CutFrom(a, c, rs[j]);
    assert rs[i] in rs;
    if i == j {
      NoBuddiesFromOneRange(a, b, rs[i]);
    } else {
      NotWithinOne(rs, b, c, m, i, j);
    }
  }

  lemma NotWithinOne(rs: seq<Range>, b: Block, c: Block, m: Block, i: nat, j: nat)
    requires Disjoint(rs) && i < |rs| && j < |rs| && i != j
    requires Within(b, rs[i]) && Within(c, rs[j])
    requires forall q :: Covers(m, q) <==> Covers(b, q) || Covers(c, q)
    ensures !InOneRange(rs, m)
  {
    assert Covers(m, b.page) && Covers(m, c.page);
  }
}
