/** The fixed-size set of ranges, kept in an array ordered by base. */
module RangeSets {
  import opened Rings
  import opened Ranges

  /** Where a new range goes: before the first with a larger base. */
  function InsertAt<T>(s: seq<Range<T>>, base: nat): (i: nat)
    ensures i <= |s| && (forall j | 0 <= j < i :: s[j].base <= base) && (i < |s| ==> base < s[i].base)
  {
    if s == [] || base < s[0].base then 0 else 1 + InsertAt(s[1..], base)
  }

  function Inserted<T>(s: seq<Range<T>>, r: Range<T>): seq<Range<T>>
  {
    var i := InsertAt(s, r.base); s[..i] + [r] + s[i..]
  }

  /** Inserting a range apart from all others keeps the set in order. */
  lemma InsertedOrdered<T>(s: seq<Range<T>>, r: Range<T>)
    requires Ordered(s) && Fits(r)
    requires forall i | 0 <= i < |s| :: s[i].base + s[i].size <= r.base || r.base + r.size <= s[i].base
    ensures Ordered(Inserted(s, r)) && multiset(Inserted(s, r)) == multiset(s) + multiset{r}
  {
    var i, t := InsertAt(s, r.base), Inserted(s, r);
    hide InsertAt, Inserted;
    InsertedAt(s, r);
    forall a, b | 0 <= a < b < |t|
      ensures t[a].base + t[a].size <= t[b].base
    {
      assert a != i && b != i ==> t[a] == s[if a < i then a else a - 1] && t[b] == s[if b < i then b else b - 1];
    }
  }

  lemma InsertedAt<T>(s: seq<Range<T>>, r: Range<T>)
    ensures var i, t := InsertAt(s, r.base), Inserted(s, r);
            && |t| == |s| + 1 && t[i] == r
            && (forall k | 0 <= k < i :: t[k] == s[k]) && (forall k | i < k < |t| :: t[k] == s[k - 1])
            && multiset(t) == multiset(s) + multiset{r}
  {
    hide InsertAt;
    var i := InsertAt(s, r.base);
    SplicedAt(s, r, i);
    Joined(s[..i], r, s[i..]);
    assert s == s[..i] + s[i..];
  }

  lemma SplicedAt<T>(s: seq<T>, x: T, i: nat)
    requires i <= |s|
    ensures var t := s[..i] + [x] + s[i..];
            && |t| == |s| + 1 && t[i] == x
            && (forall k | 0 <= k < i :: t[k] == s[k]) && (forall k | i < k < |t| :: t[k] == s[k - 1])
  {
  }

  lemma Joined<T>(a: seq<T>, x: T, b: seq<T>)
    ensures multiset(a + [x] + b) == multiset(a + b) + multiset{x}
  {
  }

  /** Splitting needs a free place, and an address past the end of what is excluded. */
  ghost predicate CannotSplit<T>(s: seq<Range<T>>, e: Range<T>, capacity: nat)
  {
    exists i :: 0 <= i < |s| && StrictlyHolds(s[i], e) && (|s| == capacity || e.base + (e.size - 1) == MAX_ADDRESS)
  }

  ghost predicate AllFit<T>(s: seq<Range<T>>)
  {
    forall i | 0 <= i < |s| :: Fits(s[i])
  }

  /** None of the first j ranges had to be split when it could not be. */
  ghost predicate NoneStuck<T>(s: seq<Range<T>>, e: Range<T>, j: nat, capacity: nat)
    requires j <= |s|
  {
    forall i | 0 <= i < j :: !(StrictlyHolds(s[i], e) && (|s| == capacity || e.base + (e.size - 1) == MAX_ADDRESS))
  }

  lemma {:induction false} TrimFits<T>(s: seq<Range<T>>, e: Range<T>)
    requires AllFit(s) && Fits(e)
    ensures AllFit(Trim(Cut(s, e)))
    decreases |s|
  {
    if s != [] {
      var n := |s| - 1;
      TrimFits(s[..n], e);
      TrimAppend(Cut(s[..n], e), Pieces(s[n], e));
      PiecesFit(s[n], e);
      TrimMembers(Pieces(s[n], e));
    }
  }

  lemma {:induction false} TrimMembers<T>(s: seq<Range<T>>)
    requires forall i | 0 <= i < |s| && s[i].size > 0 :: Fits(s[i])
    ensures AllFit(Trim(s))
    decreases |s|
  {
    if s != [] { TrimMembers(s[..|s| - 1]); }
  }

  /** In an ordered set, nothing is removed before a range that strictly holds e, so a
      full set is still full when it has to be split. */
  lemma CountAtHolder<T>(s: seq<Range<T>>, e: Range<T>, j: nat)
    requires Ordered(s) && Fits(e) && j < |s| && StrictlyHolds(s[j], e)
    ensures |Cut(s[..j], e)| == j
  {
    BeforeHolder(s, e, j);
  }

  lemma CutNext<T>(s: seq<Range<T>>, e: Range<T>, j: nat)
    requires j < |s|
    ensures Cut(s[..j + 1], e) == Cut(s[..j], e) + Pieces(s[j], e)
  {
    assert s[..j + 1][..j] == s[..j];
  }

  class RangeSet<T(==)> {
    const ranges: array<Range<T>>
    var count: nat

    ghost predicate Valid()
      reads this
    {
      count <= ranges.Length
    }

    /** Every range in the set was accepted by InsertRange, or is what is left of one. */
    ghost predicate Proper()
      reads this, ranges
      requires Valid()
    {
      AllFit(View())
    }

    ghost function View(): seq<Range<T>>
      reads this, ranges
      requires Valid()
    {
      ranges[..count]
    }

    constructor (capacity: nat, tag: T)
      ensures Valid() && View() == [] && ranges.Length == capacity && fresh(ranges)
    {
      ranges := new Range<T>[capacity](_ => Range(tag, 0, 0));
      count := 0;
    }

    /** Makes room for a range at i. */
    method ShiftUp(i: nat)
      requires Valid() && i <= count < ranges.Length
      modifies ranges
      ensures ranges[..i] == old(ranges[..i]) && ranges[i + 1..count + 1] == old(ranges[i..count])
    {
      forall k | i < k <= count {
        ranges[k] := ranges[k - 1];
      }
    }

    /** Takes the range at i away. */
    method ShiftDown(i: nat)
      requires Valid() && i < count
      modifies ranges
      ensures ranges[..i] == old(ranges[..i]) && ranges[i..count - 1] == old(ranges[i + 1..count])
    {
      forall k | i <= k < count - 1 {
        ranges[k] := ranges[k + 1];
      }
    }

    /** Puts a range at i, moving those from there on up. */
    method PlaceAt(i: nat, r: Range<T>)
      requires Valid() && i <= count < ranges.Length
      modifies this`count, ranges
      ensures Valid() && View() == old(ranges[..i]) + [r] + old(ranges[i..count])
    {
      ShiftUp(i);
      ranges[i] := r;
      count := count + 1;
      assert ranges[..count] == ranges[..i] + [r] + ranges[i + 1..count];
    }

    /** Inserts a range by its base; false if the set is full or the range is not one. */
    method InsertRange(r: Range<T>) returns (ok: bool)
      requires Valid()
      modifies this`count, ranges
      ensures Valid() && (ok <==> old(count) < ranges.Length && Fits(r))
      ensures View() == if ok then Inserted(old(View()), r) else old(View())
    {
      if count >= ranges.Length {
        return false;
      }
      if r.size == 0 || MAX_ADDRESS - r.size + 1 < r.base {
        return false;
      }
      ghost var s := View();
      var ins := 0;
      while ins < count && ranges[ins].base <= r.base
        invariant 0 <= ins <= count && InsertAt(s, r.base) == ins + InsertAt(s[ins..], r.base)
      {
        assert s[ins..][0] == ranges[ins] && s[ins..][1..] == s[ins + 1..];
        ins := ins + 1;
      }
      assert ins < count ==> s[ins..][0] == ranges[ins];
      assert InsertAt(s, r.base) == ins;
      assert ranges[..ins] == s[..ins] && ranges[ins..count] == s[ins..];
      PlaceAt(ins, r);
      ok := true;
    }

    /** Removes the empty ranges. */
    method TrimEmptyRanges()
      requires Valid()
      modifies this`count, ranges
      ensures Valid() && View() == Trim(old(View()))
    {
      ghost var s := View();
      ghost var done := 0;
      var i := 0;
      while i < count
        invariant 0 <= i <= count <= ranges.Length && done <= |s| && count - i == |s| - done
        invariant ranges[..i] == Trim(s[..done]) && ranges[i..count] == s[done..]
      {
        assert s[..done + 1][..done] == s[..done] && ranges[i] == s[done..][0] && s[done..][1..] == s[done + 1..];
        assert ranges[i + 1..count] == ranges[i..count][1..] == s[done + 1..];
        if ranges[i].size > 0 {
          i := i + 1;
        } else {
          ShiftDown(i);
          count := count - 1;
        }
        done := done + 1;
        assert ranges[..i] == Trim(s[..done]);
      }
      assert s[..done] == s;
    }

    /** Replaces the range at i by the parts of it outside e; false if that panics. */
    method ReplaceAt(i: nat, e: Range<T>) returns (ok: bool, i': nat)
      requires Valid() && i < count && e.size > 0 && ranges[i].size > 0
      modifies this`count, ranges
      ensures var p := old(Exclude(ranges[i], e));
              && (ok <==> p.Parts? && (p.below.Some? && p.above.Some? ==> old(count) < ranges.Length))
              && (ok ==>
                    && Valid() && i' == i + |Pieces(old(ranges[i]), e)| <= count
                    && count == old(count) - 1 + |Pieces(old(ranges[i]), e)|
                    && ranges[..i'] == old(ranges[..i]) + Pieces(old(ranges[i]), e)
                    && ranges[i'..count] == old(ranges[i + 1..count]))
      ensures !ok ==> count == old(count)
    {
      i' := i;
      var p := Exclude(ranges[i], e);
      if !p.Parts? {
        return false, i;
      }
      ghost var head, tail := ranges[..i], ranges[i + 1..count];
      if p.below.Some? && p.above.Some? {
        ranges[i] := p.below.value;
        if count >= ranges.Length {
          return false, i;
        }
        assert ranges[..i + 1] == head + [p.below.value];
        PlaceAt(i + 1, p.above.value);
        assert ranges[..count] == head + [p.below.value] + [p.above.value] + tail;
        i' := i + 2;
        assert ranges[..i'] == ranges[..count][..i'] && ranges[i'..count] == ranges[..count][i'..];
      } else if p.below.Some? {
        ranges[i] := p.below.value;
        i' := i + 1;
      } else if p.above.Some? {
        ranges[i] := p.above.value;
        i' := i + 1;
      } else {
        ShiftDown(i);
        count := count - 1;
      }
      ok := true;
    }

    /** Excludes e from every range of the set. False if the kernel panicked: because the
        set was full when a range had to be split, or an address overflowed. */
    method ExcludeRange(e: Range<T>) returns (ok: bool)
      requires Valid() && Proper()
      modifies this`count, ranges
      ensures ok ==> Valid() && Proper()
      ensures e.size == 0 ==> ok && View() == old(View())
      ensures e.size > 0 && !Fits(e) ==> (ok <==> old(count) == 0)
      ensures ok && Fits(e) ==> View() == Trim(Cut(old(View()), e))
      ensures Fits(e) && old(Ordered(View())) ==> (!ok <==> CannotSplit(old(View()), e, ranges.Length))
    {
      hide Cut, Trim, Pieces;
      ghost var s := View();
      if count == 0 {
        NothingCut<T>(e);
        return true;
      }
      if e.size == 0 {
        return true;
      }
      var i: nat := 0;
      ghost var j: nat := 0;
      NothingCut<T>(e);
      assert s[..0] == [] && s[0..] == s;
      while i < count
        invariant Valid() && i <= count && j <= |s| && (j > 0 ==> Fits(e))
        invariant ranges[..i] == Cut(s[..j], e) && ranges[i..count] == s[j..]
        invariant Fits(e) && Ordered(s) ==> NoneStuck(s, e, j, ranges.Length)
        decreases |s| - j
      {
        assert ranges[i] == s[j..][0] == s[j];
        if Fits(e) {
          ExcludeMeans(s[j], e);
          if Ordered(s) && StrictlyHolds(s[j], e) { CountAtHolder(s, e, j); }
        }
        CutNext(s, e, j);
        assert ranges[i + 1..count] == s[j..][1..] == s[j + 1..];
        ok, i := ReplaceAt(i, e);
        if !ok {
          return false;
        }
        j := j + 1;
      }
      assert s[..j] == s;
      TrimFits(s, e);
      assert View() == Cut(s, e);
      TrimEmptyRanges();
      ok := true;
    }
  }

  lemma NothingCut<T>(e: Range<T>)
    ensures Cut([], e) == [] && Trim<T>([]) == []
  {
  }

  /** After a successful exclusion from an ordered set, the addresses outside e keep their
      tags, those inside have none, the set stays in order, and at most one range is split. */
  lemma ExcludedTags<T>(s: seq<Range<T>>, e: Range<T>, capacity: nat, x: nat)
    requires Ordered(s) && Fits(e) && !CannotSplit(s, e, capacity)
    ensures TagAt(Trim(Cut(s, e)), x) == if Holds(e, x) then None else TagAt(s, x)
    ensures Ordered(Trim(Cut(s, e))) && |Cut(s, e)| <= |s| + 1
  {
    CutOrdered(s, e);
    CutCount(s, e);
    TagAtTrim(Cut(s, e), x);
    CutTags(s, e, x);
  }
}
