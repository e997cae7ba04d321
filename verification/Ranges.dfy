/** Ranges of addresses with a tag: how one is compared with and cut by another, and what
    cutting a range out of an ordered set leaves of the addresses and their tags. */
module Ranges {
  import opened Rings

  const MAX_ADDRESS: nat := 0xffff_ffff_ffff_ffff

  datatype Range<T> = Range(tag: T, base: nat, size: nat)

  datatype Ordering = Less | LessEqual | GreaterEqual | Greater | Equal | Superset | Subset

  predicate Fits<T>(r: Range<T>)
  {
    r.size > 0 && r.base + (r.size - 1) <= MAX_ADDRESS
  }

  predicate Holds<T>(r: Range<T>, x: nat)
  {
    r.base <= x < r.base + r.size
  }

  /** How two ranges lie to each other; None if either is empty. */
  function Compare<T(==)>(l: Range<T>, r: Range<T>): Option<Ordering>
  {
    if l.size == 0 || r.size == 0 then None
    else
      var lEnd, rEnd := l.base + (l.size - 1), r.base + (r.size - 1);
      if l.base == r.base && l.size == r.size then Some(Equal)
      else if lEnd < r.base then Some(Less)
      else if rEnd < l.base then Some(Greater)
      else if l.base <= r.base && lEnd >= rEnd then Some(Superset)
      else if r.base <= l.base && rEnd >= lEnd then Some(Subset)
      else if l.base < r.base then Some(LessEqual)
      else Some(GreaterEqual)
  }

  ghost predicate Before<T>(l: Range<T>, r: Range<T>)
  {
    forall x: nat, y: nat | Holds(l, x) && Holds(r, y) :: x < y
  }

  ghost predicate Within<T>(l: Range<T>, r: Range<T>)
  {
    forall x: nat | Holds(l, x) :: Holds(r, x)
  }

  ghost predicate Meet<T>(l: Range<T>, r: Range<T>)
  {
    exists x: nat :: Holds(l, x) && Holds(r, x)
  }

  /** Range l holds an address below all of r's. */
  ghost predicate StartsBelow<T>(l: Range<T>, r: Range<T>)
  {
    exists x: nat :: Holds(l, x) && forall y: nat | Holds(r, y) :: x < y
  }

  /** What the relations come to for ranges that are not empty. */
  lemma ByEnds<T>(l: Range<T>, r: Range<T>)
    requires l.size > 0 && r.size > 0
    ensures Before(l, r) <==> l.base + l.size <= r.base
    ensures Within(l, r) <==> r.base <= l.base && l.base + l.size <= r.base + r.size
    ensures Meet(l, r) <==> l.base < r.base + r.size && r.base < l.base + l.size
    ensures StartsBelow(l, r) <==> l.base < r.base
  {
    assert Holds(l, l.base) && Holds(l, l.base + l.size - 1) && Holds(r, r.base);
    if l.base < r.base + r.size && r.base < l.base + l.size {
      var x := if l.base < r.base then r.base else l.base;
      assert Holds(l, x) && Holds(r, x);
    }
  }

  /** The ordering tells how the addresses held lie to each other: all of one before all of
      the other, the same, all of one among the other's, or some in both and each with
      others, the lower range first or last. */
  lemma CompareMeans<T>(l: Range<T>, r: Range<T>)
    ensures Compare(l, r) == None <==> (forall x: nat :: !Holds(l, x)) || (forall x: nat :: !Holds(r, x))
    ensures Compare(l, r) != None ==>
              && (Compare(l, r) == Some(Less) <==> Before(l, r))
              && (Compare(l, r) == Some(Greater) <==> Before(r, l))
              && (Compare(l, r) == Some(Equal) <==> Within(l, r) && Within(r, l))
              && (Compare(l, r) == Some(Superset) <==> !Within(l, r) && Within(r, l))
              && (Compare(l, r) == Some(Subset) <==> Within(l, r) && !Within(r, l))
              && (Compare(l, r) == Some(LessEqual) <==>
                    Meet(l, r) && !Within(l, r) && !Within(r, l) && StartsBelow(l, r))
              && (Compare(l, r) == Some(GreaterEqual) <==>
                    Meet(l, r) && !Within(l, r) && !Within(r, l) && StartsBelow(r, l))
  {
    hide Holds, Before, Within, Meet, StartsBelow;
    EmptyIff(l);
    EmptyIff(r);
    if l.size > 0 && r.size > 0 {
      ByEnds(l, r);
      ByEnds(r, l);
    }
  }

  lemma EmptyIff<T>(r: Range<T>)
    ensures r.size == 0 <==> forall x: nat :: !Holds(r, x)
  {
    assert r.size > 0 ==> Holds(r, r.base);
  }

  /** The parts of a range below and above another; an addition past the highest address
      makes the kernel panic in a build with overflow checks. */
  datatype Parts<T> = Incomparable | Overflow | Parts(below: Option<Range<T>>, above: Option<Range<T>>)

  function Exclude<T(==)>(r: Range<T>, e: Range<T>): Parts<T>
  {
    if r.size > 0 && e.size > 0 && !(Fits(r) && Fits(e)) then Overflow
    else
      match Compare(r, e)
      case None => Incomparable
      case Some(Less) => Parts(Some(r), None)
      case Some(Greater) => Parts(Some(r), None)
      case Some(Equal) => Parts(None, None)
      case Some(Subset) => Parts(None, None)
      case Some(LessEqual) => Parts(Some(Below(r, e)), None)
      case Some(GreaterEqual) => Parts(None, Some(Above(r, e)))
      case Some(Superset) =>
        if e.base + (e.size - 1) == MAX_ADDRESS then Overflow else Parts(Some(Below(r, e)), Some(Above(r, e)))
  }

  function Below<T>(r: Range<T>, e: Range<T>): Range<T>
  {
    Range(r.tag, r.base, if e.base < r.base then 0 else e.base - r.base)
  }

  function Above<T>(r: Range<T>, e: Range<T>): Range<T>
    requires e.size > 0
  {
    var rEnd, eEnd := r.base + r.size, e.base + e.size;
    Range(r.tag, eEnd, if rEnd < eEnd then 0 else rEnd - eEnd)
  }

  /** Range r holds all of e and more. */
  predicate StrictlyHolds<T>(r: Range<T>, e: Range<T>)
  {
    r.base <= e.base && e.base + e.size <= r.base + r.size && r.size != e.size
  }

  /** The parts hold exactly the addresses of r that e does not, with r's tag; cutting
      overflows exactly when e ends at the highest address strictly inside r. */
  lemma ExcludeMeans<T>(r: Range<T>, e: Range<T>)
    requires Fits(r) && Fits(e)
    ensures var p := Exclude(r, e);
            && (p.Overflow? <==> StrictlyHolds(r, e) && e.base + (e.size - 1) == MAX_ADDRESS)
            && (p.Parts? ==>
                  && (forall x: nat :: Holds(r, x) && !Holds(e, x) <==>
                        (p.below.Some? && Holds(p.below.value, x)) || (p.above.Some? && Holds(p.above.value, x)))
                  && (p.below.Some? ==> p.below.value.tag == r.tag && p.below.value.base == r.base)
                  && (p.above.Some? ==> p.above.value.tag == r.tag)
                  && (p.below.Some? && p.above.Some? <==> StrictlyHolds(r, e)))
  {
  }

  /** The part above, in words of 64 bits without overflow checks. */
  function WrappedAbove<T>(r: Range<T>, e: Range<T>): Range<T>
    requires Fits(r) && Fits(e) && StrictlyHolds(r, e)
  {
    var rEnd, eEnd := r.base + (r.size - 1), e.base + (e.size - 1);
    Range(r.tag, (eEnd + 1) % (MAX_ADDRESS + 1), rEnd - eEnd)
  }

  /** Where the cut overflows, a build without overflow checks gets an empty part at
      address 0, and the two parts together are still what the exclusion leaves. */
  lemma WrappedCutMeans<T>(r: Range<T>, e: Range<T>)
    requires Fits(r) && Fits(e) && Exclude(r, e).Overflow?
    ensures StrictlyHolds(r, e) && WrappedAbove(r, e) == Range(r.tag, 0, 0)
    ensures forall x: nat :: Holds(r, x) && !Holds(e, x) <==> Holds(Below(r, e), x) || Holds(WrappedAbove(r, e), x)
  {
    ExcludeMeans(r, e);
  }

  // --------------------------------------------------------------------- sequences

  /** What stands for one range after the cut, empty parts included. */
  function Pieces<T(==)>(r: Range<T>, e: Range<T>): seq<Range<T>>
  {
    match Exclude(r, e)
    case Parts(Some(a), Some(b)) => [a, b]
    case Parts(Some(a), None) => [a]
    case Parts(None, Some(b)) => [b]
    case _ => []
  }

  function Cut<T(==)>(s: seq<Range<T>>, e: Range<T>): seq<Range<T>>
  {
    if s == [] then [] else Cut(s[..|s| - 1], e) + Pieces(s[|s| - 1], e)
  }

  /** The ranges that are not empty. */
  function Trim<T>(s: seq<Range<T>>): seq<Range<T>>
  {
    if s == [] then [] else Trim(s[..|s| - 1]) + (if s[|s| - 1].size > 0 then [s[|s| - 1]] else [])
  }

  /** Ranges in order, none empty, none overlapping. */
  ghost predicate Ordered<T>(s: seq<Range<T>>)
  {
    && (forall i | 0 <= i < |s| :: Fits(s[i]))
    && (forall i, j | 0 <= i < j < |s| :: s[i].base + s[i].size <= s[j].base)
  }

  /** The tag of the range that holds an address, if one does. */
  function TagAt<T>(s: seq<Range<T>>, x: nat): Option<T>
  {
    if s == [] then None
    else if Holds(s[|s| - 1], x) then Some(s[|s| - 1].tag)
    else TagAt(s[..|s| - 1], x)
  }

  lemma {:induction false} TagAtAppend<T>(s: seq<Range<T>>, t: seq<Range<T>>, x: nat)
    ensures TagAt(s + t, x) == if TagAt(t, x).Some? then TagAt(t, x) else TagAt(s, x)
    decreases |t|
  {
    if t == [] {
      assert s + t == s;
    } else {
      var n := |t| - 1;
      assert (s + t)[..|s| + n] == s + t[..n] && (s + t)[|s| + n] == t[n];
      TagAtAppend(s, t[..n], x);
    }
  }

  lemma {:induction false} TagAtTrim<T>(s: seq<Range<T>>, x: nat)
    ensures TagAt(Trim(s), x) == TagAt(s, x)
    decreases |s|
  {
    if s != [] {
      var n := |s| - 1;
      TagAtTrim(s[..n], x);
      if s[n].size > 0 {
        assert (Trim(s[..n]) + [s[n]])[..|Trim(s[..n])|] == Trim(s[..n]);
      } else {
        assert Trim(s[..n]) + [] == Trim(s[..n]);
      }
    }
  }

  /** No range is cut past the highest address. */
  ghost predicate NoOverflow<T>(s: seq<Range<T>>, e: Range<T>)
  {
    forall i | 0 <= i < |s| :: !(StrictlyHolds(s[i], e) && e.base + (e.size - 1) == MAX_ADDRESS)
  }

  /** After the cut every address outside e has the tag it had, and none inside e has one. */
  lemma {:induction false} CutTags<T>(s: seq<Range<T>>, e: Range<T>, x: nat)
    requires (forall i | 0 <= i < |s| :: Fits(s[i])) && Fits(e) && NoOverflow(s, e)
    ensures TagAt(Cut(s, e), x) == if Holds(e, x) then None else TagAt(s, x)
    decreases |s|
  {
    if s != [] {
      var n := |s| - 1;
      CutTags(s[..n], e, x);
      TagAtAppend(Cut(s[..n], e), Pieces(s[n], e), x);
      PieceTags(s[n], e, x);
    }
  }

  lemma PieceTags<T>(r: Range<T>, e: Range<T>, x: nat)
    requires Fits(r) && Fits(e) && !Exclude(r, e).Overflow?
    ensures TagAt(Pieces(r, e), x) == if Holds(r, x) && !Holds(e, x) then Some(r.tag) else None
  {
    ExcludeMeans(r, e);
    var p := Exclude(r, e);
    if p.below.Some? && p.above.Some? {
      TagAtAppend([p.below.value], [p.above.value], x);
      assert [p.below.value] + [p.above.value] == Pieces(r, e);
      OneTag(p.above.value, x);
      OneTag(p.below.value, x);
    } else if p.below.Some? {
      OneTag(p.below.value, x);
    } else if p.above.Some? {
      OneTag(p.above.value, x);
    }
  }

  lemma OneTag<T>(r: Range<T>, x: nat)
    ensures TagAt([r], x) == if Holds(r, x) then Some(r.tag) else None
  {
    assert [r][..0] == [];
  }

  // ------------------------------------------------------------------------- order

  ghost predicate EndsBy<T>(s: seq<Range<T>>, b: nat)
  {
    forall i | 0 <= i < |s| :: s[i].base + s[i].size <= b
  }

  lemma PiecesInside<T>(r: Range<T>, e: Range<T>)
    requires Fits(r) && Fits(e)
    ensures forall i | 0 <= i < |Pieces(r, e)| ::
              r.base <= Pieces(r, e)[i].base && Pieces(r, e)[i].base + Pieces(r, e)[i].size <= r.base + r.size
    ensures |Pieces(r, e)| <= 2
    ensures (|Pieces(r, e)| == 2 ==> Pieces(r, e)[0].base + Pieces(r, e)[0].size <= Pieces(r, e)[1].base)
    ensures |Pieces(r, e)| == 2 <==> StrictlyHolds(r, e) && !Exclude(r, e).Overflow?
  {
    ExcludeMeans(r, e);
  }

  lemma OrderedInit<T>(s: seq<Range<T>>)
    requires Ordered(s) && s != []
    ensures var n := |s| - 1; Ordered(s[..n]) && EndsBy(s[..n], s[n].base) && EndsBy(s, s[n].base + s[n].size)
  {
  }

  /** Trimming the cut leaves ranges in order, none empty, none overlapping. */
  lemma {:induction false} CutOrdered<T>(s: seq<Range<T>>, e: Range<T>)
    requires Ordered(s) && Fits(e)
    ensures Ordered(Trim(Cut(s, e)))
    ensures s != [] ==> EndsBy(Trim(Cut(s, e)), s[|s| - 1].base + s[|s| - 1].size)
    decreases |s|
  {
    if s != [] {
      var n := |s| - 1;
      OrderedInit(s);
      CutOrdered(s[..n], e);
      if n > 0 { assert s[..n][n - 1] == s[n - 1]; }
      TrimAppend(Cut(s[..n], e), Pieces(s[n], e));
      AppendPieces(Trim(Cut(s[..n], e)), s[n], e);
    }
  }

  lemma {:induction false} TrimAppend<T>(s: seq<Range<T>>, t: seq<Range<T>>)
    ensures Trim(s + t) == Trim(s) + Trim(t)
    decreases |t|
  {
    if t == [] {
      assert s + t == s;
    } else {
      var n := |t| - 1;
      assert (s + t)[..|s| + n] == s + t[..n] && (s + t)[|s| + n] == t[n];
      TrimAppend(s, t[..n]);
    }
  }

  lemma AppendPieces<T>(s: seq<Range<T>>, r: Range<T>, e: Range<T>)
    requires Ordered(s) && EndsBy(s, r.base) && Fits(r) && Fits(e)
    ensures Ordered(s + Trim(Pieces(r, e))) && EndsBy(s + Trim(Pieces(r, e)), r.base + r.size)
  {
    hide Ordered, EndsBy, Pieces, Exclude, StrictlyHolds;
    PiecesInside(r, e);
    PiecesFit(r, e);
    var p := Pieces(r, e);
    if |p| == 2 {
      assert p == [p[0]] + [p[1]];
      TrimAppend([p[0]], [p[1]]);
      AppendOne(s, p[0], r.base, p[1].base);
      AppendOne(s + Trim([p[0]]), p[1], p[1].base, r.base + r.size);
      assert s + Trim(p) == s + Trim([p[0]]) + Trim([p[1]]);
    } else if |p| == 1 {
      assert p == [p[0]];
      AppendOne(s, p[0], r.base, r.base + r.size);
    } else {
      assert p == [] && s + Trim(p) == s;
      EndsLater(s, r.base, r.base + r.size);
    }
  }

  lemma PiecesFit<T>(r: Range<T>, e: Range<T>)
    requires Fits(r) && Fits(e)
    ensures forall i | 0 <= i < |Pieces(r, e)| && Pieces(r, e)[i].size > 0 :: Fits(Pieces(r, e)[i])
  {
    PiecesInside(r, e);
  }

  lemma EndsLater<T>(s: seq<Range<T>>, lo: nat, hi: nat)
    requires EndsBy(s, lo) && lo <= hi
    ensures EndsBy(s, hi)
  {
  }

  lemma AppendOne<T>(s: seq<Range<T>>, p: Range<T>, lo: nat, hi: nat)
    requires Ordered(s) && EndsBy(s, lo) && lo <= p.base && p.base + p.size <= hi && (p.size > 0 ==> Fits(p))
    ensures Ordered(s + Trim([p])) && EndsBy(s + Trim([p]), hi)
  {
    TrimOne(p);
    if p.size == 0 { assert s + [] == s; }
  }

  lemma TrimOne<T>(r: Range<T>)
    ensures Trim([r]) == if r.size > 0 then [r] else []
  {
    assert [r][..0] == [];
  }

  /** Ranges of an ordered set before one that strictly holds e are not touched. */
  lemma {:induction false} BeforeHolder<T>(s: seq<Range<T>>, e: Range<T>, i: nat)
    requires Ordered(s) && Fits(e) && i < |s| && StrictlyHolds(s[i], e)
    ensures Cut(s[..i], e) == s[..i]
  {
    if i > 0 { BeforeUntouched(s, e, i, i); }
  }

  lemma {:induction false} BeforeUntouched<T>(s: seq<Range<T>>, e: Range<T>, i: nat, j: nat)
    requires Ordered(s) && Fits(e) && i < |s| && StrictlyHolds(s[i], e) && j <= i
    ensures Cut(s[..j], e) == s[..j]
    decreases j
  {
    hide Fits, StrictlyHolds, Pieces;
    if j > 0 {
      BeforeUntouched(s, e, i, j - 1);
      assert s[..j][..j - 1] == s[..j - 1] && s[..j][j - 1] == s[j - 1];
      LowerWhole(s[j - 1], s[i], e);
    }
  }

  /** A range below one that holds all of e is not cut. */
  lemma LowerWhole<T>(l: Range<T>, r: Range<T>, e: Range<T>)
    requires Fits(l) && Fits(r) && Fits(e) && l.base + l.size <= r.base && StrictlyHolds(r, e)
    ensures Pieces(l, e) == [l]
  {
  }

  /** At most one range of an ordered set is split in two. */
  lemma {:induction false} CutCount<T>(s: seq<Range<T>>, e: Range<T>)
    requires Ordered(s) && Fits(e)
    ensures |Cut(s, e)| <= |s| + 1
    ensures (forall i | 0 <= i < |s| :: !StrictlyHolds(s[i], e)) ==> |Cut(s, e)| <= |s|
    decreases |s|
  {
    if s != [] {
      var n := |s| - 1;
      OrderedInit(s);
      CutCount(s[..n], e);
      PiecesInside(s[n], e);
      if StrictlyHolds(s[n], e) { BeforeHolder(s, e, n); }
    }
  }
}
