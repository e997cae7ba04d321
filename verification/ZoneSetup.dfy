/** Setting the page allocators up: the bounds of each zone, and the metadata taken from
    the end of a linear range. */
module ZoneSetup {
  import opened Rings
  import opened Ranges
  import opened RangeSets

  datatype Zone = InvalidZone | LinearMemory | HighMemory

  // ----------------------------------------------------------------------- bounds

  /** A zone's bounding range and the first and last of its ranges in the configuration. */
  datatype ZoneInfo = NoZone | ZoneInfo(range: Range<Zone>, first: nat, last: nat)

  /** The ranges of a zone among the first n lie inside its bounds, which start and end
      where the first and last of them do. */
  ghost predicate Bounds(s: seq<Range<Zone>>, n: nat, zone: Zone, info: ZoneInfo)
    requires n <= |s|
  {
    match info
    case NoZone => forall k | 0 <= k < n :: s[k].tag != zone
    case ZoneInfo(r, first, last) =>
      && first <= last < n && s[first].tag == zone && s[last].tag == zone
      && r.tag == zone && r.base == s[first].base && r.base + r.size == s[last].base + s[last].size
      && forall k | 0 <= k < n && s[k].tag == zone ::
           first <= k <= last && r.base <= s[k].base && s[k].base + s[k].size <= r.base + r.size
  }

  /** The zones' bounds, over a configuration in order whose ranges all have a zone. */
  method InitZoneInfo(s: seq<Range<Zone>>) returns (linear: ZoneInfo, high: ZoneInfo)
    requires Ordered(s) && forall k | 0 <= k < |s| :: s[k].tag != InvalidZone
    ensures Bounds(s, |s|, LinearMemory, linear) && Bounds(s, |s|, HighMemory, high)
  {
    hide Ordered, Bounds;
    linear, high := NoZone, NoZone;
    NoneYet(s);
    var index := 0;
    while index < |s|
      invariant 0 <= index <= |s|
      invariant Bounds(s, index, LinearMemory, linear) && Bounds(s, index, HighMemory, high)
    {
      var range := s[index];
      match range.tag {
        case LinearMemory =>
          OtherZone(s, index, HighMemory, high);
          linear := Extended(s, linear, range, index);
        case HighMemory =>
          OtherZone(s, index, LinearMemory, linear);
          high := Extended(s, high, range, index);
      }
      index := index + 1;
    }
  }

  lemma NoneYet(s: seq<Range<Zone>>)
    ensures Bounds(s, 0, LinearMemory, NoZone) && Bounds(s, 0, HighMemory, NoZone)
  {
  }

  /** A range of another zone does not move the bounds. */
  lemma OtherZone(s: seq<Range<Zone>>, n: nat, zone: Zone, info: ZoneInfo)
    requires n < |s| && s[n].tag != zone && Bounds(s, n, zone, info)
    ensures Bounds(s, n + 1, zone, info)
  {
  }

  /** A zone's bounds with one more of its ranges. */
  method Extended(s: seq<Range<Zone>>, info: ZoneInfo, range: Range<Zone>, index: nat) returns (r: ZoneInfo)
    requires Ordered(s) && index < |s| && range == s[index] && Bounds(s, index, range.tag, info)
    ensures Bounds(s, index + 1, range.tag, r)
  {
    if info.NoZone? {
      r := ZoneInfo(range, index, index);
    } else {
      var end := range.base + (range.size - 1);
      r := ZoneInfo(info.range.(size := end - info.range.base + 1), info.first, index);
    }
  }

  // --------------------------------------------------------------------- metadata

  /** The first linear range larger than the metadata. */
  function RoomFor(s: seq<Range<Zone>>, total: nat): (r: Option<nat>)
    ensures r.Some? ==> r.value < |s| && s[r.value].tag == LinearMemory && total < s[r.value].size
    ensures forall k | 0 <= k < (if r.Some? then r.value else |s|) :: !(s[k].tag == LinearMemory && total < s[k].size)
  {
    if s == [] then None
    else if s[0].tag == LinearMemory && total < s[0].size then Some(0)
    else
      var r := RoomFor(s[1..], total);
      assert forall k | 0 < k < |s| :: s[k] == s[1..][k - 1];
      if r.None? then None else Some(r.value + 1)
  }

  /** The end of a range. */
  function EndOf(r: Range<Zone>, total: nat): Range<Zone>
    requires total < r.size
  {
    Range(InvalidZone, r.base + r.size - total, total)
  }

  function Shortened(r: Range<Zone>, total: nat): Range<Zone>
    requires total < r.size
  {
    r.(size := r.size - total)
  }

  /** Cutting the end of one range of an ordered set shortens it and touches no other. */
  lemma {:induction false} CutEnd(s: seq<Range<Zone>>, i: nat, total: nat, n: nat)
    requires Ordered(s) && i < |s| && n <= |s| && 0 < total < s[i].size && s[i].base + (s[i].size - 1) < MAX_ADDRESS
    ensures var t := s[i := Shortened(s[i], total)];
            Trim(Cut(s[..n], EndOf(s[i], total))) == t[..n]
    decreases n
  {
    hide Cut, Trim, Pieces, Ordered, EndOf, Shortened;
    var e, t := EndOf(s[i], total), s[i := Shortened(s[i], total)];
    if n == 0 {
      assert s[..0] == [] && t[..0] == [];
      NothingCut<Zone>(e);
    } else {
      CutEnd(s, i, total, n - 1);
      CutNext(s, e, n - 1);
      TrimAppend(Cut(s[..n - 1], e), Pieces(s[n - 1], e));
      OrderedFits(s, i);
      CutEndPiece(s, i, total, n - 1);
      assert t[..n] == t[..n - 1] + [t[n - 1]];
    }
  }

  lemma CutEndPiece(s: seq<Range<Zone>>, i: nat, total: nat, k: nat)
    requires Ordered(s) && i < |s| && k < |s| && 0 < total < s[i].size && s[i].base + (s[i].size - 1) < MAX_ADDRESS
    requires Fits(s[i])
    ensures Trim(Pieces(s[k], EndOf(s[i], total))) == [if k == i then Shortened(s[i], total) else s[k]]
  {
    hide Trim, Ordered;
    var e := EndOf(s[i], total);
    if k == i {
      OwnPieces(s[i], total);
      var a, b := Below(s[i], e), Above(s[i], e);
      TrimAppend([a], [b]);
      TrimOne(a);
      TrimOne(b);
    } else {
      OtherPiece(s, i, total, k);
      TrimOne(s[k]);
    }
  }

  lemma OrderedFits(s: seq<Range<Zone>>, i: nat)
    requires Ordered(s) && i < |s|
    ensures Fits(s[i])
  {
  }

  lemma OwnPieces(r: Range<Zone>, total: nat)
    requires Fits(r) && 0 < total < r.size && r.base + (r.size - 1) < MAX_ADDRESS
    ensures var e := EndOf(r, total);
            Pieces(r, e) == [Below(r, e)] + [Above(r, e)] && Below(r, e) == Shortened(r, total) && Above(r, e).size == 0
  {
  }

  lemma OtherPiece(s: seq<Range<Zone>>, i: nat, total: nat, k: nat)
    requires Ordered(s) && i < |s| && k < |s| && k != i && 0 < total < s[i].size
    ensures Pieces(s[k], EndOf(s[i], total)) == [s[k]]
  {
  }

  /** Takes total addresses of metadata from the end of the first linear range that has
      more. False if the kernel panicked: there is no such range, or the set is full, for
      the cut needs a place for an empty part, or the range ends at the highest address. */
  method InitAllocatorMemoryConfig(config: RangeSet<Zone>, total: nat) returns (ok: bool, base: nat)
    requires config.Valid() && config.Proper() && Ordered(config.View())
    modifies config`count, config.ranges
    ensures ok <==>
              var s, room := old(config.View()), RoomFor(old(config.View()), total);
              && room.Some?
              && (total == 0
                  || (|s| < config.ranges.Length && s[room.value].base + (s[room.value].size - 1) < MAX_ADDRESS))
    ensures ok ==>
              var s := old(config.View());
              var i := RoomFor(s, total).value;
              && (forall k | 0 <= k < i :: s[k].tag != LinearMemory || total >= s[k].size)
              && config.Valid() && base == s[i].base + s[i].size - total
              && config.View() == s[i := Shortened(s[i], total)] && Ordered(config.View())
  {
    hide RoomFor, CannotSplit, Cut, Trim, Ordered, Fits, AllFit;
    ghost var s := config.View();
    base := FindRoom(config, total);
    if base == 0 {
      return false, 0;
    }
    ghost var i := RoomFor(s, total).value;
    MetadataCut(s, i, total, config.ranges.Length);
    var excl := Range(InvalidZone, base, total);
    ok := config.ExcludeRange(excl);
  }

  /** Where the metadata goes; 0 if nowhere. */
  method FindRoom(config: RangeSet<Zone>, total: nat) returns (base: nat)
    requires config.Valid() && config.Proper()
    ensures var s := config.View();
            var room := RoomFor(s, total);
            if room.None? then base == 0 else base == s[room.value].base + s[room.value].size - total && base > 0
  {
    ghost var s := config.View();
    var k := 0;
    assert s[0..] == s;
    while k < config.count
      invariant 0 <= k <= config.count && config.View() == s
      invariant RoomFor(s, total) == (var r := RoomFor(s[k..], total); if r.None? then None else Some(r.value + k))
    {
      assert s[k..][0] == config.ranges[k] && s[k..][1..] == s[k + 1..];
      var range := config.ranges[k];
      if range.tag == LinearMemory && total < range.size {
        var end := range.base + (range.size - 1);
        return end - total + 1;
      }
      k := k + 1;
    }
    return 0;
  }

  lemma MetadataCut(s: seq<Range<Zone>>, i: nat, total: nat, capacity: nat)
    requires Ordered(s) && i < |s| <= capacity && total < s[i].size
    ensures var e := EndOf(s[i], total);
            && (total > 0 ==>
                  && Fits(e)
                  && (CannotSplit(s, e, capacity) <==> |s| == capacity || s[i].base + (s[i].size - 1) == MAX_ADDRESS)
                  && (s[i].base + (s[i].size - 1) < MAX_ADDRESS ==> Trim(Cut(s, e)) == s[i := Shortened(s[i], total)]))
            && s[i := Shortened(s[i], 0)] == s
            && Ordered(s[i := Shortened(s[i], total)])
  {
    var e := EndOf(s[i], total);
    if total > 0 {
      assert StrictlyHolds(s[i], e);
      if s[i].base + (s[i].size - 1) < MAX_ADDRESS {
        CutEnd(s, i, total, |s|);
        assert s[..|s|] == s && s[i := Shortened(s[i], total)][..|s|] == s[i := Shortened(s[i], total)];
      }
    }
  }
}
