/** The devicetree reader's methods: each advances a cursor over the bytes of the blob, and
    computes what DeviceTree says of any bytes. */
module DtbReader {
  import opened Rings
  import opened DeviceTree

  class DtbCursor {
    var loc: nat

    constructor (loc: nat)
      ensures this.loc == loc
    {
      this.loc := loc;
    }
  }

  class DtbReader {
    const dtb: seq<Byte>
    const structOffset: nat

    constructor (dtb: seq<Byte>, structOffset: nat)
      requires |dtb| >= HEADER_SIZE
      ensures this.dtb == dtb && this.structOffset == structOffset
    {
      this.dtb := dtb;
      this.structOffset := structOffset;
    }

    ghost predicate Valid()
    {
      |dtb| >= HEADER_SIZE
    }

    /** Reads a number and moves past it, unless less than a word is left. */
    method GetU32(cursor: DtbCursor) returns (r: Option<nat>)
      requires Valid()
      modifies cursor
      ensures old(cursor.loc) > |dtb| - 4 ==> r.None? && cursor.loc == old(cursor.loc)
      ensures old(cursor.loc) <= |dtb| - 4 ==>
                r == Some(Number(dtb, old(cursor.loc))) && cursor.loc == old(cursor.loc) + 4
    {
      if cursor.loc > |dtb| - 4 {
        return None;
      }
      r := Some(Number(dtb, cursor.loc));
      cursor.loc := cursor.loc + 4;
    }

    /** The bytes up to the next zero byte; the cursor is left on the zero byte. */
    method GetNullTerminated(cursor: DtbCursor) returns (r: Option<seq<Byte>>)
      requires Valid() && cursor.loc <= |dtb|
      modifies cursor
      ensures var z := Terminator(dtb, old(cursor.loc));
              if z.None? then r.None? && cursor.loc == old(cursor.loc)
              else r == Some(dtb[old(cursor.loc)..z.value]) && cursor.loc == z.value
    {
      var end := cursor.loc;
      while end < |dtb|
        invariant cursor.loc <= end <= |dtb| && Terminator(dtb, cursor.loc) == Terminator(dtb, end)
      {
        if dtb[end] == 0 {
          break;
        }
        end := end + 1;
      }
      if end == |dtb| {
        return None;
      }
      r := Some(dtb[cursor.loc..end]);
      cursor.loc := end;
    }

    /** Moves a number of bytes on and up to a word boundary, but not past the end. */
    method SkipAndAlign(n: nat, cursor: DtbCursor)
      requires Valid() && cursor.loc <= |dtb|
      modifies cursor
      ensures cursor.loc == SkipTo(dtb, old(cursor.loc), n)
    {
      var left := |dtb| - cursor.loc;
      var offset := if left < n then left else n;
      if cursor.loc + offset > |dtb| - 4 {
        cursor.loc := |dtb|;
      } else {
        cursor.loc := AlignUp(cursor.loc + offset);
      }
    }

    /** Moves to the first token that begins or ends a node; false if the blob is malformed. */
    method SkipNodeProperties(cursor: DtbCursor) returns (ok: bool)
      requires Valid() && cursor.loc <= |dtb|
      modifies cursor
      ensures cursor.loc <= |dtb|
      ensures SkipProperties(dtb, old(cursor.loc)) == if ok then Some(cursor.loc) else None
    {
      hide SkipTo, Number;
      ghost var start := cursor.loc;
      while true
        invariant start <= cursor.loc <= |dtb| && SkipProperties(dtb, cursor.loc) == SkipProperties(dtb, start)
        decreases |dtb| - cursor.loc
      {
        var marker := GetU32(cursor);
        if marker.None? {
          return false;
        }
        if marker.value == BEGIN_NODE || marker.value == END_NODE {
          cursor.loc := cursor.loc - 4;
          return true;
        }
        if marker.value == NOOP {
          continue;
        }
        if marker.value != PROP {
          return false;
        }
        var size := GetU32(cursor);
        if size.None? {
          return false;
        }
        SkipAndAlign(size.value + 4, cursor);
      }
    }

    /** The first property of the root node, if the structure begins with it. */
    method GetRootNode() returns (r: Option<DtbCursor>)
      requires Valid()
      ensures r.Some? ==> fresh(r.value)
      ensures r.Some? <==>
                && structOffset <= |dtb| - 4 && Number(dtb, structOffset) == BEGIN_NODE
                && Terminator(dtb, structOffset + 4).Some?
      ensures r.Some? ==> r.value.loc == SkipTo(dtb, Terminator(dtb, structOffset + 4).value, 1)
    {
      var cursor := new DtbCursor(structOffset);
      var marker := GetU32(cursor);
      if marker.None? || marker.value != BEGIN_NODE {
        return None;
      }
      var name := GetNullTerminated(cursor);
      if name.None? {
        return None;
      }
      SkipAndAlign(1, cursor);
      return Some(cursor);
    }

    /** The first property of the first child of that name of the node the cursor is in. */
    method FindChildNode(cursor: DtbCursor, childName: seq<Byte>) returns (r: Option<DtbCursor>)
      requires Valid() && cursor.loc <= |dtb|
      ensures r.Some? ==> fresh(r.value)
      ensures FindFrom(dtb, cursor.loc, 0, childName) == if r.Some? then Some(r.value.loc) else None
    {
      hide SkipTo, Number, SkipProperties, Terminator;
      var tmp := new DtbCursor(cursor.loc);
      var depth := 0;
      while true
        invariant fresh(tmp) && cursor.loc <= tmp.loc <= |dtb|
        invariant FindFrom(dtb, tmp.loc, depth, childName) == FindFrom(dtb, cursor.loc, 0, childName)
        decreases |dtb| - tmp.loc
      {
        var ok := SkipNodeProperties(tmp);
        if !ok {
          return None;
        }
        ok, depth := WalkDown(tmp, depth);
        if !ok {
          return None;
        }
        var name := GetNullTerminated(tmp);
        if name.None? {
          return None;
        }
        SkipAndAlign(1, tmp);
        if depth == 1 && name.value == childName {
          return Some(tmp);
        }
      }
    }

    /** The inner loop of FindChildNode: past the ends of nodes to the name of the next. */
    method WalkDown(tmp: DtbCursor, depth0: nat) returns (ok: bool, depth: nat)
      requires Valid() && tmp.loc <= |dtb|
      modifies tmp
      ensures tmp.loc <= |dtb|
      ensures NextBelow(dtb, old(tmp.loc), depth0) == if ok then Child(tmp.loc, depth) else NoChild
    {
      hide Number;
      depth := depth0;
      ghost var start := tmp.loc;
      while true
        invariant tmp.loc <= |dtb| && NextBelow(dtb, tmp.loc, depth) == NextBelow(dtb, start, depth0)
        decreases |dtb| - tmp.loc
      {
        var marker := GetU32(tmp);
        if marker.None? {
          return false, depth;
        }
        if marker.value == BEGIN_NODE {
          depth := depth + 1;
          return true, depth;
        } else if marker.value == END_NODE {
          if depth == 0 {
            return false, depth;
          }
          depth := depth - 1;
        } else if marker.value != NOOP {
          return false, depth;
        }
      }
    }

    /** Walks the blob, showing the scanner every node so far, until it stops. The cursor
        stays inside the blob whatever the bytes. */
    method ScanNodes(scanner: seq<Visit> -> Verdict) returns (r: Scanned)
      requires Valid()
      ensures r == Scan(dtb, structOffset, scanner)
    {
      hide SkipTo, Number, SkipProperties, NextNode, Terminator;
      var cursor := new DtbCursor(structOffset);
      var marker := GetU32(cursor);
      if marker.None? || marker.value != BEGIN_NODE {
        return Scanned(false, []);
      }
      var visits := [];
      while true
        invariant fresh(cursor) && cursor.loc <= |dtb|
        invariant ScanFrom(dtb, cursor.loc, visits, scanner) == Scan(dtb, structOffset, scanner)
        decreases |dtb| - cursor.loc
      {
        var name := GetNullTerminated(cursor);
        if name.None? {
          return Scanned(false, visits);
        }
        SkipAndAlign(1, cursor);
        visits := visits + [Visit(name.value, cursor.loc)];
        match scanner(visits)
        case Stop => return Scanned(true, visits);
        case Fail => return Scanned(false, visits);
        case Continue =>
        var ok := SkipNodeProperties(cursor);
        if !ok {
          return Scanned(false, visits);
        }
        var next := NextBegin(cursor);
        if next != NodeAt(cursor.loc) {
          return Scanned(next.Finished?, visits);
        }
      }
    }

    /** The inner loop of the scan: past the ends of nodes to the name of the next. */
    method NextBegin(cursor: DtbCursor) returns (r: Next)
      requires Valid() && cursor.loc <= |dtb|
      modifies cursor
      ensures cursor.loc <= |dtb|
      ensures r == NextNode(dtb, old(cursor.loc)) && (r.NodeAt? ==> r == NodeAt(cursor.loc))
    {
      hide Number;
      ghost var start := cursor.loc;
      while true
        invariant cursor.loc <= |dtb| && NextNode(dtb, cursor.loc) == NextNode(dtb, start)
        decreases |dtb| - cursor.loc
      {
        var marker := GetU32(cursor);
        if marker.None? {
          return Malformed;
        }
        if marker.value == BEGIN_NODE {
          return NodeAt(cursor.loc);
        } else if marker.value == END {
          return Finished;
        } else if marker.value != END_NODE && marker.value != NOOP {
          return Malformed;
        }
      }
    }
  }
}
