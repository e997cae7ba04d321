/** How the slab manager chooses its slabs: the smallest power of two of pages that holds
    seven objects and the node, and as many objects as then fit. */
module SlabGeometry {
  import opened Words
  import opened Rings
  import opened SlabPool

  const MIN_OBJECTS: nat := 7
  const NODE_SIZE: nat := 40

  function MinSlabSize(objSize: nat): nat
  {
    objSize * MIN_OBJECTS + NODE_SIZE
  }

  /** The power of two of pages in a slab. */
  function SlabPagesLog2(pageShift: nat, objSize: nat): nat
  {
    CeilLog2((MinSlabSize(objSize) + Pow2(pageShift) - 1) / Pow2(pageShift))
  }

  /** None: the slab is larger than the page allocator's largest block, of 2^top pages. */
  function New(pageShift: nat, objSize: nat, top: nat): Option<Geometry>
    requires objSize > 0
  {
    if Pow2(SlabPagesLog2(pageShift, objSize)) > Pow2(top) then None
    else Some(Chosen(pageShift, objSize))
  }

  function Chosen(pageShift: nat, objSize: nat): Geometry
    requires objSize > 0
  {
    var shift := pageShift + SlabPagesLog2(pageShift, objSize);
    Geometry(shift, objSize, if Pow2(shift) < NODE_SIZE then 0 else (Pow2(shift) - NODE_SIZE) / objSize,
             if Pow2(shift) < NODE_SIZE then 0 else Pow2(shift) - NODE_SIZE)
  }

  lemma {:induction false} Pow2Sum(a: nat, b: nat)
    ensures Pow2(a + b) == Pow2(a) * Pow2(b)
    decreases b
  {
    if b > 0 { Pow2Sum(a, b - 1); }
  }

  lemma {:induction false} ObjAddrIs(g: Geometry, base: int, i: nat)
    ensures ObjAddr(g, base, i) == base + i * g.objSize
  {
    if i > 0 { ObjAddrIs(g, base, i - 1); }
  }

  lemma RoundedUp(x: nat, p: nat)
    requires p > 0
    ensures p * ((x + p - 1) / p) >= x
  {
    var y := x + p - 1;
    assert y == p * (y / p) + y % p;
  }

  lemma ProductMonotone(p: nat, a: nat, b: nat)
    requires a <= b
    ensures p * a <= p * b
  {
  }

  /** The slabs chosen are proper ones: the objects fit below the node, there are at least
      seven of them, and there is no room for one more. The assertion on the slab size
      fails exactly when seven objects and the node do not fit in the largest block. The
      slab is the smallest power of two of pages that holds them, of one page at least, and
      ends with its node. */
  lemma NewIsProper(pageShift: nat, objSize: nat, top: nat)
    requires objSize > 0
    ensures var r := New(pageShift, objSize, top);
            && (r.None? <==> MinSlabSize(objSize) > Pow2(pageShift) * Pow2(top))
            && (r.Some? ==>
                  var g := r.value;
                  && Proper(g) && g.objs >= MIN_OBJECTS
                  && g.objs * objSize + NODE_SIZE <= Pow2(g.shift) < (g.objs + 1) * objSize + NODE_SIZE
                  && pageShift <= g.shift <= pageShift + top && g.nodeOffset + NODE_SIZE == Pow2(g.shift)
                  && MinSlabSize(objSize) <= Pow2(g.shift)
                  && (g.shift > pageShift ==> Pow2(g.shift - 1) < MinSlabSize(objSize)))
  {
    hide Chosen, SlabPagesLog2, CeilLog2, Proper, Pow2;
    ChosenIsProper(pageShift, objSize);
    RefusedIff(pageShift, objSize, top);
    ChosenIsLeast(pageShift, objSize);
    var k := SlabPagesLog2(pageShift, objSize);
    if Pow2(k) <= Pow2(top) && k > top { Larger(top, k); }
  }

  lemma ChosenIsLeast(pageShift: nat, objSize: nat)
    requires objSize > 0
    ensures var g, k := Chosen(pageShift, objSize), SlabPagesLog2(pageShift, objSize);
            && g.shift == pageShift + k && g.nodeOffset + NODE_SIZE == Pow2(g.shift)
            && MinSlabSize(objSize) <= Pow2(g.shift)
            && (k > 0 ==> Pow2(g.shift - 1) < MinSlabSize(objSize))
  {
    hide CeilLog2, Pow2;
    var p, size, k := Pow2(pageShift), MinSlabSize(objSize), SlabPagesLog2(pageShift, objSize);
    var pages := (size + p - 1) / p;
    Pow2Sum(pageShift, k);
    PagesNeeded(size, p, Pow2(k));
    if k > 0 {
      Pow2Sum(pageShift, k - 1);
      PagesNeeded(size, p, Pow2(k - 1));
    }
  }

  lemma ChosenIsProper(pageShift: nat, objSize: nat)
    requires objSize > 0
    ensures var g := Chosen(pageShift, objSize);
            && Proper(g) && g.objs >= MIN_OBJECTS
            && g.objs * objSize + NODE_SIZE <= Pow2(g.shift) < (g.objs + 1) * objSize + NODE_SIZE
  {
    var g, p := Chosen(pageShift, objSize), Pow2(pageShift);
    var pages, k := (MinSlabSize(objSize) + p - 1) / p, SlabPagesLog2(pageShift, objSize);
    RoundedUp(MinSlabSize(objSize), p);
    Pow2Sum(pageShift, k);
    CeilCovers(pages);
    ProductMonotone(p, pages, Pow2(k));
    var room := Pow2(g.shift) - NODE_SIZE;
    FloorFits(room, objSize);
    ObjAddrIs(g, 0, g.objs);
  }

  /** A power of two of pages holds the least size exactly when it is no less than the one
      chosen. */
  lemma RefusedIff(pageShift: nat, objSize: nat, top: nat)
    ensures Pow2(SlabPagesLog2(pageShift, objSize)) > Pow2(top) <==>
              MinSlabSize(objSize) > Pow2(pageShift) * Pow2(top)
  {
    hide CeilLog2, Pow2;
    var p, size, t := Pow2(pageShift), MinSlabSize(objSize), Pow2(top);
    var pages, k := (size + p - 1) / p, SlabPagesLog2(pageShift, objSize);
    PagesNeeded(size, p, t);
    if pages <= t && Pow2(k) > t {
      SmallerPower(top, k);
      assert false;
    }
  }

  lemma SmallerPower(top: nat, k: nat)
    requires Pow2(k) > Pow2(top)
    ensures k > 0 && Pow2(k - 1) >= Pow2(top)
  {
    if k <= top { Pow2Monotone(k, top); } else { Pow2Monotone(top, k - 1); }
  }

  lemma PagesNeeded(x: nat, p: nat, t: nat)
    requires p > 0
    ensures (x + p - 1) / p <= t <==> x <= p * t
  {
    var y := x + p - 1;
    var q := y / p;
    assert y == p * q + y % p;
    if q <= t {
      ProductMonotone(p, q, t);
    } else {
      ProductMonotone(p, t + 1, q);
    }
  }

  lemma CeilCovers(n: nat)
    ensures Pow2(CeilLog2(n)) >= n
  {
  }

  lemma FloorFits(room: nat, size: nat)
    requires size > 0 && room >= size * MIN_OBJECTS
    ensures room / size >= MIN_OBJECTS && (room / size) * size <= room < (room / size + 1) * size
  {
    var q, r := room / size, room % size;
    assert room == size * q + r;
    if q < MIN_OBJECTS { ProductMonotone(size, q + 1, MIN_OBJECTS); }
  }
}
