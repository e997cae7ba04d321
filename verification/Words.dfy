/** Machine-word arithmetic on natural numbers: powers of two, alignment, and the
    shift and bitwise operators applied to addresses and flag words. Everything
    recurs on halving, so its proofs need no nonlinear arithmetic. */
module Words {

  function Pow2(n: nat): (r: nat)
    ensures r > 0
  {
    if n == 0 then 1 else 2 * Pow2(n - 1)
  }

  function Shr(x: int, l: nat): (r: int)
    ensures x >= 0 ==> r >= 0
    decreases l
  {
    if l == 0 then x else Shr(x / 2, l - 1)
  }

  /** 2^l divides x. */
  predicate Multiple(x: int, l: nat)
    decreases l
  {
    l == 0 || (x % 2 == 0 && Multiple(x / 2, l - 1))
  }

  /** x rounded down to a multiple of 2^l. */
  function AlignDown(x: int, l: nat): int
    decreases l
  {
    if l == 0 then x else 2 * AlignDown(x / 2, l - 1)
  }

  lemma {:induction false} Pow2Monotone(a: nat, b: nat)
    requires a <= b
    ensures Pow2(a) <= Pow2(b)
    decreases b - a
  {
    if a < b { Pow2Monotone(a, b - 1); }
  }

  // ---------------------------------------------------------------- alignment

  lemma DoubleProduct(k: int, d: int)
    ensures k * (2 * d) == 2 * (k * d)
  {
  }

  /** Shr, AlignDown and Multiple are division, rounding and divisibility by 2^l. */
  lemma {:induction false} Division(x: int, l: nat)
    ensures AlignDown(x, l) == Shr(x, l) * Pow2(l)
    ensures AlignDown(x, l) <= x < AlignDown(x, l) + Pow2(l)
    ensures Multiple(x, l) <==> x == AlignDown(x, l)
    decreases l
  {
    if l > 0 {
      Division(x / 2, l - 1);
      DoubleProduct(Shr(x / 2, l - 1), Pow2(l - 1));
    }
  }

  lemma {:induction false} AlignDownMultiple(x: int, l: nat)
    ensures Multiple(AlignDown(x, l), l)
    ensures AlignDown(x, l) <= x < AlignDown(x, l) + Pow2(l)
    ensures x >= 0 ==> AlignDown(x, l) >= 0
    decreases l
  {
    if l > 0 {
      AlignDownMultiple(x / 2, l - 1);
      assert AlignDown(x, l) / 2 == AlignDown(x / 2, l - 1);
    }
  }

  lemma {:induction false} Coarser(x: int, l: nat, m: nat)
    requires l <= m && Multiple(x, m)
    ensures Multiple(x, l)
    decreases l
  {
    if l > 0 { Coarser(x / 2, l - 1, m - 1); }
  }

  lemma {:induction false} MultipleSum(x: int, y: int, l: nat)
    requires Multiple(x, l) && Multiple(y, l)
    ensures Multiple(x + y, l) && Multiple(x - y, l)
    decreases l
  {
    if l > 0 {
      MultipleSum(x / 2, y / 2, l - 1);
      assert (x + y) / 2 == x / 2 + y / 2 && (x - y) / 2 == x / 2 - y / 2;
    }
  }

  lemma {:induction false} Pow2Multiple(l: nat, m: nat)
    requires l <= m
    ensures Multiple(Pow2(m), l)
  {
    if l > 0 { Pow2Multiple(l - 1, m - 1); }
  }

  /** Two multiples of 2^l that differ are at least 2^l apart. */
  lemma {:induction false} MultipleGap(x: int, y: int, l: nat)
    requires Multiple(x, l) && Multiple(y, l) && x < y
    ensures x + Pow2(l) <= y
    decreases l
  {
    if l > 0 { MultipleGap(x / 2, y / 2, l - 1); }
  }

  /** A multiple of 2^l is the lower or the upper half of a pair of multiples. */
  lemma {:induction false} PairHalves(x: int, l: nat)
    requires Multiple(x, l)
    ensures Multiple(x, l + 1) <==> Shr(x, l) % 2 == 0
    ensures Multiple(x - Pow2(l), l + 1) <==> Shr(x, l) % 2 == 1
    decreases l
  {
    if l > 0 {
      PairHalves(x / 2, l - 1);
      assert (x - Pow2(l)) / 2 == x / 2 - Pow2(l - 1);
    }
  }

  lemma {:induction false} ShrNeighbours(x: int, l: nat)
    requires Multiple(x, l)
    ensures Shr(x + Pow2(l), l) == Shr(x, l) + 1 && Shr(x - Pow2(l), l) == Shr(x, l) - 1
    decreases l
  {
    if l > 0 {
      ShrNeighbours(x / 2, l - 1);
      assert (x + Pow2(l)) / 2 == x / 2 + Pow2(l - 1) && (x - Pow2(l)) / 2 == x / 2 - Pow2(l - 1);
    }
  }

  /** The other multiple of 2^l in x's pair of multiples. */
  function OtherHalf(x: int, l: nat): int
  {
    if Shr(x, l) % 2 == 0 then x + Pow2(l) else x - Pow2(l)
  }

  lemma PairFacts(x: nat, l: nat)
    requires Multiple(x, l)
    ensures OtherHalf(x, l) >= 0 && Multiple(OtherHalf(x, l), l) && OtherHalf(OtherHalf(x, l), l) == x
    ensures Multiple(if x <= OtherHalf(x, l) then x else OtherHalf(x, l), l + 1)
    ensures Multiple(x, l + 1) ==> OtherHalf(x, l) == x + Pow2(l)
  {
    PairHalves(x, l);
    ShrNeighbours(x, l);
    OtherMultiple(x, l);
    if Shr(x, l) % 2 == 1 { UpperHalfPositive(x, l); }
  }

  lemma OtherMultiple(x: int, l: nat)
    requires Multiple(x, l)
    ensures Multiple(OtherHalf(x, l), l)
  {
    Pow2Multiple(l, l);
    MultipleSum(x, Pow2(l), l);
  }

  lemma {:induction false} UpperHalfPositive(x: nat, l: nat)
    requires Multiple(x, l) && Shr(x, l) % 2 == 1
    ensures x >= Pow2(l)
  {
    if l > 0 { UpperHalfPositive(x / 2, l - 1); }
  }

  lemma {:induction false} ZeroMultiple(l: nat)
    ensures Multiple(0, l)
  {
    if l > 0 { ZeroMultiple(l - 1); }
  }

  // ------------------------------------------------------------------ bitwise

  predicate Bit(w: nat, i: nat) { Shr(w, i) % 2 == 1 }

  function And(a: nat, b: nat): nat
  {
    if a == 0 || b == 0 then 0
    else 2 * And(a / 2, b / 2) + (if a % 2 == 1 && b % 2 == 1 then 1 else 0)
  }

  function Or(a: nat, b: nat): nat
  {
    if a == 0 then b
    else 2 * Or(a / 2, b / 2) + (if a % 2 == 1 || b % 2 == 1 then 1 else 0)
  }

  function Xor(a: nat, b: nat): nat
    decreases a + b
  {
    if a == 0 then b
    else if b == 0 then a
    else 2 * Xor(a / 2, b / 2) + (if a % 2 != b % 2 then 1 else 0)
  }

  lemma XorHalf(a: nat, b: nat)
    ensures Xor(a, b) / 2 == Xor(a / 2, b / 2)
    ensures Xor(a, b) % 2 == (if a % 2 != b % 2 then 1 else 0)
  {
  }

  lemma {:induction false} XorCancels(a: nat, b: nat, c: nat)
    ensures Xor(a, b) == Xor(a, c) <==> b == c
    decreases a + b + c
  {
    XorHalf(a, b);
    XorHalf(a, c);
    if a + b + c > 0 { XorCancels(a / 2, b / 2, c / 2); }
  }

  lemma {:induction false} XorSwap(s: nat, x: nat, y: nat)
    ensures Xor(Xor(s, x), y) == Xor(Xor(s, y), x)
    decreases s + x + y
  {
    XorHalf(s, x);
    XorHalf(s, y);
    XorHalf(Xor(s, x), y);
    XorHalf(Xor(s, y), x);
    if s + x + y > 0 { XorSwap(s / 2, x / 2, y / 2); }
  }

  lemma {:induction false} BitXor(a: nat, b: nat, i: nat)
    ensures Bit(Xor(a, b), i) == (Bit(a, i) != Bit(b, i))
  {
    XorHalf(a, b);
    if i > 0 { BitXor(a / 2, b / 2, i - 1); }
  }

  lemma {:induction false} ZeroBits(i: nat)
    ensures !Bit(0, i)
  {
    if i > 0 { ZeroBits(i - 1); }
  }

  lemma {:induction false} BitPow2(i: nat, j: nat)
    ensures Bit(Pow2(i), j) == (i == j)
  {
    if j > 0 {
      if i > 0 { BitPow2(i - 1, j - 1); } else { ZeroBits(j - 1); }
    }
  }

  /** `w & (1 << i)` is zero exactly when bit i of w is clear. */
  lemma {:induction false} AndPow2(w: nat, i: nat)
    ensures And(w, Pow2(i)) == 0 <==> !Bit(w, i)
  {
    if w == 0 {
      ZeroBits(i);
    } else if i == 0 {
      assert And(w / 2, 0) == 0;
    } else {
      AndPow2(w / 2, i - 1);
    }
  }

  /** `w ^= 1 << i` flips bit i and no other bit. */
  lemma FlipBit(w: nat, i: nat, j: nat)
    ensures Bit(Xor(w, Pow2(i)), j) == (if i == j then !Bit(w, j) else Bit(w, j))
  {
    BitXor(w, Pow2(i), j);
    BitPow2(i, j);
  }

  /** `x & (2^l - 1)` is zero exactly when x is a multiple of 2^l. */
  lemma {:induction false} AndMask(x: nat, l: nat)
    ensures And(x, Pow2(l) - 1) == 0 <==> Multiple(x, l)
  {
    if x == 0 {
      ZeroMultiple(l);
    } else if l > 0 {
      AndMask(x / 2, l - 1);
      assert (Pow2(l) - 1) / 2 == Pow2(l - 1) - 1;
    }
  }

  /** `n & (n - 1)` is zero exactly for powers of two. */
  lemma {:induction false} PowerOfTwo(n: nat)
    requires n > 0
    ensures And(n, n - 1) == 0 <==> n == Pow2(FloorLog2(n))
  {
    if n > 1 {
      PowerOfTwo(n / 2);
      if n % 2 == 1 { AndSelf(n / 2); }
    }
  }

  lemma {:induction false} AndSelf(n: nat)
    ensures And(n, n) == n
  {
    if n > 0 { AndSelf(n / 2); }
  }

  lemma {:induction false} OrZero(x: nat)
    ensures Or(x, 0) == x
  {
    if x != 0 { OrZero(x / 2); }
  }

  /** Setting bit l of a multiple of 2^(l+1) adds 2^l. */
  lemma {:induction false} OrAligned(x: nat, l: nat)
    requires Multiple(x, l + 1)
    ensures Or(x, Pow2(l)) == x + Pow2(l)
  {
    if x != 0 {
      if l == 0 { OrZero(x / 2); } else { OrAligned(x / 2, l - 1); }
    }
  }

  /** Flipping bit l of a multiple of 2^l moves to the other half of its pair. */
  lemma {:induction false} XorAligned(x: nat, l: nat)
    requires Multiple(x, l)
    ensures Xor(x, Pow2(l)) == OtherHalf(x, l)
  {
    XorHalf(x, Pow2(l));
    if l > 0 { XorAligned(x / 2, l - 1); }
  }

  // --------------------------------------------------------------- logarithms

  function FloorLog2(n: nat): (l: nat)
    ensures n > 0 ==> Pow2(l) <= n < Pow2(l + 1)
    ensures n == 0 ==> l == 0
  {
    if n <= 1 then 0 else 1 + FloorLog2(n / 2)
  }

  function CeilLog2(n: nat): (l: nat)
    ensures n <= Pow2(l)
    ensures l > 0 ==> Pow2(l - 1) < n
  {
    if n <= 1 then 0 else 1 + CeilLog2((n + 1) / 2)
  }

  /** The position of the lowest set bit of n. */
  function LowestBit(n: nat): (l: nat)
    requires n > 0
    ensures Multiple(n, l) && !Multiple(n, l + 1)
  {
    if n % 2 == 1 then 0 else 1 + LowestBit(n / 2)
  }

  /** Both logarithms of a power of two are its exponent. */
  lemma PowerLogs(n: nat, l: nat)
    requires n == Pow2(l)
    ensures FloorLog2(n) == l && CeilLog2(n) == l
  {
    FloorOfPower(n, l);
    CeilOfPower(n, l);
  }

  lemma Larger(l: nat, m: nat)
    requires l < m
    ensures Pow2(l) < Pow2(m)
  {
    Pow2Monotone(l, m - 1);
  }

  lemma FloorOfPower(n: nat, l: nat)
    requires n == Pow2(l)
    ensures FloorLog2(n) == l
  {
    hide Pow2, FloorLog2;
    var f := FloorLog2(n);
    if f < l { Pow2Monotone(f + 1, l); }
    if l < f { Larger(l, f); }
  }

  lemma CeilOfPower(n: nat, l: nat)
    requires n == Pow2(l)
    ensures CeilLog2(n) == l
  {
    hide Pow2, CeilLog2;
    var c := CeilLog2(n);
    if c < l { Larger(c, l); }
    if l < c { Pow2Monotone(l, c - 1); }
  }

  // --------------------------------------------------- masks of words of w bits

  /** The complement of 2^l - 1 in a word of w bits is 2^w - 2^l: masking with it, as
      `addr & !(boundary - 1)` does, rounds down to a multiple of 2^l. */
  lemma {:induction false} AlignDownByMask(x: nat, l: nat, w: nat)
    requires l <= w && x < Pow2(w)
    ensures Pow2(l) <= Pow2(w) && And(x, Pow2(w) - Pow2(l)) == AlignDown(x, l)
    decreases w
  {
    Pow2Monotone(l, w);
    if w == 0 {
    } else if l == 0 {
      AlignDownByMask(x / 2, 0, w - 1);
      assert (Pow2(w) - 1) / 2 == Pow2(w - 1) - 1 && (Pow2(w) - 1) % 2 == 1;
    } else {
      AlignDownByMask(x / 2, l - 1, w - 1);
      assert (Pow2(w) - Pow2(l)) / 2 == Pow2(w - 1) - Pow2(l - 1) && (Pow2(w) - Pow2(l)) % 2 == 0;
      if x == 0 || Pow2(w) == Pow2(l) { AlignDownBelow(x, l); }
    }
  }

  lemma {:induction false} AlignDownBelow(x: nat, l: nat)
    requires x < Pow2(l)
    ensures AlignDown(x, l) == 0
  {
    if l > 0 { AlignDownBelow(x / 2, l - 1); }
  }

  /** A word and its complement have no set bit in common. */
  lemma {:induction false} AndComplement(n: nat, w: nat)
    requires n < Pow2(w)
    ensures And(n, Pow2(w) - 1 - n) == 0
    decreases w
  {
    if w > 0 && n > 0 {
      AndComplement(n / 2, w - 1);
      var m: nat := Pow2(w) - 1 - n;
      assert m / 2 == Pow2(w - 1) - 1 - n / 2 && (m % 2 == 1 <==> n % 2 == 0);
    }
  }

  /** The complement of n plus one is 2^w - n in a word of w bits: `n & (!n + 1)` keeps
      exactly the lowest set bit, and its logarithm is the position of that bit. */
  lemma LowestBitByMask(n: nat, w: nat)
    requires 0 < n < Pow2(w)
    ensures And(n, Pow2(w) - n) == Pow2(LowestBit(n)) && FloorLog2(And(n, Pow2(w) - n)) == LowestBit(n)
  {
    LowestByMask(n, w);
    FloorOfPower(And(n, Pow2(w) - n), LowestBit(n));
  }

  lemma {:induction false} LowestByMask(n: nat, w: nat)
    requires 0 < n < Pow2(w)
    ensures And(n, Pow2(w) - n) == Pow2(LowestBit(n))
    decreases w
  {
    hide FloorLog2, CeilLog2, Multiple;
    var m: nat := Pow2(w) - n;
    if n % 2 == 1 {
      AndComplement(n / 2, w - 1);
      assert m / 2 == Pow2(w - 1) - 1 - n / 2 && m % 2 == 1;
    } else {
      LowestByMask(n / 2, w - 1);
      assert m / 2 == Pow2(w - 1) - n / 2 && m % 2 == 0;
    }
  }
}
