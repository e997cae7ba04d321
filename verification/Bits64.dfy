/** The 64-bit word tricks: logarithms by smearing and counting bits, and the interleaving
    of two half words. */
module Bits64 {

  type Word = bv64

  /** Copies the highest set bit to every bit below it. */
  function Smear(n: Word): Word
  {
    var a := n | (n >> 1);
    var b := a | (a >> 2);
    var c := b | (b >> 4);
    var d := c | (c >> 8);
    var e := d | (d >> 16);
    e | (e >> 32)
  }

  /** The population count. */
  function Ones(n: Word): Word
  {
    var a := n - ((n >> 1) & 0x5555_5555_5555_5555);
    var b := ((a >> 2) & 0x3333_3333_3333_3333) + (a & 0x3333_3333_3333_3333);
    var c := ((b >> 4) + b) & 0x0f0f_0f0f_0f0f_0f0f;
    var d := c + (c >> 8);
    var e := d + (d >> 16);
    var f := e + (e >> 32);
    f & 0x7f
  }

  function FloorLog2(n: Word): Word
  {
    Ones(Smear(n) >> 1)
  }

  /** 1 unless at most one bit is set. */
  function NotPower(n: Word): Word
  {
    var m := n & (n - 1);
    (m | !(m - 1)) >> 63
  }

  function CeilLog2(n: Word): Word
  {
    FloorLog2(n) + NotPower(n)
  }

  /** The word with bits 0 to k set. */
  function Full(k: Word): Word
    requires k < 64
  {
    ((2 as Word) << k) - 1
  }

  /** The highest set bit of n is bit k: n lies between 2^k and 2^(k+1) - 1. */
  predicate HighestBit(n: Word, k: Word)
  {
    k < 64 && n >> k == 1
  }

  lemma TopBit(n: Word, k: Word)
    requires HighestBit(n, k)
    ensures n | (Full(k) >> 1) == Full(k)
  {
  }

  lemma Smear1(x: Word, f: Word)
    requires x | (f >> 1) == f
    ensures (x | (x >> 1)) | (f >> 2) == f
  {
  }

  lemma Smear2(x: Word, f: Word)
    requires x | (f >> 2) == f
    ensures (x | (x >> 2)) | (f >> 4) == f
  {
  }

  lemma Smear4(x: Word, f: Word)
    requires x | (f >> 4) == f
    ensures (x | (x >> 4)) | (f >> 8) == f
  {
  }

  lemma Smear8(x: Word, f: Word)
    requires x | (f >> 8) == f
    ensures (x | (x >> 8)) | (f >> 16) == f
  {
  }

  lemma Smear16(x: Word, f: Word)
    requires x | (f >> 16) == f
    ensures (x | (x >> 16)) | (f >> 32) == f
  {
  }

  lemma Smear32(x: Word, f: Word)
    requires x | (f >> 32) == f
    ensures x | (x >> 32) == f
  {
  }

  /** Each step doubles the run of set bits below the highest, until it reaches bit 0. */
  lemma SmearFills(n: Word, k: Word)
    requires HighestBit(n, k)
    ensures Smear(n) == Full(k)
  {
    var f := Full(k);
    TopBit(n, k);
    hide Full, HighestBit;
    var a := n | (n >> 1);
    Smear1(n, f);
    var b := a | (a >> 2);
    Smear2(a, f);
    var c := b | (b >> 4);
    Smear4(b, f);
    var d := c | (c >> 8);
    Smear8(c, f);
    var e := d | (d >> 16);
    Smear16(d, f);
    Smear32(e, f);
  }

  lemma OnesOfFull(k: Word)
    requires k < 64
    ensures Ones(Full(k) >> 1) == k
  {
  }

  /** The floor of the base-2 logarithm: the index of the highest set bit. */
  lemma FloorLog2Is(n: Word, k: Word)
    requires HighestBit(n, k)
    ensures FloorLog2(n) == k
  {
    hide Smear, Ones, Full, HighestBit;
    SmearFills(n, k);
    KBounded(n, k);
    OnesOfFull(k);
  }

  lemma KBounded(n: Word, k: Word)
    requires HighestBit(n, k)
    ensures k < 64
  {
  }

  /** Bit k is the only one set. */
  predicate OnlyBit(n: Word, k: Word)
  {
    k < 64 && n == (1 as Word) << k
  }

  lemma NotPowerIs(n: Word, k: Word)
    requires HighestBit(n, k)
    ensures NotPower(n) == if OnlyBit(n, k) then 0 else 1
  {
  }

  /** The ceiling of the base-2 logarithm: one more than the floor unless n is a power of 2. */
  lemma CeilLog2Is(n: Word, k: Word)
    requires HighestBit(n, k)
    ensures FloorLog2(n) == k && CeilLog2(n) == FloorLog2(n) + (if OnlyBit(n, k) then 0 else 1)
  {
    FloorLog2Is(n, k);
    NotPowerIs(n, k);
  }

  // -------------------------------------------------------------------- interleaving

  function CompactOddBits(n: Word): Word
  {
    var a := ((n & 0x4444_4444_4444_4444) >> 1) | (n & 0x1111_1111_1111_1111);
    var b := ((a & 0x3030_3030_3030_3030) >> 2) | (a & 0x0303_0303_0303_0303);
    var c := ((b & 0x0f00_0f00_0f00_0f00) >> 4) | (b & 0x000f_000f_000f_000f);
    var d := ((c & 0x00ff_0000_00ff_0000) >> 8) | (c & 0x0000_00ff_0000_00ff);
    ((d & 0x0000_ffff_0000_0000) >> 16) | (d & 0x0000_0000_0000_ffff)
  }

  function CompactEvenBits(n: Word): Word
  {
    CompactOddBits(n >> 1)
  }

  /** Spreads the lower half word over the odd bits, counted from 1. */
  function Spread(a: Word): Word
  {
    var p := (a | (a << 16)) & 0x0000_ffff_0000_ffff;
    var q := (p | (p << 8)) & 0x00ff_00ff_00ff_00ff;
    var r := (q | (q << 4)) & 0x0f0f_0f0f_0f0f_0f0f;
    var s := (r | (r << 2)) & 0x3333_3333_3333_3333;
    (s | (s << 1)) & 0x5555_5555_5555_5555
  }

  function InterleaveBits(a: Word, b: Word): Word
  {
    Spread(a) | (Spread(b) << 1)
  }

  /** The bits from 32 to 47 that are set where the bits 16 places lower are not: the
      spreading lets them through, although the upper half is said to be ignored. */
  function Leak(a: Word): Word
  {
    a & 0x0000_ffff_0000_0000 & !(a << 16)
  }

  /** The first step of the spreading. */
  function Halved(a: Word): Word
  {
    (a | (a << 16)) & 0x0000_ffff_0000_ffff
  }

  /** The two quarters of the halved word put back together. */
  function Rejoined(x: Word): Word
  {
    ((x & 0x0000_ffff_0000_0000) >> 16) | (x & 0xffff)
  }

  lemma OddReadsBack(a: Word, b: Word)
    ensures CompactOddBits(InterleaveBits(a, b)) == Rejoined(Halved(a))
  {
  }

  lemma EvenReadsBack(a: Word, b: Word)
    ensures CompactEvenBits(InterleaveBits(a, b)) == Rejoined(Halved(b))
  {
  }

  lemma RejoinedIff(a: Word)
    ensures Rejoined(Halved(a)) == a & 0xffff_ffff <==> Leak(a) == 0
  {
    hide Halved, Rejoined, Leak;
    if Leak(a) == 0 { NothingLeaks(a); } else { SomethingLeaks(a); }
  }

  lemma NothingLeaks(a: Word)
    requires Leak(a) == 0
    ensures Rejoined(Halved(a)) == a & 0xffff_ffff
  {
  }

  lemma SomethingLeaks(a: Word)
    requires Leak(a) != 0
    ensures Rejoined(Halved(a)) != a & 0xffff_ffff
  {
  }

  lemma NoLeak(a: Word)
    requires a <= 0xffff_ffff
    ensures Leak(a) == 0
  {
  }

  /** Compacting undoes interleaving exactly when nothing leaks from the upper half; so
      always for half words. */
  lemma CompactUndoesInterleaveIff(a: Word, b: Word)
    ensures CompactOddBits(InterleaveBits(a, b)) == a & 0xffff_ffff <==> Leak(a) == 0
    ensures CompactEvenBits(InterleaveBits(a, b)) == b & 0xffff_ffff <==> Leak(b) == 0
    ensures a <= 0xffff_ffff ==> Leak(a) == 0
  {
    hide CompactOddBits, CompactEvenBits, InterleaveBits, Halved, Rejoined, Leak;
    OddReadsBack(a, b);
    EvenReadsBack(a, b);
    RejoinedIff(a);
    RejoinedIff(b);
    if a <= 0xffff_ffff { NoLeak(a); }
  }

  /** Bit 32 alone, interleaved with nothing, reads back as bit 16. */
  lemma UpperBitReadsBack()
    ensures CompactOddBits(InterleaveBits(0x1_0000_0000, 0)) == 0x1_0000 != 0x1_0000_0000 & 0xffff_ffff
  {
    OddReadsBack(0x1_0000_0000, 0);
  }

  /** Interleaving undoes compacting, for every word. */
  lemma InterleaveUndoesCompact(n: Word)
    ensures InterleaveBits(CompactOddBits(n), CompactEvenBits(n)) == n
  {
  }
}
