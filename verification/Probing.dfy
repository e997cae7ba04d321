/** Quadratic probing: the first half of the probes into a table of odd prime size are
    all different, so they find a free slot while less than half the table is taken. */
module Probing {

  ghost predicate Prime(n: int)
  {
    n > 1 && forall d, q | 1 < d < n :: d * q != n
  }

  /** The slot of the i-th probe for hash h in a table of n slots. */
  function ProbeIndex(h: nat, i: nat, n: nat): (q: nat)
    requires n > 0
    ensures q < n
  {
    (h + i * i) % n
  }

  /** A prime that divides a product divides a factor: none divides the product of two
      smaller numbers. By descent on a: n mod a is smaller and keeps the property. */
  lemma {:induction false} PrimeProduct(n: int, a: int, b: int, k: int)
    requires Prime(n) && 0 < a < n && 0 < b < n
    ensures a * b != n * k
    decreases a
  {
    if a * b == n * k {
      var q, r := n / a, n % a;
      if a == 1 {
        MultipleTooBig(n, b, k);
      } else {
        assert n == a * q + r;
        if r == 0 {
          assert false;
        } else {
          RemainderToo(n, a, b, k, q, r);
          PrimeProduct(n, r, b, b - q * k);
        }
      }
    }
  }

  lemma MultipleTooBig(n: int, b: int, k: int)
    requires 0 < b < n
    ensures b != n * k
  {
    if k >= 1 { assert n * k >= n; } else { assert n * k <= 0; }
  }

  lemma RemainderToo(n: int, a: int, b: int, k: int, q: int, r: int)
    requires a * b == n * k && n == a * q + r
    ensures r * b == n * (b - q * k)
  {
    calc {
      r * b;
      (n - a * q) * b;
      n * b - q * (a * b);
      n * b - q * (n * k);
      n * (b - q * k);
    }
  }

  /** Two different probes of the first half hit different slots. */
  lemma ProbesDistinct(n: nat, h: nat, i: nat, j: nat)
    requires Prime(n) && i < j && 2 * j < n
    ensures ProbeIndex(h, i, n) != ProbeIndex(h, j, n)
  {
    if ProbeIndex(h, i, n) == ProbeIndex(h, j, n) {
      var x, y := (h + i * i) / n, (h + j * j) / n;
      assert h + j * j - (h + i * i) == n * y - n * x;
      assert (j - i) * (j + i) == n * (y - x);
      PrimeProduct(n, j - i, j + i, y - x);
    }
  }

  /** The later probes only repeat the slots of the first half. */
  lemma ProbesRepeat(n: nat, h: nat, i: nat)
    requires 0 < n && i <= n
    ensures ProbeIndex(h, n - i, n) == ProbeIndex(h, i, n)
  {
    var x := h + i * i;
    assert h + (n - i) * (n - i) == x + n * (n - 2 * i);
    SameRemainder(x, n, n - 2 * i);
  }

  lemma SameRemainder(x: int, n: int, k: int)
    requires n > 0
    ensures (x + n * k) % n == x % n
  {
    var q, r := x / n, x % n;
    assert x + n * k == n * (q + k) + r;
    QuotientIs(n, q + k, r);
  }

  lemma QuotientIs(n: int, q: int, r: int)
    requires 0 <= r < n
    ensures (n * q + r) % n == r
  {
    var y := n * q + r;
    var q', r' := y / n, y % n;
    assert y == n * q' + r';
    assert n * (q - q') == r' - r;
    SmallMultiple(n, q - q', r' - r);
  }

  lemma SmallMultiple(n: int, k: int, d: int)
    requires n * k == d && -n < d < n
    ensures d == 0
  {
    if k >= 1 { AtLeast(n, k); } else if k <= -1 { AtLeast(n, -k); }
  }

  lemma AtLeast(n: int, k: int)
    requires n > 0 && k >= 1
    ensures n * k >= n && n * -k <= -n
  {
  }

  /** The slots of the first m probes. */
  ghost function Probed(n: nat, h: nat, m: nat): set<nat>
    requires n > 0
  {
    set i | 0 <= i < m :: ProbeIndex(h, i, n)
  }

  /** Half the table, rounded up, is probed. */
  lemma {:induction false} ProbedCount(n: nat, h: nat, m: nat)
    requires Prime(n) && 2 * m <= n + 1
    ensures |Probed(n, h, m)| == m
  {
    if m == 0 {
      assert Probed(n, h, m) == {};
    } else {
      ProbedCount(n, h, m - 1);
      var last := ProbeIndex(h, m - 1, n);
      if last in Probed(n, h, m - 1) {
        var i: nat :| i < m - 1 && ProbeIndex(h, i, n) == last;
        ProbesDistinct(n, h, i, m - 1);
      }
      assert Probed(n, h, m) == Probed(n, h, m - 1) + {last};
    }
  }

  /** While fewer than half the slots are taken, some probe finds a free one. */
  lemma FreeProbe(n: nat, h: nat, taken: set<nat>)
    requires Prime(n) && n > 2 && 2 * |taken| < n + 1
    ensures exists i: nat :: i < n && ProbeIndex(h, i, n) !in taken
  {
    var m := |taken| + 1;
    if 2 * m <= n + 1 {
      ProbedCount(n, h, m);
      if Probed(n, h, m) <= taken { SubsetCount(Probed(n, h, m), taken); }
      var s :| s in Probed(n, h, m) && s !in taken;
    } else {
      EvenPrime(n);
    }
  }

  lemma SubsetCount(a: set<nat>, b: set<nat>)
    requires a <= b
    ensures |a| <= |b|
  {
    assert b == a + (b - a);
  }

  /** A prime above 2 is odd. */
  lemma EvenPrime(n: nat)
    requires Prime(n) && n > 2
    ensures n % 2 == 1
  {
    var half := n / 2;
    assert 2 * half == n || n % 2 == 1;
  }

  /** A number with no divisor up to its square root is prime. */
  lemma PrimeIfNoneSmall(n: int, r: int)
    requires n > 1 && r > 0 && (r + 1) * (r + 1) > n && forall d, q | 1 < d <= r :: d * q != n
    ensures Prime(n)
  {
    forall d, q | 1 < d < n
      ensures d * q != n
    {
      if d * q == n && d > r {
        Cofactor(n, d, q, r);
        assert false;
      }
    }
  }

  /** The cofactor of a large divisor is a small one. */
  lemma Cofactor(n: int, d: int, q: int, r: int)
    requires r < d < n && d * q == n && 0 < n < (r + 1) * (r + 1) && r > 0
    ensures 1 < q <= r && q * d == n
  {
    assert q <= 1 ==> d * q <= d;
    if q > r { Larger(d, q, r + 1); }
  }

  lemma Larger(d: int, q: int, s: int)
    requires d >= s > 0 && q >= s
    ensures d * q >= s * s
  {
    assert d * q >= s * q;
    assert s * q >= s * s;
  }

  /** Both sizes the kernel gives its core map are prime. */
  lemma CoreMapSizesPrime()
    ensures Prime(389) && Prime(29)
  {
    forall d, q | 1 < d <= 19
      ensures d * q != 389
    {
      NotMultiple(389, d, q);
    }
    PrimeIfNoneSmall(389, 19);
    forall d, q | 1 < d <= 5
      ensures d * q != 29
    {
      NotMultiple(29, d, q);
    }
    PrimeIfNoneSmall(29, 5);
  }

  lemma NotMultiple(n: int, d: int, q: int)
    requires 1 < d && n % d != 0
    ensures d * q != n
  {
    if d * q == n { QuotientIs(d, q, 0); }
  }
}
