/** Small real-arithmetic helpers shared by the model. */
module Arith {

  /** A strictly positive real, for physical constants such as unit factors. */
  type PosReal = x: real | x > 0.0 witness 1.0

  function Min(a: real, b: real): (r: real)
    ensures r <= a && r <= b
    ensures r == a || r == b
  {
    if a <= b then a else b
  }

  function Max(a: real, b: real): (r: real)
    ensures r >= a && r >= b
    ensures r == a || r == b
  {
    if a >= b then a else b
  }

  function Abs(a: real): (r: real)
    ensures r >= 0.0
    ensures r == a || r == -a
  {
    if a < 0.0 then -a else a
  }

  /** Division as the seasonal-rating code uses it. Ruby's floating-point
      division by zero yields Infinity or NaN; reals have neither, so the
      quotient by zero is taken to be 0. Used only where the source relies on
      such a division being total (inside the functions the bisection searches
      over). */
  function Quot(x: real, y: real): (r: real)
    ensures y != 0.0 ==> r * y == x
    ensures x == 0.0 ==> r == 0.0
  {
    if y == 0.0 then 0.0 else x / y
  }

  /** Ruby's `Float#ceil` on a real value. */
  function Ceil(x: real): (r: int)
    ensures x <= r as real < x + 1.0
  {
    -((-x).Floor)
  }

  /** Degrees Fahrenheit to degrees Celsius. */
  function FToC(f: real): (c: real)
    ensures c * 1.8 + 32.0 == f
  {
    (f - 32.0) / 1.8
  }

  /** 2^n as a real, for the bisection widths. */
  function Pow2(n: nat): (r: real)
    ensures r >= 1.0
  {
    if n == 0 then 1.0 else 2.0 * Pow2(n - 1)
  }

  lemma {:induction false} Pow2Monotone(m: nat, n: nat)
    requires m <= n
    ensures Pow2(m) <= Pow2(n)
  {
    if m < n {
      Pow2Monotone(m, n - 1);
    }
  }

  lemma Pow2Eighteen()
    ensures Pow2(18) == 262144.0
  {
    assert Pow2(4) == 16.0;
    assert Pow2(8) == 256.0;
    assert Pow2(12) == 4096.0;
    assert Pow2(16) == 65536.0;
  }

  lemma MulNonNeg(a: real, b: real)
    requires a >= 0.0 && b >= 0.0
    ensures a * b >= 0.0
  {
  }

  /** Scaling by a fraction in [0, 1] shrinks a non-negative value. */
  lemma ScaleDown(x: real, d: real)
    requires 0.0 <= x <= 1.0 && d >= 0.0
    ensures 0.0 <= x * d <= d
  {
    MulNonNeg(x, d);
    MulNonNeg(1.0 - x, d);
    assert (1.0 - x) * d == d - x * d;
  }

  lemma MulMonoLt(x: real, y: real, d: real)
    requires d > 0.0 && x * d < y * d
    ensures x < y
  {
  }

  lemma ScaleLe(x: real, y: real, m: real)
    requires m > 0.0 && x <= y
    ensures x * m <= y * m
  {
  }

  lemma ScaleLt(x: real, y: real, m: real)
    requires m > 0.0 && x < y
    ensures x * m < y * m
  {
  }

  lemma QuotTimes(a: real, m: real)
    requires m != 0.0
    ensures a / m * m == a
  {
  }

  /** Products of bounded non-negative factors are bounded. */
  lemma MulBound(x: real, y: real, xMax: real, yMax: real)
    requires 0.0 <= x <= xMax && 0.0 <= y <= yMax
    ensures x * y <= xMax * yMax
  {
    MulNonNeg(xMax - x, y);
    MulNonNeg(xMax, yMax - y);
    assert xMax * yMax - x * y == (xMax - x) * y + xMax * (yMax - y);
  }

  /** A factor whose product with a positive number is positive is positive. */
  lemma PositiveFactor(x: real, c: real, p: real)
    requires c > 0.0 && x * c == p && p > 0.0
    ensures x > 0.0
  {
    if x <= 0.0 {
      MulNonNeg(-x, c);
      assert false;
    }
  }

  lemma NonZeroCancel(a: real, b: real, m: real)
    requires m != 0.0 && a * m == b * m
    ensures a == b
  {
  }

  lemma DivideBack(g: real, x: real, p: real)
    requires x != 0.0 && x * p == g
    ensures g / x == p
  {
    QuotTimes(g, x);
    NonZeroCancel(g / x, p, x);
  }

  lemma FractionBelowOne(a: real, d: real)
    requires 0.0 < a < d
    ensures 0.0 < a / d < 1.0
  {
    var q := a / d;
    assert q * d == a;
    MulMonoLt(q, 1.0, d);
  }

  /** A convex combination lies between its two ends. */
  lemma Convex(x: real, lo: real, hi: real)
    requires 0.0 <= x <= 1.0
    ensures Min(lo, hi) <= x * lo + (1.0 - x) * hi <= Max(lo, hi)
  {
    if lo <= hi {
      assert x * lo + (1.0 - x) * hi == hi - x * (hi - lo);
      ScaleDown(x, hi - lo);
    } else {
      assert x * lo + (1.0 - x) * hi == hi + x * (lo - hi);
      ScaleDown(x, lo - hi);
      assert hi + x * (lo - hi) <= lo;
    }
  }

  lemma DivMonotone(a: real, b: real, c: real)
    requires a <= b && c > 0.0
    ensures a / c <= b / c
  {
  }

  /** Multiplying by a positive number keeps order. */
  lemma ProductCompare(a: real, b: real, m: real)
    requires m > 0.0
    ensures a * m <= b * m <==> a <= b
    ensures a * m < b * m <==> a < b
  {
  }

  lemma NonZeroProduct(a: real, b: real)
    requires a != 0.0 && b != 0.0
    ensures a * b != 0.0
  {
  }
}
