/** The bisection search shared by the rated-point solvers: it halves a
    bracket [a, b] until half its width is within a tolerance, keeping the
    half whose endpoints' residuals differ in sign, and stops early when the
    midpoint's residual is exactly zero. */
module Bisection {
  import opened Arith

  /** How a search ends: on an exact root at a midpoint, with the final
      bracket [lo, hi] and its midpoint x, or without converging. */
  datatype Outcome = Root(x: real) | Converged(x: real, lo: real, hi: real) | NoConvergence

  /** Searches [a0, b0] for a zero of f with at most iterMax halvings. Also
      returns the number of iterations it ran. */
  method Bisect(f: real -> real, a0: real, b0: real, iterMax: nat, tol: real) returns (r: Outcome, n: nat)
    requires a0 < b0 && iterMax >= 1
    ensures 1 <= n <= iterMax
    ensures r.Root? ==> f(r.x) == 0.0 && a0 < r.x < b0
    ensures f((a0 + b0) / 2.0) == 0.0 ==> r == Root((a0 + b0) / 2.0) && n == 1
    ensures r.Converged? ==>
              a0 <= r.lo < r.hi <= b0 && r.x == (r.lo + r.hi) / 2.0 &&
              r.hi - r.lo == (b0 - a0) / Pow2(n) && (r.hi - r.lo) / 2.0 <= tol
    ensures r.Converged? && f(a0) * f(b0) < 0.0 ==> f(r.lo) * f(r.hi) < 0.0
    ensures r.NoConvergence? ==> n == iterMax && b0 - a0 > tol * Pow2(iterMax + 1)
    ensures forall m :: 1 <= m < n ==> StillWide(a0, b0, tol, m)
  {
    var a, b := a0, b0;
    var err := 1.0;
    var c := (a + b) / 2.0;
    n := 0;
    while n < iterMax
      invariant 0 <= n <= iterMax
      invariant a0 <= a < b <= b0
      invariant b - a == (b0 - a0) / Pow2(n)
      invariant c == (a + b) / 2.0
      invariant n > 0 ==> err == (b - a) / 2.0 && err > tol
      invariant n == 0 ==> a == a0 && b == b0
      invariant n > 0 ==> f((a0 + b0) / 2.0) != 0.0
      invariant f(a0) * f(b0) < 0.0 ==> f(a) * f(b) < 0.0
      invariant forall m :: 1 <= m <= n ==> StillWide(a0, b0, tol, m)
    {
      ghost var w := b - a;
      var fa := f(a);
      var fc := f(c);
      n := n + 1;
      if fc == 0.0 {
        return Root(c), n;
      } else if fa * fc < 0.0 {
        b := c;
      } else {
        SignCarries(fa, fc, f(b));
        a := c;
      }
      Halve(w, b0 - a0, Pow2(n - 1));
      assert Pow2(n) == 2.0 * Pow2(n - 1);
      c := (a + b) / 2.0;
      err := (b - a) / 2.0;
      WidthBound(b0 - a0, Pow2(n), err, tol);
      assert Pow2(n + 1) == 2.0 * Pow2(n);
      if err <= tol {
        return Converged(c, a, b), n;
      }
    }
    assert StillWide(a0, b0, tol, n);
    return NoConvergence, n;
  }

  /** After iteration m the half-width W / 2^(m+1) of the bracket still
      exceeds tol. */
  predicate StillWide(a0: real, b0: real, tol: real, m: nat) {
    b0 - a0 > tol * Pow2(m + 1)
  }

  /** When the residual at a does not differ in sign from the one at the
      midpoint, the sign change of [a, b] moves to [c, b]. */
  lemma SignCarries(fa: real, fc: real, fb: real)
    requires fc != 0.0 && !(fa * fc < 0.0)
    ensures fa * fb < 0.0 ==> fc * fb < 0.0
  {
    ProductSign(fa, fb);
    ProductSign(fa, fc);
    ProductSign(fc, fb);
  }

  /** A product is negative exactly when its factors have opposite signs. */
  lemma ProductSign(x: real, y: real)
    ensures x * y < 0.0 <==> (x > 0.0 && y < 0.0) || (x < 0.0 && y > 0.0)
    ensures x * y > 0.0 <==> (x > 0.0 && y > 0.0) || (x < 0.0 && y < 0.0)
  {
    if x > 0.0 && y > 0.0 {
      MulPos(x, y);
    } else if x < 0.0 && y < 0.0 {
      MulPos(-x, -y);
    } else if x > 0.0 && y < 0.0 {
      MulPos(x, -y);
    } else if x < 0.0 && y > 0.0 {
      MulPos(-x, y);
    } else {
      assert x == 0.0 || y == 0.0;
    }
  }

  lemma MulPos(x: real, y: real)
    requires x > 0.0 && y > 0.0
    ensures x * y > 0.0
  {
  }

  /** Halving a bracket of width W / p gives width W / (2p). */
  lemma Halve(w: real, W: real, p: real)
    requires p > 0.0 && w == W / p
    ensures w / 2.0 == W / (2.0 * p)
  {
  }

  /** The half-width of the bracket after n halvings, W / 2^(n+1), is within
      tol exactly when W <= tol * 2^(n+1). */
  lemma WidthBound(W: real, p: real, err: real, tol: real)
    requires p > 0.0 && err == (W / p) / 2.0
    ensures err <= tol <==> W <= tol * (2.0 * p)
  {
    var q := 2.0 * p;
    assert err == W / q;
    assert err * q == W;
    if err <= tol {
      assert err * q <= tol * q;
    } else {
      assert err * q > tol * q;
    }
  }

  /** A search whose initial bracket is at most tol * 2^18 wide stops within
      17 iterations. */
  lemma {:induction false} ConvergesWithin17(a0: real, b0: real, tol: real, n: nat)
    requires b0 - a0 <= tol * Pow2(18)
    requires forall m :: 1 <= m < n ==> StillWide(a0, b0, tol, m)
    ensures n <= 17
  {
    assert 17 < n ==> StillWide(a0, b0, tol, 17);
  }

  /** With the tolerance 1e-4 of the solvers, a bracket up to 26.2144 wide
      meets the bound of ConvergesWithin17; the solvers' brackets are 15,
      9.9 and 9 wide. */
  lemma {:induction false} SolverBracketsConverge(W: real)
    requires 0.0 < W <= 26.2144
    ensures W <= 0.0001 * Pow2(18)
    ensures W <= 0.0001 * Pow2(100 + 1)
  {
    Pow2Eighteen();
    Pow2Monotone(18, 101);
    assert 0.0001 * Pow2(18) <= 0.0001 * Pow2(101);
  }
}
