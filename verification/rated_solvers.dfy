/** The rated-point solvers: each back-calculates the rated efficiency at
    the A (cooling) or 47 F (heating) condition whose seasonal rating equals
    a given SEER or HSPF, by bisection over a fixed bracket with tolerance
    1e-4 and at most 100 iterations. */
module RatedSolvers {
  import opened Wrappers
  import opened Arith
  import opened RatingConversions
  import opened Seasonal
  import opened Hspf
  import opened Bisection

  const IterMax: nat := 100
  const Tol: real := 0.0001

  /** The searches' residuals: seasonal rating at a candidate rated value
      minus the target rating. */
  function Hspf1Residual(hspf: real, u: OneSpeedUnit, k: PosReal): real -> real {
    cop => CalcHspf1Speed(cop, u, k) - hspf
  }

  function Seer2Residual(seer: real, u: TwoSpeedUnit, k: PosReal): real -> real {
    eer => CalcSeer2Speed(EersFromEir2Speed(eer, u.fanPowerRated, k), u, k) - seer
  }

  function Hspf2Residual(hspf: real, u: TwoSpeedUnit, k: PosReal): real -> real {
    cop => CalcHspf2Speed(CopsFromEir2Speed(cop, u.fanPowerRated, k), u, k) - hspf
  }

  /** One search over [a0, b0]: the result is the midpoint of a final bracket
      [lo, hi] at most 2e-4 wide inside the initial one; an exact root ends
      the search with lo == hi. A sign change of the residual over the initial
      bracket persists in the final one, and the search stops within 17
      iterations, so its non-convergence failure is never reached. */
  method Solve(f: real -> real, a0: real, b0: real, failure: string) returns (r: Result<real>, lo: real, hi: real, n: nat)
    requires 0.0 < b0 - a0 <= 26.2144
    ensures r.Ok? && r.value == (lo + hi) / 2.0
    ensures a0 <= lo <= hi <= b0 && hi - lo <= 2.0 * Tol
    ensures lo == hi ==> f(r.value) == 0.0
    ensures lo < hi && f(a0) * f(b0) < 0.0 ==> f(lo) * f(hi) < 0.0
    ensures f((a0 + b0) / 2.0) == 0.0 ==> lo == hi == (a0 + b0) / 2.0
    ensures 1 <= n <= 17
  {
    var o;
    o, n := Bisect(f, a0, b0, IterMax, Tol);
    SolverBracketsConverge(b0 - a0);
    ConvergesWithin17(a0, b0, Tol, n);
    match o
    case Root(x) =>
      r, lo, hi := Ok(x), x, x;
    case Converged(x, l, h) =>
      r, lo, hi := Ok(x), l, h;
    case NoConvergence =>
      assert false;
      r, lo, hi := Fail(failure), a0, b0;
  }

  /** Rated COP at 47 F of a single-speed heat pump with the given HSPF,
      searched over [0.1, 10]. */
  method CalcCopHeating1Speed(hspf: real, u: OneSpeedUnit, k: PosReal) returns (r: Result<real>, lo: real, hi: real)
    ensures r.Ok? && r.value == (lo + hi) / 2.0
    ensures 0.1 <= lo <= hi <= 10.0 && hi - lo <= 0.0002
    ensures lo == hi ==> CalcHspf1Speed(r.value, u, k) == hspf
    ensures var f := Hspf1Residual(hspf, u, k);
            lo < hi && f(0.1) * f(10.0) < 0.0 ==> f(lo) * f(hi) < 0.0
  {
    var n;
    r, lo, hi, n := Solve(Hspf1Residual(hspf, u, k), 0.1, 10.0, "Single-speed heating cop iteration failed to converge.");
  }

  /** Rated EERs (low, high) at the A condition of a two-speed unit with the
      given SEER: the high-stage EER is searched over [5, 20] and the low
      stage's follows from the linked EIR rule. */
  method CalcEersCooling2Speed(seer: real, u: TwoSpeedUnit, k: PosReal) returns (r: Result<TwoSpeed<real>>, lo: real, hi: real)
    ensures r.Ok? && r.value == EersFromEir2Speed((lo + hi) / 2.0, u.fanPowerRated, k)
    ensures r.value.high == (lo + hi) / 2.0
    ensures 5.0 <= lo <= hi <= 20.0 && hi - lo <= 0.0002
    ensures lo == hi ==> CalcSeer2Speed(r.value, u, k) == seer
    ensures var f := Seer2Residual(seer, u, k);
            lo < hi && f(5.0) * f(20.0) < 0.0 ==> f(lo) * f(hi) < 0.0
  {
    var x, n;
    x, lo, hi, n := Solve(Seer2Residual(seer, u, k), 5.0, 20.0, "Two-speed cooling eers iteration failed to converge.");
    r := Ok(EersFromEir2Speed(x.value, u.fanPowerRated, k));
  }

  /** Rated COPs (low, high) at 47 F of a two-speed heat pump with the given
      HSPF: the high-stage COP is searched over [1, 10] and the low stage's
      follows from the linked EIR rule. */
  method CalcCopsHeating2Speed(hspf: real, u: TwoSpeedUnit, k: PosReal) returns (r: Result<TwoSpeed<real>>, lo: real, hi: real)
    ensures r.Ok? && r.value == CopsFromEir2Speed((lo + hi) / 2.0, u.fanPowerRated, k)
    ensures r.value.high == (lo + hi) / 2.0
    ensures 1.0 <= lo <= hi <= 10.0 && hi - lo <= 0.0002
    ensures lo == hi ==> CalcHspf2Speed(r.value, u, k) == hspf
    ensures var f := Hspf2Residual(hspf, u, k);
            lo < hi && f(1.0) * f(10.0) < 0.0 ==> f(lo) * f(hi) < 0.0
  {
    var x, n;
    x, lo, hi, n := Solve(Hspf2Residual(hspf, u, k), 1.0, 10.0, "Two-speed heating cop iteration failed to converge.");
    r := Ok(CopsFromEir2Speed(x.value, u.fanPowerRated, k));
  }

  /** What the two-speed solvers return as written: on an exact root they
      return the bare searched value instead of the (low, high) pair. */
  datatype Rated = Scalar(v: real) | Pair(p: TwoSpeed<real>)

  /** The two-speed cooling solver as written. When the SEER is exactly that
      of the first midpoint, 12.5, it returns Scalar(12.5), which callers then
      index as a pair. */
  method CalcEersCooling2SpeedAsWritten(seer: real, u: TwoSpeedUnit, k: PosReal) returns (r: Result<Rated>)
    ensures r.Ok?
    ensures r.value.Scalar? ==> CalcSeer2Speed(EersFromEir2Speed(r.value.v, u.fanPowerRated, k), u, k) == seer
    ensures r.value.Pair? ==> r.value.p == EersFromEir2Speed(r.value.p.high, u.fanPowerRated, k)
    ensures seer == CalcSeer2Speed(EersFromEir2Speed(12.5, u.fanPowerRated, k), u, k) ==> r == Ok(Scalar(12.5))
  {
    var x, lo, hi, n := Solve(Seer2Residual(seer, u, k), 5.0, 20.0, "Two-speed cooling eers iteration failed to converge.");
    if lo == hi {
      r := Ok(Scalar(x.value));
    } else {
      r := Ok(Pair(EersFromEir2Speed(x.value, u.fanPowerRated, k)));
    }
  }

  /** The two-speed heating solver as written, with the same bare return on
      an exact root, here at the first midpoint 5.5. */
  method CalcCopsHeating2SpeedAsWritten(hspf: real, u: TwoSpeedUnit, k: PosReal) returns (r: Result<Rated>)
    ensures r.Ok?
    ensures r.value.Scalar? ==> CalcHspf2Speed(CopsFromEir2Speed(r.value.v, u.fanPowerRated, k), u, k) == hspf
    ensures r.value.Pair? ==> r.value.p == CopsFromEir2Speed(r.value.p.high, u.fanPowerRated, k)
    ensures hspf == CalcHspf2Speed(CopsFromEir2Speed(5.5, u.fanPowerRated, k), u, k) ==> r == Ok(Scalar(5.5))
  {
    var x, lo, hi, n := Solve(Hspf2Residual(hspf, u, k), 1.0, 10.0, "Two-speed heating cop iteration failed to converge.");
    if lo == hi {
      r := Ok(Scalar(x.value));
    } else {
      r := Ok(Pair(CopsFromEir2Speed(x.value, u.fanPowerRated, k)));
    }
  }
}
