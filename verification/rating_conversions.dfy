/** Conversions between rated efficiencies (EER, COP) and the energy input
    ratio (EIR) of the compressor alone, and the two-speed rules that derive
    the low-stage rating from the high-stage one.

    `k` is the number of Btu in one watt-hour, an abstract positive constant
    of the unit-conversion library; the literal 3.412 and the fan-heat factor
    0.03333 are the constants written into the rating formulas themselves. */
module RatingConversions {
  import opened Arith
  import opened Curves

  /** The Btu/Wh factor written as a literal in the rating formulas. */
  const RatingBtuPerWh: real := 3.412
  /** Rated airflow per Btu/h of capacity (400 cfm per ton). */
  const CfmPerBtuh: real := 400.0 / 12000.0
  /** Fan heat per unit of rated fan power, as used in the EIR formulas. */
  const FanHeatFactor: real := 0.03333

  /** Two values of a two-speed unit, low speed and high speed. */
  datatype TwoSpeed<T> = TwoSpeed(low: T, high: T)

  /** Compressor EIR from a net COP: the fan's share of the input is taken
      out. Whenever the COP is nonzero, COP times the total input (EIR plus fan
      heat, in Wh per Btu) gives the output. */
  function EirFromCop(cop: real, fan: real, k: PosReal): (eir: real)
    ensures cop != 0.0 ==> (eir / k + fan * FanHeatFactor) * cop == 1.0 / k + fan * FanHeatFactor
    ensures fan == 0.0 && cop != 0.0 ==> eir * cop == 1.0
  {
    k * (Quot(1.0 / k + fan * FanHeatFactor, cop) - fan * FanHeatFactor)
  }

  /** Compressor EIR from a net EER (Btu/Wh). */
  function EirFromEer(eer: real, fan: real, k: PosReal): (eir: real)
    ensures eer != 0.0 ==> (eir / k + fan * FanHeatFactor) * eer == 1.0 - k * fan * FanHeatFactor
    ensures fan == 0.0 && eer != 0.0 ==> eir * eer == k
  {
    var q := Quot(1.0 - k * fan * FanHeatFactor, eer);
    var eir := k * (q - fan * FanHeatFactor);
    assert eir / k == q - fan * FanHeatFactor;
    eir
  }

  /** Net EER from a compressor EIR, adding the fan at 400 cfm/ton. */
  function EerFromEir(eir: real, fan: real): (eer: real)
    ensures eir / RatingBtuPerWh + fan * CfmPerBtuh != 0.0 ==>
      eer * (eir / RatingBtuPerWh + fan * CfmPerBtuh) == 1.0 - RatingBtuPerWh * fan * CfmPerBtuh
  {
    Quot(1.0 - RatingBtuPerWh * (fan * CfmPerBtuh), eir / RatingBtuPerWh + fan * CfmPerBtuh)
  }

  /** Net COP from a compressor EIR, adding the fan at 400 cfm/ton. */
  function CopFromEir(eir: real, fan: real): (cop: real)
    ensures eir / RatingBtuPerWh + fan * CfmPerBtuh != 0.0 ==>
      cop * (eir / RatingBtuPerWh + fan * CfmPerBtuh) == 1.0 / RatingBtuPerWh + fan * CfmPerBtuh
  {
    Quot(1.0 / RatingBtuPerWh + fan * CfmPerBtuh, eir / RatingBtuPerWh + fan * CfmPerBtuh)
  }

  /** The compressor EIR whose net EER, with the fan at 400 cfm/ton, is eer:
      the inverse of EerFromEir (EerEirInverse). */
  function EirFromNetEer(eer: real, fan: real): real {
    RatingBtuPerWh * (Quot(1.0 - RatingBtuPerWh * (fan * CfmPerBtuh), eer) - fan * CfmPerBtuh)
  }

  /** The compressor EIR whose net COP, with the fan at 400 cfm/ton, is cop:
      the inverse of CopFromEir (CopEirInverse). */
  function EirFromNetCop(cop: real, fan: real): real {
    RatingBtuPerWh * (Quot(1.0 / RatingBtuPerWh + fan * CfmPerBtuh, cop) - fan * CfmPerBtuh)
  }

  /** EerFromEir loses nothing: the EIR is recovered from the EER whenever
      the conversion's numerator and denominator are non-zero. */
  lemma EerEirInverse(eir: real, fan: real)
    requires eir / RatingBtuPerWh + fan * CfmPerBtuh != 0.0
    requires 1.0 - RatingBtuPerWh * (fan * CfmPerBtuh) != 0.0
    ensures EirFromNetEer(EerFromEir(eir, fan), fan) == eir
  {
    var n := 1.0 - RatingBtuPerWh * (fan * CfmPerBtuh);
    var d := eir / RatingBtuPerWh + fan * CfmPerBtuh;
    var e := EerFromEir(eir, fan);
    assert e * d == n;
    assert e != 0.0;
    var q := Quot(n, e);
    assert q * e == d * e;
    NonZeroCancel(q, d, e);
  }

  /** CopFromEir loses nothing: the EIR is recovered from the COP whenever
      the conversion's denominator is non-zero. */
  lemma CopEirInverse(eir: real, fan: real)
    requires eir / RatingBtuPerWh + fan * CfmPerBtuh != 0.0
    requires 1.0 / RatingBtuPerWh + fan * CfmPerBtuh != 0.0
    ensures EirFromNetCop(CopFromEir(eir, fan), fan) == eir
  {
    var n := 1.0 / RatingBtuPerWh + fan * CfmPerBtuh;
    var d := eir / RatingBtuPerWh + fan * CfmPerBtuh;
    var c := CopFromEir(eir, fan);
    assert c * d == n;
    assert c != 0.0;
    var q := Quot(n, c);
    assert q * c == d * c;
    NonZeroCancel(q, d, c);
  }

  /** COP -> EIR -> COP. The two directions take the fan heat with different
      factors (0.03333 against 400/12000), so with fan power the round trip
      is exact only for a COP of 1; without fan power it is the identity for
      any Btu/Wh factor. */
  lemma {:induction false} CopRoundTrip(cop: real, fan: real, k: PosReal)
    requires cop != 0.0
    ensures fan == 0.0 ==> CopFromEir(EirFromCop(cop, fan, k), fan) == cop
    ensures k == RatingBtuPerWh && cop > 0.0 && fan >= 0.0 ==>
              (CopFromEir(EirFromCop(cop, fan, k), fan) == cop <==> fan == 0.0 || cop == 1.0)
  {
    var eir := EirFromCop(cop, fan, k);
    var r := CopFromEir(eir, fan);
    if fan == 0.0 {
      assert eir * cop == 1.0;
      var d := eir / RatingBtuPerWh;
      assert d != 0.0;
      assert r * d == 1.0 / RatingBtuPerWh;
      assert r * eir == 1.0;
      NonZeroCancel(r, cop, eir);
    }
    if k == RatingBtuPerWh && cop > 0.0 && fan >= 0.0 {
      CopRoundTripGap(cop, fan, eir);
    }
  }

  /** The arithmetic of a fan-power COP round trip: with the fan heat taken
      out at 0.03333 and put back at 400/12000, the COP comes back unchanged
      exactly when there is no fan power or the COP is 1. */
  lemma CopRoundTripGap(cop: real, fan: real, eir: real)
    requires cop > 0.0 && fan >= 0.0
    requires (eir / RatingBtuPerWh + fan * FanHeatFactor) * cop == 1.0 / RatingBtuPerWh + fan * FanHeatFactor
    ensures CopFromEir(eir, fan) == cop <==> fan == 0.0 || cop == 1.0
  {
    var gap := CfmPerBtuh - FanHeatFactor;
    var y := eir / RatingBtuPerWh + fan * FanHeatFactor;
    PositiveFactor(y, cop, 1.0 / RatingBtuPerWh + fan * FanHeatFactor);
    var d := eir / RatingBtuPerWh + fan * CfmPerBtuh;
    assert d == y + fan * gap;
    MulNonNeg(fan, gap);
    var r := CopFromEir(eir, fan);
    var n := 1.0 / RatingBtuPerWh + fan * CfmPerBtuh;
    assert r * d == n;
    var g := fan * gap;
    assert cop * d == n + (cop - 1.0) * g;
    if fan != 0.0 {
      NonZeroProduct(fan, gap);
    }
    ProductGap(r, cop, d, n, cop - 1.0, g);
  }

  /** Two values whose products with a positive d differ by a * b are equal
      exactly when a or b is zero. */
  lemma ProductGap(r: real, c: real, d: real, n: real, a: real, b: real)
    requires d > 0.0 && r * d == n && c * d == n + a * b
    ensures r == c <==> a == 0.0 || b == 0.0
  {
    if a == 0.0 || b == 0.0 {
      assert a * b == 0.0;
      NonZeroCancel(r, c, d);
    } else {
      NonZeroProduct(a, b);
    }
  }

  /** EER -> EIR -> EER. Without fan power it scales by 3.412/k, so it is the
      identity exactly when the Btu/Wh factor is 3.412; with fan power the
      two fan-heat factors differ (0.03333 against 400/12000) and a positive
      EER never comes back unchanged. */
  lemma {:induction false} EerRoundTrip(eer: real, fan: real, k: PosReal)
    requires eer != 0.0
    ensures fan == 0.0 ==> EerFromEir(EirFromEer(eer, fan, k), fan) * k == RatingBtuPerWh * eer
    ensures k == RatingBtuPerWh && eer > 0.0 ==>
              (EerFromEir(EirFromEer(eer, fan, k), fan) == eer <==> fan == 0.0)
  {
    var eir := EirFromEer(eer, fan, k);
    var r := EerFromEir(eir, fan);
    if fan == 0.0 {
      assert eir * eer == k;
      var d := eir / RatingBtuPerWh;
      assert d != 0.0;
      assert r * d == 1.0;
      assert r * eir == RatingBtuPerWh;
      assert r * eir * eer == RatingBtuPerWh * eer;
    }
    if k == RatingBtuPerWh && eer > 0.0 && fan != 0.0 {
      EerRoundTripGap(eer, fan, eir);
    }
  }

  /** The arithmetic of a fan-power EER round trip: with the fan heat taken
      out at 0.03333 and put back at 400/12000, a positive EER cannot come
      back unchanged. */
  lemma EerRoundTripGap(eer: real, fan: real, eir: real)
    requires eer > 0.0 && fan != 0.0
    requires (eir / RatingBtuPerWh + fan * FanHeatFactor) * eer == 1.0 - RatingBtuPerWh * fan * FanHeatFactor
    ensures EerFromEir(eir, fan) != eer
  {
    var gap := CfmPerBtuh - FanHeatFactor;
    var y := eir / RatingBtuPerWh + fan * FanHeatFactor;
    var d := eir / RatingBtuPerWh + fan * CfmPerBtuh;
    assert d == y + fan * gap;
    var r := EerFromEir(eir, fan);
    if d != 0.0 {
      var e := (eer + RatingBtuPerWh) * (fan * gap);
      assert r * d == 1.0 - RatingBtuPerWh * fan * CfmPerBtuh;
      assert eer * d == 1.0 - RatingBtuPerWh * fan * CfmPerBtuh + e;
      NonZeroProduct(fan, gap);
      NonZeroProduct(eer + RatingBtuPerWh, fan * gap);
      assert r * d != eer * d;
    }
  }

  /** Low- and high-stage EER from the high-stage EER: the low-stage EIR is
      0.8887 times the high-stage EIR plus 0.0083, and the low-stage EER is
      the one whose compressor EIR (fan at 400 cfm/ton) is that EIR. */
  function EersFromEir2Speed(eer2: real, fan: real, k: PosReal): (r: TwoSpeed<real>)
    ensures r.high == eer2
    ensures var eir1 := 0.8887 * EirFromEer(eer2, fan, k) + 0.0083;
            eir1 / RatingBtuPerWh + fan * CfmPerBtuh != 0.0 &&
            1.0 - RatingBtuPerWh * (fan * CfmPerBtuh) != 0.0 ==>
              EirFromNetEer(r.low, fan) == eir1
    ensures fan == 0.0 && eer2 > 0.0 ==> r.low * (0.8887 * (k / eer2) + 0.0083) == RatingBtuPerWh
  {
    var eir2 := EirFromEer(eer2, fan, k);
    var eir1 := 0.8887 * eir2 + 0.0083;
    assert fan == 0.0 && eer2 > 0.0 ==> eir2 == k / eer2;
    assert eir1 / RatingBtuPerWh + fan * CfmPerBtuh != 0.0 &&
           1.0 - RatingBtuPerWh * (fan * CfmPerBtuh) != 0.0 ==>
             EirFromNetEer(EerFromEir(eir1, fan), fan) == eir1 by {
      if eir1 / RatingBtuPerWh + fan * CfmPerBtuh != 0.0 &&
         1.0 - RatingBtuPerWh * (fan * CfmPerBtuh) != 0.0 {
        EerEirInverse(eir1, fan);
      }
    }
    TwoSpeed(EerFromEir(eir1, fan), eer2)
  }

  /** Over the whole EER range the two-speed search covers ([5, 20]) and
      rated fan powers up to 0.5 W/cfm, the low stage is the more efficient
      one. */
  lemma {:induction false} LowStageEerHigher(eer2: real, fan: real, k: PosReal)
    requires 0.0 < eer2 <= 20.0 && 0.0 <= fan <= 0.5 && k == RatingBtuPerWh
    ensures EersFromEir2Speed(eer2, fan, k).low > eer2
  {
    var eir2 := EirFromEer(eer2, fan, k);
    var y := eir2 / k + fan * FanHeatFactor;
    assert y * eer2 == 1.0 - RatingBtuPerWh * fan * FanHeatFactor;
    PositiveFactor(y, eer2, 1.0 - RatingBtuPerWh * fan * FanHeatFactor);
    var eir1 := 0.8887 * eir2 + 0.0083;
    var d := eir1 / RatingBtuPerWh + fan * CfmPerBtuh;
    assert d == 0.8887 * y + fan * (CfmPerBtuh - 0.8887 * FanHeatFactor) + 0.0083 / RatingBtuPerWh;
    var low := EerFromEir(eir1, fan);
    EerStageArith(eer2, fan, y, low);
  }

  /** The inequality behind LowStageEerHigher, over plain reals: y is the
      high stage's total input per Btu, and low the EER whose input is
      0.8887 y plus 0.0083/3.412 with the fan heat put back at 400/12000. */
  lemma EerStageArith(e: real, f: real, y: real, low: real)
    requires 0.0 < e <= 20.0 && 0.0 <= f <= 0.5
    requires y * e == 1.0 - RatingBtuPerWh * f * FanHeatFactor
    requires var d := 0.8887 * y + f * (CfmPerBtuh - 0.8887 * FanHeatFactor) + 0.0083 / RatingBtuPerWh;
             d != 0.0 ==> low * d == 1.0 - RatingBtuPerWh * f * CfmPerBtuh
    ensures low > e
  {
    var c1 := CfmPerBtuh - 0.8887 * FanHeatFactor;
    PositiveFactor(y, e, 1.0 - RatingBtuPerWh * f * FanHeatFactor);
    var d := 0.8887 * y + f * c1 + 0.0083 / RatingBtuPerWh;
    assert d > 0.0;
    var n := 1.0 - RatingBtuPerWh * f * CfmPerBtuh;
    var t := e * f;
    assert e * d == 0.8887 * (y * e) + t * c1 + 0.0083 / RatingBtuPerWh * e;
    MulBound(e, f, 20.0, 0.5);
    assert n - e * d == 0.1113 - RatingBtuPerWh * f * c1 - t * c1 - 0.0083 * e / RatingBtuPerWh;
    assert n > e * d;
    MulMonoLt(e, low, d);
  }

  /** Without fan power the low stage is the more efficient one for any EER
      up to 45. */
  lemma {:induction false} LowStageEerHigherNoFan(eer2: real, k: PosReal)
    requires 0.0 < eer2 <= 45.0 && k == RatingBtuPerWh
    ensures EersFromEir2Speed(eer2, 0.0, k).low > eer2
  {
    var r := EersFromEir2Speed(eer2, 0.0, k);
    var d := 0.8887 * (k / eer2) + 0.0083;
    assert r.low * d == RatingBtuPerWh;
    assert k / eer2 >= k / 45.0;
    assert d < k / eer2;
    assert r.low * (k / eer2) > RatingBtuPerWh;
    assert (k / eer2) * eer2 == k;
  }

  /** Low- and high-stage COP from the high-stage COP: the low-stage EIR is
      0.6241 times the high-stage EIR plus 0.0681, and the low-stage COP is
      the one whose compressor EIR (fan at 400 cfm/ton) is that EIR. */
  function CopsFromEir2Speed(cop2: real, fan: real, k: PosReal): (r: TwoSpeed<real>)
    ensures r.high == cop2
    ensures var eir1 := 0.6241 * EirFromCop(cop2, fan, k) + 0.0681;
            eir1 / RatingBtuPerWh + fan * CfmPerBtuh != 0.0 &&
            1.0 / RatingBtuPerWh + fan * CfmPerBtuh != 0.0 ==>
              EirFromNetCop(r.low, fan) == eir1
    ensures fan == 0.0 && cop2 > 0.0 ==> r.low * (0.6241 / cop2 + 0.0681) == 1.0
  {
    var eir2 := EirFromCop(cop2, fan, k);
    var eir1 := 0.6241 * eir2 + 0.0681;
    assert fan == 0.0 && cop2 > 0.0 ==> eir2 == 1.0 / cop2;
    assert eir1 / RatingBtuPerWh + fan * CfmPerBtuh != 0.0 &&
           1.0 / RatingBtuPerWh + fan * CfmPerBtuh != 0.0 ==>
             EirFromNetCop(CopFromEir(eir1, fan), fan) == eir1 by {
      if eir1 / RatingBtuPerWh + fan * CfmPerBtuh != 0.0 &&
         1.0 / RatingBtuPerWh + fan * CfmPerBtuh != 0.0 {
        CopEirInverse(eir1, fan);
      }
    }
    TwoSpeed(CopFromEir(eir1, fan), cop2)
  }

  /** With rated fan powers up to 0.5 W/cfm the low stage is the more
      efficient one for a rated COP up to 4.4 (the bound falls from about 5.5
      without fan power as the fan power grows). */
  lemma {:induction false} LowStageCopHigher(cop2: real, fan: real, k: PosReal)
    requires 0.0 < cop2 <= 4.4 && 0.0 <= fan <= 0.5 && k == RatingBtuPerWh
    ensures CopsFromEir2Speed(cop2, fan, k).low > cop2
  {
    var eir2 := EirFromCop(cop2, fan, k);
    var y := eir2 / k + fan * FanHeatFactor;
    assert y * cop2 == 1.0 / RatingBtuPerWh + fan * FanHeatFactor;
    var eir1 := 0.6241 * eir2 + 0.0681;
    var d := eir1 / RatingBtuPerWh + fan * CfmPerBtuh;
    assert d == 0.6241 * y + fan * (CfmPerBtuh - 0.6241 * FanHeatFactor) + 0.0681 / RatingBtuPerWh;
    var low := CopFromEir(eir1, fan);
    CopStageArith(cop2, fan, y, low);
  }

  /** The inequality behind LowStageCopHigher, over plain reals: y is the
      high stage's total input per unit output, and low the COP whose input
      is 0.6241 y plus 0.0681/3.412 with the fan heat put back at 400/12000. */
  lemma CopStageArith(c: real, f: real, y: real, low: real)
    requires 0.0 < c <= 4.4 && 0.0 <= f <= 0.5
    requires y * c == 1.0 / RatingBtuPerWh + f * FanHeatFactor
    requires var d := 0.6241 * y + f * (CfmPerBtuh - 0.6241 * FanHeatFactor) + 0.0681 / RatingBtuPerWh;
             d != 0.0 ==> low * d == 1.0 / RatingBtuPerWh + f * CfmPerBtuh
    ensures low > c
  {
    var c3 := CfmPerBtuh - 0.6241 * FanHeatFactor;
    PositiveFactor(y, c, 1.0 / RatingBtuPerWh + f * FanHeatFactor);
    var d := 0.6241 * y + f * c3 + 0.0681 / RatingBtuPerWh;
    assert d > 0.0;
    var n := 1.0 / RatingBtuPerWh + f * CfmPerBtuh;
    var t := (c - 1.0) * f;
    assert c * d == 0.6241 * (y * c) + (t + f) * c3 + 0.0681 / RatingBtuPerWh * c;
    assert n - c * d == (0.3759 - 0.0681 * c) / RatingBtuPerWh - t * c3;
    if c >= 1.0 {
      MulNonNeg(c - 1.0, 0.5 - f);
      assert t <= (c - 1.0) * 0.5;
    } else {
      MulNonNeg(1.0 - c, f);
    }
    assert n > c * d;
    MulMonoLt(c, low, d);
  }

  /** Without fan power the low stage is the more efficient one below a rated
      COP of 5.5 (the linking line crosses the identity near 5.52). */
  lemma {:induction false} LowStageCopHigherNoFan(cop2: real, k: PosReal)
    requires 0.0 < cop2 <= 5.5
    ensures CopsFromEir2Speed(cop2, 0.0, k).low > cop2
  {
    var r := CopsFromEir2Speed(cop2, 0.0, k);
    LinkedRatingAbove(r.low, cop2, 0.6241, 0.0681, 5.5);
  }

  /** If low * (a / v + b) == 1 with a + b * bound < 1, then low exceeds v
      for every v in (0, bound]. */
  lemma LinkedRatingAbove(low: real, v: real, a: real, b: real, bound: real)
    requires 0.0 < v <= bound && 0.0 <= a && 0.0 <= b && a + b * bound < 1.0
    requires low * (a / v + b) == 1.0
    ensures low > v
  {
    var x := 1.0 / v;
    assert x * v == 1.0;
    assert a / v == a * x;
    var d := a * x + b;
    assert d * v == a + b * v;
    assert b * v <= b * bound by {
      assert b * (bound - v) >= 0.0;
    }
    assert a + b * v < 1.0;
    assert d * v < 1.0;
    assert low * d == 1.0;
    assert low * d * v < low;
  }

  /** Net EER at the A condition (95 F) of a single-speed unit, from SEER:
      EER at the B condition (82 F) is SEER / (1 - c_d/2), and the EIR curve
      carries the compressor EIR from B back to A: the EIR recovered from the
      A-condition EER, times the curve's value at B, is the B-condition EIR.
      Without fan power the A-condition EER is the B-condition EER times the
      EIR curve's value at B (scaled by 3.412/k). */
  function CalcEerCooling1Speed(seer: real, cd: real, fan: real, eirCurve: Biquad, k: PosReal): (eer: real)
    ensures var bq := Biquadratic(67.0, 82.0, eirCurve);
            var eirB := EirFromEer(Quot(seer, 1.0 - 0.5 * cd), fan, k);
            cd != 2.0 && bq != 0.0 &&
            eirB / bq / RatingBtuPerWh + fan * CfmPerBtuh != 0.0 &&
            1.0 - RatingBtuPerWh * (fan * CfmPerBtuh) != 0.0 ==>
              EirFromNetEer(eer, fan) * bq == eirB
    ensures var bq := Biquadratic(67.0, 82.0, eirCurve);
            fan == 0.0 && seer != 0.0 && cd != 2.0 && bq != 0.0 ==>
            eer * k == RatingBtuPerWh * bq * (seer / (1.0 - 0.5 * cd))
  {
    var eerB := Quot(seer, 1.0 - 0.5 * cd);
    var eirB := EirFromEer(eerB, fan, k);
    var bq := Biquadratic(67.0, 82.0, eirCurve);
    var eirA := Quot(eirB, bq);
    InverseAtA(eirB, eirA, bq, fan);
    NoFanAtA(eerB, eirB, eirA, bq, fan, seer, cd, k);
    EerFromEir(eirA, fan)
  }

  /** The A-condition EIR recovered from the A-condition EER, times the EIR
      curve's value at B, is the B-condition EIR. */
  lemma InverseAtA(eirB: real, eirA: real, bq: real, fan: real)
    requires eirA == Quot(eirB, bq)
    ensures bq != 0.0 &&
            eirB / bq / RatingBtuPerWh + fan * CfmPerBtuh != 0.0 &&
            1.0 - RatingBtuPerWh * (fan * CfmPerBtuh) != 0.0 ==>
              EirFromNetEer(EerFromEir(eirA, fan), fan) * bq == eirB
  {
    if bq != 0.0 &&
       eirB / bq / RatingBtuPerWh + fan * CfmPerBtuh != 0.0 &&
       1.0 - RatingBtuPerWh * (fan * CfmPerBtuh) != 0.0 {
      assert eirA == eirB / bq;
      EerEirInverse(eirA, fan);
      QuotTimes(eirB, bq);
    }
  }

  /** Without fan power the A-condition EER is the B-condition EER times the
      EIR curve's value at B, scaled by 3.412/k. */
  lemma NoFanAtA(eerB: real, eirB: real, eirA: real, bq: real, fan: real, seer: real, cd: real, k: PosReal)
    requires eerB == Quot(seer, 1.0 - 0.5 * cd) && eirB == EirFromEer(eerB, fan, k) && eirA == Quot(eirB, bq)
    ensures fan == 0.0 && seer != 0.0 && cd != 2.0 && bq != 0.0 ==>
            EerFromEir(eirA, fan) * k == RatingBtuPerWh * bq * (seer / (1.0 - 0.5 * cd))
  {
    if fan == 0.0 && seer != 0.0 && cd != 2.0 && bq != 0.0 {
      assert eerB == seer / (1.0 - 0.5 * cd);
      assert eerB != 0.0;
      assert eirB * eerB == k;
      assert eirA * bq == eirB;
      var r := EerFromEir(eirA, fan);
      assert eirA != 0.0;
      assert r * (eirA / RatingBtuPerWh) == 1.0;
      assert r * eirA == RatingBtuPerWh;
      assert r * eirB == RatingBtuPerWh * bq;
      assert r * k == r * eirB * eerB;
    }
  }
}
