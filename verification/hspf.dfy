/** Heating seasonal performance factor (HSPF) of single- and two-speed heat
    pumps as a bin-weighted sum over the Region IV heating bins of AHRI
    Standard 210/240, with electric resistance making up what the heat pump
    does not deliver. */
module Hspf {
  import opened Wrappers
  import opened Arith
  import opened Curves
  import opened RatingConversions
  import opened Seasonal

  /** The parts of a single-speed heat pump the rating depends on. */
  datatype OneSpeedUnit = OneSpeedUnit(cd: real, fanPowerRated: real, eir: Biquad, cap: Biquad)

  const DesignTemp: real := 5.0
  /** The compressor is off at or below TOff and runs half the time up to TOn. */
  const TOff: real := 10.0
  const TOn: real := 14.0

  /** Heating load of a bin per unit of rated capacity: zero at 65 F and 0.77
      of the rated capacity at the 5 F design temperature. */
  function HeatBinLoad(t: real): (bL: real)
    ensures t == 65.0 ==> bL == 0.0
    ensures t == DesignTemp ==> bL == 0.77
    ensures t < 65.0 ==> bL > 0.0
  {
    ((65.0 - t) / (65.0 - DesignTemp)) * 0.77 * 1.0
  }

  /** Net capacity or power of a stage rated at 17, 35 and 47 F: linear
      between 17 and 35 F strictly inside (17, 45), and between 17 and 47 F
      elsewhere. It passes through the three rated values. */
  function HeatLine(v17: real, v35: real, v47: real, t: real): (v: real)
    ensures t == 17.0 ==> v == v17
    ensures t == 35.0 ==> v == v35
    ensures t == 47.0 ==> v == v47
  {
    if 17.0 < t < 45.0 then v17 + ((v35 - v17) * (t - 17.0)) / (35.0 - 17.0)
    else v17 + ((v47 - v17) * (t - 17.0)) / (47.0 - 17.0)
  }

  /** Net capacity or power of the low stage of a two-speed unit, rated at
      17, 35, 47 and 62 F: the 47-62 F line from 40 F up, the 17-35 F line
      from 17 F up to 40 F, and the 17-47 F line below 17 F. */
  function LowHeatLine(v17: real, v35: real, v47: real, v62: real, t: real): (v: real)
    ensures t == 17.0 ==> v == v17
    ensures t == 35.0 ==> v == v35
    ensures t == 47.0 ==> v == v47
    ensures t == 62.0 ==> v == v62
  {
    if t >= 40.0 then v47 + ((v62 - v47) * (t - 47.0)) / (62.0 - 47.0)
    else if 17.0 <= t then v17 + ((v35 - v17) * (t - 17.0)) / (35.0 - 17.0)
    else v17 + ((v47 - v17) * (t - 17.0)) / (47.0 - 17.0)
  }

  /** Fraction of the time the (high-stage) compressor may run: never at or
      below 10 F or when its COP is below 1, half the time up to 14 F, and
      always above. */
  function CompressorFraction(t: real, q: real, p: real): (sigma: real)
    ensures sigma == 0.0 || sigma == 0.5 || sigma == 1.0
    ensures t <= TOff ==> sigma == 0.0
    ensures t > TOn && Quot(q, RatingBtuPerWh * p) >= 1.0 ==> sigma == 1.0
  {
    var ratio := Quot(q, RatingBtuPerWh * p);
    if t <= TOff || ratio < 1.0 then 0.0
    else if TOff < t <= TOn && ratio >= 1.0 then 0.5
    else 1.0
  }

  /** Fraction of the time the low stage may run: temperature only. */
  function LowStageFraction(t: real): (sigma: real)
    ensures t <= TOff ==> sigma == 0.0
    ensures t > TOn ==> sigma == 1.0
    ensures 0.0 <= sigma <= 1.0
  {
    if t <= TOff then 0.0
    else if TOff < t <= TOn then 0.5
    else 1.0
  }

  /** One heating bin: its temperature and weight, its load, and the net
      capacity (q) and power (p) of the high (or only) stage and of the low
      stage. */
  datatype HeatBin = HeatBin(t: real, w: real, load: real, qh: real, ph: real, ql: real, pl: real)

  /** Weighted load, compressor energy and resistance energy of one bin. */
  datatype HeatTotals = HeatTotals(load: real, compressor: real, resistance: real)

  // ---------------------------------------------------------------------
  // Single speed

  /** Net capacities and powers per unit of rated capacity at 47, 35 and
      17 F. The 35 F capacity is the fixed frost-degraded value 0.7519. */
  datatype HeatPoints = HeatPoints(q47: real, q35: real, q17: real, p47: real, p35: real, p17: real)

  function HeatPoints1Speed(cop47: real, u: OneSpeedUnit, k: PosReal): (r: HeatPoints)
    ensures r.q47 == 1.0 + FanHeat(u.fanPowerRated)
    ensures r.q35 == 0.7519 + FanHeat(u.fanPowerRated)
    ensures r.q17 == Biquadratic(70.0, 17.0, u.cap) + FanHeat(u.fanPowerRated)
    ensures u.fanPowerRated == 0.0 && cop47 != 0.0 ==> r.p47 * cop47 * RatingBtuPerWh == 1.0
    ensures r.p47 == PowerAt47(cop47, u.fanPowerRated, k)
    ensures r.p35 == RatingPower(0.7519, HeatEirAt(cop47, u.fanPowerRated, k, u.eir, 35.0), u.fanPowerRated, 1.0)
    ensures r.p17 == RatingPower(Biquadratic(70.0, 17.0, u.cap), HeatEirAt(cop47, u.fanPowerRated, k, u.eir, 17.0),
                                 u.fanPowerRated, 1.0)
  {
    HeatPoints(
      1.0 + FanHeat(u.fanPowerRated), 0.7519 + FanHeat(u.fanPowerRated),
      Biquadratic(70.0, 17.0, u.cap) + FanHeat(u.fanPowerRated),
      PowerAt47(cop47, u.fanPowerRated, k),
      RatingPower(0.7519, HeatEirAt(cop47, u.fanPowerRated, k, u.eir, 35.0), u.fanPowerRated, 1.0),
      RatingPower(Biquadratic(70.0, 17.0, u.cap), HeatEirAt(cop47, u.fanPowerRated, k, u.eir, 17.0),
                  u.fanPowerRated, 1.0))
  }

  /** Compressor EIR at an outdoor temperature (indoor 70 F): the rated EIR,
      recovered from the net COP at 47 F, scaled by the EIR curve. */
  function HeatEirAt(cop: real, fan: real, k: PosReal, curve: Biquad, odb: real): real {
    EirFromCop(cop, fan, k) * Biquadratic(70.0, odb, curve)
  }

  /** Power per unit of rated capacity at 47 F: the net COP recovered from
      the compressor EIR is the net capacity (1 plus the fan heat) over this
      power in Btu. */
  function PowerAt47(cop: real, fan: real, k: PosReal): (p: real)
    ensures p != 0.0 ==> CopFromEir(EirFromCop(cop, fan, k), fan) * p * RatingBtuPerWh == 1.0 + FanHeat(fan)
    ensures fan == 0.0 && cop != 0.0 ==> p * cop * RatingBtuPerWh == 1.0
  {
    var eir := EirFromCop(cop, fan, k);
    NetCopAt47(eir, fan, eir / RatingBtuPerWh + fan * CfmPerBtuh);
    eir / RatingBtuPerWh + fan * CfmPerBtuh
  }

  lemma NetCopAt47(eir: real, fan: real, p: real)
    requires p == eir / RatingBtuPerWh + fan * CfmPerBtuh
    ensures p != 0.0 ==> CopFromEir(eir, fan) * p * RatingBtuPerWh == 1.0 + FanHeat(fan)
  {
    if p != 0.0 {
      assert CopFromEir(eir, fan) * p == 1.0 / RatingBtuPerWh + fan * CfmPerBtuh;
    }
  }

  function HeatBins1Speed(pts: HeatPoints, bins: seq<Bin>): (r: seq<HeatBin>)
    ensures |r| == |bins|
    ensures forall i :: 0 <= i < |r| ==> r[i].t == bins[i].temp && r[i].w == bins[i].frac
    ensures forall i :: 0 <= i < |r| ==> r[i].load == HeatBinLoad(bins[i].temp)
  {
    seq(|bins|, i requires 0 <= i < |bins| =>
      var t := bins[i].temp;
      HeatBin(t, bins[i].frac, HeatBinLoad(t),
              HeatLine(pts.q17, pts.q35, pts.q47, t), HeatLine(pts.p17, pts.p35, pts.p47, t), 0.0, 0.0))
  }

  /** A single-speed bin: the compressor cycles at part-load ratio
      min(load/capacity, 1) for the allowed fraction of time, and resistance
      heat supplies the rest of the load. */
  function HeatBin1Speed(b: HeatBin, cd: real): (r: HeatTotals)
    ensures r.load == b.load * b.w
    ensures b.t <= TOff ==> r.compressor == 0.0 && r.resistance == (b.load / RatingBtuPerWh) * b.w
    ensures CompressorFraction(b.t, b.qh, b.ph) == 0.0 ==>
              r.compressor == 0.0 && r.resistance == (b.load / RatingBtuPerWh) * b.w
    ensures b.qh > 0.0 && b.load >= 0.0 && b.w >= 0.0 ==> r.resistance >= 0.0
    ensures b.t > TOn && Quot(b.qh, RatingBtuPerWh * b.ph) >= 1.0 && b.qh >= b.load > 0.0 ==> r.resistance == 0.0
  {
    var sigma := CompressorFraction(b.t, b.qh, b.ph);
    var x := Min(Quot(b.load, b.qh), 1.0);
    var delivered := Delivered(x, b.qh, sigma);
    HeatBin1Facts(b.load, b.qh, b.ph, b.t, b.w, sigma, x);
    HeatTotals(b.load * b.w, CyclingEnergy(x, b.ph, sigma, cd) * b.w, ResistanceEnergy(b.load, delivered) * b.w)
  }

  /** What the compressor delivers in a single-speed bin: at most the load
      (so resistance heat is never negative), and the whole load when it
      runs all the time with enough capacity. */
  lemma HeatBin1Facts(load: real, q: real, p: real, t: real, w: real, sigma: real, x: real)
    requires sigma == CompressorFraction(t, q, p) && x == Min(Quot(load, q), 1.0)
    ensures q > 0.0 && load >= 0.0 && w >= 0.0 ==> ResistanceEnergy(load, Delivered(x, q, sigma)) * w >= 0.0
    ensures t > TOn && Quot(q, RatingBtuPerWh * p) >= 1.0 && q >= load > 0.0 ==> Delivered(x, q, sigma) == load
  {
    HeatPumpShare(load, q, x);
    if q > 0.0 && load >= 0.0 && w >= 0.0 {
      ScaleDown(sigma, x * q);
      MulNonNeg(ResistanceEnergy(load, Delivered(x, q, sigma)), w);
    }
  }

  /** Heat delivered by a compressor running part-load ratio x of capacity q
      for fraction sigma of the time. */
  function Delivered(x: real, q: real, sigma: real): (d: real)
    ensures sigma == 0.0 ==> d == 0.0
    ensures sigma == 1.0 ==> d == x * q
  {
    x * q * sigma
  }

  /** Compressor energy at part-load ratio x, with the cycling loss of the
      part-load factor 1 - c_d (1 - x); none when the compressor is off. */
  function CyclingEnergy(x: real, p: real, sigma: real, cd: real): (e: real)
    ensures sigma == 0.0 ==> e == 0.0
  {
    Quot(x * p * sigma, 1.0 - cd * (1.0 - x))
  }

  /** Resistance energy for the part of the load the heat pump leaves. */
  function ResistanceEnergy(load: real, delivered: real): (e: real)
    ensures delivered == 0.0 ==> e == load / RatingBtuPerWh
    ensures delivered == load ==> e == 0.0
    ensures delivered <= load ==> e >= 0.0
  {
    (load - delivered) / RatingBtuPerWh
  }

  /** The heat pump's share x = min(load/capacity, 1) delivers at most the
      load, and exactly the load when capacity suffices. */
  lemma HeatPumpShare(load: real, q: real, x: real)
    requires x == Min(Quot(load, q), 1.0)
    ensures q > 0.0 && load >= 0.0 ==> 0.0 <= x * q <= load
    ensures q >= load > 0.0 ==> x * q == load
  {
    if q > 0.0 && load >= 0.0 {
      assert Quot(load, q) * q == load;
      if Quot(load, q) <= 1.0 {
        assert x * q == load;
      } else {
        assert x == 1.0;
        assert load / q > 1.0;
        MulMonoLt(q, load, 1.0 / q) by {
          assert q * (1.0 / q) == 1.0;
          assert load * (1.0 / q) == load / q;
        }
      }
    }
  }

  function SumHeat1(bs: seq<HeatBin>, cd: real): HeatTotals {
    if |bs| == 0 then HeatTotals(0.0, 0.0, 0.0)
    else
      var h := HeatBin1Speed(bs[0], cd);
      var rest := SumHeat1(bs[1..], cd);
      HeatTotals(h.load + rest.load, h.compressor + rest.compressor, h.resistance + rest.resistance)
  }

  /** HSPF: total load over total energy (compressor plus resistance). */
  function HeatingRatio(t: HeatTotals): (hspf: real)
    ensures t.compressor + t.resistance != 0.0 ==> hspf == t.load / (t.compressor + t.resistance)
    ensures t.compressor + t.resistance == 0.0 ==> hspf == 0.0
  {
    Quot(t.load, t.compressor + t.resistance)
  }

  function CalcHspf1Speed(cop47: real, u: OneSpeedUnit, k: PosReal): real {
    HeatingRatio(SumHeat1(HeatBins1Speed(HeatPoints1Speed(cop47, u, k), HeatingBins), u.cd))
  }

  /** With positive capacities and non-negative loads and weights, resistance
      heat is never negative: the heat pump never delivers more than a bin's
      load. */
  lemma {:induction false} SumHeat1ResistanceNonNegative(bs: seq<HeatBin>, cd: real)
    requires forall i :: 0 <= i < |bs| ==> bs[i].qh > 0.0 && bs[i].load >= 0.0 && bs[i].w >= 0.0
    ensures SumHeat1(bs, cd).resistance >= 0.0
  {
    if |bs| > 0 {
      assert bs[0].qh > 0.0 && bs[0].load >= 0.0 && bs[0].w >= 0.0;
      SumHeat1ResistanceNonNegative(bs[1..], cd);
    }
  }

  /** All bins at or below 10 F: no compressor energy, the whole load is met
      by resistance. */
  lemma {:induction false} SumHeat1AllResistanceWhenCold(bs: seq<HeatBin>, cd: real)
    requires forall i :: 0 <= i < |bs| ==> bs[i].t <= TOff
    ensures SumHeat1(bs, cd).compressor == 0.0
    ensures SumHeat1(bs, cd).resistance == SumHeat1(bs, cd).load / RatingBtuPerWh
  {
    if |bs| > 0 {
      assert bs[0].t <= TOff;
      SumHeat1AllResistanceWhenCold(bs[1..], cd);
    }
  }

  /** A heat pump whose compressor never runs rates at the HSPF of
      resistance heat, 3.412 Btu/Wh. */
  lemma HspfAllResistance(bs: seq<HeatBin>, cd: real)
    requires forall i :: 0 <= i < |bs| ==> bs[i].t <= TOff
    requires SumHeat1(bs, cd).load != 0.0
    ensures HeatingRatio(SumHeat1(bs, cd)) == RatingBtuPerWh
  {
    SumHeat1AllResistanceWhenCold(bs, cd);
    var t := SumHeat1(bs, cd);
    ResistanceRatio(t.load, t.compressor + t.resistance);
  }

  lemma ResistanceRatio(load: real, e: real)
    requires load != 0.0 && e == load / RatingBtuPerWh
    ensures Quot(load, e) == RatingBtuPerWh
  {
    assert e * RatingBtuPerWh == load;
  }

  /** Where the compressor is held off (below cut-off, or below a COP of 1)
      the whole load is met by resistance heat. */
  lemma {:induction false} SumHeat1NoCompressor(bs: seq<HeatBin>, cd: real)
    requires forall i :: 0 <= i < |bs| ==> CompressorFraction(bs[i].t, bs[i].qh, bs[i].ph) == 0.0
    ensures SumHeat1(bs, cd).compressor == 0.0
    ensures SumHeat1(bs, cd).resistance == SumHeat1(bs, cd).load / RatingBtuPerWh
  {
    if |bs| > 0 {
      assert CompressorFraction(bs[0].t, bs[0].qh, bs[0].ph) == 0.0;
      SumHeat1NoCompressor(bs[1..], cd);
    }
  }

  /** With positive loads and weights, a non-empty season's load is positive. */
  lemma {:induction false} SumHeat1LoadPositive(bs: seq<HeatBin>, cd: real)
    requires forall i :: 0 <= i < |bs| ==> bs[i].load > 0.0 && bs[i].w > 0.0
    ensures SumHeat1(bs, cd).load >= 0.0
    ensures |bs| > 0 ==> SumHeat1(bs, cd).load > 0.0
  {
    if |bs| > 0 {
      assert bs[0].load * bs[0].w > 0.0;
      SumHeat1LoadPositive(bs[1..], cd);
    }
  }

  /** Every Region IV heating bin lies below 65 F and has a positive weight,
      so it carries a positive load. */
  lemma HeatingBinsCarryLoad()
    ensures forall i :: 0 <= i < |HeatingBins| ==> HeatingBins[i].temp < 65.0 && HeatingBins[i].frac > 0.0
  {
    assert forall i :: 0 <= i < |HeatingBins| ==> HeatingBins[i].temp < 65.0 && HeatingBins[i].frac > 0.0;
  }

  /** A positive load over an energy is positive exactly when the energy is,
      and is at most the load over a positive part of a non-negatively
      split energy. */
  lemma LoadOverEnergy(load: real, c: real, res: real)
    requires load > 0.0
    ensures Quot(load, c + res) > 0.0 <==> c + res > 0.0
    ensures c > 0.0 && res >= 0.0 ==> Quot(load, c + res) <= load / c
  {
    var e := c + res;
    if e > 0.0 {
      var q := load / e;
      assert q * e == load;
      PositiveFactor(q, e, load);
      if c > 0.0 && res >= 0.0 {
        ScaleLe(c, e, q);
        assert load / c * c == load;
        ProductCompare(q, load / c, c);
      }
    } else if e < 0.0 {
      var q := load / e;
      assert (-q) * (-e) == load;
      PositiveFactor(-q, -e, load);
    }
  }

  /** The single-speed HSPF over the Region IV bins is positive exactly when
      the season uses energy. */
  lemma CalcHspf1SpeedPositive(cop47: real, u: OneSpeedUnit, k: PosReal)
    ensures var t := SumHeat1(HeatBins1Speed(HeatPoints1Speed(cop47, u, k), HeatingBins), u.cd);
            CalcHspf1Speed(cop47, u, k) > 0.0 <==> t.compressor + t.resistance > 0.0
  {
    var bs := HeatBins1Speed(HeatPoints1Speed(cop47, u, k), HeatingBins);
    HeatingBinsCarryLoad();
    SumHeat1LoadPositive(bs, u.cd);
    var t := SumHeat1(bs, u.cd);
    LoadOverEnergy(t.load, t.compressor, t.resistance);
  }

  /** With a positive capacity in every bin, resistance heat only adds
      energy, so the single-speed HSPF is at most the load over the
      compressor energy alone. */
  lemma CalcHspf1SpeedBelowCompressorOnly(cop47: real, u: OneSpeedUnit, k: PosReal)
    requires var bs := HeatBins1Speed(HeatPoints1Speed(cop47, u, k), HeatingBins);
             forall i :: 0 <= i < |bs| ==> bs[i].qh > 0.0
    ensures var t := SumHeat1(HeatBins1Speed(HeatPoints1Speed(cop47, u, k), HeatingBins), u.cd);
            t.compressor > 0.0 ==> CalcHspf1Speed(cop47, u, k) <= t.load / t.compressor
  {
    var bs := HeatBins1Speed(HeatPoints1Speed(cop47, u, k), HeatingBins);
    HeatingBinsCarryLoad();
    SumHeat1LoadPositive(bs, u.cd);
    SumHeat1ResistanceNonNegative(bs, u.cd);
    var t := SumHeat1(bs, u.cd);
    LoadOverEnergy(t.load, t.compressor, t.resistance);
  }

  /** A heat pump whose compressor is held off in every Region IV bin (its
      COP stays below 1 wherever it is above cut-off) rates at the HSPF of
      resistance heat, 3.412 Btu/Wh. */
  lemma CalcHspf1SpeedNoCompressor(cop47: real, u: OneSpeedUnit, k: PosReal)
    requires var bs := HeatBins1Speed(HeatPoints1Speed(cop47, u, k), HeatingBins);
             forall i :: 0 <= i < |bs| ==> CompressorFraction(bs[i].t, bs[i].qh, bs[i].ph) == 0.0
    ensures CalcHspf1Speed(cop47, u, k) == RatingBtuPerWh
  {
    var bs := HeatBins1Speed(HeatPoints1Speed(cop47, u, k), HeatingBins);
    HeatingBinsCarryLoad();
    SumHeat1LoadPositive(bs, u.cd);
    SumHeat1NoCompressor(bs, u.cd);
    var t := SumHeat1(bs, u.cd);
    ResistanceRatio(t.load, t.compressor + t.resistance);
  }

  // ---------------------------------------------------------------------
  // Two speed

  /** Net capacities of both stages per unit of rated high-stage capacity:
      high at 47/35/17 F, low at 62/47/35/17 F. */
  datatype HeatCapacities2 = HeatCapacities2(qH47: real, qH35: real, qH17: real,
                                             qL62: real, qL47: real, qL35: real, qL17: real)

  /** Powers of both stages at the same rating points. */
  datatype HeatPowers2 = HeatPowers2(pH47: real, pH35: real, pH17: real,
                                     pL62: real, pL47: real, pL35: real, pL17: real)

  /** Gross capacity of the high stage at the rating points; the low stage's
      is scaled by the low-stage capacity ratio. */
  function GrossCapacities2(u: TwoSpeedUnit): HeatCapacities2 {
    var qL47 := u.lowCapacityRatio;
    HeatCapacities2(1.0, Biquadratic(70.0, 35.0, u.cap.high), Biquadratic(70.0, 17.0, u.cap.high),
                    qL47 * Biquadratic(70.0, 62.0, u.cap.low), qL47,
                    qL47 * Biquadratic(70.0, 35.0, u.cap.low), qL47 * Biquadratic(70.0, 17.0, u.cap.low))
  }

  /** Net capacities add the indoor fan's heat to the gross capacities, the
      low stage's scaled by its fan speed ratio. */
  function HeatCapacities2Speed(u: TwoSpeedUnit): (r: HeatCapacities2)
    ensures r.qH47 == 1.0 + FanHeat(u.fanPowerRated)
    ensures r.qL47 == u.lowCapacityRatio + FanHeat(u.fanPowerRated) * u.lowFanSpeedRatio
    ensures r.qH17 == Biquadratic(70.0, 17.0, u.cap.high) + FanHeat(u.fanPowerRated)
    ensures r.qL62 == u.lowCapacityRatio * Biquadratic(70.0, 62.0, u.cap.low) + FanHeat(u.fanPowerRated) * u.lowFanSpeedRatio
    ensures r.qH35 == Biquadratic(70.0, 35.0, u.cap.high) + FanHeat(u.fanPowerRated)
    ensures r.qL35 == u.lowCapacityRatio * Biquadratic(70.0, 35.0, u.cap.low) + FanHeat(u.fanPowerRated) * u.lowFanSpeedRatio
    ensures r.qL17 == u.lowCapacityRatio * Biquadratic(70.0, 17.0, u.cap.low) + FanHeat(u.fanPowerRated) * u.lowFanSpeedRatio
  {
    var g := GrossCapacities2(u);
    var h := FanHeat(u.fanPowerRated);
    var hl := h * u.lowFanSpeedRatio;
    HeatCapacities2(g.qH47 + h, g.qH35 + h, g.qH17 + h, g.qL62 + hl, g.qL47 + hl, g.qL35 + hl, g.qL17 + hl)
  }

  /** Power at each rating point: gross capacity times EIR (scaled from the
      47 F EIR by the EIR curve) plus the fan's power. */
  function HeatPowers2Speed(cops: TwoSpeed<real>, u: TwoSpeedUnit, k: PosReal): (r: HeatPowers2)
    ensures u.fanPowerRated == 0.0 && cops.high != 0.0 ==> r.pH47 * cops.high * RatingBtuPerWh == 1.0
    ensures u.fanPowerRated == 0.0 && cops.low != 0.0 ==>
              r.pL47 * cops.low * RatingBtuPerWh == u.lowCapacityRatio
    ensures r.pH47 == PowerAt47(cops.high, u.fanPowerRated, k)
    ensures r.pL47 == RatingPower(u.lowCapacityRatio, EirFromCop(cops.low, u.fanPowerRated, k),
                                  u.fanPowerRated, u.lowFanSpeedRatio)
    ensures r.pH17 == RatingPower(Biquadratic(70.0, 17.0, u.cap.high), HeatEirAt(cops.high, u.fanPowerRated, k, u.eir.high, 17.0),
                                  u.fanPowerRated, 1.0)
    ensures r.pL62 == RatingPower(u.lowCapacityRatio * Biquadratic(70.0, 62.0, u.cap.low),
                                  HeatEirAt(cops.low, u.fanPowerRated, k, u.eir.low, 62.0),
                                  u.fanPowerRated, u.lowFanSpeedRatio)
    ensures r.pH35 == RatingPower(Biquadratic(70.0, 35.0, u.cap.high), HeatEirAt(cops.high, u.fanPowerRated, k, u.eir.high, 35.0),
                                  u.fanPowerRated, 1.0)
    ensures r.pL35 == RatingPower(u.lowCapacityRatio * Biquadratic(70.0, 35.0, u.cap.low),
                                  HeatEirAt(cops.low, u.fanPowerRated, k, u.eir.low, 35.0),
                                  u.fanPowerRated, u.lowFanSpeedRatio)
    ensures r.pL17 == RatingPower(u.lowCapacityRatio * Biquadratic(70.0, 17.0, u.cap.low),
                                  HeatEirAt(cops.low, u.fanPowerRated, k, u.eir.low, 17.0),
                                  u.fanPowerRated, u.lowFanSpeedRatio)
  {
    var fan := u.fanPowerRated;
    var lowFan := u.lowFanSpeedRatio;
    LowPowerAt47(cops.low, u.lowCapacityRatio, fan, lowFan, k);
    HeatPowers2(
      PowerAt47(cops.high, fan, k),
      RatingPower(Biquadratic(70.0, 35.0, u.cap.high), HeatEirAt(cops.high, fan, k, u.eir.high, 35.0), fan, 1.0),
      RatingPower(Biquadratic(70.0, 17.0, u.cap.high), HeatEirAt(cops.high, fan, k, u.eir.high, 17.0), fan, 1.0),
      RatingPower(u.lowCapacityRatio * Biquadratic(70.0, 62.0, u.cap.low), HeatEirAt(cops.low, fan, k, u.eir.low, 62.0), fan, lowFan),
      RatingPower(u.lowCapacityRatio, EirFromCop(cops.low, fan, k), fan, lowFan),
      RatingPower(u.lowCapacityRatio * Biquadratic(70.0, 35.0, u.cap.low), HeatEirAt(cops.low, fan, k, u.eir.low, 35.0), fan, lowFan),
      RatingPower(u.lowCapacityRatio * Biquadratic(70.0, 17.0, u.cap.low), HeatEirAt(cops.low, fan, k, u.eir.low, 17.0), fan, lowFan))
  }

  /** Without fan power the low stage's power at 47 F times its COP is its
      capacity ratio. */
  lemma LowPowerAt47(cop: real, ratio: real, fan: real, lowFan: real, k: PosReal)
    ensures fan == 0.0 && cop != 0.0 ==>
              RatingPower(ratio, EirFromCop(cop, fan, k), fan, lowFan) * cop * RatingBtuPerWh == ratio
  {
    if fan == 0.0 && cop != 0.0 {
      var eir := EirFromCop(cop, fan, k);
      assert eir * cop == 1.0;
      assert RatingPower(ratio, eir, fan, lowFan) * RatingBtuPerWh == ratio * eir;
    }
  }

  function HeatBins2Speed(q: HeatCapacities2, p: HeatPowers2, bins: seq<Bin>): (r: seq<HeatBin>)
    ensures |r| == |bins|
    ensures forall i :: 0 <= i < |r| ==> r[i].t == bins[i].temp && r[i].w == bins[i].frac
    ensures forall i :: 0 <= i < |r| ==> r[i].load == HeatBinLoad(bins[i].temp)
    ensures forall i :: 0 <= i < |r| ==>
      r[i].qh == HeatLine(q.qH17, q.qH35, q.qH47, bins[i].temp) &&
      r[i].ql == LowHeatLine(q.qL17, q.qL35, q.qL47, q.qL62, bins[i].temp)
  {
    seq(|bins|, i requires 0 <= i < |bins| =>
      var t := bins[i].temp;
      HeatBin(t, bins[i].frac, HeatBinLoad(t),
              HeatLine(q.qH17, q.qH35, q.qH47, t), HeatLine(p.pH17, p.pH35, p.pH47, t),
              LowHeatLine(q.qL17, q.qL35, q.qL47, q.qL62, t),
              LowHeatLine(p.pL17, p.pL35, p.pL47, p.pL62, t)))
  }

  /** The low stage cycles to meet a load it exceeds; resistance covers the
      part of the load outside the allowed running time. */
  function LowStageCycling(b: HeatBin, cd: real): (r: HeatTotals)
    ensures r.load == b.load * b.w
    ensures r.resistance == (b.load * (1.0 - LowStageFraction(b.t))) / RatingBtuPerWh * b.w
    ensures b.t <= TOff ==> r.compressor == 0.0
  {
    var sigma := LowStageFraction(b.t);
    var x := Min(Quot(b.load, b.ql), 1.0);
    assert b.t <= TOff ==> x * b.pl * sigma == 0.0;
    var pLF := 1.0 - cd * (1.0 - x);
    HeatTotals(b.load * b.w, Quot(x * b.pl * sigma, pLF) * b.w,
               (b.load * (1.0 - sigma)) / RatingBtuPerWh * b.w)
  }

  /** The unit alternates between the stages in the proportion that meets
      the load. */
  function StageAlternation(b: HeatBin): (r: HeatTotals)
    requires b.ql <= b.load < b.qh
    ensures r.load == b.load * b.w
    ensures r.resistance == (b.load * (1.0 - LowStageFraction(b.t))) / RatingBtuPerWh * b.w
    ensures b.t <= TOff ==> r.compressor == 0.0
  {
    var sigma := LowStageFraction(b.t);
    var x := (b.qh - b.load) / (b.qh - b.ql);
    HeatTotals(b.load * b.w, (x * b.pl + (1.0 - x) * b.ph) * sigma * b.w,
               (b.load * (1.0 - sigma)) / RatingBtuPerWh * b.w)
  }

  /** The high stage runs continuously and resistance covers the rest. */
  function HighStageRunning(b: HeatBin): (r: HeatTotals)
    ensures r.load == b.load * b.w
    ensures r.resistance == (b.load - b.qh * LowStageFraction(b.t)) / RatingBtuPerWh * b.w
    ensures b.t <= TOff ==> r.compressor == 0.0
  {
    HeatTotals(b.load * b.w, b.ph * CompressorFraction(b.t, b.qh, b.ph) * b.w,
               (b.load - b.qh * LowStageFraction(b.t)) / RatingBtuPerWh * b.w)
  }

  /** A two-speed bin, with the low-stage/alternation boundary (low capacity
      exactly equal to the load while the high stage exceeds it) assigned to
      alternation. At or below 10 F the compressor is off and resistance
      carries the load; above 14 F, whenever the high stage can carry the
      load, no resistance heat is used. */
  function HeatBin2Speed(b: HeatBin, cd: real): (r: HeatTotals)
    ensures r.load == b.load * b.w
    ensures b.t <= TOff ==> r.compressor == 0.0 && r.resistance == (b.load / RatingBtuPerWh) * b.w
    ensures b.t > TOn && b.qh > b.load ==> r.resistance == 0.0
  {
    if b.ql > b.load then LowStageCycling(b, cd)
    else if b.ql <= b.load && b.qh > b.load then StageAlternation(b)
    else HighStageRunning(b)
  }

  /** The two-speed bin exactly as the source writes it: the branches test
      `low > load`, `low < load < high` and `high <= load`, so a bin whose
      low-stage capacity equals its load while the high stage exceeds it takes
      no branch and the computation fails (None). */
  function HeatBin2SpeedAsWritten(b: HeatBin, cd: real): (r: Option<HeatTotals>)
  {
    if b.ql > b.load then Some(LowStageCycling(b, cd))
    else if b.ql < b.load && b.qh > b.load then Some(StageAlternation(b))
    else if b.qh <= b.load then Some(HighStageRunning(b))
    else None
  }

  /** The as-written bin fails exactly on the gap, and agrees with the
      corrected bin everywhere else. */
  lemma AsWrittenBinAgrees(b: HeatBin, cd: real)
    ensures HeatBin2SpeedAsWritten(b, cd).None? <==> BoundaryGap(b)
    ensures HeatBin2SpeedAsWritten(b, cd).Some? ==> HeatBin2SpeedAsWritten(b, cd).value == HeatBin2Speed(b, cd)
  {
  }

  /** The case the source's branch chain does not cover. */
  predicate BoundaryGap(b: HeatBin) {
    b.ql == b.load && b.qh > b.load
  }

  /** On the gap, alternation is the limit of low-stage cycling: both give
      the same totals when the load is positive. So assigning the gap to
      alternation is what the source evidently intends. */
  lemma GapIsContinuous(b: HeatBin, cd: real)
    requires BoundaryGap(b) && b.load > 0.0
    ensures HeatBin2Speed(b, cd) == LowStageCycling(b, cd)
  {
    var sigma := LowStageFraction(b.t);
    assert Quot(b.load, b.ql) == 1.0;
    var x := (b.qh - b.load) / (b.qh - b.ql);
    assert x == 1.0;
  }

  function SumHeat2(bs: seq<HeatBin>, cd: real): HeatTotals {
    if |bs| == 0 then HeatTotals(0.0, 0.0, 0.0)
    else
      var h := HeatBin2Speed(bs[0], cd);
      var rest := SumHeat2(bs[1..], cd);
      HeatTotals(h.load + rest.load, h.compressor + rest.compressor, h.resistance + rest.resistance)
  }

  /** The source's sum: it fails as soon as one bin fails. */
  function SumHeat2AsWritten(bs: seq<HeatBin>, cd: real): Option<HeatTotals> {
    if |bs| == 0 then Some(HeatTotals(0.0, 0.0, 0.0))
    else
      match HeatBin2SpeedAsWritten(bs[0], cd)
      case None => None
      case Some(h) =>
        match SumHeat2AsWritten(bs[1..], cd)
        case None => None
        case Some(rest) =>
          Some(HeatTotals(h.load + rest.load, h.compressor + rest.compressor, h.resistance + rest.resistance))
  }

  /** The as-written season fails exactly when some bin lies on the gap, and
      otherwise agrees with the corrected season. */
  lemma {:induction false} AsWrittenSeasonAgrees(bs: seq<HeatBin>, cd: real)
    ensures SumHeat2AsWritten(bs, cd).None? <==> exists i :: 0 <= i < |bs| && BoundaryGap(bs[i])
    ensures SumHeat2AsWritten(bs, cd).Some? ==> SumHeat2AsWritten(bs, cd).value == SumHeat2(bs, cd)
  {
    if |bs| > 0 {
      AsWrittenBinAgrees(bs[0], cd);
      AsWrittenSeasonAgrees(bs[1..], cd);
      if exists i :: 0 <= i < |bs[1..]| && BoundaryGap(bs[1..][i]) {
        var i :| 0 <= i < |bs[1..]| && BoundaryGap(bs[1..][i]);
        assert BoundaryGap(bs[i + 1]);
      }
      if exists i :: 0 <= i < |bs| && BoundaryGap(bs[i]) {
        var i :| 0 <= i < |bs| && BoundaryGap(bs[i]);
        if i > 0 {
          assert BoundaryGap(bs[1..][i - 1]);
        }
      }
    }
  }

  function CalcHspf2Speed(cops: TwoSpeed<real>, u: TwoSpeedUnit, k: PosReal): real {
    HeatingRatio(SumHeat2(HeatBins2Speed(HeatCapacities2Speed(u), HeatPowers2Speed(cops, u, k), HeatingBins), u.cd))
  }

  /** The two-speed HSPF as the source computes it; None where it raises. */
  function CalcHspf2SpeedAsWritten(cops: TwoSpeed<real>, u: TwoSpeedUnit, k: PosReal): (r: Option<real>)
    ensures r.Some? ==> r.value == CalcHspf2Speed(cops, u, k)
    ensures var bs := HeatBins2Speed(HeatCapacities2Speed(u), HeatPowers2Speed(cops, u, k), HeatingBins);
            r.None? <==> exists i :: 0 <= i < |bs| && BoundaryGap(bs[i])
  {
    var bs := HeatBins2Speed(HeatCapacities2Speed(u), HeatPowers2Speed(cops, u, k), HeatingBins);
    AsWrittenSeasonAgrees(bs, u.cd);
    match SumHeat2AsWritten(bs, u.cd)
    case None => None
    case Some(t) => Some(HeatingRatio(t))
  }

  /** A two-speed bin with a non-negative load never draws negative
      resistance energy: whichever branch it takes, the stages deliver at
      most the load. */
  lemma HeatBin2ResistanceNonNegative(b: HeatBin, cd: real)
    requires b.load >= 0.0 && b.w >= 0.0
    ensures HeatBin2Speed(b, cd).resistance >= 0.0
  {
    if b.ql > b.load {
      LowStageResistance(b, cd);
      assert HeatBin2Speed(b, cd) == LowStageCycling(b, cd);
    } else if b.qh > b.load {
      AlternationResistance(b);
      assert HeatBin2Speed(b, cd) == StageAlternation(b);
    } else {
      HighStageResistance(b);
      assert HeatBin2Speed(b, cd) == HighStageRunning(b);
    }
  }

  lemma LowStageResistance(b: HeatBin, cd: real)
    requires b.load >= 0.0 && b.w >= 0.0
    ensures LowStageCycling(b, cd).resistance >= 0.0
  {
    ShareOutsideNonNegative(b.load, LowStageFraction(b.t), b.w);
  }

  lemma AlternationResistance(b: HeatBin)
    requires b.ql <= b.load < b.qh && b.load >= 0.0 && b.w >= 0.0
    ensures StageAlternation(b).resistance >= 0.0
  {
    ShareOutsideNonNegative(b.load, LowStageFraction(b.t), b.w);
  }

  lemma HighStageResistance(b: HeatBin)
    requires b.qh <= b.load && b.load >= 0.0 && b.w >= 0.0
    ensures HighStageRunning(b).resistance >= 0.0
  {
    ShareLeftNonNegative(b.load, b.qh, LowStageFraction(b.t), b.w);
  }

  /** The load's share outside a running fraction in [0, 1], as energy. */
  lemma ShareOutsideNonNegative(load: real, sigma: real, w: real)
    ensures load >= 0.0 && 0.0 <= sigma <= 1.0 && w >= 0.0 ==> (load * (1.0 - sigma)) / RatingBtuPerWh * w >= 0.0
  {
    if load >= 0.0 && 0.0 <= sigma <= 1.0 && w >= 0.0 {
      MulNonNeg(load, 1.0 - sigma);
      MulNonNeg((load * (1.0 - sigma)) / RatingBtuPerWh, w);
    }
  }

  /** The load left by a stage of capacity at most the load running a
      fraction in [0, 1] of the time, as energy. */
  lemma ShareLeftNonNegative(load: real, q: real, sigma: real, w: real)
    ensures 0.0 <= load && q <= load && 0.0 <= sigma <= 1.0 && w >= 0.0 ==> (load - q * sigma) / RatingBtuPerWh * w >= 0.0
  {
    if 0.0 <= load && q <= load && 0.0 <= sigma <= 1.0 && w >= 0.0 {
      if q >= 0.0 {
        ScaleDown(sigma, q);
      } else {
        MulNonNeg(-q, sigma);
      }
      MulNonNeg((load - q * sigma) / RatingBtuPerWh, w);
    }
  }

  lemma {:induction false} SumHeat2ResistanceNonNegative(bs: seq<HeatBin>, cd: real)
    requires forall i :: 0 <= i < |bs| ==> bs[i].load >= 0.0 && bs[i].w >= 0.0
    ensures SumHeat2(bs, cd).resistance >= 0.0
  {
    if |bs| > 0 {
      HeatBin2ResistanceNonNegative(bs[0], cd);
      SumHeat2ResistanceNonNegative(bs[1..], cd);
    }
  }

  /** With positive loads and weights, a non-empty season's load is positive. */
  lemma {:induction false} SumHeat2LoadPositive(bs: seq<HeatBin>, cd: real)
    requires forall i :: 0 <= i < |bs| ==> bs[i].load > 0.0 && bs[i].w > 0.0
    ensures SumHeat2(bs, cd).load >= 0.0
    ensures |bs| > 0 ==> SumHeat2(bs, cd).load > 0.0
  {
    if |bs| > 0 {
      assert bs[0].load * bs[0].w > 0.0;
      SumHeat2LoadPositive(bs[1..], cd);
    }
  }

  /** The two-speed HSPF over the Region IV bins is positive exactly when the
      season uses energy, and, since resistance heat only adds energy, it is
      at most the load over the compressor energy alone. */
  lemma CalcHspf2SpeedBounds(cops: TwoSpeed<real>, u: TwoSpeedUnit, k: PosReal)
    ensures var t := SumHeat2(HeatBins2Speed(HeatCapacities2Speed(u), HeatPowers2Speed(cops, u, k), HeatingBins), u.cd);
            CalcHspf2Speed(cops, u, k) > 0.0 <==> t.compressor + t.resistance > 0.0
    ensures var t := SumHeat2(HeatBins2Speed(HeatCapacities2Speed(u), HeatPowers2Speed(cops, u, k), HeatingBins), u.cd);
            t.compressor > 0.0 ==> CalcHspf2Speed(cops, u, k) <= t.load / t.compressor
  {
    var bs := HeatBins2Speed(HeatCapacities2Speed(u), HeatPowers2Speed(cops, u, k), HeatingBins);
    HeatingBinsCarryLoad();
    SumHeat2LoadPositive(bs, u.cd);
    SumHeat2ResistanceNonNegative(bs, u.cd);
    var t := SumHeat2(bs, u.cd);
    LoadOverEnergy(t.load, t.compressor, t.resistance);
  }

  /** Units with no fan power, a low stage at 3.85% of rated capacity, and
      capacity curves equal to 1 at the 62 F (low stage) and 17 F (high
      stage) rating points: in the 62 F bin the low stage's capacity equals
      the load, 0.0385 = (3/60) * 0.77, while the high stage's is 1. In
      doubles the same holds for the ratio computed as (3.0/60.0)*0.77, the
      operations the source uses for the bin load. */
  predicate GapUnit(u: TwoSpeedUnit) {
    u.fanPowerRated == 0.0 && u.lowCapacityRatio == 0.0385 &&
    Biquadratic(70.0, 62.0, u.cap.low) == 1.0 && Biquadratic(70.0, 17.0, u.cap.high) == 1.0
  }

  /** Any unit with flat capacity curves, no fan power and that low-stage
      ratio is such a unit, whatever its EIR curves and cycling coefficient. */
  lemma FlatCurvesGiveGapUnit(u: TwoSpeedUnit)
    requires u.fanPowerRated == 0.0 && u.lowCapacityRatio == 0.0385
    requires u.cap == TwoSpeed(Biquad(1.0, 0.0, 0.0, 0.0, 0.0, 0.0), Biquad(1.0, 0.0, 0.0, 0.0, 0.0, 0.0))
    ensures GapUnit(u)
  {
  }

  /** For such a unit the source's two-speed HSPF fails whatever the COPs,
      while the corrected one is defined. */
  lemma GapUnitFails(cops: TwoSpeed<real>, u: TwoSpeedUnit, k: PosReal)
    requires GapUnit(u)
    ensures CalcHspf2SpeedAsWritten(cops, u, k).None?
  {
    var q := HeatCapacities2Speed(u);
    GapUnitCapacities(u);
    var bs := HeatBins2Speed(q, HeatPowers2Speed(cops, u, k), HeatingBins);
    assert HeatingBins[0] == Bin(62.0, 0.132);
    assert bs[0].load == 0.0385;
    assert bs[0].ql == 0.0385;
    assert bs[0].qh == 1.0;
    assert BoundaryGap(bs[0]);
  }

  lemma GapUnitCapacities(u: TwoSpeedUnit)
    requires GapUnit(u)
    ensures HeatCapacities2Speed(u).qL62 == 0.0385
    ensures HeatCapacities2Speed(u).qH17 == 1.0
    ensures HeatCapacities2Speed(u).qH47 == 1.0
  {
    ZeroFanHeat(u.fanPowerRated, u.lowFanSpeedRatio);
  }

  lemma ZeroFanHeat(fan: real, ratio: real)
    requires fan == 0.0
    ensures FanHeat(fan) == 0.0 && FanHeat(fan) * ratio == 0.0
  {
  }
}
