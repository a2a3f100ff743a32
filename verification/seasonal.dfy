/** Seasonal cooling efficiency (SEER) of a two-speed unit as a bin-weighted
    sum over the cooling temperature bins of AHRI Standard 210/240. */
module Seasonal {
  import opened Arith
  import opened Curves
  import opened RatingConversions

  /** One outdoor temperature bin: its temperature (F) and its fraction of
      the season's hours. */
  datatype Bin = Bin(temp: real, frac: real)

  const CoolingBins: seq<Bin> := [
    Bin(67.0, 0.214), Bin(72.0, 0.231), Bin(77.0, 0.216), Bin(82.0, 0.161),
    Bin(87.0, 0.104), Bin(92.0, 0.052), Bin(97.0, 0.018), Bin(102.0, 0.004)]

  /** Region IV heating bins. */
  const HeatingBins: seq<Bin> := [
    Bin(62.0, 0.132), Bin(57.0, 0.111), Bin(52.0, 0.103), Bin(47.0, 0.093),
    Bin(42.0, 0.100), Bin(37.0, 0.109), Bin(32.0, 0.126), Bin(27.0, 0.087),
    Bin(22.0, 0.055), Bin(17.0, 0.036), Bin(12.0, 0.026), Bin(7.0, 0.013),
    Bin(2.0, 0.006), Bin(-3.0, 0.002), Bin(-8.0, 0.001)]

  /** Sum of the weights of bins[i..]. */
  function SumFrac(bins: seq<Bin>, i: nat := 0): real
    decreases |bins| - i
  {
    if i >= |bins| then 0.0 else bins[i].frac + SumFrac(bins, i + 1)
  }

  predicate NonNegativeWeights(bins: seq<Bin>) {
    forall i :: 0 <= i < |bins| ==> bins[i].frac >= 0.0
  }

  /** Both bin tables are distributions over the season's hours. */
  lemma CoolingBinsAreDistribution()
    ensures |CoolingBins| == 8 && NonNegativeWeights(CoolingBins) && SumFrac(CoolingBins) == 1.0
  {
    var c := CoolingBins;
    assert SumFrac(c, 8) == 0.0;
    assert SumFrac(c, 7) == 0.004;
    assert SumFrac(c, 6) == 0.022;
    assert SumFrac(c, 5) == 0.074;
    assert SumFrac(c, 4) == 0.178;
    assert SumFrac(c, 3) == 0.339;
    assert SumFrac(c, 2) == 0.555;
    assert SumFrac(c, 1) == 0.786;
  }

  lemma HeatingBinsAreDistribution()
    ensures |HeatingBins| == 15 && NonNegativeWeights(HeatingBins) && SumFrac(HeatingBins) == 1.0
  {
    var h := HeatingBins;
    assert SumFrac(h, 15) == 0.0;
    assert SumFrac(h, 14) == 0.001;
    assert SumFrac(h, 13) == 0.003;
    assert SumFrac(h, 12) == 0.009;
    assert SumFrac(h, 11) == 0.022;
    assert SumFrac(h, 10) == 0.048;
    assert SumFrac(h, 9) == 0.084;
    assert SumFrac(h, 8) == 0.139;
    assert SumFrac(h, 7) == 0.226;
    assert SumFrac(h, 6) == 0.352;
    assert SumFrac(h, 5) == 0.461;
    assert SumFrac(h, 4) == 0.561;
    assert SumFrac(h, 3) == 0.654;
    assert SumFrac(h, 2) == 0.757;
    assert SumFrac(h, 1) == 0.868;
  }

  /** The parts of a two-speed unit the seasonal ratings depend on: cycling
      degradation, the low stage's capacity and fan-speed ratios, rated fan
      power (W/cfm), and the EIR and capacity temperature curves per speed. */
  datatype TwoSpeedUnit = TwoSpeedUnit(
    cd: real, lowCapacityRatio: real, lowFanSpeedRatio: real, fanPowerRated: real,
    eir: TwoSpeed<Biquad>, cap: TwoSpeed<Biquad>)

  /** Net capacities (q) and powers (p) per unit of rated capacity at the
      rating conditions: A (95 F) and B (82 F) at high speed, B and F (67 F)
      at low speed. */
  datatype CoolRatingPoints = CoolRatingPoints(
    qA2: real, qB2: real, qB1: real, qF1: real,
    pA2: real, pB2: real, pB1: real, pF1: real)

  /** Fan heat per unit of rated capacity. */
  function FanHeat(fan: real): real {
    fan * RatingBtuPerWh * CfmPerBtuh
  }

  /** Power per unit of rated capacity at a rating point: gross capacity
      times compressor EIR, in W, plus the fan's power at its speed share. */
  function RatingPower(q: real, eir: real, fan: real, share: real): real {
    q * eir / RatingBtuPerWh + fan * CfmPerBtuh * share
  }

  /** Compressor EIR at an outdoor temperature (indoor wet bulb 67 F): the
      rated EIR, recovered from the net EER, scaled by the EIR curve. */
  function EirAt(eer: real, fan: real, k: PosReal, curve: Biquad, odb: real): real {
    EirFromEer(eer, fan, k) * Biquadratic(67.0, odb, curve)
  }

  /** Gross capacity at an outdoor temperature (indoor wet bulb 67 F)
      relative to the A-condition capacity, for a stage of the given
      capacity ratio. */
  function CapacityAt(ratio: real, curve: Biquad, odb: real): real {
    ratio * Biquadratic(67.0, odb, curve)
  }

  function CoolRatingPointsOf(eers: TwoSpeed<real>, u: TwoSpeedUnit, k: PosReal): (r: CoolRatingPoints)
    ensures r.qA2 == 1.0 - FanHeat(u.fanPowerRated)
    ensures u.fanPowerRated == 0.0 ==> r.qF1 == CapacityAt(u.lowCapacityRatio, u.cap.low, 67.0)
    ensures r.qB2 == Biquadratic(67.0, 82.0, u.cap.high) - FanHeat(u.fanPowerRated)
    ensures r.qB1 == CapacityAt(u.lowCapacityRatio, u.cap.low, 82.0) - FanHeat(u.fanPowerRated) * u.lowFanSpeedRatio
    ensures r.qF1 == CapacityAt(u.lowCapacityRatio, u.cap.low, 67.0) - FanHeat(u.fanPowerRated) * u.lowFanSpeedRatio
    ensures r.pA2 == PowerAtA(eers.high, u.fanPowerRated, k)
    ensures r.pB2 == RatingPower(CapacityAt(1.0, u.cap.high, 82.0), EirAt(eers.high, u.fanPowerRated, k, u.eir.high, 82.0),
                                 u.fanPowerRated, 1.0)
    ensures r.pB1 == RatingPower(CapacityAt(u.lowCapacityRatio, u.cap.low, 82.0), EirAt(eers.low, u.fanPowerRated, k, u.eir.low, 82.0),
                                 u.fanPowerRated, u.lowFanSpeedRatio)
    ensures r.pF1 == RatingPower(CapacityAt(u.lowCapacityRatio, u.cap.low, 67.0), EirAt(eers.low, u.fanPowerRated, k, u.eir.low, 67.0),
                                 u.fanPowerRated, u.lowFanSpeedRatio)
  {
    CoolRatingPoints(
      1.0 - FanHeat(u.fanPowerRated), Biquadratic(67.0, 82.0, u.cap.high) - FanHeat(u.fanPowerRated),
      CapacityAt(u.lowCapacityRatio, u.cap.low, 82.0) - FanHeat(u.fanPowerRated) * u.lowFanSpeedRatio,
      CapacityAt(u.lowCapacityRatio, u.cap.low, 67.0) - FanHeat(u.fanPowerRated) * u.lowFanSpeedRatio,
      PowerAtA(eers.high, u.fanPowerRated, k),
      RatingPower(CapacityAt(1.0, u.cap.high, 82.0), EirAt(eers.high, u.fanPowerRated, k, u.eir.high, 82.0), u.fanPowerRated, 1.0),
      RatingPower(CapacityAt(u.lowCapacityRatio, u.cap.low, 82.0), EirAt(eers.low, u.fanPowerRated, k, u.eir.low, 82.0), u.fanPowerRated, u.lowFanSpeedRatio),
      RatingPower(CapacityAt(u.lowCapacityRatio, u.cap.low, 67.0), EirAt(eers.low, u.fanPowerRated, k, u.eir.low, 67.0), u.fanPowerRated, u.lowFanSpeedRatio))
  }

  /** Power per unit of rated capacity at the A condition: the net EER
      recovered from the compressor EIR is the net capacity over this power. */
  function PowerAtA(eer: real, fan: real, k: PosReal): (p: real)
    ensures p != 0.0 ==> EerFromEir(EirFromEer(eer, fan, k), fan) * p == 1.0 - FanHeat(fan)
  {
    var eir := EirFromEer(eer, fan, k);
    NetEerAtA(eir, fan, eir / RatingBtuPerWh + fan * CfmPerBtuh);
    eir / RatingBtuPerWh + fan * CfmPerBtuh
  }

  /** The net EER recovered from the A-condition compressor EIR is the net
      capacity over the power there. */
  lemma NetEerAtA(eir: real, fan: real, p: real)
    requires p == eir / RatingBtuPerWh + fan * CfmPerBtuh
    ensures p != 0.0 ==> EerFromEir(eir, fan) * p == 1.0 - FanHeat(fan)
  {
  }

  /** The quantities of one bin (per unit of rated capacity): the building
      load, and the net capacity and power of the low and high stages. */
  datatype StageState = StageState(load: real, qLow: real, eLow: real, qHigh: real, eHigh: real)

  /** The cooling bin state at outdoor temperature t: the load is zero at
      65 F and the A-condition net capacity divided by the 1.1 sizing factor
      at 95 F; the low stage is linear between F (67 F) and B (82 F), the high
      stage between B (82 F) and A (95 F). */
  function CoolBinState(p: CoolRatingPoints, t: real): (s: StageState)
    ensures t == 65.0 ==> s.load == 0.0
    ensures t == 95.0 ==> s.load * 1.1 == p.qA2
    ensures t == 67.0 ==> s.qLow == p.qF1 && s.eLow == p.pF1
    ensures t == 82.0 ==> s.qLow == p.qB1 && s.eLow == p.pB1 && s.qHigh == p.qB2 && s.eHigh == p.pB2
    ensures t == 95.0 ==> s.qHigh == p.qA2 && s.eHigh == p.pA2
  {
    StageState(
      ((t - 65.0) / (95.0 - 65.0)) * (p.qA2 / 1.1),
      p.qF1 + ((p.qB1 - p.qF1) / (82.0 - 67.0)) * (t - 67.0),
      p.pF1 + ((p.pB1 - p.pF1) / (82.0 - 67.0)) * (t - 67.0),
      p.qB2 + ((p.qA2 - p.qB2) / (95.0 - 82.0)) * (t - 82.0),
      p.pB2 + ((p.pA2 - p.pB2) / (95.0 - 82.0)) * (t - 82.0))
  }

  /** Cooling delivered and energy used in one bin, weighted by its hours. */
  datatype BinTotals = BinTotals(delivered: real, energy: real)

  /** The unit cycles the low stage when that meets the load, alternates
      between stages when only the high stage can, and runs the high stage
      continuously otherwise. So it delivers the bin load, capped by the
      high-stage capacity when the low stage falls short; when it alternates,
      its energy lies between that of the two stages. */
  function CoolBin(s: StageState, cd: real, w: real): (r: BinTotals)
    ensures r.delivered == (if s.qLow >= s.load then s.load else Min(s.load, s.qHigh)) * w
    ensures s.qLow < s.load < s.qHigh && w >= 0.0 ==>
            Min(s.eLow, s.eHigh) * w <= r.energy <= Max(s.eLow, s.eHigh) * w
    ensures s.qLow < s.load && s.qHigh <= s.load ==> r.energy == s.eHigh * w
  {
    if s.qLow >= s.load then CycleLowStage(s, cd, w)
    else if s.load < s.qHigh then AlternateStages(s, w)
    else BinTotals(s.qHigh * w, s.eHigh * w)
  }

  /** The low stage cycles to meet the load, losing c_d of efficiency at
      zero part load (CycleLowStagePartLoad). */
  function CycleLowStage(s: StageState, cd: real, w: real): (r: BinTotals)
    ensures r.delivered == s.load * w
    ensures cd == 0.0 && s.qLow != 0.0 ==> r.energy * s.qLow == s.load * s.eLow * w
  {
    var plr := Quot(s.load, s.qLow);
    var pLF := 1.0 - cd * (1.0 - plr);
    BinTotals(s.load * w, Quot(plr * s.eLow, pLF) * w)
  }

  /** The energy of a cycling low stage is the energy of steady running at
      part-load ratio x divided by the part-load factor 1 - c_d (1 - x). For
      a degradation coefficient in [0, 1] cycling never costs less than that
      steady-running energy. */
  lemma CycleLowStagePartLoad(s: StageState, cd: real, w: real)
    ensures var r := CycleLowStage(s, cd, w);
            s.qLow != 0.0 && 1.0 - cd * (1.0 - s.load / s.qLow) != 0.0 ==>
              r.energy * (1.0 - cd * (1.0 - s.load / s.qLow)) == s.load / s.qLow * s.eLow * w
    ensures 0.0 <= cd <= 1.0 && 0.0 < s.load <= s.qLow && s.eLow >= 0.0 && w >= 0.0 ==>
              CycleLowStage(s, cd, w).energy >= s.load / s.qLow * s.eLow * w
  {
    var plr := Quot(s.load, s.qLow);
    var pLF := 1.0 - cd * (1.0 - plr);
    PartLoadPenalty(s.load, s.qLow, cd, s.eLow, w, plr, pLF, Quot(plr * s.eLow, pLF) * w);
  }

  lemma PartLoadPenalty(load: real, qLow: real, cd: real, eLow: real, w: real, plr: real, pLF: real, e: real)
    requires plr == Quot(load, qLow) && pLF == 1.0 - cd * (1.0 - plr) && e == Quot(plr * eLow, pLF) * w
    ensures qLow != 0.0 && pLF != 0.0 ==> e * pLF == load / qLow * eLow * w
    ensures 0.0 <= cd <= 1.0 && 0.0 < load <= qLow && eLow >= 0.0 && w >= 0.0 ==> e >= load / qLow * eLow * w
  {
    if qLow != 0.0 && pLF != 0.0 {
      assert plr == load / qLow;
      assert Quot(plr * eLow, pLF) * pLF == plr * eLow;
    }
    if 0.0 <= cd <= 1.0 && 0.0 < load <= qLow && eLow >= 0.0 && w >= 0.0 {
      assert plr == load / qLow;
      assert 0.0 < plr <= 1.0;
      MulNonNeg(cd, 1.0 - plr);
      assert cd * (1.0 - plr) <= 1.0 - plr by {
        MulNonNeg(1.0 - cd, 1.0 - plr);
      }
      assert 0.0 < pLF <= 1.0;
      var steady := plr * eLow;
      MulNonNeg(plr, eLow);
      var q := Quot(steady, pLF);
      assert q * pLF == steady;
      assert q >= steady by {
        MulNonNeg(q, 1.0 - pLF);
      }
      assert steady * w <= q * w by {
        MulNonNeg(q - steady, w);
      }
    }
  }

  /** The unit alternates between the stages in the proportion that meets
      the load exactly. */
  function AlternateStages(s: StageState, w: real): (r: BinTotals)
    requires s.qLow < s.load < s.qHigh
    ensures r.delivered == s.load * w
    ensures w >= 0.0 ==> Min(s.eLow, s.eHigh) * w <= r.energy <= Max(s.eLow, s.eHigh) * w
  {
    var x := (s.qHigh - s.load) / (s.qHigh - s.qLow);
    StageMix(s.qLow, s.qHigh, s.load, x, s.eLow, s.eHigh, w);
    BinTotals((x * s.qLow + (1.0 - x) * s.qHigh) * w, (x * s.eLow + (1.0 - x) * s.eHigh) * w)
  }

  /** Alternating between stages in proportion x delivers exactly the load,
      at an energy between the two stages'. */
  lemma StageMix(qLow: real, qHigh: real, bL: real, x: real, eLow: real, eHigh: real, w: real)
    requires qLow < bL < qHigh && x == (qHigh - bL) / (qHigh - qLow)
    ensures x * qLow + (1.0 - x) * qHigh == bL
    ensures w >= 0.0 ==> Min(eLow, eHigh) * w <= (x * eLow + (1.0 - x) * eHigh) * w <= Max(eLow, eHigh) * w
  {
    assert x * (qHigh - qLow) == qHigh - bL;
    FractionBelowOne(qHigh - bL, qHigh - qLow);
    var e := x * eLow + (1.0 - x) * eHigh;
    Convex(x, eLow, eHigh);
    if w >= 0.0 {
      MulNonNeg(e - Min(eLow, eHigh), w);
      MulNonNeg(Max(eLow, eHigh) - e, w);
    }
  }

  /** A bin's state with its weight. */
  datatype WeightedState = WeightedState(s: StageState, w: real)

  /** The cooling bin states of a unit over a bin table. */
  function CoolStates(p: CoolRatingPoints, bins: seq<Bin>): (r: seq<WeightedState>)
    ensures |r| == |bins|
    ensures forall i :: 0 <= i < |r| ==> r[i] == WeightedState(CoolBinState(p, bins[i].temp), bins[i].frac)
  {
    seq(|bins|, i requires 0 <= i < |bins| => WeightedState(CoolBinState(p, bins[i].temp), bins[i].frac))
  }

  predicate NonNegativeStateWeights(ws: seq<WeightedState>) {
    forall i :: 0 <= i < |ws| ==> ws[i].w >= 0.0
  }

  /** The high stage can meet the load of every bin. */
  predicate HighStageSuffices(ws: seq<WeightedState>) {
    forall i :: 0 <= i < |ws| ==> ws[i].s.qHigh >= ws[i].s.load
  }

  /** Total weighted load of a season. */
  function LoadTotal(ws: seq<WeightedState>): real {
    if |ws| == 0 then 0.0 else ws[0].s.load * ws[0].w + LoadTotal(ws[1..])
  }

  /** Cooling delivered and energy used, summed over the bins. */
  function SumCool(ws: seq<WeightedState>, cd: real): BinTotals {
    if |ws| == 0 then BinTotals(0.0, 0.0)
    else
      var head := CoolBin(ws[0].s, cd, ws[0].w);
      var tail := SumCool(ws[1..], cd);
      BinTotals(head.delivered + tail.delivered, head.energy + tail.energy)
  }

  /** The unit never delivers more than the season's load. */
  lemma {:induction false} SumCoolWithinLoad(ws: seq<WeightedState>, cd: real)
    requires NonNegativeStateWeights(ws)
    ensures SumCool(ws, cd).delivered <= LoadTotal(ws)
  {
    if |ws| > 0 {
      var head := ws[0];
      assert head.w >= 0.0;
      CoolBinWithinLoad(head.s, cd, head.w);
      var h := CoolBin(head.s, cd, head.w).delivered;
      var l := head.s.load * head.w;
      assert h <= l;
      assert NonNegativeStateWeights(ws[1..]);
      SumCoolWithinLoad(ws[1..], cd);
      assert SumCool(ws, cd).delivered == h + SumCool(ws[1..], cd).delivered;
      assert LoadTotal(ws) == l + LoadTotal(ws[1..]);
    }
  }

  /** When the high stage can meet every bin, the unit delivers exactly the
      season's load. */
  lemma {:induction false} SumCoolMeetsLoad(ws: seq<WeightedState>, cd: real)
    requires HighStageSuffices(ws)
    ensures SumCool(ws, cd).delivered == LoadTotal(ws)
  {
    if |ws| > 0 {
      CoolBinWithinLoad(ws[0].s, cd, ws[0].w);
      assert HighStageSuffices(ws[1..]);
      SumCoolMeetsLoad(ws[1..], cd);
    }
  }

  lemma CoolBinWithinLoad(s: StageState, cd: real, w: real)
    ensures w >= 0.0 ==> CoolBin(s, cd, w).delivered <= s.load * w
    ensures s.qHigh >= s.load ==> CoolBin(s, cd, w).delivered == s.load * w
  {
    var m := if s.qLow >= s.load then s.load else Min(s.load, s.qHigh);
    if w >= 0.0 {
      MulNonNeg(s.load - m, w);
    }
  }

  /** The cooling season of a unit whose A-condition EERs are `eers`. */
  function CoolSeason(eers: TwoSpeed<real>, u: TwoSpeedUnit, k: PosReal): seq<WeightedState> {
    CoolStates(CoolRatingPointsOf(eers, u, k), CoolingBins)
  }

  /** Seasonal efficiency over a bin table: delivered cooling over energy. */
  function SeasonalRatio(ws: seq<WeightedState>, cd: real): (seer: real)
    ensures SumCool(ws, cd).energy != 0.0 ==> seer == SumCool(ws, cd).delivered / SumCool(ws, cd).energy
  {
    var t := SumCool(ws, cd);
    Quot(t.delivered, t.energy)
  }

  /** SEER of a two-speed unit over the AHRI 210/240 cooling bins. */
  function CalcSeer2Speed(eers: TwoSpeed<real>, u: TwoSpeedUnit, k: PosReal): real {
    SeasonalRatio(CoolSeason(eers, u, k), u.cd)
  }

  /** Seasonal efficiency is at most the season's load per unit of energy. */
  lemma SeasonalRatioWithinLoad(ws: seq<WeightedState>, cd: real)
    requires NonNegativeStateWeights(ws)
    ensures SumCool(ws, cd).energy > 0.0 ==> SeasonalRatio(ws, cd) <= LoadTotal(ws) / SumCool(ws, cd).energy
  {
    SumCoolWithinLoad(ws, cd);
    var t := SumCool(ws, cd);
    if t.energy > 0.0 {
      DivMonotone(t.delivered, LoadTotal(ws), t.energy);
    }
  }

  /** The cooling season of any unit has eight bins of non-negative weight. */
  lemma CoolSeasonWeights(eers: TwoSpeed<real>, u: TwoSpeedUnit, k: PosReal)
    ensures |CoolSeason(eers, u, k)| == 8 && NonNegativeStateWeights(CoolSeason(eers, u, k))
  {
    CoolingBinsAreDistribution();
  }

  /** The two-speed SEER over the AHRI 210/240 cooling bins never exceeds the
      season's total load over the energy it uses: a unit cannot deliver
      more cooling than the load. */
  lemma CalcSeer2SpeedWithinLoad(eers: TwoSpeed<real>, u: TwoSpeedUnit, k: PosReal)
    ensures var ws := CoolSeason(eers, u, k);
            SumCool(ws, u.cd).energy > 0.0 ==> CalcSeer2Speed(eers, u, k) <= LoadTotal(ws) / SumCool(ws, u.cd).energy
  {
    CoolSeasonWeights(eers, u, k);
    SeasonalRatioWithinLoad(CoolSeason(eers, u, k), u.cd);
  }
}
