/** The coefficient library of the air-source heat pump and air conditioner
    model: curves keyed by compressor type, capacity ratios between speeds,
    rated airflow per ton, cycling degradation, and the heating-capacity
    retention fit that replaces a temperature curve for heating capacity. */
module CurveLibrary {
  import opened Wrappers
  import opened Arith
  import opened Curves

  /** Rated conditions, degrees F. */
  const HeatRatedODB: real := 47.0
  const HeatRatedIDB: real := 70.0
  const CoolRatedODB: real := 95.0
  const CoolRatedIWB: real := 67.0

  datatype CompressorType = SingleStage | TwoStage | VariableSpeed

  /** Capacity and EIR curves of one kind, one entry per speed. */
  datatype CurvePair<T> = CurvePair(cap: seq<T>, eir: seq<T>)

  function NumSpeeds(t: CompressorType): (n: nat)
    ensures 1 <= n <= 2
    ensures n == 1 <==> t == SingleStage
  {
    if t == SingleStage then 1 else 2
  }

  /** Cutler et al. cooling flow-fraction curves; also the airflow-fault curves. */
  const CutlerCoolCapFFlow: Quad := Quad(0.718664047, 0.41797409, -0.136638137)
  const CutlerCoolEirFFlow: Quad := Quad(1.143487507, -0.13943972, -0.004047787)
  /** Cutler et al. heating flow-fraction curves; also the airflow-fault curves. */
  const CutlerHeatCapFFlow: Quad := Quad(0.694045465, 0.474207981, -0.168253446)
  const CutlerHeatEirFFlow: Quad := Quad(2.185418751, -1.942827919, 0.757409168)

  const FlatQuad: Quad := Quad(1.0, 0.0, 0.0)

  /** Cooling capacity and EIR as functions of indoor wet bulb and outdoor dry
      bulb. There is no library curve for variable speed (its curves come from
      detailed performance data). Each library curve is within 5% of unity at
      the rated condition. */
  function CoolCapEirFtSpec(t: CompressorType): (r: Option<CurvePair<Biquad>>)
    ensures r.None? <==> t == VariableSpeed
    ensures r.Some? ==> |r.value.cap| == |r.value.eir| == NumSpeeds(t)
    ensures r.Some? ==> forall i :: 0 <= i < |r.value.cap| ==>
      Abs(Biquadratic(CoolRatedIWB, CoolRatedODB, r.value.cap[i]) - 1.0) <= 0.05
    ensures r.Some? ==> forall i :: 0 <= i < |r.value.eir| ==>
      Abs(Biquadratic(CoolRatedIWB, CoolRatedODB, r.value.eir[i]) - 1.0) <= 0.05
  {
    match t
    case SingleStage =>
      Some(CurvePair(
        [Biquad(3.68637657, -0.098352478, 0.000956357, 0.005838141, -0.0000127, -0.000131702)],
        [Biquad(-3.437356399, 0.136656369, -0.001049231, -0.0079378, 0.000185435, -0.0001441)]))
    case TwoStage =>
      Some(CurvePair(
        [Biquad(3.998418659, -0.108728222, 0.001056818, 0.007512314, -0.0000139, -0.000164716),
         Biquad(3.466810106, -0.091476056, 0.000901205, 0.004163355, -0.00000919, -0.000110829)],
        [Biquad(-4.282911381, 0.181023691, -0.001357391, -0.026310378, 0.000333282, -0.000197405),
         Biquad(-3.557757517, 0.112737397, -0.000731381, 0.013184877, 0.000132645, -0.000338716)]))
    case VariableSpeed => None
  }

  /** Cooling capacity and EIR as functions of the flow fraction. Variable
      speed has four flat curves. Every curve is within 0.001 of unity at the
      rated flow fraction 1. */
  function CoolCapEirFFlowSpec(t: CompressorType): (r: CurvePair<Quad>)
    ensures |r.cap| == |r.eir| == (if t == VariableSpeed then 4 else NumSpeeds(t))
    ensures forall i :: 0 <= i < |r.cap| ==> Abs(Quadratic(1.0, r.cap[i]) - 1.0) <= 0.001
    ensures forall i :: 0 <= i < |r.eir| ==> Abs(Quadratic(1.0, r.eir[i]) - 1.0) <= 0.001
  {
    match t
    case SingleStage => CurvePair([CutlerCoolCapFFlow], [CutlerCoolEirFFlow])
    case TwoStage =>
      CurvePair(
        [Quad(0.655239515, 0.511655216, -0.166894731), Quad(0.618281092, 0.569060264, -0.187341356)],
        [Quad(1.639108268, -0.998953996, 0.359845728), Quad(1.570774717, -0.914152018, 0.343377302)])
    case VariableSpeed =>
      CurvePair([FlatQuad, FlatQuad, FlatQuad, FlatQuad], [FlatQuad, FlatQuad, FlatQuad, FlatQuad])
  }

  /** Heating EIR as a function of indoor and outdoor dry bulb (the heating
      capacity curve is fitted from the retention, see CalcHeatCapFtSpec). */
  function HeatEirFtSpec(t: CompressorType): (r: Option<seq<Biquad>>)
    ensures r.None? <==> t == VariableSpeed
    ensures r.Some? ==> |r.value| == NumSpeeds(t)
    ensures r.Some? ==> forall i :: 0 <= i < |r.value| ==>
      Abs(Biquadratic(HeatRatedIDB, HeatRatedODB, r.value[i]) - 1.0) <= 0.05
  {
    match t
    case SingleStage =>
      Some([Biquad(0.718398423, 0.003498178, 0.000142202, -0.005724331, 0.00014085, -0.000215321)])
    case TwoStage =>
      Some([Biquad(0.36338171, 0.013523725, 0.000258872, -0.009450269, 0.000439519, -0.000653723),
            Biquad(0.981100941, -0.005158493, 0.000243416, -0.005274352, 0.000230742, -0.000336954)])
    case VariableSpeed => None
  }

  /** Heating capacity and EIR as functions of the flow fraction. */
  function HeatCapEirFFlowSpec(t: CompressorType): (r: CurvePair<Quad>)
    ensures |r.cap| == |r.eir| == (if t == VariableSpeed then 4 else NumSpeeds(t))
    ensures forall i :: 0 <= i < |r.cap| ==> Abs(Quadratic(1.0, r.cap[i]) - 1.0) <= 0.001
    ensures forall i :: 0 <= i < |r.eir| ==> Abs(Quadratic(1.0, r.eir[i]) - 1.0) <= 0.001
  {
    match t
    case SingleStage => CurvePair([CutlerHeatCapFFlow], [CutlerHeatEirFFlow])
    case TwoStage =>
      CurvePair(
        [Quad(0.741466907, 0.378645444, -0.119754733), Quad(0.76634609, 0.32840943, -0.094701495)],
        [Quad(2.153618211, -1.737190609, 0.584269478), Quad(2.001041353, -1.58869128, 0.587593517)])
    case VariableSpeed =>
      CurvePair([FlatQuad, FlatQuad, FlatQuad, FlatQuad], [FlatQuad, FlatQuad, FlatQuad, FlatQuad])
  }

  /** Capacity ratios between speeds, minimum first. */
  predicate ValidCapacityRatios(r: seq<real>) {
    && 1 <= |r|
    && r[|r| - 1] == 1.0
    && (forall i :: 0 <= i < |r| ==> 0.0 < r[i] <= 1.0)
    && (forall i, j :: 0 <= i < j < |r| ==> r[i] < r[j])
  }

  /** A missing compressor type (None) is the source's failure branch. */
  function CoolCapacityRatios(t: Option<CompressorType>, ducted: bool): (r: Result<seq<real>>)
    ensures r.Fail? <==> t.None?
    ensures r.Ok? ==> |r.value| == NumSpeeds(t.value) && ValidCapacityRatios(r.value)
  {
    match t
    case None => Fail("Unable to get cooling capacity ratios.")
    case Some(SingleStage) => Ok([1.0])
    case Some(TwoStage) => Ok([0.72, 1.0])
    case Some(VariableSpeed) => if ducted then Ok([0.394, 1.0]) else Ok([0.255, 1.0])
  }

  /** Heating capacity ratios; the variable-speed minimum depends on whether
      the unit is a ducted central air-to-air heat pump, a ductless (wall)
      unit, or a ducted mini-split. */
  function HeatCapacityRatios(t: Option<CompressorType>, ducted: bool, airToAir: bool): (r: Result<seq<real>>)
    ensures r.Fail? <==> t.None?
    ensures r.Ok? ==> |r.value| == NumSpeeds(t.value) && ValidCapacityRatios(r.value)
  {
    match t
    case None => Fail("Unable to get heating capacity ratios.")
    case Some(SingleStage) => Ok([1.0])
    case Some(TwoStage) => Ok([0.72, 1.0])
    case Some(VariableSpeed) =>
      if ducted && airToAir then Ok([0.358, 1.0])
      else if !ducted then Ok([0.252, 1.0])
      else Ok([0.305, 1.0])
  }

  /** Rated airflow per ton of rated capacity, one entry per speed. The
      single-stage value is lower when the unit is specified by EER/COP. */
  function CoolCfmPerTon(t: Option<CompressorType>, useEer: bool): (r: Result<seq<real>>)
    ensures r.Fail? <==> t.None?
    ensures r.Ok? ==> |r.value| == NumSpeeds(t.value)
    ensures r.Ok? ==> forall i :: 0 <= i < |r.value| ==> 300.0 <= r.value[i] <= 420.0
  {
    match t
    case None => Fail("Compressor type not supported.")
    case Some(SingleStage) => if !useEer then Ok([394.2]) else Ok([312.0])
    case Some(TwoStage) => Ok([411.0083, 344.1])
    case Some(VariableSpeed) => Ok([400.0, 400.0])
  }

  function HeatCfmPerTon(t: Option<CompressorType>, useCop: bool): (r: Result<seq<real>>)
    ensures r.Fail? <==> t.None?
    ensures r.Ok? ==> |r.value| == NumSpeeds(t.value)
    ensures r.Ok? ==> forall i :: 0 <= i < |r.value| ==> 300.0 <= r.value[i] <= 420.0
  {
    match t
    case None => Fail("Compressor type not supported.")
    case Some(SingleStage) => if !useCop then Ok([384.1]) else Ok([350.0])
    case Some(TwoStage) => Ok([391.3333, 352.2])
    case Some(VariableSpeed) => Ok([400.0, 400.0])
  }

  /** Airflow of each speed as a fraction of the rated airflow. */
  function FanSpeedRatios(capacityRatios: seq<real>, cfmPerTon: seq<real>, ratedAirflow: real): (r: seq<real>)
    requires |cfmPerTon| >= |capacityRatios|
    requires ratedAirflow != 0.0
    ensures |r| == |capacityRatios|
    ensures forall i :: 0 <= i < |r| ==> r[i] * ratedAirflow == cfmPerTon[i] * capacityRatios[i]
  {
    seq(|capacityRatios|, i requires 0 <= i < |capacityRatios| => cfmPerTon[i] * capacityRatios[i] / ratedAirflow)
  }

  /** The rated airflow is the first cfm/ton entry for single stage and the
      last otherwise; with the library ratios, the top speed then runs at
      exactly the rated airflow and every speed at a positive fraction of it. */
  lemma {:induction false} LibraryFanSpeedRatios(t: CompressorType, ducted: bool, airToAir: bool, useRated: bool)
    ensures var cr := HeatCapacityRatios(Some(t), ducted, airToAir).value;
            var cfm := HeatCfmPerTon(Some(t), useRated).value;
            var rated := if t == SingleStage then cfm[0] else cfm[|cfm| - 1];
            var f := FanSpeedRatios(cr, cfm, rated);
            f[|f| - 1] == 1.0 && forall i :: 0 <= i < |f| ==> f[i] > 0.0
    ensures var cr := CoolCapacityRatios(Some(t), ducted).value;
            var cfm := CoolCfmPerTon(Some(t), useRated).value;
            var rated := if t == SingleStage then cfm[0] else cfm[|cfm| - 1];
            var f := FanSpeedRatios(cr, cfm, rated);
            f[|f| - 1] == 1.0 && forall i :: 0 <= i < |f| ==> f[i] > 0.0
  {
    var hc := HeatCapacityRatios(Some(t), ducted, airToAir).value;
    var hf := HeatCfmPerTon(Some(t), useRated).value;
    TopSpeedRatio(hc, hf);
    var cc := CoolCapacityRatios(Some(t), ducted).value;
    var cf := CoolCfmPerTon(Some(t), useRated).value;
    TopSpeedRatio(cc, cf);
  }

  lemma TopSpeedRatio(cr: seq<real>, cfm: seq<real>)
    requires ValidCapacityRatios(cr) && |cfm| == |cr|
    requires forall i :: 0 <= i < |cfm| ==> cfm[i] > 0.0
    ensures var f := FanSpeedRatios(cr, cfm, cfm[|cfm| - 1]);
            f[|f| - 1] == 1.0 && forall i :: 0 <= i < |f| ==> f[i] > 0.0
  {
    var rated := cfm[|cfm| - 1];
    var f := FanSpeedRatios(cr, cfm, rated);
    forall i | 0 <= i < |f| ensures f[i] > 0.0 {
      assert f[i] * rated == cfm[i] * cr[i];
      assert cfm[i] * cr[i] > 0.0;
    }
  }

  /** Equipment families that set the cycling degradation coefficient. */
  datatype Equipment = RoomOrPackaged | Central

  /** Cooling degradation coefficient c_d. Room air conditioners, PTACs,
      PTHPs and room heat pumps use 0.22; otherwise it depends on the
      compressor type and, for single stage, on SEER (below 13 is older
      equipment with more cycling loss). */
  function CoolCd(e: Equipment, t: CompressorType, seer: real): (cd: real)
    ensures e == RoomOrPackaged ==> cd == 0.22
    ensures 0.07 <= cd <= 0.25
    ensures e == Central && t == SingleStage ==> (cd == 0.20 <==> seer < 13.0)
  {
    if e == RoomOrPackaged then 0.22
    else match t
      case SingleStage => if seer < 13.0 then 0.20 else 0.07
      case TwoStage => 0.11
      case VariableSpeed => 0.25
  }

  /** Heating degradation coefficient; only PTHPs and room heat pumps are
      in the packaged family for heating. */
  function HeatCd(e: Equipment, t: CompressorType, hspf: real): (cd: real)
    ensures e == RoomOrPackaged ==> cd == 0.22
    ensures 0.11 <= cd <= 0.25
    ensures e == Central && t == SingleStage ==> (cd == 0.20 <==> hspf < 7.0)
  {
    if e == RoomOrPackaged then 0.22
    else match t
      case SingleStage => if hspf < 7.0 then 0.20 else 0.11
      case TwoStage => 0.11
      case VariableSpeed => 0.25
  }

  /** The linear part-load-fraction curve: full load gives 1, and the curve
      loses c_d of efficiency at zero load. */
  function PlfCoefficients(cd: real): (q: Quad)
    ensures forall plr: real :: Quadratic(plr, q) == 1.0 - cd * (1.0 - plr)
    ensures Quadratic(1.0, q) == 1.0
  {
    Quad(1.0 - cd, cd, 0.0)
  }

  /** One part-load curve per modelled speed. */
  function PlfSpec(cd: real, t: CompressorType): (r: seq<Quad>)
    ensures |r| == NumSpeeds(t)
    ensures forall i :: 0 <= i < |r| ==> forall plr: real :: Quadratic(plr, r[i]) == 1.0 - cd * (1.0 - plr)
  {
    seq(NumSpeeds(t), _ => PlfCoefficients(cd))
  }

  /** Heating capacity retained at a low outdoor temperature. */
  datatype Retention = Retention(temp: real, fraction: real)

  /** Default retention at 5 F: a fixed fraction for single and two stage, a
      line in HSPF for variable speed (the source also rounds it to four
      places). */
  function DefaultHeatingCapacityRetention(t: CompressorType, hspf: real): (r: Retention)
    ensures r.temp == 5.0
    ensures t != VariableSpeed ==> r.fraction == 0.425
    ensures t == VariableSpeed && hspf >= 8.0 ==> r.fraction >= 0.528
  {
    if t == VariableSpeed then Retention(5.0, 0.0461 * hspf + 0.1594)
    else Retention(5.0, 0.425)
  }

  /** The retention the unit is described by: a 17 F capacity wins over an
      explicit retention; a zero rated capacity gives fraction 0. */
  function HeatingCapacityRetention(capacity: real, capacity17F: Option<real>, given: Option<Retention>): (r: Result<Retention>)
    ensures r.Fail? <==> capacity17F.None? && given.None?
    ensures capacity17F.Some? ==> r.Ok? && r.value.temp == 17.0
    ensures capacity17F.Some? && capacity != 0.0 ==> r.value.fraction * capacity == capacity17F.value
    ensures capacity17F.None? && given.Some? ==> r == Ok(given.value)
  {
    if capacity17F.Some? then
      Ok(Retention(17.0, if capacity == 0.0 then 0.0 else capacity17F.value / capacity))
    else if given.Some? then Ok(given.value)
    else Fail("Missing heating capacity retention or 17F heating capacity.")
  }

  /** Slope and intercept of the capacity-retention line in outdoor
      temperature: through (retention temp, fraction) and (47 F, 1). */
  function OatSlope(ret: Retention): real
    requires ret.temp != HeatRatedODB
  {
    (1.0 - ret.fraction) / (HeatRatedODB - ret.temp)
  }

  function OatIntercept(ret: Retention): real
    requires ret.temp != HeatRatedODB
  {
    ret.fraction - ret.temp * OatSlope(ret)
  }

  lemma RetentionLineInterpolates(ret: Retention)
    requires ret.temp != HeatRatedODB
    ensures OatSlope(ret) * HeatRatedODB + OatIntercept(ret) == 1.0
    ensures OatSlope(ret) * ret.temp + OatIntercept(ret) == ret.fraction
  {
    var s := OatSlope(ret);
    assert s * (HeatRatedODB - ret.temp) == 1.0 - ret.fraction;
  }

  /** Indoor-temperature slope and intercept of the fitted heating capacity
      curve; undefined (None) for variable speed, where the source has no
      branch and fails on the missing value. */
  function IatTerms(t: CompressorType): Option<(real, real)>
  {
    match t
    case SingleStage => Some((-0.002303414, 0.18417308))
    case TwoStage => Some((-0.002947013, 0.23168251))
    case VariableSpeed => None
  }

  /** Heating capacity as a function of indoor and outdoor temperature,
      fitted so the outdoor-temperature part passes through the retention
      point and through 1 at 47 F. One identical row per speed; the squared
      and cross terms are zero. */
  function CalcHeatCapFtSpec(t: CompressorType, ret: Retention): (r: Result<seq<Biquad>>)
    requires ret.temp != HeatRatedODB
    ensures r.Fail? <==> t == VariableSpeed
    ensures r.Ok? ==> |r.value| == NumSpeeds(t)
    ensures r.Ok? ==> forall i :: 0 <= i < |r.value| ==> r.value[i] == r.value[0]
    ensures r.Ok? ==> forall i :: 0 <= i < |r.value| ==>
      r.value[i].xx == 0.0 && r.value[i].yy == 0.0 && r.value[i].xy == 0.0
    ensures r.Ok? ==> forall iat: real, i :: 0 <= i < |r.value| ==>
      Biquadratic(iat, HeatRatedODB, r.value[i]) - Biquadratic(iat, ret.temp, r.value[i]) == 1.0 - ret.fraction
  {
    match IatTerms(t)
    case None => Fail("Unable to fit a heating capacity curve for this compressor type.")
    case Some((iatSlope, iatIntercept)) =>
      RetentionLineInterpolates(ret);
      var row := Biquad(OatIntercept(ret) + iatIntercept, iatSlope, 0.0, OatSlope(ret), 0.0, 0.0);
      Ok(seq(NumSpeeds(t), _ => row))
  }

  /** Capacity maintenance at 5 F: the retention line evaluated at 5 F. */
  function MaxCapacityMaintenance5(ret: Retention): (m: real)
    requires ret.temp != HeatRatedODB
    ensures m == OatSlope(ret) * 5.0 + OatIntercept(ret)
    ensures ret.temp == 5.0 ==> m == ret.fraction
  {
    var m := 1.0 - (1.0 - ret.fraction) * (HeatRatedODB - 5.0) / (HeatRatedODB - ret.temp);
    assert m == OatSlope(ret) * 5.0 + OatIntercept(ret) by {
      var s := OatSlope(ret);
      assert (1.0 - ret.fraction) * (HeatRatedODB - 5.0) / (HeatRatedODB - ret.temp) == s * (HeatRatedODB - 5.0);
      RetentionLineInterpolates(ret);
    }
    m
  }

  /** Ratio of the rated capacity to the maximum-speed capacity at the
      rating point: heating depends on ducting, cooling is 1. */
  function HeatCapacityRatioMaxToRated(ducted: bool): (r: real)
    ensures 0.8 < r < 1.0
  {
    if ducted then 0.972 else 0.812
  }

  const CoolCapacityRatioMaxToRated: real := 1.0
}
