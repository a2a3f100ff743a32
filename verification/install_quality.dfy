/** The installation-quality fault model: how a refrigerant charge defect and
    an airflow defect scale a coil's capacity and EIR flow-fraction curves.
    The source writes this arithmetic into an EnergyPlus EMS program that
    runs every zone time step; here it is a function of the same inputs (the
    indoor and outdoor temperatures being the program's sensor values). */
module InstallQuality {
  import opened Wrappers
  import opened Arith
  import opened Curves
  import opened CurveLibrary
  import opened DetailedData

  /** Coefficients of a charge-fault term: constant, indoor temperature,
      outdoor temperature and charge defect. */
  datatype ChargeCoeffs = ChargeCoeffs(c1: real, c2: real, c3: real, c4: real)

  /** The capacity (qgr) and power (p) coefficients and the rated indoor and
      outdoor temperatures (C) at which the charge-flow factor is taken. */
  datatype ChargeFaultCoeffs = ChargeFaultCoeffs(qgr: ChargeCoeffs, p: ChargeCoeffs, ratedIndoor: real, ratedOutdoor: real)

  /** The charge-fault coefficients: one set for undercharge (a defect ratio
      of zero or below) and one for overcharge, per mode. The heating sets have
      no indoor-temperature term. */
  function ChargeFaultCoeff(mode: Mode, fChg: real): (r: ChargeFaultCoeffs)
    ensures mode == Heating ==> r.qgr.c2 == 0.0 && r.p.c2 == 0.0 && r.ratedIndoor == 0.0 && r.ratedOutdoor == 8.33
    ensures mode == Cooling ==> r.ratedIndoor == 26.67 && r.ratedOutdoor == 35.0
  {
    match mode
    case Cooling =>
      if fChg <= 0.0 then
        ChargeFaultCoeffs(ChargeCoeffs(-0.946, 0.0493, -0.00118, -1.15),
                          ChargeCoeffs(-0.313, 0.0115, 0.00266, -0.116), 26.67, 35.0)
      else
        ChargeFaultCoeffs(ChargeCoeffs(-0.163, 0.0114, -0.00021, -0.14),
                          ChargeCoeffs(0.219, -0.00501, 0.000989, 0.284), 26.67, 35.0)
    case Heating =>
      if fChg <= 0.0 then
        ChargeFaultCoeffs(ChargeCoeffs(-0.0338595, 0.0, 0.0202827, -2.6226343),
                          ChargeCoeffs(0.0615649, 0.0, 0.0044554, -0.2598507), 0.0, 8.33)
      else
        ChargeFaultCoeffs(ChargeCoeffs(-0.0029514, 0.0, 0.0007379, -0.0064112),
                          ChargeCoeffs(-0.0594134, 0.0, 0.0159205, 1.8872153), 0.0, 8.33)
  }

  /** Only the sign of the charge defect selects the coefficients: every
      undercharge (or no defect) shares one set, every overcharge the
      other. */
  lemma ChargeCoeffBySign(mode: Mode, f1: real, f2: real)
    requires (f1 <= 0.0) == (f2 <= 0.0)
    ensures ChargeFaultCoeff(mode, f1) == ChargeFaultCoeff(mode, f2)
  {
  }

  /** (c1 + c2 tin + c3 tout + c4 f) f: the charge defect's relative change. */
  function ChargeTerm(c: ChargeCoeffs, tin: real, tout: real, f: real): (r: real)
    ensures f == 0.0 ==> r == 0.0
  {
    (c.c1 + c.c2 * tin + c.c3 * tout + c.c4 * f) * f
  }

  /** Y_CH_Q: the charge fault's capacity factor. */
  function ChargeCapacityFactor(k: ChargeFaultCoeffs, tin: real, tout: real, f: real): real {
    1.0 + ChargeTerm(k.qgr, tin, tout, f)
  }

  /** The power factor 1 + (p terms) f, the divisor of Y_CH_COP. */
  function ChargePowerFactor(k: ChargeFaultCoeffs, tin: real, tout: real, f: real): real {
    1.0 + ChargeTerm(k.p, tin, tout, f)
  }

  /** FF_CH: the airflow fraction equivalent to the charge fault, the inverse
      of the capacity factor at the rated temperatures. Where that factor is
      0 the source's value is infinite and is written into the program as
      such; the model fails instead. */
  function ChargeFlowFactor(k: ChargeFaultCoeffs, f: real): (r: Result<real>)
    ensures r.Ok? <==> ChargeCapacityFactor(k, k.ratedIndoor, k.ratedOutdoor, f) != 0.0
    ensures r.Ok? ==> r.value * ChargeCapacityFactor(k, k.ratedIndoor, k.ratedOutdoor, f) == 1.0
    ensures f == 0.0 ==> r == Ok(1.0)
  {
    var y := ChargeCapacityFactor(k, k.ratedIndoor, k.ratedOutdoor, f);
    if y == 0.0 then Fail("charge flow factor is infinite") else Ok(1.0 / y)
  }

  /** The Cutler airflow curves of the mode: capacity and EIR against the
      flow fraction. */
  function AirflowCurves(mode: Mode): (r: (Quad, Quad))
    ensures Quadratic(1.0, r.0) == 1.0 && Quadratic(1.0, r.1) == 1.0
  {
    match mode
    case Cooling => (CutlerCoolCapFFlow, CutlerCoolEirFFlow)
    case Heating => (CutlerHeatCapFFlow, CutlerHeatEirFFlow)
  }

  /** The state of the fault program for one speed: the flow fraction the
      coil would see without its airflow defect (FF_AF_nodef) and the
      capacity and EIR adjustments (CAP_IQ_adj, EIR_IQ_adj). */
  datatype FaultState = FaultState(ffNodef: real, capAdj: real, eirAdj: real)

  /** The charge factors at the sensor temperatures and FF_CH, or the failure
      of a zero divisor. */
  datatype ChargeFactors = ChargeFactors(capFactor: real, copFactor: real, flow: real)

  function ChargeFactorsAt(mode: Mode, fChg: real, tin: real, tout: real): (r: Result<ChargeFactors>)
    ensures r.Ok? ==> r.value.capFactor == ChargeCapacityFactor(ChargeFaultCoeff(mode, fChg), tin, tout, fChg)
    ensures r.Ok? ==> ChargeFlowFactor(ChargeFaultCoeff(mode, fChg), fChg) == Ok(r.value.flow)
    ensures r.Ok? ==> r.value.copFactor * ChargePowerFactor(ChargeFaultCoeff(mode, fChg), tin, tout, fChg) == r.value.capFactor
    ensures fChg == 0.0 ==> r == Ok(ChargeFactors(1.0, 1.0, 1.0))
  {
    var k := ChargeFaultCoeff(mode, fChg);
    var yq := ChargeCapacityFactor(k, tin, tout, fChg);
    var pw := ChargePowerFactor(k, tin, tout, fChg);
    var ff := ChargeFlowFactor(k, fChg);
    if pw == 0.0 || ff.Fail? then Fail("division by zero in the charge fault")
    else Ok(ChargeFactors(yq, yq / pw, ff.value))
  }

  /** The adjustments of one speed. ratedDefect is the speed's airflow over
      the coil's rated airflow, less one; defect is the airflow defect ratio
      of the installation. Every zero divisor is a failure. */
  function FaultAdjustment(mode: Mode, fChg: real, tin: real, tout: real, ratedDefect: real, defect: real): (r: Result<FaultState>)
    ensures r.Ok? ==> r.value.ffNodef * (1.0 + defect) == 1.0 + ratedDefect
  {
    var ch := ChargeFactorsAt(mode, fChg, tin, tout);
    if ch.Fail? then Fail(ch.reason)
    else
      var (capCurve, eirCurve) := AirflowCurves(mode);
      Adjust(ch.value, capCurve, eirCurve, ratedDefect, defect)
  }

  /** The fault program's steps from the charge factors, with the airflow
      curves of the mode. */
  function Adjust(c: ChargeFactors, capCurve: Quad, eirCurve: Quad, ratedDefect: real, defect: real): (r: Result<FaultState>)
    ensures r.Ok? ==> r.value.ffNodef * (1.0 + defect) == 1.0 + ratedDefect
  {
    if 1.0 + defect == 0.0 then Fail("division by zero in the fault program")
    else
      var ffAf := 1.0 + ratedDefect;                       // FF_AF
      var qAfCh := Quadratic(c.flow, capCurve);            // q_AF_CH
      var eirAfCh := Quadratic(c.flow, eirCurve);          // eir_AF_CH
      var ffComb := c.flow * ffAf;                         // FF_AF_comb
      var eirComb := Quadratic(ffComb, eirCurve);
      var ffNodef := ffAf / (1.0 + defect);                // FF_AF_nodef
      var capPre := Quadratic(ffNodef, capCurve);          // CAP_Cutler_Curve_Pre
      var eirPre := Quadratic(ffNodef, eirCurve);          // EIR_Cutler_Curve_Pre
      if qAfCh == 0.0 || eirComb == 0.0 || capPre == 0.0 || eirPre == 0.0 then
        Fail("division by zero in the fault program")
      else
        var pChQ := c.capFactor / qAfCh;                   // p_CH_Q
        var pChCop := c.copFactor * eirAfCh;               // p_CH_COP
        var pAfQ := Quadratic(ffComb, capCurve);           // p_AF_Q
        var pAfCop := 1.0 / eirComb;                       // p_AF_COP
        if pChCop * pAfCop == 0.0 then Fail("division by zero in the fault program")
        else
          var capAfter := pChQ * pAfQ;                     // CAP_Cutler_Curve_After
          var eirAfter := 1.0 / (pChCop * pAfCop);         // EIR_Cutler_Curve_After
          Ok(FaultState(ffNodef, capAfter / capPre, eirAfter / eirPre))
  }

  /** Without a charge defect or an airflow defect the program leaves the
      curves alone: both adjustments are 1. */
  lemma NoFaultNoAdjustment(mode: Mode, tin: real, tout: real)
    ensures FaultAdjustment(mode, 0.0, tin, tout, 0.0, 0.0) == Ok(FaultState(1.0, 1.0, 1.0))
  {
    var (capCurve, eirCurve) := AirflowCurves(mode);
    AdjustAtUnity(capCurve, eirCurve);
  }

  /** Curves through (1, 1) with unit charge factors and no airflow defect
      give unit adjustments. */
  lemma AdjustAtUnity(capCurve: Quad, eirCurve: Quad)
    requires Quadratic(1.0, capCurve) == 1.0 && Quadratic(1.0, eirCurve) == 1.0
    ensures Adjust(ChargeFactors(1.0, 1.0, 1.0), capCurve, eirCurve, 0.0, 0.0) == Ok(FaultState(1.0, 1.0, 1.0))
  {
    assert 1.0 * (1.0 + 0.0) == 1.0;
    assert (1.0 + 0.0) / (1.0 + 0.0) == 1.0;
  }

  /** With the airflow as designed (no airflow defect, and the speed at its
      rated airflow), the capacity adjustment is exactly the charge fault's
      capacity factor and the EIR adjustment the inverse of its COP factor. */
  lemma ChargeOnlyAdjustment(mode: Mode, fChg: real, tin: real, tout: real)
    requires FaultAdjustment(mode, fChg, tin, tout, 0.0, 0.0).Ok?
    ensures var s := FaultAdjustment(mode, fChg, tin, tout, 0.0, 0.0).value;
            var c := ChargeFactorsAt(mode, fChg, tin, tout).value;
            s.capAdj == c.capFactor && s.eirAdj * c.copFactor == 1.0
  {
    var c := ChargeFactorsAt(mode, fChg, tin, tout).value;
    var (capCurve, eirCurve) := AirflowCurves(mode);
    AdjustChargeOnly(c, capCurve, eirCurve);
  }

  lemma AdjustChargeOnly(c: ChargeFactors, capCurve: Quad, eirCurve: Quad)
    requires Quadratic(1.0, capCurve) == 1.0 && Quadratic(1.0, eirCurve) == 1.0
    requires Adjust(c, capCurve, eirCurve, 0.0, 0.0).Ok?
    ensures var s := Adjust(c, capCurve, eirCurve, 0.0, 0.0).value;
            s.capAdj == c.capFactor && s.eirAdj * c.copFactor == 1.0
  {
    assert c.flow * (1.0 + 0.0) == c.flow;
    assert (1.0 + 0.0) / (1.0 + 0.0) == 1.0;
    var qAfCh := Quadratic(c.flow, capCurve);
    var eirAfCh := Quadratic(c.flow, eirCurve);
    CancelQuotient(c.capFactor, qAfCh);
    InverseProduct(c.copFactor, eirAfCh);
  }

  /** (a / q) * q == a for q != 0. */
  lemma CancelQuotient(a: real, q: real)
    requires q != 0.0
    ensures (a / q) * q == a
  {
  }

  /** (c e) (1 / e) == c for e != 0. */
  lemma InverseProduct(c: real, e: real)
    requires e != 0.0
    ensures (c * e) * (1.0 / e) == c
  {
  }

  /** A negative curve result is replaced by 1. */
  function ClampNegative(v: real): (r: real)
    ensures r >= 0.0
    ensures v >= 0.0 ==> r == v
    ensures v < 0.0 ==> r == 1.0
  {
    if v < 0.0 then 1.0 else v
  }

  /** The actuated capacity and EIR curve values of a DX coil: its own
      flow-fraction curves at the defect-free flow fraction, times the
      adjustments, with negative results replaced by 1. */
  function DxActuators(capSpec: Quad, eirSpec: Quad, s: FaultState): (r: (real, real))
    ensures r.0 >= 0.0 && r.1 >= 0.0
    ensures Quadratic(s.ffNodef, capSpec) * s.capAdj >= 0.0 ==> r.0 == Quadratic(s.ffNodef, capSpec) * s.capAdj
    ensures Quadratic(s.ffNodef, eirSpec) * s.eirAdj >= 0.0 ==> r.1 == Quadratic(s.ffNodef, eirSpec) * s.eirAdj
    ensures Quadratic(s.ffNodef, capSpec) * s.capAdj < 0.0 ==> r.0 == 1.0
    ensures Quadratic(s.ffNodef, eirSpec) * s.eirAdj < 0.0 ==> r.1 == 1.0
  {
    (ClampNegative(Quadratic(s.ffNodef, capSpec) * s.capAdj),
     ClampNegative(Quadratic(s.ffNodef, eirSpec) * s.eirAdj))
  }

  /** A quad-linear equation-fit curve: constant, and the terms of its four
      inputs (the third being the flow fraction). */
  datatype QuadLinear = QuadLinear(c1: real, c2: real, c3: real, c4: real, c5: real)

  function QuadLinearAt(q: QuadLinear, v1: real, v2: real, flow: real, v4: real): real {
    q.c1 + q.c2 * v1 + q.c3 * v2 + q.c4 * flow + q.c5 * v4
  }

  /** The actuated curve values of a water-to-air heat pump coil, whose curves
      take the flow fraction as one of four inputs (v1, v2, v4 are the other
      inputs' current values). Its power curve scales with both adjustments,
      since it gives power rather than EIR. */
  function WaterToAirActuators(cap: QuadLinear, pow: QuadLinear, v1: real, v2: real, v4: real, s: FaultState): (r: (real, real))
    ensures r.0 >= 0.0 && r.1 >= 0.0
    ensures s.capAdj == 1.0 && s.eirAdj == 1.0 ==>
              (QuadLinearAt(cap, v1, v2, s.ffNodef, v4) >= 0.0 ==> r.0 == QuadLinearAt(cap, v1, v2, s.ffNodef, v4)) &&
              (QuadLinearAt(pow, v1, v2, s.ffNodef, v4) >= 0.0 ==> r.1 == QuadLinearAt(pow, v1, v2, s.ffNodef, v4))
    ensures var v := QuadLinearAt(cap, v1, v2, s.ffNodef, v4) * s.capAdj;
            (v >= 0.0 ==> r.0 == v) && (v < 0.0 ==> r.0 == 1.0)
    ensures var w := QuadLinearAt(pow, v1, v2, s.ffNodef, v4) * s.eirAdj * s.capAdj;
            (w >= 0.0 ==> r.1 == w) && (w < 0.0 ==> r.1 == 1.0)
  {
    (ClampNegative(QuadLinearAt(cap, v1, v2, s.ffNodef, v4) * s.capAdj),
     ClampNegative(QuadLinearAt(pow, v1, v2, s.ffNodef, v4) * s.eirAdj * s.capAdj))
  }

  /** A defect the source reads from a missing value is 0. */
  function OrZero(x: Option<real>): real {
    if x.Some? then x.value else 0.0
  }

  /** The fault program is built unless the charge defect and both airflow
      defects are all below 0.001 in magnitude. */
  function FaultProgramNeeded(charge: Option<real>, coolDefect: Option<real>, heatDefect: Option<real>): (r: bool)
    ensures !r <==> Abs(OrZero(charge)) < 0.001 && Abs(OrZero(coolDefect)) < 0.001 && Abs(OrZero(heatDefect)) < 0.001
  {
    !(Abs(OrZero(charge)) < 0.001 && Abs(OrZero(coolDefect)) < 0.001 && Abs(OrZero(heatDefect)) < 0.001)
  }

  /** A system without any recorded defect gets no fault program, and one with
      a defect of 0.001 or more in any of the three always gets one; a
      recorded defect smaller than that counts as none. */
  lemma FaultProgramThreshold(charge: Option<real>, coolDefect: Option<real>, heatDefect: Option<real>)
    ensures charge.None? && coolDefect.None? && heatDefect.None? ==> !FaultProgramNeeded(charge, coolDefect, heatDefect)
    ensures FaultProgramNeeded(charge, coolDefect, heatDefect) <==>
              (charge.Some? && Abs(charge.value) >= 0.001) || (coolDefect.Some? && Abs(coolDefect.value) >= 0.001) ||
              (heatDefect.Some? && Abs(heatDefect.value) >= 0.001)
    ensures ((charge.Some? && Abs(charge.value) >= 0.001) || (coolDefect.Some? && Abs(coolDefect.value) >= 0.001) ||
             (heatDefect.Some? && Abs(heatDefect.value) >= 0.001)) ==> FaultProgramNeeded(charge, coolDefect, heatDefect)
  {
  }

  /** The airflow of each speed relative to that speed's rated airflow, less
      one: the coil's airflow (cfm) times the speed's fan speed ratio,
      converted by k (m3/s per cfm), over the stage's rated airflow. A speed
      without a fan speed ratio, or a rated airflow of zero, is a failure. */
  function RatedDefectRatios(cfm: real, speedRatios: seq<real>, ratedFlows: seq<real>, k: PosReal): (r: Result<seq<real>>)
    ensures r.Ok? <==> |speedRatios| >= |ratedFlows| && forall i :: 0 <= i < |ratedFlows| ==> ratedFlows[i] != 0.0
    ensures r.Ok? ==> |r.value| == |ratedFlows|
    ensures r.Ok? ==> forall i :: 0 <= i < |ratedFlows| ==> (r.value[i] + 1.0) * ratedFlows[i] == cfm * speedRatios[i] * k
  {
    if |speedRatios| < |ratedFlows| then Fail("no fan speed ratio for a stage")
    else if !(forall i :: 0 <= i < |ratedFlows| ==> ratedFlows[i] != 0.0) then Fail("zero rated airflow")
    else
      Ok(seq(|ratedFlows|, i requires 0 <= i < |ratedFlows| => DefectRatio(cfm, speedRatios[i], k, ratedFlows[i])))
  }

  /** One speed's airflow over its rated airflow, less one. */
  function DefectRatio(cfm: real, speedRatio: real, k: PosReal, rated: real): (r: real)
    ensures rated != 0.0 ==> (r + 1.0) * rated == cfm * speedRatio * k
  {
    Quot(cfm * speedRatio * k, rated) - 1.0
  }

  /** A speed running at exactly its rated airflow has no rated defect. */
  lemma RatedAirflowNoDefect(cfm: real, speedRatios: seq<real>, ratedFlows: seq<real>, k: PosReal, i: int)
    requires RatedDefectRatios(cfm, speedRatios, ratedFlows, k).Ok? && 0 <= i < |ratedFlows|
    requires cfm * speedRatios[i] * k == ratedFlows[i]
    ensures RatedDefectRatios(cfm, speedRatios, ratedFlows, k).value[i] == 0.0
  {
    var r := RatedDefectRatios(cfm, speedRatios, ratedFlows, k).value;
    assert (r[i] + 1.0) * ratedFlows[i] == 1.0 * ratedFlows[i];
    ProductCancelNonZero(r[i] + 1.0, 1.0, ratedFlows[i]);
  }

  /** Cancelling a non-zero factor. */
  lemma ProductCancelNonZero(x: real, y: real, c: real)
    requires c != 0.0 && x * c == y * c
    ensures x == y
  {
    assert (x - y) * c == 0.0;
  }

  /** The fault state of every speed from the coil's charge factors, one
      rated-airflow defect per speed. */
  function SpeedAdjustments(c: ChargeFactors, capCurve: Quad, eirCurve: Quad, ratedDefects: seq<real>, defect: real): (r: Result<seq<FaultState>>)
    ensures r.Ok? <==> forall i :: 0 <= i < |ratedDefects| ==> Adjust(c, capCurve, eirCurve, ratedDefects[i], defect).Ok?
    ensures r.Ok? ==> |r.value| == |ratedDefects|
    ensures r.Ok? ==> forall i :: 0 <= i < |ratedDefects| ==>
              r.value[i] == Adjust(c, capCurve, eirCurve, ratedDefects[i], defect).value
    decreases |ratedDefects|
  {
    if |ratedDefects| == 0 then Ok([])
    else
      var first := Adjust(c, capCurve, eirCurve, ratedDefects[0], defect);
      if first.Fail? then Fail(first.reason)
      else
        var rest := SpeedAdjustments(c, capCurve, eirCurve, ratedDefects[1..], defect);
        assert forall i :: 1 <= i < |ratedDefects| ==> ratedDefects[1..][i - 1] == ratedDefects[i];
        if rest.Fail? then Fail(rest.reason) else Ok([first.value] + rest.value)
  }

  /** The fault state of every speed of a coil: the charge factors are
      computed once, then each speed is adjusted with the mode's airflow
      curves. */
  function SpeedStates(mode: Mode, fChg: real, tin: real, tout: real, ratedDefects: seq<real>, defect: real): (r: Result<seq<FaultState>>)
    ensures r.Ok? ==> ChargeFactorsAt(mode, fChg, tin, tout).Ok? && |r.value| == |ratedDefects|
    ensures r.Ok? ==> forall i :: 0 <= i < |ratedDefects| ==>
              FaultAdjustment(mode, fChg, tin, tout, ratedDefects[i], defect) == Ok(r.value[i])
    ensures ChargeFactorsAt(mode, fChg, tin, tout).Ok? ==>
              (r.Ok? <==> forall i :: 0 <= i < |ratedDefects| ==> FaultAdjustment(mode, fChg, tin, tout, ratedDefects[i], defect).Ok?)
  {
    var ch := ChargeFactorsAt(mode, fChg, tin, tout);
    if ch.Fail? then Fail(ch.reason)
    else
      var (capCurve, eirCurve) := AirflowCurves(mode);
      SpeedAdjustments(ch.value, capCurve, eirCurve, ratedDefects, defect)
  }

  /** The DX actuator values of every speed: one fault state and one pair
      of flow-fraction curves per speed. */
  function DxSpeedActuators(states: seq<FaultState>, capSpecs: seq<Quad>, eirSpecs: seq<Quad>): (r: Result<seq<(real, real)>>)
    ensures r.Ok? <==> |capSpecs| >= |states| && |eirSpecs| >= |states|
    ensures r.Ok? ==> |r.value| == |states|
    ensures r.Ok? ==> forall i :: 0 <= i < |states| ==> r.value[i] == DxActuators(capSpecs[i], eirSpecs[i], states[i])
  {
    if |capSpecs| < |states| || |eirSpecs| < |states| then Fail("no flow-fraction curve for a speed")
    else Ok(seq(|states|, i requires 0 <= i < |states| => DxActuators(capSpecs[i], eirSpecs[i], states[i])))
  }

  /** Without faults every speed's state is the unit state. */
  lemma NoFaultStates(mode: Mode, tin: real, tout: real, zeros: seq<real>)
    requires forall i :: 0 <= i < |zeros| ==> zeros[i] == 0.0
    ensures SpeedStates(mode, 0.0, tin, tout, zeros, 0.0) == Ok(seq(|zeros|, _ => FaultState(1.0, 1.0, 1.0)))
  {
    var (capCurve, eirCurve) := AirflowCurves(mode);
    UnitAdjustments(capCurve, eirCurve, zeros);
  }

  /** Unit charge factors, curves through (1, 1) and no airflow defects give
      the unit state at every speed. */
  lemma UnitAdjustments(capCurve: Quad, eirCurve: Quad, zeros: seq<real>)
    requires Quadratic(1.0, capCurve) == 1.0 && Quadratic(1.0, eirCurve) == 1.0
    requires forall i :: 0 <= i < |zeros| ==> zeros[i] == 0.0
    ensures SpeedAdjustments(ChargeFactors(1.0, 1.0, 1.0), capCurve, eirCurve, zeros, 0.0)
            == Ok(seq(|zeros|, _ => FaultState(1.0, 1.0, 1.0)))
  {
    AdjustAtUnity(capCurve, eirCurve);
    var r := SpeedAdjustments(ChargeFactors(1.0, 1.0, 1.0), capCurve, eirCurve, zeros, 0.0);
    assert r.Ok?;
    assert r.value == seq(|zeros|, _ => FaultState(1.0, 1.0, 1.0));
  }

  /** Without faults every DX speed keeps its flow-fraction curve values at
      the design flow fraction (negative values replaced by 1). */
  lemma NoFaultKeepsCurves(mode: Mode, tin: real, tout: real, zeros: seq<real>, capSpecs: seq<Quad>, eirSpecs: seq<Quad>)
    requires forall i :: 0 <= i < |zeros| ==> zeros[i] == 0.0
    requires |capSpecs| >= |zeros| && |eirSpecs| >= |zeros|
    ensures SpeedStates(mode, 0.0, tin, tout, zeros, 0.0).Ok?
    ensures var r := DxSpeedActuators(SpeedStates(mode, 0.0, tin, tout, zeros, 0.0).value, capSpecs, eirSpecs);
            r.Ok? && forall i :: 0 <= i < |zeros| ==>
              r.value[i] == (ClampNegative(Quadratic(1.0, capSpecs[i])), ClampNegative(Quadratic(1.0, eirSpecs[i])))
  {
    NoFaultStates(mode, tin, tout, zeros);
    UnitStatesKeepCurves(|zeros|, capSpecs, eirSpecs);
  }

  /** Unit states leave every speed's curve values as they are at the
      design flow fraction. */
  lemma UnitStatesKeepCurves(n: nat, capSpecs: seq<Quad>, eirSpecs: seq<Quad>)
    requires |capSpecs| >= n && |eirSpecs| >= n
    ensures var r := DxSpeedActuators(seq(n, _ => FaultState(1.0, 1.0, 1.0)), capSpecs, eirSpecs);
            r.Ok? && forall i :: 0 <= i < n ==>
              r.value[i] == (ClampNegative(Quadratic(1.0, capSpecs[i])), ClampNegative(Quadratic(1.0, eirSpecs[i])))
  {
    var r := DxSpeedActuators(seq(n, _ => FaultState(1.0, 1.0, 1.0)), capSpecs, eirSpecs);
    forall i | 0 <= i < n
      ensures r.value[i] == (ClampNegative(Quadratic(1.0, capSpecs[i])), ClampNegative(Quadratic(1.0, eirSpecs[i])))
    {
      UnitActuators(capSpecs[i], eirSpecs[i]);
    }
  }

  /** The unit state multiplies each curve value by 1 at flow fraction 1. */
  lemma UnitActuators(capSpec: Quad, eirSpec: Quad)
    ensures DxActuators(capSpec, eirSpec, FaultState(1.0, 1.0, 1.0))
            == (ClampNegative(Quadratic(1.0, capSpec)), ClampNegative(Quadratic(1.0, eirSpec)))
  {
  }
}
