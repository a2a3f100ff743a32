/** Adding sensitivity to the indoor condition: every table point, taken at
    the rated indoor temperature (67 F wet bulb for cooling, 70 F dry bulb
    for heating), is copied to two more indoor temperatures (50 and 80 F for
    cooling, 60 and 80 F for heating) with its capacity and COP scaled by the
    single-stage temperature curves. */
module IndoorExpansion {
  import opened Wrappers
  import opened Arith
  import opened Curves
  import opened CurveLibrary
  import opened DetailedData

  /** A table point with its indoor temperature (wet bulb for cooling, dry
      bulb for heating). */
  datatype IndoorPoint = IndoorPoint(indoor: real, odb: real, capacity: real, cop: real)

  function RatedIndoor(mode: Mode): real {
    match mode
    case Cooling => CoolRatedIWB
    case Heating => HeatRatedIDB
  }

  /** The indoor temperatures the table covers, the rated one in the middle. */
  function IndoorTemps(mode: Mode): (r: seq<real>)
    ensures |r| == 3 && r[1] == RatedIndoor(mode) && r[0] < r[1] < r[2]
  {
    match mode
    case Cooling => [50.0, CoolRatedIWB, 80.0]
    case Heating => [60.0, HeatRatedIDB, 80.0]
  }

  /** The single-stage capacity and EIR curves in indoor and outdoor
      temperature used for the correction: the library cooling curves, or the
      heating capacity curve fitted from the default single-stage retention
      (0.425 at 5 F) with the library heating EIR curve. */
  function IndoorCurves(mode: Mode): (r: (Biquad, Biquad))
    ensures mode == Cooling ==>
              Abs(Biquadratic(CoolRatedIWB, CoolRatedODB, r.0) - 1.0) <= 0.05 &&
              Abs(Biquadratic(CoolRatedIWB, CoolRatedODB, r.1) - 1.0) <= 0.05
    ensures mode == Heating ==>
              (forall iat: real :: Biquadratic(iat, HeatRatedODB, r.0) - Biquadratic(iat, 5.0, r.0) == 1.0 - 0.425) &&
              Abs(Biquadratic(HeatRatedIDB, HeatRatedODB, r.1) - 1.0) <= 0.05
  {
    match mode
    case Cooling =>
      var spec := CoolCapEirFtSpec(SingleStage).value;
      (spec.cap[0], spec.eir[0])
    case Heating =>
      var ret := DefaultHeatingCapacityRetention(SingleStage, 0.0);
      var cap := CalcHeatCapFtSpec(SingleStage, ret).value;
      (cap[0], HeatEirFtSpec(SingleStage).value[0])
  }

  /** A point moved from the rated indoor temperature to t: Scale with the
      curves' values at t and at rated, at the point's outdoor temperature. */
  function Correct(p: TablePoint, t: real, rated: real, cap: Biquad, eir: Biquad): (r: IndoorPoint)
    ensures r.indoor == t && r.odb == p.odb
  {
    Scale(p, t, Biquadratic(t, p.odb, cap), Biquadratic(rated, p.odb, cap),
          Biquadratic(t, p.odb, eir), Biquadratic(rated, p.odb, eir))
  }

  /** The correction from the curve values at t and at rated: capacity
      times the capacity curve's ratio between t and rated, COP divided by
      the EIR curve's ratio, so that capacity scales with the capacity curve
      and EIR with the EIR curve. */
  function Scale(p: TablePoint, t: real, capT: real, capRated: real, eirT: real, eirRated: real): (r: IndoorPoint)
    ensures r.indoor == t && r.odb == p.odb
    ensures capRated != 0.0 ==> r.capacity * capRated == p.capacity * capT
    ensures eirRated != 0.0 && eirT != 0.0 ==> r.cop * eirT == p.cop * eirRated
  {
    var capFactor := Quot(capT, capRated);
    var eirFactor := Quot(eirT, eirRated);
    ScaledBy(p.capacity, capFactor, capT, capRated);
    var cop := Quot(p.cop, eirFactor);
    assert eirRated != 0.0 && eirT != 0.0 ==> cop * eirT == p.cop * eirRated by {
      if eirRated != 0.0 && eirT != 0.0 {
        DividedBy(p.cop, eirFactor, eirT, eirRated);
      }
    }
    IndoorPoint(t, p.odb, p.capacity * capFactor, cop)
  }

  lemma ScaledBy(v: real, f: real, a: real, b: real)
    requires b != 0.0 ==> f * b == a
    ensures b != 0.0 ==> v * f * b == v * a
  {
    if b != 0.0 {
      assert v * f * b == v * (f * b);
    }
  }

  lemma DividedBy(v: real, f: real, a: real, b: real)
    requires a != 0.0 && b != 0.0 && f * b == a
    ensures Quot(v, f) * a == v * b
  {
    assert f != 0.0;
    var q := Quot(v, f);
    assert q * f == v;
    assert q * a == q * (f * b);
  }

  /** Moving a point to the rated indoor temperature itself changes nothing:
      the source's skipping of the rated temperature loses no copy. */
  lemma CorrectAtRated(p: TablePoint, rated: real, cap: Biquad, eir: Biquad)
    requires Biquadratic(rated, p.odb, cap) != 0.0 && Biquadratic(rated, p.odb, eir) != 0.0
    ensures Correct(p, rated, rated, cap, eir) == IndoorPoint(rated, p.odb, p.capacity, p.cop)
  {
    ScaleIdentity(p, rated, Biquadratic(rated, p.odb, cap), Biquadratic(rated, p.odb, eir));
  }

  lemma ScaleIdentity(p: TablePoint, t: real, c: real, e: real)
    requires c != 0.0 && e != 0.0
    ensures Scale(p, t, c, c, e, e) == IndoorPoint(t, p.odb, p.capacity, p.cop)
  {
    var r := Scale(p, t, c, c, e, e);
    ProductCancel(r.capacity, p.capacity, c);
    ProductCancel(r.cop, p.cop, e);
  }

  lemma ProductCancel(x: real, y: real, c: real)
    requires c != 0.0 && x * c == y * c
    ensures x == y
  {
    assert (x - y) * c == 0.0;
  }

  /** Every point at the rated indoor temperature, values unchanged. */
  function AtRated(data: seq<TablePoint>, rated: real): (r: seq<IndoorPoint>)
    ensures |r| == |data|
    ensures forall i :: 0 <= i < |data| ==>
              r[i] == IndoorPoint(rated, data[i].odb, data[i].capacity, data[i].cop)
  {
    seq(|data|, i requires 0 <= i < |data| => IndoorPoint(rated, data[i].odb, data[i].capacity, data[i].cop))
  }

  /** Every point moved to indoor temperature t. */
  function CorrectAll(data: seq<TablePoint>, t: real, rated: real, cap: Biquad, eir: Biquad): (r: seq<IndoorPoint>)
    ensures |r| == |data|
    ensures forall i :: 0 <= i < |data| ==> r[i] == Correct(data[i], t, rated, cap, eir)
  {
    seq(|data|, i requires 0 <= i < |data| => Correct(data[i], t, rated, cap, eir))
  }

  /** The expansion with given curves: the points at the rated indoor
      temperature, then copies at each other indoor temperature in
      increasing order. */
  function ExpandWith(data: seq<TablePoint>, mode: Mode, cap: Biquad, eir: Biquad): (r: seq<IndoorPoint>)
    ensures |r| == 3 * |data|
    ensures forall i :: 0 <= i < |data| ==>
              r[i] == IndoorPoint(RatedIndoor(mode), data[i].odb, data[i].capacity, data[i].cop)
    ensures forall i :: 0 <= i < |data| ==>
              r[|data| + i] == Correct(data[i], IndoorTemps(mode)[0], RatedIndoor(mode), cap, eir)
    ensures forall i :: 0 <= i < |data| ==>
              r[2 * |data| + i] == Correct(data[i], IndoorTemps(mode)[2], RatedIndoor(mode), cap, eir)
  {
    var ts := IndoorTemps(mode);
    var rated := RatedIndoor(mode);
    AtRated(data, rated) + CorrectAll(data, ts[0], rated, cap, eir) + CorrectAll(data, ts[2], rated, cap, eir)
  }

  /** The expansion of a series with the single-stage curves of the mode. */
  function ExpandIndoor(data: seq<TablePoint>, mode: Mode): (r: seq<IndoorPoint>)
    ensures |r| == 3 * |data|
    ensures forall i :: 0 <= i < |data| ==>
              r[i].indoor == RatedIndoor(mode) && r[i].odb == data[i].odb &&
              r[i].capacity == data[i].capacity && r[i].cop == data[i].cop
    ensures forall i :: 0 <= i < |data| ==>
              r[|data| + i].indoor == IndoorTemps(mode)[0] && r[|data| + i].odb == data[i].odb &&
              r[2 * |data| + i].indoor == IndoorTemps(mode)[2] && r[2 * |data| + i].odb == data[i].odb
    ensures forall i :: 0 <= i < |data| ==>
              r[|data| + i] == Correct(data[i], IndoorTemps(mode)[0], RatedIndoor(mode), IndoorCurves(mode).0, IndoorCurves(mode).1) &&
              r[2 * |data| + i] == Correct(data[i], IndoorTemps(mode)[2], RatedIndoor(mode), IndoorCurves(mode).0, IndoorCurves(mode).1)
  {
    var curves := IndoorCurves(mode);
    ExpandWith(data, mode, curves.0, curves.1)
  }
}
