/** Extending each gross performance series with points at the ends of the
    range of outdoor temperatures the unit operates in, so that the table
    lookup never extrapolates beyond the user's data. Cooling gains 55 F and
    the lowest of the two zero-crossing temperatures and the weather extreme;
    heating gains the highest of the zero crossings, the compressor lockout
    and the weather extreme, and 60 F. */
module BoundaryPoints {
  import opened Wrappers
  import opened Arith
  import opened DetailedData
  import opened TablePoints

  /** The two target temperatures of a series, in the order they are added.
      A series of fewer than two points, or one whose two extreme points
      share a temperature, has no zero crossing; a heating
      series without a compressor lockout temperature cannot take the
      maximum (the source compares a number with nil). */
  function BoundaryTargets(data: seq<TablePoint>, mode: Mode, weather: real, lockout: Option<real>): (r: Result<seq<real>>)
    ensures r.Ok? <==> ExtremesDistinct(data, mode) && (mode == Heating ==> lockout.Some?)
    ensures r.Ok? ==> |r.value| == 2
    ensures r.Ok? && mode == Cooling ==>
              var zCop := SeriesZeroCrossing(data, mode, Cop).value;
              var zCap := SeriesZeroCrossing(data, mode, Capacity).value;
              r.value[0] == MinCoolingOdb &&
              r.value[1] <= zCop && r.value[1] <= zCap && r.value[1] <= weather &&
              (r.value[1] == zCop || r.value[1] == zCap || r.value[1] == weather)
    ensures r.Ok? && mode == Heating ==>
              var zCop := SeriesZeroCrossing(data, mode, Cop).value;
              var zCap := SeriesZeroCrossing(data, mode, Capacity).value;
              r.value[1] == MaxHeatingOdb &&
              r.value[0] >= zCop && r.value[0] >= zCap && r.value[0] >= lockout.value && r.value[0] >= weather &&
              (r.value[0] == zCop || r.value[0] == zCap || r.value[0] == lockout.value || r.value[0] == weather)
  {
    var zCop := SeriesZeroCrossing(data, mode, Cop);
    var zCap := SeriesZeroCrossing(data, mode, Capacity);
    if zCop.Fail? || zCap.Fail? then Fail("no zero crossing: fewer than two points, or two extreme points at one temperature")
    else
      match mode
      case Cooling => Ok([MinCoolingOdb, Min(Min(zCop.value, zCap.value), weather)])
      case Heating =>
        if lockout.None? then Fail("compressor lockout temperature is nil")
        else Ok([Max(Max(Max(zCop.value, zCap.value), lockout.value), weather), MaxHeatingOdb])
  }

  /** Appends to acc the point for one target temperature unless the
      original series already contains it; its capacity and COP are
      interpolated from the original series. The points appended earlier do
      not take part in the interpolation: they carry no capacity description,
      and the source interpolates over the points of the series' description
      only. */
  function AppendTarget(orig: seq<TablePoint>, acc: seq<TablePoint>, t: real): (r: Result<seq<TablePoint>>)
    requires orig <= acc
    ensures r.Ok? <==> Interpolable(orig, t)
    ensures r.Ok? && PointAt(orig, t).Some? ==> r.value == acc
    ensures r.Ok? && PointAt(orig, t).None? ==>
              |r.value| == |acc| + 1 && acc <= r.value &&
              r.value[|acc|].odb == t && Interpolated(orig, r.value[|acc|])
  {
    if PointAt(orig, t).Some? then Ok(acc)
    else
      var cap := InterpolateAt(orig, t, Capacity);
      var cop := InterpolateAt(orig, t, Cop);
      if cap.Fail? || cop.Fail? then Fail("fewer than two distinct outdoor temperatures")
      else Ok(acc + [TablePoint(t, cap.value, cop.value)])
  }

  /** AppendTarget for each target in turn. */
  function AppendTargets(orig: seq<TablePoint>, acc: seq<TablePoint>, targets: seq<real>): (r: Result<seq<TablePoint>>)
    requires orig <= acc
    ensures r.Ok? <==> forall j :: 0 <= j < |targets| ==> Interpolable(orig, targets[j])
    ensures r.Ok? ==> acc <= r.value && |r.value| <= |acc| + |targets|
    ensures r.Ok? ==> forall j :: 0 <= j < |targets| ==> PointAt(r.value, targets[j]).Some?
    decreases |targets|
  {
    if |targets| == 0 then Ok(acc)
    else
      var next := AppendTarget(orig, acc, targets[0]);
      if next.Fail? then Fail(next.reason)
      else
        var r := AppendTargets(orig, next.value, targets[1..]);
        assert forall j :: 1 <= j < |targets| ==> targets[1..][j - 1] == targets[j];
        assert r.Ok? ==> PointAt(r.value, targets[0]).Some? by {
          if r.Ok? {
            TargetKept(orig, acc, next.value, r.value, targets[0]);
          }
        }
        r
  }

  /** Every point AppendTargets adds is interpolated from the original
      series at a temperature it lacks. */
  lemma {:induction false} AppendedInterpolated(orig: seq<TablePoint>, acc: seq<TablePoint>, targets: seq<real>)
    requires orig <= acc && AppendTargets(orig, acc, targets).Ok?
    ensures InterpolatedFrom(orig, AppendTargets(orig, acc, targets).value, |acc|)
    decreases |targets|
  {
    if |targets| > 0 {
      var next := AppendTarget(orig, acc, targets[0]).value;
      var r := AppendTargets(orig, next, targets[1..]).value;
      assert r == AppendTargets(orig, acc, targets).value;
      AppendedInterpolated(orig, next, targets[1..]);
      assert InterpolatedFrom(orig, r, |acc|) by {
        if |next| > |acc| {
          assert r[|acc|] == next[|acc|];
        }
      }
    }
  }

  /** Every point of r from index `from` on is an appended point. */
  predicate InterpolatedFrom(orig: seq<TablePoint>, r: seq<TablePoint>, from: nat) {
    forall i :: from <= i < |r| ==> Interpolated(orig, r[i])
  }

  /** Once a target is in the series (from the original or as its appended
      point) it stays there under further appends. */
  lemma TargetKept(orig: seq<TablePoint>, acc: seq<TablePoint>, next: seq<TablePoint>, u: seq<TablePoint>, t: real)
    requires orig <= acc && AppendTarget(orig, acc, t) == Ok(next) && next <= u
    ensures PointAt(u, t).Some?
  {
    if PointAt(orig, t).Some? {
      PointAtPrefix(orig, u, t);
    } else {
      var i := |acc|;
      assert u[i] == next[i];
      PointAtFound(u, i);
    }
  }

  /** A target the source can fill: present in the series, or with two
      distinct temperatures to interpolate from. */
  predicate Interpolable(orig: seq<TablePoint>, t: real) {
    PointAt(orig, t).Some? || Neighbours(orig, t).Some?
  }

  /** An appended point: at a temperature the series lacks, with the
      interpolated capacity and COP. */
  predicate Interpolated(orig: seq<TablePoint>, p: TablePoint) {
    PointAt(orig, p.odb).None? &&
    InterpolateAt(orig, p.odb, Capacity) == Ok(p.capacity) &&
    InterpolateAt(orig, p.odb, Cop) == Ok(p.cop)
  }

  /** Extending a series keeps the first point at each of its temperatures. */
  lemma {:induction false} PointAtPrefix(s: seq<TablePoint>, u: seq<TablePoint>, t: real)
    requires s <= u && PointAt(s, t).Some?
    ensures PointAt(u, t) == PointAt(s, t)
    decreases |s|
  {
    if s[0].odb != t {
      assert s[1..] <= u[1..];
      PointAtPrefix(s[1..], u[1..], t);
    }
  }

  /** A series containing a point at t has a first point at t. */
  lemma PointAtFound(s: seq<TablePoint>, i: int)
    requires 0 <= i < |s|
    ensures PointAt(s, s[i].odb).Some?
  {
  }

  /** The series with its boundary points: the original points come first and
      unchanged, at most two points follow, every target temperature is
      covered, and each new point is interpolated from the original series. */
  function AddBoundaryPoints(data: seq<TablePoint>, mode: Mode, weather: real, lockout: Option<real>): (r: Result<seq<TablePoint>>)
    ensures r.Ok? ==> BoundaryTargets(data, mode, weather, lockout).Ok?
    ensures r.Ok? ==>
              var ts := BoundaryTargets(data, mode, weather, lockout).value;
              data <= r.value && |r.value| <= |data| + 2 &&
              PointAt(r.value, ts[0]).Some? && PointAt(r.value, ts[1]).Some? &&
              forall i :: |data| <= i < |r.value| ==> Interpolated(data, r.value[i])
    ensures r.Ok? ==> PointAt(r.value, if mode == Cooling then MinCoolingOdb else MaxHeatingOdb).Some?
    ensures BoundaryTargets(data, mode, weather, lockout).Ok? ==>
              var ts := BoundaryTargets(data, mode, weather, lockout).value;
              (r.Ok? <==> Interpolable(data, ts[0]) && Interpolable(data, ts[1]))
  {
    var ts := BoundaryTargets(data, mode, weather, lockout);
    if ts.Fail? then Fail(ts.reason)
    else
      var r := AppendTargets(data, data, ts.value);
      if r.Ok? then
        AppendedInterpolated(data, data, ts.value);
        r
      else r
  }
}
