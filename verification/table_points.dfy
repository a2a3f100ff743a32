/** Extending a gross performance series to the full range of outdoor
    temperatures the unit may see: the temperature at which the trend of the
    two extreme user points reaches zero capacity or COP, and linear
    interpolation (or extrapolation) of capacity and COP at new temperatures. */
module TablePoints {
  import opened Wrappers
  import opened Arith
  import opened DetailedData

  /** The sentinels returned when the extreme points do not trend toward
      zero. */
  const NoZeroCooling: real := 999999.0
  const NoZeroHeating: real := -999999.0

  /** Fixed ends of the table: the lowest cooling and highest heating
      outdoor temperatures. */
  const MinCoolingOdb: real := 55.0
  const MaxHeatingOdb: real := 60.0

  datatype Property = Capacity | Cop

  function Value(p: TablePoint, prop: Property): real {
    match prop
    case Capacity => p.capacity
    case Cop => p.cop
  }

  /** Slope of the line through (t1, v1) and (t2, v2). */
  function Slope(t1: real, v1: real, t2: real, v2: real): real {
    Quot(v1 - v2, t1 - t2)
  }

  /** Value at t of that line, anchored at (t2, v2). */
  function Line(t1: real, v1: real, t2: real, v2: real, t: real): real {
    Slope(t1, v1, t2, v2) * t + (v2 - Slope(t1, v1, t2, v2) * t2)
  }

  /** The line passes through both points. */
  lemma LineThroughPoints(t1: real, v1: real, t2: real, v2: real)
    requires t1 != t2
    ensures Line(t1, v1, t2, v2, t1) == v1 && Line(t1, v1, t2, v2, t2) == v2
  {
    var s := Slope(t1, v1, t2, v2);
    assert s * (t1 - t2) == v1 - v2;
  }

  // ---------------------------------------------------------------------
  // Zero crossing

  /** One degree beyond the temperature at which the line through the two
      points reaches zero: below it for cooling, above it for heating. When
      the trend is away from zero (a non-negative slope for cooling, a
      non-positive one for heating) the result is the sentinel. The two
      temperatures differ: with equal ones the source's slope is 0/0, a NaN
      that later breaks the comparison of the targets, and
      SeriesZeroCrossing fails instead. */
  function ZeroCrossingOdb(mode: Mode, t1: real, v1: real, t2: real, v2: real): (r: real)
    requires t1 != t2
    ensures var s := Slope(t1, v1, t2, v2);
            (mode == Cooling && s >= 0.0 ==> r == NoZeroCooling) &&
            (mode == Heating && s <= 0.0 ==> r == NoZeroHeating)
    ensures mode == Cooling && Slope(t1, v1, t2, v2) < 0.0 ==> Line(t1, v1, t2, v2, r + 1.0) == 0.0
    ensures mode == Heating && Slope(t1, v1, t2, v2) > 0.0 ==> Line(t1, v1, t2, v2, r - 1.0) == 0.0
  {
    var slope := Slope(t1, v1, t2, v2);
    match mode
    case Cooling => if slope >= 0.0 then NoZeroCooling else Root(slope, v2 - slope * t2) - 1.0
    case Heating => if slope <= 0.0 then NoZeroHeating else Root(slope, v2 - slope * t2) + 1.0
  }

  /** Where the line with this slope and intercept meets zero. */
  function Root(slope: real, intercept: real): (x: real)
    requires slope != 0.0
    ensures slope * x + intercept == 0.0
  {
    -intercept / slope
  }

  /** The first point of s at temperature t. */
  function PointAt(s: seq<TablePoint>, t: real): (r: Option<TablePoint>)
    ensures r.Some? ==> r.value in s && r.value.odb == t
    ensures r.None? <==> forall i :: 0 <= i < |s| ==> s[i].odb != t
  {
    if |s| == 0 then None
    else if s[0].odb == t then Some(s[0])
    else
      var r := PointAt(s[1..], t);
      assert forall i :: 1 <= i < |s| ==> s[1..][i - 1] == s[i];
      r
  }

  /** The two points a zero crossing is taken from lie at different
      temperatures: the two highest of the series for cooling, the two
      lowest for heating. */
  predicate ExtremesDistinct(data: seq<TablePoint>, mode: Mode) {
    |data| >= 2 &&
    (mode == Cooling ==> data[|data| - 1].odb != data[|data| - 2].odb) &&
    (mode == Heating ==> data[0].odb != data[1].odb)
  }

  /** The zero crossing of a series in temperature order, from its two
      highest-temperature points for cooling and its two lowest for heating.
      A series of fewer than two points is an error (the source then reads a
      field of nil), and so is one whose two extreme points share a
      temperature (the source's slope is then NaN, and the later minimum or
      maximum of the targets raises). */
  function SeriesZeroCrossing(data: seq<TablePoint>, mode: Mode, prop: Property): (r: Result<real>)
    ensures r.Ok? <==> ExtremesDistinct(data, mode)
    ensures r.Ok? && mode == Cooling ==>
              var p1 := PointAt(data, data[|data| - 1].odb).value;
              var p2 := PointAt(data, data[|data| - 2].odb).value;
              r.value == ZeroCrossingOdb(mode, p1.odb, Value(p1, prop), p2.odb, Value(p2, prop))
    ensures r.Ok? && mode == Heating ==>
              var p1 := PointAt(data, data[0].odb).value;
              var p2 := PointAt(data, data[1].odb).value;
              r.value == ZeroCrossingOdb(mode, p1.odb, Value(p1, prop), p2.odb, Value(p2, prop))
  {
    if |data| < 2 then Fail("fewer than two performance data points")
    else
      var i1 := if mode == Cooling then |data| - 1 else 0;
      var i2 := if mode == Cooling then |data| - 2 else 1;
      var p1 := PointAt(data, data[i1].odb);
      var p2 := PointAt(data, data[i2].odb);
      if p1.value.odb == p2.value.odb then Fail("two extreme performance data points at the same temperature")
      else Ok(ZeroCrossingOdb(mode, p1.value.odb, Value(p1.value, prop), p2.value.odb, Value(p2.value, prop)))
  }

  // ---------------------------------------------------------------------
  // Interpolation at a table temperature

  /** The smallest temperature of s above t. */
  function MinAbove(s: seq<TablePoint>, t: real): (r: Option<real>)
    ensures r.None? <==> forall i :: 0 <= i < |s| ==> s[i].odb <= t
    ensures r.Some? ==> t < r.value && (exists i :: 0 <= i < |s| && s[i].odb == r.value) &&
                        forall i :: 0 <= i < |s| && s[i].odb > t ==> r.value <= s[i].odb
  {
    if |s| == 0 then None
    else
      var rest := MinAbove(s[1..], t);
      assert forall i :: 1 <= i < |s| ==> s[1..][i - 1] == s[i];
      if s[0].odb <= t then
        assert rest.Some? ==> exists i :: 0 <= i < |s| && s[i].odb == rest.value by {
          if rest.Some? {
            var j :| 0 <= j < |s[1..]| && s[1..][j].odb == rest.value;
            assert s[j + 1].odb == rest.value;
          }
        }
        rest
      else if rest.None? || s[0].odb <= rest.value then Some(s[0].odb)
      else
        var j :| 0 <= j < |s[1..]| && s[1..][j].odb == rest.value;
        assert s[j + 1].odb == rest.value;
        rest
  }

  /** The largest temperature of s below t. */
  function MaxBelow(s: seq<TablePoint>, t: real): (r: Option<real>)
    ensures r.None? <==> forall i :: 0 <= i < |s| ==> s[i].odb >= t
    ensures r.Some? ==> r.value < t && (exists i :: 0 <= i < |s| && s[i].odb == r.value) &&
                        forall i :: 0 <= i < |s| && s[i].odb < t ==> s[i].odb <= r.value
  {
    if |s| == 0 then None
    else
      var rest := MaxBelow(s[1..], t);
      assert forall i :: 1 <= i < |s| ==> s[1..][i - 1] == s[i];
      if s[0].odb >= t then
        assert rest.Some? ==> exists i :: 0 <= i < |s| && s[i].odb == rest.value by {
          if rest.Some? {
            var j :| 0 <= j < |s[1..]| && s[1..][j].odb == rest.value;
            assert s[j + 1].odb == rest.value;
          }
        }
        rest
      else if rest.None? || s[0].odb >= rest.value then Some(s[0].odb)
      else
        var j :| 0 <= j < |s[1..]| && s[1..][j].odb == rest.value;
        assert s[j + 1].odb == rest.value;
        rest
  }

  /** The largest and smallest temperatures of a non-empty series. */
  function MaxOdb(s: seq<TablePoint>): (r: real)
    requires |s| > 0
    ensures (exists i :: 0 <= i < |s| && s[i].odb == r) && forall i :: 0 <= i < |s| ==> s[i].odb <= r
  {
    if |s| == 1 then s[0].odb
    else
      var m := MaxOdb(s[1..]);
      assert forall i :: 1 <= i < |s| ==> s[1..][i - 1] == s[i];
      var j :| 0 <= j < |s[1..]| && s[1..][j].odb == m;
      assert s[j + 1].odb == m;
      if s[0].odb >= m then s[0].odb else m
  }

  function MinOdb(s: seq<TablePoint>): (r: real)
    requires |s| > 0
    ensures (exists i :: 0 <= i < |s| && s[i].odb == r) && forall i :: 0 <= i < |s| ==> r <= s[i].odb
  {
    if |s| == 1 then s[0].odb
    else
      var m := MinOdb(s[1..]);
      assert forall i :: 1 <= i < |s| ==> s[1..][i - 1] == s[i];
      var j :| 0 <= j < |s[1..]| && s[1..][j].odb == m;
      assert s[j + 1].odb == m;
      if s[0].odb <= m then s[0].odb else m
  }

  /** The two distinct temperatures whose line gives the value at t: the
      nearest on either side when t lies inside the series' range, otherwise
      the two highest (t above the range) or the two lowest (t below it).
      None when the series has fewer than two distinct temperatures. */
  function Neighbours(s: seq<TablePoint>, t: real): (r: Option<(real, real)>)
    ensures r.Some? ==> r.value.0 < r.value.1
    ensures MaxBelow(s, t).Some? && MinAbove(s, t).Some? ==> r == Some((MaxBelow(s, t).value, MinAbove(s, t).value))
  {
    var below := MaxBelow(s, t);
    var above := MinAbove(s, t);
    if below.Some? && above.Some? then Some((below.value, above.value))
    else if above.None? then
      if |s| == 0 then None
      else
        var h := MaxOdb(s);
        var l := MaxBelow(s, h);
        if l.None? then None else Some((l.value, h))
    else
      var l := MinOdb(s);
      var h := MinAbove(s, l);
      if h.None? then None else Some((l, h.value))
  }

  /** The value at t of the line through (l, vl) and (h, vh), computed from
      the left point as the source does. */
  function LineBetween(l: real, vl: real, h: real, vh: real, t: real): (v: real)
    requires l < h
    ensures v == Line(h, vh, l, vl, t)
  {
    var slope := (vh - vl) / (h - l);
    assert Slope(h, vh, l, vl) == slope;
    assert slope * t + (vl - slope * l) == (t - l) * slope + vl;
    (t - l) * slope + vl
  }

  /** The value of a property at temperature t: the stored value of the first
      point at t if there is one, otherwise the line through the first points
      at the two neighbouring temperatures. */
  function InterpolateAt(s: seq<TablePoint>, t: real, prop: Property): (r: Result<real>)
    ensures PointAt(s, t).Some? ==> r == Ok(Value(PointAt(s, t).value, prop))
    ensures PointAt(s, t).None? ==> (r.Ok? <==> Neighbours(s, t).Some?)
    ensures PointAt(s, t).None? && r.Ok? ==>
              var (l, h) := Neighbours(s, t).value;
              PointAt(s, l).Some? && PointAt(s, h).Some? &&
              r.value == Line(h, Value(PointAt(s, h).value, prop), l, Value(PointAt(s, l).value, prop), t)
  {
    match PointAt(s, t)
    case Some(p) => Ok(Value(p, prop))
    case None =>
      var nb := Neighbours(s, t);
      if nb.None? then Fail("fewer than two distinct outdoor temperatures")
      else
        NeighboursPresent(s, t);
        var l := nb.value.0;
        var h := nb.value.1;
        Ok(LineBetween(l, Value(PointAt(s, l).value, prop), h, Value(PointAt(s, h).value, prop), t))
  }

  /** Both neighbouring temperatures are temperatures of the series. */
  lemma NeighboursPresent(s: seq<TablePoint>, t: real)
    requires Neighbours(s, t).Some?
    ensures PointAt(s, Neighbours(s, t).value.0).Some? && PointAt(s, Neighbours(s, t).value.1).Some?
  {
  }

  /** Strictly between its neighbours, the interpolated value lies between
      the values at the neighbours. */
  lemma InterpolationBetween(s: seq<TablePoint>, t: real, prop: Property)
    requires PointAt(s, t).None? && MaxBelow(s, t).Some? && MinAbove(s, t).Some?
    ensures var l := MaxBelow(s, t).value;
            var h := MinAbove(s, t).value;
            var vl := Value(PointAt(s, l).value, prop);
            var vh := Value(PointAt(s, h).value, prop);
            InterpolateAt(s, t, prop).Ok? &&
            Min(vl, vh) <= InterpolateAt(s, t, prop).value <= Max(vl, vh)
  {
    var l := MaxBelow(s, t).value;
    var h := MinAbove(s, t).value;
    NeighboursPresent(s, t);
    var vl := Value(PointAt(s, l).value, prop);
    var vh := Value(PointAt(s, h).value, prop);
    LineBetweenBounded(l, vl, h, vh, t);
    assert InterpolateAt(s, t, prop).value == LineBetween(l, vl, h, vh, t);
  }

  /** Inside [l, h] the line through the end points stays between their
      values. */
  lemma LineBetweenBounded(l: real, vl: real, h: real, vh: real, t: real)
    requires l <= t <= h && l < h
    ensures Min(vl, vh) <= LineBetween(l, vl, h, vh, t) <= Max(vl, vh)
  {
    var x := (t - l) / (h - l);
    if t == l {
      assert x == 0.0;
    } else if t == h {
      assert x == 1.0;
    } else {
      FractionBelowOne(t - l, h - l);
    }
    Convex(x, vh, vl);
    assert (t - l) * ((vh - vl) / (h - l)) == x * (vh - vl);
  }
}
