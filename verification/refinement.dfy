/** Refining a lookup-table series so that the EIR, normalised by the rated
    EIR, changes by at most a tolerance (1.0) between neighbouring points:
    between two neighbours whose normalised EIRs differ by more, equally
    spaced normalised EIRs are inserted, each turned into a point on the
    straight lines through the two neighbours (outdoor temperature against
    COP, capacity against outdoor temperature). */
module Refinement {
  import opened Wrappers
  import opened Arith
  import opened Sorting
  import opened DetailedData
  import opened TablePoints
  import CurveLibrary

  /** The default tolerance on the normalised EIR step. */
  const StepTol: real := 1.0

  function TableOdb(p: TablePoint): real {
    p.odb
  }

  /** The outdoor temperature of the rated point the EIR is normalised by. */
  function RatedOdb(mode: Mode): real {
    match mode
    case Cooling => CurveLibrary.CoolRatedODB
    case Heating => CurveLibrary.HeatRatedODB
  }

  /** EIR (1 / COP) relative to the rated EIR. */
  function NormalizedEir(cop: real, eirRated: real): real {
    Quot(Quot(1.0, cop), eirRated)
  }

  /** The change of normalised EIR from p to q. */
  function EirStep(p: TablePoint, q: TablePoint, eirRated: real): real {
    NormalizedEir(q.cop, eirRated) - NormalizedEir(p.cop, eirRated)
  }

  /** Number of points to insert for a normalised-EIR change d: one less than
      the least number of intervals of width at most tol that span d. */
  function StepCount(d: real, tol: real): (n: int)
    requires tol > 0.0
    ensures n >= -1
    ensures n >= 1 <==> Abs(d) > tol
    ensures Abs(d) <= (n + 1) as real * tol
    ensures n >= 1 ==> n as real * tol < Abs(d)
  {
    var c := Ceil(Abs(d) / tol);
    CeilingBounds(Abs(d), tol, c);
    c - 1
  }

  /** c = ceil(a / tol) counts the intervals of width tol that span a. */
  lemma CeilingBounds(a: real, tol: real, c: int)
    requires tol > 0.0 && a >= 0.0 && a / tol <= c as real < a / tol + 1.0
    ensures c >= 0
    ensures c >= 2 <==> a > tol
    ensures a <= c as real * tol
    ensures (c - 1) as real * tol < a
  {
    CeilingUpper(a, tol, c);
    CeilingLower(a, tol, c);
    if c < 0 {
      ScaleLt(c as real, 0.0, tol);
      assert false;
    }
    if c >= 2 {
      ScaleLe(1.0, (c - 1) as real, tol);
    } else {
      ScaleLe(c as real, 1.0, tol);
    }
  }

  lemma CeilingUpper(a: real, tol: real, c: int)
    requires tol > 0.0 && a / tol <= c as real
    ensures a <= c as real * tol
  {
    QuotTimes(a, tol);
    ScaleLe(a / tol, c as real, tol);
  }

  lemma CeilingLower(a: real, tol: real, c: int)
    requires tol > 0.0 && c as real < a / tol + 1.0
    ensures (c - 1) as real * tol < a
  {
    QuotTimes(a, tol);
    ScaleLt((c - 1) as real, a / tol, tol);
  }

  /** The width of each of the n + 1 equal intervals spanning d. */
  function Interval(d: real, n: int): real
    requires n >= 1
  {
    d / (n + 1) as real
  }

  /** With n from StepCount, the intervals are at most tol wide and n + 1 of
      them span d exactly. */
  lemma IntervalWithinTol(d: real, tol: real)
    requires tol > 0.0 && StepCount(d, tol) >= 1
    ensures var n := StepCount(d, tol);
            Abs(Interval(d, n)) <= tol && Interval(d, n) * (n + 1) as real == d
  {
    var n := StepCount(d, tol);
    var m := (n + 1) as real;
    var w := Interval(d, n);
    assert w * m == d;
    if w < 0.0 {
      assert Abs(w) * m == Abs(d);
    } else {
      assert Abs(w) * m == Abs(d);
    }
    assert Abs(d) <= m * tol;
    ProductCompare(Abs(w), tol, m);
  }

  /** The point inserted between p and q at normalised EIR norm: its COP
      has that normalised EIR (NewPointOnLines gives its temperature and
      capacity). */
  function NewPoint(p: TablePoint, q: TablePoint, eirRated: real, norm: real): (r: TablePoint)
    ensures norm != 0.0 && eirRated != 0.0 ==> NormalizedEir(r.cop, eirRated) == norm
  {
    var cop := Quot(1.0, norm * eirRated);
    var odb := Slope(q.cop, q.odb, p.cop, p.odb) * (cop - p.cop) + p.odb;
    var cap := Slope(q.odb, q.capacity, p.odb, p.capacity) * (odb - p.odb) + p.capacity;
    assert norm != 0.0 && eirRated != 0.0 ==> NormalizedEir(cop, eirRated) == norm by {
      if norm != 0.0 && eirRated != 0.0 {
        NonZeroProduct(norm, eirRated);
        assert cop * (norm * eirRated) == 1.0;
        assert Quot(1.0, cop) == norm * eirRated;
      }
    }
    TablePoint(odb, cap, cop)
  }

  /** An inserted point's outdoor temperature lies on the line through p and
      q in (COP, temperature), and its capacity on the line through p and q
      in (temperature, capacity). */
  lemma NewPointOnLines(p: TablePoint, q: TablePoint, eirRated: real, norm: real)
    ensures var r := NewPoint(p, q, eirRated, norm);
            r.odb == Line(q.cop, q.odb, p.cop, p.odb, r.cop) &&
            r.capacity == Line(q.odb, q.capacity, p.odb, p.capacity, r.odb)
  {
    var r := NewPoint(p, q, eirRated, norm);
    LineFromAnchor(q.cop, q.odb, p.cop, p.odb, r.cop);
    LineFromAnchor(q.odb, q.capacity, p.odb, p.capacity, r.odb);
  }

  /** The line through (t1, v1) and (t2, v2), written from its anchor
      (t2, v2). */
  lemma LineFromAnchor(t1: real, v1: real, t2: real, v2: real, t: real)
    ensures Line(t1, v1, t2, v2, t) == Slope(t1, v1, t2, v2) * (t - t2) + v2
  {
    var s := Slope(t1, v1, t2, v2);
    assert s * (t - t2) == s * t - s * t2;
  }
  /** The points inserted between neighbours p and q: none when their
      normalised EIRs differ by at most tol, otherwise StepCount of them, in
      order from p towards q. */
  function SegmentPoints(p: TablePoint, q: TablePoint, eirRated: real, tol: real): (r: seq<TablePoint>)
    requires tol > 0.0
    ensures var d := EirStep(p, q, eirRated);
            (r == [] <==> Abs(d) <= tol) &&
            (Abs(d) > tol ==> |r| == StepCount(d, tol))
    ensures forall j :: 0 <= j < |r| ==> Abs(EirStep(p, q, eirRated)) > tol && r[j] == Inserted(p, q, eirRated, tol, j)
  {
    var d := EirStep(p, q, eirRated);
    var n := StepCount(d, tol);
    if n < 1 then []
    else seq(n, j requires 0 <= j < n => Inserted(p, q, eirRated, tol, j))
  }

  /** The j-th point (from 0) inserted between p and q. */
  function Inserted(p: TablePoint, q: TablePoint, eirRated: real, tol: real, j: int): TablePoint
    requires tol > 0.0 && Abs(EirStep(p, q, eirRated)) > tol
  {
    NewPoint(p, q, eirRated, StepNorm(NormalizedEir(p.cop, eirRated), NormalizedEir(q.cop, eirRated), tol, j))
  }

  /** The j-th normalised EIR (from 0) inserted between ep and eq: j + 1
      intervals beyond ep. */
  function StepNorm(ep: real, eq: real, tol: real, j: int): real
    requires tol > 0.0 && StepCount(eq - ep, tol) >= 1
  {
    ep + Interval(eq - ep, StepCount(eq - ep, tol)) * (j + 1) as real
  }

  /** The inserted normalised EIRs are equally spaced, by an interval at most
      tol wide, from one interval beyond ep to one interval short of eq. */
  lemma EqualSteps(ep: real, eq: real, tol: real, j: int)
    requires tol > 0.0 && StepCount(eq - ep, tol) >= 1
    ensures var n := StepCount(eq - ep, tol);
            var w := Interval(eq - ep, n);
            Abs(w) <= tol &&
            StepNorm(ep, eq, tol, 0) == ep + w &&
            StepNorm(ep, eq, tol, j + 1) == StepNorm(ep, eq, tol, j) + w &&
            StepNorm(ep, eq, tol, n - 1) + w == eq
  {
    var d := eq - ep;
    var n := StepCount(d, tol);
    var w := Interval(d, n);
    IntervalWithinTol(d, tol);
    assert w * (j + 2) as real == w * (j + 1) as real + w;
    assert w * n as real + w == w * (n + 1) as real;
  }

  /** Each inserted normalised EIR lies strictly between ep and eq. */
  lemma StepInside(ep: real, eq: real, tol: real, j: int)
    requires tol > 0.0 && 0 <= j < StepCount(eq - ep, tol)
    ensures Min(ep, eq) < StepNorm(ep, eq, tol, j) < Max(ep, eq)
  {
    var d := eq - ep;
    StrictlyInside(d, StepCount(d, tol), j);
  }

  /** For positive COPs and rated EIR the j-th inserted point has the j-th
      inserted normalised EIR, strictly between those of p and q. */
  lemma InsertedEir(p: TablePoint, q: TablePoint, eirRated: real, tol: real, j: int)
    requires tol > 0.0 && p.cop > 0.0 && q.cop > 0.0 && eirRated > 0.0
    requires 0 <= j < StepCount(EirStep(p, q, eirRated), tol)
    ensures var ep := NormalizedEir(p.cop, eirRated);
            var eq := NormalizedEir(q.cop, eirRated);
            var e := NormalizedEir(Inserted(p, q, eirRated, tol, j).cop, eirRated);
            e == StepNorm(ep, eq, tol, j) && Min(ep, eq) < e < Max(ep, eq)
  {
    var ep := NormalizedEir(p.cop, eirRated);
    var eq := NormalizedEir(q.cop, eirRated);
    StepInside(ep, eq, tol, j);
    PositiveNormalized(p.cop, eirRated);
    PositiveNormalized(q.cop, eirRated);
    assert StepNorm(ep, eq, tol, j) > 0.0;
  }

  lemma PositiveNormalized(cop: real, eirRated: real)
    requires cop > 0.0 && eirRated > 0.0
    ensures NormalizedEir(cop, eirRated) > 0.0
  {
    var e := Quot(1.0, cop);
    assert e * cop == 1.0;
    ProductCompare(e, 0.0, cop);
    var r := Quot(e, eirRated);
    assert r * eirRated == e;
    ProductCompare(r, 0.0, eirRated);
  }

  /** The j-th of n equal steps of d / (n + 1) stops strictly short of d and
      strictly beyond 0. */
  lemma StrictlyInside(d: real, n: int, j: int)
    requires n >= 1 && 0 <= j < n && d != 0.0
    ensures var x := Interval(d, n) * (j + 1) as real;
            Min(0.0, d) < x < Max(0.0, d)
  {
    var m := (n + 1) as real;
    var k := (j + 1) as real;
    var f := k / m;
    FractionBelowOne(k, m);
    ScaledStep(d, k, m);
    var e := Abs(d);
    assert 0.0 * e == 0.0 && 1.0 * e == e;
    ScaleLt(0.0, f, e);
    ScaleLt(f, 1.0, e);
    if d < 0.0 {
      assert f * d == -(f * e);
    }
  }

  /** Taking k steps of d / m is taking the fraction k / m of d. */
  lemma ScaledStep(d: real, k: real, m: real)
    requires m != 0.0
    ensures d / m * k == k / m * d
  {
    var w := d / m;
    var f := k / m;
    assert w * m == d && f * m == k;
    assert (w * k) * m == (f * d) * m;
    NonZeroCancel(w * k, f * d, m);
  }

  /** True when every pair of neighbours of s is within tol in normalised
      EIR. */
  predicate Fine(s: seq<TablePoint>, eirRated: real, tol: real) {
    forall i :: 0 <= i < |s| - 1 ==> Abs(EirStep(s[i], s[i + 1], eirRated)) <= tol
  }

  /** The points inserted between all neighbours of s, pair by pair. */
  function Segments(s: seq<TablePoint>, eirRated: real, tol: real): (r: seq<TablePoint>)
    requires tol > 0.0
    ensures r == [] <==> Fine(s, eirRated, tol)
    decreases |s|
  {
    if |s| < 2 then []
    else
      FineSplit(s, eirRated, tol);
      SegmentPoints(s[0], s[1], eirRated, tol) + Segments(s[1..], eirRated, tol)
  }

  /** A series is fine when its first step is and the rest of it is. */
  lemma FineSplit(s: seq<TablePoint>, eirRated: real, tol: real)
    requires |s| >= 2
    ensures Fine(s, eirRated, tol) <==>
            Abs(EirStep(s[0], s[1], eirRated)) <= tol && Fine(s[1..], eirRated, tol)
  {
    var t := s[1..];
    assert forall i :: 0 <= i < |t| ==> t[i] == s[i + 1];
    if Abs(EirStep(s[0], s[1], eirRated)) <= tol && Fine(t, eirRated, tol) {
      forall i | 0 <= i < |s| - 1
        ensures Abs(EirStep(s[i], s[i + 1], eirRated)) <= tol
      {
        if i > 0 {
          assert t[i - 1] == s[i] && t[i] == s[i + 1];
        }
      }
    }
  }

  /** The rated EIR of a series: the EIR of the first point, in temperature
      order, at the rated outdoor temperature (0 when there is none). */
  function RatedEir(data: seq<TablePoint>, mode: Mode): real {
    var rated := PointAt(SortBy(data, TableOdb), RatedOdb(mode));
    if rated.Some? then Quot(1.0, rated.value.cop) else 0.0
  }

  /** The series with its refinement points appended after the existing
      ones; a series of two or more points without a point at the rated
      outdoor temperature is an error (the source reads a field of nil). */
  function AddAdaptivePoints(data: seq<TablePoint>, mode: Mode, tol: real): (r: Result<seq<TablePoint>>)
    requires tol > 0.0
    ensures r.Ok? <==> |data| < 2 || PointAt(data, RatedOdb(mode)).Some?
    ensures r.Ok? ==> data <= r.value
    ensures r.Ok? && |data| >= 2 ==>
              (r.value == data <==> Fine(SortBy(data, TableOdb), RatedEir(data, mode), tol))
    ensures r.Ok? && |data| >= 2 ==>
              r.value == data + Segments(SortBy(data, TableOdb), RatedEir(data, mode), tol)
  {
    var sorted := SortBy(data, TableOdb);
    SortedSame(data, RatedOdb(mode));
    if |sorted| < 2 then Ok(data)
    else if PointAt(sorted, RatedOdb(mode)).None? then Fail("no data point at the rated outdoor temperature")
    else
      var extra := Segments(sorted, RatedEir(data, mode), tol);
      assert |data + extra| == |data| + |extra|;
      Ok(data + extra)
  }

  /** Sorting keeps the length and the temperatures present. */
  lemma SortedSame(data: seq<TablePoint>, t: real)
    ensures var sorted := SortBy(data, TableOdb);
            |sorted| == |data| && (PointAt(sorted, t).Some? <==> PointAt(data, t).Some?)
  {
    var sorted := SortBy(data, TableOdb);
    SameElements(data, sorted);
    PointAtSameElements(data, sorted, t);
  }

  /** Two series with the same elements have a point at the same
      temperatures. */
  lemma PointAtSameElements(s: seq<TablePoint>, u: seq<TablePoint>, t: real)
    requires forall p :: p in s <==> p in u
    ensures PointAt(s, t).Some? <==> PointAt(u, t).Some?
  {
    if PointAt(s, t).Some? {
      assert PointAt(s, t).value in u;
    }
    if PointAt(u, t).Some? {
      assert PointAt(u, t).value in s;
    }
  }
}
