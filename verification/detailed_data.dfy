/** The first steps of processing a heat pump's detailed (NEEP-style)
    performance data: ordering the user's points by outdoor temperature,
    splitting them into the minimum- and maximum-capacity series, and
    converting each point's net capacity and COP to gross values by removing
    the indoor fan's contribution. */
module DetailedData {
  import opened Wrappers
  import opened Arith
  import opened Sorting

  datatype Mode = Cooling | Heating

  /** The capacity description of a user point; `Nominal` stands for every
      description other than minimum and maximum. */
  datatype CapacityDescription = Minimum | Nominal | Maximum

  /** A user data point: outdoor dry bulb (F), capacity description, net
      capacity (Btu/h) and net COP. */
  datatype DataPoint = DataPoint(odb: real, desc: CapacityDescription, capacity: real, cop: real)

  /** A point of a lookup table: outdoor dry bulb, gross capacity (Btu/h) and
      gross COP. */
  datatype TablePoint = TablePoint(odb: real, capacity: real, cop: real)

  // ---------------------------------------------------------------------
  // Ordering and grouping

  function DataOdb(p: DataPoint): real {
    p.odb
  }

  predicate SortedByOdb(s: seq<DataPoint>) {
    SortedBy(s, DataOdb)
  }

  /** The points ordered by outdoor temperature. */
  function SortByOdb(s: seq<DataPoint>): (r: seq<DataPoint>)
    ensures SortedByOdb(r)
    ensures multiset(r) == multiset(s)
  {
    SortBy(s, DataOdb)
  }

  /** The points with description d, in their original order. */
  function Select(s: seq<DataPoint>, d: CapacityDescription): (r: seq<DataPoint>)
    ensures forall p :: multiset(r)[p] == if p.desc == d then multiset(s)[p] else 0
    ensures forall p :: p in r <==> p in s && p.desc == d
    ensures SortedByOdb(s) ==> SortedByOdb(r)
    ensures |r| <= |s|
  {
    if |s| == 0 then []
    else
      var rest := Select(s[1..], d);
      assert s == [s[0]] + s[1..];
      var r := if s[0].desc == d then [s[0]] + rest else rest;
      SelectCounts(s[0], s[1..], rest, d);
      CountsGiveMembers(r, s, d);
      SelectSorted(s[0], s[1..], rest, d);
      r
  }

  /** One step of the selection keeps every point's count exactly when the
      point has description d: x is kept in front of the selection of the
      tail when it has description d, and dropped otherwise. */
  lemma SelectCounts(x: DataPoint, tail: seq<DataPoint>, rest: seq<DataPoint>, d: CapacityDescription)
    requires forall p :: multiset(rest)[p] == if p.desc == d then multiset(tail)[p] else 0
    ensures var r := if x.desc == d then [x] + rest else rest;
            forall p :: multiset(r)[p] == if p.desc == d then multiset([x] + tail)[p] else 0
  {
    assert multiset([x] + tail) == multiset{x} + multiset(tail);
    assert multiset([x] + rest) == multiset{x} + multiset(rest);
  }

  /** Counts that agree on the points of description d (and are 0 elsewhere)
      give the same membership. */
  lemma CountsGiveMembers(r: seq<DataPoint>, s: seq<DataPoint>, d: CapacityDescription)
    requires forall p :: multiset(r)[p] == if p.desc == d then multiset(s)[p] else 0
    ensures forall p :: p in r <==> p in s && p.desc == d
  {
    forall p ensures p in r <==> p in s && p.desc == d {
      assert (p in r) == (multiset(r)[p] > 0);
      assert (p in s) == (multiset(s)[p] > 0);
    }
  }

  /** One step of the selection keeps a sorted input's selection sorted. */
  lemma SelectSorted(x: DataPoint, tail: seq<DataPoint>, rest: seq<DataPoint>, d: CapacityDescription)
    requires forall p :: p in rest ==> p in tail
    requires SortedByOdb(tail) ==> SortedByOdb(rest)
    ensures var r := if x.desc == d then [x] + rest else rest;
            SortedByOdb([x] + tail) ==> SortedByOdb(r)
  {
    var s := [x] + tail;
    if SortedByOdb(s) {
      assert s[1..] == tail;
      forall q | q in rest ensures x.odb <= q.odb {
        var j :| 0 <= j < |tail| && tail[j] == q;
        assert s[0] == x && s[j + 1] == q;
        assert DataOdb(s[0]) <= DataOdb(s[j + 1]);
      }
    }
  }

  /** The minimum- and maximum-capacity series, each in temperature order;
      points of any other description are dropped. */
  function GroupBySpeed(points: seq<DataPoint>): (r: (seq<DataPoint>, seq<DataPoint>))
    ensures SortedByOdb(r.0) && SortedByOdb(r.1)
    ensures forall p :: p in r.0 <==> p in points && p.desc == Minimum
    ensures forall p :: p in r.1 <==> p in points && p.desc == Maximum
    ensures forall p :: multiset(r.0)[p] == if p.desc == Minimum then multiset(points)[p] else 0
    ensures forall p :: multiset(r.1)[p] == if p.desc == Maximum then multiset(points)[p] else 0
  {
    var sorted := SortByOdb(points);
    SameElements(points, sorted);
    (Select(sorted, Minimum), Select(sorted, Maximum))
  }

  // ---------------------------------------------------------------------
  // Net to gross

  /** Gross capacity in W: in cooling the fan's heat was subtracted from the
      net capacity, in heating it was added. fanPower is in W and k is the
      number of Btu/h per W. */
  function GrossWatts(netCap: real, fanPower: real, mode: Mode, k: PosReal): real {
    var netW := netCap / k;
    if mode == Cooling then netW + fanPower else netW - fanPower
  }

  /** The gross capacity back in Btu/h. */
  function GrossCapacity(netCap: real, fanPower: real, mode: Mode, k: PosReal): (r: real)
    ensures mode == Cooling ==> r == netCap + fanPower * k
    ensures mode == Heating ==> r == netCap - fanPower * k
  {
    GrossWatts(netCap, fanPower, mode, k) * k
  }

  /** The reverse adjustment, from gross capacity to net. */
  function NetCapacity(grossCap: real, fanPower: real, mode: Mode, k: PosReal): real {
    if mode == Cooling then grossCap - fanPower * k else grossCap + fanPower * k
  }

  lemma CapacityRoundTrip(netCap: real, fanPower: real, mode: Mode, k: PosReal)
    ensures NetCapacity(GrossCapacity(netCap, fanPower, mode, k), fanPower, mode, k) == netCap
  {
  }

  /** Net compressor-plus-fan power (W) of a point: net capacity over net COP. */
  function NetPower(netCap: real, cop: real, k: PosReal): real {
    Quot(netCap / k, cop)
  }

  /** Gross capacity and, when a net COP is given, gross COP: the gross
      compressor power is the net power less the fan's power. */
  function NetToGross(netCap: real, fanPower: real, mode: Mode, netCop: Option<real>, k: PosReal): (r: (real, Option<real>))
    ensures r.0 == GrossCapacity(netCap, fanPower, mode, k)
    ensures r.1.Some? <==> netCop.Some?
    ensures netCop.Some? && NetPower(netCap, netCop.value, k) - fanPower != 0.0 ==>
              r.1.value * (NetPower(netCap, netCop.value, k) - fanPower) == GrossWatts(netCap, fanPower, mode, k)
  {
    var grossW := GrossWatts(netCap, fanPower, mode, k);
    match netCop
    case None => (grossW * k, None)
    case Some(cop) => (grossW * k, Some(Quot(grossW, NetPower(netCap, cop, k) - fanPower)))
  }

  /** The conversion keeps the power balance: net power (net capacity over
      net COP) equals gross power (gross capacity over gross COP) plus the
      fan's power. */
  lemma PowerBalance(netCap: real, fanPower: real, mode: Mode, cop: real, k: PosReal)
    requires NetPower(netCap, cop, k) - fanPower != 0.0
    ensures var r := NetToGross(netCap, fanPower, mode, Some(cop), k);
            r.1.value != 0.0 ==> NetPower(netCap, cop, k) == GrossWatts(netCap, fanPower, mode, k) / r.1.value + fanPower
  {
    var x := NetToGross(netCap, fanPower, mode, Some(cop), k).1.value;
    if x != 0.0 {
      DivideBack(GrossWatts(netCap, fanPower, mode, k), x, NetPower(netCap, cop, k) - fanPower);
    }
  }

  // ---------------------------------------------------------------------
  // Fan power at a data point

  /** Airflow (cfm) for a capacity (Btu/h) at a given cfm per ton. */
  function Airflow(capacity: real, cfmPerTon: real): real {
    capacity / 12000.0 * cfmPerTon
  }

  /** Fan power at a point of a series: the rated fan power per cfm times the
      airflow at maximum capacity, scaled by the cube of the point's fan
      speed ratio (capacity ratio times the ratio of the series' cfm per ton
      to the maximum's). */
  function FanPowerAt(capacity: real, maxCapacity: real, cfmSpeed: real, cfmMax: real, fanPowerRated: real): (r: real)
    ensures maxCapacity != 0.0 && capacity == maxCapacity && cfmSpeed == cfmMax ==>
              r == fanPowerRated * Airflow(maxCapacity, cfmMax)
  {
    var capRatio := Quot(capacity, maxCapacity);
    var fanRatio := Quot(capRatio * cfmSpeed, cfmMax);
    var maxCfm := Airflow(maxCapacity, cfmMax);
    fanPowerRated * maxCfm * (fanRatio * fanRatio * fanRatio)
  }

  /** The fan law behind it: the point's fan power times the square of the
      maximum airflow equals the rated power per cfm times the cube of the
      point's own airflow. */
  lemma FanPowerCubeLaw(capacity: real, maxCapacity: real, cfmSpeed: real, cfmMax: real, fanPowerRated: real)
    requires maxCapacity != 0.0 && cfmMax != 0.0
    ensures var m := Airflow(maxCapacity, cfmMax);
            var a := Airflow(capacity, cfmSpeed);
            FanPowerAt(capacity, maxCapacity, cfmSpeed, cfmMax, fanPowerRated) * (m * m) == fanPowerRated * (a * a * a)
  {
    var capRatio := capacity / maxCapacity;
    var fanRatio := (capRatio * cfmSpeed) / cfmMax;
    var m := Airflow(maxCapacity, cfmMax);
    var a := Airflow(capacity, cfmSpeed);
    assert fanRatio * m == a by {
      assert capRatio * maxCapacity == capacity;
      assert fanRatio * cfmMax == capRatio * cfmSpeed;
      calc {
        fanRatio * m;
        fanRatio * (maxCapacity / 12000.0 * cfmMax);
        (fanRatio * cfmMax) * maxCapacity / 12000.0;
        capRatio * cfmSpeed * maxCapacity / 12000.0;
        (capRatio * maxCapacity) * cfmSpeed / 12000.0;
        a;
      }
    }
    CubeScale(fanRatio, m, a, fanPowerRated);
  }

  lemma CubeScale(x: real, m: real, a: real, c: real)
    requires x * m == a
    ensures c * m * (x * x * x) * (m * m) == c * (a * a * a)
  {
    calc {
      c * m * (x * x * x) * (m * m);
      c * ((x * m) * (x * m) * (x * m));
      c * (a * a * a);
    }
  }

  /** The first point of s at temperature t. */
  function FindAt(s: seq<DataPoint>, t: real): (r: Option<DataPoint>)
    ensures r.Some? ==> r.value in s && r.value.odb == t
    ensures r.None? <==> forall p :: p in s ==> p.odb != t
  {
    if |s| == 0 then None
    else if s[0].odb == t then Some(s[0])
    else
      assert forall p :: p in s <==> p == s[0] || p in s[1..];
      FindAt(s[1..], t)
  }

  /** Converts one series to gross values. Each point's fan power uses the
      capacity of the maximum series at the same temperature; a temperature
      missing from the maximum series is an error (the source then reads a
      field of nil). */
  function SeriesToGross(s: seq<DataPoint>, maxSeries: seq<DataPoint>, cfmSpeed: real, cfmMax: real,
                         fanPowerRated: real, mode: Mode, k: PosReal): (r: Result<seq<TablePoint>>)
    ensures r.Ok? <==> forall i :: 0 <= i < |s| ==> FindAt(maxSeries, s[i].odb).Some?
    ensures r.Ok? ==> |r.value| == |s|
    ensures r.Ok? ==> forall i :: 0 <= i < |s| ==>
              r.value[i].odb == s[i].odb &&
              r.value[i].capacity == GrossCapacity(s[i].capacity,
                FanPowerAt(s[i].capacity, FindAt(maxSeries, s[i].odb).value.capacity, cfmSpeed, cfmMax, fanPowerRated), mode, k)
    ensures r.Ok? ==> forall i :: 0 <= i < |s| ==>
              var fan := FanPowerAt(s[i].capacity, FindAt(maxSeries, s[i].odb).value.capacity, cfmSpeed, cfmMax, fanPowerRated);
              r.value[i].cop == NetToGross(s[i].capacity, fan, mode, Some(s[i].cop), k).1.value
  {
    if |s| == 0 then Ok([])
    else
      var p := s[0];
      match FindAt(maxSeries, p.odb)
      case None => Fail("no maximum-capacity point at this outdoor temperature")
      case Some(m) =>
        var fan := FanPowerAt(p.capacity, m.capacity, cfmSpeed, cfmMax, fanPowerRated);
        var g := NetToGross(p.capacity, fan, mode, Some(p.cop), k);
        var rest := SeriesToGross(s[1..], maxSeries, cfmSpeed, cfmMax, fanPowerRated, mode, k);
        assert forall i :: 1 <= i < |s| ==> s[1..][i - 1] == s[i];
        if rest.Fail? then rest
        else Ok([TablePoint(p.odb, g.0, g.1.value)] + rest.value)
  }
}
