/** The whole processing of a heat pump's detailed performance data for one
    mode: grouping into minimum- and maximum-capacity series, net to gross
    conversion, boundary points, adaptive refinement and the indoor
    expansion, in the order the source applies them. */
module DetailedPerformance {
  import opened Wrappers
  import opened Arith
  import opened DetailedData
  import opened TablePoints
  import opened BoundaryPoints
  import opened Refinement
  import opened IndoorExpansion

  /** The table steps on a gross series: boundary points, then adaptive
      refinement. Both only append. */
  function TableSteps(g: seq<TablePoint>, mode: Mode, weather: real, lockout: Option<real>): (r: Result<seq<TablePoint>>)
    ensures |g| < 2 ==> r.Fail?
    ensures r.Ok? ==> g <= r.value
  {
    var bounded := AddBoundaryPoints(g, mode, weather, lockout);
    if bounded.Fail? then Fail(bounded.reason)
    else
      var refined := AddAdaptivePoints(bounded.value, mode, StepTol);
      if refined.Fail? then Fail(refined.reason)
      else
        assert g <= refined.value by {
          assert g <= bounded.value;
          assert bounded.value <= refined.value;
        }
        refined
  }

  /** One series through all steps after grouping. */
  function ProcessSeries(s: seq<DataPoint>, maxSeries: seq<DataPoint>, cfmSpeed: real, cfmMax: real,
                         fanPowerRated: real, mode: Mode, weather: real, lockout: Option<real>, k: PosReal): (r: Result<seq<IndoorPoint>>)
    ensures |s| < 2 ==> r.Fail?
    ensures r.Ok? ==> SeriesToGross(s, maxSeries, cfmSpeed, cfmMax, fanPowerRated, mode, k).Ok?
    ensures r.Ok? ==> |r.value| % 3 == 0 && |r.value| >= 3 * |s|
    ensures r.Ok? ==>
              var gross := SeriesToGross(s, maxSeries, cfmSpeed, cfmMax, fanPowerRated, mode, k).value;
              forall i :: 0 <= i < |s| ==>
                r.value[i] == IndoorPoint(RatedIndoor(mode), s[i].odb, gross[i].capacity, gross[i].cop)
  {
    var gross := SeriesToGross(s, maxSeries, cfmSpeed, cfmMax, fanPowerRated, mode, k);
    if gross.Fail? then Fail(gross.reason)
    else
      var t := TableSteps(gross.value, mode, weather, lockout);
      if t.Fail? then Fail(t.reason)
      else
        var e := ExpandIndoor(t.value, mode);
        ExpandKeeps(gross.value, t.value, mode);
        Ok(e)
  }

  /** The expansion of a series extending g starts with g's points at the
      rated indoor temperature. */
  lemma ExpandKeeps(g: seq<TablePoint>, t: seq<TablePoint>, mode: Mode)
    requires g <= t
    ensures var e := ExpandIndoor(t, mode);
            |e| % 3 == 0 && |e| >= 3 * |g| &&
            forall i :: 0 <= i < |g| ==> e[i] == IndoorPoint(RatedIndoor(mode), g[i].odb, g[i].capacity, g[i].cop)
  {
    var e := ExpandIndoor(t, mode);
    forall i | 0 <= i < |g|
      ensures e[i] == IndoorPoint(RatedIndoor(mode), g[i].odb, g[i].capacity, g[i].cop)
    {
      assert t[i] == g[i];
    }
  }

  /** The data of one mode: the minimum-capacity series' table and the
      maximum-capacity series'. The minimum series takes its airflow from
      the first cfm per ton, the maximum series from the last. */
  function ProcessDetailedPerformance(points: seq<DataPoint>, cfmMin: real, cfmMax: real, fanPowerRated: real,
                                      mode: Mode, weather: real, lockout: Option<real>, k: PosReal): (r: Result<(seq<IndoorPoint>, seq<IndoorPoint>)>)
    ensures var (minSeries, maxSeries) := GroupBySpeed(points);
            r.Ok? ==>
              ProcessSeries(minSeries, maxSeries, cfmMin, cfmMax, fanPowerRated, mode, weather, lockout, k) == Ok(r.value.0) &&
              ProcessSeries(maxSeries, maxSeries, cfmMax, cfmMax, fanPowerRated, mode, weather, lockout, k) == Ok(r.value.1)
    ensures var (minSeries, maxSeries) := GroupBySpeed(points);
            |minSeries| < 2 || |maxSeries| < 2 ==> r.Fail?
  {
    var (minSeries, maxSeries) := GroupBySpeed(points);
    var lo := ProcessSeries(minSeries, maxSeries, cfmMin, cfmMax, fanPowerRated, mode, weather, lockout, k);
    var hi := ProcessSeries(maxSeries, maxSeries, cfmMax, cfmMax, fanPowerRated, mode, weather, lockout, k);
    if lo.Fail? then Fail(lo.reason)
    else if hi.Fail? then Fail(hi.reason)
    else Ok((lo.value, hi.value))
  }

  /** The table holds a point at the mode's rated indoor temperature and the
      given outdoor temperature. */
  predicate HasRatedPoint(table: seq<IndoorPoint>, odb: real, mode: Mode)
  {
    exists i :: 0 <= i < |table| && table[i].odb == odb && table[i].indoor == RatedIndoor(mode)
  }

  /** Every point of a processed series is in its table, at the rated indoor
      temperature and its own outdoor temperature. */
  lemma SeriesPointKept(s: seq<DataPoint>, maxSeries: seq<DataPoint>, cfmSpeed: real, cfmMax: real,
                        fanPowerRated: real, mode: Mode, weather: real, lockout: Option<real>, k: PosReal,
                        table: seq<IndoorPoint>, p: DataPoint)
    requires ProcessSeries(s, maxSeries, cfmSpeed, cfmMax, fanPowerRated, mode, weather, lockout, k) == Ok(table)
    requires p in s
    ensures HasRatedPoint(table, p.odb, mode)
  {
    var i :| 0 <= i < |s| && s[i] == p;
    assert table[i].odb == s[i].odb && table[i].indoor == RatedIndoor(mode);
  }

  /** Every user point of either series keeps its outdoor temperature and
      appears in its series' table at the rated indoor temperature. */
  lemma UserPointsKept(points: seq<DataPoint>, cfmMin: real, cfmMax: real, fanPowerRated: real,
                       mode: Mode, weather: real, lockout: Option<real>, k: PosReal, p: DataPoint)
    requires ProcessDetailedPerformance(points, cfmMin, cfmMax, fanPowerRated, mode, weather, lockout, k).Ok?
    requires p in points && (p.desc == Minimum || p.desc == Maximum)
    ensures var r := ProcessDetailedPerformance(points, cfmMin, cfmMax, fanPowerRated, mode, weather, lockout, k).value;
            var table := if p.desc == Minimum then r.0 else r.1;
            HasRatedPoint(table, p.odb, mode)
  {
    var r := ProcessDetailedPerformance(points, cfmMin, cfmMax, fanPowerRated, mode, weather, lockout, k).value;
    var g := GroupBySpeed(points);
    if p.desc == Minimum {
      assert HasRatedPoint(r.0, p.odb, mode) by {
        assert p in g.0;
        SeriesPointKept(g.0, g.1, cfmMin, cfmMax, fanPowerRated, mode, weather, lockout, k, r.0, p);
      }
    } else {
      assert HasRatedPoint(r.1, p.odb, mode) by {
        assert p in g.1;
        SeriesPointKept(g.1, g.1, cfmMax, cfmMax, fanPowerRated, mode, weather, lockout, k, r.1, p);
      }
    }
  }
}
