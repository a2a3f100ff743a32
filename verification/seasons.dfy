/** The default heating and cooling seasons from the weather file's monthly
    average dry-bulb temperatures (the Building America House Simulation
    Protocols definition), and the default ceiling fan months. Months are
    numbered 0 (January) to 11 (December). */
module Seasons {
  import opened Wrappers

  const NumMonths: int := 12

  /** Months at or above this average temperature are cooling months. */
  const SeasonBasisTemp: real := 66.0
  /** The heating override applies only where the heating design temperature
      is below this. */
  const OverrideDesignTemp: real := 59.0
  /** Ceiling fans run in months whose average temperature exceeds this. */
  const CeilingFanTemp: real := 63.0

  /** The month before month i; January's is December, as with the source's
      index -1. */
  function PrevMonth(i: int): (p: int)
    requires 0 <= i < NumMonths
    ensures 0 <= p < NumMonths && (p + 1) % NumMonths == i
  {
    (i + NumMonths - 1) % NumMonths
  }

  /** December and January north of the equator, July and August south of it. */
  function HeatingOverride(southern: bool, i: int): bool {
    if southern then i == 6 || i == 7 else i == 0 || i == 11
  }

  /** July and August north of the equator, December and January south of it. */
  function CoolingOverride(southern: bool, i: int): bool {
    if southern then i == 0 || i == 11 else i == 6 || i == 7
  }

  /** The months a ceiling fan runs: those warmer than 63 F on average. */
  function CeilingFanMonths(temps: seq<real>): (r: seq<bool>)
    ensures |r| == |temps|
    ensures forall m :: 0 <= m < |temps| ==> (r[m] <==> temps[m] > CeilingFanTemp)
  {
    seq(|temps|, m requires 0 <= m < |temps| => temps[m] > CeilingFanTemp)
  }

  /** Warmer months never switch a ceiling fan off. */
  lemma CeilingFanMonotone(a: seq<real>, b: seq<real>)
    requires |a| == |b| && forall m :: 0 <= m < |a| ==> a[m] <= b[m]
    ensures forall m :: 0 <= m < |a| && CeilingFanMonths(a)[m] ==> CeilingFanMonths(b)[m]
  {
  }

  /** The heating basis: cold months, plus the winter override months where
      the heating design temperature is below 59 F. */
  function HeatingBasis(temps: seq<real>, designDb: real, southern: bool): (r: seq<bool>)
    ensures |r| == |temps|
    ensures forall i :: 0 <= i < |temps| && temps[i] < SeasonBasisTemp ==> r[i]
  {
    seq(|temps|, i requires 0 <= i < |temps| =>
      temps[i] < SeasonBasisTemp || (HeatingOverride(southern, i) && designDb < OverrideDesignTemp))
  }

  /** The cooling basis: warm months, plus the summer override months when the
      heating override did not take the month. */
  function CoolingBasis(temps: seq<real>, designDb: real, southern: bool): (r: seq<bool>)
    ensures |r| == |temps|
    ensures forall i :: 0 <= i < |temps| && temps[i] >= SeasonBasisTemp ==> r[i]
  {
    seq(|temps|, i requires 0 <= i < |temps| =>
      temps[i] >= SeasonBasisTemp ||
      (!(HeatingOverride(southern, i) && designDb < OverrideDesignTemp) && CoolingOverride(southern, i)))
  }

  /** The first index from i on whose flag is set, if any. */
  function FirstFrom(s: seq<bool>, i: nat): (r: Option<nat>)
    requires i <= |s|
    ensures r.Some? ==> i <= r.value < |s| && s[r.value] && forall j :: i <= j < r.value ==> !s[j]
    ensures r.None? ==> forall j :: i <= j < |s| ==> !s[j]
    decreases |s| - i
  {
    if i == |s| then None
    else if s[i] then Some(i)
    else FirstFrom(s, i + 1)
  }

  /** The seasons before the extra cooling month: a month heats when its
      basis says so or when it starts a run of cooling-basis months (heating
      overlaps cooling at the beginning of summer); it cools when its basis
      says so or when it starts a run of heating-basis months. */
  function OverlapSeasons(hb: seq<bool>, cb: seq<bool>): (r: (seq<bool>, seq<bool>))
    requires |hb| == NumMonths && |cb| == NumMonths
    ensures |r.0| == NumMonths && |r.1| == NumMonths
    ensures forall i :: 0 <= i < NumMonths ==> (hb[i] ==> r.0[i]) && (cb[i] ==> r.1[i])
    ensures forall i :: 0 <= i < NumMonths ==> (r.0[i] ==> hb[i] || cb[i]) && (r.1[i] ==> hb[i] || cb[i])
  {
    (seq(NumMonths, i requires 0 <= i < NumMonths => hb[i] || (!cb[PrevMonth(i)] && cb[i])),
     seq(NumMonths, i requires 0 <= i < NumMonths => cb[i] || (!hb[PrevMonth(i)] && hb[i])))
  }

  /** The cooling season with the month before its first month added. */
  function AddMonthBefore(cooling: seq<bool>): (r: seq<bool>)
    requires |cooling| == NumMonths
    ensures |r| == NumMonths
    ensures forall i :: 0 <= i < NumMonths && cooling[i] ==> r[i]
    ensures FirstFrom(cooling, 0).None? ==> r == cooling
    ensures FirstFrom(cooling, 0).Some? ==>
              var f := FirstFrom(cooling, 0).value;
              r[PrevMonth(f)] &&
              forall i :: 0 <= i < NumMonths && i != PrevMonth(f) ==> r[i] == cooling[i]
  {
    var first := FirstFrom(cooling, 0);
    if first.None? then cooling
    else cooling[PrevMonth(first.value) := true]
  }

  /** The default seasons (heating, cooling) for twelve monthly average
      temperatures, the heating design temperature and the latitude. */
  function DefaultSeasons(temps: seq<real>, designDb: real, latitude: real): (r: (seq<bool>, seq<bool>))
    requires |temps| == NumMonths
    ensures |r.0| == NumMonths && |r.1| == NumMonths
    ensures forall i :: 0 <= i < NumMonths ==> r.0[i] || r.1[i]
    ensures forall i :: 0 <= i < NumMonths && temps[i] < SeasonBasisTemp ==> r.0[i]
    ensures forall i :: 0 <= i < NumMonths && temps[i] >= SeasonBasisTemp ==> r.1[i]
  {
    var southern := latitude < 0.0;
    var hb := HeatingBasis(temps, designDb, southern);
    var cb := CoolingBasis(temps, designDb, southern);
    var (heating, cooling) := OverlapSeasons(hb, cb);
    (heating, AddMonthBefore(cooling))
  }

  /** The extensions only add months: every month of either basis stays in
      its season, and the only cooling month that is in neither the cooling
      basis nor the start of a heating run is the one before the first
      cooling month. */
  lemma SeasonsExtendBases(temps: seq<real>, designDb: real, latitude: real)
    requires |temps| == NumMonths
    ensures var southern := latitude < 0.0;
            var hb := HeatingBasis(temps, designDb, southern);
            var cb := CoolingBasis(temps, designDb, southern);
            var (heating, cooling) := DefaultSeasons(temps, designDb, latitude);
            forall i :: 0 <= i < NumMonths ==>
              (hb[i] ==> heating[i]) && (cb[i] ==> cooling[i]) &&
              (heating[i] <==> hb[i] || (!cb[PrevMonth(i)] && cb[i])) &&
              (cooling[i] && !cb[i] && !(!hb[PrevMonth(i)] && hb[i]) ==>
                 var f := FirstFrom(OverlapSeasons(hb, cb).1, 0);
                 f.Some? && i == PrevMonth(f.value))
  {
  }

  /** Ceiling fans and the default seasons agree where the thresholds
      decide: a month the fan skips (63 F or cooler) is a heating month, a
      month at 66 F or warmer runs the fan and is a cooling month, and a fan
      month outside the cooling season lies strictly between 63 and 66 F. */
  lemma CeilingFanWithinSeasons(temps: seq<real>, designDb: real, latitude: real)
    requires |temps| == NumMonths
    ensures var fan := CeilingFanMonths(temps);
            var (heating, cooling) := DefaultSeasons(temps, designDb, latitude);
            forall m :: 0 <= m < NumMonths ==>
              (!fan[m] ==> heating[m]) &&
              (temps[m] >= SeasonBasisTemp ==> fan[m] && cooling[m]) &&
              (fan[m] && !cooling[m] ==> CeilingFanTemp < temps[m] < SeasonBasisTemp)
  {
  }

  /** Outside the override months every month is in exactly one basis. */
  lemma BasesSplitYear(temps: seq<real>, designDb: real, latitude: real, i: int)
    requires |temps| == NumMonths && 0 <= i < NumMonths
    requires !HeatingOverride(latitude < 0.0, i) && !CoolingOverride(latitude < 0.0, i)
    ensures var southern := latitude < 0.0;
            HeatingBasis(temps, designDb, southern)[i] != CoolingBasis(temps, designDb, southern)[i]
  {
  }
}
