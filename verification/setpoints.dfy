/** Thermostat setpoint schedules: the default setpoints of ANSI/RESNET/ICC
    301, the daily setback (heating) and setup (cooling) windows, the
    ceiling fan offset on cooling setpoints, and the reconciliation that
    keeps every hour's heating setpoint at or below its cooling setpoint. */
module Setpoints {
  import opened Wrappers
  import opened Arith

  const HoursPerDay: int := 24

  /** One day's hourly setpoints. */
  type Row = seq<real>

  datatype ControlType = Manual | Programmable | OtherControl

  /** A setback (heating) or setup (cooling): the temperature, the hours per
      week it applies and the hour of day it starts. */
  datatype Setback = Setback(temp: real, hoursPerWeek: int, startHour: int)

  // ---------------------------------------------------------------------
  // Defaults

  /** The default heating setpoint: 68 F; a programmable thermostat sets back
      to 66 F from 11 p.m. for 7 hours a day. */
  function DefaultHeatingSetpoint(c: ControlType): (r: Result<(real, Option<Setback>)>)
    ensures r.Ok? <==> c != OtherControl
    ensures r.Ok? ==> r.value.0 == 68.0 && (r.value.1.Some? <==> c == Programmable)
    ensures r.Ok? && r.value.1.Some? ==> r.value.1.value.temp < r.value.0
  {
    match c
    case Manual => Ok((68.0, None))
    case Programmable => Ok((68.0, Some(Setback(66.0, 7 * 7, 23))))
    case OtherControl => Fail("Unexpected control type")
  }

  /** The default cooling setpoint: 78 F; a programmable thermostat sets up to
      80 F from 9 a.m. for 6 hours a day. */
  function DefaultCoolingSetpoint(c: ControlType): (r: Result<(real, Option<Setback>)>)
    ensures r.Ok? <==> c != OtherControl
    ensures r.Ok? ==> r.value.0 == 78.0 && (r.value.1.Some? <==> c == Programmable)
    ensures r.Ok? && r.value.1.Some? ==> r.value.1.value.temp > r.value.0
  {
    match c
    case Manual => Ok((78.0, None))
    case Programmable => Ok((78.0, Some(Setback(80.0, 6 * 7, 9))))
    case OtherControl => Fail("Unexpected control type")
  }

  // ---------------------------------------------------------------------
  // Setback windows

  /** Ruby's Integer() of a float: truncation toward zero. The quotient is
      the one integer whose multiple of d lies within d of a on a's side of
      zero, so it never overshoots a, unlike floor division for negative a. */
  function TruncDiv(a: int, d: int): (q: int)
    requires d > 0
    ensures a >= 0 ==> q >= 0 && d * q <= a < d * q + d
    ensures a < 0 ==> q <= 0 && d * q - d < a <= d * q
  {
    if a >= 0 then
      EuclidNonNeg(a, d);
      a / d
    else
      EuclidNonNeg(-a, d);
      -((-a) / d)
  }

  /** Division of a non-negative number by a positive one rounds down. */
  lemma EuclidNonNeg(b: int, d: int)
    requires b >= 0 && d > 0
    ensures b / d >= 0 && d * (b / d) <= b < d * (b / d) + d
  {
  }

  /** The hours a day a setback applies: its hours per week over 7, truncated. */
  function DailyHours(s: Setback): int {
    TruncDiv(s.hoursPerWeek, 7)
  }

  /** The source's loop over the window: hour by hour from start, each written
      at its hour of the day (modulo 24), count hours in all. */
  function ApplyWindow(row: Row, start: int, count: int, v: real): (r: Row)
    requires |row| == HoursPerDay
    ensures |r| == HoursPerDay
    decreases count
  {
    if count <= 0 then row
    else ApplyWindow(row[start % HoursPerDay := v], start + 1, count - 1, v)
  }

  /** Hour h is in the window of count hours from start, wrapping at midnight. */
  predicate InWindow(h: int, start: int, count: int) {
    (h - start) % HoursPerDay < count
  }

  /** The loop sets exactly the hours of the wrapped window, whatever the
      start and however long the window (a window of 24 hours or more covers
      the whole day). */
  lemma {:induction false} WindowClosedForm(row: Row, start: int, count: int, v: real)
    requires |row| == HoursPerDay
    ensures forall h :: 0 <= h < HoursPerDay ==>
              ApplyWindow(row, start, count, v)[h] == if InWindow(h, start, count) then v else row[h]
    decreases count
  {
    if count > 0 {
      var row' := row[start % HoursPerDay := v];
      WindowClosedForm(row', start + 1, count - 1, v);
      forall h | 0 <= h < HoursPerDay
        ensures ApplyWindow(row, start, count, v)[h] == if InWindow(h, start, count) then v else row[h]
      {
        WindowStep(h, start, count);
      }
    }
  }

  /** Hour h is in the window from start exactly when it is the start hour or
      in the window one hour shorter from the next hour. */
  lemma WindowStep(h: int, start: int, count: int)
    requires 0 <= h < HoursPerDay && count > 0
    ensures InWindow(h, start, count) <==> h == start % HoursPerDay || InWindow(h, start + 1, count - 1)
  {
    var a := (h - start) % HoursPerDay;
    var k := (h - start) / HoursPerDay;
    assert h - start == k * HoursPerDay + a;
    if a == 0 {
      assert h - start - 1 == (k - 1) * HoursPerDay + 23;
      ModUnique(h - start - 1, k - 1, 23);
      ModUnique(start, -k, h);
    } else {
      assert h - start - 1 == k * HoursPerDay + (a - 1);
      ModUnique(h - start - 1, k, a - 1);
      if h >= a {
        ModUnique(start, -k, h - a);
      } else {
        ModUnique(start, -k - 1, h - a + HoursPerDay);
      }
    }
  }

  /** The remainder by 24 is the r of any x == q * 24 + r with r in range. */
  lemma ModUnique(x: int, q: int, r: int)
    requires x == q * HoursPerDay + r && 0 <= r < HoursPerDay
    ensures x % HoursPerDay == r
  {
  }

  /** The default programmable heating setback covers 11 p.m. to 5:59 a.m.
      and the default cooling setup 9 a.m. to 2:59 p.m. */
  lemma DefaultWindows(h: int)
    requires 0 <= h < HoursPerDay
    ensures var s := DefaultHeatingSetpoint(Programmable).value.1.value;
            InWindow(h, s.startHour, DailyHours(s)) <==> h == 23 || h <= 5
    ensures var s := DefaultCoolingSetpoint(Programmable).value.1.value;
            InWindow(h, s.startHour, DailyHours(s)) <==> 9 <= h <= 14
  {
  }

  // ---------------------------------------------------------------------
  // Hourly setpoints by day

  /** A thermostat's setpoint inputs (in F): the base setpoint and optional
      setback, or optional explicit 24-hour weekday and weekend lists (the
      comma-separated text already parsed). A setback whose hours or start
      is missing has None there. */
  datatype Control = Control(
    setpoint: real,
    setback: Option<real>,
    hoursPerWeek: Option<int>,
    startHour: Option<int>,
    weekday: Option<Row>,
    weekend: Option<Row>)

  /** The base row: the setpoint every hour, with the setback window when a
      setback is given. */
  function BaseRow(c: Control): (r: Result<Row>)
    ensures r.Ok? <==> c.setback.None? || (c.hoursPerWeek.Some? && c.startHour.Some?)
    ensures r.Ok? ==> |r.value| == HoursPerDay
    ensures r.Ok? ==> forall h :: 0 <= h < HoursPerDay ==>
              r.value[h] == if c.setback.Some? && InWindow(h, c.startHour.value, TruncDiv(c.hoursPerWeek.value, 7))
                            then c.setback.value else c.setpoint
  {
    var flat := seq(HoursPerDay, _ => c.setpoint);
    if c.setback.None? then Ok(flat)
    else if c.hoursPerWeek.None? || c.startHour.None? then Fail("setback hours or start hour is nil")
    else
      var count := TruncDiv(c.hoursPerWeek.value, 7);
      WindowClosedForm(flat, c.startHour.value, count, c.setback.value);
      Ok(ApplyWindow(flat, c.startHour.value, count, c.setback.value))
  }

  /** The weekday and weekend rows for every day, in F: the explicit lists
      when both are given, otherwise the base row for both. Every day has the
      same row (the source shares one row among all days). */
  function DailyRows(c: Control, numDays: nat): (r: Result<(seq<Row>, seq<Row>)>)
    ensures r.Ok? <==> (c.weekday.Some? && c.weekend.Some?) || BaseRow(c).Ok?
    ensures r.Ok? ==> |r.value.0| == numDays && |r.value.1| == numDays
    ensures r.Ok? && c.weekday.Some? && c.weekend.Some? ==>
              forall d :: 0 <= d < numDays ==> r.value.0[d] == c.weekday.value && r.value.1[d] == c.weekend.value
    ensures r.Ok? && !(c.weekday.Some? && c.weekend.Some?) ==>
              forall d :: 0 <= d < numDays ==> r.value.0[d] == BaseRow(c).value && r.value.1[d] == BaseRow(c).value
  {
    if c.weekday.Some? && c.weekend.Some? then
      Ok((seq(numDays, _ => c.weekday.value), seq(numDays, _ => c.weekend.value)))
    else
      var base := BaseRow(c);
      if base.Fail? then Fail(base.reason)
      else Ok((seq(numDays, _ => base.value), seq(numDays, _ => base.value)))
  }

  function RowToC(row: Row): (r: Row)
    ensures |r| == |row| && forall h :: 0 <= h < |row| ==> r[h] == FToC(row[h])
  {
    seq(|row|, h requires 0 <= h < |row| => FToC(row[h]))
  }

  function RowsToC(rows: seq<Row>): (r: seq<Row>)
    ensures |r| == |rows| && forall d :: 0 <= d < |rows| ==> r[d] == RowToC(rows[d])
  {
    seq(|rows|, d requires 0 <= d < |rows| => RowToC(rows[d]))
  }

  /** The heating setpoints by day, weekday and weekend, in C. */
  function HeatingSetpoints(c: Control, numDays: nat): (r: Result<(seq<Row>, seq<Row>)>)
    ensures r.Ok? <==> DailyRows(c, numDays).Ok?
    ensures r.Ok? ==> |r.value.0| == numDays && |r.value.1| == numDays
    ensures r.Ok? ==> forall d :: 0 <= d < numDays ==>
              var (wkdy, wked) := DailyRows(c, numDays).value;
              |r.value.0[d]| == |wkdy[d]| && |r.value.1[d]| == |wked[d]| &&
              (forall h :: 0 <= h < |wkdy[d]| ==> r.value.0[d][h] == FToC(wkdy[d][h])) &&
              (forall h :: 0 <= h < |wked[d]| ==> r.value.1[d][h] == FToC(wked[d][h]))
  {
    var rows := DailyRows(c, numDays);
    if rows.Fail? then Fail(rows.reason)
    else Ok((RowsToC(rows.value.0), RowsToC(rows.value.1)))
  }

  /** Adds the ceiling fan offset to the rows of the days the fan runs (flag
      1); the hourwise sum needs a 24-hour row. */
  function AddFanOffset(rows: seq<Row>, fanDays: seq<int>, offset: real): (r: Result<seq<Row>>)
    requires |fanDays| == |rows|
    ensures r.Ok? <==> forall d :: 0 <= d < |rows| && fanDays[d] == 1 ==> |rows[d]| == HoursPerDay
    ensures r.Ok? ==> |r.value| == |rows|
    ensures r.Ok? ==> forall d :: 0 <= d < |rows| && fanDays[d] != 1 ==> r.value[d] == rows[d]
    ensures r.Ok? ==> forall d :: 0 <= d < |rows| && fanDays[d] == 1 ==>
              |r.value[d]| == HoursPerDay && forall h :: 0 <= h < HoursPerDay ==> r.value[d][h] == rows[d][h] + offset
  {
    if exists d :: 0 <= d < |rows| && fanDays[d] == 1 && |rows[d]| != HoursPerDay then
      Fail("ceiling fan offset needs 24 hourly setpoints")
    else
      Ok(seq(|rows|, d requires 0 <= d < |rows| =>
        if fanDays[d] == 1 then seq(HoursPerDay, h requires 0 <= h < HoursPerDay => rows[d][h] + offset)
        else rows[d]))
  }

  /** The cooling setpoints by day, weekday and weekend, in C. With a ceiling
      fan and an offset, the days the fan runs (fanDays, one flag per day from
      the ceiling fan months) are raised by the offset before the conversion. */
  function CoolingSetpoints(c: Control, hasCeilingFan: bool, fanOffset: Option<real>, fanDays: seq<int>, numDays: nat): (r: Result<(seq<Row>, seq<Row>)>)
    requires |fanDays| == numDays
    ensures DailyRows(c, numDays).Fail? ==> r.Fail?
    ensures r.Ok? ==> |r.value.0| == numDays && |r.value.1| == numDays
    ensures r.Ok? && !(hasCeilingFan && fanOffset.Some?) ==>
              var (wkdy, wked) := DailyRows(c, numDays).value;
              r.value == (RowsToC(wkdy), RowsToC(wked))
    ensures r.Ok? && hasCeilingFan && fanOffset.Some? ==>
              var (wkdy, wked) := DailyRows(c, numDays).value;
              forall d :: 0 <= d < numDays && fanDays[d] == 1 ==>
                |r.value.0[d]| == HoursPerDay && |r.value.1[d]| == HoursPerDay &&
                |wkdy[d]| == HoursPerDay && |wked[d]| == HoursPerDay &&
                forall h :: 0 <= h < HoursPerDay ==>
                  r.value.0[d][h] == FToC(wkdy[d][h] + fanOffset.value) &&
                  r.value.1[d][h] == FToC(wked[d][h] + fanOffset.value)
    ensures r.Ok? && hasCeilingFan && fanOffset.Some? ==>
              var (wkdy, wked) := DailyRows(c, numDays).value;
              forall d :: 0 <= d < numDays && fanDays[d] != 1 ==>
                r.value.0[d] == RowToC(wkdy[d]) && r.value.1[d] == RowToC(wked[d])
    ensures r.Ok? <==>
              DailyRows(c, numDays).Ok? &&
              (hasCeilingFan && fanOffset.Some? ==>
                 var (wkdy, wked) := DailyRows(c, numDays).value;
                 forall d :: 0 <= d < numDays && fanDays[d] == 1 ==> |wkdy[d]| == HoursPerDay && |wked[d]| == HoursPerDay)
  {
    var rows := DailyRows(c, numDays);
    if rows.Fail? then Fail(rows.reason)
    else if hasCeilingFan && fanOffset.Some? then
      var wkdy := AddFanOffset(rows.value.0, fanDays, fanOffset.value);
      var wked := AddFanOffset(rows.value.1, fanDays, fanOffset.value);
      if wkdy.Fail? || wked.Fail? then Fail("ceiling fan offset needs 24 hourly setpoints")
      else Ok((RowsToC(wkdy.value), RowsToC(wked.value)))
    else Ok((RowsToC(rows.value.0), RowsToC(rows.value.1)))
  }

  // ---------------------------------------------------------------------
  // Reconciliation

  /** The season flags of a day: equal flags (both seasons or neither) share
      the deadband; otherwise the day must be in one season. */
  predicate ValidFlags(hd: int, cd: int) {
    hd == cd || hd == 1 || cd == 1
  }

  /** Which row the reconciliation of a day walks along: the cooling-only
      branch walks the cooling row, the others the heating row; the other row
      must be at least as long. */
  predicate PartnerCovers(hd: int, cd: int, h: Row, c: Row) {
    if hd != cd && hd != 1 then |h| >= |c| else |c| >= |h|
  }

  /** The reconciled heating and cooling rows of one day: in both seasons or
      neither, an inverted hour takes the average for both; in the heating
      season only, cooling rises to heating; in the cooling season only,
      heating drops to cooling. */
  function ReconcileRows(hd: int, cd: int, h: Row, c: Row): (r: Result<(Row, Row)>)
    ensures r.Ok? <==> ValidFlags(hd, cd) && PartnerCovers(hd, cd, h, c)
    ensures r.Ok? ==>
              var n := if hd != cd && hd != 1 then |c| else |h|;
              |r.value.0| == n && |r.value.1| == n &&
              forall i :: 0 <= i < n ==> r.value.0[i] <= r.value.1[i]
    ensures r.Ok? ==>
              var n := if hd != cd && hd != 1 then |c| else |h|;
              forall i :: 0 <= i < n && h[i] <= c[i] ==> r.value.0[i] == h[i] && r.value.1[i] == c[i]
    ensures r.Ok? && hd == cd ==>
              forall i :: 0 <= i < |h| && c[i] < h[i] ==>
                r.value.0[i] == (h[i] + c[i]) / 2.0 && r.value.1[i] == (h[i] + c[i]) / 2.0
    ensures r.Ok? && hd != cd && hd == 1 ==> r.value.0 == h
    ensures r.Ok? && hd != cd && hd != 1 ==> r.value.1 == c
  {
    if !ValidFlags(hd, cd) then Fail("HeatingSeason and CoolingSeason, when combined, must span the entire year.")
    else if !PartnerCovers(hd, cd, h, c) then Fail("setpoint rows of different lengths")
    else if hd == cd then
      Ok((seq(|h|, i requires 0 <= i < |h| => if c[i] < h[i] then (h[i] + c[i]) / 2.0 else h[i]),
          seq(|h|, i requires 0 <= i < |h| => if c[i] < h[i] then (h[i] + c[i]) / 2.0 else c[i])))
    else if hd == 1 then
      Ok((h, seq(|h|, i requires 0 <= i < |h| => if c[i] < h[i] then h[i] else c[i])))
    else
      Ok((seq(|c|, i requires 0 <= i < |c| => if c[i] < h[i] then c[i] else h[i]), c))
  }

  /** Reconciling twice changes nothing more: the first pass leaves no
      inverted hour. */
  lemma ReconcileIdempotent(hd: int, cd: int, h: Row, c: Row)
    requires ReconcileRows(hd, cd, h, c).Ok?
    ensures var (h', c') := ReconcileRows(hd, cd, h, c).value;
            ReconcileRows(hd, cd, h', c') == Ok((h', c'))
  {
    var (h', c') := ReconcileRows(hd, cd, h, c).value;
    var again := ReconcileRows(hd, cd, h', c');
    assert again.Ok?;
    assert again.value.0 == h';
    assert again.value.1 == c';
  }

  /** With rows of equal length, a day's rows change exactly when some hour
      is inverted. */
  lemma ReconcileChangesIffInverted(hd: int, cd: int, h: Row, c: Row)
    requires ValidFlags(hd, cd) && |h| == |c|
    ensures var (h', c') := ReconcileRows(hd, cd, h, c).value;
            (h' != h || c' != c) <==> exists i :: 0 <= i < |h| && c[i] < h[i]
  {
    var (h', c') := ReconcileRows(hd, cd, h, c).value;
    if exists i :: 0 <= i < |h| && c[i] < h[i] {
      var i :| 0 <= i < |h| && c[i] < h[i];
      assert h'[i] != h[i] || c'[i] != c[i];
    } else {
      assert h' == h;
      assert c' == c;
    }
  }

  /** One day's four rows. */
  datatype DayRows = DayRows(htgWeekday: Row, htgWeekend: Row, clgWeekday: Row, clgWeekend: Row)

  /** Every hour of a day has heating at or below cooling. */
  predicate Deadband(d: DayRows) {
    |d.htgWeekday| == |d.clgWeekday| && |d.htgWeekend| == |d.clgWeekend| &&
    (forall i :: 0 <= i < |d.htgWeekday| ==> d.htgWeekday[i] <= d.clgWeekday[i]) &&
    (forall i :: 0 <= i < |d.htgWeekend| ==> d.htgWeekend[i] <= d.clgWeekend[i])
  }

  function ReconcileDay(hd: int, cd: int, d: DayRows): (r: Result<DayRows>)
    ensures r.Ok? <==> ReconcileRows(hd, cd, d.htgWeekday, d.clgWeekday).Ok? && ReconcileRows(hd, cd, d.htgWeekend, d.clgWeekend).Ok?
    ensures r.Ok? ==>
              (r.value.htgWeekday, r.value.clgWeekday) == ReconcileRows(hd, cd, d.htgWeekday, d.clgWeekday).value &&
              (r.value.htgWeekend, r.value.clgWeekend) == ReconcileRows(hd, cd, d.htgWeekend, d.clgWeekend).value
  {
    var wkdy := ReconcileRows(hd, cd, d.htgWeekday, d.clgWeekday);
    var wked := ReconcileRows(hd, cd, d.htgWeekend, d.clgWeekend);
    if wkdy.Fail? then Fail(wkdy.reason)
    else if wked.Fail? then Fail(wked.reason)
    else Ok(DayRows(wkdy.value.0, wked.value.0, wkdy.value.1, wked.value.1))
  }

  /** A reconciled day keeps the deadband every hour, weekday and weekend. */
  lemma DayDeadband(hd: int, cd: int, d: DayRows)
    requires ReconcileDay(hd, cd, d).Ok?
    ensures Deadband(ReconcileDay(hd, cd, d).value)
  {
  }

  /** Reconciles day by day, failing at the first day that fails. */
  function ReconcileDays(hds: seq<int>, cds: seq<int>, days: seq<DayRows>): (r: Result<seq<DayRows>>)
    requires |hds| == |days| && |cds| == |days|
    ensures r.Ok? <==> forall i :: 0 <= i < |days| ==> ReconcileDay(hds[i], cds[i], days[i]).Ok?
    ensures r.Ok? ==> |r.value| == |days|
    ensures r.Ok? ==> forall i :: 0 <= i < |days| ==> r.value[i] == ReconcileDay(hds[i], cds[i], days[i]).value
    decreases |days|
  {
    if |days| == 0 then Ok([])
    else
      var first := ReconcileDay(hds[0], cds[0], days[0]);
      if first.Fail? then Fail(first.reason)
      else
        var rest := ReconcileDays(hds[1..], cds[1..], days[1..]);
        assert forall i :: 1 <= i < |days| ==>
                 ReconcileDay(hds[1..][i - 1], cds[1..][i - 1], days[1..][i - 1]) == ReconcileDay(hds[i], cds[i], days[i]);
        if rest.Fail? then Fail(rest.reason) else Ok([first.value] + rest.value)
  }

  /** The four setpoint arrays, indexed by day. */
  datatype Schedules = Schedules(htgWeekday: seq<Row>, htgWeekend: seq<Row>, clgWeekday: seq<Row>, clgWeekend: seq<Row>)

  predicate Sized(s: Schedules, n: nat) {
    |s.htgWeekday| == n && |s.htgWeekend| == n && |s.clgWeekday| == n && |s.clgWeekend| == n
  }

  function Day(s: Schedules, i: nat): DayRows
    requires i < |s.htgWeekday| && i < |s.htgWeekend| && i < |s.clgWeekday| && i < |s.clgWeekend|
  {
    DayRows(s.htgWeekday[i], s.htgWeekend[i], s.clgWeekday[i], s.clgWeekend[i])
  }

  function Days(s: Schedules, n: nat): (r: seq<DayRows>)
    requires Sized(s, n)
    ensures |r| == n && forall i :: 0 <= i < n ==> r[i] == Day(s, i)
  {
    seq(n, i requires 0 <= i < n => Day(s, i))
  }

  function FromDays(days: seq<DayRows>): (s: Schedules)
    ensures Sized(s, |days|) && forall i :: 0 <= i < |days| ==> Day(s, i) == days[i]
  {
    Schedules(seq(|days|, i requires 0 <= i < |days| => days[i].htgWeekday),
              seq(|days|, i requires 0 <= i < |days| => days[i].htgWeekend),
              seq(|days|, i requires 0 <= i < |days| => days[i].clgWeekday),
              seq(|days|, i requires 0 <= i < |days| => days[i].clgWeekend))
  }

  /** The reconciled schedules and whether any setpoint was adjusted (the
      source then warns). heatingDays and coolingDays hold one season flag per
      day of the year, as do the four arrays. */
  function CreateSetpointSchedules(heatingDays: seq<int>, coolingDays: seq<int>, s: Schedules): (r: Result<(Schedules, bool)>)
    requires |coolingDays| == |heatingDays| && Sized(s, |heatingDays|)
    ensures r.Ok? <==> forall i :: 0 <= i < |heatingDays| ==> ReconcileDay(heatingDays[i], coolingDays[i], Day(s, i)).Ok?
    ensures r.Ok? ==> Sized(r.value.0, |heatingDays|)
    ensures r.Ok? ==> forall i :: 0 <= i < |heatingDays| ==>
              Day(r.value.0, i) == ReconcileDay(heatingDays[i], coolingDays[i], Day(s, i)).value
    ensures r.Ok? ==> (r.value.1 <==> exists i :: 0 <= i < |heatingDays| && Day(r.value.0, i) != Day(s, i))
  {
    var n := |heatingDays|;
    var days := ReconcileDays(heatingDays, coolingDays, Days(s, n));
    if days.Fail? then Fail(days.reason)
    else
      var out := FromDays(days.value);
      Ok((out, exists i :: 0 <= i < n && Day(out, i) != Day(s, i)))
  }

  /** After reconciliation every day and hour has heating at or below
      cooling. */
  lemma DeadbandHolds(heatingDays: seq<int>, coolingDays: seq<int>, s: Schedules, i: nat)
    requires |coolingDays| == |heatingDays| && Sized(s, |heatingDays|)
    requires CreateSetpointSchedules(heatingDays, coolingDays, s).Ok? && i < |heatingDays|
    ensures Deadband(Day(CreateSetpointSchedules(heatingDays, coolingDays, s).value.0, i))
  {
    DayDeadband(heatingDays[i], coolingDays[i], Day(s, i));
  }

  /** Predicate for the rows of a schedule being full days. */
  predicate FullDays(s: Schedules, n: nat)
    requires Sized(s, n)
  {
    forall i :: 0 <= i < n ==>
      |s.htgWeekday[i]| == HoursPerDay && |s.htgWeekend[i]| == HoursPerDay &&
      |s.clgWeekday[i]| == HoursPerDay && |s.clgWeekend[i]| == HoursPerDay
  }

  /** With season flags of 0 or 1 and full-day rows the reconciliation never
      fails: a day in neither season shares the deadband like a day in both. */
  lemma BinaryFlagsSucceed(heatingDays: seq<int>, coolingDays: seq<int>, s: Schedules)
    requires |coolingDays| == |heatingDays| && Sized(s, |heatingDays|) && FullDays(s, |heatingDays|)
    requires forall i :: 0 <= i < |heatingDays| ==> 0 <= heatingDays[i] <= 1 && 0 <= coolingDays[i] <= 1
    ensures CreateSetpointSchedules(heatingDays, coolingDays, s).Ok?
  {
  }

  /** With full-day rows the source warns exactly when some hour had its
      heating setpoint above its cooling setpoint. */
  lemma WarningIffInverted(heatingDays: seq<int>, coolingDays: seq<int>, s: Schedules)
    requires |coolingDays| == |heatingDays| && Sized(s, |heatingDays|) && FullDays(s, |heatingDays|)
    requires CreateSetpointSchedules(heatingDays, coolingDays, s).Ok?
    ensures CreateSetpointSchedules(heatingDays, coolingDays, s).value.1 <==>
              (exists i, h :: 0 <= i < |heatingDays| && 0 <= h < HoursPerDay &&
                 (s.clgWeekday[i][h] < s.htgWeekday[i][h] || s.clgWeekend[i][h] < s.htgWeekend[i][h]))
  {
    var r := CreateSetpointSchedules(heatingDays, coolingDays, s).value;
    var n := |heatingDays|;
    forall i | 0 <= i < n
      ensures Day(r.0, i) != Day(s, i) <==>
                exists h :: 0 <= h < HoursPerDay &&
                  (s.clgWeekday[i][h] < s.htgWeekday[i][h] || s.clgWeekend[i][h] < s.htgWeekend[i][h])
    {
      ReconcileChangesIffInverted(heatingDays[i], coolingDays[i], s.htgWeekday[i], s.clgWeekday[i]);
      ReconcileChangesIffInverted(heatingDays[i], coolingDays[i], s.htgWeekend[i], s.clgWeekend[i]);
    }
  }
}
