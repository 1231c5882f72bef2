/** The feature stages that follow cleaning: average speed (which also narrows the
    table to plausible speeds), the pickup weekday and the pickup time of day. */
module Features {
  import opened Results
  import opened Frames
  import opened Calendar
  import opened Trips
  import opened Cleaning

  const SpeedMin: real := 0.1
  const SpeedMax: real := 100.0

  /** `60 * trip_distance / duration` in miles per hour. A zero duration gives an
      infinite or undefined float, modelled as no speed at all. */
  function SpeedOf(r: Row): (s: Option<real>)
    ensures s.None? <==> r.duration == 0.0
    ensures s.Some? ==> s.value * r.duration == 60.0 * r.trip.tripDistance
  {
    if r.duration == 0.0 then None else Some(60.0 * r.trip.tripDistance / r.duration)
  }

  /** The row with its `ave_speed` column, every other column unchanged. */
  function WithSpeed(r: Row): (u: Row)
    ensures u.(aveSpeed := r.aveSpeed) == r
    ensures u.aveSpeed == SpeedOf(r)
  {
    r.(aveSpeed := SpeedOf(r))
  }

  /** The speed band query; a missing (non-finite) speed fails it. */
  predicate SaneSpeed(r: Row) {
    r.aveSpeed.Some? && SpeedMin <= r.aveSpeed.value <= SpeedMax
  }

  /** `add_avespeed`: adds the speed column, keeps the rows whose speed lies within the
      band, in order and each as often as it occurs, and resets the index. */
  function AddAveSpeed(f: Frame<Row>): (g: Frame<Row>)
    ensures Contiguous(g)
    ensures SubseqOf(Rows(g), Project(Rows(f), WithSpeed))
    ensures |g| == Count(Project(Rows(f), WithSpeed), SaneSpeed)
    ensures forall j :: 0 <= j < |g| ==> SaneSpeed(g[j].row)
    ensures forall j :: 0 <= j < |g| ==> g[j].row.aveSpeed == SpeedOf(g[j].row)
    ensures forall i :: 0 <= i < |f| && SaneSpeed(WithSpeed(f[i].row)) ==> WithSpeed(f[i].row) in Rows(g)
  {
    DeriveThenQuery(f, WithSpeed, SaneSpeed);
    SpeedBand(f);
    ResetIndex(Query(Assign(f, WithSpeed), SaneSpeed))
  }

  /** The rows the speed band keeps carry the speed of their own distance and duration. */
  lemma SpeedBand(f: Frame<Row>)
    ensures var g := ResetIndex(Query(Assign(f, WithSpeed), SaneSpeed));
      forall j :: 0 <= j < |g| ==> g[j].row.aveSpeed == SpeedOf(g[j].row)
  {
    DeriveThenQuery(f, WithSpeed, SaneSpeed);
    var g := ResetIndex(Query(Assign(f, WithSpeed), SaneSpeed));
    forall j | 0 <= j < |g| ensures g[j].row.aveSpeed == SpeedOf(g[j].row) {
      var k :| 0 <= k < |f| && g[j].row == WithSpeed(f[k].row);
      SpeedOfRow(f[k].row, g[j].row);
    }
  }

  /** A row with a derived speed keeps the distance and duration the speed came from. */
  lemma SpeedOfRow(r: Row, u: Row)
    requires u == WithSpeed(r)
    ensures u.aveSpeed == SpeedOf(u)
  {
    assert u.duration == r.duration && u.trip == r.trip;
  }

  /** A cleaned row always has a speed: its duration is at least a minute. */
  lemma CleanRowsHaveASpeed(r: Row)
    requires Clean(r)
    ensures SpeedOf(r).Some? && SpeedOf(r).value > 0.0
    ensures SpeedOf(r).value <= 60.0 * r.trip.tripDistance
  {
    var s := SpeedOf(r).value;
    var d := r.duration;
    assert s * d == 60.0 * r.trip.tripDistance;
    assert d >= 1.0 && r.trip.tripDistance > 0.0;
    assert s == 60.0 * r.trip.tripDistance / d;
    assert s > 0.0;
    assert s * (d - 1.0) >= 0.0;
    assert s <= s * d;
  }

  /** Recomputing the speed of a row that already has it changes nothing. */
  lemma WithSpeedIsIdempotent(r: Row)
    ensures WithSpeed(WithSpeed(r)) == WithSpeed(r)
  {
  }

  /** Running `add_avespeed` on its own output changes nothing. */
  lemma AddAveSpeedIsIdempotent(f: Frame<Row>)
    ensures AddAveSpeed(AddAveSpeed(f)) == AddAveSpeed(f)
  {
    var g := AddAveSpeed(f);
    DeriveThenQuery(f, WithSpeed, SaneSpeed);
    forall j | 0 <= j < |g| ensures WithSpeed(g[j].row) == g[j].row {
      var k :| 0 <= k < |f| && g[j].row == WithSpeed(f[k].row);
      WithSpeedIsIdempotent(f[k].row);
    }
    var timed := Assign(g, WithSpeed);
    assert forall j :: 0 <= j < |g| ==> timed[j] == g[j];
    assert timed == g;
    QueryKeepsAll(g, SaneSpeed);
    ResetIndexOfContiguous(g);
  }

  /** A ten-minute trip of two miles runs at twelve miles per hour and is kept. */
  lemma TenMinutesForTwoMiles(r: Row)
    requires r.duration == 10.0 && r.trip.tripDistance == 2.0
    ensures WithSpeed(r).aveSpeed == Some(12.0)
    ensures SaneSpeed(WithSpeed(r))
  {
  }

  // ---- add_dayof_week ----

  /** The row with its `day_of_week` column, every other column unchanged. */
  function WithWeekday(r: Row): (u: Row)
    ensures u.(dayOfWeek := r.dayOfWeek) == r
    ensures u.dayOfWeek.Some?
  {
    r.(dayOfWeek := Some(WeekdayOf(r.trip.pickupTime)))
  }

  /** `add_dayof_week`: every row gets the weekday of its pickup; no row is added or
      dropped and nothing else changes. */
  function AddDayOfWeek(f: Frame<Row>): (g: Frame<Row>)
    ensures |g| == |f| && Contiguous(g)
    ensures forall i :: 0 <= i < |f| ==> g[i].row.(dayOfWeek := f[i].row.dayOfWeek) == f[i].row
    ensures forall i :: 0 <= i < |f| ==> g[i].row.dayOfWeek.Some?
  {
    ResetIndex(Assign(f, WithWeekday))
  }

  /** The weekday recorded for a trip picked up on date `d`, at any instant of that day, is
      the weekday of `d` on the proleptic Gregorian calendar. */
  lemma DayOfWeekIsPickupDate(f: Frame<Row>, i: int, d: Date)
    requires 0 <= i < |f| && ValidDate(d)
    requires DayNumber(f[i].row.trip.pickupTime) == Ordinal(d) - EpochOrdinal
    ensures AddDayOfWeek(f)[i].row.dayOfWeek == Some(WeekdayOfDate(d))
  {
    WeekdayOfAnyInstantOnDate(d, f[i].row.trip.pickupTime);
  }

  /** Two trips picked up a whole number of weeks apart get the same weekday name. */
  lemma DayOfWeekRepeatsWeekly(r: Row, u: Row, weeks: int)
    requires u.trip.pickupTime == r.trip.pickupTime + weeks * 7 * NanosPerDay
    ensures WithWeekday(u).dayOfWeek == WithWeekday(r).dayOfWeek
  {
    assert DayNumber(u.trip.pickupTime) == DayNumber(r.trip.pickupTime) + 7 * weeks;
  }

  // ---- add_timeof_day ----

  /** The row with its `time_of_day` column, every other column unchanged. */
  function WithTimeOfDay(r: Row): (u: Row)
    ensures u.(timeOfDay := r.timeOfDay) == r
    ensures u.timeOfDay.Some? && 0.0 <= u.timeOfDay.value < 24.0
  {
    r.(timeOfDay := Some(DecimalHours(r.trip.pickupTime)))
  }

  /** `add_timeof_day`: every row gets the time since midnight of its pickup in decimal
      hours, in [0, 24); no row is added or dropped and nothing else changes. */
  function AddTimeOfDay(f: Frame<Row>): (g: Frame<Row>)
    ensures |g| == |f| && Contiguous(g)
    ensures forall i :: 0 <= i < |f| ==> g[i].row.(timeOfDay := f[i].row.timeOfDay) == f[i].row
    ensures forall i :: 0 <= i < |f| ==> g[i].row.timeOfDay.Some? && 0.0 <= g[i].row.timeOfDay.value < 24.0
  {
    ResetIndex(Assign(f, WithTimeOfDay))
  }

  /** A pickup at wall-clock time `t` gets the hour plus the minutes, seconds and
      microseconds as fractions of an hour: between its hour and the next hour, with the
      hour as whole part, and equal to the hour exactly on the hour. */
  lemma TimeOfDayIsPickupClockTime(f: Frame<Row>, i: int, day: int, t: ClockTime)
    requires 0 <= i < |f|
    requires f[i].row.trip.pickupTime == At(day, t)
    ensures AddTimeOfDay(f)[i].row.timeOfDay == Some(t.hour as real + t.minute as real / 60.0
      + t.second as real / 3600.0 + t.microsecond as real / 3_600_000_000.0)
    ensures var h := AddTimeOfDay(f)[i].row.timeOfDay.value;
      t.hour as real <= h < t.hour as real + 1.0 && h.Floor == t.hour
      && (h == t.hour as real <==> t.minute == 0 && t.second == 0 && t.microsecond == 0)
  {
    DecimalHoursAtClockTime(day, t);
  }

  /** 7:10 in the morning is 7 1/6 decimal hours (about 7.1667). */
  lemma TenPastSeven(r: Row, day: int)
    requires r.trip.pickupTime == At(day, ClockTime(7, 10, 0, 0))
    ensures WithTimeOfDay(r).timeOfDay == Some(43.0 / 6.0)
  {
    AtIsOnItsDay(day, ClockTime(7, 10, 0, 0));
    assert ClockNanos(ClockTime(7, 10, 0, 0)) == 7 * NanosPerHour + 10 * NanosPerMinute;
  }

  // ---- the stages together ----

  /** Whether a row is clean depends only on its trip and its duration. */
  lemma CleanIgnoresFeatureColumns(r: Row, u: Row)
    requires r.trip == u.trip && r.duration == u.duration
    ensures Clean(r) <==> Clean(u)
  {
  }

  /** The speed band keeps only clean rows of a clean table. */
  lemma SpeedStageKeepsRowsClean(f: Frame<Row>)
    requires forall i :: 0 <= i < |f| ==> Clean(f[i].row)
    ensures forall j :: 0 <= j < |AddAveSpeed(f)| ==> Clean(AddAveSpeed(f)[j].row)
  {
    var s := AddAveSpeed(f);
    forall j | 0 <= j < |s| ensures Clean(s[j].row) {
      SpeedRowIsClean(f, j);
    }
  }

  /** One row of the speed stage's output is clean when its input is. */
  lemma SpeedRowIsClean(f: Frame<Row>, j: int)
    requires forall i :: 0 <= i < |f| ==> Clean(f[i].row)
    requires 0 <= j < |AddAveSpeed(f)|
    ensures Clean(AddAveSpeed(f)[j].row)
  {
    DeriveThenQuery(f, WithSpeed, SaneSpeed);
    var s := AddAveSpeed(f);
    var k :| 0 <= k < |f| && s[j].row == WithSpeed(f[k].row);
    CleanIgnoresFeatureColumns(f[k].row, s[j].row);
  }

  /** The feature stages touch only their own columns, so every row they return is still
      clean: cleaning's guarantees survive the whole feature pipeline. */
  lemma FeatureStagesKeepRowsClean(f: Frame<Row>)
    requires forall i :: 0 <= i < |f| ==> Clean(f[i].row)
    ensures var g := AddTimeOfDay(AddDayOfWeek(AddAveSpeed(f)));
      forall j :: 0 <= j < |g| ==> Clean(g[j].row) && SaneSpeed(g[j].row)
  {
    var s := AddAveSpeed(f);
    SpeedStageKeepsRowsClean(f);
    var w := AddDayOfWeek(s);
    var g := AddTimeOfDay(w);
    forall j | 0 <= j < |g| ensures Clean(g[j].row) && SaneSpeed(g[j].row) {
      assert g[j].row.trip == s[j].row.trip && g[j].row.duration == s[j].row.duration;
      assert g[j].row.aveSpeed == s[j].row.aveSpeed;
      CleanIgnoresFeatureColumns(s[j].row, g[j].row);
    }
  }
}
