/** Timestamps, timedeltas and the proleptic Gregorian calendar, as far as the
    pipeline reads them: the `seconds` component of a timedelta, the time since
    midnight, the day of the week, and the day of the year of a date. */
module Calendar {

  const NanosPerMicro: int := 1_000
  const NanosPerSecond: int := 1_000_000_000
  const NanosPerMinute: int := 60 * NanosPerSecond
  const NanosPerHour: int := 3600 * NanosPerSecond
  const SecondsPerDay: int := 86_400
  const NanosPerDay: int := SecondsPerDay * NanosPerSecond

  /** A naive timestamp: nanoseconds since 1970-01-01T00:00:00 (pandas `datetime64[ns]`). */
  type Timestamp = int

  /** The `seconds` component of a timedelta of `delta` nanoseconds. pandas keeps a
      timedelta as a day count plus a non-negative remainder, so the component is the
      whole seconds of that remainder: days and fractions of a second are dropped. */
  function SecondsComponent(delta: int): (s: int)
    ensures 0 <= s < SecondsPerDay
    ensures 0 <= delta < NanosPerDay ==> s * NanosPerSecond <= delta < (s + 1) * NanosPerSecond
  {
    (delta / NanosPerSecond) % SecondsPerDay
  }

  /** For a timedelta shorter than a day, the component is its whole number of seconds. */
  lemma SecondsComponentOfShortDelta(delta: int)
    requires 0 <= delta < NanosPerDay
    ensures SecondsComponent(delta) * NanosPerSecond <= delta < (SecondsComponent(delta) + 1) * NanosPerSecond
  {
  }

  /** Whole days, forwards or backwards, never change the component. */
  lemma SecondsComponentIgnoresDays(delta: int, days: int)
    ensures SecondsComponent(delta + days * NanosPerDay) == SecondsComponent(delta)
  {
    var q := delta / NanosPerSecond;
    assert (delta + days * NanosPerDay) / NanosPerSecond == q + days * SecondsPerDay;
  }

  /** Time since the midnight that starts the timestamp's day (`ts - ts.normalize()`). */
  function SinceMidnight(ts: Timestamp): (n: int)
    ensures 0 <= n < NanosPerDay
  {
    ts % NanosPerDay
  }

  /** The calendar day of a timestamp, counted from 1970-01-01 (negative before it). */
  function DayNumber(ts: Timestamp): int {
    ts / NanosPerDay
  }

  lemma {:induction false} TimestampSplitsIntoDayAndTime(ts: Timestamp)
    ensures ts == DayNumber(ts) * NanosPerDay + SinceMidnight(ts)
  {
  }

  /** A wall-clock time of day (`datetime.time`); its fields are always in range. */
  type Hour = h: int | 0 <= h < 24
  type Minute = m: int | 0 <= m < 60
  type Second = s: int | 0 <= s < 60
  type Micro = u: int | 0 <= u < 1_000_000

  datatype ClockTime = ClockTime(hour: Hour, minute: Minute, second: Second, microsecond: Micro)

  /** Nanoseconds from midnight to a wall-clock time. */
  function ClockNanos(t: ClockTime): (n: int)
    ensures t.hour * NanosPerHour <= n < (t.hour + 1) * NanosPerHour
    ensures n == t.hour * NanosPerHour <==> t.minute == 0 && t.second == 0 && t.microsecond == 0
  {
    t.hour * NanosPerHour + t.minute * NanosPerMinute + t.second * NanosPerSecond + t.microsecond * NanosPerMicro
  }

  /** The instant on day `day` (counted from 1970-01-01) at wall-clock time `t`. */
  function At(day: int, t: ClockTime): Timestamp {
    day * NanosPerDay + ClockNanos(t)
  }

  lemma AtIsOnItsDay(day: int, t: ClockTime)
    ensures DayNumber(At(day, t)) == day
    ensures SinceMidnight(At(day, t)) == ClockNanos(t)
  {
    var n := ClockNanos(t);
    assert At(day, t) == day * NanosPerDay + n;
  }

  /** The days of the week, Monday first as in Python's `weekday()`. */
  datatype Weekday = Monday | Tuesday | Wednesday | Thursday | Friday | Saturday | Sunday {

    /** The locale-independent English name pandas' `day_name()` returns. */
    function Name(): string {
      match this
      case Monday => "Monday"
      case Tuesday => "Tuesday"
      case Wednesday => "Wednesday"
      case Thursday => "Thursday"
      case Friday => "Friday"
      case Saturday => "Saturday"
      case Sunday => "Sunday"
    }

    function Number(): (k: int)
      ensures 0 <= k < 7
    {
      match this
      case Monday => 0
      case Tuesday => 1
      case Wednesday => 2
      case Thursday => 3
      case Friday => 4
      case Saturday => 5
      case Sunday => 6
    }

    /** The day after this one. */
    function Next(): Weekday {
      match this
      case Monday => Tuesday
      case Tuesday => Wednesday
      case Wednesday => Thursday
      case Thursday => Friday
      case Friday => Saturday
      case Saturday => Sunday
      case Sunday => Monday
    }
  }

  function WeekdayFromNumber(k: int): (w: Weekday)
    requires 0 <= k < 7
    ensures w.Number() == k
  {
    if k == 0 then Monday
    else if k == 1 then Tuesday
    else if k == 2 then Wednesday
    else if k == 3 then Thursday
    else if k == 4 then Friday
    else if k == 5 then Saturday
    else Sunday
  }

  /** 1970-01-01, day 0 of the timestamp scale, was a Thursday. */
  const EpochWeekdayNumber: int := 3

  /** `Timestamp.day_name()`: the weekday of the calendar day holding the instant,
      counted in whole days from the Thursday of the epoch. */
  function WeekdayOf(ts: Timestamp): (w: Weekday)
    ensures w.Number() == (DayNumber(ts) + EpochWeekdayNumber) % 7
    ensures ts < NanosPerDay && ts >= 0 ==> w == Thursday
  {
    WeekdayFromNumber((DayNumber(ts) + EpochWeekdayNumber) % 7)
  }

  /** Weekdays follow each other: one day later is the next weekday, seven days later the same. */
  lemma WeekdayOfNextDay(ts: Timestamp)
    ensures WeekdayOf(ts + NanosPerDay) == WeekdayOf(ts).Next()
    ensures WeekdayOf(ts + 7 * NanosPerDay) == WeekdayOf(ts)
  {
    assert DayNumber(ts + NanosPerDay) == DayNumber(ts) + 1;
    assert DayNumber(ts + 7 * NanosPerDay) == DayNumber(ts) + 7;
  }

  /** Every instant of one calendar day has the same weekday. */
  lemma WeekdayOfSameDay(day: int, t: ClockTime)
    ensures WeekdayOf(At(day, t)) == WeekdayOf(day * NanosPerDay)
  {
    AtIsOnItsDay(day, t);
    assert DayNumber(day * NanosPerDay) == day;
  }

  /** The time since midnight in decimal hours (`add_timeof_day`'s formula). */
  function DecimalHours(ts: Timestamp): (h: real)
    ensures 0.0 <= h < 24.0
  {
    SinceMidnight(ts) as real / NanosPerHour as real
  }

  /** Decimal hours at a wall-clock time: the hour plus the minutes, seconds and
      microseconds as fractions of an hour; so from the hour up to, not including, the
      next hour, and equal to the hour exactly when the time is on the hour. */
  lemma DecimalHoursAtClockTime(day: int, t: ClockTime)
    ensures DecimalHours(At(day, t)) == t.hour as real + t.minute as real / 60.0
      + t.second as real / 3600.0 + t.microsecond as real / 3_600_000_000.0
    ensures t.hour as real <= DecimalHours(At(day, t)) < t.hour as real + 1.0
    ensures DecimalHours(At(day, t)).Floor == t.hour
    ensures DecimalHours(At(day, t)) == t.hour as real <==> t.minute == 0 && t.second == 0 && t.microsecond == 0
  {
    AtIsOnItsDay(day, t);
    var n := ClockNanos(t);
    var h := DecimalHours(At(day, t));
    assert h == n as real / NanosPerHour as real;
    assert h * NanosPerHour as real == n as real;
  }

  // ---- Calendar dates ----

  /** A calendar date (`datetime.date`). */
  datatype Date = Date(year: int, month: int, day: int)

  predicate IsLeapYear(y: int) {
    y % 4 == 0 && (y % 100 != 0 || y % 400 == 0)
  }

  function DaysInYear(y: int): int {
    if IsLeapYear(y) then 366 else 365
  }

  function DaysInMonth(y: int, m: int): int
    requires 1 <= m <= 12
  {
    if m == 2 then (if IsLeapYear(y) then 29 else 28)
    else if m == 4 || m == 6 || m == 9 || m == 11 then 30
    else 31
  }

  /** The dates `datetime.date` can represent: years 1 to 9999, real days of real months. */
  predicate ValidDate(d: Date) {
    && 1 <= d.year <= 9999
    && 1 <= d.month <= 12
    && 1 <= d.day <= DaysInMonth(d.year, d.month)
  }

  /** Days before the first of each month in a common year. */
  const DaysBeforeMonthTable: seq<int> := [0, 31, 59, 90, 120, 151, 181, 212, 243, 273, 304, 334]

  /** Days of the year before the first of month `m`, one more from March on in a leap year. */
  function DaysBeforeMonth(y: int, m: int): int
    requires 1 <= m <= 12
  {
    DaysBeforeMonthTable[m - 1] + (if m > 2 && IsLeapYear(y) then 1 else 0)
  }

  /** The month table agrees with the month lengths: each month starts where the previous
      one ends, and the twelve months fill the year. */
  lemma DaysBeforeMonthAddsUp(y: int, m: int)
    requires 1 <= m <= 12
    ensures m == 1 ==> DaysBeforeMonth(y, m) == 0
    ensures m < 12 ==> DaysBeforeMonth(y, m + 1) == DaysBeforeMonth(y, m) + DaysInMonth(y, m)
    ensures m == 12 ==> DaysBeforeMonth(y, m) + DaysInMonth(y, m) == DaysInYear(y)
  {
  }

  /** `dayofyear`: 1 on the first of January. */
  function DayOfYear(d: Date): (n: int)
    requires ValidDate(d)
    ensures 1 <= n <= DaysInYear(d.year)
  {
    DaysBeforeMonthAddsUp(d.year, d.month);
    DaysBeforeMonth(d.year, d.month) + d.day
  }

  /** Days in the years 1 .. y-1 of the proleptic Gregorian calendar. */
  function DaysBeforeYear(y: int): int {
    var p := y - 1;
    p * 365 + p / 4 - p / 100 + p / 400
  }

  /** Counting the multiples of 4, 100 and 400 up to a year steps by one exactly at those multiples. */
  lemma MultiplesStep(p: int)
    ensures (p + 1) / 4 == p / 4 + (if (p + 1) % 4 == 0 then 1 else 0)
    ensures (p + 1) / 100 == p / 100 + (if (p + 1) % 100 == 0 then 1 else 0)
    ensures (p + 1) / 400 == p / 400 + (if (p + 1) % 400 == 0 then 1 else 0)
  {
  }

  /** Consecutive years are DaysInYear apart. */
  lemma DaysBeforeNextYear(y: int)
    ensures DaysBeforeYear(y + 1) == DaysBeforeYear(y) + DaysInYear(y)
  {
    var p := y - 1;
    MultiplesStep(p);
    MultiplesNest(y);
    var by4 := if y % 4 == 0 then 1 else 0;
    var by100 := if y % 100 == 0 then 1 else 0;
    var by400 := if y % 400 == 0 then 1 else 0;
    assert DaysBeforeYear(y + 1) == DaysBeforeYear(y) + 365 + by4 - by100 + by400;
    assert by4 - by100 + by400 == (if IsLeapYear(y) then 1 else 0);
  }

  /** Every multiple of 400 is a multiple of 100, and every multiple of 100 one of 4. */
  lemma MultiplesNest(y: int)
    ensures y % 100 == 0 ==> y % 4 == 0
    ensures y % 400 == 0 ==> y % 100 == 0
  {
    if y % 100 == 0 {
      var k := y / 100;
      assert y == 4 * (25 * k);
    }
    if y % 400 == 0 {
      var k := y / 400;
      assert y == 100 * (4 * k);
    }
  }

  /** The day number of a date, 1 for 0001-01-01 (Python's `toordinal()`). */
  function Ordinal(d: Date): int
    requires ValidDate(d)
  {
    DaysBeforeYear(d.year) + DayOfYear(d)
  }

  /** The date after `d`. */
  function NextDate(d: Date): (e: Date)
    requires ValidDate(d)
  {
    if d.day < DaysInMonth(d.year, d.month) then Date(d.year, d.month, d.day + 1)
    else if d.month < 12 then Date(d.year, d.month + 1, 1)
    else Date(d.year + 1, 1, 1)
  }

  /** Ordinals count days: the next date has the next ordinal. */
  lemma OrdinalOfNextDate(d: Date)
    requires ValidDate(d) && d != Date(9999, 12, 31)
    ensures ValidDate(NextDate(d))
    ensures Ordinal(NextDate(d)) == Ordinal(d) + 1
  {
    DaysBeforeMonthAddsUp(d.year, d.month);
    if d.day == DaysInMonth(d.year, d.month) && d.month == 12 {
      DaysBeforeNextYear(d.year);
    }
  }

  /** Day-of-year numbers count up by one from date to date and restart at 1 on New Year's
      Day, after the last day of the year. */
  lemma DayOfYearOfNextDate(d: Date)
    requires ValidDate(d) && d != Date(9999, 12, 31)
    ensures ValidDate(NextDate(d))
    ensures NextDate(d).year == d.year ==> DayOfYear(NextDate(d)) == DayOfYear(d) + 1
    ensures NextDate(d).year != d.year ==> DayOfYear(NextDate(d)) == 1 && DayOfYear(d) == DaysInYear(d.year)
  {
    DaysBeforeMonthAddsUp(d.year, d.month);
  }

  /** The ordinal of 1970-01-01, where timestamps count from. */
  const EpochOrdinal: int := 719_163

  lemma EpochOrdinalIsNewYear1970()
    ensures Ordinal(Date(1970, 1, 1)) == EpochOrdinal
  {
  }

  /** The timestamp of midnight at the start of a date (`pd.to_datetime(date)`). */
  function MidnightOf(d: Date): (m: Timestamp)
    requires ValidDate(d)
    ensures DayNumber(m) == Ordinal(d) - EpochOrdinal && SinceMidnight(m) == 0
  {
    (Ordinal(d) - EpochOrdinal) * NanosPerDay
  }

  /** Python's `date.weekday()`: 0001-01-01 was a Monday. */
  function WeekdayOfDate(d: Date): Weekday
    requires ValidDate(d)
  {
    WeekdayFromNumber((Ordinal(d) + 6) % 7)
  }

  /** The weekday a timestamp reports on any instant of a date is the date's own weekday:
      the timestamp count (Thursday epoch) and the date count (Monday origin) agree. */
  lemma WeekdayOfInstantOnDate(d: Date, t: ClockTime)
    requires ValidDate(d)
    ensures WeekdayOf(At(Ordinal(d) - EpochOrdinal, t)) == WeekdayOfDate(d)
    ensures WeekdayOf(MidnightOf(d)) == WeekdayOfDate(d)
  {
    var day := Ordinal(d) - EpochOrdinal;
    AtIsOnItsDay(day, t);
    AtIsOnItsDay(day, ClockTime(0, 0, 0, 0));
    assert At(day, ClockTime(0, 0, 0, 0)) == MidnightOf(d);
    var n := Ordinal(d) + 6;
    assert day + EpochWeekdayNumber == n + 7 * -102_738;
    ModSevenShift(n, -102_738);
  }

  /** Every nanosecond instant on a date, not only whole clock times, reports that date's
      weekday: the weekday of a timestamp depends only on its day number. */
  lemma WeekdayOfAnyInstantOnDate(d: Date, ts: Timestamp)
    requires ValidDate(d) && DayNumber(ts) == Ordinal(d) - EpochOrdinal
    ensures WeekdayOf(ts) == WeekdayOfDate(d)
  {
    WeekdayOfInstantOnDate(d, ClockTime(0, 0, 0, 0));
  }

  lemma ModSevenShift(a: int, k: int)
    ensures (a + 7 * k) % 7 == a % 7
  {
  }

  /** 2020-06-15 was a Monday, by either count. */
  lemma Example20200615IsMonday()
    ensures WeekdayOfDate(Date(2020, 6, 15)) == Monday
    ensures WeekdayOf(MidnightOf(Date(2020, 6, 15)) + 7 * NanosPerHour + 10 * NanosPerMinute) == Monday
  {
    var d := Date(2020, 6, 15);
    var t := ClockTime(7, 10, 0, 0);
    assert Ordinal(d) == 737_591;
    WeekdayOfInstantOnDate(d, t);
    assert At(Ordinal(d) - EpochOrdinal, t) == MidnightOf(d) + 7 * NanosPerHour + 10 * NanosPerMinute;
  }
}
