/** `prepare_data`: the one-row feature table built at prediction time from the two trip
    ends, the trip distance, the pickup date and time, and the passenger count. */
module Inference {
  import opened Results
  import opened Frames
  import opened Calendar

  /** A point as the caller gives it: `(latitude, longitude)` in degrees. */
  datatype LatLon = LatLon(lat: real, lon: real)

  /** The feature columns, in their fixed order. */
  const Columns: seq<string> := ["longitude", "latitude", "dist", "trip_distance",
    "time_of_day", "day_of_week", "passenger_count", "dayofmonth", "dayofyear"]

  datatype ColumnType = Float | Int | Str

  /** The declared type of each column, in `Columns` order. */
  const ColumnTypes: seq<ColumnType> := [Float, Float, Float, Float, Int, Str, Int, Int, Int]

  /** One cell of the table. */
  datatype Value = FloatValue(r: real) | IntValue(i: int) | StrValue(s: string) {
    function Type(): ColumnType {
      match this
      case FloatValue(_) => Float
      case IntValue(_) => Int
      case StrValue(_) => Str
    }
  }

  /** The typed feature row, one field per column. */
  datatype Features = Features(
    longitude: real,
    latitude: real,
    dist: real,
    tripDistance: real,
    timeOfDay: int,
    dayOfWeek: string,
    passengerCount: int,
    dayOfMonth: int,
    dayOfYear: int)

  /** The row as the list of cells handed to the table constructor, in column order. */
  function Cells(x: Features): (vs: seq<Value>)
    ensures |vs| == |Columns| == |ColumnTypes|
    ensures forall i :: 0 <= i < |vs| ==> vs[i].Type() == ColumnTypes[i]
  {
    [FloatValue(x.longitude), FloatValue(x.latitude), FloatValue(x.dist), FloatValue(x.tripDistance),
     IntValue(x.timeOfDay), StrValue(x.dayOfWeek), IntValue(x.passengerCount),
     IntValue(x.dayOfMonth), IntValue(x.dayOfYear)]
  }

  /** Cells that match the declared schema, one per column. */
  predicate Conforms(vs: seq<Value>) {
    |vs| == |ColumnTypes| && forall i :: 0 <= i < |vs| ==> vs[i].Type() == ColumnTypes[i]
  }

  /** The cast to the declared column types: a typed row, or nothing when a cell does not
      have its column's type. */
  function FromCells(vs: seq<Value>): (x: Option<Features>)
    ensures x.Some? <==> Conforms(vs)
  {
    if !Conforms(vs) then None
    else Some(Features(vs[0].r, vs[1].r, vs[2].r, vs[3].r, vs[4].i, vs[5].s, vs[6].i, vs[7].i, vs[8].i))
  }

  /** Casting the cells of a row back to the schema gives the row back. */
  lemma CellsRoundTrip(x: Features)
    ensures FromCells(Cells(x)) == Some(x)
  {
  }

  /** Every conforming list of cells is the cells of the row it casts to. */
  lemma ConformingCellsRoundTrip(vs: seq<Value>)
    requires Conforms(vs)
    ensures Cells(FromCells(vs).value) == vs
  {
    assert vs[0].Type() == Float && vs[1].Type() == Float && vs[2].Type() == Float && vs[3].Type() == Float;
    assert vs[4].Type() == Int && vs[5].Type() == Str && vs[6].Type() == Int;
    assert vs[7].Type() == Int && vs[8].Type() == Int;
  }

  /** The cells of every typed row conform to the schema. */
  lemma CellsConform(x: Features)
    ensures Conforms(Cells(x))
  {
    assert Cells(x)[0].Type() == ColumnTypes[0];
  }

  /** The nine column names are distinct. */
  lemma ColumnsAreDistinct()
    ensures |Columns| == 9
    ensures forall i, j :: 0 <= i < j < |Columns| ==> Columns[i] != Columns[j]
  {
  }

  // ---- Square roots ----

  /** `math.sqrt` on non-negative arguments: the non-negative number whose square is the argument. */
  ghost predicate IsSqrt(sqrt: real -> real) {
    forall x: real :: x >= 0.0 ==> sqrt(x) >= 0.0 && sqrt(x) * sqrt(x) == x
  }

  function Abs(x: real): real {
    if x < 0.0 then -x else x
  }

  /** `math.pow(x, 2)`. */
  function Pow2(x: real): (y: real)
    ensures y >= 0.0
  {
    x * x
  }

  /** The square root of a square is the absolute value. */
  lemma SqrtOfSquare(sqrt: real -> real, a: real)
    requires IsSqrt(sqrt)
    ensures sqrt(Pow2(a)) == Abs(a)
  {
    var s := sqrt(Pow2(a));
    var b := Abs(a);
    assert s >= 0.0 && s * s == b * b;
    assert (s - b) * (s + b) == 0.0;
    if s + b != 0.0 {
      assert s - b == ((s - b) * (s + b)) / (s + b);
    }
  }

  lemma AbsSquared(a: real)
    ensures Abs(a) * Abs(a) == Pow2(a)
  {
  }

  // ---- The feature row ----

  /** Timestamps are signed 64-bit nanosecond counts; the lowest value is reserved for
      "not a time", so representable instants lie within plus or minus 2^63 - 1. */
  const MaxNanos: int := 0x7FFF_FFFF_FFFF_FFFF

  predicate Representable(ts: Timestamp) {
    -MaxNanos <= ts <= MaxNanos
  }

  /** The feature values `prepare_data` computes for one trip on a valid calendar date
      `dt`: the weekday is that of the date, and every date and hour field lies in its range. */
  function FeaturesOf(pickup: LatLon, dropoff: LatLon, tripDist: real, dt: Date, tmd: ClockTime,
                      passenger: int, sqrt: real -> real): (x: Features)
    requires ValidDate(dt)
    ensures x.dayOfWeek == WeekdayOfDate(dt).Name()
    ensures 0 <= x.timeOfDay < 24 && 1 <= x.dayOfMonth <= 31 && 1 <= x.dayOfYear <= DaysInYear(dt.year)
  {
    WeekdayOfInstantOnDate(dt, ClockTime(0, 0, 0, 0));
    var longg := pickup.lon - dropoff.lon;
    var lat := pickup.lat - dropoff.lat;
    Features(
      sqrt(Pow2(longg)),
      sqrt(Pow2(lat)),
      sqrt(Pow2(longg) + Pow2(lat)),
      tripDist,
      tmd.hour,
      WeekdayOf(MidnightOf(dt)).Name(),
      passenger,
      dt.day,
      DayOfYear(dt))
  }

  /** `prepare_data`: a one-row table under the fixed schema, or the out-of-bounds error
      converting a date whose midnight no timestamp can represent. */
  function PrepareData(pickup: LatLon, dropoff: LatLon, tripDist: real, dt: Date, tmd: ClockTime,
                       passenger: int, sqrt: real -> real): (r: Result<Frame<Features>>)
    requires ValidDate(dt)
    ensures r.Ok? <==> Representable(MidnightOf(dt))
    ensures r.Err? ==> r.error == OutOfBoundsDatetime(dt.year, dt.month, dt.day)
    ensures r.Ok? ==> |r.value| == 1 && Contiguous(r.value)
    ensures r.Ok? ==> Conforms(Cells(r.value[0].row))
    ensures r.Ok? ==> r.value[0].row.tripDistance == tripDist && r.value[0].row.passengerCount == passenger
    ensures r.Ok? ==> r.value[0].row.timeOfDay == tmd.hour && 0 <= r.value[0].row.timeOfDay < 24
    ensures r.Ok? ==> r.value[0].row.dayOfMonth == dt.day
    ensures r.Ok? ==> 1 <= r.value[0].row.dayOfYear <= DaysInYear(dt.year)
    ensures r.Ok? ==> r.value[0].row.dayOfWeek == WeekdayOfDate(dt).Name()
    ensures r.Ok? ==> r.value[0].row.dayOfYear + DaysBeforeYear(dt.year) == Ordinal(dt)
    ensures r.Ok? && IsSqrt(sqrt) ==> ExactDistances(r.value[0].row, pickup, dropoff)
  {
    if !Representable(MidnightOf(dt)) then Err(OutOfBoundsDatetime(dt.year, dt.month, dt.day))
    else
      var x := FeaturesOf(pickup, dropoff, tripDist, dt, tmd, passenger, sqrt);
      DateFeaturesComeFromTheDate(pickup, dropoff, tripDist, dt, tmd, passenger, sqrt);
      DistancesWithExactSqrt(pickup, dropoff, tripDist, dt, tmd, passenger, sqrt);
      CellsConform(x);
      var frame := [Labeled(0, x)];
      assert frame[0].row == x && Contiguous(frame);
      Ok(frame)
  }

  /** The two coordinate features are the absolute differences of the two ends, so
      neither is negative. */
  lemma CoordinateFeaturesAreAbsoluteDeltas(pickup: LatLon, dropoff: LatLon, tripDist: real, dt: Date,
                                            tmd: ClockTime, passenger: int, sqrt: real -> real)
    requires ValidDate(dt) && IsSqrt(sqrt)
    ensures var x := FeaturesOf(pickup, dropoff, tripDist, dt, tmd, passenger, sqrt);
      && x.longitude == Abs(pickup.lon - dropoff.lon) && x.longitude >= 0.0
      && x.latitude == Abs(pickup.lat - dropoff.lat) && x.latitude >= 0.0
  {
    var x := FeaturesOf(pickup, dropoff, tripDist, dt, tmd, passenger, sqrt);
    var a := pickup.lon - dropoff.lon;
    var b := pickup.lat - dropoff.lat;
    assert x.longitude == sqrt(Pow2(a)) && x.latitude == sqrt(Pow2(b));
    SqrtOfSquare(sqrt, a);
    SqrtOfSquare(sqrt, b);
  }

  /** `dist` is the planar length of the coordinate difference in degrees: non-negative,
      with its square the sum of the squares of the two coordinate features. */
  lemma DistIsPlanar(pickup: LatLon, dropoff: LatLon, tripDist: real, dt: Date,
                     tmd: ClockTime, passenger: int, sqrt: real -> real)
    requires ValidDate(dt) && IsSqrt(sqrt)
    ensures var x := FeaturesOf(pickup, dropoff, tripDist, dt, tmd, passenger, sqrt);
      x.dist >= 0.0 && x.dist * x.dist == x.longitude * x.longitude + x.latitude * x.latitude
  {
    var a := pickup.lon - dropoff.lon;
    var b := pickup.lat - dropoff.lat;
    var x := FeaturesOf(pickup, dropoff, tripDist, dt, tmd, passenger, sqrt);
    CoordinateFeaturesAreAbsoluteDeltas(pickup, dropoff, tripDist, dt, tmd, passenger, sqrt);
    assert x.dist == sqrt(Pow2(a) + Pow2(b));
    AbsSquared(a);
    AbsSquared(b);
  }

  /** The distance features of `x` are the absolute coordinate differences of the two
      ends, and `dist` is the non-negative planar length they span. */
  predicate ExactDistances(x: Features, pickup: LatLon, dropoff: LatLon) {
    && x.longitude == Abs(pickup.lon - dropoff.lon)
    && x.latitude == Abs(pickup.lat - dropoff.lat)
    && x.dist >= 0.0 && x.dist * x.dist == x.longitude * x.longitude + x.latitude * x.latitude
  }

  /** The coordinate features and `dist`, whenever `sqrt` is an exact square root. */
  lemma DistancesWithExactSqrt(pickup: LatLon, dropoff: LatLon, tripDist: real, dt: Date,
                               tmd: ClockTime, passenger: int, sqrt: real -> real)
    requires ValidDate(dt)
    ensures IsSqrt(sqrt) ==> ExactDistances(FeaturesOf(pickup, dropoff, tripDist, dt, tmd, passenger, sqrt), pickup, dropoff)
  {
    if IsSqrt(sqrt) {
      CoordinateFeaturesAreAbsoluteDeltas(pickup, dropoff, tripDist, dt, tmd, passenger, sqrt);
      DistIsPlanar(pickup, dropoff, tripDist, dt, tmd, passenger, sqrt);
    }
  }

  /** Swapping pickup and dropoff changes none of the distance features. */
  lemma SwapEndsKeepsDistances(pickup: LatLon, dropoff: LatLon, tripDist: real, dt: Date,
                               tmd: ClockTime, passenger: int, sqrt: real -> real)
    requires ValidDate(dt)
    ensures FeaturesOf(dropoff, pickup, tripDist, dt, tmd, passenger, sqrt)
         == FeaturesOf(pickup, dropoff, tripDist, dt, tmd, passenger, sqrt)
  {
    var a := pickup.lon - dropoff.lon;
    var b := pickup.lat - dropoff.lat;
    assert Pow2(-a) == Pow2(a) && Pow2(-b) == Pow2(b);
  }

  /** `time_of_day` is the whole hour of the pickup time: the whole part of the decimal
      hours the training pipeline records for the same clock time, on any day. */
  lemma HourIsWholeDecimalHours(pickup: LatLon, dropoff: LatLon, tripDist: real, dt: Date,
                                tmd: ClockTime, passenger: int, sqrt: real -> real, day: int)
    requires ValidDate(dt)
    ensures FeaturesOf(pickup, dropoff, tripDist, dt, tmd, passenger, sqrt).timeOfDay
         == DecimalHours(At(day, tmd)).Floor
  {
    DecimalHoursAtClockTime(day, tmd);
  }

  /** The date features all come from the one date: its weekday on the proleptic
      Gregorian calendar, its day of the month and its day of the year. */
  lemma DateFeaturesComeFromTheDate(pickup: LatLon, dropoff: LatLon, tripDist: real, dt: Date,
                                    tmd: ClockTime, passenger: int, sqrt: real -> real)
    requires ValidDate(dt)
    ensures var x := FeaturesOf(pickup, dropoff, tripDist, dt, tmd, passenger, sqrt);
      && x.dayOfWeek == WeekdayOfDate(dt).Name()
      && x.dayOfMonth == dt.day
      && x.dayOfYear + DaysBeforeYear(dt.year) == Ordinal(dt)
  {
    WeekdayOfInstantOnDate(dt, ClockTime(0, 0, 0, 0));
  }

  /** The representable dates run from 1677-09-22 to 2262-04-11; the days either side fail. */
  lemma RepresentableDates()
    ensures !Representable(MidnightOf(Date(1677, 9, 21)))
    ensures Representable(MidnightOf(Date(1677, 9, 22)))
    ensures Representable(MidnightOf(Date(2262, 4, 11)))
    ensures !Representable(MidnightOf(Date(2262, 4, 12)))
  {
    assert Ordinal(Date(1677, 9, 21)) == 612_411;
    assert Ordinal(Date(1677, 9, 22)) == 612_412;
    assert Ordinal(Date(2262, 4, 11)) == 825_914;
    assert Ordinal(Date(2262, 4, 12)) == 825_915;
  }

  /** A worked example: from (40.75, -73.99) to (40.65, -73.78), a 12.5-mile trip on
      Monday 2020-06-15 at 7:10 with two passengers. */
  lemma ExampleTrip(sqrt: real -> real)
    requires IsSqrt(sqrt)
    ensures var r := PrepareData(LatLon(40.75, -73.99), LatLon(40.65, -73.78), 12.5, Date(2020, 6, 15),
                                 ClockTime(7, 10, 0, 0), 2, sqrt);
      r.Ok? && r.value == [Labeled(0, Features(0.21, 0.10, r.value[0].row.dist, 12.5, 7, "Monday", 2, 15, 167))]
  {
    var p := LatLon(40.75, -73.99);
    var q := LatLon(40.65, -73.78);
    var d := Date(2020, 6, 15);
    var t := ClockTime(7, 10, 0, 0);
    assert Ordinal(d) == 737_591;
    Example20200615IsMonday();
    CoordinateFeaturesAreAbsoluteDeltas(p, q, 12.5, d, t, 2, sqrt);
  }
}
