/** `basic_preprocessing`: map the category codes, narrow the table to rows with
    consistent charges, sane trip information and both ends inside the region of
    interest, add the trip duration, narrow to typical values, and reset the index. */
module Cleaning {
  import opened Results
  import opened Frames
  import opened Calendar
  import opened Trips
  import opened Categories

  /** The bounding box of the region of interest, in degrees. */
  const LatMin: real := 40.5612
  const LatMax: real := 40.9637
  const LonMin: real := -74.1923
  const LonMax: real := -73.5982

  /** Absolute tolerance of every charge comparison. */
  const Tolerance: real := 0.01

  function Abs(x: real): (a: real)
    ensures 0.0 <= a && (a == x || a == -x)
  {
    if x < 0.0 then -x else x
  }

  /** The charge components that should add up to the total. */
  function ChargeSum(t: Trip): real {
    t.fareAmount + t.extra + t.mtaTax + t.tipAmount + t.tollsAmount + t.improvementSurcharge
  }

  /** The invalid-charge queries, in source order. */
  const ChargeRules: seq<Trip -> bool> := [
    (t: Trip) => t.rateCodeId != "99",
    (t: Trip) => t.fareAmount > 0.0,
    (t: Trip) => t.extra >= 0.0,
    (t: Trip) => t.mtaTax >= 0.0,
    (t: Trip) => t.tipAmount >= 0.0,
    (t: Trip) => t.tollsAmount >= 0.0,
    (t: Trip) => t.improvementSurcharge >= 0.0,
    (t: Trip) => t.totalAmount > 0.0,
    (t: Trip) => Abs(t.improvementSurcharge - 0.3) < Tolerance,
    (t: Trip) => Abs(t.mtaTax - 0.5) < Tolerance,
    (t: Trip) => Abs(ChargeSum(t) - t.totalAmount) < Tolerance]

  /** The invalid-trip-information queries. */
  const TripInfoRules: seq<Trip -> bool> := [
    (t: Trip) => t.passengerCount > 0,
    (t: Trip) => t.tripDistance > 0.0]

  /** The region-of-interest queries. */
  const RegionRules: seq<Trip -> bool> := [
    (t: Trip) => t.pickupLongitude >= LonMin && t.pickupLongitude <= LonMax,
    (t: Trip) => t.dropoffLongitude >= LonMin && t.dropoffLongitude <= LonMax,
    (t: Trip) => t.pickupLatitude >= LatMin && t.pickupLatitude <= LatMax,
    (t: Trip) => t.dropoffLatitude >= LatMin && t.dropoffLatitude <= LatMax]

  /** Every query run before the duration column exists. */
  const TripRules: seq<Trip -> bool> := ChargeRules + TripInfoRules + RegionRules

  /** The typical-value queries, run once the duration column exists. */
  const TypicalRules: seq<Row -> bool> := [
    (r: Row) => r.duration >= 1.0 && r.duration <= 120.0,
    (r: Row) => r.trip.tripDistance >= 0.01 && r.trip.tripDistance <= 50.0,
    (r: Row) => r.trip.fareAmount >= 0.01 && r.trip.fareAmount <= 100.0,
    (r: Row) => r.trip.tollsAmount <= 20.0,
    (r: Row) => r.trip.totalAmount >= 0.5 && r.trip.totalAmount <= 120.0]

  /** Charges are known, non-negative, at their fixed rates, and add up to the total. */
  predicate ValidCharges(t: Trip) {
    && t.rateCodeId != "99"
    && t.fareAmount > 0.0 && t.totalAmount > 0.0
    && t.extra >= 0.0 && t.mtaTax >= 0.0 && t.tipAmount >= 0.0
    && t.tollsAmount >= 0.0 && t.improvementSurcharge >= 0.0
    && -Tolerance < t.improvementSurcharge - 0.3 < Tolerance
    && -Tolerance < t.mtaTax - 0.5 < Tolerance
    && -Tolerance < ChargeSum(t) - t.totalAmount < Tolerance
  }

  predicate ValidTripInfo(t: Trip) {
    t.passengerCount > 0 && t.tripDistance > 0.0
  }

  /** Pickup and dropoff both lie in the closed bounding box. */
  predicate InRegion(t: Trip) {
    && LatMin <= t.pickupLatitude <= LatMax && LatMin <= t.dropoffLatitude <= LatMax
    && LonMin <= t.pickupLongitude <= LonMax && LonMin <= t.dropoffLongitude <= LonMax
  }

  /** Duration, distance and charges are within the typical bands. */
  predicate Typical(r: Row) {
    && 1.0 <= r.duration <= 120.0
    && 0.01 <= r.trip.tripDistance <= 50.0
    && 0.01 <= r.trip.fareAmount <= 100.0
    && r.trip.tollsAmount <= 20.0
    && 0.5 <= r.trip.totalAmount <= 120.0
  }

  /** Everything the cleaning stage guarantees of a row it keeps. */
  predicate Clean(r: Row) {
    ValidCharges(r.trip) && ValidTripInfo(r.trip) && InRegion(r.trip) && Typical(r)
  }

  /** The charge queries say exactly what `ValidCharges` says. */
  lemma ChargeRulesAreValidCharges(t: Trip)
    ensures AllHold(ChargeRules, t) <==> ValidCharges(t)
  {
    var all := ChargeRules[0](t) && ChargeRules[1](t) && ChargeRules[2](t) && ChargeRules[3](t)
      && ChargeRules[4](t) && ChargeRules[5](t) && ChargeRules[6](t) && ChargeRules[7](t)
      && ChargeRules[8](t) && ChargeRules[9](t) && ChargeRules[10](t);
    assert all <==> ValidCharges(t);
  }

  /** The ordered charge, trip-information and region queries say exactly what the
      invariants say. */
  lemma TripRulesAreTheInvariants(t: Trip)
    ensures AllHold(TripRules, t) <==> ValidCharges(t) && ValidTripInfo(t) && InRegion(t)
  {
    ChargeRulesAreValidCharges(t);
    assert AllHold(TripInfoRules, t) <==> TripInfoRules[0](t) && TripInfoRules[1](t);
    assert AllHold(RegionRules, t) <==>
      RegionRules[0](t) && RegionRules[1](t) && RegionRules[2](t) && RegionRules[3](t);
    AllHoldAppend(ChargeRules, TripInfoRules, t);
    AllHoldAppend(ChargeRules + TripInfoRules, RegionRules, t);
  }

  /** The typical-value queries say exactly what `Typical` says. */
  lemma TypicalRulesAreTheInvariants(r: Row)
    ensures AllHold(TypicalRules, r) <==> Typical(r)
  {
    var all := TypicalRules[0](r) && TypicalRules[1](r) && TypicalRules[2](r)
      && TypicalRules[3](r) && TypicalRules[4](r);
    assert all <==> Typical(r);
  }

  /** The trip with its `duration` column: the `seconds` component of dropoff - pickup,
      in minutes. Days of the difference are dropped, so it is always below one day. */
  function WithDuration(t: Trip): (r: Row)
    ensures r.trip == t
    ensures 0.0 <= r.duration < 1440.0
    ensures r.duration * 60.0 == SecondsComponent(t.dropoffTime - t.pickupTime) as real
    ensures r.aveSpeed.None? && r.dayOfWeek.None? && r.timeOfDay.None?
    ensures r.tollSource.None? && r.tollPaid.None?
  {
    Row(t, SecondsComponent(t.dropoffTime - t.pickupTime) as real / 60.0, None, None, None, None, None)
  }

  /** For a trip of whole seconds shorter than a day, the duration is its length in minutes. */
  lemma DurationOfSameDayTrip(t: Trip, seconds: int)
    requires 0 <= seconds < SecondsPerDay
    requires t.dropoffTime == t.pickupTime + seconds * NanosPerSecond
    ensures WithDuration(t).duration == seconds as real / 60.0
  {
    assert (seconds * NanosPerSecond) / NanosPerSecond == seconds;
  }

  /** Whole days between pickup and dropoff do not count: a trip 24h10m long, or one ending
      23h50m before it starts, gets the same duration as a 10-minute trip. */
  lemma DurationIgnoresWholeDays(t: Trip, days: int)
    ensures WithDuration(t.(dropoffTime := t.dropoffTime + days * NanosPerDay)).duration == WithDuration(t).duration
  {
    SecondsComponentIgnoresDays(t.dropoffTime - t.pickupTime, days);
    assert t.dropoffTime + days * NanosPerDay - t.pickupTime == (t.dropoffTime - t.pickupTime) + days * NanosPerDay;
  }

  /** The queries and the duration column, before the final index reset. As many rows
      survive as the input has trips that are clean once their duration is added. */
  function Narrow(mapped: Frame<Trip>): (g: Frame<Row>)
    ensures |g| == Count(Project(Rows(mapped), WithDuration), Clean)
  {
    NarrowCount(mapped);
    QueryAll(Assign(QueryAll(mapped, TripRules), WithDuration), TypicalRules)
  }

  /** The two runs of queries around the duration column keep one row for each trip that
      is clean with its duration, repeated trips included. */
  lemma NarrowCount(mapped: Frame<Trip>)
    ensures |QueryAll(Assign(QueryAll(mapped, TripRules), WithDuration), TypicalRules)|
         == Count(Project(Rows(mapped), WithDuration), Clean)
  {
    var valid := QueryAll(mapped, TripRules);
    var timed := Assign(valid, WithDuration);
    QueryAllIsQuery(mapped, TripRules);
    QueryAllCount(timed, TypicalRules);
    assert Rows(timed) == Project(Rows(valid), WithDuration);
    forall i | 0 <= i < |mapped|
      ensures Clean(WithDuration(mapped[i].row))
          <==> Conj(TripRules)(mapped[i].row) && Conj(TypicalRules)(WithDuration(mapped[i].row))
    {
      CleanIsBothRuleSets(mapped[i].row);
    }
    CountAfterQueryDerived(mapped, Conj(TripRules), WithDuration, Conj(TypicalRules), Clean);
  }

  /** A trip is clean with its duration exactly when it passes the queries run before the
      duration exists and its row passes those run after. */
  lemma CleanIsBothRuleSets(t: Trip)
    ensures Clean(WithDuration(t)) <==> Conj(TripRules)(t) && Conj(TypicalRules)(WithDuration(t))
  {
    TripRulesAreTheInvariants(t);
    TypicalRulesAreTheInvariants(WithDuration(t));
  }

  /** Every row narrowing keeps is clean and carries its own duration. */
  lemma NarrowKeepsOnlyCleanRows(mapped: Frame<Trip>)
    ensures forall j :: 0 <= j < |Narrow(mapped)| ==>
      Clean(Narrow(mapped)[j].row) && Narrow(mapped)[j].row == WithDuration(Narrow(mapped)[j].row.trip)
  {
    var valid := QueryAll(mapped, TripRules);
    var timed := Assign(valid, WithDuration);
    var kept := QueryAll(timed, TypicalRules);
    forall j | 0 <= j < |kept| ensures Clean(kept[j].row) && kept[j].row == WithDuration(kept[j].row.trip) {
      assert kept[j] in timed;
      var k :| 0 <= k < |timed| && timed[k] == kept[j];
      assert valid[k] in valid;
      TripRulesAreTheInvariants(valid[k].row);
      TypicalRulesAreTheInvariants(kept[j].row);
    }
  }

  /** Narrowing keeps the input's order: its trips are a subsequence of the input's. */
  lemma NarrowKeepsOrder(mapped: Frame<Trip>)
    ensures SubseqOf(Project(Rows(Narrow(mapped)), TripOf), Rows(mapped))
  {
    var valid := QueryAll(mapped, TripRules);
    var timed := Assign(valid, WithDuration);
    var kept := QueryAll(timed, TypicalRules);
    SubseqRows(kept, timed);
    SubseqProject(Rows(kept), Rows(timed), TripOf);
    assert Project(Rows(timed), TripOf) == Rows(valid);
    SubseqRows(valid, mapped);
    SubseqTrans(Project(Rows(kept), TripOf), Rows(valid), Rows(mapped));
  }

  /** Narrowing loses no clean row of its input. */
  lemma NarrowKeepsEveryCleanRow(mapped: Frame<Trip>)
    ensures forall i :: 0 <= i < |mapped| && Clean(WithDuration(mapped[i].row)) ==>
      WithDuration(mapped[i].row) in Rows(Narrow(mapped))
  {
    var valid := QueryAll(mapped, TripRules);
    var timed := Assign(valid, WithDuration);
    var kept := QueryAll(timed, TypicalRules);
    forall i | 0 <= i < |mapped| && Clean(WithDuration(mapped[i].row))
      ensures WithDuration(mapped[i].row) in Rows(kept)
    {
      var r := WithDuration(mapped[i].row);
      TripRulesAreTheInvariants(mapped[i].row);
      TypicalRulesAreTheInvariants(r);
      assert mapped[i] in mapped;
      assert mapped[i] in valid;
      var k :| 0 <= k < |valid| && valid[k] == mapped[i];
      assert timed[k] in timed;
      assert timed[k] in kept;
      var m :| 0 <= m < |kept| && kept[m] == timed[k];
      assert Rows(kept)[m] == r;
    }
  }

  /** `basic_preprocessing`. It fails exactly when some code is missing from its table;
      otherwise every row it returns meets every charge, trip-information, region and
      typical-value rule, and the index runs 0..n-1. */
  function BasicPreprocessing(f: Frame<Trip>): (r: Result<Frame<Row>>)
    ensures r.Ok? <==> forall i :: 0 <= i < |f| ==> AllCodesKnown(f[i].row)
    ensures r.Err? ==> r.error.UnknownCategoryCode?
    ensures r.Ok? ==> Contiguous(r.value)
    ensures r.Ok? ==> forall i :: 0 <= i < |r.value| ==> Clean(r.value[i].row)
  {
    MapCategoriesSucceeds(f);
    match MapCategories(f)
    case Err(e) => Err(e)
    case Ok(mapped) =>
      ResetNarrowIsClean(mapped);
      Ok(ResetIndex(Narrow(mapped)))
  }

  /** Every row of the reindexed narrowing is clean. */
  lemma ResetNarrowIsClean(mapped: Frame<Trip>)
    ensures forall i :: 0 <= i < |ResetIndex(Narrow(mapped))| ==> Clean(ResetIndex(Narrow(mapped))[i].row)
  {
    NarrowKeepsOnlyCleanRows(mapped);
    var out := ResetIndex(Narrow(mapped));
    assert forall i :: 0 <= i < |out| ==> out[i].row == Rows(Narrow(mapped))[i];
  }

  /** A successful run is the narrowed, reindexed mapping of the input. */
  lemma BasicPreprocessingIsNarrow(f: Frame<Trip>)
    ensures BasicPreprocessing(f).Ok? <==> MapCategories(f).Ok?
    ensures MapCategories(f).Ok? ==> BasicPreprocessing(f).value == ResetIndex(Narrow(MapCategories(f).value))
  {
    MapCategoriesSucceeds(f);
  }

  /** The output is an order-preserving subsequence of the category-mapped input, each
      row extended only by its own duration; no clean row of the input is lost, and there
      are exactly as many rows as clean trips, repeated trips counted each time. */
  lemma CleaningKeepsExactlyTheCleanRows(f: Frame<Trip>)
    requires BasicPreprocessing(f).Ok?
    ensures MapCategories(f).Ok?
    ensures var out := BasicPreprocessing(f).value;
      SubseqOf(Project(Rows(out), TripOf), Rows(MapCategories(f).value))
    ensures var out := BasicPreprocessing(f).value;
      forall j :: 0 <= j < |out| ==> out[j].row == WithDuration(out[j].row.trip)
    ensures var out := BasicPreprocessing(f).value; var mapped := MapCategories(f).value;
      forall i :: 0 <= i < |mapped| && Clean(WithDuration(mapped[i].row)) ==> WithDuration(mapped[i].row) in Rows(out)
    ensures |BasicPreprocessing(f).value| == Count(Project(Rows(MapCategories(f).value), WithDuration), Clean)
  {
    BasicPreprocessingIsNarrow(f);
    var mapped := MapCategories(f).value;
    NarrowKeepsOnlyCleanRows(mapped);
    NarrowKeepsOrder(mapped);
    NarrowKeepsEveryCleanRow(mapped);
    var out := BasicPreprocessing(f).value;
    assert Rows(out) == Rows(Narrow(mapped));
    forall j | 0 <= j < |out| ensures out[j].row == WithDuration(out[j].row.trip) {
      assert out[j].row == Rows(Narrow(mapped))[j] == Narrow(mapped)[j].row;
    }
  }

  /** Re-applying the whole predicate set to the cleaned table removes nothing. */
  lemma CleaningIsIdempotent(f: Frame<Trip>)
    requires BasicPreprocessing(f).Ok?
    ensures Query(BasicPreprocessing(f).value, Clean) == BasicPreprocessing(f).value
    ensures var out := BasicPreprocessing(f).value;
      QueryAll(Project(out, (e: Labeled<Row>) => Labeled(e.index, e.row.trip)), TripRules)
        == Project(out, (e: Labeled<Row>) => Labeled(e.index, e.row.trip))
    ensures QueryAll(BasicPreprocessing(f).value, TypicalRules) == BasicPreprocessing(f).value
  {
    var out := BasicPreprocessing(f).value;
    QueryKeepsAll(out, Clean);
    var trips := Project(out, (e: Labeled<Row>) => Labeled(e.index, e.row.trip));
    forall i | 0 <= i < |out| ensures AllHold(TripRules, trips[i].row) && AllHold(TypicalRules, out[i].row) {
      TripRulesAreTheInvariants(trips[i].row);
      TypicalRulesAreTheInvariants(out[i].row);
    }
    QueryAllIsOnePass(trips, TripRules);
    QueryEveryKeepsAll(trips, TripRules);
    QueryAllIsOnePass(out, TypicalRules);
    QueryEveryKeepsAll(out, TypicalRules);
  }

  /** A one-pass test removes nothing from a frame whose rows all pass every rule. */
  lemma {:induction false} QueryEveryKeepsAll<R>(f: Frame<R>, rules: seq<R -> bool>)
    requires forall i :: 0 <= i < |f| ==> AllHold(rules, f[i].row)
    ensures QueryEvery(f, rules) == f
    decreases |f|
  {
    if |f| > 0 {
      QueryEveryKeepsAll(f[1..], rules);
    }
  }

  /** A trip that is clean apart from a missing category code makes the whole stage fail. */
  lemma UnknownCodeFailsTheStage(f: Frame<Trip>, i: int)
    requires 0 <= i < |f| && f[i].row.rateCodeId !in RateCodes
    ensures BasicPreprocessing(f).Err?
  {
  }
}
