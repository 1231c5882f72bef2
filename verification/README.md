# NYC taxi trip cleaning and feature pipeline, in Dafny

This project models the data-preparation core of a New York City yellow-taxi
trip-duration study. A table of trips is loaded and goes through these stages:

- `basic_preprocessing` turns the coded category columns into labels. It keeps
  only trips with valid charges, valid trip information and both ends inside the
  study region. It adds the trip duration in minutes and keeps only typical trips.
- `add_avespeed` adds the average speed and keeps only plausible speeds.
- `add_dayof_week` adds the weekday name of the pickup.
- `add_timeof_day` adds the pickup time in decimal hours since midnight.
- `add_toll_source` works out which bridge, tunnel or authority a charged toll
  came from. It uses known EZ-pass rates and two geographic overrides.
- `add_toll_paid` marks whether any toll was charged.
- `filter_toll` drops toll-free trips and merges the toll sources into six classes.

The model also covers `prepare_data`, which builds the nine-column feature row
for a single trip at prediction time.

A table is a sequence of labelled rows (`Frames.Frame`): a pandas index label and
a row. `df.query` keeps the labels and the order of the rows that pass
(`Frames.Query`). Every stage ends with `reset_index(drop=True)`, which relabels
the rows 0..n-1 (`Frames.ResetIndex`). The modules follow the program:

- `Results` holds the error values. A missing category code is a `KeyError` in
  the program. A date outside the nanosecond timestamp range is an out-of-bounds
  error. Both are modelled as `Err` rather than defaulted.
- `Frames` holds tables, queries, index reset and column assignment.
- `Calendar` holds nanosecond timestamps, the Gregorian calendar, weekday names,
  day of year and decimal hours.
- `Trips` holds the trip record and the row with its derived columns.
- `Categories` holds the three code tables and the mapping step.
- `Cleaning` holds `basic_preprocessing`.
- `Features` holds speed, weekday and time of day.
- `Tolls` holds toll source, toll paid and the toll filter.
- `Inference` holds `prepare_data` and its column schema.

Money, distances and coordinates are exact reals. Timestamps are integers in
nanoseconds since the Unix epoch.

## Model

| member | source | states |
|---|---|---|
| Frames.Query | Notebooks/import_dataset.py:61-68 | a `df.query` keeps, in order and with their labels, exactly the rows that satisfy its condition; with the count in `Frames.QueryCount`, repeated rows keep their multiplicity |
| Frames.QueryAll | Notebooks/import_dataset.py:61-90 | a run of queries keeps, in order, exactly the rows that satisfy every condition; with the count in `Frames.QueryAllCount`, repeated rows keep their multiplicity |
| Frames.QueryCount | Notebooks/import_dataset.py:61-68 | a query keeps as many rows as the input has rows satisfying the condition, each repeated row counted on its own |
| Frames.QueryAllCount | Notebooks/import_dataset.py:61-90 | a run of queries keeps as many rows as the input has rows satisfying every condition, repeats counted |
| Frames.QueryAllIsQuery | Notebooks/import_dataset.py:61-90 | a run of queries is one query with the conjunction of the conditions |
| Frames.FullCountSubseqIsUnique | Notebooks/import_dataset.py:61-109 | an ordered selection of passing rows as long as the number of passing rows is unique, so order, membership and count together fix a filtered table, duplicates included |
| Frames.QueryAllIsOnePass | Notebooks/import_dataset.py:61-90 | applying the queries one after another gives the same table as one query with their conjunction |
| Frames.QueryThenEvery | Notebooks/import_dataset.py:61-62 | the first query followed by the rest equals the whole sequence of queries |
| Frames.QueryKeepsAll | Notebooks/import_dataset.py:103-109 | a query that every row passes returns the table unchanged |
| Frames.ResetIndex | Notebooks/import_dataset.py:111 | `reset_index(drop=True)` keeps the rows in order and relabels them 0..n-1 |
| Frames.ResetIndexOfContiguous | Notebooks/import_dataset.py:111 | resetting a table that is already labelled 0..n-1 changes nothing |
| Frames.DeriveThenQuery | Notebooks/import_dataset.py:116-118 | derive-then-filter-then-reset yields, in order, derived rows of the input that pass the filter; every passing derived row is kept, and the output has as many rows as the derived input has passing rows, repeats counted |
| Frames.SubseqTrans | Notebooks/import_dataset.py:52-112 | order preservation composes across stages |
| Calendar.SecondsComponentIgnoresDays | Notebooks/import_dataset.py:97-98 | `.dt.seconds` of a time difference does not change when whole days are added |
| Calendar.SecondsComponent | Notebooks/import_dataset.py:97-98 | `.dt.seconds` of a time difference lies in [0, 86400), and for a difference shorter than a day it is that difference's whole number of seconds |
| Calendar.WeekdayOfAnyInstantOnDate | Notebooks/import_dataset.py:126 | every nanosecond instant on a date has that date's calendar weekday |
| Calendar.DecimalHours | Notebooks/import_dataset.py:136-138 | the elapsed time since midnight in hours lies in [0, 24) |
| Calendar.MidnightOf | Project/helper.py:32 | the timestamp of a date's midnight lies on that date's day number and is zero time past midnight |
| Calendar.AtIsOnItsDay | Notebooks/import_dataset.py:136 | a wall-clock time on a day normalizes to that day, and its time since midnight is the clock time |
| Calendar.WeekdayOfNextDay | Notebooks/import_dataset.py:126 | the weekday name advances by one each day and repeats every seven days |
| Calendar.DecimalHoursAtClockTime | Notebooks/import_dataset.py:136-138 | the time of day of h:m:s.us is exactly h + m/60 + s/3600 + us/3600000000; it lies in [h, h+1), its whole part is h, and it equals h on the hour |
| Calendar.DaysBeforeMonthAddsUp | Project/helper.py:34 | the cumulative month table adds up the month lengths to the year length, leap years included |
| Calendar.DayOfYear | Project/helper.py:34 | the day of year of a valid date lies in 1..365, or 1..366 in a leap year |
| Calendar.DaysBeforeNextYear | Project/helper.py:32 | the Gregorian day count before a year grows by exactly the length of that year |
| Calendar.OrdinalOfNextDate | Project/helper.py:32 | consecutive calendar dates have consecutive day numbers |
| Calendar.DayOfYearOfNextDate | Project/helper.py:34 | the day of year counts up by one and restarts at 1 after the last day of the year |
| Calendar.EpochOrdinalIsNewYear1970 | Notebooks/import_dataset.py:126 | the timestamp epoch is 1 January 1970 of the proleptic Gregorian calendar |
| Calendar.WeekdayOfInstantOnDate | Notebooks/import_dataset.py:126 | the weekday of any instant on a date is the calendar weekday of that date |
| Calendar.Example20200615IsMonday | Project/helper.py:32 | 15 June 2020, and 7:10 on that day, fall on a Monday |
| Categories.MapColumn | Notebooks/import_dataset.py:54-56 | mapping one coded column succeeds iff every code is in its table; then each row is relabelled in place with its label; otherwise the error names the column and the first unknown code |
| Categories.MapCategories | Notebooks/import_dataset.py:54-56 | the three mappings fail only with an unknown-code error; on success they keep the number of rows and every label |
| Categories.MapCategoriesSucceeds | Notebooks/import_dataset.py:10-26 | the three mappings succeed iff every row's payment type, rate code and vendor are known codes, and then each column holds the table's label and nothing else changes |
| Categories.MapCategoriesFailure | Notebooks/import_dataset.py:54-56 | on failure the error reports the first mapped column with an unknown code and that column's first unknown code |
| Categories.LabelsAreNotCodes | Notebooks/import_dataset.py:10-26 | mapping an already-mapped, non-empty table fails: labels are not codes |
| Cleaning.ChargeRulesAreValidCharges | Notebooks/import_dataset.py:61-76 | the charge queries keep a trip iff its rate code is not "99", fare and total are positive, the other charges are non-negative, surcharge and tax are within a cent of $0.30 and $0.50, and the charges sum to the total within a cent |
| Cleaning.TripRulesAreTheInvariants | Notebooks/import_dataset.py:61-90 | the charge, trip-information and region queries keep a trip iff its charges are valid, it has passengers and distance, and both ends lie in the bounding box |
| Cleaning.TypicalRulesAreTheInvariants | Notebooks/import_dataset.py:103-109 | the typical-value queries keep a row iff duration, distance, fare, tolls and total lie in their bands |
| Cleaning.WithDuration | Notebooks/import_dataset.py:97-98 | duration is the within-day seconds of dropoff minus pickup, divided by 60, so it lies in [0, 1440) minutes, and no feature column is set yet |
| Cleaning.Narrow | Notebooks/import_dataset.py:58-109 | the filters keep as many rows as there are mapped trips that are clean with their durations, repeats counted |
| Cleaning.NarrowCount | Notebooks/import_dataset.py:58-109 | the row count of the filters' output is the count of clean mapped trips with their durations |
| Cleaning.DurationOfSameDayTrip | Notebooks/import_dataset.py:97-98 | a trip shorter than a day lasting s whole seconds gets duration s/60 |
| Cleaning.DurationIgnoresWholeDays | Notebooks/import_dataset.py:97-98 | adding whole days to the dropoff leaves the duration unchanged |
| Cleaning.NarrowKeepsOnlyCleanRows | Notebooks/import_dataset.py:58-109 | every row the filters keep is clean and carries its trip's own duration |
| Cleaning.NarrowKeepsOrder | Notebooks/import_dataset.py:58-109 | the kept trips are a subsequence of the mapped trips |
| Cleaning.NarrowKeepsEveryCleanRow | Notebooks/import_dataset.py:58-109 | every mapped trip that is clean with its duration is kept (its multiplicity is fixed by `Cleaning.Narrow`'s count) |
| Cleaning.BasicPreprocessing | Notebooks/import_dataset.py:52-112 | the stage fails iff some row has an unknown code; otherwise its output is labelled 0..n-1 and every row is clean |
| Cleaning.BasicPreprocessingIsNarrow | Notebooks/import_dataset.py:52-112 | the stage is the category mapping followed by the filters and an index reset |
| Cleaning.CleaningKeepsExactlyTheCleanRows | Notebooks/import_dataset.py:52-112 | the output rows are, in order, the clean mapped trips with their durations: every clean trip appears, and the output has exactly as many rows as there are clean trips, repeats counted |
| Cleaning.CleaningIsIdempotent | Notebooks/import_dataset.py:61-109 | running the filters again on the output keeps every row |
| Cleaning.UnknownCodeFailsTheStage | Notebooks/import_dataset.py:55 | a single unknown rate code anywhere makes the stage fail |
| Features.SpeedOf | Notebooks/import_dataset.py:116 | speed times duration is 60 times distance; a zero duration has no finite speed |
| Features.AddAveSpeed | Notebooks/import_dataset.py:115-119 | the output is labelled 0..n-1 and is an ordered subsequence of the rows with speed added; every kept speed lies in [0.1, 100] and is the row's own speed; every row whose speed lies in the band is kept, and the output has as many rows as there are such rows, repeats counted |
| Features.CleanRowsHaveASpeed | Notebooks/import_dataset.py:103-104 | a cleaned row has a positive finite speed of at most 60 times its distance |
| Features.SpeedRowIsClean | Notebooks/import_dataset.py:115-119 | each row the speed stage returns is clean when every input row is |
| Features.AddAveSpeedIsIdempotent | Notebooks/import_dataset.py:115-119 | running the speed stage on its own output changes nothing |
| Features.TenMinutesForTwoMiles | Notebooks/import_dataset.py:116-117 | two miles in ten minutes is 12 mph and passes the band |
| Features.AddDayOfWeek | Notebooks/import_dataset.py:122-128 | no row is added or dropped, only the weekday column changes, and every row has a weekday |
| Features.DayOfWeekIsPickupDate | Notebooks/import_dataset.py:126 | a trip picked up at any nanosecond instant of a date gets that date's calendar weekday |
| Features.DayOfWeekRepeatsWeekly | Notebooks/import_dataset.py:126 | pickups a whole number of weeks apart get the same weekday |
| Features.AddTimeOfDay | Notebooks/import_dataset.py:131-140 | no row is added or dropped, only the time-of-day column changes, and every value lies in [0, 24) |
| Features.TimeOfDayIsPickupClockTime | Notebooks/import_dataset.py:133-138 | a pickup at h:m:s.us gets the time of day h + m/60 + s/3600 + us/3600000000, whose whole part is h, exact on the hour |
| Features.TenPastSeven | Notebooks/import_dataset.py:134 | 7:10 in the morning becomes 7 1/6 hours |
| Features.FeatureStagesKeepRowsClean | Notebooks/import_dataset.py:115-140 | after speed, weekday and time of day every row is still clean and has a plausible speed |
| Tolls.TollCategoryIsZip | Notebooks/import_dataset.py:185-190 | the amount-to-name table pairs each of the 11 canonical amounts with the source at the same position |
| Tolls.Canonical | Notebooks/import_dataset.py:207-211 | after the conversion loop and the fallback, the amount is one of the canonical amounts |
| Tolls.KnownAmountsAreDisjoint | Notebooks/import_dataset.py:190-193 | no amount is a known rate of two different sources |
| Tolls.KnownAmountsAreNonNegative | Notebooks/import_dataset.py:190-193 | every known rate is non-negative, and only NoToll's is zero |
| Tolls.KnownAmountIdentifiesSource | Notebooks/import_dataset.py:189-193 | an amount known to a source is classified as that source when no override applies |
| Tolls.Classify | Notebooks/import_dataset.py:195-205 | a $7.50/$8 toll north of CBGH, or a $10.66/$15/$11.08/$16 toll east of VN, is MTA_Other |
| Tolls.OverriddenAmount | Notebooks/import_dataset.py:195-205 | the amount changes iff it is $7.50/$8 with both ends north of CBGH or $10.66/$15/$11.08/$16 with both ends east of VN, and a changed amount is the MTA_Other rate |
| Tolls.Convert | Notebooks/import_dataset.py:207-208 | the conversion loop leaves an amount unchanged or makes it canonical, and rewrites a non-canonical amount only when some conversion list contains it |
| Tolls.SourceOf | Notebooks/import_dataset.py:195-215 | the source assigned to a trip is OtherToll or a source whose known rates include the amount left after the overrides |
| Tolls.ConvertFirstMatch | Notebooks/import_dataset.py:207-208 | the sequential conversion loop rewrites an amount to the canonical amount of the first list containing it, and leaves other amounts alone |
| Tolls.CanonicalIsSourceByAmount | Notebooks/import_dataset.py:207-215 | conversion, fallback and dictionary lookup give the source whose known rates contain the amount, else OtherToll |
| Tolls.SourceOfIsClassify | Notebooks/import_dataset.py:178-217 | the column steps of `add_toll_source` compute the same source as the rule-based classification |
| Tolls.NorthOverride | Notebooks/import_dataset.py:195-199 | a $7.50 or $8 toll is MTA_Other when both ends lie north of 40.617 degrees and CBGH otherwise |
| Tolls.EastOverride | Notebooks/import_dataset.py:201-205 | a $10.66, $15, $11.08 or $16 toll is MTA_Other when both ends lie east of -74.05 degrees and VN otherwise |
| Tolls.UnknownAmountIsOtherToll | Notebooks/import_dataset.py:210-211 | an amount no source charges is OtherToll |
| Tolls.ClassifiedByExactAmount | Notebooks/import_dataset.py:207-215 | without an override, the source is the unique source known to charge the amount, or OtherToll if there is none |
| Tolls.AddTollSource | Notebooks/import_dataset.py:178-217 | no row is added or dropped, only the toll-source column changes, and it holds one of the 11 source names, the one classified for the trip |
| Tolls.AddTollPaid | Notebooks/import_dataset.py:220-225 | no row is added or dropped, only the toll-paid column changes, and it is "Toll" iff the toll amount is positive and "NoToll" otherwise |
| Tolls.PaidAgreesWithSource | Notebooks/import_dataset.py:183-225 | for a non-negative toll the source is NoToll iff the paid flag is NoToll; a negative toll is OtherToll and NoToll-paid |
| Tolls.MergeIsCollapse | Notebooks/import_dataset.py:233-240 | the six in-place rewrites send each toll-charging source to its class name |
| Tolls.Merge | Notebooks/import_dataset.py:233-240 | every toll-charging source name becomes one of the six class names, and any name that changes becomes a class name |
| Tolls.MergeIsIdempotent | Notebooks/import_dataset.py:233-240 | rewriting twice is rewriting once, and class names stay as they are |
| Tolls.FilterToll | Notebooks/import_dataset.py:228-242 | the output is labelled 0..n-1 and is an ordered subsequence of the merged rows; every tolled row is kept, no NoToll row remains, and the output has as many rows as the input has tolled rows, repeats counted |
| Tolls.FilteredRowOrigin | Notebooks/import_dataset.py:230-240 | every output row is the merged form of a tolled input row |
| Tolls.FilterTollLeavesClassNames | Notebooks/import_dataset.py:228-242 | after the toll source stage and the filter, every category is one of the six class names |
| Tolls.FilterTollKeepsTolledTrips | Notebooks/import_dataset.py:228-242 | every trip whose toll is not classified NoToll survives with its source's class |
| Tolls.FilterTollCountsTolledTrips | Notebooks/import_dataset.py:178-242 | after the toll source stage and the filter, the table has as many rows as the input has trips whose toll is not classified NoToll |
| Tolls.FilterTollIsIdempotent | Notebooks/import_dataset.py:228-242 | filtering an already filtered table changes nothing |
| Inference.Cells | Project/helper.py:7-12 | the nine cells of a feature row have the column types float, float, float, float, int, str, int, int, int |
| Inference.FeaturesOf | Project/helper.py:26-36 | the weekday feature is the calendar weekday of the date, and the hour, day of month and day of year lie in their ranges |
| Inference.FromCells | Project/helper.py:37-38 | a cell row can be read back as features iff every cell has its column's type |
| Inference.CellsRoundTrip | Project/helper.py:35-38 | features written to cells and cast back are unchanged |
| Inference.ConformingCellsRoundTrip | Project/helper.py:37-38 | cells that conform to the schema survive the cast and re-write unchanged |
| Inference.SqrtOfSquare | Project/helper.py:29-30 | the square root of a square is the absolute value |
| Inference.PrepareData | Project/helper.py:25-40 | fails with an out-of-bounds error iff the date's midnight is not a nanosecond timestamp; otherwise one row labelled 0 with distance and passengers passed through, the clock hour, the calendar weekday of the date, its day of month, and a day of year that counts the date from the start of its year; with an exact square root, longitude and latitude are the absolute coordinate differences and dist is their planar length |
| Inference.CoordinateFeaturesAreAbsoluteDeltas | Project/helper.py:26-30 | longitude and latitude features are the absolute differences of the two ends' coordinates |
| Inference.DistIsPlanar | Project/helper.py:28 | dist is non-negative and its square is the sum of the squares of the two coordinate features |
| Inference.SwapEndsKeepsDistances | Project/helper.py:26-30 | swapping pickup and dropoff leaves the features unchanged |
| Inference.HourIsWholeDecimalHours | Project/helper.py:31 | the hour feature is the whole part of the decimal time of day that training used |
| Inference.DateFeaturesComeFromTheDate | Project/helper.py:32-34 | the weekday is the calendar weekday of the date, the day of month is its day, and the day of year counts the date from the start of its year |
| Inference.RepresentableDates | Project/helper.py:32-34 | the supported dates run from 1677-09-22 to 2262-04-11 |
| Inference.ExampleTrip | Project/helper.py:25-40 | a 12.5-mile trip on 15 June 2020 at 7:10 gives deltas 0.21 and 0.10, hour 7, Monday, day 15 and day of year 167 |

## Left out

- `load_data` (Notebooks/import_dataset.py:29-49) reads CSV files from disk. It is I/O; the model starts from the loaded table.
- `add_crow_direction` and `azimuthal` call a geodesic library (pyproj) whose code is not part of this model.
- `add_crow_distance` only resets the index; `Frames.ResetIndex` covers it.
- `sin_azimuth` is floating-point trigonometry on a column no modelled stage produces.
- `calculate_distance` in Project/helper.py calls geopy, which is not part of this model.
- Project/main.py and Project/app.py (the web front end and the model prediction) are not part of this model.
- The progress messages and the in-place mutation of the data frame are left out. Each stage is a pure function from table to table.
- Floating-point rounding is not modelled. Amounts are compared exactly, as the toll lists intend. Speeds, durations and coordinates are exact reals.
- A zero duration gives pandas an infinite or undefined speed. It is modelled as a missing speed that fails the speed band, which is what the query does with it.
- Inference.SqrtOfSquare: `math.sqrt` is a parameter constrained to be an exact square root. It is not computed.
- Inference.FromCells: the trip through a NumPy string array before `astype` is modelled as typed cells. String formatting and parsing of floats are left out.
- Cleaning.WithDuration: the duration keeps only the within-day seconds of the time difference, as written, so trips of a day or longer lose whole days. The pandas timestamp range is not checked for trip timestamps, only in `prepare_data`.
- Tolls.FilterToll: requires the toll-source column to be filled in, as it is after `add_toll_source`. On a table without that column, the first statement of `filter_toll`, the query `toll_source != 'NoToll'`, raises pandas' undefined-variable error (a `NameError`); that failure is not modelled.
- Missing values (NaN) are not represented: every cell holds a value. In the program a NaN fails every query comparison, so such a row would be dropped by the cleaning filters, and a missing category code raises `KeyError` in the mapping, which the model covers only as an unknown code.
