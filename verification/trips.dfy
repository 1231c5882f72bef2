/** The trip record of the working table and the columns the pipeline derives from it. */
module Trips {
  import opened Results
  import opened Calendar

  /** One taxi trip as loaded. The three category columns hold codes on input and
      labels once mapped; money is in dollars, distance in miles, coordinates in degrees. */
  datatype Trip = Trip(
    vendorId: string,
    pickupTime: Timestamp,
    dropoffTime: Timestamp,
    passengerCount: int,
    tripDistance: real,
    pickupLongitude: real,
    pickupLatitude: real,
    rateCodeId: string,
    dropoffLongitude: real,
    dropoffLatitude: real,
    paymentType: string,
    fareAmount: real,
    extra: real,
    mtaTax: real,
    tipAmount: real,
    tollsAmount: real,
    improvementSurcharge: real,
    totalAmount: real)

  /** A row of the cleaned table: the trip, its duration in minutes, and the columns the
      feature stages add, each absent until its stage has run. */
  datatype Row = Row(
    trip: Trip,
    duration: real,
    aveSpeed: Option<real>,
    dayOfWeek: Option<Weekday>,
    timeOfDay: Option<real>,
    tollSource: Option<string>,
    tollPaid: Option<string>)

  function TripOf(r: Row): Trip {
    r.trip
  }
}
