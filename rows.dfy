/** The input table of backend/main.go once the CSV reader has split it
    into records, the eight fields of a row, and the errors of the parse. */
module Rows {
  import opened Dates

  /** One record: Date, Country/Region, Province/State, Lat, Long, Confirmed,
      Recovered, Deaths. */
  type Row = seq<string>

  const FieldCount: nat := 8
  const DateField: nat := 0
  const CountryField: nat := 1
  const ProvinceField: nat := 2
  const LatField: nat := 3
  const LngField: nat := 4
  const ConfirmedField: nat := 5
  const RecoveredField: nat := 6
  const DeadField: nat := 7

  /** The reader is configured with FieldsPerRecord = 8, so every row it
      hands over has exactly eight fields. */
  predicate WellFormed(rows: seq<Row>) {
    forall k :: 0 <= k < |rows| ==> |rows[k]| == FieldCount
  }

  /** The record at which the reader gives up: the first one without eight
      fields, or |records| when there is none. */
  function FirstBadRecord(records: seq<Row>): (k: nat)
    ensures k <= |records|
    ensures forall j :: 0 <= j < k ==> |records[j]| == FieldCount
    ensures k < |records| ==> |records[k]| != FieldCount
  {
    if records == [] then 0
    else if |records[0]| != FieldCount then 0
    else 1 + FirstBadRecord(records[1..])
  }

  /** The raw date field of every row, in row order. */
  function DateColumn(rows: seq<Row>): (col: seq<string>)
    requires WellFormed(rows)
    ensures |col| == |rows|
    ensures forall k :: 0 <= k < |rows| ==> col[k] == rows[k][DateField]
  {
    seq(|rows|, k requires 0 <= k < |rows| => rows[k][DateField])
  }

  /** What made a row invalid. */
  datatype Cause =
    | BadCoordinate   // Lat or Long is not a float
    | BadCount        // a count field is neither blank nor a decimal integer
    | BadDate         // the date field does not parse
    | WrongDate(want: Date, got: Date)  // the row is out of step with the date cycle

  datatype Error =
    | WrongFieldCount(record: nat)     // the reader met a record without eight fields
    | DateSyntax(text: string)         // a date of the cycle does not parse
    | InvalidInput(row: Row, cause: Cause)
}
