/** parse in backend/main.go: the records the CSV reader returns, the header
    dropped, the date cycle read, then the countries aggregated. */
module Dataset {
  import opened Wrappers
  import opened Dates
  import opened Rows
  import opened Cycle
  import opened Differences
  import opened Aggregate
  import opened Countries

  /** The top-level result: the dates listed once, and one record per
      country whose series run parallel to them. */
  datatype Data = Data(dates: seq<Date>, countries: map<string, Country>)

  /** What parse returns for the records the reader produced (header
      included): the reader's field-count error, the date cycle's error,
      the row loop's error, or the data. */
  function ParseSpec(records: seq<Row>, parseFloat: FloatParser): Result<Data, Error>
    requires |records| >= 1
  {
    var bad := FirstBadRecord(records);
    if bad < |records| then Err(WrongFieldCount(bad))
    else
      var rows := records[1..];
      match DateCycle(rows)
      case Err(e) => Err(e)
      case Ok(dates) =>
        match CountriesOf(rows, dates, parseFloat)
        case Err(e) => Err(e)
        case Ok(countries) => Ok(Data(dates, countries))
  }

  /** parse, from the records on: drop the header, read the dates, then
      the countries; any error is returned as is. */
  method Parse(records: seq<Row>, parseFloat: FloatParser) returns (r: Result<Data, Error>)
    requires |records| >= 1
    ensures r == ParseSpec(records, parseFloat)
  {
    var bad := FirstBadRecord(records);
    if bad < |records| {
      return Err(WrongFieldCount(bad));
    }
    var rows := records[1..];
    var dates :- ParseDates(rows);
    var countries :- ParseCountries(rows, dates, parseFloat);
    return Ok(Data(dates, countries));
  }

  /** The records are accepted exactly when each has eight fields, the date
      cycle parses, and every data row is acceptable against it. */
  lemma ParseAccepts(records: seq<Row>, parseFloat: FloatParser)
    requires |records| >= 1
    ensures ParseSpec(records, parseFloat).Ok? <==>
      WellFormed(records) && DateCycle(records[1..]).Ok? &&
      forall k :: 0 <= k < |records| - 1 ==> RowOk(records[1..], k, DateCycle(records[1..]).value, parseFloat)
  {
    var rows := records[1..];
    if WellFormed(records) {
      assert WellFormed(rows);
      if DateCycle(rows).Ok? {
        var dates := DateCycle(rows).value;
        CountriesOfAccepts(rows, dates, parseFloat);
      }
    }
  }

  /** What accepted data always satisfies: the dates are distinct and are
      those of the first rows; there is at least one date once there is a
      data row; every country is stored under its own name, one per name
      in the rows, with one entry per date in each series. */
  lemma ParseInvariants(records: seq<Row>, parseFloat: FloatParser)
    requires |records| >= 1 && ParseSpec(records, parseFloat).Ok?
    ensures var data := ParseSpec(records, parseFloat).value;
      var rows := records[1..];
      WellFormed(rows) &&
      Distinct(data.dates) &&
      |data.dates| <= |rows| &&
      (|rows| > 0 ==> |data.dates| > 0) &&
      (forall i :: 0 <= i < |data.dates| ==> ParseDate(rows[i][DateField]) == Some(data.dates[i])) &&
      data.countries.Keys == NamesOf(rows) &&
      (forall name :: name in data.countries ==>
         data.countries[name].name == name && Sized(data.countries[name], |data.dates|))
  {
    var rows := records[1..];
    assert WellFormed(rows);
    var dates := DateCycle(rows).value;
    DateCycleDistinct(rows);
    DateCycleMeaning(rows);
    CountriesOfShape(rows, dates, parseFloat);
  }
}
