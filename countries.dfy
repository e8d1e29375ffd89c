/** The whole of parseCountries in backend/main.go: the row loop over a
    mutable map, then the backward pass that turns every country's
    cumulative series into daily deltas. */
module Countries {
  import opened Wrappers
  import opened Text
  import opened Dates
  import opened Rows
  import opened Differences
  import opened Aggregate

  /** A country with each of its three series replaced by its deltas. */
  function WithDeltas(c: Country): Country
  {
    c.(confirmed := Deltas(c.confirmed), recovered := Deltas(c.recovered), dead := Deltas(c.dead))
  }

  /** What parseCountries returns: the row loop's map with every series
      differenced, or the row loop's error. */
  function CountriesOf(rows: seq<Row>, dates: seq<Date>, parseFloat: FloatParser): Result<map<string, Country>, Error>
    requires WellFormed(rows) && (|rows| > 0 ==> |dates| > 0)
  {
    match Accumulate(rows, dates, parseFloat)
    case Err(e) => Err(e)
    case Ok(m) => Ok(map name | name in m :: WithDeltas(m[name]))
  }

  /** The backward in-place loop over one country: for i from dateCnt-1
      down to 1, slot i of each series loses slot i-1. */
  method StoreDeltas(c: Country, dateCnt: nat) returns (r: Country)
    requires Sized(c, dateCnt)
    ensures r == WithDeltas(c)
  {
    var confirmed, recovered, dead := c.confirmed, c.recovered, c.dead;
    var i: int := dateCnt - 1;
    while i > 0
      invariant 0 <= i < dateCnt || (dateCnt == 0 && i == -1)
      invariant DifferencedAbove(c.confirmed, confirmed, i)
      invariant DifferencedAbove(c.recovered, recovered, i)
      invariant DifferencedAbove(c.dead, dead, i)
    {
      confirmed := confirmed[i := confirmed[i] - confirmed[i - 1]];
      recovered := recovered[i := recovered[i] - recovered[i - 1]];
      dead := dead[i := dead[i] - dead[i - 1]];
      i := i - 1;
    }
    DifferencedAboveDone(c.confirmed, confirmed, i);
    DifferencedAboveDone(c.recovered, recovered, i);
    DifferencedAboveDone(c.dead, dead, i);
    r := c.(confirmed := confirmed, recovered := recovered, dead := dead);
  }

  lemma {:induction false} MulAtLeast(d: nat, n: nat)
    requires d >= 1
    ensures d * n >= n
  {
    if d > 1 {
      MulAtLeast(d - 1, n);
      assert d * n == (d - 1) * n + n;
    }
  }

  /** k mod n is the unique remainder of any division of k by n. */
  lemma ModUnique(k: int, n: int, q: int, r: int)
    requires n > 0 && k == q * n + r && 0 <= r < n
    ensures k % n == r
  {
    var q' := k / n;
    var r' := k % n;
    assert k == q' * n + r';
    assert q * n - q' * n == (q - q') * n;
    if q > q' {
      MulAtLeast(q - q', n);
    } else if q < q' {
      MulAtLeast(q' - q, n);
    }
  }

  /** Stepping the cursor with (dateIdx + 1) % dateCnt keeps it at k mod
      dateCnt. */
  lemma ModNext(k: nat, n: nat)
    requires n > 0
    ensures (k % n + 1) % n == (k + 1) % n
  {
    var q := k / n;
    var r := k % n;
    if r + 1 < n {
      ModUnique(k + 1, n, q, r + 1);
      ModUnique(r + 1, n, 0, r + 1);
    } else {
      ModUnique(k + 1, n, q + 1, 0);
      ModUnique(r + 1, n, 1, 0);
    }
  }

  /** The body of the row loop: look the row's country up, create it with
      newCountry when it is missing, then let updateCountry add the counts
      at dateIdx and check the date. */
  method AddRow(countries: map<string, Country>, row: Row, dates: seq<Date>, dateIdx: nat,
                parseFloat: FloatParser) returns (r: Result<map<string, Country>, Error>)
    requires |row| == FieldCount && dateIdx < |dates| && AllSized(countries, |dates|)
    ensures r == Step(countries, row, dates, dateIdx, parseFloat)
  {
    var found := countries;
    var country := TrimSpace(row[CountryField]);
    if country !in found {
      var c := NewCountry(row, |dates|, parseFloat);
      if c.Err? {
        return Err(c.error);
      }
      found := found[country := c.value];
    }
    var updated := UpdateCountry(found[country], row, dates[dateIdx], dateIdx);
    if updated.Err? {
      return Err(updated.error);
    }
    assert found[country := updated.value] == countries[country := updated.value];
    return Ok(found[country := updated.value]);
  }

  /** The row loop of parseCountries: the cursor dateIdx steps through the
      date cycle and wraps; the first rejected row ends the loop with its
      error. */
  method CollectRows(rows: seq<Row>, dates: seq<Date>, parseFloat: FloatParser)
      returns (r: Result<map<string, Country>, Error>)
    requires WellFormed(rows) && (|rows| > 0 ==> |dates| > 0)
    ensures r == Accumulate(rows, dates, parseFloat)
  {
    var countries: map<string, Country> := map[];
    var dateIdx := 0;
    var dateCnt := |dates|;
    var k := 0;
    while k < |rows|
      invariant 0 <= k <= |rows|
      invariant dateCnt > 0 ==> dateIdx == k % dateCnt
      invariant Accumulate(rows[..k], dates, parseFloat) == Ok(countries)
    {
      AccumulateSnoc(rows, k, dates, parseFloat);
      ModNext(k, dateCnt);
      var next := AddRow(countries, rows[k], dates, dateIdx, parseFloat);
      if next.Err? {
        AccumulateErrorSticks(rows, dates, parseFloat, k + 1);
        return next;
      }
      countries := next.value;
      dateIdx := (dateIdx + 1) % dateCnt;
      k := k + 1;
    }
    assert rows[..k] == rows;
    return Ok(countries);
  }

  /** The delta pass of parseCountries: every country of the map, in
      whatever order, has its series differenced in place. */
  method StoreAllDeltas(countries: map<string, Country>, dateCnt: nat)
      returns (r: map<string, Country>)
    requires AllSized(countries, dateCnt)
    ensures r == map name | name in countries :: WithDeltas(countries[name])
  {
    r := countries;
    var todo := countries.Keys;
    while todo != {}
      invariant todo <= r.Keys == countries.Keys
      invariant forall name :: name in r ==>
        r[name] == if name in todo then countries[name] else WithDeltas(countries[name])
      decreases |todo|
    {
      var name :| name in todo;
      var c := StoreDeltas(r[name], dateCnt);
      r := r[name := c];
      todo := todo - {name};
    }
  }

  /** parseCountries: the row loop, then the delta pass on its map. */
  method ParseCountries(rows: seq<Row>, dates: seq<Date>, parseFloat: FloatParser)
      returns (r: Result<map<string, Country>, Error>)
    requires WellFormed(rows) && (|rows| > 0 ==> |dates| > 0)
    ensures r == CountriesOf(rows, dates, parseFloat)
  {
    var countries :- CollectRows(rows, dates, parseFloat);
    var differenced := StoreAllDeltas(countries, |dates|);
    return Ok(differenced);
  }
  // ---------------------------------------------------------------------
  // What parseCountries promises, stated over the whole table

  /** The cumulative series of field f for country `name`: slot i sums the
      country's rows at positions congruent to i modulo n. */
  function Slots(rows: seq<Row>, name: string, n: nat, f: nat): (s: seq<int>)
    requires WellFormed(rows) && n > 0 && IsCountField(f)
    ensures |s| == n
  {
    seq(n, i requires 0 <= i < n => SlotSum(rows, name, i, n, f))
  }

  /** The table is accepted exactly when every row is acceptable. */
  lemma CountriesOfAccepts(rows: seq<Row>, dates: seq<Date>, parseFloat: FloatParser)
    requires WellFormed(rows) && (|rows| > 0 ==> |dates| > 0)
    ensures CountriesOf(rows, dates, parseFloat).Ok? <==>
            forall k :: 0 <= k < |rows| ==> RowOk(rows, k, dates, parseFloat)
  {
    AccumulateAccepts(rows, dates, parseFloat);
  }

  /** A rejected table fails at its first unacceptable row, and the error
      names that row. */
  lemma CountriesOfFirstError(rows: seq<Row>, dates: seq<Date>, parseFloat: FloatParser) returns (k: nat)
    requires WellFormed(rows) && (|rows| > 0 ==> |dates| > 0)
    requires CountriesOf(rows, dates, parseFloat).Err?
    ensures k < |rows| && !RowOk(rows, k, dates, parseFloat)
    ensures forall j :: 0 <= j < k ==> RowOk(rows, j, dates, parseFloat)
    ensures CountriesOf(rows, dates, parseFloat).error.InvalidInput?
    ensures CountriesOf(rows, dates, parseFloat).error.row == rows[k]
  {
    k := AccumulateFirstError(rows, dates, parseFloat);
  }

  /** One record per country name of the table, stored under its own name,
      each series one entry per date. */
  lemma CountriesOfShape(rows: seq<Row>, dates: seq<Date>, parseFloat: FloatParser)
    requires WellFormed(rows) && (|rows| > 0 ==> |dates| > 0)
    requires CountriesOf(rows, dates, parseFloat).Ok?
    ensures var out := CountriesOf(rows, dates, parseFloat).value;
      out.Keys == NamesOf(rows) &&
      forall name :: name in out ==> out[name].name == name && Sized(out[name], |dates|)
  {
    AccumulateKeys(rows, dates, parseFloat);
  }

  /** Every series holds the daily deltas of the country's cumulative
      totals, the sub-region rows of each date summed. */
  lemma CountriesOfDeltas(rows: seq<Row>, dates: seq<Date>, parseFloat: FloatParser)
    requires WellFormed(rows) && |dates| > 0
    requires CountriesOf(rows, dates, parseFloat).Ok?
    ensures var out := CountriesOf(rows, dates, parseFloat).value;
      forall name, f :: name in out && IsCountField(f) ==>
        SeriesOf(out[name], f) == Deltas(Slots(rows, name, |dates|, f))
  {
    var m := Accumulate(rows, dates, parseFloat).value;
    var out := CountriesOf(rows, dates, parseFloat).value;
    AccumulateSlots(rows, dates, parseFloat);
    forall name, f | name in out && IsCountField(f)
      ensures SeriesOf(out[name], f) == Deltas(Slots(rows, name, |dates|, f))
    {
      assert SeriesOf(m[name], f) == Slots(rows, name, |dates|, f);
    }
  }

  /** The running totals of a series give back the cumulative totals: the
      delta pass loses nothing. */
  lemma CountriesOfTotals(rows: seq<Row>, dates: seq<Date>, parseFloat: FloatParser)
    requires WellFormed(rows) && |dates| > 0
    requires CountriesOf(rows, dates, parseFloat).Ok?
    ensures var out := CountriesOf(rows, dates, parseFloat).value;
      forall name, f :: name in out && IsCountField(f) ==>
        PrefixSums(SeriesOf(out[name], f)) == Slots(rows, name, |dates|, f)
  {
    var out := CountriesOf(rows, dates, parseFloat).value;
    CountriesOfDeltas(rows, dates, parseFloat);
    forall name, f | name in out && IsCountField(f)
      ensures PrefixSums(SeriesOf(out[name], f)) == Slots(rows, name, |dates|, f)
    {
      DeltasRoundTrip(Slots(rows, name, |dates|, f));
    }
  }

  /** Each country keeps the coordinates of the first row that names it. */
  lemma CountriesOfCoords(rows: seq<Row>, dates: seq<Date>, parseFloat: FloatParser)
    requires WellFormed(rows) && (|rows| > 0 ==> |dates| > 0)
    requires CountriesOf(rows, dates, parseFloat).Ok?
    ensures CoordsFromFirst(CountriesOf(rows, dates, parseFloat).value, rows, parseFloat)
  {
    AccumulateCoords(rows, dates, parseFloat);
  }
}
