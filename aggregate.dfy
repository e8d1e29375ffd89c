/** Country aggregation (parseCountries, newCountry and updateCountry in
    backend/main.go): one record per trimmed country name, sub-region rows
    summed into the slot the rolling date cursor points at, every row checked
    against the date cycle, then each series turned into daily deltas. */
module Aggregate {
  import opened Wrappers
  import opened Text
  import opened Dates
  import opened Rows
  import opened Differences

  /** A country record. Lat and Lng are float64 in the source and are only
      ever copied, so they are kept as opaque reals. */
  datatype Country = Country(
    name: string,
    lat: real,
    lng: real,
    confirmed: seq<int>,
    recovered: seq<int>,
    dead: seq<int>)

  /** strconv.ParseFloat, which is not part of this model: any total function
      from text to an optional value can stand for it. */
  type FloatParser = string -> Option<real>

  predicate IsCountField(f: nat) {
    f == ConfirmedField || f == RecoveredField || f == DeadField
  }

  /** The series a count field is summed into. */
  function SeriesOf(c: Country, f: nat): seq<int>
    requires IsCountField(f)
  {
    if f == ConfirmedField then c.confirmed
    else if f == RecoveredField then c.recovered
    else c.dead
  }

  predicate Sized(c: Country, n: nat) {
    |c.confirmed| == n && |c.recovered| == n && |c.dead| == n
  }

  predicate AllSized(m: map<string, Country>, n: nat) {
    forall name :: name in m ==> Sized(m[name], n)
  }

  /** The map key of a row: its trimmed Country/Region field. */
  function CountryName(row: Row): string
    requires |row| == FieldCount
  {
    TrimSpace(row[CountryField])
  }

  predicate CoordsParse(row: Row, parseFloat: FloatParser)
    requires |row| == FieldCount
  {
    parseFloat(TrimSpace(row[LatField])).Some? && parseFloat(TrimSpace(row[LngField])).Some?
  }

  predicate CountsParse(row: Row)
    requires |row| == FieldCount
  {
    Atoi0(row[ConfirmedField]).Some? && Atoi0(row[RecoveredField]).Some? && Atoi0(row[DeadField]).Some?
  }

  /** The value a count field contributes; 0 where it does not parse, which
      only matters on rows the parse rejects anyway. */
  function CountOf(row: Row, f: nat): int
    requires |row| == FieldCount && f < FieldCount
  {
    match Atoi0(row[f])
    case Some(v) => v
    case None => 0
  }

  predicate AllZero(s: seq<int>) {
    forall i :: 0 <= i < |s| ==> s[i] == 0
  }

  /** newCountry: the record created the first time a name is seen. */
  function NewCountry(row: Row, dateCnt: nat, parseFloat: FloatParser): (r: Result<Country, Error>)
    requires |row| == FieldCount
    ensures r.Ok? <==> CoordsParse(row, parseFloat)
    ensures r.Err? ==> r.error == InvalidInput(row, BadCoordinate)
    ensures r.Ok? ==> r.value.name == CountryName(row)
    ensures r.Ok? ==> r.value.lat == parseFloat(TrimSpace(row[LatField])).value
    ensures r.Ok? ==> r.value.lng == parseFloat(TrimSpace(row[LngField])).value
    ensures r.Ok? ==> Sized(r.value, dateCnt)
    ensures r.Ok? ==> AllZero(r.value.confirmed) && AllZero(r.value.recovered) && AllZero(r.value.dead)
  {
    match parseFloat(TrimSpace(row[LatField]))
    case None => Err(InvalidInput(row, BadCoordinate))
    case Some(lat) =>
      match parseFloat(TrimSpace(row[LngField]))
      case None => Err(InvalidInput(row, BadCoordinate))
      case Some(lng) =>
        var zeros := seq(dateCnt, _ => 0);
        Ok(Country(TrimSpace(row[CountryField]), lat, lng, zeros, zeros, zeros))
  }

  /** `after` is `before` with v added at index idx and nothing else changed. */
  predicate AddedAt(before: seq<int>, after: seq<int>, idx: nat, v: int) {
    |after| == |before| &&
    forall j :: 0 <= j < |before| ==> after[j] == before[j] + (if j == idx then v else 0)
  }

  /** `after` is `before` with the row's three counts added at idx: same name
      and coordinates, every other slot unchanged. */
  predicate Updated(before: Country, after: Country, row: Row, idx: nat)
    requires |row| == FieldCount
  {
    after.name == before.name && after.lat == before.lat && after.lng == before.lng &&
    AddedAt(before.confirmed, after.confirmed, idx, CountOf(row, ConfirmedField)) &&
    AddedAt(before.recovered, after.recovered, idx, CountOf(row, RecoveredField)) &&
    AddedAt(before.dead, after.dead, idx, CountOf(row, DeadField))
  }

  /** updateCountry: parse the three counts, add them into slot dateIdx, then
      check the row's date against the date the cursor expects. */
  function UpdateCountry(c: Country, row: Row, wantDate: Date, dateIdx: nat): (r: Result<Country, Error>)
    requires |row| == FieldCount
    requires dateIdx < |c.confirmed| && dateIdx < |c.recovered| && dateIdx < |c.dead|
    ensures r.Ok? <==> CountsParse(row) && ParseDate(row[DateField]) == Some(wantDate)
    ensures r.Err? ==> r.error.InvalidInput? && r.error.row == row
    ensures r.Err? && CountsParse(row) && ParseDate(row[DateField]).Some? ==>
              r.error.cause == WrongDate(wantDate, ParseDate(row[DateField]).value)
    ensures r.Ok? ==> Updated(c, r.value, row, dateIdx)
  {
    match (Atoi0(row[ConfirmedField]), Atoi0(row[RecoveredField]), Atoi0(row[DeadField]))
    case (None, _, _) => Err(InvalidInput(row, BadCount))
    case (_, None, _) => Err(InvalidInput(row, BadCount))
    case (_, _, None) => Err(InvalidInput(row, BadCount))
    case (Some(confirmed), Some(recovered), Some(dead)) =>
      var updated := c.(
        confirmed := c.confirmed[dateIdx := c.confirmed[dateIdx] + confirmed],
        recovered := c.recovered[dateIdx := c.recovered[dateIdx] + recovered],
        dead := c.dead[dateIdx := c.dead[dateIdx] + dead]);
      match ParseDate(row[DateField])
      case None => Err(InvalidInput(row, BadDate))
      case Some(date) =>
        if wantDate != date then Err(InvalidInput(row, WrongDate(wantDate, date)))
        else Ok(updated)
  }

  /** Whether the row loop accepts a row, given the countries seen so far:
      a new country needs coordinates, every row needs its counts and the
      date the cursor expects. */
  predicate RowAccepted(m: map<string, Country>, row: Row, wantDate: Date, parseFloat: FloatParser)
    requires |row| == FieldCount
  {
    (CountryName(row) in m || CoordsParse(row, parseFloat)) &&
    CountsParse(row) && ParseDate(row[DateField]) == Some(wantDate)
  }

  /** One iteration of the row loop: find or create the row's country, then
      update it in slot dateIdx. What it computes is stated by StepMeaning. */
  function Step(m: map<string, Country>, row: Row, dates: seq<Date>, dateIdx: nat,
                parseFloat: FloatParser): (r: Result<map<string, Country>, Error>)
    requires |row| == FieldCount && dateIdx < |dates| && AllSized(m, |dates|)
    ensures r.Ok? ==> AllSized(r.value, |dates|)
  {
    var name := CountryName(row);
    var c :- if name in m then Ok(m[name]) else NewCountry(row, |dates|, parseFloat);
    var updated :- UpdateCountry(c, row, dates[dateIdx], dateIdx);
    Ok(m[name := updated])
  }

  /** A row is accepted exactly when RowAccepted holds; a rejected row is
      named in the error; an accepted row adds its country if it is new,
      adds its counts into slot dateIdx of that country, and leaves every
      other country as it was. */
  lemma StepMeaning(m: map<string, Country>, row: Row, dates: seq<Date>, dateIdx: nat, parseFloat: FloatParser)
    requires |row| == FieldCount && dateIdx < |dates| && AllSized(m, |dates|)
    ensures var r := Step(m, row, dates, dateIdx, parseFloat);
      (r.Ok? <==> RowAccepted(m, row, dates[dateIdx], parseFloat)) &&
      (r.Err? ==> r.error.InvalidInput? && r.error.row == row) &&
      (r.Ok? ==> r.value.Keys == m.Keys + {CountryName(row)}) &&
      (r.Ok? ==> forall name :: name in m && name != CountryName(row) ==> r.value[name] == m[name]) &&
      (r.Ok? ==>
        Updated(if CountryName(row) in m then m[CountryName(row)] else NewCountry(row, |dates|, parseFloat).value,
                r.value[CountryName(row)], row, dateIdx))
  {
  }

  /** The row loop of parseCountries as a fold: row k is handled with the
      cursor at k mod len(dates). */
  function Accumulate(rows: seq<Row>, dates: seq<Date>, parseFloat: FloatParser): (r: Result<map<string, Country>, Error>)
    requires WellFormed(rows) && (|rows| > 0 ==> |dates| > 0)
    ensures r.Ok? ==> AllSized(r.value, |dates|)
  {
    if rows == [] then Ok(map[])
    else
      var k := |rows| - 1;
      match Accumulate(rows[..k], dates, parseFloat)
      case Err(e) => Err(e)
      case Ok(m) => Step(m, rows[k], dates, k % |dates|, parseFloat)
  }

  /** The fold over one more row is one more Step, at cursor k mod n. */
  lemma AccumulateSnoc(rows: seq<Row>, k: nat, dates: seq<Date>, parseFloat: FloatParser)
    requires WellFormed(rows) && k < |rows| && |dates| > 0
    requires Accumulate(rows[..k], dates, parseFloat).Ok?
    ensures Accumulate(rows[..k + 1], dates, parseFloat) ==
      Step(Accumulate(rows[..k], dates, parseFloat).value, rows[k], dates, k % |dates|, parseFloat)
  {
    assert rows[..k + 1][..k] == rows[..k];
  }

  /** Once a prefix of the rows is rejected, the whole table is rejected with
      the same error: no partial map survives. */
  lemma {:induction false} AccumulateErrorSticks(rows: seq<Row>, dates: seq<Date>, parseFloat: FloatParser, k: nat)
    requires WellFormed(rows) && (|rows| > 0 ==> |dates| > 0) && k <= |rows|
    requires Accumulate(rows[..k], dates, parseFloat).Err?
    ensures Accumulate(rows, dates, parseFloat) == Accumulate(rows[..k], dates, parseFloat)
  {
    if k < |rows| {
      var q := rows[..|rows| - 1];
      assert q[..k] == rows[..k];
      AccumulateErrorSticks(q, dates, parseFloat, k);
    } else {
      assert rows[..k] == rows;
    }
  }

  // ---------------------------------------------------------------------
  // What the row loop computes, stated over the whole table

  /** The trimmed country names of the rows. */
  function NamesOf(rows: seq<Row>): set<string>
    requires WellFormed(rows)
  {
    set k | 0 <= k < |rows| :: CountryName(rows[k])
  }

  /** Row k is the first row of its country. */
  predicate IsFirst(rows: seq<Row>, k: nat)
    requires WellFormed(rows) && k < |rows|
  {
    forall j :: 0 <= j < k ==> CountryName(rows[j]) != CountryName(rows[k])
  }

  /** Row k is acceptable: coordinates parse if it opens its country, the
      counts parse, and its date is the cycle's date at position k mod n. */
  predicate RowOk(rows: seq<Row>, k: nat, dates: seq<Date>, parseFloat: FloatParser)
    requires WellFormed(rows) && k < |rows| && |dates| > 0
  {
    (IsFirst(rows, k) ==> CoordsParse(rows[k], parseFloat)) &&
    CountsParse(rows[k]) &&
    ParseDate(rows[k][DateField]) == Some(dates[k % |dates|])
  }

  /** The sum of count field f over the rows of country `name` at positions
      k with k mod n = i. */
  function SlotSum(rows: seq<Row>, name: string, i: nat, n: nat, f: nat): int
    requires WellFormed(rows) && n > 0 && IsCountField(f)
  {
    if rows == [] then 0
    else
      var k := |rows| - 1;
      SlotSum(rows[..k], name, i, n, f) +
        (if CountryName(rows[k]) == name && k % n == i then CountOf(rows[k], f) else 0)
  }

  lemma {:induction false} SlotSumAbsent(rows: seq<Row>, name: string, i: nat, n: nat, f: nat)
    requires WellFormed(rows) && n > 0 && IsCountField(f) && name !in NamesOf(rows)
    ensures SlotSum(rows, name, i, n, f) == 0
  {
    if rows != [] {
      var q := rows[..|rows| - 1];
      assert NamesOf(q) <= NamesOf(rows) by {
        forall x | x in NamesOf(q) ensures x in NamesOf(rows) {
          var j :| 0 <= j < |q| && CountryName(q[j]) == x;
          assert q[j] == rows[j];
        }
      }
      assert CountryName(rows[|rows| - 1]) in NamesOf(rows);
      SlotSumAbsent(q, name, i, n, f);
    }
  }

  lemma NamesOfSnoc(rows: seq<Row>)
    requires WellFormed(rows) && rows != []
    ensures NamesOf(rows) == NamesOf(rows[..|rows| - 1]) + {CountryName(rows[|rows| - 1])}
  {
    var q := rows[..|rows| - 1];
    forall x | x in NamesOf(rows) ensures x in NamesOf(q) + {CountryName(rows[|rows| - 1])} {
      var j :| 0 <= j < |rows| && CountryName(rows[j]) == x;
      if j < |q| { assert q[j] == rows[j]; }
    }
    forall x | x in NamesOf(q) ensures x in NamesOf(rows) {
      var j :| 0 <= j < |q| && CountryName(q[j]) == x;
      assert q[j] == rows[j];
    }
  }

  /** The map holds one record per country name in the rows, each named by
      its key. */
  lemma {:induction false} AccumulateKeys(rows: seq<Row>, dates: seq<Date>, parseFloat: FloatParser)
    requires WellFormed(rows) && (|rows| > 0 ==> |dates| > 0)
    requires Accumulate(rows, dates, parseFloat).Ok?
    ensures var m := Accumulate(rows, dates, parseFloat).value;
      m.Keys == NamesOf(rows) && forall name :: name in m ==> m[name].name == name
  {
    if rows != [] {
      var k := |rows| - 1;
      var q := rows[..k];
      AccumulateKeys(q, dates, parseFloat);
      NamesOfSnoc(rows);
    }
  }

  /** A row opens its country exactly when no earlier row has its name. */
  lemma IsFirstIff(rows: seq<Row>, k: nat)
    requires WellFormed(rows) && k < |rows|
    ensures IsFirst(rows, k) <==> CountryName(rows[k]) !in NamesOf(rows[..k])
  {
    var q := rows[..k];
    if CountryName(rows[k]) in NamesOf(q) {
      var j :| 0 <= j < |q| && CountryName(q[j]) == CountryName(rows[k]);
      assert q[j] == rows[j];
    }
    if !IsFirst(rows, k) {
      var j :| 0 <= j < k && CountryName(rows[j]) == CountryName(rows[k]);
      assert q[j] == rows[j];
    }
  }

  /** Whether a row is acceptable depends only on the rows before it. */
  lemma RowOkPrefix(rows: seq<Row>, k: nat, j: nat, dates: seq<Date>, parseFloat: FloatParser)
    requires WellFormed(rows) && j < k <= |rows| && |dates| > 0
    ensures IsFirst(rows[..k], j) == IsFirst(rows, j)
    ensures RowOk(rows[..k], j, dates, parseFloat) == RowOk(rows, j, dates, parseFloat)
  {
    var q := rows[..k];
    assert forall i :: 0 <= i <= j ==> q[i] == rows[i];
  }

  lemma RowOkPrefixAll(rows: seq<Row>, k: nat, dates: seq<Date>, parseFloat: FloatParser)
    requires WellFormed(rows) && k <= |rows| && |dates| > 0
    ensures forall j :: 0 <= j < k ==> RowOk(rows[..k], j, dates, parseFloat) == RowOk(rows, j, dates, parseFloat)
  {
    forall j | 0 <= j < k
      ensures RowOk(rows[..k], j, dates, parseFloat) == RowOk(rows, j, dates, parseFloat)
    {
      RowOkPrefix(rows, k, j, dates, parseFloat);
    }
  }

  lemma RowAcceptedIff(m: map<string, Country>, rows: seq<Row>, k: nat, dates: seq<Date>, parseFloat: FloatParser)
    requires WellFormed(rows) && k < |rows| && |dates| > 0
    requires CountryName(rows[k]) in m <==> !IsFirst(rows, k)
    ensures RowAccepted(m, rows[k], dates[k % |dates|], parseFloat) == RowOk(rows, k, dates, parseFloat)
  {
  }

  lemma AccumulateLast(rows: seq<Row>, dates: seq<Date>, parseFloat: FloatParser)
    requires WellFormed(rows) && rows != [] && |dates| > 0
    requires Accumulate(rows[..|rows| - 1], dates, parseFloat).Ok?
    ensures Accumulate(rows, dates, parseFloat) ==
      Step(Accumulate(rows[..|rows| - 1], dates, parseFloat).value, rows[|rows| - 1], dates, (|rows| - 1) % |dates|, parseFloat)
  {
  }

  /** The last row finds its country already in the map exactly when it is
      not the first row of that country. */
  lemma LastNameKnown(rows: seq<Row>, dates: seq<Date>, parseFloat: FloatParser)
    requires WellFormed(rows) && rows != [] && |dates| > 0
    requires Accumulate(rows[..|rows| - 1], dates, parseFloat).Ok?
    ensures CountryName(rows[|rows| - 1]) in Accumulate(rows[..|rows| - 1], dates, parseFloat).value <==>
            !IsFirst(rows, |rows| - 1)
  {
    AccumulateKeys(rows[..|rows| - 1], dates, parseFloat);
    IsFirstIff(rows, |rows| - 1);
  }

  lemma LastStepAccepted(rows: seq<Row>, dates: seq<Date>, parseFloat: FloatParser)
    requires WellFormed(rows) && rows != [] && |dates| > 0
    requires Accumulate(rows[..|rows| - 1], dates, parseFloat).Ok?
    ensures Accumulate(rows, dates, parseFloat).Ok? <==>
      RowAccepted(Accumulate(rows[..|rows| - 1], dates, parseFloat).value, rows[|rows| - 1],
                  dates[(|rows| - 1) % |dates|], parseFloat)
  {
    AccumulateLast(rows, dates, parseFloat);
  }

  /** The last row of the table is accepted by the loop exactly when it is
      acceptable in the sense of RowOk. */
  lemma LastStepOk(rows: seq<Row>, dates: seq<Date>, parseFloat: FloatParser)
    requires WellFormed(rows) && rows != [] && |dates| > 0
    requires Accumulate(rows[..|rows| - 1], dates, parseFloat).Ok?
    ensures Accumulate(rows, dates, parseFloat).Ok? <==> RowOk(rows, |rows| - 1, dates, parseFloat)
  {
    LastNameKnown(rows, dates, parseFloat);
    LastStepAccepted(rows, dates, parseFloat);
    RowAcceptedIff(Accumulate(rows[..|rows| - 1], dates, parseFloat).value, rows, |rows| - 1, dates, parseFloat);
  }

  /** Every row of the table is acceptable, checked from the last row back. */
  predicate AllRowsOk(rows: seq<Row>, dates: seq<Date>, parseFloat: FloatParser)
    requires WellFormed(rows) && (|rows| > 0 ==> |dates| > 0)
  {
    rows == [] ||
    (AllRowsOk(rows[..|rows| - 1], dates, parseFloat) && RowOk(rows, |rows| - 1, dates, parseFloat))
  }

  /** Rows 0 .. n-1 are acceptable. */
  predicate OkUpTo(rows: seq<Row>, n: nat, dates: seq<Date>, parseFloat: FloatParser)
    requires WellFormed(rows) && n <= |rows| && |dates| > 0
  {
    forall j :: 0 <= j < n ==> RowOk(rows, j, dates, parseFloat)
  }

  lemma OkUpToSnoc(rows: seq<Row>, n: nat, dates: seq<Date>, parseFloat: FloatParser)
    requires WellFormed(rows) && n < |rows| && |dates| > 0
    ensures OkUpTo(rows, n + 1, dates, parseFloat) <==> OkUpTo(rows, n, dates, parseFloat) && RowOk(rows, n, dates, parseFloat)
  {
  }

  lemma {:induction false} AllRowsOkUpTo(rows: seq<Row>, n: nat, dates: seq<Date>, parseFloat: FloatParser)
    requires WellFormed(rows) && n <= |rows| && |dates| > 0
    ensures AllRowsOk(rows[..n], dates, parseFloat) <==> OkUpTo(rows, n, dates, parseFloat)
  {
    if n > 0 {
      var p := rows[..n];
      assert p[..n - 1] == rows[..n - 1];
      assert AllRowsOk(p, dates, parseFloat) <==> AllRowsOk(rows[..n - 1], dates, parseFloat) && RowOk(p, n - 1, dates, parseFloat);
      assert AllRowsOk(rows[..n - 1], dates, parseFloat) <==> OkUpTo(rows, n - 1, dates, parseFloat) by {
        AllRowsOkUpTo(rows, n - 1, dates, parseFloat);
      }
      assert RowOk(p, n - 1, dates, parseFloat) == RowOk(rows, n - 1, dates, parseFloat) by {
        RowOkPrefix(rows, n, n - 1, dates, parseFloat);
      }
      OkUpToSnoc(rows, n - 1, dates, parseFloat);
    }
  }

  lemma AllRowsOkIff(rows: seq<Row>, dates: seq<Date>, parseFloat: FloatParser)
    requires WellFormed(rows) && |dates| > 0
    ensures AllRowsOk(rows, dates, parseFloat) <==> forall k :: 0 <= k < |rows| ==> RowOk(rows, k, dates, parseFloat)
  {
    AllRowsOkUpTo(rows, |rows|, dates, parseFloat);
    assert rows[..|rows|] == rows;
  }

  lemma {:induction false} AccumulateAcceptsAll(rows: seq<Row>, dates: seq<Date>, parseFloat: FloatParser)
    requires WellFormed(rows) && (|rows| > 0 ==> |dates| > 0)
    ensures Accumulate(rows, dates, parseFloat).Ok? <==> AllRowsOk(rows, dates, parseFloat)
  {
    if rows != [] {
      var k := |rows| - 1;
      AccumulateAcceptsAll(rows[..k], dates, parseFloat);
      if Accumulate(rows[..k], dates, parseFloat).Ok? {
        LastStepOk(rows, dates, parseFloat);
      }
    }
  }

  /** The row loop succeeds exactly when every row is acceptable. */
  lemma AccumulateAccepts(rows: seq<Row>, dates: seq<Date>, parseFloat: FloatParser)
    requires WellFormed(rows) && (|rows| > 0 ==> |dates| > 0)
    ensures Accumulate(rows, dates, parseFloat).Ok? <==>
            forall k :: 0 <= k < |rows| ==> RowOk(rows, k, dates, parseFloat)
  {
    AccumulateAcceptsAll(rows, dates, parseFloat);
    if rows != [] {
      AllRowsOkIff(rows, dates, parseFloat);
    }
  }

  /** A rejected table is rejected at its first unacceptable row, and the
      error carries that row. */
  lemma {:induction false} AccumulateFirstError(rows: seq<Row>, dates: seq<Date>, parseFloat: FloatParser)
      returns (k: nat)
    requires WellFormed(rows) && (|rows| > 0 ==> |dates| > 0)
    requires Accumulate(rows, dates, parseFloat).Err?
    ensures k < |rows| && !RowOk(rows, k, dates, parseFloat)
    ensures forall j :: 0 <= j < k ==> RowOk(rows, j, dates, parseFloat)
    ensures Accumulate(rows, dates, parseFloat).error.InvalidInput?
    ensures Accumulate(rows, dates, parseFloat).error.row == rows[k]
  {
    var n := |rows| - 1;
    var q := rows[..n];
    if Accumulate(q, dates, parseFloat).Err? {
      k := AccumulateFirstError(q, dates, parseFloat);
      assert Accumulate(rows, dates, parseFloat) == Accumulate(q, dates, parseFloat);
      RowOkPrefix(rows, n, k, dates, parseFloat);
      assert q[k] == rows[k];
      forall j | 0 <= j < k ensures RowOk(rows, j, dates, parseFloat) {
        RowOkPrefix(rows, n, j, dates, parseFloat);
      }
    } else {
      k := n;
      AccumulateAccepts(q, dates, parseFloat);
      RowOkPrefixAll(rows, n, dates, parseFloat);
      LastStepOk(rows, dates, parseFloat);
      AccumulateLast(rows, dates, parseFloat);
    }
  }

  lemma SlotAfterUpdate(before: Country, after: Country, row: Row, idx: nat, f: nat, i: nat)
    requires |row| == FieldCount && IsCountField(f) && i < |SeriesOf(before, f)|
    requires Updated(before, after, row, idx)
    ensures i < |SeriesOf(after, f)|
    ensures SeriesOf(after, f)[i] == SeriesOf(before, f)[i] + (if i == idx then CountOf(row, f) else 0)
  {
  }

  /** The slot sums of a table, in terms of those of all rows but the last. */
  lemma SlotSumLast(rows: seq<Row>, name: string, i: nat, n: nat, f: nat)
    requires WellFormed(rows) && rows != [] && n > 0 && IsCountField(f)
    ensures SlotSum(rows, name, i, n, f) ==
      SlotSum(rows[..|rows| - 1], name, i, n, f) +
      (if CountryName(rows[|rows| - 1]) == name && (|rows| - 1) % n == i then CountOf(rows[|rows| - 1], f) else 0)
  {
  }

  /** After the row loop, slot i of a country's series holds the sum of that
      field over the country's rows at positions congruent to i. */
  lemma {:induction false} AccumulateSlots(rows: seq<Row>, dates: seq<Date>, parseFloat: FloatParser)
    requires WellFormed(rows) && (|rows| > 0 ==> |dates| > 0)
    requires Accumulate(rows, dates, parseFloat).Ok?
    ensures var m := Accumulate(rows, dates, parseFloat).value;
      forall name, f, i :: name in m && IsCountField(f) && 0 <= i < |dates| ==>
        SeriesOf(m[name], f)[i] == SlotSum(rows, name, i, |dates|, f)
  {
    if rows != [] {
      var k := |rows| - 1;
      var q := rows[..k];
      var n := |dates|;
      AccumulateSlots(q, dates, parseFloat);
      AccumulateKeys(q, dates, parseFloat);
      AccumulateLast(rows, dates, parseFloat);
      var m0 := Accumulate(q, dates, parseFloat).value;
      var m := Accumulate(rows, dates, parseFloat).value;
      var row := rows[k];
      var nm := CountryName(row);
      var before := if nm in m0 then m0[nm] else NewCountry(row, n, parseFloat).value;
      assert m == Step(m0, row, dates, k % n, parseFloat).value;
      assert Updated(before, m[nm], row, k % n);
      forall name, f, i | name in m && IsCountField(f) && 0 <= i < n
        ensures SeriesOf(m[name], f)[i] == SlotSum(rows, name, i, n, f)
      {
        SlotSumLast(rows, name, i, n, f);
        if name == nm {
          if nm !in m0 {
            SlotSumAbsent(q, nm, i, n, f);
          }
          assert SeriesOf(before, f)[i] == SlotSum(q, name, i, n, f);
          SlotAfterUpdate(before, m[nm], row, k % n, f, i);
        } else {
          assert m[name] == m0[name];
        }
      }
    }
  }

  /** Every country of the rows takes its coordinates from the first row
      that names it, whose coordinates therefore parse. */
  predicate CoordsFromFirst(m: map<string, Country>, rows: seq<Row>, parseFloat: FloatParser)
    requires WellFormed(rows)
  {
    forall k :: 0 <= k < |rows| && IsFirst(rows, k) ==>
      CoordsParse(rows[k], parseFloat) && CountryName(rows[k]) in m &&
      m[CountryName(rows[k])].lat == parseFloat(TrimSpace(rows[k][LatField])).value &&
      m[CountryName(rows[k])].lng == parseFloat(TrimSpace(rows[k][LngField])).value
  }

  /** The coordinates invariant survives one more row, given what Step
      promises about the map it returns. */
  lemma CoordsFromFirstStep(m0: map<string, Country>, m: map<string, Country>, rows: seq<Row>, parseFloat: FloatParser)
    requires WellFormed(rows) && rows != []
    requires CoordsFromFirst(m0, rows[..|rows| - 1], parseFloat)
    requires var nm := CountryName(rows[|rows| - 1]);
      m.Keys == m0.Keys + {nm} &&
      (forall name :: name in m0 && name != nm ==> m[name] == m0[name]) &&
      (nm in m0 <==> !IsFirst(rows, |rows| - 1)) &&
      (nm in m0 ==> m[nm].lat == m0[nm].lat && m[nm].lng == m0[nm].lng) &&
      (nm !in m0 ==> CoordsParse(rows[|rows| - 1], parseFloat) &&
                     m[nm].lat == parseFloat(TrimSpace(rows[|rows| - 1][LatField])).value &&
                     m[nm].lng == parseFloat(TrimSpace(rows[|rows| - 1][LngField])).value)
    ensures CoordsFromFirst(m, rows, parseFloat)
  {
    var n := |rows| - 1;
    var q := rows[..n];
    forall k | 0 <= k < n && IsFirst(rows, k)
      ensures CoordsParse(rows[k], parseFloat) && CountryName(rows[k]) in m &&
        m[CountryName(rows[k])].lat == parseFloat(TrimSpace(rows[k][LatField])).value &&
        m[CountryName(rows[k])].lng == parseFloat(TrimSpace(rows[k][LngField])).value
    {
      assert q[k] == rows[k];
      assert IsFirst(q, k);
    }
  }

  /** A country's coordinates are those of the first row that names it. */
  lemma {:induction false} AccumulateCoords(rows: seq<Row>, dates: seq<Date>, parseFloat: FloatParser)
    requires WellFormed(rows) && (|rows| > 0 ==> |dates| > 0)
    requires Accumulate(rows, dates, parseFloat).Ok?
    ensures CoordsFromFirst(Accumulate(rows, dates, parseFloat).value, rows, parseFloat)
  {
    if rows != [] {
      var n := |rows| - 1;
      var q := rows[..n];
      AccumulateCoords(q, dates, parseFloat);
      AccumulateKeys(q, dates, parseFloat);
      AccumulateLast(rows, dates, parseFloat);
      IsFirstIff(rows, n);
      var m0 := Accumulate(q, dates, parseFloat).value;
      var m := Accumulate(rows, dates, parseFloat).value;
      var row := rows[n];
      var nm := CountryName(row);
      var before := if nm in m0 then m0[nm] else NewCountry(row, |dates|, parseFloat).value;
      assert m == Step(m0, row, dates, n % |dates|, parseFloat).value;
      assert Updated(before, m[nm], row, n % |dates|);
      assert nm !in m0 ==> CoordsParse(row, parseFloat) by {
        assert RowAccepted(m0, row, dates[n % |dates|], parseFloat);
      }
      CoordsFromFirstStep(m0, m, rows, parseFloat);
    }
  }
}
