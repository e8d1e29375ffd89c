/** Date-cycle extraction (parseDates in backend/main.go): the distinct date
    strings in first-seen order, up to the first one that repeats. */
module Cycle {
  import opened Wrappers
  import opened Dates
  import opened Rows

  predicate Distinct<T(==)>(s: seq<T>) {
    forall i, j :: 0 <= i < j < |s| ==> s[i] != s[j]
  }

  /** The longest prefix of `ds` in which no entry repeats. */
  function LongestDistinctPrefix<T(==)>(ds: seq<T>): seq<T>
  {
    if Distinct(ds) then ds else LongestDistinctPrefix(ds[..|ds| - 1])
  }

  /** The longest distinct prefix is a prefix, has no repeat, and either is
      all of `ds` or stops where the next entry is one it already holds. */
  lemma {:induction false} LongestDistinctPrefixMeaning<T>(ds: seq<T>)
    ensures var p := LongestDistinctPrefix(ds);
      |p| <= |ds| && p == ds[..|p|] && Distinct(p) &&
      (|p| < |ds| ==> ds[|p|] in p)
  {
    if !Distinct(ds) {
      var q := ds[..|ds| - 1];
      LongestDistinctPrefixMeaning(q);
      var p := LongestDistinctPrefix(q);
      assert p == ds[..|p|];
      if |p| == |q| {
        // ds is q plus one entry that must repeat something in q
        var i, j :| 0 <= i < j < |ds| && ds[i] == ds[j];
        assert j == |q|;
        assert ds[i] == p[i];
      } else {
        assert ds[|p|] == q[|p|];
      }
    }
  }

  /** A distinct run of length m is kept whole. */
  lemma {:induction false} LongestDistinctPrefixCovers<T>(ds: seq<T>, m: nat)
    requires m <= |ds| && Distinct(ds[..m])
    ensures m <= |LongestDistinctPrefix(ds)|
  {
    if m == |ds| {
      assert ds[..m] == ds;
    } else if !Distinct(ds) {
      var q := ds[..|ds| - 1];
      assert q[..m] == ds[..m];
      LongestDistinctPrefixCovers(q, m);
    }
  }

  /** Extraction stops at the first repeat: if the first k entries are
      distinct and entry k repeats one of them, the cycle is exactly those k. */
  lemma StopsAtFirstRepeat<T>(ds: seq<T>, k: nat)
    requires k < |ds| && Distinct(ds[..k]) && ds[k] in ds[..k]
    ensures LongestDistinctPrefix(ds) == ds[..k]
  {
    LongestDistinctPrefixMeaning(ds);
    LongestDistinctPrefixCovers(ds, k);
    var p := LongestDistinctPrefix(ds);
    assert p == ds[..k];
  }

  /** Parse every date of a sequence, failing on the first one that does not
      parse. */
  function ParseAll(ds: seq<string>): (r: Result<seq<Date>, Error>)
    ensures r.Ok? ==> |r.value| == |ds|
  {
    if ds == [] then Ok([])
    else
      match ParseAll(ds[..|ds| - 1])
      case Err(e) => Err(e)
      case Ok(prefix) =>
        match ParseDate(ds[|ds| - 1])
        case None => Err(DateSyntax(ds[|ds| - 1]))
        case Some(d) => Ok(prefix + [d])
  }

  /** ParseAll succeeds exactly when every entry parses, and then lists the
      parsed dates in order; otherwise it reports the first bad entry. */
  lemma {:induction false} ParseAllMeaning(ds: seq<string>)
    ensures ParseAll(ds).Ok? <==> forall i :: 0 <= i < |ds| ==> ParseDate(ds[i]).Some?
    ensures ParseAll(ds).Ok? ==> forall i :: 0 <= i < |ds| ==> ParseDate(ds[i]) == Some(ParseAll(ds).value[i])
    ensures ParseAll(ds).Err? ==>
      (exists i :: 0 <= i < |ds| && ParseDate(ds[i]).None? && ParseAll(ds).error == DateSyntax(ds[i]) &&
                   forall j :: 0 <= j < i ==> ParseDate(ds[j]).Some?)
  {
    if ds != [] {
      var q := ds[..|ds| - 1];
      ParseAllMeaning(q);
      assert forall i :: 0 <= i < |q| ==> ds[i] == q[i];
    }
  }

  /** Once a prefix fails, the whole sequence fails with the same error. */
  lemma {:induction false} ParseAllErrorSticks(ds: seq<string>, k: nat)
    requires k <= |ds| && ParseAll(ds[..k]).Err?
    ensures ParseAll(ds) == ParseAll(ds[..k])
  {
    if k < |ds| {
      var q := ds[..|ds| - 1];
      assert q[..k] == ds[..k];
      ParseAllErrorSticks(q, k);
    } else {
      assert ds[..k] == ds;
    }
  }

  /** The date cycle of the data rows: the longest run of distinct date
      strings at the head of the table, each parsed as a date. A non-empty
      table always yields at least one date, since the first row's date
      cannot repeat. */
  function DateCycle(rows: seq<Row>): (r: Result<seq<Date>, Error>)
    requires WellFormed(rows)
    ensures r.Ok? && |rows| > 0 ==> |r.value| > 0
  {
    var col := DateColumn(rows);
    LongestDistinctPrefixCovers(col, if |rows| > 0 then 1 else 0);
    ParseAll(LongestDistinctPrefix(col))
  }

  /** parseDates: walk the rows, remember each date string, stop at the first
      one already seen, and parse each new one. */
  method ParseDates(rows: seq<Row>) returns (r: Result<seq<Date>, Error>)
    requires WellFormed(rows)
    ensures r == DateCycle(rows)
  {
    ghost var col := DateColumn(rows);
    var seen: set<string> := {};
    var dates: seq<Date> := [];
    var k := 0;
    while k < |rows|
      invariant 0 <= k <= |rows|
      invariant Distinct(col[..k])
      invariant seen == set j | 0 <= j < k :: col[j]
      invariant ParseAll(col[..k]) == Ok(dates)
    {
      if rows[k][DateField] in seen {
        assert col[k] in col[..k];
        StopsAtFirstRepeat(col, k);
        break;
      }
      seen := seen + {rows[k][DateField]};
      assert col[..k + 1][..k] == col[..k];
      assert Distinct(col[..k + 1]);
      var date := ParseDate(rows[k][DateField]);
      if date.None? {
        LongestDistinctPrefixMeaning(col);
        LongestDistinctPrefixCovers(col, k + 1);
        var p := LongestDistinctPrefix(col);
        assert p[..k + 1] == col[..k + 1];
        ParseAllErrorSticks(p, k + 1);
        return Err(DateSyntax(rows[k][DateField]));
      }
      dates := dates + [date.value];
      k := k + 1;
    }
    if k == |rows| {
      assert col[..k] == col;
    }
    return Ok(dates);
  }

  /** The cycle's dates are pairwise different dates, not only different
      strings. */
  lemma DateCycleDistinct(rows: seq<Row>)
    requires WellFormed(rows) && DateCycle(rows).Ok?
    ensures Distinct(DateCycle(rows).value)
  {
    var p := LongestDistinctPrefix(DateColumn(rows));
    var ds := DateCycle(rows).value;
    LongestDistinctPrefixMeaning(DateColumn(rows));
    ParseAllMeaning(p);
    forall i, j | 0 <= i < j < |ds| ensures ds[i] != ds[j] {
      if ds[i] == ds[j] {
        ParseDateInjective(p[i], p[j]);
      }
    }
  }

  /** The cycle is read from the first rows: date i is the parsed date of
      row i, and when rows remain, the next row's date text is one the cycle
      already holds. */
  lemma DateCycleMeaning(rows: seq<Row>)
    requires WellFormed(rows) && DateCycle(rows).Ok?
    ensures var ds := DateCycle(rows).value;
      |ds| <= |rows| &&
      (forall i :: 0 <= i < |ds| ==> ParseDate(rows[i][DateField]) == Some(ds[i])) &&
      (|ds| < |rows| ==> exists j :: 0 <= j < |ds| && rows[j][DateField] == rows[|ds|][DateField])
  {
    var col := DateColumn(rows);
    var p := LongestDistinctPrefix(col);
    var ds := DateCycle(rows).value;
    LongestDistinctPrefixMeaning(col);
    ParseAllMeaning(p);
    assert forall i :: 0 <= i < |p| ==> p[i] == rows[i][DateField];
    if |ds| < |rows| {
      var j :| 0 <= j < |p| && p[j] == col[|p|];
    }
  }
}
