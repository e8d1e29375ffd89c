/** Calendar dates as backend/main.go reads them: time.Parse with the layout
    "2006-01-02", that is the full-date form YYYY-MM-DD of section 5.6 of
    RFC 3339, with Go's range checks on month and day. */
module Dates {
  import opened Wrappers
  import opened Text

  datatype Date = Date(year: int, month: int, day: int)

  /** Gregorian leap years, as Go's time package computes them. */
  predicate IsLeap(year: int) {
    year % 4 == 0 && (year % 100 != 0 || year % 400 == 0)
  }

  function DaysIn(month: int, year: int): int
    requires 1 <= month <= 12
  {
    if month == 2 then (if IsLeap(year) then 29 else 28)
    else if month == 4 || month == 6 || month == 9 || month == 11 then 30
    else 31
  }

  /** The dates the layout can express: a four-digit year, a month in 1..12
      and a day that exists in that month. */
  predicate ValidDate(d: Date) {
    0 <= d.year <= 9999 && 1 <= d.month <= 12 && 1 <= d.day <= DaysIn(d.month, d.year)
  }

  /** Ten characters: four digits, a dash, two digits, a dash, two digits. */
  predicate DateShape(s: string) {
    |s| == 10 && s[4] == '-' && s[7] == '-' &&
    IsDigit(s[0]) && IsDigit(s[1]) && IsDigit(s[2]) && IsDigit(s[3]) &&
    IsDigit(s[5]) && IsDigit(s[6]) && IsDigit(s[8]) && IsDigit(s[9])
  }

  function Num2(a: char, b: char): nat
    requires IsDigit(a) && IsDigit(b)
  {
    10 * DigitValue(a) + DigitValue(b)
  }

  /** time.Parse("2006-01-02", s): None for text of another shape, extra text,
      a month outside 1..12 or a day the month does not have. */
  function ParseDate(s: string): (r: Option<Date>)
    ensures r.Some? ==> ValidDate(r.value) && DateShape(s)
  {
    if !DateShape(s) then None
    else
      var d := Date(100 * Num2(s[0], s[1]) + Num2(s[2], s[3]), Num2(s[5], s[6]), Num2(s[8], s[9]));
      if ValidDate(d) then Some(d) else None
  }

  function DigitChar(n: nat): (c: char)
    requires n < 10
    ensures IsDigit(c) && DigitValue(c) == n
  {
    (('0' as int) + n) as char
  }

  /** Two digits, with a leading zero below ten. */
  function Pair(n: nat): (s: string)
    requires n < 100
    ensures |s| == 2 && IsDigit(s[0]) && IsDigit(s[1]) && Num2(s[0], s[1]) == n
  {
    [DigitChar(n / 10), DigitChar(n % 10)]
  }

  /** The layout's rendering of a date, used to state the round trips. */
  function FormatDate(d: Date): (s: string)
    requires ValidDate(d)
  {
    Pair(d.year / 100) + Pair(d.year % 100) + "-" + Pair(d.month) + "-" + Pair(d.day)
  }

  /** Every valid date is read back from its rendering. */
  lemma ParseFormatDate(d: Date)
    requires ValidDate(d)
    ensures ParseDate(FormatDate(d)) == Some(d)
  {
    var s := FormatDate(d);
    assert s[0..2] == Pair(d.year / 100) && s[2..4] == Pair(d.year % 100);
    assert s[5..7] == Pair(d.month) && s[8..10] == Pair(d.day);
    assert 100 * (d.year / 100) + d.year % 100 == d.year;
  }

  lemma DigitCharValue(c: char)
    requires IsDigit(c)
    ensures DigitChar(DigitValue(c)) == c
  {
  }

  lemma DivHundred(q: nat, r: nat)
    requires r < 100
    ensures (100 * q + r) / 100 == q && (100 * q + r) % 100 == r
  {
  }

  lemma PairOfDigits(a: char, b: char)
    requires IsDigit(a) && IsDigit(b)
    ensures Pair(Num2(a, b)) == [a, b]
  {
    var n := Num2(a, b);
    assert n / 10 == DigitValue(a) && n % 10 == DigitValue(b);
    DigitCharValue(a);
    DigitCharValue(b);
  }

  /** Whatever parses is the rendering of the date it parses to. */
  lemma FormatParseDate(s: string)
    requires ParseDate(s).Some?
    ensures FormatDate(ParseDate(s).value) == s
  {
    var d := ParseDate(s).value;
    DivHundred(Num2(s[0], s[1]), Num2(s[2], s[3]));
    PairOfDigits(s[0], s[1]);
    PairOfDigits(s[2], s[3]);
    PairOfDigits(s[5], s[6]);
    PairOfDigits(s[8], s[9]);
    assert s == [s[0], s[1]] + [s[2], s[3]] + "-" + [s[5], s[6]] + "-" + [s[8], s[9]];
  }

  /** Two texts that parse to the same date are the same text: comparing
      parsed dates and comparing their texts agree. */
  lemma ParseDateInjective(s: string, t: string)
    requires ParseDate(s).Some? && ParseDate(s) == ParseDate(t)
    ensures s == t
  {
    FormatParseDate(s);
    FormatParseDate(t);
  }
}
