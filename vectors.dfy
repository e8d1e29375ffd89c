/** Fields and columns of the two tables in backend/main_test.go, worked
    through the model's parsing and delta functions. */
module Vectors {
  import opened Wrappers
  import opened Text
  import opened Dates
  import opened Cycle
  import opened Differences

  /** The country cell "    Abc" trims to the key "Abc". */
  lemma PaddedName()
    ensures TrimSpace("    Abc") == "Abc"
  {
    TrimSpacePadded("    ", "Abc", "");
    assert "    " + "Abc" + "" == "    Abc";
  }

  /** A right-aligned count cell reads as its number. */
  lemma PaddedCount()
    ensures Atoi0("        10") == Some(10)
  {
    Atoi0Padded("        ", 10, "");
    assert "        " + FormatInt(10) + "" == "        10";
  }

  /** An all-blank cell, like the empty province, counts as zero. */
  lemma BlankCount()
    ensures Atoi0("         ") == Some(0)
  {
    Atoi0Blank("         ");
  }

  lemma TestDate()
    ensures ParseDate("2020-01-02") == Some(Date(2020, 1, 2))
  {
  }

  /** The province table's date column repeats after two rows, so its cycle
      is its first two dates. */
  lemma ProvinceCycle()
    ensures LongestDistinctPrefix(["2020-01-01", "2020-01-02", "2020-01-01", "2020-01-02"]) == ["2020-01-01", "2020-01-02"]
  {
    var col := ["2020-01-01", "2020-01-02", "2020-01-01", "2020-01-02"];
    assert col[..2] == ["2020-01-01", "2020-01-02"];
    assert col[2] in col[..2];
    StopsAtFirstRepeat(col, 2);
  }

  /** The single-country table's cumulative columns and the deltas the test
      expects. */
  lemma SingleCountryDeltas()
    ensures Deltas([3, 10, 12]) == [3, 7, 2]
    ensures Deltas([0, 2, 4]) == [0, 2, 2]
    ensures Deltas([1, 6, 5]) == [1, 5, -1]
  {
  }

  /** The province table: both provinces summed per date, then differenced. */
  lemma ProvinceDeltas()
    ensures Deltas([3 + 2, 5 + 6]) == [5, 6]
    ensures Deltas([0 + 0, 2 + 2]) == [0, 4]
    ensures Deltas([1 + 1, 2 + 3]) == [2, 3]
  {
  }
}
