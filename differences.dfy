/** The delta transformer of backend/main.go: cumulative series become
    first differences, and prefix sums undo it. */
module Differences {

  /** First differences: the first entry as is, every later one minus its
      predecessor, with no clamping. */
  function Deltas(s: seq<int>): seq<int>
  {
    seq(|s|, i requires 0 <= i < |s| => if i == 0 then s[0] else s[i] - s[i - 1])
  }

  function Sum(s: seq<int>): int
  {
    if s == [] then 0 else Sum(s[..|s| - 1]) + s[|s| - 1]
  }

  /** Running totals: entry i is the sum of entries 0..i. */
  function PrefixSums(d: seq<int>): seq<int>
  {
    seq(|d|, i requires 0 <= i < |d| => Sum(d[..i + 1]))
  }

  /** The differences of s telescope back to s. */
  lemma {:induction false} SumOfDeltas(s: seq<int>, i: nat)
    requires i < |s|
    ensures Sum(Deltas(s)[..i + 1]) == s[i]
  {
    var d := Deltas(s);
    if i > 0 {
      SumOfDeltas(s, i - 1);
      assert d[..i + 1][..i] == d[..i];
    } else {
      assert Sum(d[..1]) == Sum(d[..0]) + d[0];
    }
  }

  /** Prefix sums of the deltas give back the cumulative series exactly,
      whether or not it is monotonic. */
  lemma DeltasRoundTrip(s: seq<int>)
    ensures PrefixSums(Deltas(s)) == s
  {
    forall i | 0 <= i < |s| ensures PrefixSums(Deltas(s))[i] == s[i] {
      SumOfDeltas(s, i);
    }
  }

  /** And the deltas of running totals are the original entries, so the two
      transforms are inverse bijections. */
  lemma PrefixSumsRoundTrip(d: seq<int>)
    ensures Deltas(PrefixSums(d)) == d
  {
    var p := PrefixSums(d);
    forall i | 0 < i < |d| ensures p[i] - p[i - 1] == d[i] {
      assert d[..i + 1][..i] == d[..i];
    }
    if |d| > 0 {
      assert Sum(d[..1]) == Sum(d[..0]) + d[0];
    }
  }

  /** State of the backward in-place loop: entries above i already hold
      their difference, entries up to i are still cumulative. */
  predicate DifferencedAbove(orig: seq<int>, cur: seq<int>, i: int)
  {
    |cur| == |orig| &&
    (forall j :: 0 <= j < |orig| && j <= i ==> cur[j] == orig[j]) &&
    (forall j :: 0 < j < |orig| && i < j ==> cur[j] == orig[j] - orig[j - 1])
  }

  lemma DifferencedAboveDone(orig: seq<int>, cur: seq<int>, i: int)
    requires DifferencedAbove(orig, cur, i) && i <= 0 && (i < 0 ==> orig == [])
    ensures cur == Deltas(orig)
  {
  }
}
