/** Field-level text helpers of backend/main.go: strings.TrimSpace,
    strconv.Atoi and the `atoi0` wrapper that reads an empty count as zero. */
module Text {
  import opened Wrappers

  /** unicode.IsSpace: the Latin-1 spaces and the other White_Space code points. */
  predicate IsSpace(c: char) {
    var u := c as int;
    (9 <= u <= 13) || u == 0x20 || u == 0x85 || u == 0xA0 || u == 0x1680 ||
    (0x2000 <= u <= 0x200A) || u == 0x2028 || u == 0x2029 || u == 0x202F ||
    u == 0x205F || u == 0x3000
  }

  predicate AllSpace(s: string) {
    forall i :: 0 <= i < |s| ==> IsSpace(s[i])
  }

  lemma AllSpaceConcat(a: string, b: string)
    requires AllSpace(a) && AllSpace(b)
    ensures AllSpace(a + b)
  {
    forall k | 0 <= k < |a + b| ensures IsSpace((a + b)[k]) {
      if k < |a| { assert (a + b)[k] == a[k]; } else { assert (a + b)[k] == b[k - |a|]; }
    }
  }

  /** Drops leading white space. */
  function TrimLeft(s: string): (r: string)
    ensures |r| <= |s|
  {
    if s != [] && IsSpace(s[0]) then TrimLeft(s[1..]) else s
  }

  /** Drops trailing white space. */
  function TrimRight(s: string): (r: string)
    ensures |r| <= |s|
  {
    if s != [] && IsSpace(s[|s| - 1]) then TrimRight(s[..|s| - 1]) else s
  }

  /** strings.TrimSpace. */
  function TrimSpace(s: string): string
  {
    TrimRight(TrimLeft(s))
  }

  /** Where the trimmed text starts. */
  function TrimOffset(s: string): nat
  {
    |s| - |TrimLeft(s)|
  }

  /** TrimLeft keeps a suffix that does not start with white space and drops
      only white space. */
  lemma {:induction false} TrimLeftMeaning(s: string)
    ensures var r := TrimLeft(s);
      |r| <= |s| && r == s[|s| - |r|..] && AllSpace(s[..|s| - |r|]) && (r == [] || !IsSpace(r[0]))
  {
    if s != [] && IsSpace(s[0]) {
      TrimLeftMeaning(s[1..]);
      var r := TrimLeft(s[1..]);
      assert s[..|s| - |r|] == [s[0]] + s[1..][..|s| - 1 - |r|];
      AllSpaceConcat([s[0]], s[1..][..|s| - 1 - |r|]);
    } else {
      assert s[..0] == [];
    }
  }

  /** TrimRight keeps a prefix that does not end with white space and drops
      only white space. */
  lemma {:induction false} TrimRightMeaning(s: string)
    ensures var r := TrimRight(s);
      |r| <= |s| && r == s[..|r|] && AllSpace(s[|r|..]) && (r == [] || !IsSpace(r[|r| - 1]))
  {
    if s != [] && IsSpace(s[|s| - 1]) {
      TrimRightMeaning(s[..|s| - 1]);
      var r := TrimRight(s[..|s| - 1]);
      assert s[|r|..] == s[..|s| - 1][|r|..] + [s[|s| - 1]];
      AllSpaceConcat(s[..|s| - 1][|r|..], [s[|s| - 1]]);
    } else {
      assert s[|s|..] == [];
    }
  }

  /** `r` sits in `s` at offset `i` with only white space around it. */
  predicate Surrounded(s: string, i: nat, r: string) {
    i + |r| <= |s| && s[i..i + |r|] == r && AllSpace(s[..i]) && AllSpace(s[i + |r|..])
  }

  /** Trimming the left, then the right, leaves `r` surrounded by white space. */
  lemma SurroundedByParts(s: string, i: nat, l: string, r: string)
    requires i <= |s| && l == s[i..] && AllSpace(s[..i]) && (l == [] || !IsSpace(l[0]))
    requires |r| <= |l| && r == l[..|r|] && AllSpace(l[|r|..]) && (r == [] || !IsSpace(r[|r| - 1]))
    ensures Surrounded(s, i, r)
    ensures r == [] || (!IsSpace(r[0]) && !IsSpace(r[|r| - 1]))
  {
    assert r == [] || r[0] == l[0];
    assert s[i..i + |r|] == r;
    assert s[i + |r|..] == l[|r|..];
  }

  /** strings.TrimSpace yields an infix of `s` that neither starts nor ends
      with white space, and everything cut off around it is white space. */
  lemma TrimSpaceMeaning(s: string)
    ensures var r := TrimSpace(s);
      Surrounded(s, TrimOffset(s), r) && (r == [] || (!IsSpace(r[0]) && !IsSpace(r[|r| - 1])))
  {
    var l := TrimLeft(s);
    TrimLeftMeaning(s);
    TrimRightMeaning(l);
    SurroundedByParts(s, |s| - |l|, l, TrimRight(l));
  }

  /** Outside the trimmed text every character is white space. */
  lemma OutsideIsSpace(s: string, i: nat, len: nat, k: nat)
    requires i + len <= |s| && AllSpace(s[..i]) && AllSpace(s[i + len..])
    requires k < |s| && !(i <= k < i + len)
    ensures IsSpace(s[k])
  {
    if k < i {
      assert s[..i][k] == s[k];
    } else {
      assert s[i + len..][k - i - len] == s[k];
    }
  }

  /** A character that is not white space survives trimming. */
  lemma KeptByTrim(s: string, i: nat, r: string, k: nat) returns (j: nat)
    requires Surrounded(s, i, r)
    requires k < |s| && !IsSpace(s[k])
    ensures j < |r| && r[j] == s[k]
  {
    if !(i <= k < i + |r|) {
      OutsideIsSpace(s, i, |r|, k);
    }
    j := k - i;
    assert r[j] == s[i..i + |r|][j];
  }

  /** A string is blank after trimming exactly when it holds only white space. */
  lemma TrimSpaceEmptyIff(s: string)
    ensures TrimSpace(s) == [] <==> AllSpace(s)
  {
    TrimSpaceMeaning(s);
    BlankIff(s, TrimOffset(s), TrimSpace(s));
  }

  lemma BlankIff(s: string, i: nat, r: string)
    requires Surrounded(s, i, r) && (r == [] || !IsSpace(r[0]))
    ensures r == [] <==> AllSpace(s)
  {
    if r == [] {
      assert s == s[..i] + s[i..];
      AllSpaceConcat(s[..i], s[i..]);
    } else {
      assert s[i] == r[0];
    }
  }

  /** Trimming text that has no white space at its ends, padded with white
      space on both sides, gives the text back. */
  lemma {:induction false} TrimSpacePadded(pre: string, t: string, post: string)
    requires AllSpace(pre) && AllSpace(post)
    requires t != [] && !IsSpace(t[0]) && !IsSpace(t[|t| - 1])
    ensures TrimSpace(pre + t + post) == t
  {
    var s := pre + t + post;
    TrimLeftPadded(pre, t + post);
    assert pre + (t + post) == s;
    TrimRightPadded(t, post);
  }

  lemma {:induction false} TrimLeftPadded(pre: string, u: string)
    requires AllSpace(pre)
    requires u != [] && !IsSpace(u[0])
    ensures TrimLeft(pre + u) == u
  {
    if pre != [] {
      assert (pre + u)[1..] == pre[1..] + u;
      TrimLeftPadded(pre[1..], u);
    } else {
      assert pre + u == u;
    }
  }

  lemma {:induction false} TrimRightPadded(t: string, post: string)
    requires AllSpace(post)
    requires t != [] && !IsSpace(t[|t| - 1])
    ensures TrimRight(t + post) == t
  {
    if post != [] {
      assert (t + post)[..|t + post| - 1] == t + post[..|post| - 1];
      TrimRightPadded(t, post[..|post| - 1]);
    } else {
      assert t + post == t;
    }
  }

  // ---------------------------------------------------------------------
  // strconv.Atoi on a 64-bit platform

  const MinInt: int := -0x8000_0000_0000_0000
  const MaxInt: int := 0x7FFF_FFFF_FFFF_FFFF

  predicate IsDigit(c: char) {
    '0' <= c <= '9'
  }

  predicate AllDigits(s: string) {
    forall i :: 0 <= i < |s| ==> IsDigit(s[i])
  }

  function DigitValue(c: char): nat
    requires IsDigit(c)
  {
    (c as int) - ('0' as int)
  }

  /** The value of a run of decimal digits, most significant first. */
  function DigitsValue(s: string): nat
    requires AllDigits(s)
  {
    if s == [] then 0 else 10 * DigitsValue(s[..|s| - 1]) + DigitValue(s[|s| - 1])
  }

  /** strconv.Atoi: an optional sign followed by at least one ASCII digit,
      whose value fits a 64-bit int; anything else is an error (None). */
  function Atoi(s: string): (r: Option<int>)
    ensures r.Some? ==> MinInt <= r.value <= MaxInt
  {
    if s == [] then None
    else
      var digits := if s[0] == '-' || s[0] == '+' then s[1..] else s;
      if digits == [] || !AllDigits(digits) then None
      else
        var n: int := if s[0] == '-' then 0 - DigitsValue(digits) as int else DigitsValue(digits);
        if MinInt <= n <= MaxInt then Some(n) else None
  }

  /** The decimal digits of a natural number, without leading zeros. */
  function NatDigits(n: nat): (s: string)
    ensures s != [] && AllDigits(s)
  {
    if n < 10 then ['0' + (n as char)]
    else NatDigits(n / 10) + ['0' + ((n % 10) as char)]
  }

  /** strconv.Itoa, the inverse of Atoi used to state its round trip. */
  function FormatInt(n: int): (s: string)
  {
    if n < 0 then "-" + NatDigits(-n) else NatDigits(n)
  }

  lemma {:induction false} NatDigitsValue(n: nat)
    ensures DigitsValue(NatDigits(n)) == n
    ensures NatDigits(n)[0] != '-' && NatDigits(n)[0] != '+'
  {
    var s := NatDigits(n);
    if n >= 10 {
      NatDigitsValue(n / 10);
      assert s[..|s| - 1] == NatDigits(n / 10);
    }
  }

  /** Atoi reads back every 64-bit integer that Itoa writes. */
  lemma AtoiFormatInt(n: int)
    requires MinInt <= n <= MaxInt
    ensures Atoi(FormatInt(n)) == Some(n)
  {
    var s := FormatInt(n);
    if n < 0 {
      NatDigitsValue(-n);
      assert s[1..] == NatDigits(-n);
    } else {
      NatDigitsValue(n);
    }
  }

  // ---------------------------------------------------------------------
  // atoi0

  /** atoi0: trim the field; a blank field is 0, anything else goes to Atoi. */
  function Atoi0(s: string): (r: Option<int>)
    ensures r.Some? ==> MinInt <= r.value <= MaxInt
  {
    var t := TrimSpace(s);
    if t == [] then Some(0) else Atoi(t)
  }

  /** A blank count field (empty, or white space only) counts as zero. */
  lemma Atoi0Blank(s: string)
    requires AllSpace(s)
    ensures Atoi0(s) == Some(0)
  {
    TrimSpaceEmptyIff(s);
  }

  /** Atoi rejects a string holding a character that is neither a digit nor a sign. */
  lemma AtoiRejectsJunk(t: string, j: nat)
    requires j < |t| && !IsDigit(t[j]) && t[j] != '-' && t[j] != '+'
    ensures Atoi(t) == None
  {
    if j > 0 && (t[0] == '-' || t[0] == '+') {
      assert t[1..][j - 1] == t[j];
    }
  }

  /** A field that holds a character that is neither white space, a digit nor
      a sign is rejected. */
  lemma Atoi0RejectsJunk(s: string, k: nat)
    requires k < |s| && !IsSpace(s[k]) && !IsDigit(s[k]) && s[k] != '-' && s[k] != '+'
    ensures Atoi0(s) == None
  {
    var t := TrimSpace(s);
    TrimSpaceMeaning(s);
    var j := KeptByTrim(s, TrimOffset(s), t, k);
    AtoiRejectsJunk(t, j);
  }

  /** A count written by Itoa and padded with white space reads back as itself. */
  lemma Atoi0Padded(pre: string, n: int, post: string)
    requires AllSpace(pre) && AllSpace(post)
    requires MinInt <= n <= MaxInt
    ensures Atoi0(pre + FormatInt(n) + post) == Some(n)
  {
    var t := FormatInt(n);
    AtoiFormatInt(n);
    if n < 0 {
      assert t[0] == '-';
      assert t[|t| - 1] == NatDigits(-n)[|NatDigits(-n)| - 1];
    }
    assert !IsSpace(t[0]) && !IsSpace(t[|t| - 1]);
    TrimSpacePadded(pre, t, post);
  }
}
