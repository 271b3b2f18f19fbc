/** String operations the scripts rely on, with Python's semantics:
    `sub in s`, `s.split(sep)` for a non-empty separator, `sep.join(parts)`,
    `s.lower()` (ASCII letters), `s.strip()` and decimal conversion. */
module Text {
  import opened Wrappers

  /** `pat` occurs in `s` starting at index `i`. */
  predicate OccursAt(s: string, pat: string, i: nat)
  {
    i + |pat| <= |s| && s[i..i + |pat|] == pat
  }

  /** Python's `pat in s`. */
  predicate Contains(s: string, pat: string)
  {
    exists i: nat | i <= |s| :: OccursAt(s, pat, i)
  }

  /** Python's `s.find(pat)`: the first index where `pat` occurs. */
  function IndexOf(s: string, pat: string): (r: Option<nat>)
    ensures r.Some? ==> OccursAt(s, pat, r.value)
    ensures r.Some? ==> forall j: nat :: j < r.value ==> !OccursAt(s, pat, j)
    ensures r.None? ==> forall j: nat :: !OccursAt(s, pat, j)
    decreases |s|
  {
    if |s| < |pat| then None
    else if s[..|pat|] == pat then Some(0)
    else
      var rest := IndexOf(s[1..], pat);
      assert !OccursAt(s, pat, 0);
      assert forall j: nat | j >= 1 :: OccursAt(s, pat, j) <==> OccursAt(s[1..], pat, j - 1) by {
        forall j: nat | j >= 1 ensures OccursAt(s, pat, j) <==> OccursAt(s[1..], pat, j - 1) {
          if j + |pat| <= |s| {
            assert s[1..][j - 1..j - 1 + |pat|] == s[j..j + |pat|];
          }
        }
      }
      match rest
      case None => None
      case Some(i) => Some(i + 1)
  }

  lemma ContainsIffIndexOf(s: string, pat: string)
    ensures Contains(s, pat) <==> IndexOf(s, pat).Some?
  {
    if IndexOf(s, pat).Some? {
      assert OccursAt(s, pat, IndexOf(s, pat).value);
    }
  }

  /** A pattern at the head of `s` occurs in any text ending with `s`. */
  lemma OccursAfter(a: string, s: string, pat: string)
    requires |pat| <= |s| && s[..|pat|] == pat
    ensures Contains(a + s, pat)
  {
    var t := a + s;
    assert t[|a|..|a| + |pat|] == s[..|pat|];
    assert OccursAt(t, pat, |a|);
  }

  /** A one-character pattern occurs exactly where that character stands. */
  lemma OccursAtChar(s: string, c: char, i: nat)
    ensures OccursAt(s, [c], i) <==> i < |s| && s[i] == c
  {
    if i < |s| {
      assert s[i..i + 1] == [s[i]];
    }
  }

  lemma ContainsChar(s: string, c: char)
    ensures Contains(s, [c]) <==> c in s
  {
    if c in s {
      var i :| 0 <= i < |s| && s[i] == c;
      OccursAtChar(s, c, i);
    }
    if Contains(s, [c]) {
      var i: nat :| OccursAt(s, [c], i);
      OccursAtChar(s, c, i);
    }
  }

  /** Python's `s.split(sep)` for a non-empty separator: the pieces between
      the non-overlapping occurrences of `sep`, scanned left to right. */
  function Split(s: string, sep: string): (parts: seq<string>)
    requires |sep| > 0
    ensures |parts| >= 1
    ensures Contains(s, sep) <==> |parts| >= 2
    decreases |s|
  {
    ContainsIffIndexOf(s, sep);
    match IndexOf(s, sep)
    case None => [s]
    case Some(i) => [s[..i]] + Split(s[i + |sep|..], sep)
  }

  /** The first piece ends at the first separator; the rest is split again. */
  lemma SplitAtFirst(s: string, sep: string, i: nat)
    requires |sep| > 0 && IndexOf(s, sep) == Some(i)
    ensures Split(s, sep) == [s[..i]] + Split(s[i + |sep|..], sep)
  {
  }

  /** Splitting the empty string gives one empty piece. */
  lemma SplitEmpty(sep: string)
    requires |sep| > 0
    ensures Split("", sep) == [""]
  {
    assert IndexOf("", sep).None?;
  }

  /** Python's `sep.join(parts)`. */
  function Join(parts: seq<string>, sep: string): string
  {
    if parts == [] then []
    else if |parts| == 1 then parts[0]
    else parts[0] + sep + Join(parts[1..], sep)
  }

  /** Joining the pieces of a split with the same separator gives back the input. */
  lemma {:induction false} JoinSplit(s: string, sep: string)
    requires |sep| > 0
    ensures Join(Split(s, sep), sep) == s
    decreases |s|
  {
    match IndexOf(s, sep)
    case None =>
    case Some(i) =>
      var rest := s[i + |sep|..];
      JoinSplit(rest, sep);
      assert Split(s, sep) == [s[..i]] + Split(rest, sep);
      assert s == s[..i] + sep + rest;
  }

  /** No piece of a split contains the separator. */
  lemma {:induction false} SplitPiecesFree(s: string, sep: string)
    requires |sep| > 0
    ensures forall k :: 0 <= k < |Split(s, sep)| ==> !Contains(Split(s, sep)[k], sep)
    decreases |s|
  {
    match IndexOf(s, sep)
    case None =>
    case Some(i) =>
      var rest := s[i + |sep|..];
      SplitPiecesFree(rest, sep);
      assert Split(s, sep) == [s[..i]] + Split(rest, sep);
      PrefixBeforeFirst(s, sep, i);
  }

  /** The text before the first occurrence of a pattern does not contain it. */
  lemma PrefixBeforeFirst(s: string, pat: string, i: nat)
    requires |pat| > 0
    requires IndexOf(s, pat) == Some(i)
    ensures !Contains(s[..i], pat)
  {
    forall j: nat | OccursAt(s[..i], pat, j)
      ensures false
    {
      assert j < i;
      assert s[..i][j..j + |pat|] == s[j..j + |pat|];
      assert OccursAt(s, pat, j);
    }
  }

  /** Splitting text joined from pieces free of a one-character separator
      gives back the pieces. */
  lemma {:induction false} SplitJoin(parts: seq<string>, c: char)
    requires |parts| >= 1
    requires forall k :: 0 <= k < |parts| ==> c !in parts[k]
    ensures Split(Join(parts, [c]), [c]) == parts
  {
    var s := Join(parts, [c]);
    if |parts| == 1 {
      ContainsChar(s, c);
      ContainsIffIndexOf(s, [c]);
    } else {
      var p0 := parts[0];
      var tail := Join(parts[1..], [c]);
      assert s == p0 + [c] + tail;
      OccursAtChar(s, c, |p0|);
      var r := IndexOf(s, [c]);
      assert r.Some?;
      var i := r.value;
      assert i <= |p0|;
      OccursAtChar(s, c, i);
      assert forall k :: 0 <= k < |p0| ==> s[k] == p0[k];
      assert i == |p0|;
      assert s[..i] == p0;
      assert s[i + 1..] == tail;
      assert Split(s, [c]) == [p0] + Split(tail, [c]);
      SplitJoin(parts[1..], c);
      assert parts == [p0] + parts[1..];
    }
  }

  /** Python's `c.lower()` restricted to ASCII letters. */
  function LowerChar(c: char): char
  {
    if 'A' <= c <= 'Z' then (c as int + 32) as char else c
  }

  /** Python's `s.lower()` restricted to ASCII letters. */
  function Lower(s: string): (r: string)
    ensures |r| == |s|
  {
    seq(|s|, i requires 0 <= i < |s| => LowerChar(s[i]))
  }

  /** Lower-casing twice is lower-casing once, and never moves a '.'. */
  lemma LowerFacts(s: string)
    ensures Lower(Lower(s)) == Lower(s)
    ensures forall i :: 0 <= i < |s| ==> (Lower(s)[i] == '.' <==> s[i] == '.')
  {
  }

  /** Lower-casing commutes with taking a prefix. */
  lemma LowerPrefix(s: string, i: nat)
    requires i <= |s|
    ensures Lower(s)[..i] == Lower(s[..i])
  {
  }

  /** The characters Python's `str.isspace()` accepts. */
  predicate IsSpace(c: char)
  {
    var n := c as int;
    n == 0x20 || 0x09 <= n <= 0x0d || 0x1c <= n <= 0x1f || n == 0x85 || n == 0xa0
    || n == 0x1680 || 0x2000 <= n <= 0x200a || n == 0x2028 || n == 0x2029
    || n == 0x202f || n == 0x205f || n == 0x3000
  }

  /** Number of white-space characters at the start of `s`. */
  function LeadingSpaces(s: string): (i: nat)
    ensures i <= |s|
    ensures forall k :: 0 <= k < i ==> IsSpace(s[k])
    ensures i < |s| ==> !IsSpace(s[i])
  {
    if s == [] || !IsSpace(s[0]) then 0 else 1 + LeadingSpaces(s[1..])
  }

  /** End of `s` once the white space after index `lo` is cut off. */
  function TrailingEnd(s: string, lo: nat): (j: nat)
    requires lo <= |s|
    ensures lo <= j <= |s|
    ensures forall k :: j <= k < |s| ==> IsSpace(s[k])
    ensures j > lo ==> !IsSpace(s[j - 1])
  {
    if |s| == lo || !IsSpace(s[|s| - 1]) then |s| else TrailingEnd(s[..|s| - 1], lo)
  }

  /** Python's `s.strip()`: drops leading and trailing white space. */
  function Strip(s: string): (r: string)
    ensures r != [] ==> !IsSpace(r[0]) && !IsSpace(r[|r| - 1])
    ensures (s == [] || (!IsSpace(s[0]) && !IsSpace(s[|s| - 1]))) ==> r == s
    ensures exists i, j ::
      && 0 <= i <= j <= |s| && r == s[i..j]
      && (forall k :: 0 <= k < i ==> IsSpace(s[k]))
      && (forall k :: j <= k < |s| ==> IsSpace(s[k]))
  {
    var i := LeadingSpaces(s);
    s[i..TrailingEnd(s, i)]
  }

  predicate IsDigit(c: char)
  {
    '0' <= c <= '9'
  }

  predicate AllDigits(s: string)
  {
    forall k :: 0 <= k < |s| ==> IsDigit(s[k])
  }

  /** A decimal numeral as `str(n)` writes it: digits only, no leading zero. */
  predicate Canonical(s: string)
  {
    |s| >= 1 && AllDigits(s) && (s[0] == '0' ==> |s| == 1)
  }

  function DigitChar(d: nat): char
    requires d < 10
  {
    ('0' as int + d) as char
  }

  /** The value of a string of decimal digits. */
  function DecimalValue(s: string): nat
    requires AllDigits(s)
  {
    if s == [] then 0
    else DecimalValue(s[..|s| - 1]) * 10 + (s[|s| - 1] as int - '0' as int)
  }

  /** `str(n)` for a natural number. */
  function NatToDecimal(n: nat): (r: string)
    ensures Canonical(r)
  {
    if n < 10 then [DigitChar(n)] else NatToDecimal(n / 10) + [DigitChar(n % 10)]
  }

  /** `str(i)` for an integer. */
  function IntToDecimal(i: int): string
  {
    if i < 0 then "-" + NatToDecimal(-i) else NatToDecimal(i)
  }

  /** Reading back the decimal text of a natural number gives the number. */
  lemma {:induction false} DecimalRoundTrip(n: nat)
    ensures DecimalValue(NatToDecimal(n)) == n
  {
    if n >= 10 {
      DecimalRoundTrip(n / 10);
      var s := NatToDecimal(n);
      assert s[..|s| - 1] == NatToDecimal(n / 10);
    }
  }

  lemma {:induction false} ZeroValueAllZeros(s: string)
    requires AllDigits(s)
    requires DecimalValue(s) == 0
    ensures forall k :: 0 <= k < |s| ==> s[k] == '0'
  {
    if s != [] {
      ZeroValueAllZeros(s[..|s| - 1]);
      assert forall k :: 0 <= k < |s| - 1 ==> s[..|s| - 1][k] == s[k];
    }
  }

  /** Writing out the value of a canonical numeral gives the numeral back. */
  lemma {:induction false} DecimalRoundTripBack(s: string)
    requires Canonical(s)
    ensures NatToDecimal(DecimalValue(s)) == s
  {
    if |s| > 1 {
      var t := s[..|s| - 1];
      assert t[0] == s[0];
      assert Canonical(t);
      if DecimalValue(t) == 0 {
        ZeroValueAllZeros(t);
        assert false;
      }
      DecimalRoundTripBack(t);
      assert s == t + [s[|s| - 1]];
    }
  }

  /** Python's `int(s)` for an optional sign and decimal digits, surrounding
      white space allowed; anything else raises `ValueError`. */
  function ParseInt(s: string): Option<int>
  {
    ParseSigned(Strip(s))
  }

  /** An optional sign followed by at least one decimal digit. */
  function ParseSigned(t: string): Option<int>
  {
    if |t| >= 2 && t[0] == '-' && AllDigits(t[1..]) then Some(-(DecimalValue(t[1..]) as int))
    else if |t| >= 2 && t[0] == '+' && AllDigits(t[1..]) then Some(DecimalValue(t[1..]))
    else if |t| >= 1 && AllDigits(t) then Some(DecimalValue(t))
    else None
  }

  /** `int(str(i)) == i`. */
  lemma IntRoundTrip(i: int)
    ensures ParseInt(IntToDecimal(i)) == Some(i)
  {
    StripNumeral(i);
    if i < 0 {
      NegativeNumeral(-i);
    } else {
      NaturalNumeral(i);
    }
  }

  lemma NaturalNumeral(n: nat)
    ensures ParseSigned(NatToDecimal(n)) == Some(n)
  {
    var d := NatToDecimal(n);
    assert IsDigit(d[0]);
    DecimalRoundTrip(n);
  }

  lemma NegativeNumeral(n: nat)
    requires n > 0
    ensures ParseSigned("-" + NatToDecimal(n)) == Some(-(n as int))
  {
    var d := NatToDecimal(n);
    var s := "-" + d;
    assert s[1..] == d;
    DecimalRoundTrip(n);
  }

  lemma StripNumeral(i: int)
    ensures Strip(IntToDecimal(i)) == IntToDecimal(i)
  {
    var s := IntToDecimal(i);
    var d := NatToDecimal(if i < 0 then -i else i);
    assert IsDigit(d[0]) && IsDigit(d[|d| - 1]);
    assert s[|s| - 1] == d[|d| - 1];
    assert s[0] == '-' || s[0] == d[0];
  }
}
