/** Text helpers behind two pandas calls of the dashboard: the case-insensitive
    `str.contains` used for the injury lookup, and the `to_numeric(errors='coerce')`
    parse of the snap-count cells. */
module Text {
  import opened Tables

  predicate IsUpper(c: char) { 'A' <= c <= 'Z' }

  /** ASCII lower-casing of one character; every other character is unchanged. */
  function LowerChar(c: char): (d: char)
    ensures !IsUpper(d)
    ensures IsUpper(c) ==> d as int == c as int + 32
    ensures !IsUpper(c) ==> d == c
  {
    if IsUpper(c) then (c as int + 32) as char else c
  }

  function Lower(s: string): (r: string)
    ensures |r| == |s|
    ensures forall i :: 0 <= i < |s| ==> r[i] == LowerChar(s[i])
  {
    seq(|s|, i requires 0 <= i < |s| => LowerChar(s[i]))
  }

  /** Lower-casing twice is lower-casing once, so matching on lowered text does not
      depend on which case the text had. */
  lemma LowerIdempotent(s: string)
    ensures Lower(Lower(s)) == Lower(s)
  {
    assert forall i :: 0 <= i < |s| ==> Lower(Lower(s))[i] == Lower(s)[i];
  }

  /** Two strings that differ only in the case of their ASCII letters lower-case to
      the same string. */
  lemma LowerIgnoresCase(a: string, b: string)
    requires |a| == |b|
    requires forall i :: 0 <= i < |a| ==>
      a[i] == b[i] ||
      (IsUpper(a[i]) && b[i] as int == a[i] as int + 32) ||
      (IsUpper(b[i]) && a[i] as int == b[i] as int + 32)
    ensures Lower(a) == Lower(b)
  {
    assert forall i :: 0 <= i < |a| ==> Lower(a)[i] == Lower(b)[i];
  }

  /** `pat` occurs in `text` starting at position `i`. */
  predicate OccursAt(text: string, pat: string, i: int)
  {
    0 <= i && i + |pat| <= |text| && text[i..i + |pat|] == pat
  }

  /** Literal substring search. */
  function Contains(text: string, pat: string): (found: bool)
    ensures found <==> exists i :: OccursAt(text, pat, i)
    decreases |text|
  {
    if |pat| > |text| then
      assert forall i :: !OccursAt(text, pat, i);
      false
    else if text[..|pat|] == pat then
      assert OccursAt(text, pat, 0);
      true
    else
      var rest := Contains(text[1..], pat);
      assert forall i :: OccursAt(text[1..], pat, i) ==> OccursAt(text, pat, i + 1) by {
        forall i | OccursAt(text[1..], pat, i) ensures OccursAt(text, pat, i + 1) {
          assert text[1..][i..i + |pat|] == text[i + 1..i + 1 + |pat|];
        }
      }
      assert forall i :: OccursAt(text, pat, i) ==> i == 0 || OccursAt(text[1..], pat, i - 1) by {
        forall i | OccursAt(text, pat, i) && i > 0 ensures OccursAt(text[1..], pat, i - 1) {
          assert text[1..][i - 1..i - 1 + |pat|] == text[i..i + |pat|];
        }
      }
      rest
  }

  predicate IsDigit(c: char) { '0' <= c <= '9' }

  predicate IsSign(c: char) { c == '-' || c == '+' }

  /** A non-empty run of ASCII digits. */
  predicate IsDigits(s: string)
  {
    |s| > 0 && forall i :: 0 <= i < |s| ==> IsDigit(s[i])
  }

  /** The natural number a run of decimal digits denotes. */
  function DigitsValue(s: string): (n: nat)
    requires forall i :: 0 <= i < |s| ==> IsDigit(s[i])
    decreases |s|
  {
    if s == [] then 0
    else
      assert IsDigit(s[|s| - 1]);
      DigitsValue(s[..|s| - 1]) * 10 + (s[|s| - 1] as int - '0' as int)
  }

  function DigitChar(d: int): (c: char)
    requires 0 <= d < 10
    ensures IsDigit(c) && c as int - '0' as int == d
  {
    ('0' as int + d) as char
  }

  /** The decimal digits of `n`, most significant first, without leading zeros. */
  function NatToDigits(n: nat): (s: string)
    ensures IsDigits(s)
    ensures n > 0 ==> s[0] != '0'
    decreases n
  {
    if n < 10 then [DigitChar(n)] else NatToDigits(n / 10) + [DigitChar(n % 10)]
  }

  /** The usual decimal spelling of an integer, with a '-' for negatives. */
  function IntToText(n: int): (s: string)
    ensures |s| > 0
  {
    if n < 0 then "-" + NatToDigits(-n) else NatToDigits(n)
  }

  /** The numeric reading of a cell: an optional sign followed by one or more
      digits. Anything else, the blank cell included, does not parse. */
  function ParseNumber(s: string): (r: Option<int>)
    ensures s == "" ==> r == None
    ensures r.Some? <==> IsDigits(s) || (|s| > 0 && IsSign(s[0]) && IsDigits(s[1..]))
    ensures IsDigits(s) ==> r == Some(DigitsValue(s))
    ensures |s| > 0 && s[0] == '+' && IsDigits(s[1..]) ==> r == Some(DigitsValue(s[1..]))
    ensures |s| > 0 && s[0] == '-' && IsDigits(s[1..]) ==> r == Some(-(DigitsValue(s[1..]) as int))
    ensures r.Some? && r.value < 0 ==> s[0] == '-'
  {
    if |s| > 0 && IsSign(s[0]) then
      if IsDigits(s[1..]) then
        var magnitude: int := DigitsValue(s[1..]);
        Some(if s[0] == '-' then -magnitude else magnitude)
      else None
    else if IsDigits(s) then Some(DigitsValue(s))
    else None
  }

  lemma {:induction false} DigitsRoundTrip(n: nat)
    ensures DigitsValue(NatToDigits(n)) == n
    decreases n
  {
    if n >= 10 {
      var s := NatToDigits(n);
      assert s[..|s| - 1] == NatToDigits(n / 10);
      DigitsRoundTrip(n / 10);
    }
  }

  /** Parsing reads back every integer written in decimal. */
  lemma ParseIntToText(n: int)
    ensures ParseNumber(IntToText(n)) == Some(n)
  {
    if n < 0 {
      var t := NatToDigits(-n);
      assert ("-" + t)[1..] == t;
      DigitsRoundTrip(-n);
    } else {
      DigitsRoundTrip(n);
    }
  }

  /** A character that is neither a digit nor a leading sign makes the cell
      non-numeric. */
  lemma ParseRejectsStrayChar(s: string, i: int)
    requires 0 <= i < |s| && !IsDigit(s[i])
    requires i > 0 || !IsSign(s[i])
    ensures ParseNumber(s) == None
  {
    if i > 0 && IsSign(s[0]) {
      assert s[1..][i - 1] == s[i];
    }
  }
}
