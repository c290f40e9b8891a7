/**
 * The small pieces of Python's string behaviour that the bot relies on:
 * `str.isspace`/`str.strip`, ASCII `str.upper`, the word characters of the
 * `re` module's `\b`, and decimal rendering and parsing of integers.
 */
module Text {
  import opened Wrappers

  /** Exactly the characters for which Python's `str.isspace()` is true. */
  predicate IsSpace(c: char) {
    || c == ' '
    || ('\t' <= c <= '\r')
    || ('\U{1C}' <= c <= '\U{1F}')
    || c == '\U{85}' || c == '\U{A0}' || c == '\U{1680}'
    || ('\U{2000}' <= c <= '\U{200A}')
    || c == '\U{2028}' || c == '\U{2029}' || c == '\U{202F}' || c == '\U{205F}' || c == '\U{3000}'
  }

  predicate IsDigit(c: char) { '0' <= c <= '9' }

  predicate IsLowerAscii(c: char) { 'a' <= c <= 'z' }

  predicate IsUpperAscii(c: char) { 'A' <= c <= 'Z' }

  /** A word character for `\b`, restricted to ASCII. */
  predicate IsWordChar(c: char) { IsLowerAscii(c) || IsUpperAscii(c) || IsDigit(c) || c == '_' }

  /** Neither the first nor the last character is whitespace. */
  predicate NoOuterSpace(s: string) {
    s == [] || (!IsSpace(s[0]) && !IsSpace(s[|s| - 1]))
  }

  function UpperChar(c: char): (u: char)
    ensures !IsLowerAscii(u)
    ensures !IsLowerAscii(c) ==> u == c
    ensures IsSpace(u) <==> IsSpace(c)
  {
    if IsLowerAscii(c) then (c as int - 32) as char else c
  }

  function LowerChar(c: char): char {
    if IsUpperAscii(c) then (c as int + 32) as char else c
  }

  /** `s.upper()` on the ASCII letters. */
  function Upper(s: string): (r: string)
    ensures |r| == |s|
    ensures forall i :: 0 <= i < |s| ==> r[i] == UpperChar(s[i])
  {
    seq(|s|, i requires 0 <= i < |s| => UpperChar(s[i]))
  }

  /** `s.replace(old, new)` for single characters. */
  function ReplaceChar(s: string, from: char, to: char): (r: string)
    ensures |r| == |s|
    ensures forall i :: 0 <= i < |s| ==> r[i] == (if s[i] == from then to else s[i])
  {
    seq(|s|, i requires 0 <= i < |s| => if s[i] == from then to else s[i])
  }

  /** Replacing a character that does not occur changes nothing. */
  lemma ReplaceAbsent(s: string, from: char, to: char)
    requires from !in s
    ensures ReplaceChar(s, from, to) == s
  {
  }

  /** Upper-casing text without lower-case ASCII letters changes nothing. */
  lemma UpperOfUpper(s: string)
    requires forall i :: 0 <= i < |s| ==> !IsLowerAscii(s[i])
    ensures Upper(s) == s
  {
  }

  /** `s.lstrip()`: the removed prefix is all whitespace and the rest does not start with it. */
  function LStrip(s: string): (r: string)
    ensures |r| <= |s| && r == s[|s| - |r|..]
    ensures r == [] || !IsSpace(r[0])
    ensures forall i :: 0 <= i < |s| - |r| ==> IsSpace(s[i])
  {
    if s != [] && IsSpace(s[0]) then LStrip(s[1..]) else s
  }

  /** `s.rstrip()`: the removed suffix is all whitespace and the rest does not end with it. */
  function RStrip(s: string): (r: string)
    ensures |r| <= |s| && r == s[..|r|]
    ensures r == [] || !IsSpace(r[|r| - 1])
    ensures forall i :: |r| <= i < |s| ==> IsSpace(s[i])
  {
    if s != [] && IsSpace(s[|s| - 1]) then RStrip(s[..|s| - 1]) else s
  }

  /** `s.strip()`. */
  function Strip(s: string): (r: string)
    ensures NoOuterSpace(r)
    ensures |r| <= |s|
    ensures forall c :: c in r ==> c in s
  {
    var l := LStrip(s);
    var r := RStrip(l);
    assert forall c :: c in r ==> c in l;
    r
  }

  /** `r` is `s[i..]` up to a suffix, and everything of `s` around it is whitespace. */
  predicate OuterSpaceAround(s: string, r: string, i: int) {
    && 0 <= i && i + |r| <= |s| && r == s[i..i + |r|]
    && (forall k :: 0 <= k < i ==> IsSpace(s[k]))
    && (forall k :: i + |r| <= k < |s| ==> IsSpace(s[k]))
  }

  /**
   * `s.strip()` removes only outer whitespace: the result is the slice of `s`
   * between a whitespace prefix and a whitespace suffix.
   */
  lemma StripIsInfix(s: string)
    ensures exists i :: OuterSpaceAround(s, Strip(s), i)
  {
    var l := LStrip(s);
    var r := Strip(s);
    var i := |s| - |l|;
    assert r == RStrip(l) && r == l[..|r|];
    assert s[i..i + |r|] == r;
    forall k | i + |r| <= k < |s| ensures IsSpace(s[k]) {
      assert s[k] == l[k - i];
    }
    assert OuterSpaceAround(s, r, i);
  }

  /** Stripping a string that has no outer whitespace changes nothing. */
  lemma StripNoOp(s: string)
    requires NoOuterSpace(s)
    ensures Strip(s) == s
  {
  }

  /** Trailing whitespace after a string with no outer whitespace is stripped away. */
  lemma {:induction false} StripTrailing(s: string, t: string)
    requires s != [] && NoOuterSpace(s)
    requires forall i :: 0 <= i < |t| ==> IsSpace(t[i])
    ensures Strip(s + t) == s
  {
    assert LStrip(s + t) == s + t;
    if t != [] {
      assert (s + t)[..|s + t| - 1] == s + t[..|t| - 1];
      StripTrailing(s, t[..|t| - 1]);
    }
  }

  function DigitChar(d: nat): (c: char)
    requires d < 10
    ensures IsDigit(c)
  {
    ('0' as int + d) as char
  }

  function DigitValue(c: char): nat
    requires IsDigit(c)
  {
    c as int - '0' as int
  }

  /** `str(n)` for a non-negative int: the shortest decimal rendering. */
  function NatToString(n: nat): (s: string)
    ensures s != []
    ensures forall i :: 0 <= i < |s| ==> IsDigit(s[i])
  {
    if n < 10 then [DigitChar(n)] else NatToString(n / 10) + [DigitChar(n % 10)]
  }

  predicate AllDigits(s: string) {
    forall i :: 0 <= i < |s| ==> IsDigit(s[i])
  }

  /** The value of a run of decimal digits. */
  function DigitsValue(s: string): nat
    requires AllDigits(s)
  {
    if s == [] then 0 else DigitsValue(s[..|s| - 1]) * 10 + DigitValue(s[|s| - 1])
  }

  /** Rendering a number in decimal and reading it back gives the number. */
  lemma {:induction false} DigitsRoundTrip(n: nat)
    ensures DigitsValue(NatToString(n)) == n
  {
    var s := NatToString(n);
    if n >= 10 {
      assert s[..|s| - 1] == NatToString(n / 10);
      DigitsRoundTrip(n / 10);
    }
  }

  /** An optional sign followed by at least one ASCII digit. */
  predicate SignedDigits(t: string) {
    || (t != [] && AllDigits(t))
    || (|t| >= 2 && (t[0] == '-' || t[0] == '+') && AllDigits(t[1..]))
  }

  /**
   * `int(s)` for base-ten text: surrounding whitespace, an optional sign and at
   * least one ASCII digit; anything else raises `ValueError` (here `None`).
   */
  function ParseInt(s: string): (r: Option<int>)
    ensures r.Some? <==> SignedDigits(Strip(s))
  {
    var t := Strip(s);
    if t == [] then None
    else
      var neg := t[0] == '-';
      var body := if t[0] == '-' || t[0] == '+' then t[1..] else t;
      if body == [] || !AllDigits(body) then None
      else Some(if neg then 0 - DigitsValue(body) as int else DigitsValue(body) as int)
  }

  /**
   * The value `int` gives to accepted text: the digits after the sign read in
   * base ten, negated after a minus sign. Leading zeros and a plus sign change
   * nothing.
   */
  lemma ParseIntValue(s: string)
    requires SignedDigits(Strip(s))
    ensures var t := Strip(s);
      ParseInt(s) == Some(if t[0] == '-' then -(DigitsValue(t[1..]) as int)
                          else if t[0] == '+' then DigitsValue(t[1..]) as int
                          else DigitsValue(t) as int)
  {
  }

  /** A leading zero does not change the value of a digit run, so `int("007") == 7`. */
  lemma {:induction false} LeadingZero(d: string)
    requires AllDigits(d)
    ensures AllDigits("0" + d) && DigitsValue("0" + d) == DigitsValue(d)
  {
    var z := "0" + d;
    assert AllDigits(z) by {
      forall i | 0 <= i < |z| ensures IsDigit(z[i]) {
        if i > 0 { assert z[i] == d[i - 1]; }
      }
    }
    if d != [] {
      var init := d[..|d| - 1];
      assert z[..|z| - 1] == "0" + init;
      assert z[|z| - 1] == d[|d| - 1];
      LeadingZero(init);
    }
  }

  /** Every decimal rendering `str(n)` parses back as `int` to `n`. */
  lemma ParseIntRoundTrip(n: nat)
    ensures ParseInt(NatToString(n)) == Some(n)
  {
    var s := NatToString(n);
    assert !IsSpace(s[0]) && !IsSpace(s[|s| - 1]);
    StripNoOp(s);
    assert s[0] != '-' && s[0] != '+';
    DigitsRoundTrip(n);
  }

  /** A minus sign before a decimal rendering parses to the negated number. */
  lemma ParseIntNegative(n: nat)
    ensures ParseInt("-" + NatToString(n)) == Some(-(n as int))
  {
    var d := NatToString(n);
    var s := "-" + d;
    assert s[1..] == d;
    assert !IsSpace(s[0]) && !IsSpace(s[|s| - 1]);
    StripNoOp(s);
    DigitsRoundTrip(n);
  }
}
