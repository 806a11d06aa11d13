/**
 The two pieces of ECMAScript string behaviour the display code relies on:
 `String.prototype.slice` with its negative-index rule, and the decimal
 rendering of an integral Number inside a template literal.
 */
module JsString {

  function Min(a: int, b: int): int {
    if a < b then a else b
  }

  predicate IsSuffix(t: string, s: string) {
    |t| <= |s| && t == s[|s| - |t|..]
  }

  /**
   Resolves a `slice` argument against a string of length `len`: a negative
   argument counts back from the end, and the result is clamped to [0, len].
   */
  function ClampIndex(len: nat, k: int): (r: nat)
    ensures r <= len
  {
    if k < 0 then (if len + k < 0 then 0 else len + k)
    else if k < len then k
    else len
  }

  /** `s.slice(start, end)`: the characters between the two resolved indices, or "" when they cross. */
  function Slice(s: string, start: int, end: int): (r: string)
    ensures |r| <= |s|
    ensures var from := ClampIndex(|s|, start);
            from + |r| <= |s| && r == s[from..from + |r|]
    ensures var from := ClampIndex(|s|, start);
            var to := ClampIndex(|s|, end);
            |r| == if from < to then to - from else 0
  {
    var from := ClampIndex(|s|, start);
    var to := ClampIndex(|s|, end);
    if from < to then s[from..to] else ""
  }

  /** `s.slice(start)` with the end omitted: it always yields a suffix of `s`. */
  function SliceFrom(s: string, start: int): (r: string)
    ensures IsSuffix(r, s)
  {
    Slice(s, start, |s|)
  }

  /** `s.slice(0, k)` with k >= 0 is the first min(k, |s|) characters. */
  lemma SlicePrefix(s: string, k: int)
    requires k >= 0
    ensures Slice(s, 0, k) == s[..Min(k, |s|)]
  {
  }

  /** `s.slice(-k)` with k >= 1 is the last min(k, |s|) characters. */
  lemma SliceFromNegative(s: string, k: int)
    requires k >= 1
    ensures SliceFrom(s, -k) == s[|s| - Min(k, |s|)..]
  {
  }

  /** `s.slice(0)`, and so `s.slice(-0)`, is the whole string. */
  lemma SliceFromZero(s: string)
    ensures SliceFrom(s, 0) == s
  {
  }

  predicate IsDigit(c: char) {
    '0' <= c <= '9'
  }

  predicate AllDigits(s: string) {
    forall i :: 0 <= i < |s| ==> IsDigit(s[i])
  }

  /** A canonical decimal numeral: digits only, and no leading zero unless it is "0". */
  predicate IsNumeral(s: string) {
    |s| >= 1 && AllDigits(s) && (s[0] == '0' ==> |s| == 1)
  }

  /** The text a template literal produces for an integral Number (no exponent form). */
  predicate IsIntegerText(s: string) {
    IsNumeral(s) || (|s| >= 2 && s[0] == '-' && IsNumeral(s[1..]) && s[1..] != "0")
  }

  function DigitChar(d: nat): (c: char)
    requires d < 10
    ensures IsDigit(c)
  {
    ('0' as int + d) as char
  }

  function DigitValue(c: char): (d: nat)
    requires IsDigit(c)
    ensures d < 10
  {
    c as int - '0' as int
  }

  /** Decimal rendering of a natural number, most significant digit first. */
  function NatToString(n: nat): (r: string)
    ensures IsNumeral(r)
    ensures r == "0" <==> n == 0
    decreases n
  {
    if n < 10 then [DigitChar(n)]
    else NatToString(n / 10) + [DigitChar(n % 10)]
  }

  /** Reads a string of decimal digits back as a natural number. */
  function ParseNat(s: string): nat
    requires AllDigits(s)
    decreases |s|
  {
    if |s| == 0 then 0
    else ParseNat(s[..|s| - 1]) * 10 + DigitValue(s[|s| - 1])
  }

  lemma {:induction false} ParseNatToString(n: nat)
    ensures ParseNat(NatToString(n)) == n
    decreases n
  {
    var r := NatToString(n);
    if n >= 10 {
      assert r[..|r| - 1] == NatToString(n / 10);
      ParseNatToString(n / 10);
    }
  }

  /** `${i}` for an integral Number `i`. */
  function IntToString(i: int): (r: string)
    ensures IsIntegerText(r)
    ensures r[0] == '-' <==> i < 0
  {
    if i < 0 then "-" + NatToString(-i) else NatToString(i)
  }

  function ParseInt(s: string): int
    requires IsIntegerText(s)
  {
    if s[0] == '-' then -(ParseNat(s[1..]) as int) else ParseNat(s)
  }

  /** Rendering loses nothing: the text of an integer reads back as that integer. */
  lemma IntToStringRoundTrip(i: int)
    ensures ParseInt(IntToString(i)) == i
  {
    if i < 0 {
      assert IntToString(i)[1..] == NatToString(-i);
      ParseNatToString(-i);
    } else {
      ParseNatToString(i);
    }
  }

  /** Different integers render as different text. */
  lemma IntToStringInjective(i: int, k: int)
    requires IntToString(i) == IntToString(k)
    ensures i == k
  {
    IntToStringRoundTrip(i);
    IntToStringRoundTrip(k);
  }
}
