/** `shortenAddress`: the display form of an account address. */
module Utils {
  import opened Wrappers
  import opened JsString

  /** The value of the `chars` parameter when the caller omits it. */
  const DefaultChars := 4

  /** True iff `value` is falsy in JavaScript: undefined, null or the empty string. */
  predicate IsFalsy(value: Option<string>) {
    value.None? || value.value == ""
  }

  /**
   `shortenAddress(value, chars)`: "" for a falsy value, otherwise
   `value.slice(0, chars + 2) + "..." + value.slice(-chars)`.
   The result starts with a prefix of the input (as long as the clamped
   `chars + 2`), then "...", then a suffix of the input.
   */
  function ShortenAddress(value: Option<string>, chars: int): (r: string)
    ensures r == "" <==> IsFalsy(value)
    ensures !IsFalsy(value) ==>
              var v := value.value;
              var p := ClampIndex(|v|, chars + 2);
              && |r| >= p + 3
              && r[..p] == v[..p]
              && r[p..p + 3] == "..."
              && IsSuffix(r[p + 3..], v)
  {
    if IsFalsy(value) then ""
    else
      var v := value.value;
      Slice(v, 0, chars + 2) + "..." + SliceFrom(v, -chars)
  }

  /**
   `shortenAddress(value)` with `chars` left at its default of 4: an input of
   at least six characters keeps its first six and its last four.
   */
  function ShortenAddressDefault(value: Option<string>): (r: string)
    ensures r == "" <==> IsFalsy(value)
    ensures value.Some? && |value.value| >= 6 ==>
              var v := value.value;
              r == v[..6] + "..." + v[|v| - 4..]
  {
    ShortenAddress(value, DefaultChars)
  }

  /** With chars >= 1 the result is the first chars + 2 and the last chars characters (clamped to the input). */
  lemma ShortenShape(v: string, chars: int)
    requires v != "" && chars >= 1
    ensures ShortenAddress(Some(v), chars) == v[..Min(chars + 2, |v|)] + "..." + v[|v| - Min(chars, |v|)..]
  {
    SlicePrefix(v, chars + 2);
    SliceFromNegative(v, chars);
  }

  /** With chars == 0 the suffix is the whole input, because `slice(-0)` is `slice(0)`. */
  lemma ShortenZeroChars(v: string)
    requires v != ""
    ensures ShortenAddress(Some(v), 0) == v[..Min(2, |v|)] + "..." + v
  {
    SlicePrefix(v, 2);
    SliceFromZero(v);
  }

  /** When the input is long enough that nothing is clamped, the result has exactly 2 * chars + 5 characters. */
  lemma ShortenLength(v: string, chars: int)
    requires chars >= 1 && chars + 2 <= |v|
    ensures |ShortenAddress(Some(v), chars)| == 2 * chars + 5
  {
    ShortenShape(v, chars);
  }

  /** Example: a 40-hex-digit address shortens to its first six and last four characters. */
  lemma ShortenDefaultExample()
    ensures ShortenAddressDefault(Some("0x1234567890abcdef1234567890abcdef12345678")) == "0x1234...5678"
  {
    var v := "0x1234567890abcdef1234567890abcdef12345678";
    ShortenShape(v, DefaultChars);
    assert |v| == 42;
    assert v[..6] == "0x1234" by {
      assert v[0] == '0' && v[1] == 'x' && v[2] == '1' && v[3] == '2' && v[4] == '3' && v[5] == '4';
    }
    assert v[38..] == "5678" by {
      assert v[38] == '5' && v[39] == '6' && v[40] == '7' && v[41] == '8';
    }
  }
}
