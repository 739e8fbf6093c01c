/**
 * The two conversions of Go's `strconv` that the relationship reader uses on
 * tuple IDs: `FormatUint(n, 10)` and `ParseUint(s, 10, 64)`, over byte strings.
 */
module Decimal {
  import opened Wrappers
  import opened Base64

  const MaxUint64: int := 0xFFFF_FFFF_FFFF_FFFF

  type uint64 = n: int | 0 <= n <= MaxUint64

  predicate IsDigit(c: byte) {
    48 <= c <= 57
  }

  /** The value of a string of decimal digits, most significant first. */
  function DigitsValue(s: seq<byte>): nat
    requires forall i :: 0 <= i < |s| ==> IsDigit(s[i])
  {
    if s == [] then 0
    else
      var last := s[|s| - 1];
      assert IsDigit(last);
      10 * DigitsValue(s[..|s| - 1]) + (last - 48)
  }

  /** `strconv.FormatUint(n, 10)`: the shortest decimal numeral of `n`. */
  function FormatUint(n: nat): (s: seq<byte>)
    ensures |s| > 0
    ensures forall i :: 0 <= i < |s| ==> IsDigit(s[i])
    ensures |s| > 1 ==> s[0] != 48
  {
    if n < 10 then [48 + n] else FormatUint(n / 10) + [48 + n % 10]
  }

  /**
   * `strconv.ParseUint(s, 10, 64)`: None stands for both of Go's errors, the
   * syntax error (empty text, a byte that is not a digit, a sign) and the range
   * error (a value above 2^64 - 1). Leading zeros are accepted.
   */
  function ParseUint(s: seq<byte>): (r: Option<uint64>)
    ensures r.Some? <==>
      s != [] && (forall i :: 0 <= i < |s| ==> IsDigit(s[i])) && DigitsValue(s) <= MaxUint64
  {
    if s == [] then None
    else if exists i :: 0 <= i < |s| && !IsDigit(s[i]) then None
    else if DigitsValue(s) > MaxUint64 then None
    else Some(DigitsValue(s))
  }

  lemma {:induction false} DigitsValueOfFormat(n: nat)
    ensures DigitsValue(FormatUint(n)) == n
  {
    if n >= 10 {
      var s := FormatUint(n);
      DigitsValueOfFormat(n / 10);
      assert s[..|s| - 1] == FormatUint(n / 10);
    }
  }

  /** Parsing the decimal numeral of any 64-bit value gives the value back. */
  lemma ParseFormatRoundTrip(n: uint64)
    ensures ParseUint(FormatUint(n)) == Some(n)
  {
    DigitsValueOfFormat(n);
  }
}
