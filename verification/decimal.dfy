/**
 * Decimal text of integers, as Rust's standard library writes and reads it:
 * `to_string` on a non-negative integer and `str::parse::<i32>`.
 * The sensor row index travels from the producer to the grid as such text.
 */
module Decimal {
  import opened Wrappers

  const I32_MIN: int := -0x8000_0000
  const I32_MAX: int := 0x7fff_ffff

  /** The values of Rust's `i32`. */
  type I32 = x: int | I32_MIN <= x <= I32_MAX

  predicate IsDigit(c: char) { '0' <= c <= '9' }

  predicate AllDigits(s: string) { forall i :: 0 <= i < |s| ==> IsDigit(s[i]) }

  function DigitValue(c: char): (d: nat)
    requires IsDigit(c)
    ensures d < 10
  {
    c as int - '0' as int
  }

  function DigitChar(d: nat): (c: char)
    requires d < 10
    ensures IsDigit(c) && DigitValue(c) == d
  {
    ('0' as int + d) as char
  }

  /** `n.to_string()` for `n >= 0`: the shortest decimal numeral, most significant digit first. */
  function DecimalString(n: nat): (s: string)
    ensures |s| >= 1 && AllDigits(s)
    ensures s[0] == '0' <==> n == 0
    decreases n
  {
    if n < 10 then [DigitChar(n)] else DecimalString(n / 10) + [DigitChar(n % 10)]
  }

  /** The number a non-empty run of decimal digits denotes. */
  function DigitsValue(s: string): nat
    requires AllDigits(s)
    decreases |s|
  {
    if s == [] then 0 else DigitsValue(s[..|s| - 1]) * 10 + DigitValue(s[|s| - 1])
  }

  /**
   * `s.parse::<i32>()`: an optional `+` or `-` sign followed by at least one
   * decimal digit, whose value must fit in an `i32`; anything else is an error.
   */
  function ParseI32(s: string): (r: Option<I32>)
    ensures |s| == 0 ==> r.None?
    ensures r.Some? && AllDigits(s) ==> r.value == DigitsValue(s)
  {
    if |s| == 0 then None
    else
      var digits := if s[0] == '-' || s[0] == '+' then s[1..] else s;
      if |digits| == 0 || !AllDigits(digits) then None
      else
        var v: int := if s[0] == '-' then 0 - DigitsValue(digits) as int else DigitsValue(digits);
        if I32_MIN <= v <= I32_MAX then Some(v) else None
  }

  lemma {:induction false} DigitsValueOfDecimal(n: nat)
    ensures DigitsValue(DecimalString(n)) == n
    decreases n
  {
    var s := DecimalString(n);
    if n >= 10 {
      DigitsValueOfDecimal(n / 10);
      assert s[..|s| - 1] == DecimalString(n / 10);
    }
  }

  /** Every index the producer writes is read back unchanged by the consumer. */
  lemma ParseDecimalRoundTrip(n: nat)
    requires n <= I32_MAX
    ensures ParseI32(DecimalString(n)) == Some(n)
  {
    DigitsValueOfDecimal(n);
  }

  lemma {:induction false} LeadingDigitPositive(s: string)
    requires |s| > 0 && AllDigits(s) && s[0] != '0'
    ensures DigitsValue(s) >= 1
    decreases |s|
  {
    if |s| > 1 {
      LeadingDigitPositive(s[..|s| - 1]);
    }
  }

  /** The other direction: a canonical numeral is the text of the number it denotes. */
  lemma {:induction false} DecimalOfDigitsValue(s: string)
    requires |s| > 0 && AllDigits(s)
    requires s[0] != '0' || |s| == 1
    ensures DecimalString(DigitsValue(s)) == s
    decreases |s|
  {
    if |s| > 1 {
      var p := s[..|s| - 1];
      DecimalOfDigitsValue(p);
      LeadingDigitPositive(p);
      var n := DigitsValue(s);
      assert n / 10 == DigitsValue(p) && n % 10 == DigitValue(s[|s| - 1]);
      assert DigitChar(n % 10) == s[|s| - 1];
      assert s == p + [s[|s| - 1]];
    }
  }

  /** Distinct numbers have distinct numerals, so row indices never collide as text. */
  lemma DecimalStringInjective(m: nat, n: nat)
    requires DecimalString(m) == DecimalString(n)
    ensures m == n
  {
    DigitsValueOfDecimal(m);
    DigitsValueOfDecimal(n);
  }
}
