/**
 * Decimal text for integers: Rust's `to_string` on an integer and
 * `str::parse::<i64>` (an optional `+` or `-`, then one or more ASCII
 * digits, the value within the range of a 64-bit signed integer).
 */
module Decimal {
  import opened Wrappers

  const I64_MIN: int := -0x8000_0000_0000_0000
  const I64_MAX: int := 0x7FFF_FFFF_FFFF_FFFF

  /** The values of Rust's `i64`. */
  type I64 = x: int | -0x8000_0000_0000_0000 <= x <= 0x7FFF_FFFF_FFFF_FFFF

  predicate IsDigit(c: char) {
    '0' <= c <= '9'
  }

  predicate AllDigits(s: string) {
    forall i :: 0 <= i < |s| ==> IsDigit(s[i])
  }

  function DigitValue(c: char): (d: nat)
    requires IsDigit(c)
    ensures d < 10
  {
    c as int - '0' as int
  }

  function DigitChar(d: nat): (c: char)
    requires d < 10
    ensures IsDigit(c) && DigitValue(c) == d
  {
    ('0' as int + d) as char
  }

  /** The value of a string of digits, most significant first. */
  function DigitsValue(s: string): nat
    requires AllDigits(s)
  {
    if s == [] then 0 else DigitsValue(s[..|s| - 1]) * 10 + DigitValue(s[|s| - 1])
  }

  /** The decimal digits of `n`, most significant first, without leading zeros. */
  function NatToDigits(n: nat): string
  {
    if n < 10 then [DigitChar(n)] else NatToDigits(n / 10) + [DigitChar(n % 10)]
  }

  /** The rendering is one or more digits, without a leading zero. */
  lemma {:induction false} NatToDigitsShape(n: nat)
    ensures |NatToDigits(n)| >= 1 && AllDigits(NatToDigits(n))
    ensures |NatToDigits(n)| > 1 ==> NatToDigits(n)[0] != '0'
  {
    if n >= 10 {
      NatToDigitsShape(n / 10);
      var p := NatToDigits(n / 10);
      assert NatToDigits(n) == p + [DigitChar(n % 10)];
      if |p| == 1 {
        assert p[0] != '0';
      }
    }
  }

  /** Rust's `to_string` on an integer: a `-` for negative values, then the digits. */
  function IntToString(n: int): (s: string)
    ensures |s| >= 1 && (IsDigit(s[0]) || s[0] == '-') && (s[0] == '-' <==> n < 0)
  {
    NatToDigitsShape(if n < 0 then -n else n);
    if n < 0 then "-" + NatToDigits(-n) else NatToDigits(n)
  }

  /** The string a sign character leaves for the digits. */
  function Unsigned(s: string): string
  {
    if |s| > 0 && (s[0] == '+' || s[0] == '-') then s[1..] else s
  }

  /** The value of a sign and digits, without a range check. */
  function SignedValue(s: string): int
    requires |Unsigned(s)| > 0 && AllDigits(Unsigned(s))
  {
    if s[0] == '-' then 0 - DigitsValue(Unsigned(s)) else DigitsValue(Unsigned(s))
  }

  /** Rust's `str::parse::<i64>`: `None` stands for every `ParseIntError`. */
  function ParseI64(s: string): (r: Option<I64>)
    ensures r.Some? <==> |Unsigned(s)| > 0 && AllDigits(Unsigned(s)) &&
                          I64_MIN <= SignedValue(s) <= I64_MAX
    ensures r.Some? ==> r.value == SignedValue(s)
  {
    var digits := Unsigned(s);
    if digits == [] || !AllDigits(digits) then None
    else
      var v := SignedValue(s);
      if I64_MIN <= v <= I64_MAX then Some(v) else None
  }

  lemma {:induction false} DigitsValueOfNat(n: nat)
    ensures AllDigits(NatToDigits(n)) && DigitsValue(NatToDigits(n)) == n
  {
    NatToDigitsShape(n);
    if n >= 10 {
      NatToDigitsShape(n / 10);
      var s := NatToDigits(n);
      var prefix := NatToDigits(n / 10);
      assert s == prefix + [DigitChar(n % 10)];
      assert s[..|s| - 1] == prefix;
      DigitsValueOfNat(n / 10);
    }
  }

  /** Every `i64` survives a trip through its decimal text. */
  lemma ParseIntToString(n: I64)
    ensures ParseI64(IntToString(n)) == Some(n)
  {
    var s := IntToString(n);
    var m: nat := if n < 0 then 0 - n as int else n as int;
    NatToDigitsShape(m);
    DigitsValueOfNat(m);
    if n < 0 {
      assert Unsigned(s) == NatToDigits(m);
    } else {
      assert Unsigned(s) == NatToDigits(m);
    }
  }

  /** Decimal text determines the integer. */
  lemma IntToStringInjective(m: I64, n: I64)
    requires IntToString(m) == IntToString(n)
    ensures m == n
  {
    ParseIntToString(m);
    ParseIntToString(n);
  }

  /** The rendering never holds a character other than a digit or a leading `-`. */
  lemma IntToStringChars(n: int)
    ensures |IntToString(n)| >= 1
    ensures forall i :: 0 <= i < |IntToString(n)| ==> IsDigit(IntToString(n)[i]) || (i == 0 && n < 0 && IntToString(n)[i] == '-')
    ensures n >= 0 && |IntToString(n)| > 1 ==> IntToString(n)[0] != '0'
    ensures n < 0 ==> |IntToString(n)| >= 2 && IntToString(n)[1] != '0'
  {
    NatToDigitsShape(if n < 0 then -n else n);
    if n < 0 {
      assert IntToString(n)[1..] == NatToDigits(-n);
    }
  }
}
