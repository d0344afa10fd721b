/**
 * The part of Go's `strconv.ParseInt(s, 10, 64)` the parser relies on:
 * an optional sign, one or more decimal digits, and a result that must fit
 * a signed 64-bit integer. Syntax and range failures are both `None`.
 */
module Strconv {
  import opened Wrappers

  const MinInt64: int := -0x8000_0000_0000_0000
  const MaxInt64: int := 0x7FFF_FFFF_FFFF_FFFF

  predicate IsDigit(c: char)
  {
    '0' <= c <= '9'
  }

  predicate AllDigits(s: string)
  {
    forall i :: 0 <= i < |s| ==> IsDigit(s[i])
  }

  function DigitValue(c: char): nat
    requires IsDigit(c)
  {
    (c as int) - ('0' as int)
  }

  /** The base-10 value of a digit string, most significant digit first. */
  function DigitsValue(s: string): nat
    requires AllDigits(s)
  {
    if s == [] then 0 else DigitsValue(s[..|s| - 1]) * 10 + DigitValue(s[|s| - 1])
  }

  /** The digits after an optional leading sign. */
  function Unsigned(s: string): string
  {
    if |s| > 0 && (s[0] == '+' || s[0] == '-') then s[1..] else s
  }

  function ParseInt64(s: string): (r: Option<int>)
    ensures r.Some? ==> MinInt64 <= r.value <= MaxInt64
    ensures r.Some? ==> Unsigned(s) != [] && AllDigits(Unsigned(s))
    ensures r.Some? ==> r.value == (if s[0] == '-' then -(DigitsValue(Unsigned(s)) as int) else DigitsValue(Unsigned(s)))
    ensures Unsigned(s) != [] && AllDigits(Unsigned(s))
            && MinInt64 <= (if s[0] == '-' then -(DigitsValue(Unsigned(s)) as int) else DigitsValue(Unsigned(s))) <= MaxInt64
            ==> r.Some?
  {
    var digits := Unsigned(s);
    if digits == [] || !AllDigits(digits) then None
    else
      var magnitude: int := DigitsValue(digits);
      var v: int := if s[0] == '-' then -magnitude else magnitude;
      if MinInt64 <= v <= MaxInt64 then Some(v) else None
  }

  function DigitChar(d: nat): (c: char)
    requires d < 10
    ensures IsDigit(c) && DigitValue(c) == d
  {
    (('0' as int) + d) as char
  }

  /** The shortest decimal text of n (what the lexer scans for an integer literal). */
  function DecimalString(n: nat): string
  {
    if n < 10 then [DigitChar(n)] else DecimalString(n / 10) + [DigitChar(n % 10)]
  }

  lemma {:induction false} DecimalStringValue(n: nat)
    ensures DecimalString(n) != [] && AllDigits(DecimalString(n))
    ensures DigitsValue(DecimalString(n)) == n
  {
    if n >= 10 {
      DecimalStringValue(n / 10);
      var s := DecimalString(n);
      assert s[..|s| - 1] == DecimalString(n / 10);
    }
  }

  /** Every non-negative 64-bit value survives the trip through its decimal text. */
  lemma ParseInt64OfDecimal(n: nat)
    requires n <= MaxInt64
    ensures ParseInt64(DecimalString(n)) == Some(n)
  {
    DecimalStringValue(n);
  }

  /** A minus sign in front gives the negative value, down to the 64-bit minimum. */
  lemma ParseInt64OfNegative(n: nat)
    requires 0 < n <= -MinInt64
    ensures ParseInt64("-" + DecimalString(n)) == Some(-(n as int))
  {
    DecimalStringValue(n);
    assert Unsigned("-" + DecimalString(n)) == DecimalString(n);
  }

  /** The decimal text of every value past the 64-bit maximum is refused. */
  lemma ParseInt64Overflow(n: nat)
    requires n > MaxInt64
    ensures ParseInt64(DecimalString(n)) == None
  {
    DecimalStringValue(n);
  }
}
