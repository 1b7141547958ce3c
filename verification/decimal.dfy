/**
  Decimal text of integers: the reference definition the hand-written
  integer formatting of the character buffer is proved against, its inverse,
  and 32-bit two's-complement arithmetic.
 */
module Decimal {

  const MinInt32: int := -0x8000_0000
  const MaxInt32: int := 0x7FFF_FFFF

  /** C# `int`. */
  type Int32 = x: int | -0x8000_0000 <= x <= 0x7FFF_FFFF

  /** Unchecked C# negation `-v`: wraps modulo 2^32, so `-int.MinValue` is
      `int.MinValue` again. */
  function Negate32(v: Int32): (r: Int32)
    ensures v != MinInt32 ==> r == -v
    ensures v == MinInt32 ==> r == MinInt32
  {
    var n: int := 0 - v as int;
    if n > MaxInt32 then n - 0x1_0000_0000 else n
  }

  /** Unchecked C# addition `a + b`: the exact sum when it fits, otherwise
      the sum wrapped modulo 2^32. */
  function Add32(a: Int32, b: Int32): (r: Int32)
    ensures MinInt32 <= a + b <= MaxInt32 ==> r == a + b
    ensures (r - (a + b)) % 0x1_0000_0000 == 0
  {
    var n: int := a as int + b as int;
    if n > MaxInt32 then n - 0x1_0000_0000
    else if n < MinInt32 then n + 0x1_0000_0000
    else n
  }

  predicate IsDigit(c: char) {
    '0' <= c <= '9'
  }

  /** `(char)(d + '0')` for a digit value `d`. */
  function DigitChar(d: int): (c: char)
    requires 0 <= d < 10
    ensures IsDigit(c)
  {
    (d + '0' as int) as char
  }

  function DigitValue(c: char): int {
    c as int - '0' as int
  }

  /** The decimal digits of `n`, most significant first. */
  function Digits(n: nat): (r: string)
    ensures |r| > 0
    decreases n
  {
    if n < 10 then [DigitChar(n)] else Digits(n / 10) + [DigitChar(n % 10)]
  }

  /** The decimal digits of `n`, least significant first: the order in which
      repeated `% 10` and `/ 10` produce them. */
  function DigitsRev(n: nat): (r: string)
    ensures |r| > 0
    decreases n
  {
    if n < 10 then [DigitChar(n)] else [DigitChar(n % 10)] + DigitsRev(n / 10)
  }

  /** The decimal text of `v`: a `-` exactly for negative numbers, then the
      digits of the magnitude. */
  function DecimalText(v: int): string {
    if v < 0 then "-" + Digits(-v) else Digits(v)
  }

  /** Reading digits back, most significant first. */
  function DigitsValue(s: string): int
    decreases |s|
  {
    if |s| == 0 then 0 else DigitsValue(s[..|s| - 1]) * 10 + DigitValue(s[|s| - 1])
  }

  /** The inverse of `DecimalText`: an optional `-`, then digits. */
  function ParseDecimal(s: string): int {
    if |s| > 0 && s[0] == '-' then -DigitsValue(s[1..]) else DigitsValue(s)
  }

  /** The least-significant-first digits are the digits read backwards. */
  lemma {:induction false} DigitsRevMirror(n: nat)
    ensures |DigitsRev(n)| == |Digits(n)|
    ensures forall k :: 0 <= k < |Digits(n)| ==> Digits(n)[k] == DigitsRev(n)[|Digits(n)| - 1 - k]
    decreases n
  {
    if n >= 10 {
      DigitsRevMirror(n / 10);
    }
  }

  /** Digits are digit characters, and the first one is `0` only for zero. */
  lemma {:induction false} DigitsShape(n: nat)
    ensures forall k :: 0 <= k < |Digits(n)| ==> IsDigit(Digits(n)[k])
    ensures Digits(n)[0] == '0' <==> n == 0
    ensures n == 0 ==> Digits(n) == "0"
    decreases n
  {
    if n >= 10 {
      DigitsShape(n / 10);
    }
  }

  lemma {:induction false} DigitsRoundTrip(n: nat)
    ensures DigitsValue(Digits(n)) == n
    decreases n
  {
    if n >= 10 {
      DigitsRoundTrip(n / 10);
      var d := Digits(n);
      assert d[..|d| - 1] == Digits(n / 10);
    }
  }

  /** Reading the decimal text back gives the number. */
  lemma DecimalRoundTrip(v: int)
    ensures ParseDecimal(DecimalText(v)) == v
  {
    if v < 0 {
      DigitsRoundTrip(-v);
      assert DecimalText(v)[1..] == Digits(-v);
    } else {
      DigitsRoundTrip(v);
      DigitsShape(v);
    }
  }

  /** The shape of the decimal text: `-` first exactly for negative values,
      digit characters after it, and no leading zero except in `"0"`. */
  lemma DecimalShape(v: int)
    ensures DecimalText(v)[0] == '-' <==> v < 0
    ensures var d := if v < 0 then DecimalText(v)[1..] else DecimalText(v);
            && |d| > 0
            && (forall k :: 0 <= k < |d| ==> IsDigit(d[k]))
            && (d[0] == '0' ==> v == 0 && d == "0")
  {
    if v < 0 {
      DigitsShape(-v);
      assert DecimalText(v)[1..] == Digits(-v);
    } else {
      DigitsShape(v);
    }
  }
}
