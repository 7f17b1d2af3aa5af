/** Decimal spellings of numbers: what `Print::print` writes for an integer and what
    `sprintf("%02d", …)` writes for a clock field, together with the reading-back
    functions that make each spelling checkable. */
module Text {

  predicate IsDigit(c: char) {
    '0' <= c <= '9'
  }

  predicate AllDigits(s: string) {
    forall i :: 0 <= i < |s| ==> IsDigit(s[i])
  }

  function DigitValue(c: char): nat
    requires IsDigit(c)
  {
    c as int - '0' as int
  }

  function DigitChar(d: nat): (c: char)
    requires d < 10
    ensures IsDigit(c) && DigitValue(c) == d
  {
    ('0' as int + d) as char
  }

  /** The number a string of digits spells, most significant digit first. */
  function Value(s: string): nat
    requires AllDigits(s)
    decreases |s|
  {
    if s == [] then 0 else Value(s[..|s| - 1]) * 10 + DigitValue(s[|s| - 1])
  }

  /** The base-10 spelling of `n` without leading zeros, as `Print::print` writes an
      unsigned number. */
  function Decimal(n: nat): (s: string)
    ensures 1 <= |s| && AllDigits(s)
    ensures s[0] == '0' <==> n == 0
    ensures |s| == 1 <==> n < 10
    ensures n < 100 ==> |s| <= 2
    decreases n
  {
    if n < 10 then [DigitChar(n)] else Decimal(n / 10) + [DigitChar(n % 10)]
  }

  lemma {:induction false} DecimalRoundTrip(n: nat)
    ensures Value(Decimal(n)) == n
    decreases n
  {
    if n >= 10 {
      var s := Decimal(n);
      assert s[..|s| - 1] == Decimal(n / 10);
      DecimalRoundTrip(n / 10);
    }
  }

  /** A decimal numeral with an optional leading minus sign. */
  predicate IsNumeral(s: string) {
    if |s| > 0 && s[0] == '-' then 1 < |s| && AllDigits(s[1..]) else 1 <= |s| && AllDigits(s)
  }

  function SignedValue(s: string): int
    requires IsNumeral(s)
  {
    var magnitude: int := if |s| > 0 && s[0] == '-' then Value(s[1..]) else Value(s);
    if |s| > 0 && s[0] == '-' then -magnitude else magnitude
  }

  /** What `Print::print(int)` writes: a minus sign for negative numbers, then the
      digits of the magnitude. */
  function IntString(n: int): (s: string)
    ensures 1 <= |s|
  {
    if n < 0 then "-" + Decimal(-n) else Decimal(n)
  }

  lemma IntStringRoundTrip(n: int)
    ensures IsNumeral(IntString(n)) && SignedValue(IntString(n)) == n
  {
    var s := IntString(n);
    if n < 0 {
      var d := Decimal(-n);
      assert s == "-" + d;
      assert s[0] == '-' && s[1..] == d && 1 < |s|;
      DecimalRoundTrip(-n);
    } else {
      assert s == Decimal(n);
      assert IsDigit(s[0]);
      DecimalRoundTrip(n);
    }
  }

  /** `sprintf("%02d", n)`: zero-padded to at least two characters; a negative
      number already fills the width with its sign. */
  function Pad2(n: int): (s: string)
    ensures |s| >= 2
    ensures 0 <= n < 100 ==> |s| == 2
  {
    if n < 0 then "-" + Decimal(-n)
    else if n < 10 then "0" + Decimal(n)
    else Decimal(n)
  }

  lemma Pad2RoundTrip(n: int)
    ensures 0 <= n ==> AllDigits(Pad2(n)) && Value(Pad2(n)) == n
    ensures n < 0 ==> Pad2(n)[0] == '-' && AllDigits(Pad2(n)[1..]) && Value(Pad2(n)[1..]) == -n
  {
    var s := Pad2(n);
    if n < 0 {
      assert s[1..] == Decimal(-n);
      DecimalRoundTrip(-n);
    } else if n < 10 {
      assert s == "0" + [DigitChar(n)];
      assert s[..|s| - 1] == "0";
      assert Value("0") == 0;
    } else {
      DecimalRoundTrip(n);
    }
  }
}
