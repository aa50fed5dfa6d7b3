/** Decimal numerals: printing, zero padding and reading back. */
module Digits {

  function Digit(d: nat): (c: char)
    requires d < 10
    ensures IsDigit(c) && DigitValue(c) == d
  {
    ('0' as int + d) as char
  }

  predicate IsDigit(c: char) {
    '0' <= c <= '9'
  }

  function DigitValue(c: char): nat
    requires IsDigit(c)
  {
    c as int - '0' as int
  }

  predicate AllDigits(s: string) {
    forall i :: 0 <= i < |s| ==> IsDigit(s[i])
  }

  function Decimal(n: nat): (s: string)
    ensures AllDigits(s) && |s| > 0
  {
    if n < 10 then [Digit(n)] else Decimal(n / 10) + [Digit(n % 10)]
  }

  function Value(s: string): nat
    requires AllDigits(s)
  {
    if |s| == 0 then 0 else 10 * Value(s[..|s| - 1]) + DigitValue(s[|s| - 1])
  }

  lemma {:induction false} ValueOfDecimal(n: nat)
    ensures Value(Decimal(n)) == n
  {
    if n >= 10 {
      ValueOfDecimal(n / 10);
    }
  }

  /** Digit by digit: the units last, and no zero in front. */
  lemma {:induction false} DecimalDigits(n: nat)
    ensures var s := Decimal(n);
            && s[|s| - 1] == "0123456789"[n % 10]
            && s[..|s| - 1] == (if n < 10 then "" else Decimal(n / 10))
            && (s[0] == '0' <==> n == 0)
  {
    if n >= 10 {
      DecimalDigits(n / 10);
      var s := Decimal(n);
      assert s[..|s| - 1][0] == s[0];
    }
  }

  lemma {:induction false} LeadingZero(s: string)
    requires AllDigits(s)
    ensures AllDigits("0" + s) && Value("0" + s) == Value(s)
  {
    if |s| == 0 {
      assert ("0" + s)[..0] == "";
    } else {
      LeadingZero(s[..|s| - 1]);
      assert ("0" + s)[..|s|] == "0" + s[..|s| - 1];
    }
  }

  /** Zero padding on the left, as a format width does it: long numerals stay as they are. */
  function Pad(s: string, width: nat): (p: string)
    requires AllDigits(s)
    ensures AllDigits(p) && Value(p) == Value(s)
    ensures |p| == if |s| >= width then |s| else width
    decreases width - |s|
  {
    if |s| >= width then s
    else
      LeadingZero(s);
      Pad("0" + s, width)
  }

  /** Padded numerals of different numbers differ, past the padding width too. */
  lemma PaddedInjective(i: nat, j: nat, width: nat)
    requires Pad(Decimal(i), width) == Pad(Decimal(j), width)
    ensures i == j
  {
    ValueOfDecimal(i);
    ValueOfDecimal(j);
  }
}
