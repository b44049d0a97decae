/** Decimal rendering of a Java `long`, as string concatenation (`"..." + id`) performs it. */
module Decimal {

  predicate IsDigit(c: char) { '0' <= c <= '9' }

  predicate AllDigits(s: string) { forall i :: 0 <= i < |s| ==> IsDigit(s[i]) }

  function DigitChar(d: nat): (c: char)
    requires d < 10
    ensures IsDigit(c)
  {
    ('0' as int + d) as char
  }

  function DigitValue(c: char): nat
    requires IsDigit(c)
  {
    c as int - '0' as int
  }

  /** The decimal digits of `n`, most significant first, without leading zeros. */
  function NatToString(n: nat): string
    decreases n
  {
    if n < 10 then [DigitChar(n)] else NatToString(n / 10) + [DigitChar(n % 10)]
  }

  /** `Long.toString(n)`: a minus sign for a negative number, then the digits of its magnitude. */
  function LongToString(n: int): string {
    if n < 0 then "-" + NatToString(-n) else NatToString(n)
  }

  /** The number a string of digits denotes (the reference reading of a decimal numeral). */
  function ParseNat(s: string): nat
    requires AllDigits(s)
    decreases |s|
  {
    if s == [] then 0 else 10 * ParseNat(s[..|s| - 1]) + DigitValue(s[|s| - 1])
  }

  /** A numeral with an optional leading minus sign. */
  predicate IsNumeral(s: string) {
    if |s| > 0 && s[0] == '-' then AllDigits(s[1..]) else AllDigits(s)
  }

  function ParseLong(s: string): int
    requires IsNumeral(s)
  {
    if |s| > 0 && s[0] == '-' then -(ParseNat(s[1..]) as int) else ParseNat(s)
  }

  /** Reading back the digits of `n` gives `n`; the digits are never empty. */
  lemma {:induction false} NatToStringRoundTrip(n: nat)
    ensures |NatToString(n)| > 0 && AllDigits(NatToString(n))
    ensures ParseNat(NatToString(n)) == n
  {
    if n >= 10 {
      NatToStringRoundTrip(n / 10);
      var s := NatToString(n / 10);
      var t := s + [DigitChar(n % 10)];
      assert t[..|t| - 1] == s;
    }
  }

  /** The digits never start with a redundant zero: only the number 0 is written "0". */
  lemma {:induction false} NatToStringNoLeadingZero(n: nat)
    ensures |NatToString(n)| > 1 ==> NatToString(n)[0] != '0'
    ensures n >= 10 ==> |NatToString(n)| > 1
    decreases n
  {
    if n >= 10 {
      var m := n / 10;
      NatToStringRoundTrip(m);
      NatToStringNoLeadingZero(m);
      assert NatToString(n)[0] == NatToString(m)[0];
      if m < 10 {
        assert NatToString(m) == [DigitChar(m)];
      }
    }
  }

  /** `LongToString` is undone by `ParseLong`, for negative numbers too. */
  lemma {:induction false} LongToStringRoundTrip(n: int)
    ensures IsNumeral(LongToString(n))
    ensures ParseLong(LongToString(n)) == n
  {
    if n < 0 {
      NatToStringRoundTrip(-n);
      var s := LongToString(n);
      assert s[1..] == NatToString(-n);
    } else {
      NatToStringRoundTrip(n);
      assert NatToString(n)[0] != '-';
    }
  }

  /** Different numbers are rendered differently. */
  lemma LongToStringInjective(a: int, b: int)
    ensures LongToString(a) == LongToString(b) <==> a == b
  {
    if LongToString(a) == LongToString(b) {
      LongToStringRoundTrip(a);
      LongToStringRoundTrip(b);
    }
  }
}
