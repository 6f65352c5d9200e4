/** Decimal numerals, as printed by the `%d` and `%03d` verbs of Go's fmt package. */
module Decimal {

  predicate IsDigit(c: char) {
    '0' <= c <= '9'
  }

  predicate AllDigits(s: string) {
    forall i :: 0 <= i < |s| ==> IsDigit(s[i])
  }

  function DigitChar(d: nat): char
    requires d < 10
  {
    '0' + d as char
  }

  function DigitValue(c: char): nat
    requires IsDigit(c)
  {
    (c - '0') as nat
  }

  function Digits(n: nat): string {
    if n < 10 then [DigitChar(n)] else Digits(n / 10) + [DigitChar(n % 10)]
  }

  function Value(s: string): nat
    requires AllDigits(s)
  {
    if s == "" then 0 else 10 * Value(s[..|s| - 1]) + DigitValue(s[|s| - 1])
  }

  /** `%03d`: at least three characters, padded with zeros on the left. */
  function Padded3(n: nat): string {
    if n < 10 then "00" + Digits(n) else if n < 100 then "0" + Digits(n) else Digits(n)
  }

  /** Printing then reading a number gives the number back, and no zero is printed in front. */
  lemma {:induction false} DigitsRoundTrip(n: nat)
    ensures |Digits(n)| > 0
    ensures AllDigits(Digits(n))
    ensures Value(Digits(n)) == n
    ensures |Digits(n)| > 1 ==> Digits(n)[0] != '0'
  {
    if n < 10 {
      assert Digits(n)[..0] == "";
    } else {
      DigitsRoundTrip(n / 10);
      var s := Digits(n);
      assert s[..|s| - 1] == Digits(n / 10);
      assert s[0] == Digits(n / 10)[0];
    }
  }

  lemma {:induction false} LeadingZero(s: string)
    requires AllDigits(s)
    ensures AllDigits("0" + s)
    ensures Value("0" + s) == Value(s)
  {
    var z := "0" + s;
    assert z[|z| - 1] == if s == "" then '0' else s[|s| - 1];
    if s == "" {
      assert z[..0] == "";
    } else {
      LeadingZero(s[..|s| - 1]);
      assert z[..|z| - 1] == "0" + s[..|s| - 1];
    }
  }

  lemma Padded3Value(n: nat)
    ensures AllDigits(Padded3(n)) && Value(Padded3(n)) == n
  {
    DigitsRoundTrip(n);
    LeadingZero(Digits(n));
    LeadingZero("0" + Digits(n));
    assert "0" + ("0" + Digits(n)) == "00" + Digits(n);
  }

  /** A padded number has at least three digits, and a zero in front only to reach three. */
  lemma Padded3Shape(n: nat)
    ensures |Padded3(n)| >= 3
    ensures |Padded3(n)| > 3 ==> Padded3(n)[0] != '0'
  {
    DigitsRoundTrip(n);
    if n >= 100 {
      DigitsRoundTrip(n / 10);
      DigitsRoundTrip(n / 100);
      assert Digits(n / 10) == Digits(n / 10 / 10) + [DigitChar(n / 10 % 10)];
    }
  }

  lemma Padded3Injective(m: nat, n: nat)
    requires Padded3(m) == Padded3(n)
    ensures m == n
  {
    Padded3Value(m);
    Padded3Value(n);
  }
}
