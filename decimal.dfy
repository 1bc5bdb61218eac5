/**
 * Decimal digit strings: the `f"{i:03d}"` formatting of an output ordinal and
 * Python's `int(...)` applied to a string of ASCII digits.
 */
module Decimal {

  predicate IsDigit(c: char) {
    '0' <= c <= '9'
  }

  predicate AllDigits(s: string) {
    forall i :: 0 <= i < |s| ==> IsDigit(s[i])
  }

  function DigitChar(d: nat): (c: char)
    requires d < 10
    ensures IsDigit(c)
  {
    (48 + d) as char
  }

  function DigitValue(c: char): (d: nat)
    requires IsDigit(c)
    ensures d < 10 && DigitChar(d) == c
  {
    c as int - 48
  }

  /** `str(n)` for a natural number: its shortest decimal spelling. */
  function DecimalString(n: nat): (s: string)
    ensures |s| >= 1 && AllDigits(s)
    ensures |s| > 1 ==> s[0] != '0'
  {
    if n < 10 then [DigitChar(n)] else DecimalString(n / 10) + [DigitChar(n % 10)]
  }

  /** `int(s)` for a string of ASCII digits, with `int('') == 0` standing for the `or '0'` default. */
  function ParseDecimal(s: string): nat
    requires AllDigits(s)
  {
    if s == [] then 0 else ParseDecimal(s[..|s| - 1]) * 10 + DigitValue(s[|s| - 1])
  }

  function Zeros(k: nat): (s: string)
    ensures |s| == k && AllDigits(s)
    ensures forall i :: 0 <= i < k ==> s[i] == '0'
  {
    seq(k, _ => '0')
  }

  /** `f"{n:03d}"`: the decimal spelling of `n`, left-filled with zeros to width three. */
  function ZeroPad3(n: nat): (s: string)
    ensures AllDigits(s)
  {
    var d := DecimalString(n);
    if |d| < 3 then Zeros(3 - |d|) + d else d
  }

  /** Parsing undoes printing. */
  lemma {:induction false} ParseDecimalOfDecimal(n: nat)
    ensures ParseDecimal(DecimalString(n)) == n
  {
    if n >= 10 {
      var s := DecimalString(n);
      assert s[..|s| - 1] == DecimalString(n / 10);
      ParseDecimalOfDecimal(n / 10);
    }
  }

  /** Leading zeros do not change the value `int()` reads. */
  lemma {:induction false} ParseIgnoresLeadingZeros(k: nat, s: string)
    requires AllDigits(s)
    ensures ParseDecimal(Zeros(k) + s) == ParseDecimal(s)
    decreases |s|
  {
    var z := Zeros(k);
    if s == [] {
      assert z + s == z;
      ParseZeros(k);
    } else {
      var t := s[..|s| - 1];
      assert (z + s)[..|z + s| - 1] == z + t;
      ParseIgnoresLeadingZeros(k, t);
    }
  }

  lemma {:induction false} ParseZeros(k: nat)
    ensures ParseDecimal(Zeros(k)) == 0
  {
    if k > 0 {
      assert Zeros(k)[..k - 1] == Zeros(k - 1);
      ParseZeros(k - 1);
    }
  }

  /**
   * The padded ordinal is at least three characters long, exactly three
   * below 1000, and reads back as the ordinal.
   */
  lemma ZeroPad3RoundTrip(n: nat)
    ensures |ZeroPad3(n)| >= 3
    ensures n < 1000 ==> |ZeroPad3(n)| == 3
    ensures ParseDecimal(ZeroPad3(n)) == n
  {
    var d := DecimalString(n);
    ParseDecimalOfDecimal(n);
    if |d| < 3 {
      ParseIgnoresLeadingZeros(3 - |d|, d);
    }
    if n < 1000 {
      DecimalLength(n);
    }
  }

  lemma {:induction false} DecimalLength(n: nat)
    ensures n < 10 ==> |DecimalString(n)| == 1
    ensures n < 100 ==> |DecimalString(n)| <= 2
    ensures n < 1000 ==> |DecimalString(n)| <= 3
  {
    if n >= 10 {
      DecimalLength(n / 10);
    }
  }
}
