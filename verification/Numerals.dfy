/**
  Decimal numerals as text: what JavaScript's BigInt constructor and
  BigInt.prototype.toString do on plain decimal digits, and String.padStart.
 */
module Numerals {

  predicate IsDigit(c: char) {
    '0' <= c <= '9'
  }

  predicate AllDigits(s: string) {
    forall i :: 0 <= i < |s| ==> IsDigit(s[i])
  }

  function DigitValue(c: char): (d: nat)
    requires IsDigit(c)
    ensures d < 10
  {
    c as int - '0' as int
  }

  function DigitChar(d: nat): (c: char)
    requires d < 10
    ensures IsDigit(c) && DigitValue(c) == d
  {
    ('0' as int + d) as char
  }

  function Pow10(n: nat): (p: nat)
    ensures p >= 1
  {
    if n == 0 then 1 else 10 * Pow10(n - 1)
  }

  /** The number a digit string denotes; the empty string denotes 0, as BigInt('') does. */
  function ParseNat(s: string): nat
    requires AllDigits(s)
  {
    if |s| == 0 then 0 else 10 * ParseNat(s[..|s| - 1]) + DigitValue(s[|s| - 1])
  }

  /** Digits of n without leading zeros. */
  function NatToString(n: nat): (s: string)
    ensures |s| >= 1 && AllDigits(s)
  {
    if n < 10 then [DigitChar(n)] else NatToString(n / 10) + [DigitChar(n % 10)]
  }

  function Zeros(n: nat): (s: string)
    ensures |s| == n && AllDigits(s)
    ensures forall i :: 0 <= i < n ==> s[i] == '0'
  {
    seq(n, i => '0')
  }

  function PadStart(s: string, width: nat): string {
    if |s| >= width then s else Zeros(width - |s|) + s
  }

  function PadEnd(s: string, width: nat): string {
    if |s| >= width then s else s + Zeros(width - |s|)
  }

  lemma {:induction false} Pow10Order(m: nat, n: nat)
    ensures m <= n <==> Pow10(m) <= Pow10(n)
  {
    if m > 0 && n > 0 {
      Pow10Order(m - 1, n - 1);
    }
  }

  /** A positive factor keeps order. */
  lemma FactorOrder(a: int, b: int, f: int)
    requires f > 0
    ensures a * f < b * f <==> a < b
  {
    assert b * f - a * f == (b - a) * f;
    assert (b - a) * f > 0 <==> b - a > 0;
  }

  lemma {:induction false} Pow10Add(m: nat, n: nat)
    ensures Pow10(m + n) == Pow10(m) * Pow10(n)
  {
    if m == 0 {
    } else {
      Pow10Add(m - 1, n);
      assert Pow10(m + n) == 10 * (Pow10(m - 1) * Pow10(n));
    }
  }

  lemma ShiftOneDigit(a: int, p: int, b: int, d: int)
    ensures 10 * (a * p + b) + d == a * (10 * p) + (10 * b + d)
  {
  }

  lemma {:induction false} ParseConcat(s: string, t: string)
    requires AllDigits(s) && AllDigits(t)
    ensures AllDigits(s + t) && ParseNat(s + t) == ParseNat(s) * Pow10(|t|) + ParseNat(t)
  {
    if |t| == 0 {
      assert s + t == s;
    } else {
      var t' := t[..|t| - 1];
      ParseConcat(s, t');
      var u := s + t;
      assert u[..|u| - 1] == s + t' && u[|u| - 1] == t[|t| - 1];
      ShiftOneDigit(ParseNat(s), Pow10(|t'|), ParseNat(t'), DigitValue(t[|t| - 1]));
      assert Pow10(|t|) == 10 * Pow10(|t'|);
    }
  }

  lemma {:induction false} ParseZeros(n: nat)
    ensures ParseNat(Zeros(n)) == 0
  {
    if n > 0 {
      assert Zeros(n)[..n - 1] == Zeros(n - 1);
      ParseZeros(n - 1);
    }
  }

  /** BigInt(n.toString()) is n. */
  lemma {:induction false} ParseOfToString(n: nat)
    ensures ParseNat(NatToString(n)) == n
  {
    if n >= 10 {
      ParseOfToString(n / 10);
      var s := NatToString(n);
      assert s[..|s| - 1] == NatToString(n / 10);
    } else {
      assert NatToString(n)[..0] == "";
    }
  }

  /** Only zero is written with a leading zero. */
  lemma {:induction false} NoLeadingZero(n: nat)
    ensures n > 0 ==> NatToString(n)[0] != '0'
  {
    if n >= 10 {
      NoLeadingZero(n / 10);
    }
  }

  /** The numeral of n has exactly the digits n needs. */
  lemma {:induction false} NumeralLength(n: nat)
    requires n > 0
    ensures Pow10(|NatToString(n)| - 1) <= n < Pow10(|NatToString(n)|)
  {
    if n >= 10 {
      NumeralLength(n / 10);
    }
  }

  lemma ParsePadStart(s: string, width: nat)
    requires AllDigits(s)
    ensures AllDigits(PadStart(s, width)) && ParseNat(PadStart(s, width)) == ParseNat(s)
  {
    if |s| < width {
      ParseConcat(Zeros(width - |s|), s);
      ParseZeros(width - |s|);
    }
  }
}
