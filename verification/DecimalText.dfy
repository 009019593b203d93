/**
  Reading and writing decimals (decimal.ts, `from` and `toString`).
 */
module DecimalText {
  import opened Numerals
  import opened Decimals
  import opened DecimalLaws

  datatype Match = NoMatch | Match(negative: bool, integer: string, fraction: string)
  datatype Parsed = Parsed(value: Decimal) | InvalidDecimal

  function IndexOf(s: string, c: char): (i: nat)
    ensures i <= |s|
    ensures forall j :: 0 <= j < i ==> s[j] != c
    ensures i < |s| ==> s[i] == c
  {
    if |s| == 0 || s[0] == c then 0 else 1 + IndexOf(s[1..], c)
  }

  /** The alternatives 0 | [1-9]\d* of the pattern. */
  predicate IsInteger(s: string) {
    s == "0" || (|s| > 0 && AllDigits(s) && s[0] != '0')
  }

  /** The groups of ^(-?)(0|[1-9]\d*)(?:\.(\d+))?$ . */
  function MatchPattern(s: string): Match {
    if |s| > 0 && s[0] == '-' then MatchUnsigned(true, s[1..]) else MatchUnsigned(false, s)
  }

  function MatchUnsigned(negative: bool, body: string): Match {
    var dot := IndexOf(body, '.');
    var fraction := if dot < |body| then body[dot + 1..] else "";
    if IsInteger(body[..dot]) && AllDigits(fraction) && (dot < |body| ==> fraction != "") then
      Match(negative, body[..dot], fraction)
    else
      NoMatch
  }

  function WithSign(negative: bool, s: string): string {
    if negative then "-" + s else s
  }

  function Unsigned(integer: string, fraction: string): string {
    if fraction == "" then integer else integer + "." + fraction
  }

  function Write(negative: bool, integer: string, fraction: string): string {
    WithSign(negative, Unsigned(integer, fraction))
  }

  predicate Accepted(s: string) {
    MatchPattern(s).Match?
  }

  function Signed(negative: bool, n: nat): int {
    var magnitude: int := n;
    if negative then -magnitude else magnitude
  }

  /** The coefficient the digits of an accepted text spell, before normalisation. */
  function TextCoefficient(s: string): int
    requires Accepted(s)
  {
    var m := MatchPattern(s);
    DigitsTogether(m.integer, m.fraction);
    Signed(m.negative, ParseNat(m.integer + m.fraction))
  }

  function From(s: string): (r: Parsed)
    ensures r.Parsed? <==> Accepted(s)
    ensures r.Parsed? ==> Normal(r.value)
  {
    var m := MatchPattern(s);
    if m.NoMatch? then InvalidDecimal
    else Parsed(Normalize(Decimal(TextCoefficient(s), |m.fraction|)))
  }

  ghost function TextValue(s: string): real
    requires Accepted(s)
  {
    Ratio(TextCoefficient(s), |MatchPattern(s).fraction|)
  }

  /** The digits of n / 10^scale, with a point when there is a fraction. */
  function Fixed(n: nat, scale: nat): string {
    var digits := NatToString(n);
    if scale == 0 then digits
    else
      var padded := PadStart(digits, scale + 1);
      var splitAt := |padded| - scale;
      padded[..splitAt] + "." + padded[splitAt..]
  }

  function ToString(d: Decimal): string {
    if d.coefficient == 0 then "0"
    else if d.coefficient < 0 then WithSign(true, Fixed(-d.coefficient, d.scale))
    else WithSign(false, Fixed(d.coefficient, d.scale))
  }

  lemma DigitsTogether(integer: string, fraction: string)
    requires IsInteger(integer) && AllDigits(fraction)
    ensures AllDigits(integer) && AllDigits(integer + fraction)
    ensures ParseNat(integer + fraction) == ParseNat(integer) * Pow10(|fraction|) + ParseNat(fraction)
  {
    ParseConcat(integer, fraction);
  }

  /** Every accepted text is a sign, an integer part and a fraction, written together. */
  lemma PatternLanguage(s: string)
    requires Accepted(s)
    ensures var m := MatchPattern(s);
            IsInteger(m.integer) && AllDigits(m.fraction) && s == Write(m.negative, m.integer, m.fraction)
  {
    var negative := |s| > 0 && s[0] == '-';
    var body := if negative then s[1..] else s;
    assert s == WithSign(negative, body);
    UnsignedLanguage(negative, body);
  }

  lemma UnsignedLanguage(negative: bool, body: string)
    requires MatchUnsigned(negative, body).Match?
    ensures var m := MatchUnsigned(negative, body);
            m.negative == negative && IsInteger(m.integer) && AllDigits(m.fraction)
            && body == Unsigned(m.integer, m.fraction)
  {
    var dot := IndexOf(body, '.');
    if dot < |body| {
      assert body == body[..dot] + "." + body[dot + 1..];
    }
  }

  /** And every such writing is accepted, with those parts. */
  lemma WriteMatches(negative: bool, integer: string, fraction: string)
    requires IsInteger(integer) && AllDigits(fraction)
    ensures MatchPattern(Write(negative, integer, fraction)) == Match(negative, integer, fraction)
  {
    var body := Unsigned(integer, fraction);
    UnsignedMatches(negative, integer, fraction);
    assert body[0] == integer[0];
    if negative {
      assert ("-" + body)[1..] == body;
    }
  }

  lemma UnsignedMatches(negative: bool, integer: string, fraction: string)
    requires IsInteger(integer) && AllDigits(fraction)
    ensures MatchUnsigned(negative, Unsigned(integer, fraction)) == Match(negative, integer, fraction)
  {
    var body := Unsigned(integer, fraction);
    var dot := IndexOf(body, '.');
    assert forall j :: 0 <= j < |integer| ==> body[j] == integer[j] && IsDigit(integer[j]);
    assert dot >= |integer|;
    if fraction != "" {
      assert body[|integer|] == '.';
      assert dot == |integer|;
      assert body[dot + 1..] == fraction;
    }
    assert body[..dot] == integer;
  }

  function IntegerPart(n: nat, scale: nat): string {
    var p := PadStart(NatToString(n), scale + 1);
    p[..|p| - scale]
  }

  function FractionPart(n: nat, scale: nat): string {
    var p := PadStart(NatToString(n), scale + 1);
    p[|p| - scale..]
  }

  /** A numeral padded to one digit more than the scale splits into integer part and fraction. */
  lemma SplitNumeral(n: nat, scale: nat)
    ensures IsInteger(IntegerPart(n, scale))
    ensures AllDigits(FractionPart(n, scale)) && |FractionPart(n, scale)| == scale
  {
    var digits := NatToString(n);
    NoLeadingZero(n);
    PaddedPrefix(digits, scale);
    assert n == 0 ==> digits == "0";
  }

  lemma PaddedPrefix(digits: string, scale: nat)
    requires AllDigits(digits) && |digits| >= 1 && (digits == "0" || digits[0] != '0')
    ensures var p := PadStart(digits, scale + 1);
            IsInteger(p[..|p| - scale]) && AllDigits(p[|p| - scale..])
  {
    var p := PadStart(digits, scale + 1);
    assert AllDigits(p);
    if |digits| <= scale {
      assert p[..|p| - scale] == "0";
    } else if digits == "0" {
      assert p[..|p| - scale] == "0";
    }
  }

  lemma SplitNumeralParses(n: nat, scale: nat)
    ensures var s := IntegerPart(n, scale) + FractionPart(n, scale);
            AllDigits(s) && ParseNat(s) == n
  {
    var p := PadStart(NatToString(n), scale + 1);
    ParsePadStart(NatToString(n), scale + 1);
    ParseOfToString(n);
    assert IntegerPart(n, scale) + FractionPart(n, scale) == p;
  }

  lemma FixedIsUnsigned(n: nat, scale: nat)
    ensures Fixed(n, scale) == Unsigned(IntegerPart(n, scale), FractionPart(n, scale))
  {
    var p := PadStart(NatToString(n), scale + 1);
    if scale == 0 {
      assert p == NatToString(n) && p[..|p|] == p;
    }
  }

  /** Reading back what `Fixed` wrote. */
  lemma FromOfFixed(negative: bool, n: nat, scale: nat)
    ensures var s := WithSign(negative, Fixed(n, scale));
            MatchPattern(s) == Match(negative, IntegerPart(n, scale), FractionPart(n, scale))
            && TextCoefficient(s) == Signed(negative, n)
            && From(s) == Parsed(Normalize(Decimal(Signed(negative, n), scale)))
  {
    SplitNumeral(n, scale);
    SplitNumeralParses(n, scale);
    FixedIsUnsigned(n, scale);
    WriteMatches(negative, IntegerPart(n, scale), FractionPart(n, scale));
  }

  /** `toString` of a stored decimal is always accepted by `from`, which gives the same fields back. */
  lemma FromOfToString(d: Decimal)
    requires Normal(d)
    ensures Accepted(ToString(d)) && From(ToString(d)) == Parsed(d)
  {
    hide From, MatchPattern, Accepted, TextCoefficient, Normalize, IntegerPart, FractionPart;
    if d.coefficient < 0 {
      FromOfFixed(true, -d.coefficient, d.scale);
    } else {
      FromOfFixed(false, d.coefficient, d.scale);
      assert Fixed(0, 0) == "0";
    }
  }

  /** `from` reads the number its text denotes. */
  lemma FromReadsValue(s: string)
    requires Accepted(s)
    ensures Value(From(s).value) == TextValue(s)
  {
  }

  /** Writing is injective on stored decimals: equal texts mean equal fields. */
  lemma ToStringInjective(a: Decimal, b: Decimal)
    requires Normal(a) && Normal(b)
    ensures ToString(a) == ToString(b) <==> Value(a) == Value(b)
  {
    FromOfToString(a);
    FromOfToString(b);
    NormalFormIsUnique(a, b);
  }
}
