/**
  `addDecimal`, the second and independent decimal addition of the projection
  (apps/backend/src/modules/projections/application/projection.store.ts:304-313), which works on text.
  It is compared with `Decimal.add`.
 */
module StringAdder {
  import opened Numerals
  import opened Decimals
  import opened DecimalLaws
  import opened DecimalText

  datatype Integer = Integer(value: int) | NotAnInteger

  /** A text, or the SyntaxError that BigInt throws. */
  datatype Sum = Sum(text: string) | SyntaxError

  /** BigInt(s) on digits with an optional sign. */
  function BigIntOf(s: string): Integer {
    if |s| > 0 && (s[0] == '-' || s[0] == '+') then
      if |s| > 1 && AllDigits(s[1..]) then Integer(Signed(s[0] == '-', ParseNat(s[1..]))) else NotAnInteger
    else if AllDigits(s) then Integer(ParseNat(s))
    else NotAnInteger
  }

  function IntToString(n: int): string {
    if n < 0 then "-" + NatToString(-n) else NatToString(n)
  }

  /** The first two pieces of s.split('.'), the second defaulting to the empty string. */
  function SplitAtDot(s: string): (string, string) {
    var dot := IndexOf(s, '.');
    if dot == |s| then (s, "")
    else
      var rest := s[dot + 1..];
      (s[..dot], rest[..IndexOf(rest, '.')])
  }

  predicate AllZeros(s: string) {
    forall i :: 0 <= i < |s| ==> s[i] == '0'
  }

  /** `${whole}.${fraction}` with a fraction of zeros, and its point, removed. */
  function JoinFraction(whole: string, fraction: string): string {
    if AllZeros(fraction) then whole else whole + "." + fraction
  }

  /** The operand as an integer count of 10^-scale. */
  function OperandAt(s: string, scale: nat): Integer {
    var (whole, fraction) := SplitAtDot(s);
    BigIntOf(whole + PadEnd(fraction, scale))
  }

  function AddDecimal(left: string, right: string): Sum {
    var lf, rf := |SplitAtDot(left).1|, |SplitAtDot(right).1|;
    var scale := if lf < rf then rf else lf;
    var l, r := OperandAt(left, scale), OperandAt(right, scale);
    if l.NotAnInteger? || r.NotAnInteger? then SyntaxError
    else Sum(ShowSum(l.value + r.value, scale))
  }

  function ShowSum(n: int, scale: nat): string {
    CutAt(PadStart(IntToString(n), scale + 1), scale)
  }

  /** The point goes before the last `scale` characters. */
  function CutAt(sum: string, scale: nat): string
    requires |sum| > scale
  {
    if scale == 0 then sum else JoinFraction(sum[..|sum| - scale], sum[|sum| - scale..])
  }

  // ---- Reading the operands ----

  lemma SplitWithPoint(whole: string, fraction: string)
    requires '.' !in whole && '.' !in fraction
    ensures SplitAtDot(whole + "." + fraction) == (whole, fraction)
  {
    var s := whole + "." + fraction;
    assert s[|whole|] == '.';
    assert forall j :: 0 <= j < |whole| ==> s[j] == whole[j];
    assert IndexOf(s, '.') == |whole|;
    assert s[..|whole|] == whole && s[|whole| + 1..] == fraction;
    assert IndexOf(fraction, '.') == |fraction|;
    assert fraction[..|fraction|] == fraction;
  }

  lemma SplitWithoutPoint(whole: string)
    requires '.' !in whole
    ensures SplitAtDot(whole) == (whole, "")
  {
    assert IndexOf(whole, '.') == |whole|;
  }

  lemma SplitAccepted(s: string)
    requires Accepted(s)
    ensures var m := MatchPattern(s);
            SplitAtDot(s) == (WithSign(m.negative, m.integer), m.fraction)
  {
    PatternLanguage(s);
    var m := MatchPattern(s);
    SplitWritten(m.negative, m.integer, m.fraction);
  }

  lemma SplitWritten(negative: bool, integer: string, fraction: string)
    requires AllDigits(integer) && AllDigits(fraction)
    ensures SplitAtDot(Write(negative, integer, fraction)) == (WithSign(negative, integer), fraction)
  {
    SignedHasNoPoint(negative, integer);
    if fraction == "" {
      SplitWithoutPoint(WithSign(negative, integer));
    } else {
      SplitWithPoint(WithSign(negative, integer), fraction);
      SignOutside(negative, integer, ".");
      SignOutside(negative, integer + ".", fraction);
    }
  }

  lemma SignedHasNoPoint(negative: bool, digits: string)
    requires AllDigits(digits)
    ensures '.' !in WithSign(negative, digits)
  {
  }

  lemma ReadSigned(negative: bool, digits: string)
    requires AllDigits(digits) && |digits| >= 1
    ensures BigIntOf(WithSign(negative, digits)) == Integer(Signed(negative, ParseNat(digits)))
  {
    if negative {
      assert ("-" + digits)[1..] == digits;
    }
  }

  lemma SignedTimes(negative: bool, a: nat, b: nat)
    ensures a * b >= 0 && Signed(negative, a * b) == Signed(negative, a) * b
  {
  }

  lemma SignOutside(negative: bool, a: string, b: string)
    ensures WithSign(negative, a) + b == WithSign(negative, a + b)
  {
    assert "-" + a + b == "-" + (a + b);
  }

  /** An operand padded to a common scale is read as its value at that scale. */
  lemma OperandAtScale(s: string, scale: nat)
    requires Accepted(s) && |MatchPattern(s).fraction| <= scale
    ensures OperandAt(s, scale).Integer? && Ratio(OperandAt(s, scale).value, scale) == TextValue(s)
  {
    hide Ratio, PadEnd, BigIntOf;
    var m := MatchPattern(s);
    SplitAccepted(s);
    PaddedValue(m.negative, m.integer, m.fraction, scale);
  }

  lemma OperandAtCommonScale(s: string, scale: nat) returns (n: int)
    requires Accepted(s) && |SplitAtDot(s).1| <= scale
    ensures OperandAt(s, scale) == Integer(n) && Ratio(n, scale) == TextValue(s)
  {
    SplitAccepted(s);
    OperandAtScale(s, scale);
    n := OperandAt(s, scale).value;
  }

  lemma PaddedValue(negative: bool, integer: string, fraction: string, scale: nat)
    requires AllDigits(integer) && AllDigits(fraction) && |fraction| <= scale && integer + fraction != ""
    ensures AllDigits(integer + fraction)
    ensures var r := BigIntOf(WithSign(negative, integer) + PadEnd(fraction, scale));
            r.Integer? && Ratio(r.value, scale) == Ratio(Signed(negative, ParseNat(integer + fraction)), |fraction|)
  {
    hide Ratio, PadEnd, BigIntOf, ParseNat, WithSign;
    PaddedOperand(negative, integer, fraction, scale);
    RatioShift(Signed(negative, ParseNat(integer + fraction)), |fraction|, scale - |fraction|);
  }

  lemma PaddedOperand(negative: bool, integer: string, fraction: string, scale: nat)
    requires AllDigits(integer) && AllDigits(fraction) && |fraction| <= scale && integer + fraction != ""
    ensures AllDigits(integer + fraction)
    ensures BigIntOf(WithSign(negative, integer) + PadEnd(fraction, scale))
            == Integer(Signed(negative, ParseNat(integer + fraction)) * Pow10(scale - |fraction|))
  {
    var pad := PadEnd(fraction, scale);
    PaddedCoefficient(integer, fraction, scale);
    SignOutside(negative, integer, pad);
    ReadSigned(negative, integer + pad);
    SignedTimes(negative, ParseNat(integer + fraction), Pow10(scale - |fraction|));
  }

  lemma PaddedCoefficient(integer: string, fraction: string, scale: nat)
    requires AllDigits(integer) && AllDigits(fraction) && |fraction| <= scale
    ensures AllDigits(integer + fraction) && AllDigits(integer + PadEnd(fraction, scale))
    ensures ParseNat(integer + PadEnd(fraction, scale)) == ParseNat(integer + fraction) * Pow10(scale - |fraction|)
  {
    var padding := Zeros(scale - |fraction|);
    ParseConcat(integer, fraction);
    ParseConcat(integer + fraction, padding);
    ParseZeros(scale - |fraction|);
    assert integer + PadEnd(fraction, scale) == integer + fraction + padding;
  }

  // ---- Writing the sum ----

  lemma ShowMagnitude(negative: bool, n: nat, scale: nat)
    ensures var s := WithSign(negative, JoinFraction(IntegerPart(n, scale), FractionPart(n, scale)));
            Accepted(s) && TextValue(s) == Ratio(Signed(negative, n), scale)
  {
    SplitNumeral(n, scale);
    SplitNumeralParses(n, scale);
    ShowParts(negative, IntegerPart(n, scale), FractionPart(n, scale));
  }

  lemma ShowParts(negative: bool, i: string, f: string)
    requires IsInteger(i) && AllDigits(f)
    ensures AllDigits(i + f)
    ensures var s := WithSign(negative, JoinFraction(i, f));
            Accepted(s) && TextValue(s) == Ratio(Signed(negative, ParseNat(i + f)), |f|)
  {
    if AllZeros(f) {
      WriteMatches(negative, i, "");
      assert i + "" == i;
      ZeroFraction(negative, i, f);
    } else {
      WriteMatches(negative, i, f);
    }
  }

  lemma ZeroFraction(negative: bool, i: string, f: string)
    requires AllDigits(i) && AllZeros(f)
    ensures AllDigits(i + f) && Ratio(Signed(negative, ParseNat(i + f)), |f|) == Ratio(Signed(negative, ParseNat(i)), 0)
  {
    assert f == Zeros(|f|);
    ParseConcat(i, f);
    ParseZeros(|f|);
    SignedTimes(negative, ParseNat(i), Pow10(|f|));
    RatioShift(Signed(negative, ParseNat(i)), 0, |f|);
  }

  /** Non-negative sums, and sums of magnitude one or more, are written in the grammar. */
  lemma ShowSumRegular(n: int, scale: nat)
    requires n >= 0 || -n >= Pow10(scale)
    ensures Accepted(ShowSum(n, scale)) && TextValue(ShowSum(n, scale)) == Ratio(n, scale)
  {
    var magnitude := if n < 0 then -n else n;
    ShowMagnitude(n < 0, magnitude, scale);
    if n < 0 {
      ShowNegative(n, scale);
    } else {
      ShowNonNegative(magnitude, scale);
    }
  }

  lemma ShowNonNegative(m: nat, scale: nat)
    ensures ShowSum(m, scale) == WithSign(false, JoinFraction(IntegerPart(m, scale), FractionPart(m, scale)))
  {
    hide NatToString, JoinFraction, CutAt, PadStart;
    PaddedLength(NatToString(m), scale + 1);
    CutNumeral(PadStart(NatToString(m), scale + 1), scale);
  }

  lemma PaddedLength(s: string, width: nat)
    ensures |PadStart(s, width)| >= width
  {
  }

  lemma ShowNegative(n: int, scale: nat)
    requires n < 0 && -n >= Pow10(scale)
    ensures ShowSum(n, scale) == WithSign(true, JoinFraction(IntegerPart(-n, scale), FractionPart(-n, scale)))
  {
    hide NatToString, ShowSum, JoinFraction, Pow10;
    LongNumeral(-n, scale);
    PartsOfLongNumeral(-n, scale);
    ShowSignedDigits(n, NatToString(-n), scale);
  }

  lemma ShowSignedDigits(n: int, digits: string, scale: nat)
    requires IntToString(n) == "-" + digits && |digits| > scale
    ensures ShowSum(n, scale) == WithSign(true, JoinFraction(digits[..|digits| - scale], digits[|digits| - scale..]))
  {
    CutSignedDigits(digits, scale);
  }

  lemma PartsOfLongNumeral(m: nat, scale: nat)
    requires |NatToString(m)| > scale
    ensures var digits := NatToString(m);
            IntegerPart(m, scale) == digits[..|digits| - scale] && FractionPart(m, scale) == digits[|digits| - scale..]
  {
    hide NatToString;
  }

  lemma CutSignedDigits(digits: string, scale: nat)
    requires |digits| > scale
    ensures CutAt(PadStart("-" + digits, scale + 1), scale)
            == WithSign(true, JoinFraction(digits[..|digits| - scale], digits[|digits| - scale..]))
  {
    CutNegative(digits, scale);
    CutNumeral(digits, scale);
  }

  lemma LongNumeral(m: nat, scale: nat)
    requires m >= Pow10(scale)
    ensures |NatToString(m)| > scale
  {
    NumeralLength(m);
    Pow10Order(|NatToString(m)|, scale);
  }

  lemma CutNumeral(p: string, scale: nat)
    requires |p| > scale
    ensures CutAt(p, scale) == JoinFraction(p[..|p| - scale], p[|p| - scale..])
  {
    if scale == 0 {
      assert p[..|p|] == p;
    }
  }

  lemma JoinNegative(whole: string, fraction: string)
    ensures JoinFraction("-" + whole, fraction) == WithSign(true, JoinFraction(whole, fraction))
  {
    hide AllZeros;
    SignOutside(true, whole, ".");
    SignOutside(true, whole + ".", fraction);
  }

  lemma CutNegative(p: string, scale: nat)
    requires |p| > scale
    ensures CutAt("-" + p, scale) == WithSign(true, CutAt(p, scale))
  {
    hide JoinFraction;
    var sum := "-" + p;
    var whole, fraction := p[..|p| - scale], p[|p| - scale..];
    assert sum[..|sum| - scale] == "-" + whole && sum[|sum| - scale..] == fraction;
    JoinNegative(whole, fraction);
  }

  /** A sum strictly between -1 and 0 leaves the grammar: its minus sign lands at or behind the point. */
  lemma ShowSumSmallNegative(n: int, scale: nat)
    requires n < 0 && -n < Pow10(scale)
    ensures !Accepted(ShowSum(n, scale))
  {
    ShortNumeral(-n, scale);
    MisplacedSign(NatToString(-n), scale);
  }

  lemma ShortNumeral(m: nat, scale: nat)
    requires 0 < m < Pow10(scale)
    ensures |NatToString(m)| <= scale && NatToString(m)[0] != '0'
  {
    NumeralLength(m);
    NoLeadingZero(m);
    Pow10Order(scale, |NatToString(m)| - 1);
  }

  lemma MisplacedSign(digits: string, scale: nat)
    requires 1 <= |digits| <= scale && digits[0] != '0'
    ensures !Accepted(CutAt(PadStart("-" + digits, scale + 1), scale))
  {
    var sum := PadStart("-" + digits, scale + 1);
    var whole, fraction := sum[..1], sum[1..];
    var minus := scale - |digits|;
    assert |sum| == scale + 1 && sum[minus] == '-' && sum[minus + 1] == digits[0];
    assert fraction[minus] == digits[0];
    var shown := whole + "." + fraction;
    assert JoinFraction(whole, fraction) == shown;
    if minus == 0 {
      assert shown[0] == '-' && shown[1..] == "." + fraction;
      assert IndexOf(shown[1..], '.') == 0;
    } else {
      assert whole == "0" && fraction[minus - 1] == '-';
      assert shown[0] == '0' && shown[1] == '.' && IndexOf(shown, '.') == 1;
      assert shown[2..] == fraction;
      assert !AllDigits(fraction);
    }
  }

  // ---- The result ----

  /**
    On two texts of the decimal grammar `addDecimal` never throws. Its result is again
    in the grammar exactly when the sum is not strictly between -1 and 0, and then it
    is the exact sum: reading it gives the very fields that `Decimal.add` gives.
   */
  lemma AddDecimalIsExact(left: string, right: string)
    requires Accepted(left) && Accepted(right)
    ensures AddDecimal(left, right).Sum?
    ensures var v := TextValue(left) + TextValue(right);
            var text := AddDecimal(left, right).text;
            (Accepted(text) <==> !(-1.0 < v < 0.0))
            && (Accepted(text) ==>
                  TextValue(text) == v && From(text).value == Add(From(left).value, From(right).value))
  {
    var scale := CommonScale(left, right);
    CommonScaleCovers(left, right);
    var l := OperandAtCommonScale(left, scale);
    var r := OperandAtCommonScale(right, scale);
    AddOperands(left, right, scale, l, r);
    SumIsExact(left, right, scale, l, r);
  }

  lemma SumIsExact(left: string, right: string, scale: nat, l: int, r: int)
    requires Accepted(left) && Accepted(right)
    requires Ratio(l, scale) == TextValue(left) && Ratio(r, scale) == TextValue(right)
    ensures var v := TextValue(left) + TextValue(right);
            var text := ShowSum(l + r, scale);
            (Accepted(text) <==> !(-1.0 < v < 0.0))
            && (Accepted(text) ==>
                  TextValue(text) == v && From(text).value == Add(From(left).value, From(right).value))
  {
    var n := l + r;
    RatioAdd(l, r, scale);
    UnitInterval(n, scale);
    if n < 0 && -n < Pow10(scale) {
      ShowSumSmallNegative(n, scale);
    } else {
      ShowSumRegular(n, scale);
      var text := ShowSum(n, scale);
      FromReadsValue(text);
      NormalFormIsUnique(From(text).value, Add(From(left).value, From(right).value));
    }
  }

  ghost function CommonScale(left: string, right: string): nat {
    var lf, rf := |SplitAtDot(left).1|, |SplitAtDot(right).1|;
    if lf < rf then rf else lf
  }

  lemma CommonScaleCovers(left: string, right: string)
    ensures |SplitAtDot(left).1| <= CommonScale(left, right) && |SplitAtDot(right).1| <= CommonScale(left, right)
  {
  }

  lemma AddOperands(left: string, right: string, scale: nat, l: int, r: int)
    requires scale == CommonScale(left, right)
    requires OperandAt(left, scale) == Integer(l) && OperandAt(right, scale) == Integer(r)
    ensures AddDecimal(left, right) == Sum(ShowSum(l + r, scale))
  {
  }

  lemma UnitInterval(n: int, scale: nat)
    ensures n < 0 && -n < Pow10(scale) <==> -1.0 < Ratio(n, scale) < 0.0
  {
    RatioOrder(n, 0, scale);
    RatioOrder(-1 * Pow10(scale), n, scale);
    RatioShift(-1, 0, scale);
    RatioZero(scale);
    assert Ratio(-1, 0) == -1.0;
  }

  // ---- On whole numbers, and on anything else ----

  lemma NumeralSplits(m: nat)
    ensures SplitAtDot(NatToString(m)) == (NatToString(m), "")
  {
    assert forall i :: 0 <= i < |NatToString(m)| ==> IsDigit(NatToString(m)[i]);
    SplitWithoutPoint(NatToString(m));
  }

  /** Two plain numerals add up to the numeral of their sum. */
  lemma WholeNumbersAdd(m: nat, n: nat)
    ensures AddDecimal(NatToString(m), NatToString(n)) == Sum(NatToString(m + n))
  {
    NumeralSplits(m);
    NumeralSplits(n);
    ParseOfToString(m);
    ParseOfToString(n);
    assert NatToString(m) + "" == NatToString(m) && NatToString(n) + "" == NatToString(n);
    ReadSigned(false, NatToString(m));
    ReadSigned(false, NatToString(n));
  }

  /** A delta that is no number at all makes the adder throw. */
  lemma LetterThrows(left: string)
    ensures AddDecimal(left, "x") == SyntaxError
  {
    SplitWithoutPoint("x");
    var scale := |SplitAtDot(left).1|;
    assert ("x" + PadEnd("", scale))[0] == 'x';
  }
}
