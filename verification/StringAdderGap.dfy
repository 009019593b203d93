/**
  What `addDecimal` writes for a sum strictly between -1 and 0, and what the next
  addition makes of it
  (apps/backend/src/modules/projections/application/projection.store.ts:304-313).
 */
module StringAdderGap {
  import opened Numerals
  import opened Decimals
  import opened DecimalText
  import opened StringAdder

  /** A point behind a bare sign, as in "-.25": not a decimal text, but read back as meant. */
  predicate BareNegative(s: string) {
    |s| > 2 && s[0] == '-' && s[1] == '.' && AllDigits(s[2..])
  }

  /** The texts the adder reads as a number. */
  predicate Readable(s: string) {
    Accepted(s) || BareNegative(s)
  }

  ghost function ReadValue(s: string): real
    requires Readable(s)
  {
    if Accepted(s) then TextValue(s) else Ratio(Signed(true, ParseNat(s[2..])), |s| - 2)
  }

  lemma BareIsNotAccepted(s: string)
    requires BareNegative(s)
    ensures !Accepted(s)
  {
    assert IndexOf(s[1..], '.') == 0;
  }

  // ---- Reading ----

  lemma BareSplits(s: string)
    requires BareNegative(s)
    ensures SplitAtDot(s) == ("-", s[2..])
  {
    assert s == "-" + "." + s[2..];
    SplitWithPoint("-", s[2..]);
  }

  lemma BareValue(s: string)
    requires BareNegative(s)
    ensures ReadValue(s) == Ratio(Signed(true, ParseNat(s[2..])), |s| - 2)
  {
    hide Ratio, ParseNat;
    BareIsNotAccepted(s);
  }

  lemma BareDigits(fraction: string, scale: nat)
    requires AllDigits(fraction) && 0 < |fraction| <= scale
    ensures BigIntOf("-" + PadEnd(fraction, scale))
            == Integer(Signed(true, ParseNat(fraction)) * Pow10(scale - |fraction|))
  {
    hide BigIntOf, PadEnd, ParseNat;
    PaddedOperand(true, "", fraction, scale);
    assert "" + fraction == fraction;
    assert WithSign(true, "") == "-";
  }

  lemma BareOperand(s: string, scale: nat)
    requires BareNegative(s) && |s| - 2 <= scale
    ensures OperandAt(s, scale).Integer? && Ratio(OperandAt(s, scale).value, scale) == ReadValue(s)
  {
    hide Ratio, BigIntOf, PadEnd, Readable, ReadValue, Pow10, ParseNat, SplitAtDot;
    BareValue(s);
    BareSplits(s);
    BareDigits(s[2..], scale);
    RatioShift(Signed(true, ParseNat(s[2..])), |s| - 2, scale - (|s| - 2));
  }

  lemma ReadableOperand(s: string, scale: nat) returns (n: int)
    requires Readable(s) && |SplitAtDot(s).1| <= scale
    ensures OperandAt(s, scale) == Integer(n) && Ratio(n, scale) == ReadValue(s)
  {
    if Accepted(s) {
      n := OperandAtCommonScale(s, scale);
    } else {
      BareSplits(s);
      BareOperand(s, scale);
      n := OperandAt(s, scale).value;
    }
  }

  // ---- Writing ----

  /** From one tenth down to one, the minus sign stands right before the point. */
  lemma TenthsAreBare(m: nat, scale: nat)
    requires scale >= 1 && Pow10(scale - 1) <= m < Pow10(scale)
    ensures ShowSum(Signed(true, m), scale) == "-." + NatToString(m)
    ensures BareNegative(ShowSum(Signed(true, m), scale)) && ReadValue(ShowSum(Signed(true, m), scale)) == Ratio(Signed(true, m), scale)
  {
    var digits := NatToString(m);
    ShortNumeral(m, scale);
    NumeralLength(m);
    Pow10Order(|digits|, scale - 1);
    var sum := "-" + digits;
    hide NatToString, AllZeros;
    assert |sum| == scale + 1 && sum[..1] == "-" && sum[1..] == digits;
    assert IntToString(Signed(true, m)) == sum && PadStart(sum, scale + 1) == sum;
    assert JoinFraction("-", digits) == "-" + "." + digits;
    assert "-" + "." + digits == "-." + digits && ("-." + digits)[2..] == digits;
    BareIsNotAccepted("-." + digits);
    ParseOfToString(m);
  }

  /** Closer to 0 it stands behind the point, and no later addition can read the text. */
  lemma BelowTenthIsUnreadable(m: nat, scale: nat, right: string)
    requires scale >= 1 && 0 < m < Pow10(scale - 1)
    ensures !Readable(ShowSum(Signed(true, m), scale)) && AddDecimal(ShowSum(Signed(true, m), scale), right) == SyntaxError
  {
    var digits := NatToString(m);
    ShortNumeral(m, scale - 1);
    hide NatToString, AddDecimal;
    assert IntToString(Signed(true, m)) == "-" + digits;
    var text := ShowSum(Signed(true, m), scale);
    assert text == CutAt(PadStart("-" + digits, scale + 1), scale);
    SignBehindPoint(digits, scale);
    SignInsideThrows(text[2..], right);
  }

  lemma SignBehindPoint(digits: string, scale: nat)
    requires 1 <= |digits| < scale && AllDigits(digits) && digits[0] != '0'
    ensures var text := CutAt(PadStart("-" + digits, scale + 1), scale);
            |text| > 2 && text == "0." + text[2..] && '-' in text[2..] && '.' !in text[2..] && !Readable(text)
  {
    var sum := PadStart("-" + digits, scale + 1);
    var whole, fraction := sum[..1], sum[1..];
    var minus := scale - |digits|;
    assert |sum| == scale + 1 && sum[minus] == '-' && sum[minus + 1] == digits[0] && sum[0] == '0';
    assert fraction[minus] == digits[0] && fraction[minus - 1] == '-' && whole == "0";
    assert JoinFraction(whole, fraction) == "0." + fraction;
    assert ("0." + fraction)[2..] == fraction;
    assert forall i :: 0 <= i < |sum| ==> sum[i] != '.';
    MisplacedSign(digits, scale);
  }

  lemma SignInsideThrows(fraction: string, right: string)
    requires '-' in fraction && '.' !in fraction
    ensures AddDecimal("0." + fraction, right) == SyntaxError
  {
    SplitWithPoint("0", fraction);
    assert "0." + fraction == "0" + "." + fraction;
    var scale := if |fraction| < |SplitAtDot(right).1| then |SplitAtDot(right).1| else |fraction|;
    SignInside(fraction, scale);
  }

  lemma SignInside(fraction: string, scale: nat)
    requires '-' in fraction
    ensures BigIntOf("0" + PadEnd(fraction, scale)) == NotAnInteger
  {
    var i :| 0 <= i < |fraction| && fraction[i] == '-';
    var s := "0" + PadEnd(fraction, scale);
    assert s[0] == '0' && s[i + 1] == '-';
  }

  lemma TenthInterval(n: int, scale: nat)
    requires scale >= 1
    ensures n < 0 && -n < Pow10(scale - 1) <==> -0.1 < Ratio(n, scale) < 0.0
  {
    UnitInterval(n, scale - 1);
    RatioOrder(n, 0, scale);
    RatioZero(scale);
    assert Ratio(n, scale) == Ratio(n, scale - 1) / 10.0;
  }

  // ---- One addition ----

  /**
    The adder on a text it can read and a decimal text: it never throws, its result can
    be read again exactly if the sum is not strictly between -0.1 and 0, and then reads
    as the exact sum. A result that cannot be read makes every next addition throw.
   */
  lemma AddReadableIsExact(left: string, right: string)
    requires Readable(left) && Accepted(right)
    ensures AddDecimal(left, right).Sum?
    ensures var v, text := ReadValue(left) + TextValue(right), AddDecimal(left, right).text;
            && (Readable(text) <==> !(-0.1 < v < 0.0))
            && (Readable(text) ==> ReadValue(text) == v)
            && (Accepted(text) <==> !(-1.0 < v < 0.0))
            && (!Readable(text) ==> forall next :: AddDecimal(text, next) == SyntaxError)
  {
    hide AddDecimal, Readable, ReadValue, TextValue, Accepted;
    var scale := CommonScale(left, right);
    CommonScaleCovers(left, right);
    var l := ReadableOperand(left, scale);
    var r := OperandAtCommonScale(right, scale);
    AddOperands(left, right, scale, l, r);
    RatioAdd(l, r, scale);
    ShownIsRead(l + r, scale);
  }

  lemma ShownIsRead(n: int, scale: nat)
    ensures var v, text := Ratio(n, scale), ShowSum(n, scale);
            && (Readable(text) <==> !(-0.1 < v < 0.0))
            && (Readable(text) ==> ReadValue(text) == v)
            && (Accepted(text) <==> !(-1.0 < v < 0.0))
            && (!Readable(text) ==> forall next :: AddDecimal(text, next) == SyntaxError)
  {
    hide AddDecimal, ShowSum, Ratio, TextValue, MatchPattern, NatToString;
    UnitInterval(n, scale);
    assert n < 0 ==> Signed(true, -n) == n;
    if n < 0 && -n < Pow10(scale) {
      ShowSumSmallNegative(n, scale);
      TenthInterval(n, scale);
      if -n < Pow10(scale - 1) {
        forall next
          ensures !Readable(ShowSum(n, scale)) && AddDecimal(ShowSum(n, scale), next) == SyntaxError
        {
          BelowTenthIsUnreadable(-n, scale, next);
        }
        BelowTenthIsUnreadable(-n, scale, "");
      } else {
        TenthsAreBare(-n, scale);
      }
    } else {
      ShowSumRegular(n, scale);
    }
  }
}
