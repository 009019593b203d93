/**
  Exact decimal numbers: an integer coefficient and a count of fraction digits
  (apps/backend/src/modules/shared-kernel/decimal.ts).

  Every operation is related to the rational number a Decimal denotes, `Value`,
  so that the ledger above this module can be reasoned about in plain arithmetic.
 */
module Decimals {
  import opened Numerals

  datatype Decimal = Decimal(coefficient: int, scale: nat)

  datatype Rounding = Rounded(value: Decimal) | InvalidScale

  /** The form every constructor of the source leaves a number in. */
  predicate Normal(d: Decimal) {
    d.scale == 0 || TruncMod(d.coefficient, 10) != 0
  }

  /** c / 10^s as an exact rational: c divided by ten, s times over. */
  ghost function Ratio(c: int, s: nat): real {
    if s == 0 then c as real else Ratio(c, s - 1) / 10.0
  }

  ghost function Value(d: Decimal): real {
    Ratio(d.coefficient, d.scale)
  }

  // BigInt division truncates toward zero; Dafny's is Euclidean.
  function TruncDiv(a: int, b: int): int
    requires b > 0
  {
    if a >= 0 then a / b else -((-a) / b)
  }

  function TruncMod(a: int, b: int): int
    requires b > 0
  {
    a - b * TruncDiv(a, b)
  }

  function Normalize(d: Decimal): (r: Decimal)
    ensures Normal(r) && Value(r) == Value(d) && r.scale <= d.scale
    ensures Normal(d) ==> r == d
    decreases d.scale
  {
    if d.scale > 0 && TruncMod(d.coefficient, 10) == 0 then
      DropDigit(TruncDiv(d.coefficient, 10), d.scale - 1);
      Normalize(Decimal(TruncDiv(d.coefficient, 10), d.scale - 1))
    else
      d
  }

  function Align(left: Decimal, right: Decimal): (int, int, nat) {
    var scale := if left.scale < right.scale then right.scale else left.scale;
    (left.coefficient * Pow10(scale - left.scale), right.coefficient * Pow10(scale - right.scale), scale)
  }

  function Add(left: Decimal, right: Decimal): (r: Decimal)
    ensures Normal(r) && Value(r) == Value(left) + Value(right)
  {
    var (l, r, scale) := Align(left, right);
    AlignIsExact(left, right);
    RatioAdd(l, r, scale);
    Normalize(Decimal(l + r, scale))
  }

  function Negate(d: Decimal): (r: Decimal)
    ensures Value(r) == -Value(d)
    ensures Normal(d) ==> Normal(r)
  {
    RatioNegate(d.coefficient, d.scale);
    Decimal(-d.coefficient, d.scale)
  }

  function Subtract(left: Decimal, right: Decimal): (r: Decimal)
    ensures Normal(r) && Value(r) == Value(left) - Value(right)
  {
    Add(left, Negate(right))
  }

  function Multiply(left: Decimal, right: Decimal): (r: Decimal)
    ensures Normal(r) && Value(r) == Value(left) * Value(right)
  {
    MultiplyIsExact(left, right);
    Normalize(Decimal(left.coefficient * right.coefficient, left.scale + right.scale))
  }

  lemma MultiplyIsExact(left: Decimal, right: Decimal)
    ensures Value(Decimal(left.coefficient * right.coefficient, left.scale + right.scale)) == Value(left) * Value(right)
  {
    hide Ratio;
    RatioMultiply(left.coefficient, left.scale, right.coefficient, right.scale);
  }

  function Compare(left: Decimal, right: Decimal): (r: int)
    ensures -1 <= r <= 1
    ensures r < 0 <==> Value(left) < Value(right)
    ensures r > 0 <==> Value(left) > Value(right)
  {
    var (l, r, scale) := Align(left, right);
    AlignIsExact(left, right);
    RatioOrder(l, r, scale);
    RatioOrder(r, l, scale);
    if l < r then -1 else if l > r then 1 else 0
  }

  predicate IsNegative(d: Decimal)
    ensures IsNegative(d) <==> Value(d) < 0.0
  {
    RatioZero(d.scale);
    RatioOrder(d.coefficient, 0, d.scale);
    d.coefficient < 0
  }

  predicate IsZero(d: Decimal)
    ensures IsZero(d) <==> Value(d) == 0.0
  {
    RatioZero(d.scale);
    RatioOrder(d.coefficient, 0, d.scale);
    RatioOrder(0, d.coefficient, d.scale);
    d.coefficient == 0
  }

  predicate IsMultipleOf(d: Decimal, step: Decimal) {
    if IsNegative(step) || IsZero(step) || IsNegative(d) then
      false
    else
      var (value, divisor, scale) := Align(d, step);
      AlignKeepsSign(d, step);
      TruncMod(value, divisor) == 0 && scale >= 0
  }

  /** The integer nearest to c / f, a tie going away from zero. */
  function RoundQuotient(c: int, f: int): int
    requires f > 0
  {
    if c >= 0 then (2 * c + f) / (2 * f) else -((f - 2 * c) / (2 * f))
  }

  function Round(d: Decimal, scale: int): (r: Rounding)
    ensures r.InvalidScale? <==> scale < 0
    ensures r.Rounded? && Normal(d) ==> Normal(r.value)
  {
    if scale < 0 then InvalidScale
    else if scale >= d.scale then Rounded(d)
    else Rounded(Normalize(Decimal(RoundQuotient(d.coefficient, Pow10(d.scale - scale)), scale)))
  }

  const ZERO: Decimal := Decimal(0, 0)

  // ---- The loops of the source ----

  /** `normalize`: strips one trailing zero per turn. */
  method NormalizeByLoop(d: Decimal) returns (r: Decimal)
    ensures Normal(r) && Value(r) == Value(d)
    ensures r == Normalize(d)
  {
    var coefficient, scale := d.coefficient, d.scale;
    while scale > 0 && TruncMod(coefficient, 10) == 0
      invariant Normalize(Decimal(coefficient, scale)) == Normalize(d)
    {
      coefficient := TruncDiv(coefficient, 10);
      scale := scale - 1;
    }
    r := Decimal(coefficient, scale);
  }

  /** `round`: truncate, then push the quotient one away from zero when the remainder is at least half. */
  method RoundByUpdate(d: Decimal, scale: int) returns (r: Rounding)
    ensures r == Round(d, scale)
  {
    if scale < 0 {
      return InvalidScale;
    }
    if scale >= d.scale {
      return Rounded(d);
    }
    var factor := Pow10(d.scale - scale);
    var quotient := TruncDiv(d.coefficient, factor);
    var remainder := if d.coefficient < 0 then -TruncMod(d.coefficient, factor) else TruncMod(d.coefficient, factor);
    if remainder * 2 >= factor {
      quotient := quotient + (if d.coefficient < 0 then -1 else 1);
    }
    TruncateThenAdjust(d.coefficient, factor, quotient);
    r := Rounded(Normalize(Decimal(quotient, scale)));
  }

  lemma TruncateThenAdjust(c: int, f: int, q: int)
    requires f > 0
    requires var t := TruncDiv(c, f);
             var rem := if c < 0 then -TruncMod(c, f) else TruncMod(c, f);
             q == if rem * 2 >= f then t + (if c < 0 then -1 else 1) else t
    ensures q == RoundQuotient(c, f)
  {
    var a := if c < 0 then -c else c;
    var up := if c < 0 then -q else q;
    assert a == f * (a / f) + a % f;
    NearestIsUnique(2 * a + f, 2 * f, up);
  }

  lemma NearestIsUnique(a: int, b: int, q: int)
    requires b > 0 && b * q <= a < b * q + b
    ensures a / b == q
  {
    var p := a / b;
    assert p * b <= a < (p + 1) * b;
    FactorOrder(p, q + 1, b);
    FactorOrder(q, p + 1, b);
  }

  // ---- Ratios ----

  /** Ratio really is the quotient by the power of ten. */
  lemma {:induction false} RatioIsQuotient(c: int, s: nat)
    ensures Ratio(c * Pow10(s), s) == c as real
  {
    if s > 0 {
      RatioIsQuotient(c, s - 1);
      DropDigit(c * Pow10(s - 1), s - 1);
      assert c * Pow10(s) == 10 * (c * Pow10(s - 1));
    }
  }

  lemma {:induction false} DropDigit(c: int, s: nat)
    ensures Ratio(10 * c, s + 1) == Ratio(c, s)
  {
    if s > 0 {
      DropDigit(c, s - 1);
    }
  }

  lemma {:induction false} RatioShift(c: int, s: nat, k: nat)
    ensures Ratio(c * Pow10(k), s + k) == Ratio(c, s)
  {
    if k > 0 {
      RatioShift(c, s, k - 1);
      DropDigit(c * Pow10(k - 1), s + k - 1);
      assert c * Pow10(k) == 10 * (c * Pow10(k - 1));
    }
  }

  lemma AlignIsExact(left: Decimal, right: Decimal)
    ensures var (l, r, scale) := Align(left, right);
            Ratio(l, scale) == Value(left) && Ratio(r, scale) == Value(right)
  {
    var (_, _, scale) := Align(left, right);
    RatioShift(left.coefficient, left.scale, scale - left.scale);
    RatioShift(right.coefficient, right.scale, scale - right.scale);
  }

  lemma AlignKeepsSign(d: Decimal, step: Decimal)
    requires step.coefficient > 0 && d.coefficient >= 0
    ensures Align(d, step).1 > 0 && Align(d, step).0 >= 0
  {
  }

  lemma {:induction false} RatioAdd(a: int, b: int, s: nat)
    ensures Ratio(a + b, s) == Ratio(a, s) + Ratio(b, s)
  {
    if s > 0 {
      RatioAdd(a, b, s - 1);
    }
  }

  lemma {:induction false} RatioNegate(a: int, s: nat)
    ensures Ratio(-a, s) == -Ratio(a, s)
  {
    if s > 0 {
      RatioNegate(a, s - 1);
    }
  }

  lemma {:induction false} RatioOrder(a: int, b: int, s: nat)
    ensures Ratio(a, s) < Ratio(b, s) <==> a < b
  {
    if s > 0 {
      RatioOrder(a, b, s - 1);
    }
  }

  lemma {:induction false} RatioZero(s: nat)
    ensures Ratio(0, s) == 0.0
  {
    if s > 0 {
      RatioZero(s - 1);
    }
  }

  lemma {:induction false} RatioMultiply(a: int, s: nat, b: int, t: nat)
    ensures Ratio(a * b, s + t) == Ratio(a, s) * Ratio(b, t)
  {
    if s > 0 {
      RatioMultiply(a, s - 1, b, t);
      assert (Ratio(a, s - 1) / 10.0) * Ratio(b, t) == (Ratio(a, s - 1) * Ratio(b, t)) / 10.0;
    } else {
      RatioTimes(a, b, t);
    }
  }

  lemma {:induction false} RatioTimes(k: int, w: int, s: nat)
    ensures Ratio(k * w, s) == k as real * Ratio(w, s)
    decreases if k >= 0 then k else 1 - k
  {
    if k > 0 {
      RatioTimes(k - 1, w, s);
      RatioAdd((k - 1) * w, w, s);
      assert k * w == (k - 1) * w + w;
    } else if k < 0 {
      RatioTimes(-k, w, s);
      RatioNegate((-k) * w, s);
      assert k * w == -((-k) * w);
    } else {
      RatioZero(s);
    }
  }
}
