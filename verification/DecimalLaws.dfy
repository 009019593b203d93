/**
  Laws of the Decimal operations: the stored form is unique, isMultipleOf means
  an integer quotient exists, and `round` is the nearest value with the stated ties.
 */
module DecimalLaws {
  import opened Numerals
  import opened Decimals

  /** Two normal decimals denote the same number exactly when all their fields agree. */
  lemma NormalFormIsUnique(a: Decimal, b: Decimal)
    requires Normal(a) && Normal(b)
    ensures Value(a) == Value(b) <==> a == b
  {
    if Value(a) == Value(b) {
      if a.scale <= b.scale {
        SameValueShorterScale(a, b);
      } else {
        SameValueShorterScale(b, a);
      }
    }
  }

  lemma SameValueShorterScale(a: Decimal, b: Decimal)
    requires Normal(a) && Normal(b) && Value(a) == Value(b) && a.scale <= b.scale
    ensures a == b
  {
    var k := b.scale - a.scale;
    RatioShift(a.coefficient, a.scale, k);
    RatioOrder(a.coefficient * Pow10(k), b.coefficient, b.scale);
    RatioOrder(b.coefficient, a.coefficient * Pow10(k), b.scale);
    if k > 0 {
      MultipleOfTen(a.coefficient, k);
    }
  }

  lemma MultipleOfTen(c: int, k: nat)
    requires k > 0
    ensures TruncMod(c * Pow10(k), 10) == 0
  {
    var x := c * Pow10(k - 1);
    TenTimes(c, Pow10(k - 1));
    TenTimesHasNoRest(x);
  }

  lemma TenTimes(c: int, p: int)
    ensures c * (10 * p) == 10 * (c * p)
  {
  }

  lemma TenTimesHasNoRest(x: int)
    ensures TruncMod(10 * x, 10) == 0
  {
  }

  /** `isMultipleOf`: a non-negative value is some whole number of positive steps. */
  lemma MultipleMeansWholeQuotient(d: Decimal, step: Decimal)
    ensures IsMultipleOf(d, step) <==>
            Value(step) > 0.0 && Value(d) >= 0.0 && exists k: nat :: Steps(d, step, k)
  {
    if !IsNegative(step) && !IsZero(step) && !IsNegative(d) {
      var (v, w, scale) := Align(d, step);
      AlignKeepsSign(d, step);
      AlignIsExact(d, step);
      if IsMultipleOf(d, step) {
        QuotientCounts(v, w, v / w, scale);
        assert Steps(d, step, v / w);
      }
      if k: nat :| Steps(d, step, k) {
        QuotientCounts(v, w, k, scale);
        NearestIsUnique(v, w, k);
      }
    }
  }

  ghost predicate Steps(d: Decimal, step: Decimal, k: nat) {
    Value(d) == k as real * Value(step)
  }

  lemma QuotientCounts(v: int, w: int, k: int, scale: nat)
    ensures Ratio(v, scale) == k as real * Ratio(w, scale) <==> v == k * w
  {
    RatioTimes(k, w, scale);
    RatioOrder(v, k * w, scale);
    RatioOrder(k * w, v, scale);
  }

  // ---- round ----

  /** The result of rounding to `scale` digits, counted in units of 10^-scale. */
  ghost function RoundUnits(d: Decimal, scale: nat): int {
    if scale >= d.scale then d.coefficient * Pow10(scale - d.scale)
    else RoundQuotient(d.coefficient, Pow10(d.scale - scale))
  }

  lemma RoundIsUnits(d: Decimal, scale: nat)
    ensures Round(d, scale).Rounded? && Value(Round(d, scale).value) == Ratio(RoundUnits(d, scale), scale)
  {
    if scale >= d.scale {
      RatioShift(d.coefficient, d.scale, scale - d.scale);
    }
  }

  lemma RoundQuotientNearest(c: int, f: int)
    requires f > 0
    ensures var e := 2 * (RoundQuotient(c, f) * f - c); -f <= e <= f
    ensures c >= 0 ==> 2 * (RoundQuotient(c, f) * f - c) > -f
    ensures c <= 0 ==> 2 * (RoundQuotient(c, f) * f - c) < f
  {
    var n := if c >= 0 then 2 * c + f else f - 2 * c;
    var q := n / (2 * f);
    assert n == (2 * f) * q + n % (2 * f);
    assert (2 * f) * q == 2 * (q * f);
    if c < 0 {
      assert RoundQuotient(c, f) * f == -(q * f);
    }
  }

  lemma RoundQuotientMonotone(a: int, b: int, f: int)
    requires f > 0 && a <= b
    ensures RoundQuotient(a, f) <= RoundQuotient(b, f)
  {
    if a < b {
      RoundQuotientNearest(a, f);
      RoundQuotientNearest(b, f);
      NearestKeepsOrder(a, RoundQuotient(a, f), b, RoundQuotient(b, f), f);
    }
  }

  lemma NearestKeepsOrder(a: int, p: int, b: int, q: int, f: int)
    requires f > 0 && a < b && 2 * (p * f - a) <= f && -f <= 2 * (q * f - b)
    ensures p <= q
  {
    FactorOrder(p, q + 1, f);
    assert (q + 1) * f == q * f + f;
  }

  lemma RoundQuotientScales(c: int, f: int, k: int)
    requires f > 0 && k > 0
    ensures f * k > 0 && RoundQuotient(c * k, f * k) == RoundQuotient(c, f)
  {
    var a := if c >= 0 then c else -c;
    var n, d := 2 * a + f, 2 * f;
    QuotientScales(n, d, k);
    ScaledParts(a, f, k);
    if c < 0 {
      NegativeTimes(c, k);
    }
  }

  lemma QuotientScales(n: nat, d: int, k: int)
    requires d > 0 && k > 0
    ensures d * k > 0 && (n * k) / (d * k) == n / d
  {
    var q := n / d;
    var nk, dk := n * k, d * k;
    assert d * q <= n < d * q + d;
    ScaledBetween(d * q, n, d * q + d, k);
    assert (d * q) * k == dk * q && (d * q + d) * k == dk * q + dk;
    NearestIsUnique(nk, dk, q);
  }

  lemma ScaledBetween(a: int, b: int, c: int, k: int)
    requires a <= b < c && k > 0
    ensures a * k <= b * k < c * k
  {
  }

  lemma ScaledParts(a: nat, f: int, k: int)
    requires f > 0 && k > 0
    ensures 2 * (a * k) + f * k == (2 * a + f) * k && 2 * (f * k) == (2 * f) * k && a * k >= 0 && f * k > 0
  {
  }

  lemma NegativeTimes(c: int, k: int)
    requires c < 0 && k > 0
    ensures c * k < 0 && -(c * k) == (-c) * k
  {
  }

  lemma RoundQuotientExact(x: int, f: int)
    requires f > 0
    ensures RoundQuotient(x * f, f) == x
  {
    var q := RoundQuotient(x * f, f);
    RoundQuotientNearest(x * f, f);
    FactorOrder(q, x + 1, f);
    FactorOrder(x, q + 1, f);
    assert (x + 1) * f == x * f + f && (q + 1) * f == q * f + f;
  }

  /** Rounding units may be read off any common scale. */
  lemma RoundUnitsAtCommonScale(d: Decimal, scale: nat, m: nat)
    requires m >= scale && m >= d.scale
    ensures RoundUnits(d, scale) == RoundQuotient(d.coefficient * Pow10(m - d.scale), Pow10(m - scale))
  {
    if scale >= d.scale {
      Pow10Add(scale - d.scale, m - scale);
      var x := d.coefficient * Pow10(scale - d.scale);
      assert d.coefficient * Pow10(m - d.scale) == x * Pow10(m - scale);
      RoundQuotientExact(x, Pow10(m - scale));
    } else {
      Pow10Add(d.scale - scale, m - d.scale);
      RoundQuotientScales(d.coefficient, Pow10(d.scale - scale), Pow10(m - d.scale));
    }
  }

  /** `round` errs by at most half a unit of 10^-scale, and a tie moves away from zero. */
  lemma RoundWithinHalfUnit(d: Decimal, scale: nat)
    ensures var e := Value(Round(d, scale).value) - Value(d);
            var unit := Ratio(1, scale);
            -unit / 2.0 <= e <= unit / 2.0
            && (Value(d) >= 0.0 ==> e > -unit / 2.0)
            && (Value(d) <= 0.0 ==> e < unit / 2.0)
  {
    var m := if scale >= d.scale then scale else d.scale;
    var f := Pow10(m - scale);
    var c := d.coefficient * Pow10(m - d.scale);
    var q := RoundUnits(d, scale);
    RoundIsUnits(d, scale);
    RoundUnitsAtCommonScale(d, scale, m);
    RoundQuotientNearest(c, f);
    RatioShift(q, scale, m - scale);
    RatioShift(1, scale, m - scale);
    RatioShift(d.coefficient, d.scale, m - d.scale);
    assert Ratio(1 * f, m) == Ratio(f, m);
    var e2 := 2 * (q * f - c);
    RatioAdd(q * f, -c, m);
    RatioNegate(c, m);
    RatioAdd(q * f - c, q * f - c, m);
    assert Ratio(e2, m) == 2.0 * (Value(Round(d, scale).value) - Value(d));
    RatioNegate(f, m);
    RatioOrder(e2, -f, m);
    RatioOrder(-f, e2, m);
    RatioOrder(e2, f, m);
    RatioOrder(f, e2, m);
    assert IsNegative(d) <==> d.coefficient < 0;
    assert IsZero(d) <==> d.coefficient == 0;
    AbsorbSign(d.coefficient, Pow10(m - d.scale));
  }

  lemma AbsorbSign(c: int, p: int)
    requires p > 0
    ensures (c >= 0 <==> c * p >= 0) && (c <= 0 <==> c * p <= 0)
  {
  }

  /** `round` never swaps the order of two values. */
  lemma RoundIsMonotone(a: Decimal, b: Decimal, scale: nat)
    requires Value(a) <= Value(b)
    ensures Value(Round(a, scale).value) <= Value(Round(b, scale).value)
  {
    var n := if a.scale >= b.scale then a.scale else b.scale;
    var m := if scale >= n then scale else n;
    RatioShift(a.coefficient, a.scale, m - a.scale);
    RatioShift(b.coefficient, b.scale, m - b.scale);
    RatioOrder(b.coefficient * Pow10(m - b.scale), a.coefficient * Pow10(m - a.scale), m);
    RoundUnitsAtCommonScale(a, scale, m);
    RoundUnitsAtCommonScale(b, scale, m);
    RoundQuotientMonotone(a.coefficient * Pow10(m - a.scale), b.coefficient * Pow10(m - b.scale), Pow10(m - scale));
    RoundIsUnits(a, scale);
    RoundIsUnits(b, scale);
    RatioOrder(RoundUnits(b, scale), RoundUnits(a, scale), scale);
  }

  /** Rounding commutes with negation, field for field. */
  lemma RoundIsOdd(d: Decimal, scale: nat)
    requires Normal(d)
    ensures Round(Negate(d), scale) == Rounded(Negate(Round(d, scale).value))
  {
    if scale < d.scale {
      var f := Pow10(d.scale - scale);
      assert RoundQuotient(-d.coefficient, f) == -RoundQuotient(d.coefficient, f) by {
        if d.coefficient == 0 {
          RoundQuotientExact(0, f);
          assert 0 * f == 0;
        }
      }
      var q := Decimal(RoundQuotient(d.coefficient, f), scale);
      NormalFormIsUnique(Normalize(Negate(q)), Negate(Normalize(q)));
    }
  }

  /** A rounded value is left alone by rounding again, and uses at most `scale` fraction digits. */
  lemma RoundIsIdempotent(d: Decimal, scale: nat)
    ensures Round(d, scale).value.scale <= scale
    ensures Round(Round(d, scale).value, scale) == Round(d, scale)
  {
  }
}
