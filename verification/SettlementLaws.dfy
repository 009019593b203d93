/**
  Laws of real-time settlement: when the legs go through, what they move, and how
  an interrupted settlement resumes.
 */
module SettlementLaws {
  import Numerals
  import opened Decimals
  import opened DecimalLaws
  import opened Results
  import opened Balances
  import opened LedgerSpec
  import opened LedgerKeys
  import opened LedgerLaws
  import opened LedgerMoney
  import opened LedgerUndo
  import opened Settlement

  // ---- The fee ----

  /** Half a unit of the eighteenth digit. */
  ghost const HALF: real := Ratio(1, 18) / 2.0

  ghost predicate ProductOf(product: Decimal, quantity: Decimal, price: Decimal) {
    Value(product) == Value(quantity) * Value(price)
  }

  /** At most eighteen digits, and as near to notional times rate as those allow. */
  ghost predicate NearestFee(fee: Decimal, notional: Decimal, rate: Decimal) {
    fee.scale <= 18 && Nearest(Value(notional) * Value(rate), Value(fee))
  }

  /** The notional is exactly quantity times price. */
  lemma NotionalIsExact(quantity: Decimal, price: Decimal)
    ensures ProductOf(Notional(quantity, price), quantity, price)
  {
  }

  /**
    The fee is notional times rate to eighteen digits, off by at most half a unit of the
    last, and half a unit goes away from zero.
   */
  lemma FeeIsExact(notional: Decimal, rate: Decimal)
    ensures NearestFee(Fee(notional, rate), notional, rate)
  {
    hide Ratio;
    RoundWithinHalfUnit(Multiply(notional, rate), 18);
    RoundIsIdempotent(Multiply(notional, rate), 18);
  }

  /** No other number of eighteen digits is that near. */
  lemma NothingElseIsNear(raw: real, fee: Decimal, k: int)
    requires fee.scale <= 18 && Nearest(raw, Value(fee))
    ensures Nearest(raw, Ratio(k, 18)) <==> Ratio(k, 18) == Value(fee)
  {
    hide Ratio;
    RatioShift(fee.coefficient, fee.scale, 18 - fee.scale);
    if Nearest(raw, Ratio(k, 18)) {
      OneNearest(raw, k, fee.coefficient * Numerals.Pow10(18 - fee.scale));
    }
  }

  /** Within half a unit of the eighteenth digit, a tie lying further from zero. */
  ghost predicate Nearest(raw: real, rounded: real) {
    && raw - HALF <= rounded <= raw + HALF
    && (raw >= 0.0 ==> rounded > raw - HALF)
    && (raw <= 0.0 ==> rounded < raw + HALF)
  }

  lemma OneNearest(raw: real, k: int, n: int)
    requires Nearest(raw, Ratio(k, 18)) && Nearest(raw, Ratio(n, 18))
    ensures k == n
  {
    hide Ratio;
    if k < n {
      RatioAdd(k, 1, 18);
      RatioOrder(k + 1, n, 18);
    } else if n < k {
      RatioAdd(n, 1, 18);
      RatioOrder(n + 1, k, 18);
    }
  }

  /** What is left of the notional behind the exact fee. */
  ghost function LeftAfterFee(notional: Decimal, rate: Decimal): real {
    (1.0 - Value(rate)) * Value(notional)
  }

  /** The notional in units of the eighteenth digit, counted up to the next whole one. */
  ghost function UnitsAbove(d: Decimal): int {
    if d.scale <= FEE_SCALE then d.coefficient * Numerals.Pow10(FEE_SCALE - d.scale)
    else
      var unit := Numerals.Pow10(d.scale - FEE_SCALE);
      (d.coefficient + unit - 1) / unit
  }

  lemma UnitsAboveBracket(d: Decimal)
    ensures Ratio(UnitsAbove(d) - 1, FEE_SCALE) < Value(d) <= Ratio(UnitsAbove(d), FEE_SCALE)
    ensures d.scale <= FEE_SCALE ==> Value(d) == Ratio(UnitsAbove(d), FEE_SCALE)
  {
    hide Ratio;
    var c := UnitsAbove(d);
    if d.scale <= FEE_SCALE {
      RatioShift(d.coefficient, d.scale, FEE_SCALE - d.scale);
      RatioOrder(c - 1, c, FEE_SCALE);
    } else {
      var k := d.scale - FEE_SCALE;
      var unit := Numerals.Pow10(k);
      CountedUp(d.coefficient, unit, c);
      RatioShift(c, FEE_SCALE, k);
      RatioShift(c - 1, FEE_SCALE, k);
      RatioOrder((c - 1) * unit, d.coefficient, d.scale);
      RatioOrder(c * unit, d.coefficient, d.scale);
    }
  }

  lemma CountedUp(n: int, unit: int, c: int)
    requires unit > 0 && c == (n + unit - 1) / unit
    ensures (c - 1) * unit < n <= c * unit
  {
    assert (c - 1) * unit == c * unit - unit;
  }

  /**
    For a rate in [0, 1) the fee is never negative, and it stays below the notional
    exactly when notional times rate is more than half a unit of the eighteenth digit
    below the notional counted up to a whole unit. It is enough that (1 - rate) *
    notional exceeds half a unit, and necessary where the notional is a whole number of units.
   */
  lemma FeeBelowNotional(notional: Decimal, rate: Decimal)
    requires Value(notional) > 0.0 && 0.0 <= Value(rate) < 1.0
    ensures var fee, half := Value(Fee(notional, rate)), Ratio(1, FEE_SCALE) / 2.0;
            && fee >= 0.0
            && (fee < Value(notional)
                <==> Value(Multiply(notional, rate)) < Ratio(UnitsAbove(notional), FEE_SCALE) - half)
            && (LeftAfterFee(notional, rate) > half ==> fee < Value(notional))
            && (notional.scale <= FEE_SCALE ==> (fee < Value(notional) <==> LeftAfterFee(notional, rate) > half))
  {
    hide Ratio, Value, LeftAfterFee;
    var raw := Multiply(notional, rate);
    var fee := Fee(notional, rate);
    var c := UnitsAbove(notional);
    PartOfNotional(notional, rate);
    FeeIsNotNegative(raw);
    FeeIsNear(raw, fee);
    RoundIsIdempotent(raw, FEE_SCALE);
    UnitsAboveBracket(notional);
    RatioAdd(c - 1, 1, FEE_SCALE);
    WholeUnitsBelow(fee, notional, c);
  }

  lemma PartOfNotional(notional: Decimal, rate: Decimal)
    requires Value(notional) > 0.0 && 0.0 <= Value(rate) < 1.0
    ensures 0.0 <= Value(Multiply(notional, rate)) < Value(notional)
    ensures LeftAfterFee(notional, rate) == Value(notional) - Value(Multiply(notional, rate))
  {
    hide Value;
    var n, r, raw := Value(notional), Value(rate), Value(Multiply(notional, rate));
    assert raw == n * r;
    PartOfWhole(n, r);
    assert raw < n;
  }

  /** A whole number of units is below the notional exactly when it is at most c - 1. */
  lemma WholeUnitsBelow(fee: Decimal, notional: Decimal, c: int)
    requires fee.scale <= FEE_SCALE
    requires Ratio(c - 1, FEE_SCALE) < Value(notional) <= Ratio(c, FEE_SCALE)
    ensures Value(fee) < Value(notional) <==> Value(fee) <= Ratio(c - 1, FEE_SCALE)
    ensures Value(fee) < Value(notional) <==> Value(fee) < Ratio(c, FEE_SCALE)
  {
    hide Ratio;
    var k := fee.coefficient * Numerals.Pow10(FEE_SCALE - fee.scale);
    RatioShift(fee.coefficient, fee.scale, FEE_SCALE - fee.scale);
    RatioOrder(k, c, FEE_SCALE);
    RatioOrder(c - 1, k, FEE_SCALE);
  }

  lemma FeeIsNear(raw: Decimal, fee: Decimal)
    requires Value(raw) >= 0.0 && Round(raw, FEE_SCALE) == Rounded(fee)
    ensures -Ratio(1, FEE_SCALE) / 2.0 < Value(fee) - Value(raw) <= Ratio(1, FEE_SCALE) / 2.0
  {
    RoundWithinHalfUnit(raw, FEE_SCALE);
  }

  lemma PartOfWhole(n: real, r: real)
    requires n > 0.0 && 0.0 <= r < 1.0
    ensures 0.0 <= n * r < n && (1.0 - r) * n == n - n * r
  {
  }

  lemma FeeIsNotNegative(raw: Decimal)
    requires Value(raw) >= 0.0
    ensures Value(Round(raw, FEE_SCALE).value) >= 0.0
  {
    assert Value(ZERO) == 0.0 && Round(ZERO, FEE_SCALE) == Rounded(ZERO);
    RoundIsMonotone(ZERO, raw, FEE_SCALE);
  }

  /** One unit of the eighteenth digit at price 1 and rate 0.6 is charged its whole notional. */
  lemma TinySellFee()
    ensures Notional(Decimal(1, 18), Decimal(1, 0)) == Decimal(1, 18)
    ensures Fee(Decimal(1, 18), Decimal(6, 1)) == Decimal(1, 18)
  {
    hide Value, Ratio;
    assert Normal(Decimal(1, 18)) && Normal(Decimal(6, 19));
    var raw := Decimal(6, 19);
    assert Multiply(Decimal(1, 18), Decimal(6, 1)) == raw;
    assert RoundQuotient(6, 10) == 1 && Numerals.Pow10(1) == 10;
    assert Round(raw, FEE_SCALE) == Rounded(Normalize(Decimal(1, 18)));
  }

  // ---- Sequences of legs ----

  ghost function SumDelta(legs: seq<Leg>, a: AccountId, x: AssetId): real {
    if |legs| == 0 then 0.0 else LegDelta(legs[0], a, x) + SumDelta(legs[1..], a, x)
  }

  ghost predicate FreshLegs(s: State, legs: seq<Leg>) {
    && (forall i :: 0 <= i < |legs| ==> !Applied(s, legs[i].op) && ColonFreeLeg(legs[i]))
    && (forall i, j :: 0 <= i < j < |legs| ==> legs[i].op != legs[j].op)
  }

  /** Legs run in turn up to the first that throws, whatever makes it throw; none behind it is tried. */
  lemma {:induction false} RunStopsAtTheFirstError(s: State, legs: seq<Leg>)
    ensures RunLegs(s, legs).result.Ok? ==> forall k :: 0 <= k < |legs| ==> GoesThrough(s, legs, k)
    ensures RunLegs(s, legs).result.Err? ==>
              exists k: nat :: StopsAt(s, legs, k)
    decreases |legs|
  {
    hide Transfer;
    if |legs| > 0 {
      var first := Transfer(s, legs[0]);
      assert legs[..0] == [] && legs[..1] == [legs[0]];
      if first.result.Ok? {
        RunStopsAtTheFirstError(first.state, legs[1..]);
        forall k | 0 <= k < |legs| - 1 && GoesThrough(first.state, legs[1..], k)
          ensures GoesThrough(s, legs, k + 1)
        {
          OneLegEarlier(s, legs, k + 1);
        }
        assert GoesThrough(s, legs, 0);
        if RunLegs(first.state, legs[1..]).result.Err? {
          var k: nat :| StopsAt(first.state, legs[1..], k);
          OneLegEarlier(s, legs, k + 1);
          forall j | 0 <= j < k + 1
            ensures GoesThrough(s, legs, j)
          {
            assert j > 0 ==> GoesThrough(first.state, legs[1..], j - 1);
          }
          assert StopsAt(s, legs, k + 1);
        } else {
          forall k | 0 <= k < |legs|
            ensures GoesThrough(s, legs, k)
          {
            assert k > 0 ==> GoesThrough(first.state, legs[1..], k - 1);
          }
        }
      } else {
        assert StopsAt(s, legs, 0);
      }
    }
  }

  /** The first k legs went through, and so does leg k. */
  ghost predicate GoesThrough(s: State, legs: seq<Leg>, k: nat)
    requires k < |legs|
  {
    RunLegs(s, legs[..k]).result.Ok? && Transfer(RunLegs(s, legs[..k]).state, legs[k]).result.Ok?
  }

  /** All legs before leg k went through, and the run ended with the error of leg k. */
  ghost predicate StopsAt(s: State, legs: seq<Leg>, k: nat) {
    && k < |legs| && (forall j :: 0 <= j < k ==> GoesThrough(s, legs, j))
    && RunLegs(s, legs).result.Err? && RunLegs(s, legs[..k]).result.Ok?
    && Transfer(RunLegs(s, legs[..k]).state, legs[k]) == Step(RunLegs(s, legs).state, Err(RunLegs(s, legs).result.error))
  }

  lemma OneLegEarlier(s: State, legs: seq<Leg>, k: nat)
    requires 1 <= k < |legs| && Transfer(s, legs[0]).result.Ok?
    ensures RunLegs(s, legs[..k]) == RunLegs(Transfer(s, legs[0]).state, legs[1..][..k - 1]) && legs[1..][k - 1] == legs[k]
  {
    assert legs[..k][1..] == legs[1..][..k - 1];
  }

  /** When all legs go through, every available part has moved by the sum of the legs. */
  lemma {:induction false} RunLegsMoves(s: State, legs: seq<Leg>, a: AccountId, x: AssetId)
    requires FreshLegs(s, legs) && RunLegs(s, legs).result.Ok? && ':' !in a
    ensures Available(RunLegs(s, legs).state, a, x) == Available(s, a, x) + SumDelta(legs, a, x)
    decreases |legs|
  {
    if |legs| > 0 {
      LegSucceedsExactly(s, legs[0]);
      LegMoves(s, legs[0], a, x);
      RunLegsMoves(Transfer(s, legs[0]).state, legs[1..], a, x);
    }
  }

  // ---- One settlement ----

  /** The order passed the liquidity check, is new, and its accounts are what the configuration demands. */
  ghost predicate Admitted(s: State, o: Order) {
    && EnsureLiquidity(s, o).Ok? && SoundBalances(s.balances)
    && Value(o.quantity) > 0.0 && Value(o.notional) > 0.0 && Value(o.fee) >= 0.0
    && ':' !in o.user && ':' !in o.liquidity && ':' !in o.feeAccount
    && o.user != o.liquidity && (!IsZero(o.fee) ==> o.feeAccount != o.liquidity)
    && FreshLegs(s, Legs(o))
  }

  /** What the trade is for: the deltas each party is promised. */
  ghost function Promised(o: Order, a: AccountId, x: AssetId): real {
    Shares(o.side, a == o.user, a == o.liquidity, a == o.feeAccount, x == o.base, x == o.quote,
           Value(o.quantity), Value(o.notional), Value(o.fee))
  }

  ghost function Shares(side: Side, user: bool, liquidity: bool, feeAccount: bool, base: bool, quote: bool,
                        quantity: real, notional: real, fee: real): real {
    var received := if side == Buy then quantity else -quantity;
    var paid := if side == Buy then notional else -notional;
    (if user && base then received else 0.0)
    + (if user && quote then -paid - fee else 0.0)
    + (if liquidity && base then -received else 0.0)
    + (if liquidity && quote then paid else 0.0)
    + (if feeAccount && quote then fee else 0.0)
  }

  ghost function LegShare(to: bool, from: bool, asset: bool, v: real): real {
    if asset then (if to then v else 0.0) - (if from then v else 0.0) else 0.0
  }

  lemma SharesAddUp(side: Side, user: bool, liquidity: bool, feeAccount: bool, base: bool, quote: bool,
                    q: real, n: real, f: real)
    ensures Shares(Buy, user, liquidity, feeAccount, base, quote, q, n, f)
            == LegShare(liquidity, user, quote, n + f) + LegShare(user, liquidity, base, q) + LegShare(feeAccount, liquidity, quote, f)
    ensures Shares(Sell, user, liquidity, feeAccount, base, quote, q, n, f)
            == LegShare(liquidity, user, base, q) + LegShare(user, liquidity, quote, n - f) + LegShare(feeAccount, liquidity, quote, f)
  {
  }

  lemma LegsOf(o: Order) returns (first: Leg, second: Leg)
    ensures Legs(o) == [first, second] + FeeLeg(o)
    ensures first == (if o.side == Buy then Leg(OperationOf(o.orderId, "notional"), o.user, o.liquidity, o.quote, Add(o.notional, o.fee))
                      else Leg(OperationOf(o.orderId, "asset"), o.user, o.liquidity, o.base, o.quantity))
    ensures second == (if o.side == Buy then Leg(OperationOf(o.orderId, "asset"), o.liquidity, o.user, o.base, o.quantity)
                       else Leg(OperationOf(o.orderId, "notional"), o.liquidity, o.user, o.quote, Subtract(o.notional, o.fee)))
  {
    first, second := Legs(o)[0], Legs(o)[1];
  }

  /** The legs add up to what was promised. */
  lemma LegsKeepThePromise(o: Order, a: AccountId, x: AssetId)
    ensures SumDelta(Legs(o), a, x) == Promised(o, a, x)
  {
    hide Ratio, Value, Legs, SumDelta, LegDelta, Shares, LegShare;
    var first, second := LegsOf(o);
    SumOfTwoAndRest(first, second, FeeLeg(o), a, x);
    FeeLegShare(o, a, x);
    LegShares(first, a, x);
    LegShares(second, a, x);
    SharesAddUp(o.side, a == o.user, a == o.liquidity, a == o.feeAccount, x == o.base, x == o.quote,
                Value(o.quantity), Value(o.notional), Value(o.fee));
  }

  /** The leg pays the given value of an asset, from one account to the other, under the order's id and the leg's name. */
  ghost predicate Pays(leg: Leg, orderId: string, name: string, from: AccountId, to: AccountId, asset: AssetId, v: real) {
    leg.op == "rt:" + orderId + ":" + name && leg.from == from && leg.to == to && leg.assetId == asset && Value(leg.amount) == v
  }

  /**
    In what order the legs go, and under which ids: a buyer pays the notional with the
    fee and then gets the asset, a seller gives the asset and then gets the notional
    without the fee; a fee that is not zero goes on to the fee account last.
   */
  lemma LegsInOrder(o: Order)
    ensures var legs, q, n, f := Legs(o), Value(o.quantity), Value(o.notional), Value(o.fee);
            && |legs| == (if f == 0.0 then 2 else 3)
            && (o.side == Buy ==> Pays(legs[0], o.orderId, "notional", o.user, o.liquidity, o.quote, n + f)
                                  && Pays(legs[1], o.orderId, "asset", o.liquidity, o.user, o.base, q))
            && (o.side == Sell ==> Pays(legs[0], o.orderId, "asset", o.user, o.liquidity, o.base, q)
                                   && Pays(legs[1], o.orderId, "notional", o.liquidity, o.user, o.quote, n - f))
            && (f != 0.0 ==> Pays(legs[2], o.orderId, "fee", o.liquidity, o.feeAccount, o.quote, f))
  {
    hide Ratio;
    var first, second := LegsOf(o);
    assert Legs(o)[0] == first && Legs(o)[1] == second;
    assert !IsZero(o.fee) ==> Legs(o)[2] == FeeLeg(o)[0];
  }

  lemma LegShares(leg: Leg, a: AccountId, x: AssetId)
    ensures LegDelta(leg, a, x) == LegShare(a == leg.to, a == leg.from, x == leg.assetId, Value(leg.amount))
  {
  }

  lemma FeeLegShare(o: Order, a: AccountId, x: AssetId)
    ensures SumDelta(FeeLeg(o), a, x) == LegShare(a == o.feeAccount, a == o.liquidity, x == o.quote, Value(o.fee))
  {
    if !IsZero(o.fee) {
      var leg := FeeLeg(o)[0];
      SumOfOne(leg, a, x);
      assert FeeLeg(o) == [leg];
      LegShares(leg, a, x);
    }
  }

  lemma SumOfOne(leg: Leg, a: AccountId, x: AssetId)
    ensures SumDelta([leg], a, x) == LegDelta(leg, a, x)
  {
    assert [leg][1..] == [];
  }

  lemma SumOfTwoAndRest(first: Leg, second: Leg, rest: seq<Leg>, a: AccountId, x: AssetId)
    ensures SumDelta([first, second] + rest, a, x) == LegDelta(first, a, x) + LegDelta(second, a, x) + SumDelta(rest, a, x)
  {
    var legs := [first, second] + rest;
    assert legs[1..] == [second] + rest && ([second] + rest)[1..] == rest;
  }

  lemma CheckMeansFunds(s: State, o: Order)
    requires EnsureLiquidity(s, o).Ok?
    ensures Open(s, o.user, o.base) && Open(s, o.user, o.quote) && Open(s, o.liquidity, o.base) && Open(s, o.liquidity, o.quote)
    ensures !IsZero(o.fee) ==> Open(s, o.feeAccount, o.quote)
    ensures o.side == Buy ==> Available(s, o.user, o.quote) >= Value(o.notional) + Value(o.fee)
                              && Available(s, o.liquidity, o.base) >= Value(o.quantity)
    ensures o.side == Sell ==> Available(s, o.user, o.base) >= Value(o.quantity)
                               && Available(s, o.liquidity, o.quote) >= Value(o.notional)
  {
  }

  /** The first leg of an admitted order always goes through. */
  lemma FirstLegGoesThrough(s: State, o: Order)
    requires Admitted(s, o)
    ensures Transfer(s, Legs(o)[0]).result.Ok?
  {
    CheckMeansFunds(s, o);
    LegSucceedsExactly(s, Legs(o)[0]);
  }

  /** The second goes through exactly when a seller is left something after the fee. */
  lemma SecondLegExactly(s: State, o: Order)
    requires Admitted(s, o)
    ensures var s1 := Transfer(s, Legs(o)[0]).state;
            !Applied(s1, Legs(o)[1].op) && s1.balances.Keys == s.balances.Keys
            && (Transfer(s1, Legs(o)[1]).result.Ok? <==> (o.side == Sell ==> Value(o.fee) < Value(o.notional)))
  {
    hide Ratio, EnsureLiquidity, Move;
    var first, second := LegsOf(o);
    assert Legs(o)[0] == first && Legs(o)[1] == second;
    CheckMeansFunds(s, o);
    FirstLegGoesThrough(s, o);
    LegSucceedsExactly(s, first);
    var s1 := Transfer(s, first).state;
    LegMoves(s, first, o.liquidity, second.assetId);
    LegSucceedsExactly(s1, second);
  }

  /** What the liquidity account holds of the quote asset once both legs of the trade are through. */
  lemma LiquidityAfterTrade(s: State, o: Order, first: Leg, second: Leg)
    requires Admitted(s, o) && (o.side == Sell ==> Value(o.fee) < Value(o.notional))
    requires first == Legs(o)[0] && second == Legs(o)[1]
    ensures Transfer(s, first).result.Ok? && Transfer(Transfer(s, first).state, second).result.Ok?
    ensures var s2 := Transfer(Transfer(s, first).state, second).state;
            Available(s2, o.liquidity, o.quote)
            == Available(s, o.liquidity, o.quote) + LegDelta(first, o.liquidity, o.quote) + LegDelta(second, o.liquidity, o.quote)
  {
    FirstLegGoesThrough(s, o);
    SecondLegExactly(s, o);
    LegMoves(s, first, o.liquidity, o.quote);
    LegMoves(Transfer(s, first).state, second, o.liquidity, o.quote);
  }

  lemma LiquidityCoversFee(s: State, o: Order, first: Leg, second: Leg)
    requires Admitted(s, o) && first == Legs(o)[0] && second == Legs(o)[1]
    ensures Available(s, o.liquidity, o.quote) + LegDelta(first, o.liquidity, o.quote) + LegDelta(second, o.liquidity, o.quote)
            >= Value(o.fee)
  {
    CheckMeansFunds(s, o);
    var f, g := LegsOf(o);
    LegShares(f, o.liquidity, o.quote);
    LegShares(g, o.liquidity, o.quote);
    assert SoundBalances(s.balances);
  }

  /** When the second does, so does the fee leg: the liquidity account has just received the fee. */
  lemma FeeLegGoesThrough(s: State, o: Order)
    requires Admitted(s, o) && !IsZero(o.fee) && (o.side == Sell ==> Value(o.fee) < Value(o.notional))
    ensures var s2 := Transfer(Transfer(s, Legs(o)[0]).state, Legs(o)[1]).state;
            Transfer(s2, FeeLeg(o)[0]).result.Ok?
  {
    var first, second, third := Legs(o)[0], Legs(o)[1], FeeLeg(o)[0];
    assert third == Legs(o)[2];
    CheckMeansFunds(s, o);
    LiquidityAfterTrade(s, o, first, second);
    LiquidityCoversFee(s, o, first, second);
    var s1 := Transfer(s, first).state;
    var s2 := Transfer(s1, second).state;
    LegSucceedsExactly(s, first);
    LegSucceedsExactly(s1, second);
    LegSucceedsExactly(s2, third);
  }

  lemma RunTwoAndFee(s: State, first: Leg, second: Leg, fee: seq<Leg>)
    ensures RunLegs(s, [first, second] + fee) ==
            var a := Transfer(s, first);
            if a.result.Err? then Progress(a.state, Err(a.result.error))
            else
              var b := Transfer(a.state, second);
              if b.result.Err? then Progress(b.state, Err(b.result.error)) else RunLegs(b.state, fee)
  {
    var legs := [first, second] + fee;
    assert legs[1..] == [second] + fee && ([second] + fee)[1..] == fee;
  }

  /**
    After the liquidity check a settlement goes through exactly when a seller's fee is
    below the notional; a buy always does. It then moves exactly what was promised.
   */
  lemma SettleSucceedsExactly(s: State, o: Order)
    requires Admitted(s, o)
    ensures Settle(s, o).result.Ok? <==> (o.side == Sell ==> Value(o.fee) < Value(o.notional))
    ensures Settle(s, o).result.Err? ==>
              Settle(s, o) == Progress(Transfer(s, Legs(o)[0]).state, Err(AmountNotPositive))
  {
    var first, second := LegsOf(o);
    assert Legs(o)[0] == first && Legs(o)[1] == second;
    RunTwoAndFee(s, first, second, FeeLeg(o));
    FirstLegGoesThrough(s, o);
    SecondLegExactly(s, o);
    if o.side == Sell ==> Value(o.fee) < Value(o.notional) {
      if !IsZero(o.fee) {
        FeeLegGoesThrough(s, o);
        assert FeeLeg(o)[1..] == [];
      }
    } else {
      NothingLeftToPay(o);
    }
  }

  lemma NothingLeftToPay(o: Order)
    requires o.side == Sell && Value(o.fee) >= Value(o.notional)
    ensures !Positive(Legs(o)[1].amount)
  {
  }

  /** Every account's available part of every asset changes by exactly the promised amount. */
  lemma SettlementMovesWhatWasPromised(s: State, o: Order, a: AccountId, x: AssetId)
    requires Admitted(s, o) && (o.side == Sell ==> Value(o.fee) < Value(o.notional)) && ':' !in a
    ensures Settle(s, o).result.Ok?
    ensures Available(Settle(s, o).state, a, x) == Available(s, a, x) + Promised(o, a, x)
  {
    SettleSucceedsExactly(s, o);
    RunLegsMoves(s, Legs(o), a, x);
    LegsKeepThePromise(o, a, x);
  }

  // ---- Crash and resume ----

  lemma {:induction false} RunAppliedLegs(s: State, legs: seq<Leg>)
    requires forall i :: 0 <= i < |legs| ==> Applied(s, legs[i].op)
    ensures RunLegs(s, legs) == Progress(s, Ok(()))
    decreases |legs|
  {
    if |legs| > 0 {
      RunAppliedLegs(s, legs[1..]);
    }
  }

  lemma {:induction false} RunConcatenated(s: State, a: seq<Leg>, b: seq<Leg>)
    ensures RunLegs(s, a + b) == if RunLegs(s, a).result.Err? then RunLegs(s, a) else RunLegs(RunLegs(s, a).state, b)
    decreases |a|
  {
    if |a| == 0 {
      assert a + b == b;
    } else {
      assert (a + b)[1..] == a[1..] + b;
      if Transfer(s, a[0]).result.Ok? {
        RunConcatenated(Transfer(s, a[0]).state, a[1..], b);
      }
    }
  }

  lemma {:induction false} LegsAreRecorded(s: State, legs: seq<Leg>)
    requires RunLegs(s, legs).result.Ok?
    ensures forall i :: 0 <= i < |legs| ==> Applied(RunLegs(s, legs).state, legs[i].op)
    ensures Extends(s, RunLegs(s, legs).state)
    decreases |legs|
  {
    if |legs| > 0 {
      var leg, s1 := legs[0], Transfer(s, legs[0]).state;
      MoveExtends(s, TransferKind, leg.op, leg.from, leg.to, leg.assetId, leg.amount);
      LegsAreRecorded(s1, legs[1..]);
      ExtendsTransitive(s, s1, RunLegs(s, legs).state);
      forall i | 0 <= i < |legs|
        ensures Applied(RunLegs(s, legs).state, legs[i].op)
      {
        if i > 0 {
          assert legs[i] == legs[1..][i - 1];
        }
      }
    }
  }

  /**
    After a crash behind any k legs, and whatever other ledger calls came in between,
    running the whole settlement again performs exactly the legs that were missing.
   */
  lemma ResumeRunsTheRest(s: State, legs: seq<Leg>, k: nat, between: seq<Command>)
    requires k <= |legs| && RunLegs(s, legs[..k]).result.Ok?
    ensures var later := Run(RunLegs(s, legs[..k]).state, between);
            RunLegs(later, legs) == RunLegs(later, legs[k..])
  {
    var crashed := RunLegs(s, legs[..k]).state;
    var later := Run(crashed, between);
    LegsAreRecorded(s, legs[..k]);
    RunExtends(crashed, between);
    RunAppliedLegs(later, legs[..k]);
    RunConcatenated(later, legs[..k], legs[k..]);
    assert legs[..k] + legs[k..] == legs;
  }

  /** With nothing in between, crash and resume give the very ledger of an uninterrupted run. */
  lemma ResumeIsUninterrupted(s: State, legs: seq<Leg>, k: nat)
    requires k <= |legs| && RunLegs(s, legs).result.Ok?
    ensures RunLegs(s, legs[..k]).result.Ok?
    ensures RunLegs(RunLegs(s, legs[..k]).state, legs) == RunLegs(s, legs)
  {
    RunConcatenated(s, legs[..k], legs[k..]);
    assert legs[..k] + legs[k..] == legs;
    ResumeAtOnce(s, legs, k);
  }

  /** And a finished settlement may be run again any number of times: it changes nothing. */
  lemma RerunChangesNothing(s: State, legs: seq<Leg>)
    requires RunLegs(s, legs).result.Ok?
    ensures RunLegs(RunLegs(s, legs).state, legs) == RunLegs(s, legs)
  {
    LegsAreRecorded(s, legs);
    RunAppliedLegs(RunLegs(s, legs).state, legs);
    assert RunLegs(s, legs).result.value == ();
  }

  lemma ResumeAtOnce(s: State, legs: seq<Leg>, k: nat)
    requires k <= |legs| && RunLegs(s, legs[..k]).result.Ok?
    ensures RunLegs(RunLegs(s, legs[..k]).state, legs) == RunLegs(RunLegs(s, legs[..k]).state, legs[k..])
  {
    ResumeRunsTheRest(s, legs, k, []);
  }

  /** The three ids of one order differ from each other and from those of every other order. */
  lemma LegIdsDistinct(o1: Order, o2: Order, i: nat, j: nat)
    requires i < |Legs(o1)| && j < |Legs(o2)|
    ensures Legs(o1)[i].op == Legs(o2)[j].op ==> o1.orderId == o2.orderId
    ensures o1 == o2 && i != j ==> Legs(o1)[i].op != Legs(o2)[j].op
  {
    OperationIdsInjective(o1.orderId, LegName(o1, i), o2.orderId, LegName(o2, j));
  }

  ghost function LegName(o: Order, i: nat): string
    requires i < |Legs(o)|
    ensures ':' !in LegName(o, i) && Legs(o)[i].op == OperationOf(o.orderId, LegName(o, i))
  {
    if i == 2 then "fee" else if (i == 0) == (o.side == Buy) then "notional" else "asset"
  }

  // ---- The liquidity check, repeated ----

  lemma {:induction false} LegsKeepKeys(s: State, legs: seq<Leg>)
    requires FreshLegs(s, legs) && RunLegs(s, legs).result.Ok?
    ensures RunLegs(s, legs).state.balances.Keys == s.balances.Keys
    decreases |legs|
  {
    if |legs| > 0 {
      LegSucceedsExactly(s, legs[0]);
      LegsKeepKeys(Transfer(s, legs[0]).state, legs[1..]);
    }
  }

  ghost predicate AllOpen(s: State, o: Order) {
    && Open(s, o.user, o.base) && Open(s, o.user, o.quote) && Open(s, o.liquidity, o.base) && Open(s, o.liquidity, o.quote)
    && (!IsZero(o.fee) ==> Open(s, o.feeAccount, o.quote))
  }

  ghost function Paid(o: Order): AssetId {
    if o.side == Buy then o.quote else o.base
  }

  ghost function Given(o: Order): AssetId {
    if o.side == Buy then o.base else o.quote
  }

  /**
    Every answer of the check, for every state and order: all balances the settlement
    will touch must be open, the user must have what it pays, a buyer the fee as well,
    and the liquidity account what it gives, a seller's notional before the fee; named
    in this order.
   */
  lemma CheckAnswersExactly(s: State, o: Order)
    ensures var q, n, f := Value(o.quantity), Value(o.notional), Value(o.fee);
            var open := && Open(s, o.user, o.base) && Open(s, o.user, o.quote)
                        && Open(s, o.liquidity, o.base) && Open(s, o.liquidity, o.quote)
                        && (f != 0.0 ==> Open(s, o.feeAccount, o.quote));
            && (EnsureLiquidity(s, o) == Err(AccountNotReady) <==> !open)
            && (open && o.side == Buy ==>
                  EnsureLiquidity(s, o) == if Available(s, o.user, o.quote) < n + f then Err(FundsUnavailable)
                                           else if Available(s, o.liquidity, o.base) < q then Err(LiquidityUnavailable)
                                           else Ok(()))
            && (open && o.side == Sell ==>
                  EnsureLiquidity(s, o) == if Available(s, o.user, o.base) < q then Err(FundsUnavailable)
                                           else if Available(s, o.liquidity, o.quote) < n then Err(LiquidityUnavailable)
                                           else Ok(()))
  {
    hide Ratio;
  }

  /** Once all balances are open the check compares two available parts. */
  lemma CheckComparesFunds(s: State, o: Order)
    requires AllOpen(s, o)
    ensures var funds := Available(s, o.user, Paid(o)) >= Value(UserDebit(o));
            var liquidity := Available(s, o.liquidity, Given(o)) >= Value(LiquidityDebit(o));
            EnsureLiquidity(s, o)
            == if !funds then Err(FundsUnavailable) else if !liquidity then Err(LiquidityUnavailable) else Ok(())
  {
  }

  /** Counts only where the instrument trades an asset against itself. */
  ghost function IfSame(o: Order, v: real): real {
    if o.base == o.quote then v else 0.0
  }

  /** What the user must have had before the settlement for the check to pass again behind k legs. */
  ghost predicate UserFundsTwice(s: State, o: Order, k: nat) {
    var q, n, f := Value(o.quantity), Value(o.notional), Value(o.fee);
    if o.side == Buy then Available(s, o.user, o.quote) + (if k == 2 then IfSame(o, q) else 0.0) >= 2.0 * (n + f)
    else Available(s, o.user, o.base) + (if k == 2 then IfSame(o, n - f) else 0.0) >= 2.0 * q
  }

  /** And the liquidity account: nothing more behind one leg. */
  ghost predicate LiquidityTwice(s: State, o: Order, k: nat) {
    var q, n, f := Value(o.quantity), Value(o.notional), Value(o.fee);
    k == 2 ==>
      if o.side == Buy then Available(s, o.liquidity, o.base) + IfSame(o, n + f) >= 2.0 * q
      else Available(s, o.liquidity, o.quote) + IfSame(o, q) >= 2.0 * n - f
  }

  /** What the first two legs do to the parts the check looks at. */
  lemma LegsShift(o: Order, first: Leg, second: Leg)
    requires o.user != o.liquidity && first == Legs(o)[0] && second == Legs(o)[1]
    ensures var q, n, f := Value(o.quantity), Value(o.notional), Value(o.fee);
            && LegDelta(first, o.user, Paid(o)) == (if o.side == Buy then -(n + f) else -q)
            && LegDelta(first, o.liquidity, Given(o)) == (if o.side == Buy then IfSame(o, n + f) else IfSame(o, q))
            && LegDelta(second, o.user, Paid(o)) == (if o.side == Buy then IfSame(o, q) else IfSame(o, n - f))
            && LegDelta(second, o.liquidity, Given(o)) == (if o.side == Buy then -q else -(n - f))
  {
    hide Ratio;
    var f, g := LegsOf(o);
  }

  lemma FirstLegsShift(o: Order, k: nat)
    requires o.user != o.liquidity && 1 <= k <= 2
    ensures var q, n, f := Value(o.quantity), Value(o.notional), Value(o.fee);
            && SumDelta(Legs(o)[..k], o.user, Paid(o))
               == (if o.side == Buy then -(n + f) + (if k == 2 then IfSame(o, q) else 0.0)
                   else -q + (if k == 2 then IfSame(o, n - f) else 0.0))
            && SumDelta(Legs(o)[..k], o.liquidity, Given(o))
               == (if o.side == Buy then IfSame(o, n + f) - (if k == 2 then q else 0.0)
                   else IfSame(o, q) - (if k == 2 then n - f else 0.0))
  {
    hide Legs, LegDelta, SumDelta, IfSame, Value;
    var first, second := Legs(o)[0], Legs(o)[1];
    LegsShift(o, first, second);
    SumOfPrefix(Legs(o), k, o.user, Paid(o));
    SumOfPrefix(Legs(o), k, o.liquidity, Given(o));
  }

  lemma SumOfPrefix(legs: seq<Leg>, k: nat, a: AccountId, x: AssetId)
    requires 1 <= k <= 2 <= |legs|
    ensures SumDelta(legs[..k], a, x) == LegDelta(legs[0], a, x) + if k == 2 then LegDelta(legs[1], a, x) else 0.0
  {
    hide LegDelta;
    if k == 1 {
      assert legs[..k] == [legs[0]];
      SumOfOne(legs[0], a, x);
    } else {
      assert legs[..k] == [legs[0], legs[1]] + [];
      SumOfTwoAndRest(legs[0], legs[1], [], a, x);
    }
  }

  lemma PrefixGoesThrough(s: State, o: Order, k: nat)
    requires Admitted(s, o) && 1 <= k <= 2 && (k == 2 && o.side == Sell ==> Value(o.fee) < Value(o.notional))
    ensures FreshLegs(s, Legs(o)[..k]) && RunLegs(s, Legs(o)[..k]).result.Ok?
  {
    hide EnsureLiquidity, Ratio, SoundBalances, Legs, Move;
    var first, second := LegsOf(o);
    assert Legs(o)[0] == first && Legs(o)[1] == second;
    FirstLegGoesThrough(s, o);
    SecondLegExactly(s, o);
    var s1 := Transfer(s, first).state;
    if k == 1 {
      assert Legs(o)[..k] == [first] && [first][1..] == [];
      assert RunLegs(s1, []) == Progress(s1, Ok(()));
    } else {
      assert Legs(o)[..k] == [first, second] + [];
      RunTwoAndFee(s, first, second, []);
    }
  }

  /**
    `execute` repeats the liquidity check before it settles again. Behind one or two
    legs of an admitted order, of either side, it passes again exactly when the user
    had what it pays twice over, and behind two legs the liquidity account as well.
   */
  lemma RetryChecksFundsTwice(s: State, o: Order, k: nat)
    requires Admitted(s, o) && 1 <= k <= 2 && (k == 2 && o.side == Sell ==> Value(o.fee) < Value(o.notional))
    ensures var stopped := RunLegs(s, Legs(o)[..k]);
            && stopped.result.Ok?
            && EnsureLiquidity(stopped.state, o)
               == if !UserFundsTwice(s, o, k) then Err(FundsUnavailable)
                  else if !LiquidityTwice(s, o, k) then Err(LiquidityUnavailable) else Ok(())
  {
    hide EnsureLiquidity, Legs, RunLegs, LegDelta, SumDelta, Ratio;
    CheckMeansFunds(s, o);
    PrefixGoesThrough(s, o, k);
    var legs := Legs(o)[..k];
    var s' := RunLegs(s, legs).state;
    LegsKeepKeys(s, legs);
    FirstLegsShift(o, k);
    RunLegsMoves(s, legs, o.user, Paid(o));
    RunLegsMoves(s, legs, o.liquidity, Given(o));
    CheckComparesFunds(s', o);
  }

  // ---- From price, quantity and rate to the ledger ----

  /**
    An order whose notional and fee `execute` computes from quantity, price and rate,
    once admitted, settles in full as long as more than half a unit of the eighteenth
    digit is left after the fee: the base asset moves by quantity, the quote asset by
    quantity times price, and a fee by quantity times price times rate to the nearest
    unit of that digit.
   */
  lemma PricedOrderSettles(s: State, o: Order, price: Decimal, rate: Decimal, a: AccountId, x: AssetId)
    requires o.notional == Notional(o.quantity, price) && o.fee == Fee(o.notional, rate)
    requires Value(o.quantity) > 0.0 && Value(price) > 0.0 && 0.0 <= Value(rate) < 1.0
    requires EnsureLiquidity(s, o).Ok? && SoundBalances(s.balances) && FreshLegs(s, Legs(o)) && ':' !in a
    requires ':' !in o.user && ':' !in o.liquidity && ':' !in o.feeAccount
    requires o.user != o.liquidity && (!IsZero(o.fee) ==> o.feeAccount != o.liquidity)
    requires LeftAfterFee(o.notional, rate) > HALF
    ensures Settle(s, o).result.Ok?
    ensures ProductOf(o.notional, o.quantity, price) && NearestFee(o.fee, o.notional, rate)
    ensures Available(Settle(s, o).state, a, x) == Available(s, a, x) + Promised(o, a, x)
  {
    hide Value, Ratio, EnsureLiquidity, Legs, SoundBalances, FreshLegs, Fee, Notional, LeftAfterFee, NearestFee, ProductOf;
    NotionalIsPositive(o.quantity, price);
    FeeInRange(o.notional, rate);
    FeeIsExact(o.notional, rate);
    SettlementMovesWhatWasPromised(s, o, a, x);
  }

  lemma NotionalIsPositive(quantity: Decimal, price: Decimal)
    requires Value(quantity) > 0.0 && Value(price) > 0.0
    ensures ProductOf(Notional(quantity, price), quantity, price) && Value(Notional(quantity, price)) > 0.0
  {
    hide Value;
    NotionalIsExact(quantity, price);
    PositiveProduct(Value(quantity), Value(price));
  }

  lemma FeeInRange(notional: Decimal, rate: Decimal)
    requires Value(notional) > 0.0 && 0.0 <= Value(rate) < 1.0 && LeftAfterFee(notional, rate) > HALF
    ensures 0.0 <= Value(Fee(notional, rate)) < Value(notional)
  {
    hide Value, Fee, LeftAfterFee, UnitsAbove;
    FeeBelowNotional(notional, rate);
  }

  lemma PositiveProduct(a: real, b: real)
    requires a > 0.0 && b > 0.0
    ensures a * b > 0.0
  {
  }
}
