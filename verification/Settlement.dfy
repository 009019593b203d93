/**
  Real-time execution against the liquidity account: the price and fee arithmetic,
  the liquidity check and the settlement legs
  (apps/backend/src/modules/realtime-market/application/realtime-execution.service.ts).
 */
module Settlement {
  import opened Decimals
  import opened Results
  import opened Balances
  import opened Postings
  import opened LedgerSpec
  import opened LedgerKeys
  import opened LedgerLaws
  import opened LedgerMoney
  import opened LedgerUndo

  datatype Side = Buy | Sell

  datatype Order = Order(
    orderId: string, user: AccountId, side: Side, base: AssetId, quote: AssetId,
    quantity: Decimal, notional: Decimal, fee: Decimal,
    liquidity: AccountId, feeAccount: AccountId)

  datatype Leg = Leg(op: OperationId, from: AccountId, to: AccountId, assetId: AssetId, amount: Decimal)

  datatype LiquidityError = AccountNotReady | FundsUnavailable | LiquidityUnavailable

  /** Where a sequence of legs got to, and the error that stopped it if one did. */
  datatype Progress = Progress(state: State, result: Result<(), LedgerError>)

  const FEE_SCALE := 18

  // ---- Arithmetic of `execute` ----

  function Notional(quantity: Decimal, price: Decimal): Decimal {
    Multiply(quantity, price)
  }

  function Fee(notional: Decimal, rate: Decimal): Decimal {
    Round(Multiply(notional, rate), FEE_SCALE).value
  }

  // ---- Legs of `settle` ----

  function OperationOf(orderId: string, leg: string): OperationId {
    "rt:" + orderId + ":" + leg
  }

  function FeeLeg(o: Order): seq<Leg> {
    if IsZero(o.fee) then []
    else [Leg(OperationOf(o.orderId, "fee"), o.liquidity, o.feeAccount, o.quote, o.fee)]
  }

  function Legs(o: Order): (legs: seq<Leg>)
    ensures 2 <= |legs| <= 3
  {
    match o.side
    case Buy =>
      [ Leg(OperationOf(o.orderId, "notional"), o.user, o.liquidity, o.quote, Add(o.notional, o.fee)),
        Leg(OperationOf(o.orderId, "asset"), o.liquidity, o.user, o.base, o.quantity) ] + FeeLeg(o)
    case Sell =>
      [ Leg(OperationOf(o.orderId, "asset"), o.user, o.liquidity, o.base, o.quantity),
        Leg(OperationOf(o.orderId, "notional"), o.liquidity, o.user, o.quote, Subtract(o.notional, o.fee)) ] + FeeLeg(o)
  }

  function Transfer(s: State, leg: Leg): Step {
    Move(s, TransferKind, leg.op, leg.from, leg.to, leg.assetId, leg.amount)
  }

  function RunLegs(s: State, legs: seq<Leg>): Progress
    decreases |legs|
  {
    if |legs| == 0 then Progress(s, Ok(()))
    else
      var first := Transfer(s, legs[0]);
      if first.result.Err? then Progress(first.state, Err(first.result.error))
      else RunLegs(first.state, legs[1..])
  }

  function Settle(s: State, o: Order): Progress {
    RunLegs(s, Legs(o))
  }

  // ---- `ensureLiquidity` ----

  function UserDebit(o: Order): Decimal {
    if o.side == Buy then Add(o.notional, o.fee) else o.quantity
  }

  function LiquidityDebit(o: Order): Decimal {
    if o.side == Buy then o.quantity else o.notional
  }

  function EnsureLiquidity(s: State, o: Order): Result<(), LiquidityError> {
    var userBase, userQuote := GetBalance(s, o.user, o.base), GetBalance(s, o.user, o.quote);
    var poolBase, poolQuote := GetBalance(s, o.liquidity, o.base), GetBalance(s, o.liquidity, o.quote);
    if userBase.Err? || userQuote.Err? || poolBase.Err? || poolQuote.Err? then Err(AccountNotReady)
    else if !IsZero(o.fee) && GetBalance(s, o.feeAccount, o.quote).Err? then Err(AccountNotReady)
    else
      var user := if o.side == Buy then userQuote.value else userBase.value;
      var pool := if o.side == Buy then poolBase.value else poolQuote.value;
      if Compare(user.available, UserDebit(o)) < 0 then Err(FundsUnavailable)
      else if Compare(pool.available, LiquidityDebit(o)) < 0 then Err(LiquidityUnavailable)
      else Ok(())
  }

  // ---- One leg ----

  ghost function Available(s: State, a: AccountId, x: AssetId): real {
    Value(BalanceAt(s.balances, a, x).available)
  }

  ghost predicate Open(s: State, a: AccountId, x: AssetId) {
    Key(a, x) in s.balances
  }

  ghost predicate ColonFreeLeg(leg: Leg) {
    ':' !in leg.from && ':' !in leg.to && leg.from != leg.to
  }

  ghost function LegDelta(leg: Leg, a: AccountId, x: AssetId): real {
    if leg.assetId != x then 0.0
    else (if leg.to == a then Value(leg.amount) else 0.0) - (if leg.from == a then Value(leg.amount) else 0.0)
  }

  /** A fresh leg goes through exactly when both balances are open and the payer has a positive amount. */
  lemma LegSucceedsExactly(s: State, leg: Leg)
    requires !Applied(s, leg.op)
    ensures Transfer(s, leg).result.Ok? <==>
            Open(s, leg.from, leg.assetId) && Open(s, leg.to, leg.assetId)
            && 0.0 < Value(leg.amount) <= Available(s, leg.from, leg.assetId)
    ensures Transfer(s, leg).result.Ok? ==>
              var s' := Transfer(s, leg).state;
              s'.balances.Keys == s.balances.Keys && s'.operations.Keys == s.operations.Keys + {leg.op}
  {
  }

  /** What one leg does to any available part. */
  lemma LegMoves(s: State, leg: Leg, a: AccountId, x: AssetId)
    requires !Applied(s, leg.op) && Transfer(s, leg).result.Ok? && ColonFreeLeg(leg) && ':' !in a
    ensures Available(Transfer(s, leg).state, a, x) == Available(s, a, x) + LegDelta(leg, a, x)
  {
    KeyInjective(leg.from, leg.assetId, a, x);
    KeyInjective(leg.to, leg.assetId, a, x);
    KeyWithinAsset(leg.from, leg.to, leg.assetId);
  }

  // ---- Operation ids ----

  /** The operation id determines the order and the leg. */
  lemma OperationIdsInjective(o1: string, l1: string, o2: string, l2: string)
    requires ':' !in l1 && ':' !in l2
    ensures OperationOf(o1, l1) == OperationOf(o2, l2) <==> o1 == o2 && l1 == l2
  {
    if OperationOf(o1, l1) == OperationOf(o2, l2) {
      var k := OperationOf(o1, l1);
      LastColon(o1, l1, |o2| + 3);
      LastColon(o2, l2, |o1| + 3);
      assert |o1| == |o2|;
      assert k[3..|o1| + 3] == o1 && k[3..|o2| + 3] == o2;
      assert k[|o1| + 4..] == l1 && k[|o2| + 4..] == l2;
    }
  }

  lemma LastColon(o: string, l: string, i: nat)
    requires ':' !in l
    ensures var k := OperationOf(o, l);
            |k| == |o| + 4 + |l| && k[|o| + 3] == ':' && (|o| + 3 < i < |k| ==> k[i] != ':')
  {
    var k := OperationOf(o, l);
    if |o| + 3 < i < |k| {
      assert k[i] == l[i - |o| - 4];
    }
  }
}
