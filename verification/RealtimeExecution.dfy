/**
  The settlement steps of RealtimeExecutionService as it issues them, one ledger
  call after the other (realtime-execution.service.ts:124-209).
 */
module RealtimeExecution {
  import opened Decimals
  import opened Results
  import opened Balances
  import opened LedgerSpec
  import opened LedgerAggregate
  import opened Settlement
  import SettlementLaws

  class RealtimeExecutionService {
    const ledger: Ledger

    constructor (ledger: Ledger)
      ensures this.ledger == ledger
    {
      this.ledger := ledger;
    }

    method EnsureLiquidity(o: Order) returns (r: Result<(), LiquidityError>)
      ensures r == Settlement.EnsureLiquidity(ledger.Contents(), o)
    {
      var userDebit := if o.side == Buy then Add(o.notional, o.fee) else o.quantity;
      var liquidityDebit := if o.side == Buy then o.quantity else o.notional;
      var userBase, userQuote := ledger.Fetch(o.user, o.base), ledger.Fetch(o.user, o.quote);
      var poolBase, poolQuote := ledger.Fetch(o.liquidity, o.base), ledger.Fetch(o.liquidity, o.quote);
      if userBase.Err? || userQuote.Err? || poolBase.Err? || poolQuote.Err? {
        return Err(AccountNotReady);
      }
      if !IsZero(o.fee) {
        var feeBalance := ledger.Fetch(o.feeAccount, o.quote);
        if feeBalance.Err? {
          return Err(AccountNotReady);
        }
      }
      var userBalance := if o.side == Buy then userQuote.value else userBase.value;
      var poolBalance := if o.side == Buy then poolBase.value else poolQuote.value;
      if Compare(userBalance.available, userDebit) < 0 {
        return Err(FundsUnavailable);
      }
      if Compare(poolBalance.available, liquidityDebit) < 0 {
        return Err(LiquidityUnavailable);
      }
      r := Ok(());
    }

    /** Stops at the first transfer that throws, leaving the legs before it applied. */
    method Settle(o: Order) returns (r: Result<(), LedgerError>)
      requires ledger.Valid()
      modifies ledger
      ensures ledger.Valid()
      ensures Progress(ledger.Contents(), r) == Settlement.Settle(old(ledger.Contents()), o)
    {
      var legs := Settlement.Legs(o);
      TwoOrThreeLegs(old(ledger.Contents()), o);
      var user, pool := o.user, o.liquidity;
      if o.side == Buy {
        var first := ledger.Transfer(OperationOf(o.orderId, "notional"), user, pool, o.quote, Add(o.notional, o.fee));
        if first.Err? {
          return Err(first.error);
        }
        var second := ledger.Transfer(OperationOf(o.orderId, "asset"), pool, user, o.base, o.quantity);
        if second.Err? {
          return Err(second.error);
        }
      } else {
        var first := ledger.Transfer(OperationOf(o.orderId, "asset"), user, pool, o.base, o.quantity);
        if first.Err? {
          return Err(first.error);
        }
        var second := ledger.Transfer(OperationOf(o.orderId, "notional"), pool, user, o.quote, Subtract(o.notional, o.fee));
        if second.Err? {
          return Err(second.error);
        }
      }
      r := SettleFee(o);
    }

    method SettleFee(o: Order) returns (r: Result<(), LedgerError>)
      requires ledger.Valid()
      modifies ledger
      ensures ledger.Valid()
      ensures Progress(ledger.Contents(), r) == RunLegs(old(ledger.Contents()), FeeLeg(o))
    {
      if !IsZero(o.fee) {
        var third := ledger.Transfer(OperationOf(o.orderId, "fee"), o.liquidity, o.feeAccount, o.quote, o.fee);
        assert FeeLeg(o)[1..] == [];
        if third.Err? {
          return Err(third.error);
        }
      }
      r := Ok(());
    }
  }

  lemma TwoOrThreeLegs(s: State, o: Order)
    ensures var a := Transfer(s, Legs(o)[0]);
            var b := Transfer(a.state, Legs(o)[1]);
            Settlement.Settle(s, o) ==
            if a.result.Err? then Progress(a.state, Err(a.result.error))
            else if b.result.Err? then Progress(b.state, Err(b.result.error))
            else RunLegs(b.state, FeeLeg(o))
  {
    var legs := Legs(o);
    assert legs == [legs[0], legs[1]] + FeeLeg(o);
    SettlementLaws.RunTwoAndFee(s, legs[0], legs[1], FeeLeg(o));
  }
}
