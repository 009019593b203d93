/** Results of operations that the source reports by throwing. */
module Results {
  datatype Result<+T, +E> = Ok(value: T) | Err(error: E)
}

/**
  An account's holding of one asset (apps/backend/src/modules/ledger/domain/balance.ts).
  Every operation returns a new Balance or throws.
 */
module Balances {
  import opened Decimals
  import opened Results

  datatype LedgerError =
    | AmountNotPositive | InsufficientAvailable | InsufficientReserved
    | BalanceMissing | BalanceExists | AccountMissing | AccountExists | AssetMissing | AssetExists
    | OriginalMissing | NotBalanced

  datatype Balance = Balance(available: Decimal, reserved: Decimal)

  const EMPTY: Balance := Balance(ZERO, ZERO)

  predicate Positive(amount: Decimal)
    ensures Positive(amount) <==> Value(amount) > 0.0
  {
    !IsNegative(amount) && !IsZero(amount)
  }

  /** What every stored balance satisfies. */
  ghost predicate Sound(b: Balance) {
    && Normal(b.available) && Normal(b.reserved)
    && Value(b.available) >= 0.0 && Value(b.reserved) >= 0.0
  }

  /** Everything the account owns, available or reserved. */
  ghost function Holding(b: Balance): real {
    Value(b.available) + Value(b.reserved)
  }

  function Credit(b: Balance, amount: Decimal): (r: Result<Balance, LedgerError>)
    ensures r.Ok? <==> Value(amount) > 0.0
    ensures r.Ok? ==> Value(r.value.available) == Value(b.available) + Value(amount) && r.value.reserved == b.reserved
    ensures r.Ok? && Sound(b) ==> Sound(r.value)
  {
    if !Positive(amount) then Err(AmountNotPositive)
    else Ok(Balance(Add(b.available, amount), b.reserved))
  }

  function Debit(b: Balance, amount: Decimal): (r: Result<Balance, LedgerError>)
    ensures r.Ok? <==> 0.0 < Value(amount) <= Value(b.available)
    ensures r.Ok? ==> Value(r.value.available) == Value(b.available) - Value(amount) && r.value.reserved == b.reserved
    ensures r.Ok? && Sound(b) ==> Sound(r.value)
  {
    if !Positive(amount) then Err(AmountNotPositive)
    else
      var available := Subtract(b.available, amount);
      if IsNegative(available) then Err(InsufficientAvailable)
      else Ok(Balance(available, b.reserved))
  }

  function Reserve(b: Balance, amount: Decimal): (r: Result<Balance, LedgerError>)
    ensures r.Ok? <==> 0.0 < Value(amount) <= Value(b.available)
    ensures r.Ok? ==> Value(r.value.available) == Value(b.available) - Value(amount)
                      && Value(r.value.reserved) == Value(b.reserved) + Value(amount)
    ensures r.Ok? && Sound(b) ==> Sound(r.value)
  {
    if !Positive(amount) then Err(AmountNotPositive)
    else
      var debited := Debit(b, amount);
      if debited.Err? then debited
      else Ok(Balance(debited.value.available, Add(b.reserved, amount)))
  }

  function Release(b: Balance, amount: Decimal): (r: Result<Balance, LedgerError>)
    ensures r.Ok? <==> 0.0 < Value(amount) <= Value(b.reserved)
    ensures r.Ok? ==> Value(r.value.available) == Value(b.available) + Value(amount)
                      && Value(r.value.reserved) == Value(b.reserved) - Value(amount)
    ensures r.Ok? && Sound(b) ==> Sound(r.value)
  {
    if !Positive(amount) then Err(AmountNotPositive)
    else
      var reserved := Subtract(b.reserved, amount);
      if IsNegative(reserved) then Err(InsufficientReserved)
      else Ok(Balance(Add(b.available, amount), reserved))
  }

  function DebitReserved(b: Balance, amount: Decimal): (r: Result<Balance, LedgerError>)
    ensures r.Ok? <==> 0.0 < Value(amount) <= Value(b.reserved)
    ensures r.Ok? ==> Value(r.value.reserved) == Value(b.reserved) - Value(amount) && r.value.available == b.available
    ensures r.Ok? && Sound(b) ==> Sound(r.value)
  {
    if !Positive(amount) then Err(AmountNotPositive)
    else
      var reserved := Subtract(b.reserved, amount);
      if IsNegative(reserved) then Err(InsufficientReserved)
      else Ok(Balance(b.available, reserved))
  }
}
