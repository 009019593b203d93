/**
  The in-memory ledger aggregate (apps/backend/src/modules/ledger/domain/ledger.ts)
  in its own imperative form. Each method is proved to take exactly the step that
  LedgerSpec states, so a call that throws leaves every field as it was.
 */
module LedgerAggregate {
  import opened Decimals
  import opened Results
  import opened Balances
  import opened Postings
  import opened LedgerSpec
  import LedgerLaws
  import LedgerKeys

  /** The catalogue lists every asset under its own id. */
  ghost predicate ById(assets: map<AssetId, Asset>) {
    forall id :: id in assets ==> assets[id].id == id
  }

  class Ledger {
    var assets: map<AssetId, Asset>
    var accounts: map<AccountId, string>
    var balances: map<string, Balance>
    // The keys of `balances` in insertion order, the order in which a JavaScript Map iterates.
    var balanceKeys: seq<string>
    var postings: seq<Posting>
    var operations: map<OperationId, OperationResult>
    var nextPostingNumber: nat
    ghost var openings: seq<(AccountId, AssetId)>
    ghost var history: seq<Entry>

    ghost function Contents(): State
      reads this
    {
      State(assets, accounts, balances, openings, postings, operations, nextPostingNumber, history)
    }

    ghost predicate Valid()
      reads this
    {
      && Consistent(Contents())
      && balanceKeys == LedgerKeys.KeysOf(openings)
      && ById(assets)
    }

    constructor ()
      ensures Valid() && Contents() == INITIAL && fresh(this)
    {
      assets, accounts, balances, balanceKeys := map[], map[], map[], [];
      postings, operations, nextPostingNumber := [], map[], 1;
      openings, history := [], [];
    }

    // ---- Private helpers ----

    function Fetch(account: AccountId, asset: AssetId): (r: Result<Balance, LedgerError>)
      reads this
      ensures r == GetBalance(Contents(), account, asset)
    {
      var key := Key(account, asset);
      if key in balances then Ok(balances[key]) else Err(BalanceMissing)
    }

    method CreatePosting(op: OperationId, account: AccountId, asset: AssetId, amount: Decimal, direction: Direction)
      returns (p: Posting)
      modifies `nextPostingNumber
      ensures p == Posting(PostingId(old(nextPostingNumber)), op, account, asset, amount, direction)
      ensures nextPostingNumber == old(nextPostingNumber) + 1
    {
      p := Posting(PostingId(nextPostingNumber), op, account, asset, amount, direction);
      nextPostingNumber := nextPostingNumber + 1;
    }

    /** `recordBalancedMarker`: the batch against the system account. Its balance assertion never fires. */
    method RecordBalancedMarker(op: OperationId, account: AccountId, asset: AssetId, amount: Decimal, direction: Direction,
                                ghost kind: Kind)
      returns (r: OperationResult)
      modifies `postings, `operations, `nextPostingNumber, `history
      ensures LedgerSpec.Step(Contents(), Ok(r))
              == Record(old(Contents()), Entry(kind, op, account, SYSTEM, asset, amount, direction))
    {
      var accountPosting := CreatePosting(op, account, asset, amount, direction);
      var systemPosting := CreatePosting(op, SYSTEM, asset, amount, Opposite(direction));
      var balanced := AssertBalanced([accountPosting, systemPosting]);
      LedgerLaws.OppositePairBalances(accountPosting, systemPosting);
      assert balanced;
      postings := postings + [accountPosting, systemPosting];
      r := OperationResult(op, [accountPosting.id, systemPosting.id]);
      operations := operations[op := r];
      history := history + [Entry(kind, op, account, SYSTEM, asset, amount, direction)];
    }

    // ---- Catalogue ----

    method RegisterAsset(asset: Asset) returns (r: Result<(), LedgerError>)
      requires Valid()
      modifies `assets
      ensures Valid() && (Contents(), r) == LedgerSpec.RegisterAsset(old(Contents()), asset)
      ensures r.Ok? <==> (asset.id in old(assets) ==> old(assets)[asset.id] == asset)
      ensures assets == if r.Ok? then old(assets)[asset.id := asset] else old(assets)
    {
      if asset.id in assets {
        var existing := assets[asset.id];
        if existing.code == asset.code && existing.scale == asset.scale {
          return Ok(());
        }
        return Err(AssetExists);
      }
      assets := assets[asset.id := asset];
      r := Ok(());
    }

    method RegisterAccount(account: AccountId, owner: string) returns (r: Result<(), LedgerError>)
      requires Valid()
      modifies `accounts
      ensures Valid() && (Contents(), r) == LedgerSpec.RegisterAccount(old(Contents()), account, owner)
      ensures r.Ok? <==> account !in old(accounts)
      ensures assets == old(assets) && accounts == if r.Ok? then old(accounts)[account := owner] else old(accounts)
    {
      if account in accounts {
        return Err(AccountExists);
      }
      accounts := accounts[account := owner];
      r := Ok(());
    }

    method OpenBalance(account: AccountId, asset: AssetId) returns (r: Result<(), LedgerError>)
      requires Valid()
      modifies `balances, `balanceKeys, `openings
      ensures Valid() && (Contents(), r) == LedgerSpec.OpenBalance(old(Contents()), account, asset)
    {
      if account !in accounts {
        return Err(AccountMissing);
      }
      if asset !in assets {
        return Err(AssetMissing);
      }
      var key := Key(account, asset);
      if key in balances {
        return Err(BalanceExists);
      }
      balances := balances[key := EMPTY];
      balanceKeys := balanceKeys + [key];
      LedgerKeys.KeysExtend(openings, (account, asset));
      openings := openings + [(account, asset)];
      r := Ok(());
    }

    /** `listBalanceAssetIds`: keys with the account's prefix, the prefix cut off, sorted. */
    method ListBalanceAssetIds(account: AccountId) returns (r: Result<seq<AssetId>, LedgerError>)
      requires Valid()
      ensures r == if account in accounts then Ok(LedgerKeys.Listing(openings, account)) else Err(AccountMissing)
    {
      if account !in accounts {
        return Err(AccountMissing);
      }
      var prefix := account + ":";
      var ids: seq<AssetId> := [];
      for i := 0 to |balanceKeys|
        invariant ids == LedgerKeys.WithPrefixCut(balanceKeys[..i], prefix)
      {
        LedgerKeys.CutOneMore(balanceKeys, i, prefix);
        if prefix <= balanceKeys[i] {
          ids := ids + [balanceKeys[i][|prefix|..]];
        }
      }
      assert balanceKeys[..|balanceKeys|] == balanceKeys;
      r := Ok(LedgerKeys.Sorted(ids));
    }

    // ---- Marker operations ----

    method Credit(op: OperationId, account: AccountId, asset: AssetId, amount: Decimal) returns (r: Outcome)
      requires Valid()
      modifies `balances, `postings, `operations, `nextPostingNumber, `history
      ensures Valid()
      ensures LedgerSpec.Step(Contents(), r) == Marker(old(Contents()), CreditKind, op, account, asset, amount)
    {
      hide Consistent, Balances.Credit;
      LedgerLaws.MarkerKeepsConsistent(Contents(), CreditKind, op, account, asset, amount);
      if op in operations {
        return Ok(operations[op]);
      }
      var before := Fetch(account, asset);
      if before.Err? {
        return Err(before.error);
      }
      var after := Balances.Credit(before.value, amount);
      if after.Err? {
        return Err(after.error);
      }
      balances := balances[Key(account, asset) := after.value];
      var receipt := RecordBalancedMarker(op, account, asset, amount, CreditSide, CreditKind);
      r := Ok(receipt);
    }

    method Debit(op: OperationId, account: AccountId, asset: AssetId, amount: Decimal) returns (r: Outcome)
      requires Valid()
      modifies `balances, `postings, `operations, `nextPostingNumber, `history
      ensures Valid()
      ensures LedgerSpec.Step(Contents(), r) == Marker(old(Contents()), DebitKind, op, account, asset, amount)
    {
      hide Consistent, Balances.Debit;
      LedgerLaws.MarkerKeepsConsistent(Contents(), DebitKind, op, account, asset, amount);
      if op in operations {
        return Ok(operations[op]);
      }
      var before := Fetch(account, asset);
      if before.Err? {
        return Err(before.error);
      }
      var after := Balances.Debit(before.value, amount);
      if after.Err? {
        return Err(after.error);
      }
      balances := balances[Key(account, asset) := after.value];
      var receipt := RecordBalancedMarker(op, account, asset, amount, DebitSide, DebitKind);
      r := Ok(receipt);
    }

    method Reserve(op: OperationId, account: AccountId, asset: AssetId, amount: Decimal) returns (r: Outcome)
      requires Valid()
      modifies `balances, `postings, `operations, `nextPostingNumber, `history
      ensures Valid()
      ensures LedgerSpec.Step(Contents(), r) == Marker(old(Contents()), ReserveKind, op, account, asset, amount)
    {
      hide Consistent, Balances.Reserve;
      LedgerLaws.MarkerKeepsConsistent(Contents(), ReserveKind, op, account, asset, amount);
      if op in operations {
        return Ok(operations[op]);
      }
      var before := Fetch(account, asset);
      if before.Err? {
        return Err(before.error);
      }
      var after := Balances.Reserve(before.value, amount);
      if after.Err? {
        return Err(after.error);
      }
      balances := balances[Key(account, asset) := after.value];
      var receipt := RecordBalancedMarker(op, account, asset, amount, DebitSide, ReserveKind);
      r := Ok(receipt);
    }

    method Release(op: OperationId, account: AccountId, asset: AssetId, amount: Decimal) returns (r: Outcome)
      requires Valid()
      modifies `balances, `postings, `operations, `nextPostingNumber, `history
      ensures Valid()
      ensures LedgerSpec.Step(Contents(), r) == Marker(old(Contents()), ReleaseKind, op, account, asset, amount)
    {
      hide Consistent, Balances.Release;
      LedgerLaws.MarkerKeepsConsistent(Contents(), ReleaseKind, op, account, asset, amount);
      if op in operations {
        return Ok(operations[op]);
      }
      var before := Fetch(account, asset);
      if before.Err? {
        return Err(before.error);
      }
      var after := Balances.Release(before.value, amount);
      if after.Err? {
        return Err(after.error);
      }
      balances := balances[Key(account, asset) := after.value];
      var receipt := RecordBalancedMarker(op, account, asset, amount, CreditSide, ReleaseKind);
      r := Ok(receipt);
    }

    // ---- Transfers ----

    method Transfer(op: OperationId, from: AccountId, to: AccountId, asset: AssetId, amount: Decimal) returns (r: Outcome)
      requires Valid()
      modifies `balances, `postings, `operations, `nextPostingNumber, `history
      ensures Valid()
      ensures LedgerSpec.Step(Contents(), r) == Move(old(Contents()), TransferKind, op, from, to, asset, amount)
    {
      hide Consistent, ById, Balances.Debit, Balances.Credit;
      LedgerLaws.MoveKeepsConsistent(Contents(), TransferKind, op, from, to, asset, amount);
      if op in operations {
        return Ok(operations[op]);
      }
      if IsNegative(amount) || IsZero(amount) {
        return Err(AmountNotPositive);
      }
      var source := Fetch(from, asset);
      if source.Err? {
        return Err(source.error);
      }
      var debited := Balances.Debit(source.value, amount);
      if debited.Err? {
        return Err(debited.error);
      }
      var target := Fetch(to, asset);
      if target.Err? {
        return Err(target.error);
      }
      var credited := Balances.Credit(target.value, amount);
      var receipt := CommitMove(op, from, to, asset, amount, debited.value, credited.value, TransferKind);
      r := Ok(receipt);
    }

    /** `settleReservedTransfer`: the debtor pays out of its reserved part. */
    method SettleReservedTransfer(op: OperationId, from: AccountId, to: AccountId, asset: AssetId, amount: Decimal)
      returns (r: Outcome)
      requires Valid()
      modifies `balances, `postings, `operations, `nextPostingNumber, `history
      ensures Valid()
      ensures LedgerSpec.Step(Contents(), r) == Move(old(Contents()), SettleKind, op, from, to, asset, amount)
    {
      hide Consistent, ById, Balances.DebitReserved, Balances.Credit;
      LedgerLaws.MoveKeepsConsistent(Contents(), SettleKind, op, from, to, asset, amount);
      if op in operations {
        return Ok(operations[op]);
      }
      if IsNegative(amount) || IsZero(amount) {
        return Err(AmountNotPositive);
      }
      var source := Fetch(from, asset);
      if source.Err? {
        return Err(source.error);
      }
      var debited := Balances.DebitReserved(source.value, amount);
      if debited.Err? {
        return Err(debited.error);
      }
      var target := Fetch(to, asset);
      if target.Err? {
        return Err(target.error);
      }
      var credited := Balances.Credit(target.value, amount);
      var receipt := CommitMove(op, from, to, asset, amount, debited.value, credited.value, SettleKind);
      r := Ok(receipt);
    }

    /** The common tail of both transfers: two postings, two balance writes in that order, one table row. */
    method CommitMove(op: OperationId, from: AccountId, to: AccountId, asset: AssetId, amount: Decimal,
                      debited: Balance, credited: Balance, ghost kind: Kind)
      returns (r: OperationResult)
      modifies `balances, `postings, `operations, `nextPostingNumber, `history
      ensures LedgerSpec.Step(Contents(), Ok(r))
              == Record(old(Contents()).(balances := old(balances)[Key(from, asset) := debited][Key(to, asset) := credited]),
                        Entry(kind, op, from, to, asset, amount, DebitSide))
    {
      var debitPosting := CreatePosting(op, from, asset, amount, DebitSide);
      var creditPosting := CreatePosting(op, to, asset, amount, CreditSide);
      var balanced := AssertBalanced([debitPosting, creditPosting]);
      LedgerLaws.OppositePairBalances(debitPosting, creditPosting);
      assert balanced;
      balances := balances[Key(from, asset) := debited];
      balances := balances[Key(to, asset) := credited];
      postings := postings + [debitPosting, creditPosting];
      r := OperationResult(op, [debitPosting.id, creditPosting.id]);
      operations := operations[op := r];
      history := history + [Entry(kind, op, from, to, asset, amount, DebitSide)];
    }

    // ---- Compensation ----

    /** `compensate`: all new balances are computed from the state before, then written one after the other. */
    method Compensate(op: OperationId, originalOp: OperationId) returns (r: Outcome)
      requires Valid()
      modifies `balances, `postings, `operations, `nextPostingNumber, `history
      ensures Valid()
      ensures LedgerSpec.Step(Contents(), r) == LedgerSpec.Compensate(old(Contents()), op, originalOp)
    {
      hide Consistent, ById, LedgerSpec.Compensate;
      LedgerLaws.CompensateKeepsConsistent(Contents(), op, originalOp);
      r := ReverseOperation(op, originalOp);
    }

    method ReverseOperation(op: OperationId, originalOp: OperationId) returns (r: Outcome)
      requires Valid()
      modifies `balances, `postings, `operations, `nextPostingNumber, `history
      ensures LedgerSpec.Step(Contents(), r) == LedgerSpec.Compensate(old(Contents()), op, originalOp)
    {
      hide Consistent, ById, ByOperation, LedgerLaws.AreReversed;
      if op in operations {
        return Ok(operations[op]);
      }
      var original := ByOperation(postings, originalOp);
      LedgerLaws.OriginalBatch(Contents(), originalOp);
      if |original| == 0 {
        return Err(OriginalMissing);
      }
      ghost var e := history[Find(history, originalOp)];
      LedgerLaws.CompensateByPostings(Contents(), op, originalOp, original);
      r := ApplyReversal(op, original, Reversal(e, op));
    }

    method ApplyReversal(op: OperationId, original: seq<Posting>, ghost e: Entry) returns (r: Outcome)
      requires |original| == 2 && e.operationId == op
      requires forall n :: LedgerLaws.AreReversed(Batch(e, n), original, op, n)
      modifies `balances, `postings, `operations, `nextPostingNumber, `history
      ensures LedgerSpec.Step(Contents(), r) ==
              var changes := ChangesOf(old(balances), original);
              if changes.Err? then LedgerSpec.Step(old(Contents()), Err(changes.error))
              else Record(old(Contents()).(balances := Written(old(balances), original, changes.value)), e)
    {
      var changes := ComputeChanges(original);
      if changes.Err? {
        return Err(changes.error);
      }
      var receipt := CommitReversal(op, original, changes.value, e);
      r := Ok(receipt);
    }

    method ComputeChanges(original: seq<Posting>) returns (r: Result<seq<Balance>, LedgerError>)
      ensures r == ChangesOf(balances, original)
    {
      var changes: seq<Balance> := [];
      for i := 0 to |original|
        invariant ChangesOf(balances, original[..i]) == Ok(changes)
      {
        var change := ChangeFor(original[i]);
        assert original[..i + 1][..i] == original[..i];
        if change.Err? {
          LedgerLaws.FirstErrorStands(balances, original, i + 1);
          return Err(change.error);
        }
        changes := changes + [change.value];
      }
      assert original[..|original|] == original;
      r := Ok(changes);
    }

    method CommitReversal(op: OperationId, original: seq<Posting>, changes: seq<Balance>, ghost e: Entry)
      returns (r: OperationResult)
      requires |original| == |changes| == 2 && e.operationId == op
      requires forall n :: LedgerLaws.AreReversed(Batch(e, n), original, op, n)
      modifies `balances, `postings, `operations, `nextPostingNumber, `history
      ensures LedgerSpec.Step(Contents(), Ok(r))
              == Record(old(Contents()).(balances := Written(old(balances), original, changes)), e)
    {
      var reversed := ReversePostings(op, original);
      assert LedgerLaws.AreReversed(Batch(e, old(nextPostingNumber)), original, op, old(nextPostingNumber));
      LedgerLaws.ReversedOnce(Batch(e, old(nextPostingNumber)), reversed, original, op, old(nextPostingNumber));
      var balanced := AssertBalanced(reversed);
      LedgerLaws.BatchBalances(e, old(nextPostingNumber));
      assert balanced;
      for i := 0 to |original|
        invariant balances == Written(old(balances), original[..i], changes[..i])
        invariant unchanged(`postings, `operations, `history) && nextPostingNumber == old(nextPostingNumber) + 2
      {
        assert original[..i + 1][..i] == original[..i] && changes[..i + 1][..i] == changes[..i];
        balances := balances[Key(original[i].accountId, original[i].assetId) := changes[i]];
      }
      assert original[..2] == original && changes[..2] == changes;
      postings := postings + reversed;
      r := OperationResult(op, [reversed[0].id, reversed[1].id]);
      operations := operations[op := r];
      history := history + [e];
    }

    /** The balance of a posting's account with that posting taken back. */
    method ChangeFor(p: Posting) returns (r: Result<Balance, LedgerError>)
      ensures r == Changed(balances, p)
    {
      var before := Fetch(p.accountId, p.assetId);
      if before.Err? {
        return before;
      }
      if p.direction == DebitSide {
        r := Balances.Credit(before.value, p.amount);
      } else {
        r := Balances.Debit(before.value, p.amount);
      }
    }

    method ReversePostings(op: OperationId, original: seq<Posting>) returns (reversed: seq<Posting>)
      modifies `nextPostingNumber
      ensures nextPostingNumber == old(nextPostingNumber) + |original|
      ensures LedgerLaws.AreReversed(reversed, original, op, old(nextPostingNumber))
    {
      reversed := [];
      for i := 0 to |original|
        invariant nextPostingNumber == old(nextPostingNumber) + i
        invariant LedgerLaws.AreReversed(reversed, original[..i], op, old(nextPostingNumber))
      {
        var p := CreatePosting(op, original[i].accountId, original[i].assetId, original[i].amount,
                               Opposite(original[i].direction));
        reversed := reversed + [p];
      }
      assert original[..|original|] == original;
    }

    // ---- Reconciliation ----

    /** `reconcile`: groups the journal by operation and checks each group. True where the source returns. */
    method Reconcile() returns (ok: bool)
      ensures ok <==> forall op :: Balanced(ByOperation(postings, op))
    {
      var groups: map<OperationId, seq<Posting>> := map[];
      for i := 0 to |postings|
        invariant forall op :: ByOperation(postings[..i], op) == if op in groups then groups[op] else []
      {
        var p := postings[i];
        var group := if p.operationId in groups then groups[p.operationId] else [];
        groups := groups[p.operationId := group + [p]];
        assert postings[..i + 1][..i] == postings[..i];
      }
      assert postings[..|postings|] == postings;
      var rest := groups.Keys;
      while rest != {}
        invariant rest <= groups.Keys
        invariant forall op :: op in groups && op !in rest ==> Balanced(groups[op])
        decreases rest
      {
        var op :| op in rest;
        var balanced := AssertBalanced(groups[op]);
        if !balanced {
          assert !Balanced(ByOperation(postings, op));
          return false;
        }
        rest := rest - {op};
      }
      forall op
        ensures Balanced(ByOperation(postings, op))
      {
        if op !in groups {
          LedgerLaws.EmptyBalances();
        }
      }
      ok := true;
    }
  }
}
