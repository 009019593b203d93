/**
  Every answer of the ledger's calls and the exact effect of those that go through, in
  terms of keys, amounts and postings alone
  (apps/backend/src/modules/ledger/domain/ledger.ts:106-289, 313-336).
 */
module LedgerAnswers {
  import opened Decimals
  import opened Results
  import opened Balances
  import opened Postings
  import opened LedgerSpec
  import opened LedgerLaws

  /** What one balance becomes: its parts move by these amounts, and no other balance changes. */
  ghost predicate OneMoves(before: map<string, Balance>, after: map<string, Balance>, key: string, available: real, reserved: real) {
    && key in before && after.Keys == before.Keys
    && (forall k :: k in before && k != key ==> after[k] == before[k])
    && Value(after[key].available) == Value(before[key].available) + available
    && Value(after[key].reserved) == Value(before[key].reserved) + reserved
  }

  /** Likewise for two balances. */
  ghost predicate TwoMove(before: map<string, Balance>, after: map<string, Balance>, k1: string, available1: real, reserved1: real,
                          k2: string, available2: real, reserved2: real) {
    && k1 in before && k2 in before && after.Keys == before.Keys
    && (forall k :: k in before && k != k1 && k != k2 ==> after[k] == before[k])
    && Value(after[k1].available) == Value(before[k1].available) + available1
    && Value(after[k1].reserved) == Value(before[k1].reserved) + reserved1
    && Value(after[k2].available) == Value(before[k2].available) + available2
    && Value(after[k2].reserved) == Value(before[k2].reserved) + reserved2
  }

  /**
    The journal grows by one posting of the amount on the account and the opposite one on
    the other account, numbered on; the receipt names the two in this order and is stored
    under the operation's id; nothing else but balances changes.
   */
  ghost predicate Posts(s: State, step: Step, op: OperationId, account: AccountId, other: AccountId, asset: AssetId,
                        amount: Decimal, direction: Direction) {
    var s', n := step.state, |s.postings|;
    && |s'.postings| == n + 2 && s'.postings[..n] == s.postings
    && var p, q := s'.postings[n], s'.postings[n + 1];
       && p.operationId == op && q.operationId == op
       && p.accountId == account && q.accountId == other
       && p.assetId == asset && q.assetId == asset
       && p.amount == amount && q.amount == amount
       && p.direction == direction && q.direction != direction
       && p.id.number == s.nextPosting && q.id.number == s.nextPosting + 1
       && step.result.Ok? && step.result.value.operationId == op
       && step.result.value.postingIds == [p.id, q.id]
       && op in s'.operations && s'.operations[op] == step.result.value
       && s'.operations.Keys == s.operations.Keys + {op}
       && (forall o :: o in s.operations && o != op ==> s'.operations[o] == s.operations[o])
       && s'.nextPosting == s.nextPosting + 2
       && s'.assets == s.assets && s'.accounts == s.accounts && s'.openings == s.openings
  }

  /** The balance under a key that may be missing. */
  function Held(s: State, account: AccountId, asset: AssetId): Balance {
    if Key(account, asset) in s.balances then s.balances[Key(account, asset)] else EMPTY
  }

  /**
    Credit, debit, reserve and release, for every ledger: an applied id is answered with
    its receipt; otherwise the balance must be open, the amount positive, and the part it
    is taken from must cover it.
   */
  lemma MarkerAnswersExactly(s: State, kind: MarkerKind, op: OperationId, account: AccountId, asset: AssetId, amount: Decimal)
    ensures var step := Marker(s, kind, op, account, asset, amount);
            var held, v := Held(s, account, asset), Value(amount);
            var open := Key(account, asset) in s.balances;
            var short := (kind == DebitKind || kind == ReserveKind) && v > Value(held.available);
            var shortReserved := kind == ReleaseKind && v > Value(held.reserved);
            && (op in s.operations ==> step == Step(s, Ok(s.operations[op])))
            && (op !in s.operations ==>
                  (&& (step.result == Err(BalanceMissing) <==> !open)
                   && (step.result == Err(AmountNotPositive) <==> open && v <= 0.0)
                   && (step.result == Err(InsufficientAvailable) <==> open && v > 0.0 && short)
                   && (step.result == Err(InsufficientReserved) <==> open && v > 0.0 && shortReserved)
                   && (step.result.Ok? <==> open && v > 0.0 && !short && !shortReserved)
                   && (step.result.Err? ==> step.state == s)))
  {
    hide Ratio;
  }

  /** What such a call does to the one balance, by its kind, and the pair of postings against the system account. */
  lemma MarkerMovesExactly(s: State, kind: MarkerKind, op: OperationId, account: AccountId, asset: AssetId, amount: Decimal)
    requires !Applied(s, op) && Marker(s, kind, op, account, asset, amount).result.Ok?
    ensures var step, v := Marker(s, kind, op, account, asset, amount), Value(amount);
            var available := if kind == CreditKind || kind == ReleaseKind then v else -v;
            var reserved := if kind == ReserveKind then v else if kind == ReleaseKind then -v else 0.0;
            && OneMoves(s.balances, step.state.balances, Key(account, asset), available, reserved)
            && Posts(s, step, op, account, "system", asset, amount,
                     if kind == CreditKind || kind == ReleaseKind then CreditSide else DebitSide)
  {
    hide Ratio;
  }

  /**
    Transfer and reserved settlement: the amount must be positive, the payer's balance
    open and its available, or for a settlement its reserved part, cover the amount, and
    the payee's balance open; checked in this order.
   */
  lemma MoveAnswersExactly(s: State, kind: MoveKind, op: OperationId, from: AccountId, to: AccountId, asset: AssetId, amount: Decimal)
    ensures var step := Move(s, kind, op, from, to, asset, amount);
            var held, v := Held(s, from, asset), Value(amount);
            && (op in s.operations ==> step == Step(s, Ok(s.operations[op])))
            && (op !in s.operations ==>
                  (&& (step.result == Err(AmountNotPositive) <==> v <= 0.0)
                   && (step.result == Err(InsufficientAvailable) <==>
                         kind == TransferKind && v > 0.0 && Key(from, asset) in s.balances && v > Value(held.available))
                   && (step.result == Err(InsufficientReserved) <==>
                         kind == SettleKind && v > 0.0 && Key(from, asset) in s.balances && v > Value(held.reserved))
                   && (step.result.Ok? <==>
                         Key(from, asset) in s.balances && Key(to, asset) in s.balances
                         && 0.0 < v <= Value(if kind == SettleKind then held.reserved else held.available))
                   && (step.result.Ok? || step.state == s)
                   && (step.result.Ok? || step.result.error in {AmountNotPositive, BalanceMissing, InsufficientAvailable, InsufficientReserved})))
  {
    hide Ratio;
  }

  /**
    What it moves: out of the payer's available or reserved part, into the payee's
    available part; where both are one balance, only the payee's side is written.
   */
  lemma MoveMovesExactly(s: State, kind: MoveKind, op: OperationId, from: AccountId, to: AccountId, asset: AssetId, amount: Decimal)
    requires !Applied(s, op) && Move(s, kind, op, from, to, asset, amount).result.Ok?
    ensures var step, v := Move(s, kind, op, from, to, asset, amount), Value(amount);
            var k1, k2 := Key(from, asset), Key(to, asset);
            && Posts(s, step, op, from, to, asset, amount, DebitSide)
            && (k1 == k2 ==> OneMoves(s.balances, step.state.balances, k1, v, 0.0))
            && (k1 != k2 && kind == TransferKind ==> TwoMove(s.balances, step.state.balances, k1, -v, 0.0, k2, v, 0.0))
            && (k1 != k2 && kind == SettleKind ==> TwoMove(s.balances, step.state.balances, k1, 0.0, -v, k2, v, 0.0))
  {
    hide Ratio;
  }

  /** An applied operation has its receipt in the table and its two postings in the journal; others have neither. */
  lemma JournalRow(s: State, op: OperationId) returns (i: nat)
    requires Consistent(s)
    ensures op in s.operations <==> i < |s.history|
    ensures i == Find(s.history, op) <= |s.history|
    ensures op in s.operations ==> s.operations[op] == Receipt(s.history[i], 2 * i + 1) && s.history[i].operationId == op
    ensures ByOperation(s.postings, op) == if op in s.operations then Batch(s.history[i], 2 * i + 1) else []
  {
    i := Find(s.history, op);
    OriginalBatch(s, op);
    assert op in s.operations ==> TableRow(s.operations[op], op, s.history);
    hide ByOperation, SoundBalances, JournalMatches, UniqueOperations;
  }

  /** A compensation posts, on the same accounts and in the same order, the opposite of the original's two postings. */
  lemma CompensationPostsTheOpposite(s: State, op: OperationId, original: OperationId)
    requires Consistent(s) && !Applied(s, op) && Compensate(s, op, original).result.Ok?
    ensures var undone := ByOperation(s.postings, original);
            && |undone| == 2
            && Posts(s, Compensate(s, op, original), op, undone[0].accountId, undone[1].accountId, undone[0].assetId,
                     undone[0].amount, if undone[0].direction == DebitSide then CreditSide else DebitSide)
  {
    hide ByOperation, Consistent;
    var i := JournalRow(s, original);
    RecordPosts(s, Compensate(s, op, original).state.balances, Reversal(s.history[i], op));
    hide Posts, Record;
    assert Compensate(s, op, original) == Record(s.(balances := Compensate(s, op, original).state.balances), Reversal(s.history[i], op));
  }

  lemma RecordPosts(s: State, balances: map<string, Balance>, e: Entry)
    requires e.operationId !in s.operations
    ensures Posts(s, Record(s.(balances := balances), e), e.operationId, e.account, e.counter, e.assetId, e.amount, e.direction)
  {
  }

  /** A compensation finds nothing to undo exactly if the original was never applied. */
  lemma CompensationNeedsTheOriginal(s: State, op: OperationId, original: OperationId)
    requires Consistent(s)
    ensures op in s.operations ==> Compensate(s, op, original) == Step(s, Ok(s.operations[op]))
    ensures Compensate(s, op, original).result == Err(OriginalMissing) <==> op !in s.operations && original !in s.operations
    ensures Compensate(s, op, original).result.Err? ==> Compensate(s, op, original).state == s
  {
    hide ByOperation, Consistent;
    var i := JournalRow(s, original);
  }

  /**
    Otherwise its two postings are taken back one after the other: each balance must be
    open, and one that was credited must still have the amount available.
   */
  lemma CompensationAnswersExactly(s: State, op: OperationId, original: OperationId)
    requires Consistent(s) && op !in s.operations && original in s.operations
    ensures |ByOperation(s.postings, original)| == 2
    ensures var p, q := ByOperation(s.postings, original)[0], ByOperation(s.postings, original)[1];
            var result := Compensate(s, op, original).result;
            var open, open' := Key(p.accountId, p.assetId) in s.balances, Key(q.accountId, q.assetId) in s.balances;
            var short := p.direction == CreditSide && Value(p.amount) > Value(Held(s, p.accountId, p.assetId).available);
            var short' := q.direction == CreditSide && Value(q.amount) > Value(Held(s, q.accountId, q.assetId).available);
            && (result == Err(BalanceMissing) <==> !open || (!short && !open'))
            && (result == Err(InsufficientAvailable) <==> open && (short || (open' && short')))
            && (result.Ok? <==> open && !short && open' && !short')
  {
    var i := JournalRow(s, original);
    assert Value(s.history[i].amount) > 0.0;
    hide ByOperation, Consistent, Ratio;
  }

  /** In every run the receipt of an operation names exactly its postings in the journal, in their order. */
  lemma ReceiptsNameThePostings(cs: seq<Command>, op: OperationId)
    ensures var s := Run(INITIAL, cs);
            var posted := ByOperation(s.postings, op);
            && (op in s.operations <==> posted != [])
            && (op in s.operations ==>
                  (&& |posted| == 2 && s.operations[op].operationId == op
                   && s.operations[op].postingIds == [posted[0].id, posted[1].id]))
  {
    hide ByOperation, Run, Consistent;
    EveryRunIsConsistent(cs);
    var i := JournalRow(Run(INITIAL, cs), op);
  }
}
