/**
  What compensation undoes, when it can, and what no later call can change.
 */
module LedgerUndo {
  import opened Decimals
  import opened DecimalLaws
  import opened Results
  import opened Balances
  import opened Postings
  import opened LedgerSpec
  import opened LedgerKeys
  import opened LedgerLaws
  import opened LedgerMoney

  /** Taking an amount out of a stored decimal and putting it back gives the same fields. */
  lemma OutAndIn(d: Decimal, amount: Decimal)
    requires Normal(d)
    ensures Add(Subtract(d, amount), amount) == d && Subtract(Add(d, amount), amount) == d
  {
    NormalFormIsUnique(Add(Subtract(d, amount), amount), d);
    NormalFormIsUnique(Subtract(Add(d, amount), amount), d);
  }

  /** Whether a balance can take the compensating posting. */
  ghost predicate CanRepost(balances: map<string, Balance>, account: AccountId, asset: AssetId, amount: Decimal, d: Direction) {
    Key(account, asset) in balances
    && (d == DebitSide ==> Value(amount) <= Value(balances[Key(account, asset)].available))
  }

  /** The reversal that a compensation of an applied operation records. */
  ghost function ReversalOf(s: State, op: OperationId, original: OperationId): Entry
    requires Consistent(s) && Applied(s, original)
  {
    assert TableRow(s.operations[original], original, s.history);
    Reversal(s.history[Find(s.history, original)], op)
  }

  /**
    A fresh compensation of an applied operation goes through exactly when both of its
    accounts are open in the asset and the one that must give the amount back has it
    available; otherwise nothing changes.
   */
  lemma CompensationSucceedsExactly(s: State, op: OperationId, original: OperationId)
    requires Consistent(s) && !Applied(s, op) && Applied(s, original)
    ensures var e := ReversalOf(s, op, original);
            Compensate(s, op, original).result.Ok?
            <==> CanRepost(s.balances, e.account, e.assetId, e.amount, e.direction)
                 && CanRepost(s.balances, e.counter, e.assetId, e.amount, Opposite(e.direction))
    ensures Compensate(s, op, original).result.Err? ==> Compensate(s, op, original).state == s
  {
    var e := ReversalOf(s, op, original);
    assert Value(e.amount) > 0.0;
    RepostExactly(s.balances, e.account, e.assetId, e.amount, e.direction);
    RepostExactly(s.balances, e.counter, e.assetId, e.amount, Opposite(e.direction));
  }

  lemma RepostExactly(balances: map<string, Balance>, account: AccountId, asset: AssetId, amount: Decimal, d: Direction)
    requires Value(amount) > 0.0
    ensures CanRepost(balances, account, asset, amount, d)
            <==> Key(account, asset) in balances && Repost(d, balances[Key(account, asset)], amount).Ok?
  {
  }

  /** On success with different accounts exactly two available parts move, each against its original posting. */
  lemma CompensationMovesBack(s: State, op: OperationId, original: OperationId)
    requires Consistent(s) && !Applied(s, op) && Applied(s, original)
    requires Compensate(s, op, original).result.Ok?
    requires ReversalOf(s, op, original).account != ReversalOf(s, op, original).counter
    ensures var e := ReversalOf(s, op, original);
            MovedBy(s.balances, Compensate(s, op, original).state.balances, e.account, e.counter, e.assetId,
                    Sign(e.direction) * Value(e.amount))
  {
    var e := ReversalOf(s, op, original);
    var k1, k2 := Key(e.account, e.assetId), Key(e.counter, e.assetId);
    KeyWithinAsset(e.account, e.counter, e.assetId);
    var b1 := Repost(e.direction, s.balances[k1], e.amount).value;
    var b2 := Repost(Opposite(e.direction), s.balances[k2], e.amount).value;
    TwoKeysWritten(s.balances, k1, b1, k2, b2);
  }

  /** The available parts of two accounts changed by v and -v; nothing else changed. */
  ghost predicate MovedBy(before: map<string, Balance>, after: map<string, Balance>, first: AccountId, second: AccountId,
                          asset: AssetId, v: real) {
    var k1, k2 := Key(first, asset), Key(second, asset);
    && k1 in before && k2 in before && k1 in after && k2 in after
    && after - {k1, k2} == before - {k1, k2}
    && Value(after[k1].available) == Value(before[k1].available) + v
    && Value(after[k2].available) == Value(before[k2].available) - v
    && after[k1].reserved == before[k1].reserved && after[k2].reserved == before[k2].reserved
  }

  lemma TwoKeysWritten<T>(m: map<string, T>, k1: string, b1: T, k2: string, b2: T)
    requires k1 != k2
    ensures var m' := m[k1 := b1][k2 := b2]; m'[k1] == b1 && m'[k2] == b2 && m' - {k1, k2} == m - {k1, k2}
  {
  }

  // ---- Credit, debit, reserve and release ----

  /** The system account is the counterparty of exactly the operations the ledger records against it. */
  ghost predicate MarkersFaceTheSystem(h: seq<Entry>) {
    forall i :: 0 <= i < |h| && IsMarker(h[i].kind) ==> h[i].counter == SYSTEM
  }

  /** The call opens a balance under a key that begins like those of the system account. */
  predicate OpensSystem(c: Command) {
    c.OpenCommand? && SYSTEM + ":" <= Key(c.account, c.assetId)
  }

  ghost predicate NoSystemKey(balances: map<string, Balance>) {
    forall k :: k in balances ==> !(SYSTEM + ":" <= k)
  }

  lemma ApplyFacesTheSystem(s: State, c: Command)
    requires MarkersFaceTheSystem(s.history)
    ensures MarkersFaceTheSystem(Apply(s, c).history)
  {
    hide Balances.Credit, Balances.Debit, Balances.Reserve, Balances.Release, Balances.DebitReserved;
  }

  /** No call but an opening adds a balance key. */
  lemma ApplyKeepsKeys(s: State, c: Command)
    ensures !c.OpenCommand? ==> Apply(s, c).balances.Keys == s.balances.Keys
    ensures c.OpenCommand? ==> Apply(s, c).balances.Keys <= s.balances.Keys + {Key(c.account, c.assetId)}
  {
    hide Balances.Credit, Balances.Debit, Balances.Reserve, Balances.Release, Balances.DebitReserved;
  }

  lemma {:induction false} RunFacesTheSystem(cs: seq<Command>)
    ensures MarkersFaceTheSystem(Run(INITIAL, cs).history)
    ensures (forall i :: 0 <= i < |cs| ==> !OpensSystem(cs[i])) ==> NoSystemKey(Run(INITIAL, cs).balances)
  {
    if |cs| > 0 {
      var n := |cs| - 1;
      RunFacesTheSystem(cs[..n]);
      ApplyFacesTheSystem(Run(INITIAL, cs[..n]), cs[n]);
      ApplyKeepsKeys(Run(INITIAL, cs[..n]), cs[n]);
    }
  }

  /**
    In every run, a credit, debit, reserve or release can be compensated only while a
    system balance is open in its asset; in a run that opens none the call always
    throws and changes nothing.
   */
  lemma MarkersNeedTheSystemBalance(cs: seq<Command>, op: OperationId, original: OperationId)
    requires var s := Run(INITIAL, cs);
             !Applied(s, op) && Applied(s, original) && Find(s.history, original) < |s.history|
             && IsMarker(s.history[Find(s.history, original)].kind)
    ensures var s := Run(INITIAL, cs); var e := s.history[Find(s.history, original)];
            var undone := Compensate(s, op, original);
            && (undone.result.Ok? ==> Key(SYSTEM, e.assetId) in s.balances)
            && ((forall i :: 0 <= i < |cs| ==> !OpensSystem(cs[i])) ==> undone.result.Err?)
            && (undone.result.Err? ==> undone.state == s)
  {
    var s := Run(INITIAL, cs);
    EveryRunIsConsistent(cs);
    RunFacesTheSystem(cs);
    CompensationSucceedsExactly(s, op, original);
    assert SYSTEM + ":" <= Key(SYSTEM, s.history[Find(s.history, original)].assetId);
  }

  /** Compensating the operation recorded last. */
  lemma CompensateLast(s: State, balances: map<string, Balance>, e: Entry, undo: OperationId)
    requires Consistent(s) && !Applied(s, e.operationId) && !Applied(s, undo) && e.operationId != undo
    requires Key(e.account, e.assetId) in balances && Key(e.counter, e.assetId) in balances
    requires Repost(Opposite(e.direction), balances[Key(e.account, e.assetId)], e.amount).Ok?
    requires Repost(e.direction, balances[Key(e.counter, e.assetId)], e.amount).Ok?
    ensures var undone := Compensate(Record(s.(balances := balances), e).state, undo, e.operationId);
            undone.result.Ok?
            && undone.state.balances
               == balances[Key(e.account, e.assetId) :=
                             Repost(Opposite(e.direction), balances[Key(e.account, e.assetId)], e.amount).value]
                          [Key(e.counter, e.assetId) :=
                             Repost(e.direction, balances[Key(e.counter, e.assetId)], e.amount).value]
  {
    NotInHistory(s, e.operationId);
    FindInExtended(s.history, e, e.operationId);
    var after := Record(s.(balances := balances), e).state;
    assert after.history[Find(after.history, e.operationId)] == e;
    assert Opposite(Opposite(e.direction)) == e.direction;
  }

  lemma WriteBack(m: map<string, Balance>, k1: string, b1: Balance, k2: string, b2: Balance, c1: Balance, c2: Balance)
    requires k1 != k2 && k1 in m && k2 in m && c2 == m[k2]
    ensures m[k1 := b1][k2 := b2][k1 := c1][k2 := c2] == m[k1 := c1]
  {
  }

  /** Compensating a transfer between different accounts restores every balance, field for field. */
  lemma CompensatedTransferRestores(s: State, op: OperationId, from: AccountId, to: AccountId, asset: AssetId, amount: Decimal,
                                    undo: OperationId)
    requires Consistent(s) && from != to && !Applied(s, op) && !Applied(s, undo) && op != undo
    requires Move(s, TransferKind, op, from, to, asset, amount).result.Ok?
    ensures var after := Move(s, TransferKind, op, from, to, asset, amount).state;
            var undone := Compensate(after, undo, op);
            undone.result.Ok? && undone.state.balances == s.balances
  {
    var k1, k2 := Key(from, asset), Key(to, asset);
    var b, c := s.balances[k1], s.balances[k2];
    var b', c' := Debit(b, amount).value, Credit(c, amount).value;
    KeyWithinAsset(from, to, asset);
    OutAndIn(b.available, amount);
    OutAndIn(c.available, amount);
    assert Sound(b) && Sound(c);
    assert Credit(b', amount) == Ok(b) && Debit(c', amount) == Ok(c);
    CompensateLast(s, s.balances[k1 := b'][k2 := c'], Entry(TransferKind, op, from, to, asset, amount, DebitSide), undo);
    WriteBack(s.balances, k1, b', k2, c', b, c);
  }

  lemma NotInHistory(s: State, op: OperationId)
    requires Consistent(s) && !Applied(s, op)
    ensures Find(s.history, op) == |s.history|
  {
  }

  /**
    Compensating a reserved settlement restores the creditor's balance and both
    holdings; the debtor's amount comes back as available instead of reserved.
   */
  lemma CompensatedSettlementFreesReserve(s: State, op: OperationId, from: AccountId, to: AccountId, asset: AssetId,
                                          amount: Decimal, undo: OperationId)
    requires Consistent(s) && from != to && !Applied(s, op) && !Applied(s, undo) && op != undo
    requires Move(s, SettleKind, op, from, to, asset, amount).result.Ok?
    ensures var after := Move(s, SettleKind, op, from, to, asset, amount).state;
            var undone := Compensate(after, undo, op);
            var b := s.balances[Key(from, asset)];
            var freed := Balance(Add(b.available, amount), Subtract(b.reserved, amount));
            undone.result.Ok? && undone.state.balances == s.balances[Key(from, asset) := freed]
            && Holding(freed) == Holding(b)
  {
    var k1, k2 := Key(from, asset), Key(to, asset);
    var b, c := s.balances[k1], s.balances[k2];
    var b', c' := DebitReserved(b, amount).value, Credit(c, amount).value;
    var freed := Balance(Add(b.available, amount), Subtract(b.reserved, amount));
    KeyWithinAsset(from, to, asset);
    OutAndIn(c.available, amount);
    assert Sound(b) && Sound(c);
    assert Credit(b', amount) == Ok(freed) && Debit(c', amount) == Ok(c);
    CompensateLast(s, s.balances[k1 := b'][k2 := c'], Entry(SettleKind, op, from, to, asset, amount, DebitSide), undo);
    WriteBack(s.balances, k1, b', k2, c', freed, c);
  }

  // ---- What stays ----

  /** The journal and the history grew at their ends and every receipt is still there. */
  ghost predicate Extends(s: State, s': State) {
    && s.postings <= s'.postings && s.history <= s'.history
    && (forall op :: op in s.operations ==> op in s'.operations && s'.operations[op] == s.operations[op])
  }

  lemma RecordExtends(s: State, balances: map<string, Balance>, e: Entry)
    requires !Applied(s, e.operationId)
    ensures Extends(s, Record(s.(balances := balances), e).state)
  {
  }

  lemma MarkerExtends(s: State, kind: MarkerKind, op: OperationId, account: AccountId, asset: AssetId, amount: Decimal)
    ensures Extends(s, Marker(s, kind, op, account, asset, amount).state)
  {
    if !Applied(s, op) && Marker(s, kind, op, account, asset, amount).result.Ok? {
      RecordExtends(s, s.balances[Key(account, asset) := MarkerChange(kind, s.balances[Key(account, asset)], amount).value],
                    Entry(kind, op, account, SYSTEM, asset, amount, MarkerDirection(kind)));
    }
  }

  lemma MoveExtends(s: State, kind: MoveKind, op: OperationId, from: AccountId, to: AccountId, asset: AssetId, amount: Decimal)
    ensures Extends(s, Move(s, kind, op, from, to, asset, amount).state)
  {
    if !Applied(s, op) && Move(s, kind, op, from, to, asset, amount).result.Ok? {
      RecordExtends(s, s.balances[Key(from, asset) := MoveOut(kind, s.balances[Key(from, asset)], amount).value]
                                 [Key(to, asset) := Credit(s.balances[Key(to, asset)], amount).value],
                    Entry(kind, op, from, to, asset, amount, DebitSide));
    }
  }

  lemma CompensateExtends(s: State, op: OperationId, original: OperationId)
    ensures Extends(s, Compensate(s, op, original).state)
  {
    if !Applied(s, op) && Compensate(s, op, original).result.Ok? {
      var e := Reversal(s.history[Find(s.history, original)], op);
      RecordExtends(s, CompensatedBalances(s, e), e);
    }
  }

  lemma ApplyExtends(s: State, c: Command)
    ensures Extends(s, Apply(s, c))
  {
    match c
    case RegisterAssetCommand(asset) =>
    case RegisterAccountCommand(account, owner) =>
    case OpenCommand(account, asset) =>
    case MarkerCommand(kind, op, account, asset, amount) => MarkerExtends(s, kind, op, account, asset, amount);
    case MoveCommand(kind, op, from, to, asset, amount) => MoveExtends(s, kind, op, from, to, asset, amount);
    case CompensateCommand(op, original) => CompensateExtends(s, op, original);
  }

  lemma ExtendsTransitive(s: State, t: State, u: State)
    requires Extends(s, t) && Extends(t, u)
    ensures Extends(s, u)
  {
  }

  /** Over any run the journal only grows at its end, and a receipt once issued never changes. */
  lemma {:induction false} RunExtends(s: State, cs: seq<Command>)
    ensures Extends(s, Run(s, cs))
  {
    if |cs| > 0 {
      var n := |cs| - 1;
      RunExtends(s, cs[..n]);
      ApplyExtends(Run(s, cs[..n]), cs[n]);
      ExtendsTransitive(s, Run(s, cs[..n]), Run(s, cs));
    }
  }

  /** What a call under an operation id answers. */
  function Answer(s: State, c: Command): Outcome
    requires c.MarkerCommand? || c.MoveCommand? || c.CompensateCommand?
  {
    match c
    case MarkerCommand(kind, op, account, asset, amount) => Marker(s, kind, op, account, asset, amount).result
    case MoveCommand(kind, op, from, to, asset, amount) => Move(s, kind, op, from, to, asset, amount).result
    case CompensateCommand(op, original) => Compensate(s, op, original).result
  }

  /** An id already applied: whatever the call, it answers with the stored receipt and the ledger does not change. */
  lemma ReplayChangesNothing(s: State, c: Command, op: OperationId)
    requires Applied(s, op)
    requires (c.MarkerCommand? || c.MoveCommand? || c.CompensateCommand?) && c.op == op
    ensures Apply(s, c) == s && Answer(s, c) == Ok(s.operations[op])
  {
  }

  /**
    A call that went through once gives the same receipt whenever it is repeated, after
    any other calls and with any other arguments under its id, and changes nothing.
   */
  lemma RepeatGivesTheFirstReceipt(s: State, first: Command, cs: seq<Command>, again: Command)
    requires first.MarkerCommand? || first.MoveCommand? || first.CompensateCommand?
    requires again.MarkerCommand? || again.MoveCommand? || again.CompensateCommand?
    requires again.op == first.op && Answer(s, first).Ok?
    ensures var later := Run(Apply(s, first), cs);
            Answer(later, again) == Answer(s, first) && Apply(later, again) == later
  {
    ReceiptIsStored(s, first);
    RunExtends(Apply(s, first), cs);
    ReplayChangesNothing(Run(Apply(s, first), cs), again, first.op);
  }

  lemma ReceiptIsStored(s: State, c: Command)
    requires c.MarkerCommand? || c.MoveCommand? || c.CompensateCommand?
    requires Answer(s, c).Ok?
    ensures Applied(Apply(s, c), c.op) && Ok(Apply(s, c).operations[c.op]) == Answer(s, c)
  {
    hide Balances.Credit, Balances.Debit, Balances.Reserve, Balances.Release, Balances.DebitReserved;
  }

  /** What the catalogue says of an asset or an account, once registered, is never changed. */
  lemma {:induction false} RegistrationsAreForever(s: State, cs: seq<Command>)
    ensures var later := Run(s, cs);
            && (forall id :: id in s.assets ==> id in later.assets && later.assets[id] == s.assets[id])
            && (forall id :: id in s.accounts ==> id in later.accounts && later.accounts[id] == s.accounts[id])
  {
    if |cs| > 0 {
      RegistrationsAreForever(s, cs[..|cs| - 1]);
      ApplyKeepsRegistrations(Run(s, cs[..|cs| - 1]), cs[|cs| - 1]);
    }
  }

  lemma ApplyKeepsRegistrations(s: State, c: Command)
    ensures var later := Apply(s, c);
            && (forall id :: id in s.assets ==> id in later.assets && later.assets[id] == s.assets[id])
            && (forall id :: id in s.accounts ==> id in later.accounts && later.accounts[id] == s.accounts[id])
  {
    hide Balances.Credit, Balances.Debit, Balances.Reserve, Balances.Release, Balances.DebitReserved;
  }

  /** An account is open in an asset only after both were registered. */
  ghost predicate OpeningsRegistered(s: State) {
    forall pair :: pair in s.openings ==> pair.0 in s.accounts && pair.1 in s.assets
  }

  lemma {:induction false} OpeningsAreRegistered(cs: seq<Command>)
    ensures OpeningsRegistered(Run(INITIAL, cs))
  {
    if |cs| > 0 {
      OpeningsAreRegistered(cs[..|cs| - 1]);
      ApplyKeepsOpenings(Run(INITIAL, cs[..|cs| - 1]), cs[|cs| - 1]);
    }
  }

  lemma ApplyKeepsOpenings(s: State, c: Command)
    requires OpeningsRegistered(s)
    ensures OpeningsRegistered(Apply(s, c))
  {
    hide Balances.Credit, Balances.Debit, Balances.Reserve, Balances.Release, Balances.DebitReserved;
    ApplyKeepsRegistrations(s, c);
  }
}
