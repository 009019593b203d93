/**
  Laws of whole ledger runs: the journal is balanced and append-only, every
  balance is what the journal says it is, money enters and leaves only through
  credit and debit, and compensation undoes exactly what it should.
 */
module LedgerLaws {
  import opened Decimals
  import opened DecimalLaws
  import opened Results
  import opened Balances
  import opened Postings
  import opened LedgerSpec

  type MarkerKind = k: Kind | IsMarker(k) witness CreditKind
  type MoveKind = k: Kind | k == TransferKind || k == SettleKind witness TransferKind

  datatype Command =
    | RegisterAssetCommand(asset: Asset)
    | RegisterAccountCommand(account: AccountId, owner: string)
    | OpenCommand(account: AccountId, assetId: AssetId)
    | MarkerCommand(marker: MarkerKind, op: OperationId, account: AccountId, assetId: AssetId, amount: Decimal)
    | MoveCommand(move: MoveKind, op: OperationId, from: AccountId, to: AccountId, assetId: AssetId, amount: Decimal)
    | CompensateCommand(op: OperationId, original: OperationId)

  function Apply(s: State, c: Command): State {
    match c
    case RegisterAssetCommand(asset) => RegisterAsset(s, asset).0
    case RegisterAccountCommand(account, owner) => RegisterAccount(s, account, owner).0
    case OpenCommand(account, asset) => OpenBalance(s, account, asset).0
    case MarkerCommand(kind, op, account, asset, amount) => Marker(s, kind, op, account, asset, amount).state
    case MoveCommand(kind, op, from, to, asset, amount) => Move(s, kind, op, from, to, asset, amount).state
    case CompensateCommand(op, original) => Compensate(s, op, original).state
  }

  /** A run of calls; a call that throws leaves the ledger as it was. */
  function Run(s: State, cs: seq<Command>): State {
    if |cs| == 0 then s else Apply(Run(s, cs[..|cs| - 1]), cs[|cs| - 1])
  }

  // ---- The journal ----

  /** Two postings of one amount on opposite sides balance, so the internal assertion never fires. */
  lemma OppositePairBalances(p: Posting, q: Posting)
    requires p.assetId == q.assetId && p.amount == q.amount && q.direction == Opposite(p.direction)
    ensures Balanced([p, q])
  {
    forall asset
      ensures Side([p, q], asset, DebitSide) == Side([p, q], asset, CreditSide)
    {
      PairSide(p, q, asset, DebitSide);
      PairSide(p, q, asset, CreditSide);
    }
  }

  lemma PairSide(p: Posting, q: Posting, asset: AssetId, direction: Direction)
    ensures Side([p, q], asset, direction)
            == (if p.assetId == asset && p.direction == direction then Value(p.amount) else 0.0)
               + (if q.assetId == asset && q.direction == direction then Value(q.amount) else 0.0)
  {
    var one, two := [p], [p, q];
    assert two[..|two| - 1] == one && one[..|one| - 1] == [];
    assert Side(one, asset, direction)
           == (if p.assetId == asset && p.direction == direction then Value(p.amount) else 0.0);
  }

  lemma {:induction false} FindInExtended(h: seq<Entry>, e: Entry, op: OperationId)
    ensures Find(h + [e], op) == if Find(h, op) < |h| then Find(h, op)
                                 else if e.operationId == op then |h| else |h| + 1
  {
    if |h| > 0 {
      assert (h + [e])[1..] == h[1..] + [e];
      FindInExtended(h[1..], e, op);
    }
  }

  lemma BatchBalances(e: Entry, n: nat)
    ensures Balanced(Batch(e, n))
  {
    var batch := Batch(e, n);
    OppositePairBalances(batch[0], batch[1]);
    assert batch == [batch[0], batch[1]];
  }

  /** `reversed` undoes `original` posting by posting, under a new operation and numbered from n. */
  ghost predicate AreReversed(reversed: seq<Posting>, original: seq<Posting>, op: OperationId, n: nat) {
    && |reversed| == |original|
    && forall j :: 0 <= j < |original| ==>
         var p := original[j];
         reversed[j] == Posting(PostingId(n + j), op, p.accountId, p.assetId, p.amount, Opposite(p.direction))
  }

  lemma ReversedOnce(a: seq<Posting>, b: seq<Posting>, original: seq<Posting>, op: OperationId, n: nat)
    requires AreReversed(a, original, op, n) && AreReversed(b, original, op, n)
    ensures a == b
  {
  }

  lemma FirstErrorStands(balances: map<string, Balance>, original: seq<Posting>, i: nat)
    requires i <= |original| && ChangesOf(balances, original[..i]).Err?
    ensures ChangesOf(balances, original) == ChangesOf(balances, original[..i])
    decreases |original| - i
  {
    if i < |original| {
      assert original[..i + 1][..i] == original[..i];
      FirstErrorStands(balances, original, i + 1);
    } else {
      assert original[..i] == original;
    }
  }

  lemma ReversalBatch(e: Entry, i: nat, op: OperationId, n: nat)
    ensures AreReversed(Batch(Reversal(e, op), n), Batch(e, i), op, n)
  {
  }

  lemma ChangesOfTwo(balances: map<string, Balance>, p: Posting, q: Posting)
    ensures ChangesOf(balances, [p, q]) ==
            var first, second := Changed(balances, p), Changed(balances, q);
            if first.Err? then Err(first.error) else if second.Err? then Err(second.error) else Ok([first.value, second.value])
  {
    var one, two := [p], [p, q];
    assert two[..|two| - 1] == one && one[..|one| - 1] == [];
    var first, second := Changed(balances, p), Changed(balances, q);
    if first.Ok? {
      var none: seq<Balance> := [];
      assert none + [first.value] == [first.value];
      assert ChangesOf(balances, one) == Ok([first.value]);
      if second.Ok? {
        assert [first.value] + [second.value] == [first.value, second.value];
      }
    } else {
      assert ChangesOf(balances, one[..0]) == Ok([]);
      assert ChangesOf(balances, one) == Err(first.error);
    }
  }

  lemma WrittenTwo(balances: map<string, Balance>, p: Posting, q: Posting, a: Balance, b: Balance)
    ensures Written(balances, [p, q], [a, b])
            == balances[Key(p.accountId, p.assetId) := a][Key(q.accountId, q.assetId) := b]
  {
    var one, two, first, both := [p], [p, q], [a], [a, b];
    assert two[..1] == one && one[..0] == [] && both[..1] == first && first[..0] == [];
    assert Written(balances, one, first) == balances[Key(p.accountId, p.assetId) := a];
  }

  /** Compensating posting by posting, as the source does, is the entry-level step. */
  lemma CompensateByPostings(s: State, op: OperationId, originalOp: OperationId, original: seq<Posting>)
    requires !Applied(s, op) && Find(s.history, originalOp) < |s.history|
    requires original == Batch(s.history[Find(s.history, originalOp)], 2 * Find(s.history, originalOp) + 1)
    ensures var r := Reversal(s.history[Find(s.history, originalOp)], op);
            var changes := ChangesOf(s.balances, original);
            (forall n :: AreReversed(Batch(r, n), original, op, n))
            && Compensate(s, op, originalOp)
               == if changes.Err? then Step(s, Err(changes.error))
                  else Record(s.(balances := Written(s.balances, original, changes.value)), r)
  {
    var i := Find(s.history, originalOp);
    var e := s.history[i];
    forall n
      ensures AreReversed(Batch(Reversal(e, op), n), original, op, n)
    {
      ReversalBatch(e, 2 * i + 1, op, n);
    }
    var p, q := original[0], original[1];
    assert original == [p, q];
    ChangesOfTwo(s.balances, p, q);
    var changes := ChangesOf(s.balances, original);
    if changes.Ok? {
      var a, b := changes.value[0], changes.value[1];
      WrittenTwo(s.balances, p, q, a, b);
      assert changes.value == [a, b];
    }
  }

  lemma EmptyBalances()
    ensures Balanced([])
  {
  }

  lemma BatchMore(ps: seq<Posting>, e: Entry, n: nat, op: OperationId)
    ensures ByOperation(ps + Batch(e, n), op)
            == ByOperation(ps, op) + (if e.operationId == op then Batch(e, n) else [])
  {
    var p, q := Batch(e, n)[0], Batch(e, n)[1];
    var all := ps + Batch(e, n);
    assert all[..|all| - 1] == ps + [p];
    assert (ps + [p])[..|ps|] == ps;
  }

  /** The journal ends with the two postings of the last applied operation. */
  lemma JournalLast(h: seq<Entry>) returns (p: Posting, q: Posting)
    requires |h| > 0
    ensures Journal(h) == Journal(h[..|h| - 1]) + [p, q]
    ensures [p, q] == Batch(h[|h| - 1], 2 * |h| - 1)
  {
    var batch := Batch(h[|h| - 1], 2 * |h| - 1);
    p, q := batch[0], batch[1];
  }

  lemma JournalOfExtended(h: seq<Entry>, e: Entry)
    ensures Journal(h + [e]) == Journal(h) + Batch(e, 2 * |h| + 1)
  {
    hide Journal, Batch;
    var h' := h + [e];
    var p, q := JournalLast(h');
    var batch := Batch(e, 2 * |h| + 1);
    assert h'[..|h'| - 1] == h && h'[|h'| - 1] == e && 2 * |h'| - 1 == 2 * |h| + 1;
    assert [p, q] == batch;
  }

  ghost predicate OwnsItsBatch(h: seq<Entry>, op: OperationId) {
    var i := Find(h, op);
    ByOperation(Journal(h), op) == if i < |h| then Batch(h[i], 2 * i + 1) else []
  }

  lemma OwnsItsBatchExtended(h: seq<Entry>, e: Entry, op: OperationId)
    requires OwnsItsBatch(h, op) && (e.operationId == op ==> Find(h, op) == |h|)
    ensures OwnsItsBatch(h + [e], op)
  {
    hide Journal, ByOperation, Batch, Find;
    FindInExtended(h, e, op);
    JournalOfExtended(h, e);
    BatchMore(Journal(h), e, 2 * |h| + 1, op);
    if e.operationId == op {
      assert (h + [e])[|h|] == e;
    } else if Find(h, op) < |h| {
      assert (h + [e])[Find(h, op)] == h[Find(h, op)];
    }
  }

  /** In the journal an operation owns exactly its own batch, or nothing. */
  lemma {:induction false} BatchOfOperation(h: seq<Entry>, op: OperationId)
    requires UniqueOperations(h)
    ensures OwnsItsBatch(h, op)
  {
    if |h| == 0 {
      assert Journal(h) == [];
    } else {
      hide OwnsItsBatch;
      var n := |h| - 1;
      BatchOfOperation(h[..n], op);
      assert h == h[..n] + [h[n]];
      OwnsItsBatchExtended(h[..n], h[n], op);
    }
  }

  lemma OriginalBatch(s: State, op: OperationId)
    requires Consistent(s)
    ensures var i := Find(s.history, op);
            ByOperation(s.postings, op) == if i < |s.history| then Batch(s.history[i], 2 * i + 1) else []
  {
    hide ByOperation, Batch, Find, UniqueOperations, TableMatches, SoundBalances, PositiveAmounts, Journal;
    BatchOfOperation(s.history, op);
  }

  /** `reconcile` never throws: in every reachable state each operation's postings balance. */
  lemma EveryOperationBalances(s: State, op: OperationId)
    requires Consistent(s)
    ensures Balanced(ByOperation(s.postings, op))
  {
    hide ByOperation, Batch, Consistent;
    OriginalBatch(s, op);
    var i := Find(s.history, op);
    if i < |s.history| {
      BatchBalances(s.history[i], 2 * i + 1);
    }
  }

  lemma JournalExtends(postings: seq<Posting>, n: nat, h: seq<Entry>, e: Entry)
    requires JournalMatches(postings, n, h)
    ensures JournalMatches(postings + Batch(e, n), n + 2, h + [e])
    ensures n == 2 * |h| + 1
  {
    var h' := h + [e];
    assert h'[..|h'| - 1] == h && h'[|h'| - 1] == e;
  }

  lemma OldRowExtends(receipt: OperationResult, op: OperationId, h: seq<Entry>, e: Entry)
    requires TableRow(receipt, op, h)
    ensures TableRow(receipt, op, h + [e])
  {
    FindInExtended(h, e, op);
  }

  lemma TableExtends(operations: map<OperationId, OperationResult>, h: seq<Entry>, e: Entry, n: nat)
    requires TableMatches(operations, h) && e.operationId !in operations && n == 2 * |h| + 1
    ensures TableMatches(operations[e.operationId := Receipt(e, n)], h + [e])
  {
    var table := operations[e.operationId := Receipt(e, n)];
    forall op | op in table
      ensures TableRow(table[op], op, h + [e])
    {
      if op in operations {
        OldRowExtends(operations[op], op, h, e);
      } else {
        FindInExtended(h, e, op);
        assert (h + [e])[|h|] == e;
      }
    }
  }

  lemma UniqueExtends(operations: map<OperationId, OperationResult>, h: seq<Entry>, e: Entry)
    requires TableMatches(operations, h) && e.operationId !in operations && UniqueOperations(h)
    ensures UniqueOperations(h + [e])
  {
  }

  lemma AmountsExtend(h: seq<Entry>, e: Entry)
    requires PositiveAmounts(h) && Value(e.amount) > 0.0
    ensures PositiveAmounts(h + [e])
  {
  }

  lemma RecordKeepsConsistent(s: State, balances: map<string, Balance>, e: Entry)
    requires Consistent(s) && !Applied(s, e.operationId) && Value(e.amount) > 0.0 && SoundBalances(balances)
    ensures Consistent(Record(s.(balances := balances), e).state)
  {
    var h, n := s.history, s.nextPosting;
    JournalExtends(s.postings, n, h, e);
    TableExtends(s.operations, h, e, n);
    UniqueExtends(s.operations, h, e);
    AmountsExtend(h, e);
  }

  lemma MarkerKeepsConsistent(s: State, kind: MarkerKind, op: OperationId, account: AccountId, asset: AssetId, amount: Decimal)
    requires Consistent(s)
    ensures Consistent(Marker(s, kind, op, account, asset, amount).state)
  {
    var r := Marker(s, kind, op, account, asset, amount);
    if !Applied(s, op) && r.result.Ok? {
      var after := MarkerChange(kind, s.balances[Key(account, asset)], amount).value;
      RecordKeepsConsistent(s, s.balances[Key(account, asset) := after],
                            Entry(kind, op, account, SYSTEM, asset, amount, MarkerDirection(kind)));
    }
  }

  lemma MoveKeepsConsistent(s: State, kind: MoveKind, op: OperationId, from: AccountId, to: AccountId, asset: AssetId, amount: Decimal)
    requires Consistent(s)
    ensures Consistent(Move(s, kind, op, from, to, asset, amount).state)
  {
    var r := Move(s, kind, op, from, to, asset, amount);
    if !Applied(s, op) && r.result.Ok? {
      var debited := MoveOut(kind, s.balances[Key(from, asset)], amount).value;
      var credited := Credit(s.balances[Key(to, asset)], amount).value;
      RecordKeepsConsistent(s, s.balances[Key(from, asset) := debited][Key(to, asset) := credited],
                            Entry(kind, op, from, to, asset, amount, DebitSide));
    }
  }

  /** The balances after both postings of a reversal, each computed from the state before. */
  ghost function CompensatedBalances(s: State, e: Entry): (b: map<string, Balance>)
    requires Key(e.account, e.assetId) in s.balances && Key(e.counter, e.assetId) in s.balances
    requires Repost(e.direction, s.balances[Key(e.account, e.assetId)], e.amount).Ok?
    requires Repost(Opposite(e.direction), s.balances[Key(e.counter, e.assetId)], e.amount).Ok?
    ensures SoundBalances(s.balances) ==> SoundBalances(b)
  {
    s.balances[Key(e.account, e.assetId) := Repost(e.direction, s.balances[Key(e.account, e.assetId)], e.amount).value]
              [Key(e.counter, e.assetId) :=
                 Repost(Opposite(e.direction), s.balances[Key(e.counter, e.assetId)], e.amount).value]
  }

  lemma CompensateKeepsConsistent(s: State, op: OperationId, original: OperationId)
    requires Consistent(s)
    ensures Consistent(Compensate(s, op, original).state)
  {
    var r := Compensate(s, op, original);
    if !Applied(s, op) && r.result.Ok? {
      var e := Reversal(s.history[Find(s.history, original)], op);
      RecordKeepsConsistent(s, CompensatedBalances(s, e), e);
    }
  }

  lemma ApplyKeepsConsistent(s: State, c: Command)
    requires Consistent(s)
    ensures Consistent(Apply(s, c))
  {
    match c
    case RegisterAssetCommand(asset) =>
    case RegisterAccountCommand(account, owner) =>
    case OpenCommand(account, asset) =>
    case MarkerCommand(kind, op, account, asset, amount) => MarkerKeepsConsistent(s, kind, op, account, asset, amount);
    case MoveCommand(kind, op, from, to, asset, amount) => MoveKeepsConsistent(s, kind, op, from, to, asset, amount);
    case CompensateCommand(op, original) => CompensateKeepsConsistent(s, op, original);
  }

  /** In every run both parts of every balance stay non-negative and the journal is the history's. */
  lemma {:induction false} EveryRunIsConsistent(cs: seq<Command>)
    ensures Consistent(Run(INITIAL, cs))
  {
    if |cs| > 0 {
      EveryRunIsConsistent(cs[..|cs| - 1]);
      ApplyKeepsConsistent(Run(INITIAL, cs[..|cs| - 1]), cs[|cs| - 1]);
    }
  }
}
