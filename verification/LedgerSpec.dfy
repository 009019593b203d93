/**
  What each ledger operation does, on values
  (apps/backend/src/modules/ledger/domain/ledger.ts). The class in Ledger.dfy is
  proved to compute these functions; the laws about whole runs are in LedgerLaws.dfy.
 */
module LedgerSpec {
  import opened Decimals
  import opened Results
  import opened Balances
  import opened Postings

  type AccountId = string
  type AssetId = string
  type OperationId = string
  type Outcome = Result<OperationResult, LedgerError>

  const SYSTEM: AccountId := "system"

  datatype Asset = Asset(id: AssetId, code: string, scale: nat)
  datatype OperationResult = OperationResult(operationId: OperationId, postingIds: seq<PostingId>)

  datatype Kind = CreditKind | DebitKind | ReserveKind | ReleaseKind | TransferKind | SettleKind | CompensateKind

  /**
    One applied operation. Its journal batch is a posting of `amount` on `account` in
    `direction` and the opposite posting on `counter`. The source keeps the postings
    only; the kind, which postings do not show, is the ghost part of the ledger.
   */
  datatype Entry = Entry(
    kind: Kind, operationId: OperationId, account: AccountId, counter: AccountId,
    assetId: AssetId, amount: Decimal, direction: Direction)

  datatype State = State(
    assets: map<AssetId, Asset>,
    accounts: map<AccountId, string>,
    balances: map<string, Balance>,
    openings: seq<(AccountId, AssetId)>,
    postings: seq<Posting>,
    operations: map<OperationId, OperationResult>,
    nextPosting: nat,
    history: seq<Entry>)

  datatype Step = Step(state: State, result: Outcome)

  const INITIAL: State := State(map[], map[], map[], [], [], map[], 1, [])

  function Key(account: AccountId, asset: AssetId): string {
    account + ":" + asset
  }

  /** The two postings of an entry, the first numbered n. */
  function Batch(e: Entry, n: nat): seq<Posting> {
    [ Posting(PostingId(n), e.operationId, e.account, e.assetId, e.amount, e.direction),
      Posting(PostingId(n + 1), e.operationId, e.counter, e.assetId, e.amount, Opposite(e.direction)) ]
  }

  /** The journal is a function of the applied operations: two postings each, numbered from 1. */
  function Journal(h: seq<Entry>): (ps: seq<Posting>)
    ensures |ps| == 2 * |h|
  {
    if |h| == 0 then []
    else
      var earlier := Journal(h[..|h| - 1]);
      earlier + Batch(h[|h| - 1], |earlier| + 1)
  }

  function Receipt(e: Entry, n: nat): OperationResult {
    OperationResult(e.operationId, [PostingId(n), PostingId(n + 1)])
  }

  predicate Applied(s: State, op: OperationId) {
    op in s.operations
  }

  function GetBalance(s: State, account: AccountId, asset: AssetId): Result<Balance, LedgerError> {
    if Key(account, asset) in s.balances then Ok(s.balances[Key(account, asset)]) else Err(BalanceMissing)
  }

  function Record(s: State, e: Entry): Step {
    var receipt := Receipt(e, s.nextPosting);
    Step(s.(postings := s.postings + Batch(e, s.nextPosting),
            operations := s.operations[e.operationId := receipt],
            nextPosting := s.nextPosting + 2,
            history := s.history + [e]),
         Ok(receipt))
  }

  // ---- Catalogue ----

  function RegisterAsset(s: State, asset: Asset): (State, Result<(), LedgerError>) {
    if asset.id !in s.assets then (s.(assets := s.assets[asset.id := asset]), Ok(()))
    else if s.assets[asset.id].code == asset.code && s.assets[asset.id].scale == asset.scale then (s, Ok(()))
    else (s, Err(AssetExists))
  }

  function RegisterAccount(s: State, account: AccountId, owner: string): (State, Result<(), LedgerError>) {
    if account in s.accounts then (s, Err(AccountExists))
    else (s.(accounts := s.accounts[account := owner]), Ok(()))
  }

  function OpenBalance(s: State, account: AccountId, asset: AssetId): (State, Result<(), LedgerError>) {
    if account !in s.accounts then (s, Err(AccountMissing))
    else if asset !in s.assets then (s, Err(AssetMissing))
    else if Key(account, asset) in s.balances then (s, Err(BalanceExists))
    else (s.(balances := s.balances[Key(account, asset) := EMPTY], openings := s.openings + [(account, asset)]), Ok(()))
  }

  // ---- One account against the system: credit, debit, reserve, release ----

  predicate IsMarker(kind: Kind) {
    kind in {CreditKind, DebitKind, ReserveKind, ReleaseKind}
  }

  function MarkerChange(kind: Kind, b: Balance, amount: Decimal): Result<Balance, LedgerError>
    requires IsMarker(kind)
  {
    match kind
    case CreditKind => Credit(b, amount)
    case DebitKind => Debit(b, amount)
    case ReserveKind => Reserve(b, amount)
    case ReleaseKind => Release(b, amount)
  }

  function MarkerDirection(kind: Kind): Direction {
    if kind == CreditKind || kind == ReleaseKind then CreditSide else DebitSide
  }

  function Marker(s: State, kind: Kind, op: OperationId, account: AccountId, asset: AssetId, amount: Decimal): Step
    requires IsMarker(kind)
  {
    if Applied(s, op) then Step(s, Ok(s.operations[op]))
    else
      var before := GetBalance(s, account, asset);
      if before.Err? then Step(s, Err(before.error))
      else
        var after := MarkerChange(kind, before.value, amount);
        if after.Err? then Step(s, Err(after.error))
        else Record(s.(balances := s.balances[Key(account, asset) := after.value]),
                    Entry(kind, op, account, SYSTEM, asset, amount, MarkerDirection(kind)))
  }

  // ---- Between accounts: transfer and settleReservedTransfer ----

  function MoveOut(kind: Kind, b: Balance, amount: Decimal): Result<Balance, LedgerError> {
    if kind == SettleKind then DebitReserved(b, amount) else Debit(b, amount)
  }

  function Move(s: State, kind: Kind, op: OperationId, from: AccountId, to: AccountId, asset: AssetId, amount: Decimal): Step {
    if Applied(s, op) then Step(s, Ok(s.operations[op]))
    else if !Positive(amount) then Step(s, Err(AmountNotPositive))
    else
      var source := GetBalance(s, from, asset);
      if source.Err? then Step(s, Err(source.error))
      else
        var debited := MoveOut(kind, source.value, amount);
        if debited.Err? then Step(s, Err(debited.error))
        else
          var target := GetBalance(s, to, asset);
          if target.Err? then Step(s, Err(target.error))
          else
            var credited := Credit(target.value, amount);
            if credited.Err? then Step(s, Err(credited.error))
            else Record(s.(balances := s.balances[Key(from, asset) := debited.value][Key(to, asset) := credited.value]),
                        Entry(kind, op, from, to, asset, amount, DebitSide))
  }

  // ---- Compensation ----

  /** Where in the history an operation was applied; |h| when it was not. */
  function Find(h: seq<Entry>, op: OperationId): (i: nat)
    ensures i <= |h|
    ensures i < |h| ==> h[i].operationId == op
    ensures forall j :: 0 <= j < i ==> h[j].operationId != op
  {
    if |h| == 0 || h[0].operationId == op then 0 else 1 + Find(h[1..], op)
  }

  function Reversal(e: Entry, op: OperationId): Entry {
    Entry(CompensateKind, op, e.account, e.counter, e.assetId, e.amount, Opposite(e.direction))
  }

  /** The effect on a balance of a compensating posting in the given direction. */
  function Repost(direction: Direction, b: Balance, amount: Decimal): Result<Balance, LedgerError> {
    if direction == CreditSide then Credit(b, amount) else Debit(b, amount)
  }

  /** The balance of a posting's account after that posting is taken back. */
  function Changed(balances: map<string, Balance>, p: Posting): Result<Balance, LedgerError> {
    if Key(p.accountId, p.assetId) !in balances then Err(BalanceMissing)
    else Repost(Opposite(p.direction), balances[Key(p.accountId, p.assetId)], p.amount)
  }

  /** All new balances of a compensation, each computed from the balances before it. */
  function ChangesOf(balances: map<string, Balance>, original: seq<Posting>): (r: Result<seq<Balance>, LedgerError>)
    ensures r.Ok? ==> |r.value| == |original|
  {
    if |original| == 0 then Ok([])
    else
      var earlier := ChangesOf(balances, original[..|original| - 1]);
      if earlier.Err? then earlier
      else
        var last := Changed(balances, original[|original| - 1]);
        if last.Err? then Err(last.error) else Ok(earlier.value + [last.value])
  }

  /** The new balances written one after the other, so a later posting on the same key wins. */
  function Written(balances: map<string, Balance>, original: seq<Posting>, changes: seq<Balance>): map<string, Balance>
    requires |original| == |changes|
  {
    if |original| == 0 then balances
    else
      var n := |original| - 1;
      Written(balances, original[..n], changes[..n])[Key(original[n].accountId, original[n].assetId) := changes[n]]
  }

  function Compensate(s: State, op: OperationId, original: OperationId): Step {
    if Applied(s, op) then Step(s, Ok(s.operations[op]))
    else if Find(s.history, original) == |s.history| then Step(s, Err(OriginalMissing))
    else
      var r := Reversal(s.history[Find(s.history, original)], op);
      var first := GetBalance(s, r.account, r.assetId);
      if first.Err? then Step(s, Err(first.error))
      else
        var firstAfter := Repost(r.direction, first.value, r.amount);
        if firstAfter.Err? then Step(s, Err(firstAfter.error))
        else
          var second := GetBalance(s, r.counter, r.assetId);
          if second.Err? then Step(s, Err(second.error))
          else
            var secondAfter := Repost(Opposite(r.direction), second.value, r.amount);
            if secondAfter.Err? then Step(s, Err(secondAfter.error))
            else Record(s.(balances := s.balances[Key(r.account, r.assetId) := firstAfter.value]
                                                 [Key(r.counter, r.assetId) := secondAfter.value]), r)
  }

  // ---- What every reachable state satisfies ----

  ghost predicate UniqueOperations(h: seq<Entry>) {
    forall i, j :: 0 <= i < j < |h| ==> h[i].operationId != h[j].operationId
  }

  ghost predicate JournalMatches(postings: seq<Posting>, next: nat, h: seq<Entry>) {
    postings == Journal(h) && next == |postings| + 1
  }

  /** The operation table holds exactly the applied operations, each with its own receipt. */
  ghost predicate TableMatches(operations: map<OperationId, OperationResult>, h: seq<Entry>) {
    && (forall i :: 0 <= i < |h| ==> h[i].operationId in operations)
    && (forall op :: op in operations ==> TableRow(operations[op], op, h))
  }

  ghost predicate TableRow(receipt: OperationResult, op: OperationId, h: seq<Entry>) {
    var i := Find(h, op);
    i < |h| && receipt == Receipt(h[i], 2 * i + 1)
  }

  ghost predicate PositiveAmounts(h: seq<Entry>) {
    forall i :: 0 <= i < |h| ==> Value(h[i].amount) > 0.0
  }

  ghost predicate SoundBalances(balances: map<string, Balance>) {
    forall k :: k in balances ==> Sound(balances[k])
  }

  ghost predicate Consistent(s: State) {
    && JournalMatches(s.postings, s.nextPosting, s.history)
    && UniqueOperations(s.history)
    && TableMatches(s.operations, s.history)
    && PositiveAmounts(s.history)
    && SoundBalances(s.balances)
  }
}
