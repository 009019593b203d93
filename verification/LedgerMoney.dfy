/**
  Money in the ledger: each balance against the journal, and the total over all
  balances against what came in and went out.
 */
module LedgerMoney {
  import opened Decimals
  import opened DecimalLaws
  import opened Results
  import opened Balances
  import opened Postings
  import opened LedgerSpec
  import opened LedgerKeys
  import opened LedgerLaws

  // ---- Sums over the history ----

  datatype Measure =
    | Posted(account: AccountId, assetId: AssetId)      // CREDIT minus DEBIT postings
    | SettledOut(account: AccountId, assetId: AssetId)  // paid out of the reserved part
    | Held(account: AccountId, assetId: AssetId)        // reserved, minus released, minus paid out
    | External(assetId: AssetId)                        // credits minus debits

  ghost function Sign(d: Direction): real {
    if d == CreditSide then 1.0 else -1.0
  }

  ghost function Weight(m: Measure, e: Entry): real {
    var v := Value(e.amount);
    if e.assetId != m.assetId then 0.0
    else
      match m
      case Posted(a, _) =>
        (if e.account == a then Sign(e.direction) * v else 0.0) + (if e.counter == a then -Sign(e.direction) * v else 0.0)
      case SettledOut(a, _) => if e.kind == SettleKind && e.account == a then v else 0.0
      case Held(a, _) =>
        if e.account != a then 0.0
        else if e.kind == ReserveKind then v
        else if e.kind == ReleaseKind || e.kind == SettleKind then -v
        else 0.0
      case External(_) => if e.kind == CreditKind then v else if e.kind == DebitKind then -v else 0.0
  }

  ghost function Sum(m: Measure, h: seq<Entry>): real {
    if |h| == 0 then 0.0 else Sum(m, h[..|h| - 1]) + Weight(m, h[|h| - 1])
  }

  lemma SumExtends(m: Measure, h: seq<Entry>, e: Entry)
    ensures Sum(m, h + [e]) == Sum(m, h) + Weight(m, e)
  {
    assert (h + [e])[..|h|] == h;
  }

  /** CREDIT minus DEBIT postings of one account and asset, read off the journal itself. */
  ghost function PostedIn(ps: seq<Posting>, account: AccountId, asset: AssetId): real {
    if |ps| == 0 then 0.0
    else
      var p := ps[|ps| - 1];
      PostedIn(ps[..|ps| - 1], account, asset)
      + (if p.accountId == account && p.assetId == asset then Sign(p.direction) * Value(p.amount) else 0.0)
  }

  lemma {:induction false} PostedIsInJournal(h: seq<Entry>, account: AccountId, asset: AssetId)
    ensures PostedIn(Journal(h), account, asset) == Sum(Posted(account, asset), h)
  {
    if |h| > 0 {
      var n := |h| - 1;
      PostedIsInJournal(h[..n], account, asset);
      var p, q := JournalLast(h);
      PostedTwoMore(Journal(h[..n]), p, q, account, asset);
      BatchPosts(h[n], 2 * |h| - 1, p, q, account, asset);
    }
  }

  lemma BatchPosts(e: Entry, n: nat, p: Posting, q: Posting, account: AccountId, asset: AssetId)
    requires [p, q] == Batch(e, n)
    ensures Weight(Posted(account, asset), e)
            == (if p.accountId == account && p.assetId == asset then Sign(p.direction) * Value(p.amount) else 0.0)
               + (if q.accountId == account && q.assetId == asset then Sign(q.direction) * Value(q.amount) else 0.0)
  {
    assert p == Batch(e, n)[0] && q == Batch(e, n)[1];
  }

  lemma PostedTwoMore(ps: seq<Posting>, p: Posting, q: Posting, account: AccountId, asset: AssetId)
    ensures PostedIn(ps + [p, q], account, asset) == PostedIn(ps, account, asset)
            + (if p.accountId == account && p.assetId == asset then Sign(p.direction) * Value(p.amount) else 0.0)
            + (if q.accountId == account && q.assetId == asset then Sign(q.direction) * Value(q.amount) else 0.0)
  {
    var all := ps + [p, q];
    assert all[..|all| - 1] == ps + [p];
    assert (ps + [p])[..|ps|] == ps;
  }

  // ---- Sums over the balances ----

  ghost function BalanceAt(balances: map<string, Balance>, account: AccountId, asset: AssetId): Balance {
    if Key(account, asset) in balances then balances[Key(account, asset)] else EMPTY
  }

  /** Everything held of one asset, over all opened balances. */
  ghost function Total(openings: seq<(AccountId, AssetId)>, balances: map<string, Balance>, asset: AssetId): real {
    if |openings| == 0 then 0.0
    else
      var last := openings[|openings| - 1];
      Total(openings[..|openings| - 1], balances, asset)
      + (if last.1 == asset then Holding(BalanceAt(balances, last.0, last.1)) else 0.0)
  }

  ghost predicate ColonFree(openings: seq<(AccountId, AssetId)>) {
    forall i :: 0 <= i < |openings| ==> ':' !in openings[i].0
  }

  ghost predicate Distinct(openings: seq<(AccountId, AssetId)>) {
    forall i, j :: 0 <= i < j < |openings| ==> openings[i] != openings[j]
  }

  lemma {:induction false} TotalUnaffected(openings: seq<(AccountId, AssetId)>, balances: map<string, Balance>,
                                           pair: (AccountId, AssetId), b: Balance, asset: AssetId)
    requires ColonFree(openings) && ':' !in pair.0 && pair !in openings
    ensures Total(openings, balances[Key(pair.0, pair.1) := b], asset) == Total(openings, balances, asset)
  {
    if |openings| > 0 {
      var n := |openings| - 1;
      TotalUnaffected(openings[..n], balances, pair, b, asset);
      KeyInjective(pair.0, pair.1, openings[n].0, openings[n].1);
      assert openings[n] in openings;
    }
  }

  /** Writing one balance moves the total of its asset by the change in its holding, and no other total. */
  lemma {:induction false} TotalUpdate(openings: seq<(AccountId, AssetId)>, balances: map<string, Balance>,
                                       pair: (AccountId, AssetId), b: Balance, asset: AssetId)
    requires ColonFree(openings) && Distinct(openings) && pair in openings
    ensures Total(openings, balances[Key(pair.0, pair.1) := b], asset) == Total(openings, balances, asset)
            + (if pair.1 == asset then Holding(b) - Holding(BalanceAt(balances, pair.0, pair.1)) else 0.0)
  {
    var n := |openings| - 1;
    var last := openings[n];
    var earlier := openings[..n];
    if last == pair {
      assert pair !in earlier;
      TotalUnaffected(earlier, balances, pair, b, asset);
    } else {
      assert pair in earlier;
      TotalUpdate(earlier, balances, pair, b, asset);
      var i :| 0 <= i < n && openings[i] == pair;
      KeyInjective(pair.0, pair.1, last.0, last.1);
    }
  }

  // ---- The invariants ----

  /** No colon in any account id used, and both sides of every applied operation are different accounts. */
  ghost predicate Separate(e: Entry) {
    ':' !in e.account && ':' !in e.counter && e.account != e.counter
  }

  ghost predicate Orderly(s: State) {
    && ColonFree(s.openings) && Distinct(s.openings)
    && (forall i :: 0 <= i < |s.openings| ==> Key(s.openings[i].0, s.openings[i].1) in s.balances)
    && (forall k :: k in s.balances ==> IsOpen(s.openings, k))
    && (forall i :: 0 <= i < |s.history| ==> Separate(s.history[i]))
  }

  ghost predicate IsOpen(openings: seq<(AccountId, AssetId)>, key: string) {
    exists pair :: pair in openings && Key(pair.0, pair.1) == key
  }

  /** One account's balance is what the journal and the history say. */
  ghost predicate PairHolds(s: State, a: AccountId, x: AssetId) {
    var b := BalanceAt(s.balances, a, x);
    && Value(b.available) == Sum(Posted(a, x), s.history) + Sum(SettledOut(a, x), s.history)
    && Value(b.reserved) == Sum(Held(a, x), s.history)
  }

  /** All that is held of an asset came in by credit and did not go out by debit. */
  ghost predicate TotalHolds(s: State, x: AssetId) {
    Total(s.openings, s.balances, x) == Sum(External(x), s.history)
  }

  lemma OpenPair(s: State, a: AccountId, x: AssetId)
    requires Orderly(s) && ':' !in a && Key(a, x) in s.balances
    ensures (a, x) in s.openings
  {
    assert IsOpen(s.openings, Key(a, x));
    var pair :| pair in s.openings && Key(pair.0, pair.1) == Key(a, x);
    KeyInjective(a, x, pair.0, pair.1);
  }

  /** An operation whose balance change at (a, x) matches its weights keeps the pair's equation. */
  lemma PairExtends(s: State, balances: map<string, Balance>, e: Entry, a: AccountId, x: AssetId)
    requires PairHolds(s, a, x)
    requires var before, after := BalanceAt(s.balances, a, x), BalanceAt(balances, a, x);
             Value(after.available) - Value(before.available) == Weight(Posted(a, x), e) + Weight(SettledOut(a, x), e)
             && Value(after.reserved) - Value(before.reserved) == Weight(Held(a, x), e)
    ensures PairHolds(Record(s.(balances := balances), e).state, a, x)
  {
    SumExtends(Posted(a, x), s.history, e);
    SumExtends(SettledOut(a, x), s.history, e);
    SumExtends(Held(a, x), s.history, e);
  }

  /** Writing one open balance. */
  lemma OneWrite(s: State, account: AccountId, asset: AssetId, b: Balance, x: AssetId)
    requires Orderly(s) && ':' !in account && Key(account, asset) in s.balances
    ensures Total(s.openings, s.balances[Key(account, asset) := b], x) == Total(s.openings, s.balances, x)
            + (if asset == x then Holding(b) - Holding(s.balances[Key(account, asset)]) else 0.0)
  {
    OpenPair(s, account, asset);
    TotalUpdate(s.openings, s.balances, (account, asset), b, x);
  }

  /** Writing two open balances of different accounts, one after the other. */
  lemma TwoWrites(s: State, from: AccountId, to: AccountId, asset: AssetId, b: Balance, c: Balance, x: AssetId)
    requires Orderly(s) && ':' !in from && ':' !in to && from != to
    requires Key(from, asset) in s.balances && Key(to, asset) in s.balances
    ensures Total(s.openings, s.balances[Key(from, asset) := b][Key(to, asset) := c], x)
            == Total(s.openings, s.balances, x)
               + (if asset == x then Holding(b) - Holding(s.balances[Key(from, asset)])
                                     + Holding(c) - Holding(s.balances[Key(to, asset)]) else 0.0)
  {
    OneWrite(s, from, asset, b, x);
    OpenPair(s, to, asset);
    KeyWithinAsset(from, to, asset);
    TotalUpdate(s.openings, s.balances[Key(from, asset) := b], (to, asset), c, x);
  }

  // ---- One step ----

  lemma OrderlyExtends(s: State, balances: map<string, Balance>, e: Entry)
    requires Orderly(s) && Separate(e) && balances.Keys == s.balances.Keys
    ensures Orderly(Record(s.(balances := balances), e).state)
  {
  }

  lemma MarkerMoney(s: State, kind: MarkerKind, op: OperationId, account: AccountId, asset: AssetId, amount: Decimal,
                    a: AccountId, x: AssetId)
    requires Orderly(s) && PairHolds(s, a, x) && TotalHolds(s, x)
    requires ':' !in account && account != SYSTEM && ':' !in a && a != SYSTEM
    ensures var s' := Marker(s, kind, op, account, asset, amount).state;
            Orderly(s') && PairHolds(s', a, x) && TotalHolds(s', x)
  {
    hide Key, Holding, Value, Weight;
    var r := Marker(s, kind, op, account, asset, amount);
    if !Applied(s, op) && r.result.Ok? {
      var before := s.balances[Key(account, asset)];
      var after := MarkerChange(kind, before, amount).value;
      var balances := s.balances[Key(account, asset) := after];
      var e := Entry(kind, op, account, SYSTEM, asset, amount, MarkerDirection(kind));
      OrderlyExtends(s, balances, e);
      KeyInjective(account, asset, a, x);
      MarkerWeights(kind, before, after, e, a, x);
      PairExtends(s, balances, e, a, x);
      OneWrite(s, account, asset, after, x);
      SumExtends(External(x), s.history, e);
    }
  }

  /** How a marker's weights follow from its effect on its own balance. */
  lemma MarkerWeights(kind: MarkerKind, before: Balance, after: Balance, e: Entry, a: AccountId, x: AssetId)
    requires MarkerChange(kind, before, e.amount) == Ok(after)
    requires e.kind == kind && e.counter == SYSTEM && e.direction == MarkerDirection(kind) && a != SYSTEM
    ensures var mine := e.account == a && e.assetId == x;
            Weight(Posted(a, x), e) + Weight(SettledOut(a, x), e)
            == (if mine then Value(after.available) - Value(before.available) else 0.0)
            && Weight(Held(a, x), e) == (if mine then Value(after.reserved) - Value(before.reserved) else 0.0)
    ensures Weight(External(x), e) == if e.assetId == x then Holding(after) - Holding(before) else 0.0
  {
  }

  /** What the two balances of a two-account operation must do for the equations to carry over. */
  ghost predicate Matches(b: Balance, b': Balance, c: Balance, c': Balance, e: Entry, a: AccountId, x: AssetId) {
    var first, second := e.account == a && e.assetId == x, e.counter == a && e.assetId == x;
    && Weight(Posted(a, x), e) + Weight(SettledOut(a, x), e)
       == (if first then Value(b'.available) - Value(b.available) else 0.0)
          + (if second then Value(c'.available) - Value(c.available) else 0.0)
    && Weight(Held(a, x), e)
       == (if first then Value(b'.reserved) - Value(b.reserved) else 0.0)
          + (if second then Value(c'.reserved) - Value(c.reserved) else 0.0)
    && Weight(External(x), e) == 0.0
    && Holding(b') + Holding(c') == Holding(b) + Holding(c)
  }

  lemma TwoAccountStep(s: State, e: Entry, b': Balance, c': Balance, a: AccountId, x: AssetId)
    requires Orderly(s) && PairHolds(s, a, x) && TotalHolds(s, x) && Separate(e) && ':' !in a
    requires Key(e.account, e.assetId) in s.balances && Key(e.counter, e.assetId) in s.balances
    requires Matches(s.balances[Key(e.account, e.assetId)], b', s.balances[Key(e.counter, e.assetId)], c', e, a, x)
    ensures var balances := s.balances[Key(e.account, e.assetId) := b'][Key(e.counter, e.assetId) := c'];
            var s' := Record(s.(balances := balances), e).state;
            Orderly(s') && PairHolds(s', a, x) && TotalHolds(s', x)
  {
    var balances := s.balances[Key(e.account, e.assetId) := b'][Key(e.counter, e.assetId) := c'];
    OrderlyExtends(s, balances, e);
    KeyInjective(e.account, e.assetId, a, x);
    KeyInjective(e.counter, e.assetId, a, x);
    PairExtends(s, balances, e, a, x);
    TwoWrites(s, e.account, e.counter, e.assetId, b', c', x);
    SumExtends(External(x), s.history, e);
  }

  lemma MoveMoney(s: State, kind: MoveKind, op: OperationId, from: AccountId, to: AccountId, asset: AssetId, amount: Decimal,
                  a: AccountId, x: AssetId)
    requires Orderly(s) && PairHolds(s, a, x) && TotalHolds(s, x)
    requires ':' !in from && ':' !in to && from != to && ':' !in a
    ensures var s' := Move(s, kind, op, from, to, asset, amount).state;
            Orderly(s') && PairHolds(s', a, x) && TotalHolds(s', x)
  {
    var r := Move(s, kind, op, from, to, asset, amount);
    if !Applied(s, op) && r.result.Ok? {
      var b, c := s.balances[Key(from, asset)], s.balances[Key(to, asset)];
      var b', c' := MoveOut(kind, b, amount).value, Credit(c, amount).value;
      var e := Entry(kind, op, from, to, asset, amount, DebitSide);
      MoveMatches(b, b', c, c', e, a, x);
      TwoAccountStep(s, e, b', c', a, x);
    }
  }

  lemma MoveMatches(b: Balance, b': Balance, c: Balance, c': Balance, e: Entry, a: AccountId, x: AssetId)
    requires e.kind == TransferKind || e.kind == SettleKind
    requires MoveOut(e.kind, b, e.amount) == Ok(b') && Credit(c, e.amount) == Ok(c')
    requires e.direction == DebitSide && e.account != e.counter
    ensures Matches(b, b', c, c', e, a, x)
  {
  }

  lemma CompensateMoney(s: State, op: OperationId, original: OperationId, a: AccountId, x: AssetId)
    requires Orderly(s) && PairHolds(s, a, x) && TotalHolds(s, x) && ':' !in a
    ensures var s' := Compensate(s, op, original).state;
            Orderly(s') && PairHolds(s', a, x) && TotalHolds(s', x)
  {
    var r := Compensate(s, op, original);
    if !Applied(s, op) && r.result.Ok? {
      var e := Reversal(s.history[Find(s.history, original)], op);
      var b, c := s.balances[Key(e.account, e.assetId)], s.balances[Key(e.counter, e.assetId)];
      var b', c' := Repost(e.direction, b, e.amount).value, Repost(Opposite(e.direction), c, e.amount).value;
      RepostMatches(b, b', c, c', e, a, x);
      TwoAccountStep(s, e, b', c', a, x);
    }
  }

  lemma RepostMatches(b: Balance, b': Balance, c: Balance, c': Balance, e: Entry, a: AccountId, x: AssetId)
    requires e.kind == CompensateKind && e.account != e.counter
    requires Repost(e.direction, b, e.amount) == Ok(b') && Repost(Opposite(e.direction), c, e.amount) == Ok(c')
    ensures Matches(b, b', c, c', e, a, x)
  {
  }

  lemma OpenMoney(s: State, account: AccountId, asset: AssetId, a: AccountId, x: AssetId)
    requires Orderly(s) && PairHolds(s, a, x) && TotalHolds(s, x) && ':' !in account && ':' !in a
    ensures var s' := OpenBalance(s, account, asset).0;
            Orderly(s') && PairHolds(s', a, x) && TotalHolds(s', x)
  {
    if OpenBalance(s, account, asset).1.Ok? {
      NotYetOpen(s, account, asset);
      OpeningKeepsOrder(s, account, asset);
      OpeningKeepsTotal(s.openings, s.balances, account, asset, x);
      OpeningKeepsPairs(s.balances, account, asset, a, x);
    }
  }

  lemma OpeningKeepsPairs(balances: map<string, Balance>, account: AccountId, asset: AssetId, a: AccountId, x: AssetId)
    requires Key(account, asset) !in balances
    ensures BalanceAt(balances[Key(account, asset) := EMPTY], a, x) == BalanceAt(balances, a, x)
  {
  }

  lemma OpeningKeepsTotal(openings: seq<(AccountId, AssetId)>, balances: map<string, Balance>,
                          account: AccountId, asset: AssetId, x: AssetId)
    requires ColonFree(openings) && ':' !in account && (account, asset) !in openings
    ensures Total(openings + [(account, asset)], balances[Key(account, asset) := EMPTY], x) == Total(openings, balances, x)
  {
    TotalUnaffected(openings, balances, (account, asset), EMPTY, x);
    var longer := openings + [(account, asset)];
    assert longer[..|longer| - 1] == openings;
    assert Holding(EMPTY) == 0.0;
  }

  lemma NotYetOpen(s: State, account: AccountId, asset: AssetId)
    requires Orderly(s) && Key(account, asset) !in s.balances
    ensures (account, asset) !in s.openings
  {
  }

  lemma OpeningKeepsOrder(s: State, account: AccountId, asset: AssetId)
    requires Orderly(s) && ':' !in account && (account, asset) !in s.openings
    requires OpenBalance(s, account, asset).1.Ok?
    ensures Orderly(OpenBalance(s, account, asset).0)
  {
    var s' := OpenBalance(s, account, asset).0;
    forall k | k in s'.balances
      ensures IsOpen(s'.openings, k)
    {
      if k in s.balances {
        assert IsOpen(s.openings, k);
        var pair :| pair in s.openings && Key(pair.0, pair.1) == k;
        assert pair in s'.openings;
      } else {
        assert (account, asset) in s'.openings;
      }
    }
  }

  // ---- Whole runs ----

  /**
    The calls the ledger's equations survive: account ids without a colon, and
    transfers between different accounts, the system account counting as one.
   */
  predicate Admissible(c: Command) {
    match c
    case RegisterAssetCommand(_) => true
    case RegisterAccountCommand(_, _) => true
    case OpenCommand(account, _) => ':' !in account
    case MarkerCommand(_, _, account, _, _) => ':' !in account && account != SYSTEM
    case MoveCommand(_, _, from, to, _, _) => ':' !in from && ':' !in to && from != to
    case CompensateCommand(_, _) => true
  }

  lemma ApplyMoney(s: State, c: Command, a: AccountId, x: AssetId)
    requires Orderly(s) && PairHolds(s, a, x) && TotalHolds(s, x)
    requires Admissible(c) && ':' !in a && a != SYSTEM
    ensures var s' := Apply(s, c); Orderly(s') && PairHolds(s', a, x) && TotalHolds(s', x)
  {
    match c
    case RegisterAssetCommand(asset) =>
    case RegisterAccountCommand(account, owner) =>
    case OpenCommand(account, asset) => OpenMoney(s, account, asset, a, x);
    case MarkerCommand(kind, op, account, asset, amount) => MarkerMoney(s, kind, op, account, asset, amount, a, x);
    case MoveCommand(kind, op, from, to, asset, amount) => MoveMoney(s, kind, op, from, to, asset, amount, a, x);
    case CompensateCommand(op, original) => CompensateMoney(s, op, original, a, x);
  }

  lemma {:induction false} RunMoney(cs: seq<Command>, a: AccountId, x: AssetId)
    requires (forall i :: 0 <= i < |cs| ==> Admissible(cs[i])) && ':' !in a && a != SYSTEM
    ensures var s := Run(INITIAL, cs); Orderly(s) && PairHolds(s, a, x) && TotalHolds(s, x)
  {
    if |cs| > 0 {
      RunMoney(cs[..|cs| - 1], a, x);
      ApplyMoney(Run(INITIAL, cs[..|cs| - 1]), cs[|cs| - 1], a, x);
    }
  }

  /**
    In every run, for every account but the system account and every asset: available
    is CREDIT minus DEBIT postings of the journal plus what the account paid out of
    its reserved part, and both parts are non-negative.
   */
  lemma BalancesFollowTheJournal(cs: seq<Command>, a: AccountId, x: AssetId)
    requires (forall i :: 0 <= i < |cs| ==> Admissible(cs[i])) && ':' !in a && a != SYSTEM
    ensures var s := Run(INITIAL, cs);
            var b := BalanceAt(s.balances, a, x);
            Value(b.available) == PostedIn(s.postings, a, x) + Sum(SettledOut(a, x), s.history)
            && Value(b.reserved) == Sum(Held(a, x), s.history)
            && Value(b.available) >= 0.0 && Value(b.reserved) >= 0.0
  {
    RunMoney(cs, a, x);
    EveryRunIsConsistent(cs);
    PostedIsInJournal(Run(INITIAL, cs).history, a, x);
  }

  /** In every run, all balances of an asset together hold its external credits minus its external debits. */
  lemma MoneyIsConserved(cs: seq<Command>, x: AssetId)
    requires forall i :: 0 <= i < |cs| ==> Admissible(cs[i])
    ensures var s := Run(INITIAL, cs); Total(s.openings, s.balances, x) == Sum(External(x), s.history)
  {
    RunMoney(cs, "", x);
  }

  // ---- Where the limits lie ----

  /**
    A transfer or reserved settlement that goes through leaves the total of its asset
    unchanged exactly when its two accounts differ: on one account the second balance
    write overwrites the first, and the amount is created.
   */
  lemma MoveConservesIffDistinct(s: State, kind: MoveKind, op: OperationId, from: AccountId, to: AccountId,
                                 asset: AssetId, amount: Decimal)
    requires Orderly(s) && ':' !in from && ':' !in to && !Applied(s, op)
    requires Move(s, kind, op, from, to, asset, amount).result.Ok?
    ensures var s' := Move(s, kind, op, from, to, asset, amount).state;
            (Total(s'.openings, s'.balances, asset) == Total(s.openings, s.balances, asset) <==> from != to)
            && (from == to ==> Total(s'.openings, s'.balances, asset)
                               == Total(s.openings, s.balances, asset) + Value(amount))
  {
    var b, c := s.balances[Key(from, asset)], s.balances[Key(to, asset)];
    var b', c' := MoveOut(kind, b, amount).value, Credit(c, amount).value;
    if from == to {
      OneWrite(s, to, asset, c', asset);
      assert s.balances[Key(from, asset) := b'][Key(to, asset) := c'] == s.balances[Key(to, asset) := c'];
    } else {
      TwoWrites(s, from, to, asset, b', c', asset);
    }
  }
}
