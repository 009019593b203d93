/**
  Concrete runs, followed call by call: a transfer to the same account creates money, a
  market of twelve calls admits a SELL order whose fee equals its notional, and the
  settlement of that order stops behind its first leg.
 */
module LedgerExamples {
  import opened Decimals
  import opened Results
  import opened Balances
  import opened Postings
  import opened LedgerSpec
  import opened LedgerKeys
  import opened LedgerLaws
  import opened LedgerMoney
  import opened Settlement
  import opened SettlementLaws

  // ---- Following a run ----

  /** The registered ids, the operations, the available amounts and the history of a ledger. */
  datatype Outline = Outline(assets: set<AssetId>, accounts: set<AccountId>, operations: set<OperationId>, available: map<string, real>,
                             history: seq<Entry>)

  const NOTHING := Outline({}, {}, {}, map[], [])

  ghost predicate Fits(s: State, o: Outline) {
    && s.assets.Keys == o.assets && s.accounts.Keys == o.accounts && s.operations.Keys == o.operations
    && s.balances.Keys == o.available.Keys && s.history == o.history
    && forall k :: k in o.available ==> Value(s.balances[k].available) == o.available[k]
  }

  lemma NothingFits()
    ensures Fits(Run(INITIAL, []), NOTHING)
  {
  }

  lemma RunOneMore(cs: seq<Command>, c: Command)
    ensures Run(INITIAL, cs + [c]) == Apply(Run(INITIAL, cs), c)
  {
    assert (cs + [c])[..|cs|] == cs;
  }

  lemma AssetFits(cs: seq<Command>, o: Outline, id: AssetId)
    requires Fits(Run(INITIAL, cs), o) && id !in o.assets
    ensures Fits(Run(INITIAL, cs + [RegisterAssetCommand(Asset(id, id, 18))]), o.(assets := o.assets + {id}))
  {
    RunOneMore(cs, RegisterAssetCommand(Asset(id, id, 18)));
    hide Run;
  }

  lemma AccountFits(cs: seq<Command>, o: Outline, id: AccountId)
    requires Fits(Run(INITIAL, cs), o) && id !in o.accounts
    ensures Fits(Run(INITIAL, cs + [RegisterAccountCommand(id, id)]), o.(accounts := o.accounts + {id}))
  {
    RunOneMore(cs, RegisterAccountCommand(id, id));
    hide Run;
  }

  lemma OpenFits(cs: seq<Command>, o: Outline, account: AccountId, asset: AssetId)
    requires Fits(Run(INITIAL, cs), o) && account in o.accounts && asset in o.assets && Key(account, asset) !in o.available
    ensures Fits(Run(INITIAL, cs + [OpenCommand(account, asset)]), o.(available := o.available[Key(account, asset) := 0.0]))
  {
    RunOneMore(cs, OpenCommand(account, asset));
    assert Value(EMPTY.available) == 0.0;
    hide Run, Ratio;
  }

  lemma CreditFits(cs: seq<Command>, o: Outline, op: OperationId, account: AccountId, asset: AssetId, amount: Decimal)
    requires Fits(Run(INITIAL, cs), o) && op !in o.operations && Key(account, asset) in o.available && Value(amount) > 0.0
    ensures Fits(Run(INITIAL, cs + [MarkerCommand(CreditKind, op, account, asset, amount)]),
                 o.(operations := o.operations + {op},
                    available := o.available[Key(account, asset) := o.available[Key(account, asset)] + Value(amount)],
                    history := o.history + [Entry(CreditKind, op, account, SYSTEM, asset, amount, CreditSide)]))
  {
    RunOneMore(cs, MarkerCommand(CreditKind, op, account, asset, amount));
    hide Run, Ratio;
  }

  // ---- A transfer to the same account ----

  function SelfTransfer(amount: Decimal): seq<Command> {
    [ RegisterAssetCommand(Asset("USD", "USD", 18)), RegisterAccountCommand("a", "a"), OpenCommand("a", "USD"),
      MarkerCommand(CreditKind, "in", "a", "USD", amount), MoveCommand(TransferKind, "move", "a", "a", "USD", amount) ]
  }

  /** Credited once, moved from the account to itself: the ledger holds twice what came in. */
  lemma SelfTransferDoubles(amount: Decimal)
    requires Value(amount) > 0.0
    ensures var s := Run(INITIAL, SelfTransfer(amount));
            Total(s.openings, s.balances, "USD") == 2.0 * Value(amount) && Sum(External("USD"), s.history) == Value(amount)
  {
    hide Value, Run, Total, Fits, Sum, Orderly, Admissible;
    NothingFits();
    var cs0: seq<Command> := [];
    var cs1 := cs0 + [RegisterAssetCommand(Asset("USD", "USD", 18))];
    var cs2 := cs1 + [RegisterAccountCommand("a", "a")];
    var cs3 := cs2 + [OpenCommand("a", "USD")];
    var cs4 := cs3 + [MarkerCommand(CreditKind, "in", "a", "USD", amount)];
    var move := MoveCommand(TransferKind, "move", "a", "a", "USD", amount);
    assert SelfTransfer(amount) == cs4 + [move];
    AssetFits(cs0, NOTHING, "USD");
    assert {} + {"USD"} == {"USD"} && {} + {"a"} == {"a"} && {} + {"in"} == {"in"};
    AccountFits(cs1, Outline({"USD"}, {}, {}, map[], []), "a");
    OpenFits(cs2, Outline({"USD"}, {"a"}, {}, map[], []), "a", "USD");
    var opening := Outline({"USD"}, {"a"}, {}, map[Key("a", "USD") := 0.0], []);
    CreditFits(cs3, opening, "in", "a", "USD", amount);
    assert opening.available[Key("a", "USD") := 0.0 + Value(amount)] == map[Key("a", "USD") := Value(amount)];
    var e := Entry(CreditKind, "in", "a", SYSTEM, "USD", amount, CreditSide);
    assert opening.history + [e] == [e] && cs4 == SelfTransfer(amount)[..4];
    CreditedOnce(cs4, amount);
    RunOneMore(cs4, move);
    MovedToItself(Run(INITIAL, cs4), amount);
  }

  /** Where the run stands before the transfer. */
  lemma CreditedOnce(cs: seq<Command>, amount: Decimal)
    requires Value(amount) > 0.0
    requires cs == SelfTransfer(amount)[..4]
    requires Fits(Run(INITIAL, cs), Outline({"USD"}, {"a"}, {"in"}, map[Key("a", "USD") := Value(amount)],
                                            [Entry(CreditKind, "in", "a", SYSTEM, "USD", amount, CreditSide)]))
    ensures var s := Run(INITIAL, cs);
            && Orderly(s) && "move" !in s.operations
            && Key("a", "USD") in s.balances && Value(s.balances[Key("a", "USD")].available) == Value(amount)
            && Total(s.openings, s.balances, "USD") == Value(amount) && Sum(External("USD"), s.history) == Value(amount)
  {
    assert "a" != SYSTEM;
    hide Run, Ratio, Orderly, Total;
    RunMoney(cs, "a", "USD");
    MoneyIsConserved(cs, "USD");
    var e := Entry(CreditKind, "in", "a", SYSTEM, "USD", amount, CreditSide);
    assert [e][..0] == [];
  }

  lemma MovedToItself(s: State, amount: Decimal)
    requires Orderly(s) && "move" !in s.operations && Value(amount) > 0.0
    requires Key("a", "USD") in s.balances && Value(s.balances[Key("a", "USD")].available) == Value(amount)
    ensures var s' := Apply(s, MoveCommand(TransferKind, "move", "a", "a", "USD", amount));
            Total(s'.openings, s'.balances, "USD") == Total(s.openings, s.balances, "USD") + Value(amount)
            && Sum(External("USD"), s'.history) == Sum(External("USD"), s.history)
  {
    hide Ratio, Orderly, Total;
    MoveConservesIffDistinct(s, TransferKind, "move", "a", "a", "USD", amount);
    SumExtends(External("USD"), s.history, Entry(TransferKind, "move", "a", "a", "USD", amount, DebitSide));
  }

  // ---- A SELL that is charged its whole notional ----

  const UNIT := Decimal(1, 18)

  /** User "u" holds one unit of base "B", the liquidity account "p" one unit of quote "Q"; fees go to "f". */
  function TinyMarket(): seq<Command> {
    [ RegisterAssetCommand(Asset("B", "B", 18)), RegisterAssetCommand(Asset("Q", "Q", 18)),
      RegisterAccountCommand("u", "u"), RegisterAccountCommand("p", "p"), RegisterAccountCommand("f", "f"),
      OpenCommand("u", "B"), OpenCommand("u", "Q"), OpenCommand("p", "B"), OpenCommand("p", "Q"), OpenCommand("f", "Q"),
      MarkerCommand(CreditKind, "c1", "u", "B", UNIT), MarkerCommand(CreditKind, "c2", "p", "Q", UNIT) ]
  }

  /** Sells that unit at price 1 and rate 0.6. */
  function TinySell(): Order {
    Order("o", "u", Sell, "B", "Q", UNIT, Notional(UNIT, Decimal(1, 0)), Fee(Notional(UNIT, Decimal(1, 0)), Decimal(6, 1)), "p", "f")
  }

  const TINY_KEYS := map["u:B" := 0.0, "u:Q" := 0.0, "p:B" := 0.0, "p:Q" := 0.0, "f:Q" := 0.0]

  lemma TinyKeys()
    ensures Key("u", "B") == "u:B" && Key("u", "Q") == "u:Q" && Key("p", "B") == "p:B" && Key("p", "Q") == "p:Q"
            && Key("f", "Q") == "f:Q"
  {
  }

  lemma TinyOpenings(cs5: seq<Command>)
    requires Fits(Run(INITIAL, cs5), Outline({"B", "Q"}, {"u", "p", "f"}, {}, map[], []))
    ensures Fits(Run(INITIAL, cs5 + [OpenCommand("u", "B")] + [OpenCommand("u", "Q")] + [OpenCommand("p", "B")]
                              + [OpenCommand("p", "Q")] + [OpenCommand("f", "Q")]),
                 Outline({"B", "Q"}, {"u", "p", "f"}, {}, TINY_KEYS, []))
  {
    hide Run, Fits;
    TinyKeys();
    var o5 := Outline({"B", "Q"}, {"u", "p", "f"}, {}, map[], []);
    OpenFits(cs5, o5, "u", "B");
    var cs6, o6 := cs5 + [OpenCommand("u", "B")], o5.(available := map["u:B" := 0.0]);
    OpenFits(cs6, o6, "u", "Q");
    var cs7, o7 := cs6 + [OpenCommand("u", "Q")], o6.(available := map["u:B" := 0.0, "u:Q" := 0.0]);
    OpenFits(cs7, o7, "p", "B");
    var cs8, o8 := cs7 + [OpenCommand("p", "B")], o7.(available := map["u:B" := 0.0, "u:Q" := 0.0, "p:B" := 0.0]);
    OpenFits(cs8, o8, "p", "Q");
    var cs9 := cs8 + [OpenCommand("p", "Q")];
    var o9 := o8.(available := map["u:B" := 0.0, "u:Q" := 0.0, "p:B" := 0.0, "p:Q" := 0.0]);
    OpenFits(cs9, o9, "f", "Q");
    assert o9.available["f:Q" := 0.0] == TINY_KEYS;
  }

  lemma TinyRegistrations()
    ensures Fits(Run(INITIAL, TinyMarket()[..5]), Outline({"B", "Q"}, {"u", "p", "f"}, {}, map[], []))
  {
    hide Run, Fits;
    NothingFits();
    var cs0: seq<Command> := [];
    var cs1 := cs0 + [RegisterAssetCommand(Asset("B", "B", 18))];
    var cs2 := cs1 + [RegisterAssetCommand(Asset("Q", "Q", 18))];
    var cs3 := cs2 + [RegisterAccountCommand("u", "u")];
    var cs4 := cs3 + [RegisterAccountCommand("p", "p")];
    AssetFits(cs0, NOTHING, "B");
    assert {} + {"B"} == {"B"} && {"B"} + {"Q"} == {"B", "Q"};
    AssetFits(cs1, Outline({"B"}, {}, {}, map[], []), "Q");
    assert {} + {"u"} == {"u"} && {"u"} + {"p"} == {"u", "p"} && {"u", "p"} + {"f"} == {"u", "p", "f"};
    AccountFits(cs2, Outline({"B", "Q"}, {}, {}, map[], []), "u");
    AccountFits(cs3, Outline({"B", "Q"}, {"u"}, {}, map[], []), "p");
    AccountFits(cs4, Outline({"B", "Q"}, {"u", "p"}, {}, map[], []), "f");
    assert TinyMarket()[..5] == cs4 + [RegisterAccountCommand("f", "f")];
  }

  const TINY_HISTORY := [Entry(CreditKind, "c1", "u", SYSTEM, "B", UNIT, CreditSide),
                         Entry(CreditKind, "c2", "p", SYSTEM, "Q", UNIT, CreditSide)]

  lemma TinyCredits(cs: seq<Command>)
    requires Fits(Run(INITIAL, cs), Outline({"B", "Q"}, {"u", "p", "f"}, {}, TINY_KEYS, []))
    ensures Fits(Run(INITIAL, cs + [MarkerCommand(CreditKind, "c1", "u", "B", UNIT)] + [MarkerCommand(CreditKind, "c2", "p", "Q", UNIT)]),
                 Outline({"B", "Q"}, {"u", "p", "f"}, {"c1", "c2"}, TINY_KEYS["u:B" := Value(UNIT)]["p:Q" := Value(UNIT)], TINY_HISTORY))
  {
    hide Run, Fits, Value;
    TinyKeys();
    UnitIsPositive();
    var o := Outline({"B", "Q"}, {"u", "p", "f"}, {}, TINY_KEYS, []);
    CreditFits(cs, o, "c1", "u", "B", UNIT);
    assert {} + {"c1"} == {"c1"} && {"c1"} + {"c2"} == {"c1", "c2"} && [] + [TINY_HISTORY[0]] == [TINY_HISTORY[0]];
    var o' := o.(operations := {"c1"}, available := TINY_KEYS["u:B" := Value(UNIT)], history := [TINY_HISTORY[0]]);
    CreditFits(cs + [MarkerCommand(CreditKind, "c1", "u", "B", UNIT)], o', "c2", "p", "Q", UNIT);
    assert [TINY_HISTORY[0]] + [TINY_HISTORY[1]] == TINY_HISTORY;
  }

  lemma TinyMarketFits()
    ensures Fits(Run(INITIAL, TinyMarket()),
                 Outline({"B", "Q"}, {"u", "p", "f"}, {"c1", "c2"}, TINY_KEYS["u:B" := Value(UNIT)]["p:Q" := Value(UNIT)], TINY_HISTORY))
  {
    hide Run, Fits, Value;
    TinyRegistrations();
    TinyOpenings(TinyMarket()[..5]);
    var cs10 := TinyMarket()[..5] + [OpenCommand("u", "B")] + [OpenCommand("u", "Q")] + [OpenCommand("p", "B")]
                + [OpenCommand("p", "Q")] + [OpenCommand("f", "Q")];
    TinyCredits(cs10);
    assert TinyMarket() == cs10 + [MarkerCommand(CreditKind, "c1", "u", "B", UNIT)] + [MarkerCommand(CreditKind, "c2", "p", "Q", UNIT)];
  }

  lemma UnitIsPositive()
    ensures Value(UNIT) > 0.0
  {
    assert !IsNegative(UNIT) && !IsZero(UNIT);
  }

  lemma TinyAmounts()
    ensures TinySell().quantity == UNIT && TinySell().notional == UNIT && TinySell().fee == UNIT
  {
    hide Value, Ratio, Fee, Notional;
    TinySellFee();
  }

  lemma TinyLegsAreFresh(s: State)
    requires s.operations.Keys == {"c1", "c2"}
    ensures FreshLegs(s, Legs(TinySell()))
  {
    var o := TinySell();
    hide Value, Fee, Notional, Add, Subtract;
    forall i | 0 <= i < |Legs(o)|
      ensures !Applied(s, Legs(o)[i].op) && ColonFreeLeg(Legs(o)[i])
    {
      assert |Legs(o)[i].op| > 2;
    }
    forall i, j | 0 <= i < j < |Legs(o)|
      ensures Legs(o)[i].op != Legs(o)[j].op
    {
      LegIdsDistinct(o, o, i, j);
    }
  }

  lemma TinyCheckPasses(s: State)
    requires s.balances.Keys == TINY_KEYS.Keys
    requires Value(s.balances["u:B"].available) == Value(UNIT) && Value(s.balances["p:Q"].available) == Value(UNIT)
    ensures EnsureLiquidity(s, TinySell()) == Ok(())
  {
    hide Value, Fee, Notional;
    TinyKeys();
    TinyAmounts();
    CheckComparesFunds(s, TinySell());
  }

  /** The market is reached, and the order passes the check there. */
  lemma TinySellAdmitted()
    ensures Admitted(Run(INITIAL, TinyMarket()), TinySell())
  {
    hide Value, Run, EnsureLiquidity, FreshLegs, Fee, Notional, SoundBalances, Legs, TinyMarket;
    var s := Run(INITIAL, TinyMarket());
    TinyMarketFits();
    EveryRunIsConsistent(TinyMarket());
    TinyAmounts();
    UnitIsPositive();
    TinyCheckPasses(s);
    TinyLegsAreFresh(s);
  }

  /** It then stops behind its first leg: the user has delivered the unit and is paid nothing. */
  lemma TinySellStopsHalfway()
    ensures var s, o := Run(INITIAL, TinyMarket()), TinySell();
            var stopped := Settle(s, o);
            && stopped.result == Err(AmountNotPositive)
            && Available(stopped.state, "u", "B") == Available(s, "u", "B") - Value(UNIT)
            && Available(stopped.state, "u", "Q") == Available(s, "u", "Q")
            && Available(stopped.state, "p", "B") == Available(s, "p", "B") + Value(UNIT)
  {
    hide Value, Run, EnsureLiquidity, Fee, Notional, SoundBalances, Move, Admitted;
    var s, o := Run(INITIAL, TinyMarket()), TinySell();
    TinySellAdmitted();
    TinyAmounts();
    SettleSucceedsExactly(s, o);
    StoppedLegMoves(s, o);
  }

  lemma StoppedLegMoves(s: State, o: Order)
    requires Admitted(s, o) && o.side == Sell && o.user == "u" && o.liquidity == "p" && o.base == "B" && o.quote == "Q"
    ensures var s' := Transfer(s, Legs(o)[0]).state;
            && Available(s', "u", "B") == Available(s, "u", "B") - Value(o.quantity)
            && Available(s', "u", "Q") == Available(s, "u", "Q")
            && Available(s', "p", "B") == Available(s, "p", "B") + Value(o.quantity)
  {
    hide Value, EnsureLiquidity, Move, SoundBalances, Available;
    FirstLegGoesThrough(s, o);
    var first, second := LegsOf(o);
    assert first == Legs(o)[0];
    LegMoves(s, first, "u", "B");
    LegMoves(s, first, "u", "Q");
    LegMoves(s, first, "p", "B");
  }
}
