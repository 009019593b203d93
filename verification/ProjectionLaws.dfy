/**
  The projection over whole runs: exactly-once in order, rebuild agrees with the live
  store, and every projected balance is the exact sum of its deltas.
 */
module ProjectionLaws {
  import opened Numerals
  import opened Decimals
  import opened DecimalText
  import opened StringAdder
  import opened ProjectionSpec

  // ---- Exactly once, in order ----

  datatype Input = Feed(event: Event) | Observe(sequence: int)

  const FRESH := Store(EMPTY, {}, 0, 0, [])

  function Take(s: Store, input: Input): Store {
    match input
    case Feed(event) => Apply(s, event).0
    case Observe(sequence) =>
      if sequence < s.appliedSequence then s else s.(sourceSequence := Max(s.sourceSequence, sequence))
  }

  function Run(inputs: seq<Input>): Store {
    if inputs == [] then FRESH else Take(Run(inputs[..|inputs| - 1]), inputs[|inputs| - 1])
  }

  ghost predicate InOrder(s: Store) {
    && s.appliedSequence == |s.accepted|
    && (forall i :: 0 <= i < |s.accepted| ==> s.accepted[i].sequence == i + 1 && s.accepted[i].eventId in s.processed)
    && (forall i, j :: 0 <= i < j < |s.accepted| ==> s.accepted[i].eventId != s.accepted[j].eventId)
    && (forall id :: id in s.processed ==> exists i :: 0 <= i < |s.accepted| && s.accepted[i].eventId == id)
  }

  lemma AppendKeepsOrder(s: Store, event: Event, model: Model, source: int)
    requires InOrder(s) && event.eventId !in s.processed && event.sequence == s.appliedSequence + 1
    ensures InOrder(Store(model, s.processed + {event.eventId}, event.sequence, source, s.accepted + [event]))
  {
    var accepted := s.accepted + [event];
    forall id | id in s.processed + {event.eventId}
      ensures exists i :: 0 <= i < |accepted| && accepted[i].eventId == id
    {
      if id in s.processed {
        var i :| 0 <= i < |s.accepted| && s.accepted[i].eventId == id;
        assert accepted[i].eventId == id;
      } else {
        assert accepted[|s.accepted|].eventId == id;
      }
    }
  }

  lemma TakeKeepsOrder(s: Store, input: Input)
    requires InOrder(s) && s.sourceSequence >= s.appliedSequence
    ensures InOrder(Take(s, input)) && Take(s, input).sourceSequence >= Take(s, input).appliedSequence
  {
    if input.Feed? && Apply(s, input.event).1.Done? {
      var s' := Take(s, input);
      AppendKeepsOrder(s, input.event, s'.model, s'.sourceSequence);
    }
  }

  /** Whatever duplicates, gaps, failures and observed positions come in between. */
  lemma {:induction false} AcceptedExactlyOnceInOrder(inputs: seq<Input>)
    ensures InOrder(Run(inputs)) && Run(inputs).sourceSequence >= Run(inputs).appliedSequence
  {
    if inputs != [] {
      AcceptedExactlyOnceInOrder(inputs[..|inputs| - 1]);
      TakeKeepsOrder(Run(inputs[..|inputs| - 1]), inputs[|inputs| - 1]);
    }
  }

  // ---- When a failed event does harm ----

  ghost predicate BeforeEvent(m: Model, event: Event) {
    forall key :: key in m.balances ==> m.balances[key].sequence < event.sequence
  }

  lemma FailedSettlement(m: Model, event: Event)
    requires ApplyEvent(m, event).Failed? && WellFormed(event)
    ensures Postings(event) != []
    ensures ApplyEvent(m, event).model.balances == SettlePostings(m.balances, Postings(event), event.sequence).balances
    ensures ApplyEvent(m, event).model == m
            <==> SettlePostings(m.balances, Postings(event), event.sequence).balances == m.balances
  {
    hide SettlePosting;
  }

  /** A settlement that throws leaves the models as they were exactly if its very first posting throws. */
  lemma HarmlessIffFirstPostingThrows(m: Model, event: Event)
    requires ApplyEvent(m, event).Failed? && WellFormed(event) && BeforeEvent(m, event)
    ensures Postings(event) != []
    ensures ApplyEvent(m, event).model == m
            <==> SettlePosting(m.balances, Postings(event)[0], event.sequence).Aborted?
  {
    FailedSettlement(m, event);
    FirstPosting(m.balances, Postings(event), event.sequence);
    MarkedBalancesDiffer(m, event, BalanceKey(Postings(event)[0]));
  }

  lemma MarkedBalancesDiffer(m: Model, event: Event, key: string)
    requires BeforeEvent(m, event)
    ensures key in m.balances ==> m.balances[key].sequence != event.sequence
  {
  }

  lemma {:induction false} FirstPosting(balances: Balances, postings: seq<Payload>, sequence: int)
    requires postings != []
    ensures var first := SettlePosting(balances, postings[0], sequence);
            var all := SettlePostings(balances, postings, sequence);
            && (first.Aborted? ==> all == Aborted(balances))
            && (first.Complete? ==> BalanceKey(postings[0]) in all.balances
                                    && all.balances[BalanceKey(postings[0])].sequence == sequence)
  {
    var init := postings[..|postings| - 1];
    if init == [] {
      assert SettlePostings(balances, init, sequence) == Complete(balances);
    } else {
      FirstPosting(balances, init, sequence);
      PostingKeepsSequence(SettlePostings(balances, init, sequence).balances, postings[|postings| - 1], sequence,
                           BalanceKey(postings[0]));
    }
  }

  lemma PostingKeepsSequence(balances: Balances, posting: Payload, sequence: int, key: string)
    ensures var after := SettlePosting(balances, posting, sequence).balances;
            key in balances && balances[key].sequence == sequence ==> key in after && after[key].sequence == sequence
  {
  }

  // ---- Rebuild ----

  /**
    If the input is a settlement that is about to be applied and throws, it throws at
    its very first posting.
   */
  predicate ThrowsEarly(s: Store, input: Input) {
    input.Feed? && input.event.eventId !in s.processed && input.event.sequence == s.appliedSequence + 1
    && Postings(input.event) != [] && SettlePostings(s.model.balances, Postings(input.event), input.event.sequence).Aborted? ==>
      SettlePosting(s.model.balances, Postings(input.event)[0], input.event.sequence).Aborted?
  }

  predicate AllThrowEarly(inputs: seq<Input>) {
    inputs != [] ==>
      AllThrowEarly(inputs[..|inputs| - 1]) && ThrowsEarly(Run(inputs[..|inputs| - 1]), inputs[|inputs| - 1])
  }

  /** The accepted events build the live read models. */
  predicate Rebuildable(s: Store) {
    Build(s.accepted) == Built(s.model)
  }

  predicate StaysRebuildable(inputs: seq<Input>) {
    Rebuildable(Run(inputs)) && (inputs != [] ==> StaysRebuildable(inputs[..|inputs| - 1]))
  }

  /** No balance carries a sequence that has not been applied. */
  ghost predicate Dated(s: Store) {
    forall key :: key in s.model.balances ==> s.model.balances[key].sequence <= s.appliedSequence
  }

  ghost predicate NoneAfter(balances: Balances, sequence: int) {
    forall key :: key in balances ==> balances[key].sequence <= sequence
  }

  lemma {:induction false} PostingsDate(balances: Balances, postings: seq<Payload>, sequence: int)
    requires NoneAfter(balances, sequence)
    ensures NoneAfter(SettlePostings(balances, postings, sequence).balances, sequence)
  {
    if postings != [] {
      hide SettlePosting, NoneAfter;
      var init := postings[..|postings| - 1];
      PostingsDate(balances, init, sequence);
      PostingDates(SettlePostings(balances, init, sequence).balances, postings[|postings| - 1], sequence);
    }
  }

  lemma PostingDates(balances: Balances, posting: Payload, sequence: int)
    requires NoneAfter(balances, sequence)
    ensures NoneAfter(SettlePosting(balances, posting, sequence).balances, sequence)
  {
    hide AddDecimal;
  }

  /** A settlement in turn: complete, or thrown, early or late. */
  lemma SettlementOutcome(s: Store, event: Event)
    requires event.eventId !in s.processed && event.sequence == s.appliedSequence + 1 && Postings(event) != []
    ensures var settled := SettlePostings(s.model.balances, Postings(event), event.sequence);
            var after := Take(s, Feed(event));
            && after.model == s.model.(balances := settled.balances)
            && (settled.Complete? ==> after.accepted == s.accepted + [event] && after.appliedSequence == event.sequence
                                      && ApplyEvent(s.model, event) == Applied(after.model))
            && (settled.Aborted? ==> after.accepted == s.accepted && after.appliedSequence == s.appliedSequence
                                     && ApplyEvent(s.model, event).Failed? && ApplyEvent(s.model, event).model == after.model)
  {
    var balances := SettlePostings(s.model.balances, Postings(event), event.sequence).balances;
    if SettlePostings(s.model.balances, Postings(event), event.sequence).Complete? {
      CompletedSettlement(s.model, event, balances);
    } else {
      AbortedSettlement(s.model, event, balances);
    }
    hide ApplyEvent, SettlePostings;
  }

  /** Every other input is applied, or leaves models and position alone. */
  lemma OtherOutcome(s: Store, input: Input)
    requires input.Feed? && input.event.eventId !in s.processed && input.event.sequence == s.appliedSequence + 1 ==>
               Postings(input.event) == []
    ensures var after := Take(s, input);
            || (after.model == s.model && after.accepted == s.accepted && after.appliedSequence == s.appliedSequence)
            || (input.Feed? && after.accepted == s.accepted + [input.event] && after.appliedSequence == s.appliedSequence + 1
                && after.model.balances == s.model.balances && ApplyEvent(s.model, input.event) == Applied(after.model))
  {
    hide SettlePosting;
  }

  lemma TakeKeepsDates(s: Store, input: Input)
    requires Dated(s) && ThrowsEarly(s, input)
    ensures Dated(Take(s, input))
  {
    hide Take, SettlePostings, SettlePosting;
    if input.Feed? && input.event.eventId !in s.processed && input.event.sequence == s.appliedSequence + 1
       && Postings(input.event) != [] {
      SettlementOutcome(s, input.event);
      PostingsDate(s.model.balances, Postings(input.event), input.event.sequence);
      FirstPosting(s.model.balances, Postings(input.event), input.event.sequence);
    } else {
      OtherOutcome(s, input);
    }
  }

  lemma BuildOneMore(events: seq<Event>, event: Event, m: Model, m': Model)
    requires Build(events) == Built(m) && ApplyEvent(m, event) == Applied(m')
    ensures Build(events + [event]) == Built(m')
  {
    hide ApplyEvent;
    assert (events + [event])[..|events|] == events;
  }

  /** One input keeps a rebuildable store rebuildable exactly if it does not throw late. */
  lemma RebuildableStep(s: Store, input: Input)
    requires Rebuildable(s) && Dated(s)
    ensures Rebuildable(Take(s, input)) <==> ThrowsEarly(s, input)
  {
    hide Take, SettlePostings, SettlePosting, ApplyEvent, Build;
    if input.Feed? && input.event.eventId !in s.processed && input.event.sequence == s.appliedSequence + 1
       && Postings(input.event) != [] {
      SettlementOutcome(s, input.event);
      if SettlePostings(s.model.balances, Postings(input.event), input.event.sequence).Complete? {
        BuildOneMore(s.accepted, input.event, s.model, Take(s, input).model);
      } else {
        HarmlessIffFirstPostingThrows(s.model, input.event);
      }
    } else {
      OtherOutcome(s, input);
      if Take(s, input).accepted != s.accepted {
        BuildOneMore(s.accepted, input.event, s.model, Take(s, input).model);
      }
    }
  }

  lemma {:induction false} EarlyRunsAreDated(inputs: seq<Input>)
    requires AllThrowEarly(inputs)
    ensures Dated(Run(inputs))
  {
    hide Take, ThrowsEarly;
    if inputs != [] {
      EarlyRunsAreDated(inputs[..|inputs| - 1]);
      TakeKeepsDates(Run(inputs[..|inputs| - 1]), inputs[|inputs| - 1]);
    }
  }

  /**
    For every run: at each point the accepted events build the live models, exactly if
    no settlement ever threw behind a posting that had gone through.
   */
  lemma {:induction false} RebuildableIffNoLateThrow(inputs: seq<Input>)
    ensures StaysRebuildable(inputs) <==> AllThrowEarly(inputs)
  {
    hide Take, ThrowsEarly, Rebuildable;
    if inputs == [] {
      assert Rebuildable(FRESH) by {
        FreshIsRebuildable();
      }
    } else {
      var init := inputs[..|inputs| - 1];
      RebuildableIffNoLateThrow(init);
      if AllThrowEarly(init) {
        EarlyRunsAreDated(init);
        RebuildableStep(Run(init), inputs[|inputs| - 1]);
      }
    }
  }

  lemma FreshIsRebuildable()
    ensures Rebuildable(FRESH)
  {
  }

  ghost predicate RebuiltTo(events: seq<Event>, n: nat, m: Model)
    requires n <= |events|
  {
    var (s, outcome) := ApplyEach(Cleared(events), events[..n]);
    && outcome == Done && s.model == m && s.appliedSequence == n && s.accepted == events[..n]
    && s.sourceSequence == |events|
    && (forall i :: 0 <= i < n ==> events[i].eventId in s.processed)
    && (forall id :: id in s.processed ==> exists i :: 0 <= i < n && events[i].eventId == id)
  }

  lemma ProcessedGrow(events: seq<Event>, n: nat, processed: set<string>)
    requires 0 < n <= |events|
    requires forall i :: 0 <= i < n - 1 ==> events[i].eventId in processed
    requires forall id :: id in processed ==> exists i :: 0 <= i < n - 1 && events[i].eventId == id
    ensures var after := processed + {events[n - 1].eventId};
            && (forall i :: 0 <= i < n ==> events[i].eventId in after)
            && (forall id :: id in after ==> exists i :: 0 <= i < n && events[i].eventId == id)
  {
    forall id | id in processed
      ensures exists i :: 0 <= i < n && events[i].eventId == id
    {
      var i :| 0 <= i < n - 1 && events[i].eventId == id;
      assert events[i].eventId == id;
    }
  }

  lemma {:induction false} RebuildStep(s: Store, n: nat)
    requires InOrder(s) && n <= |s.accepted| && Build(s.accepted[..n]).Built?
    ensures RebuiltTo(s.accepted, n, Build(s.accepted[..n]).model)
  {
    hide ApplyEvent;
    if n > 0 {
      var events := s.accepted;
      assert events[..n][..n - 1] == events[..n - 1];
      RebuildStep(s, n - 1);
      var before := ApplyEach(Cleared(events), events[..n - 1]).0;
      assert events[n - 1].eventId !in before.processed;
      ProcessedGrow(events, n, before.processed);
      assert ApplyEach(Cleared(events), events[..n]).0 == Apply(before, events[n - 1]).0;
      assert events[..n - 1] + [events[n - 1]] == events[..n];
    }
  }

  /** A rebuild from the accepted events of an ordered store gives what they build. */
  lemma RebuildGivesTheBuild(live: Store)
    requires InOrder(live) && Build(live.accepted).Built?
    ensures ApplyEach(Cleared(live.accepted), live.accepted)
            == (Store(Build(live.accepted).model, live.processed, live.appliedSequence, live.appliedSequence, live.accepted), Done)
  {
    var n := |live.accepted|;
    assert live.accepted[..n] == live.accepted;
    RebuildStep(live, n);
    var rebuilt := ApplyEach(Cleared(live.accepted), live.accepted).0;
    assert rebuilt.processed == live.processed;
  }

  /**
    If every settlement that throws does so at its first posting, rebuilding from the
    accepted events gives the live read models, processed ids and position; only a
    source position observed beyond them is forgotten.
   */
  lemma RebuildEqualsLive(inputs: seq<Input>)
    requires AllThrowEarly(inputs)
    ensures var live := Run(inputs);
            ApplyEach(Cleared(live.accepted), live.accepted)
            == (Store(live.model, live.processed, live.appliedSequence, live.appliedSequence, live.accepted), Done)
  {
    hide Build, ApplyEach, Run;
    AcceptedExactlyOnceInOrder(inputs);
    RebuildableIffNoLateThrow(inputs);
    RebuildGivesTheBuild(Run(inputs));
  }

  /** And the first settlement that throws later than that makes rebuild and live models differ. */
  lemma LateThrowBreaksRebuild(inputs: seq<Input>, input: Input)
    requires AllThrowEarly(inputs) && !ThrowsEarly(Run(inputs), input)
    ensures var live := Take(Run(inputs), input);
            ApplyEach(Cleared(live.accepted), live.accepted).1 == Done
            && ApplyEach(Cleared(live.accepted), live.accepted).0.model != live.model
  {
    var s := Run(inputs);
    var live := Take(s, input);
    hide Build, ApplyEach, SettlePostings, SettlePosting;
    AcceptedExactlyOnceInOrder(inputs);
    RebuildableIffNoLateThrow(inputs);
    EarlyRunsAreDated(inputs);
    RebuildableStep(s, input);
    SettlementOutcome(s, input.event);
    RebuildGivesTheBuild(s);
  }

  /** After a rebuild the source position may lie below the applied one in this single case. */
  lemma {:induction false} RebuildPosition(events: seq<Event>, n: nat)
    requires n <= |events|
    ensures var s := ApplyEach(Cleared(events), events[..n]).0;
            && s.appliedSequence >= 0 && s.sourceSequence >= Cleared(events).sourceSequence
            && (s.appliedSequence > 0 ==> s.sourceSequence >= s.appliedSequence)
            && (n > 0 && events[0].sequence == 1 ==> s.sourceSequence >= 1)
            && (n > 0 && events[0].sequence != 1 ==> s == Cleared(events))
  {
    if n > 0 {
      RebuildPosition(events, n - 1);
      assert events[..n][..n - 1] == events[..n - 1];
      if n > 1 && events[0].sequence != 1 {
        assert ApplyEach(Cleared(events), events[..1]).1 == Threw(SequenceGap) by {
          assert events[..1][..0] == [];
        }
        StillThrown(Cleared(events), events, n - 1);
      }
    }
  }

  lemma {:induction false} StillThrown(s: Store, events: seq<Event>, n: nat)
    requires 0 < n <= |events| && ApplyEach(s, events[..1]).1.Threw?
    ensures ApplyEach(s, events[..n]) == ApplyEach(s, events[..1])
  {
    if n > 1 {
      assert events[..n][..n - 1] == events[..n - 1];
      StillThrown(s, events, n - 1);
    }
  }

  lemma SourceBelowAppliedIff(events: seq<Event>)
    ensures var s := ApplyEach(Cleared(events), events).0;
            s.sourceSequence < s.appliedSequence
            <==> events != [] && events[0].sequence != 1 && events[|events| - 1].sequence < 0
  {
    assert events[..|events|] == events;
    RebuildPosition(events, |events|);
  }

  /**
    A settlement whose second posting throws has already counted its first; sent again
    with the second repaired away, it counts the first once more.
   */
  lemma RetryCountsTwice(broken: Event, repaired: Event, p: Payload, q: Payload)
    requires broken.eventId == repaired.eventId && broken.sequence == 1 && repaired.sequence == 1
    requires WellFormed(broken) && WellFormed(repaired) && Postings(broken) == [p, q] && Postings(repaired) == [p]
    requires SettlePosting(map[], p, 1).Complete?
    requires SettlePosting(SettlePosting(map[], p, 1).balances, q, 1).Aborted?
    requires SettlePosting(SettlePosting(map[], p, 1).balances, p, 1).Complete?
    ensures Run([Feed(broken), Feed(repaired)]).model.balances
            == SettlePosting(SettlePosting(map[], p, 1).balances, p, 1).balances
    ensures Run([Feed(broken), Feed(repaired)]).accepted == [repaired]
  {
    var once := SettlePosting(map[], p, 1).balances;
    TwoPostings(map[], p, q);
    OnePosting(once, p);
    var first := [Feed(broken)];
    assert first[..0] == [] && [Feed(broken), Feed(repaired)][..1] == first;
    SettlementAborts(FRESH, broken, once);
    assert Run(first) == Apply(FRESH, broken).0;
    var s := Store(Model(map[], map[], once), {}, 0, 1, []);
    assert Run(first) == s;
    SettlementCompletes(s, repaired, SettlePosting(once, p, 1).balances);
    assert Run([Feed(broken), Feed(repaired)]) == Apply(s, repaired).0;
  }

  // ---- The same at a concrete input ----

  function DeltaPosting(delta: string): Payload {
    map["accountId" := Text("a"), "assetId" := Text("USD"), "availableDelta" := Text(delta)]
  }

  function Settlement(postings: seq<Payload>): Event {
    Event("e1", SettlementApplied, 1, map["postings" := Items(postings, "")])
  }

  /** The balance of "a" in "USD" is open and reads this amount, nothing reserved. */
  predicate Shows(balances: Balances, amount: string) {
    "a:USD" in balances && balances["a:USD"].available == amount && balances["a:USD"].reserved == "0"
  }

  lemma PostingShows(balances: Balances, delta: string, before: string, after: string)
    requires Shows(balances, before) || (balances == map[] && before == "0")
    requires AddDecimal(before, delta) == Sum(after) && AddDecimal("0", "0") == Sum("0")
    ensures SettlePosting(balances, DeltaPosting(delta), 1).Complete?
    ensures Shows(SettlePosting(balances, DeltaPosting(delta), 1).balances, after)
  {
    hide AddDecimal;
    assert BalanceKey(DeltaPosting(delta)) == "a:USD";
  }

  lemma DeltaSettles(balances: Balances, amount: nat, delta: nat)
    requires Shows(balances, NatToString(amount)) || (balances == map[] && amount == 0)
    ensures SettlePosting(balances, DeltaPosting(NatToString(delta)), 1).Complete?
    ensures Shows(SettlePosting(balances, DeltaPosting(NatToString(delta)), 1).balances, NatToString(amount + delta))
  {
    hide AddDecimal, NatToString, SettlePosting, Shows, DeltaPosting;
    FiveAndTen();
    WholeNumbersAdd(amount, delta);
    WholeNumbersAdd(0, 0);
    PostingShows(balances, NatToString(delta), NatToString(amount), NatToString(amount + delta));
  }

  lemma LetterAborts(balances: Balances)
    ensures SettlePosting(balances, DeltaPosting("x"), 1).Aborted?
  {
    LetterThrows(CurrentBalance(balances, DeltaPosting("x"), 1).available);
    hide AddDecimal;
  }

  predicate BuildShows(events: seq<Event>, amount: string) {
    Build(events).Built? && Shows(Build(events).model.balances, amount)
  }

  /** Credited "5" and then "x", repaired to "5" alone: the balance reads "10" where a rebuild gives "5". */
  lemma FiveBecomesTen()
    ensures var live := Run([Feed(Settlement([DeltaPosting("5"), DeltaPosting("x")])), Feed(Settlement([DeltaPosting("5")]))]);
            && live.accepted == [Settlement([DeltaPosting("5")])]
            && Shows(live.model.balances, "10") && BuildShows(live.accepted, "5")
  {
    var p, q := DeltaPosting("5"), DeltaPosting("x");
    hide SettlePosting, Run, Build, Shows;
    FiveAndTen();
    var once := SettlePosting(map[], p, 1).balances;
    DeltaSettles(map[], 0, 5);
    DeltaSettles(once, 5, 5);
    LetterAborts(once);
    RetryCountsTwice(Settlement([p, q]), Settlement([p]), p, q);
    OnlyOnce(p, once);
  }

  lemma OnlyOnce(p: Payload, once: Balances)
    requires SettlePosting(map[], p, 1) == Complete(once)
    ensures Build([Settlement([p])]) == Built(EMPTY.(balances := once))
  {
    hide SettlePosting;
    OnePosting(map[], p);
    CompletedSettlement(EMPTY, Settlement([p]), once);
    assert Build([]) == Built(EMPTY);
    BuildOneMore([], Settlement([p]), EMPTY, EMPTY.(balances := once));
    assert [] + [Settlement([p])] == [Settlement([p])];
  }

  lemma FiveAndTen()
    ensures NatToString(0) == "0" && NatToString(5) == "5" && NatToString(10) == "10"
  {
    assert NatToString(1) == "1";
  }

  lemma SettlementAborts(s: Store, event: Event, balances: Balances)
    requires event.eventId !in s.processed && event.sequence == s.appliedSequence + 1 && WellFormed(event)
    requires Postings(event) != [] && SettlePostings(s.model.balances, Postings(event), event.sequence) == Aborted(balances)
    ensures Apply(s, event).0
            == s.(model := s.model.(balances := balances), sourceSequence := Max(s.sourceSequence, event.sequence))
  {
    AbortedSettlement(s.model, event, balances);
    hide ApplyEvent;
  }

  lemma AbortedSettlement(m: Model, event: Event, balances: Balances)
    requires WellFormed(event) && event.eventType.SettlementApplied?
    requires SettlePostings(m.balances, Postings(event), event.sequence) == Aborted(balances)
    ensures ApplyEvent(m, event) == Failed(m.(balances := balances), NotANumber)
  {
    hide SettlePosting;
  }

  lemma SettlementCompletes(s: Store, event: Event, balances: Balances)
    requires event.eventId !in s.processed && event.sequence == s.appliedSequence + 1 && WellFormed(event)
    requires Postings(event) != [] && SettlePostings(s.model.balances, Postings(event), event.sequence) == Complete(balances)
    ensures Apply(s, event).0.model == s.model.(balances := balances) && Apply(s, event).0.accepted == s.accepted + [event]
  {
    CompletedSettlement(s.model, event, balances);
    hide ApplyEvent;
  }

  lemma CompletedSettlement(m: Model, event: Event, balances: Balances)
    requires WellFormed(event) && event.eventType.SettlementApplied?
    requires SettlePostings(m.balances, Postings(event), event.sequence) == Complete(balances)
    ensures ApplyEvent(m, event) == Applied(m.(balances := balances))
  {
    hide SettlePosting;
  }

  lemma TwoPostings(balances: Balances, p: Payload, q: Payload)
    requires SettlePosting(balances, p, 1).Complete?
    ensures SettlePostings(balances, [p, q], 1) == SettlePosting(SettlePosting(balances, p, 1).balances, q, 1)
  {
    OnePosting(balances, p);
    assert [p, q][..1] == [p];
  }

  lemma OnePosting(balances: Balances, p: Payload)
    ensures SettlePostings(balances, [p], 1) == SettlePosting(balances, p, 1)
  {
    assert [p][..0] == [];
    assert SettlePostings(balances, [], 1) == Complete(balances);
  }
}
