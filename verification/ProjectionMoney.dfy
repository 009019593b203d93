/**
  Every projected balance is the fold of `addDecimal` over its deltas, and that fold is
  exact as long as no running sum lies strictly between -1 and 0.
 */
module ProjectionMoney {
  import opened Decimals
  import opened DecimalText
  import opened StringAdder
  import opened StringAdderGap
  import opened ProjectionSpec
  import opened ProjectionLaws

  datatype Part = Available | Reserved

  function DeltaOf(posting: Payload, part: Part): string {
    AsString(posting, if part.Available? then "availableDelta" else "reservedDelta", "0")
  }

  function AmountOf(view: BalanceView, part: Part): string {
    if part.Available? then view.available else view.reserved
  }

  /** The deltas the postings give to one balance, in order. */
  function Deltas(postings: seq<Payload>, key: string, part: Part): seq<string> {
    if postings == [] then []
    else
      var last := postings[|postings| - 1];
      Deltas(postings[..|postings| - 1], key, part) + if BalanceKey(last) == key then [DeltaOf(last, part)] else []
  }

  function EventDeltas(events: seq<Event>, key: string, part: Part): seq<string> {
    if events == [] then []
    else EventDeltas(events[..|events| - 1], key, part) + Deltas(Postings(events[|events| - 1]), key, part)
  }

  function AddTo(sum: Sum, delta: string): Sum {
    if sum.SyntaxError? then sum else AddDecimal(sum.text, delta)
  }

  function AddAll(start: Sum, deltas: seq<string>): Sum {
    if deltas == [] then start else AddTo(AddAll(start, deltas[..|deltas| - 1]), deltas[|deltas| - 1])
  }

  /** The text a balance holds, "0" before it is first written. */
  function Reading(balances: Balances, key: string, part: Part): Sum {
    if key in balances then Sum(AmountOf(balances[key], part)) else Sum("0")
  }

  // ---- A balance is the fold of its deltas ----

  lemma {:induction false} AddAllAppends(start: Sum, x: seq<string>, y: seq<string>)
    ensures AddAll(start, x + y) == AddAll(AddAll(start, x), y)
  {
    hide AddTo;
    if y == [] {
      assert x + y == x;
    } else {
      AddAllAppends(start, x, y[..|y| - 1]);
      assert (x + y)[..|x + y| - 1] == x + y[..|y| - 1];
    }
  }

  lemma AddAllOne(start: Sum, delta: string)
    ensures AddAll(start, [delta]) == AddTo(start, delta)
  {
    assert [delta][..0] == [];
  }

  lemma PostingAddsItsDelta(balances: Balances, posting: Payload, sequence: int, key: string, part: Part)
    requires SettlePosting(balances, posting, sequence).Complete?
    ensures Reading(SettlePosting(balances, posting, sequence).balances, key, part)
            == if BalanceKey(posting) == key then AddTo(Reading(balances, key, part), DeltaOf(posting, part))
               else Reading(balances, key, part)
  {
  }

  lemma {:induction false} PostingsAddTheirDeltas(balances: Balances, postings: seq<Payload>, sequence: int, key: string, part: Part)
    requires SettlePostings(balances, postings, sequence).Complete?
    ensures Reading(SettlePostings(balances, postings, sequence).balances, key, part)
            == AddAll(Reading(balances, key, part), Deltas(postings, key, part))
  {
    if postings != [] {
      var init, last := postings[..|postings| - 1], postings[|postings| - 1];
      var before := SettlePostings(balances, init, sequence).balances;
      PostingsAddTheirDeltas(balances, init, sequence, key, part);
      PostingAddsItsDelta(before, last, sequence, key, part);
      if BalanceKey(last) == key {
        AddAllAppends(Reading(balances, key, part), Deltas(init, key, part), [DeltaOf(last, part)]);
        AddAllOne(Reading(before, key, part), DeltaOf(last, part));
      } else {
        assert Deltas(postings, key, part) == Deltas(init, key, part);
      }
    }
  }

  lemma EventAddsItsDeltas(m: Model, event: Event, key: string, part: Part)
    requires ApplyEvent(m, event).Applied?
    ensures Reading(ApplyEvent(m, event).model.balances, key, part)
            == AddAll(Reading(m.balances, key, part), Deltas(Postings(event), key, part))
  {
    if event.eventType.SettlementApplied? {
      PostingsAddTheirDeltas(m.balances, Postings(event), event.sequence, key, part);
    }
  }

  /** For every list of events that can be applied, and every balance. */
  lemma {:induction false} BalanceIsFoldOfDeltas(events: seq<Event>, key: string, part: Part)
    requires Build(events).Built?
    ensures Reading(Build(events).model.balances, key, part) == AddAll(Sum("0"), EventDeltas(events, key, part))
  {
    if events != [] {
      var init, last := events[..|events| - 1], events[|events| - 1];
      BalanceIsFoldOfDeltas(init, key, part);
      EventAddsItsDeltas(Build(init).model, last, key, part);
      AddAllAppends(Sum("0"), EventDeltas(init, key, part), Deltas(Postings(last), key, part));
    }
  }

  // ---- The fold is exact ----

  predicate AllAccepted(deltas: seq<string>) {
    forall i :: 0 <= i < |deltas| ==> Accepted(deltas[i])
  }

  ghost function Total(deltas: seq<string>): real
    requires AllAccepted(deltas)
  {
    if deltas == [] then 0.0 else Total(deltas[..|deltas| - 1]) + TextValue(deltas[|deltas| - 1])
  }

  /** No running sum, the last included, lies strictly between -1 and 0. */
  ghost predicate AvoidsTheGap(deltas: seq<string>)
    requires AllAccepted(deltas)
  {
    deltas != [] ==> AvoidsTheGap(deltas[..|deltas| - 1]) && !(-1.0 < Total(deltas) < 0.0)
  }

  /** Every intermediate text is a decimal again. */
  ghost predicate StaysDecimal(deltas: seq<string>) {
    deltas != [] ==> StaysDecimal(deltas[..|deltas| - 1])
                     && AddAll(Sum("0"), deltas).Sum? && Accepted(AddAll(Sum("0"), deltas).text)
  }

  function AddDecimals(deltas: seq<string>): Decimal
    requires AllAccepted(deltas)
  {
    if deltas == [] then From("0").value
    else Add(AddDecimals(deltas[..|deltas| - 1]), From(deltas[|deltas| - 1]).value)
  }

  lemma ZeroText()
    ensures Accepted("0") && TextValue("0") == 0.0
  {
    assert MatchPattern("0") == Match(false, "0", "") by {
      assert IndexOf("0", '.') == 1 && "0"[..1] == "0";
    }
    assert "0" + "" == "0";
    RatioZero(0);
  }

  /**
    The fold stays in the decimal grammar exactly when no running sum lies strictly
    between -1 and 0, and then it is the exact total, the one `Decimal.add` gives too.
   */
  lemma {:induction false} AddAllIsExact(deltas: seq<string>)
    requires AllAccepted(deltas)
    ensures StaysDecimal(deltas) <==> AvoidsTheGap(deltas)
    ensures StaysDecimal(deltas) ==> AddsExactly(deltas, AddAll(Sum("0"), deltas))
  {
    if deltas == [] {
      ZeroText();
    } else {
      hide AddDecimal, Accepted, TextValue, Add, From;
      var init, last := deltas[..|deltas| - 1], deltas[|deltas| - 1];
      AddAllIsExact(init);
      if StaysDecimal(init) {
        assert AddAll(Sum("0"), deltas) == AddTo(AddAll(Sum("0"), init), last);
        AddDecimalIsExact(AddAll(Sum("0"), init).text, last);
        hide AddAll;
      }
    }
  }

  ghost predicate AddsExactly(deltas: seq<string>, sum: Sum)
    requires AllAccepted(deltas)
  {
    && sum.Sum? && Accepted(sum.text)
    && TextValue(sum.text) == Total(deltas)
    && From(sum.text) == Parsed(AddDecimals(deltas))
  }

  /** No running sum, the last included, lies strictly between -0.1 and 0. */
  ghost predicate AvoidsTheTenth(deltas: seq<string>)
    requires AllAccepted(deltas)
  {
    deltas != [] ==> AvoidsTheTenth(deltas[..|deltas| - 1]) && !(-0.1 < Total(deltas) < 0.0)
  }

  ghost predicate ReadsAs(sum: Sum, v: real) {
    sum.Sum? && Readable(sum.text) && ReadValue(sum.text) == v
  }

  ghost predicate CannotBeAddedTo(sum: Sum) {
    forall next :: AddTo(sum, next) == SyntaxError
  }

  /**
    When the fold throws. It can be added to, and then reads as the exact total, if and
    only if no running sum is strictly between -0.1 and 0; so it throws exactly behind
    the first such sum. From -1 up to -0.1 it only leaves the grammar.
   */
  lemma {:induction false} AddAllThrowsBehindATenth(deltas: seq<string>)
    requires AllAccepted(deltas)
    ensures AvoidsTheTenth(deltas) ==> ReadsAs(AddAll(Sum("0"), deltas), Total(deltas))
    ensures !AvoidsTheTenth(deltas) ==> CannotBeAddedTo(AddAll(Sum("0"), deltas))
    ensures AddAll(Sum("0"), deltas).Sum? <==> deltas != [] ==> AvoidsTheTenth(deltas[..|deltas| - 1])
  {
    if deltas == [] {
      ZeroText();
    } else {
      hide AddDecimal, Accepted, TextValue, Readable, ReadValue;
      var init, last := deltas[..|deltas| - 1], deltas[|deltas| - 1];
      AddAllThrowsBehindATenth(init);
      if AvoidsTheTenth(init) {
        AddReadableIsExact(AddAll(Sum("0"), init).text, last);
      }
    }
  }

  /** A projected balance is the exact sum of everything the accepted events added to it. */
  lemma BalancesAreExact(events: seq<Event>, key: string, part: Part)
    requires Build(events).Built? && key in Build(events).model.balances
    requires AllAccepted(EventDeltas(events, key, part)) && AvoidsTheGap(EventDeltas(events, key, part))
    ensures var text := AmountOf(Build(events).model.balances[key], part);
            Accepted(text) && TextValue(text) == Total(EventDeltas(events, key, part))
  {
    BalanceIsFoldOfDeltas(events, key, part);
    AddAllIsExact(EventDeltas(events, key, part));
  }

  // ---- A decimal feed is always rebuilt ----

  /** These deltas are decimals and never sum to anything strictly between -0.1 and 0 on the way. */
  ghost predicate Plain(deltas: seq<string>) {
    AllAccepted(deltas) && AvoidsTheTenth(deltas)
  }

  lemma {:induction false} PlainPrefix(x: seq<string>, y: seq<string>)
    requires Plain(x + y)
    ensures Plain(x)
    decreases |y|
  {
    if y == [] {
      assert x + y == x;
    } else {
      assert (x + y)[..|x + y| - 1] == x + y[..|y| - 1];
      PlainPrefix(x, y[..|y| - 1]);
    }
  }

  /** With the event's own, all deltas of every balance so far are plain. */
  ghost predicate PlainEvent(events: seq<Event>, postings: seq<Payload>) {
    forall key, part :: Plain(EventDeltas(events, key, part) + Deltas(postings, key, part))
  }

  lemma DeltasByLast(postings: seq<Payload>, key: string, part: Part)
    requires postings != []
    ensures var last := postings[|postings| - 1];
            Deltas(postings, key, part)
            == Deltas(postings[..|postings| - 1], key, part) + if BalanceKey(last) == key then [DeltaOf(last, part)] else []
  {
  }

  lemma PlainEventPrefix(events: seq<Event>, postings: seq<Payload>)
    requires postings != [] && PlainEvent(events, postings)
    ensures PlainEvent(events, postings[..|postings| - 1])
  {
    hide Plain, EventDeltas, Deltas;
    var init, last := postings[..|postings| - 1], postings[|postings| - 1];
    forall key, part
      ensures Plain(EventDeltas(events, key, part) + Deltas(init, key, part))
    {
      var x, y := EventDeltas(events, key, part) + Deltas(init, key, part),
                  if BalanceKey(last) == key then [DeltaOf(last, part)] else [];
      DeltasByLast(postings, key, part);
      assert EventDeltas(events, key, part) + Deltas(postings, key, part) == x + y;
      PlainPrefix(x, y);
    }
  }

  /** A plain list of deltas has added up to a text that can be read, to which the next can be added. */
  lemma PlainSumTakesOneMore(deltas: seq<string>, delta: string)
    requires Plain(deltas + [delta])
    ensures AddAll(Sum("0"), deltas).Sum? && AddDecimal(AddAll(Sum("0"), deltas).text, delta).Sum?
  {
    hide AddDecimal, Accepted, TextValue, Readable, ReadValue;
    PlainPrefix(deltas, [delta]);
    AddAllThrowsBehindATenth(deltas);
    assert (deltas + [delta])[|deltas|] == delta;
    AddReadableIsExact(AddAll(Sum("0"), deltas).text, delta);
  }

  lemma CurrentIsRead(balances: Balances, posting: Payload, sequence: int, part: Part)
    ensures Reading(balances, BalanceKey(posting), part) == Sum(AmountOf(CurrentBalance(balances, posting, sequence), part))
  {
  }

  lemma PlainPostingGoesThrough(balances: Balances, posting: Payload, sequence: int, available: seq<string>, reserved: seq<string>)
    requires Reading(balances, BalanceKey(posting), Available) == AddAll(Sum("0"), available)
    requires Reading(balances, BalanceKey(posting), Reserved) == AddAll(Sum("0"), reserved)
    requires Plain(available + [DeltaOf(posting, Available)]) && Plain(reserved + [DeltaOf(posting, Reserved)])
    ensures SettlePosting(balances, posting, sequence).Complete?
  {
    hide AddDecimal, AddAll, Plain, Reading, CurrentBalance;
    PlainSumTakesOneMore(available, DeltaOf(posting, Available));
    PlainSumTakesOneMore(reserved, DeltaOf(posting, Reserved));
    CurrentIsRead(balances, posting, sequence, Available);
    CurrentIsRead(balances, posting, sequence, Reserved);
  }

  lemma {:induction false} PlainPostingsGoThrough(m: Model, events: seq<Event>, postings: seq<Payload>, sequence: int)
    requires Build(events) == Built(m) && PlainEvent(events, postings)
    ensures SettlePostings(m.balances, postings, sequence).Complete?
  {
    hide Plain, EventDeltas, Deltas, SettlePosting, Build, Reading, AddAll;
    if postings != [] {
      var init, last := postings[..|postings| - 1], postings[|postings| - 1];
      PlainEventPrefix(events, postings);
      PlainPostingsGoThrough(m, events, init, sequence);
      var available := ReadsItsDeltas(m, events, postings, sequence, Available);
      var reserved := ReadsItsDeltas(m, events, postings, sequence, Reserved);
      PlainPostingGoesThrough(SettlePostings(m.balances, init, sequence).balances, last, sequence, available, reserved);
    }
  }

  /** Before the last posting its balance reads the fold of all earlier deltas, and with the last they are plain. */
  lemma ReadsItsDeltas(m: Model, events: seq<Event>, postings: seq<Payload>, sequence: int, part: Part) returns (deltas: seq<string>)
    requires Build(events) == Built(m) && PlainEvent(events, postings) && postings != []
    requires SettlePostings(m.balances, postings[..|postings| - 1], sequence).Complete?
    ensures var last := postings[|postings| - 1];
            && Reading(SettlePostings(m.balances, postings[..|postings| - 1], sequence).balances, BalanceKey(last), part)
               == AddAll(Sum("0"), deltas)
            && Plain(deltas + [DeltaOf(last, part)])
  {
    hide Plain, EventDeltas, Deltas, SettlePostings, Build, Reading, AddAll;
    var init, last := postings[..|postings| - 1], postings[|postings| - 1];
    var key := BalanceKey(last);
    deltas := EventDeltas(events, key, part) + Deltas(init, key, part);
    BalanceIsFoldOfDeltas(events, key, part);
    PostingsAddTheirDeltas(m.balances, init, sequence, key, part);
    AddAllAppends(Sum("0"), EventDeltas(events, key, part), Deltas(init, key, part));
    DeltasByLast(postings, key, part);
    assert EventDeltas(events, key, part) + Deltas(postings, key, part) == deltas + [DeltaOf(last, part)];
  }

  /** Every settlement that is about to be applied keeps all deltas plain. */
  ghost predicate PlainInput(s: Store, input: Input) {
    input.Feed? && input.event.eventId !in s.processed && input.event.sequence == s.appliedSequence + 1 ==>
      PlainEvent(s.accepted, Postings(input.event))
  }

  ghost predicate PlainFeed(inputs: seq<Input>) {
    inputs != [] ==> PlainFeed(inputs[..|inputs| - 1]) && PlainInput(Run(inputs[..|inputs| - 1]), inputs[|inputs| - 1])
  }

  lemma {:induction false} PlainFeedNeverThrows(inputs: seq<Input>)
    requires PlainFeed(inputs)
    ensures AllThrowEarly(inputs)
  {
    hide Plain, SettlePosting, SettlePostings, Build, PlainEvent;
    if inputs != [] {
      var init, last := inputs[..|inputs| - 1], inputs[|inputs| - 1];
      PlainFeedNeverThrows(init);
      RebuildableIffNoLateThrow(init);
      var s := Run(init);
      assert Build(s.accepted) == Built(s.model);
      if last.Feed? && last.event.eventId !in s.processed && last.event.sequence == s.appliedSequence + 1 {
        PlainPostingsGoThrough(s.model, s.accepted, Postings(last.event), last.event.sequence);
      }
    }
  }

  /**
    In particular, where all deltas are decimals and no running sum of a balance is
    strictly between -0.1 and 0, rebuilding from the accepted events gives the live store.
   */
  lemma PlainFeedIsRebuilt(inputs: seq<Input>)
    requires PlainFeed(inputs)
    ensures var live := Run(inputs);
            ApplyEach(Cleared(live.accepted), live.accepted)
            == (Store(live.model, live.processed, live.appliedSequence, live.appliedSequence, live.accepted), Done)
  {
    PlainFeedNeverThrows(inputs);
    RebuildEqualsLive(inputs);
  }
}
