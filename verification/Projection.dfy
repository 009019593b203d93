/**
  The in-memory projection in its own imperative form
  (apps/backend/src/modules/projections/application/projection.store.ts:38-287).
 */
module Projection {
  import opened StringAdder
  import opened ProjectionSpec

  class ProjectionStore {
    var orders: map<string, OrderView>
    var trades: map<string, TradeView>
    var balances: map<string, BalanceView>
    var processedEvents: set<string>
    var appliedSequence: int
    var sourceSequence: int
    ghost var accepted: seq<Event>

    ghost function Contents(): Store
      reads this
    {
      Store(Model(orders, trades, balances), processedEvents, appliedSequence, sourceSequence, accepted)
    }

    constructor ()
      ensures Contents() == Store(EMPTY, {}, 0, 0, [])
    {
      orders, trades, balances, processedEvents := map[], map[], map[], {};
      appliedSequence, sourceSequence := 0, 0;
      accepted := [];
    }

    /** A duplicate or a gap changes nothing; an event that fails half way leaves what it did. */
    method Apply(event: Event) returns (r: Outcome)
      modifies this
      ensures (Contents(), r) == ProjectionSpec.Apply(old(Contents()), event)
    {
      if event.eventId in processedEvents {
        return Duplicate;
      }
      if event.sequence != appliedSequence + 1 {
        return Threw(SequenceGap);
      }
      sourceSequence := if sourceSequence >= event.sequence then sourceSequence else event.sequence;
      match event.eventType {
        case OrderAccepted => RecordOrder(event, AsString(event.payload, "status", "OPEN"));
        case OrderRejected => RecordOrder(event, "REJECTED");
        case OrderCancelled => RecordOrder(event, "CANCELLED");
        case TradeExecuted => RecordTrade(event);
        case SettlementApplied =>
          var settled := ApplySettlement(event);
          if settled.Threw? {
            return settled;
          }
      }
      processedEvents := processedEvents + {event.eventId};
      appliedSequence := event.sequence;
      accepted := accepted + [event];
      r := Done;
    }

    method RecordOrder(event: Event, status: string)
      modifies `orders
      ensures Model(orders, trades, balances) == ApplyOrder(Model(old(orders), trades, balances), event, status)
    {
      var p := event.payload;
      orders := orders[Shown(p, "orderId") :=
        OrderView(Shown(p, "orderId"), Shown(p, "userId"), Shown(p, "accountId"), Shown(p, "instrumentId"), status,
                  AsString(p, "remainingQuantity", "0"), event.sequence)];
    }

    method RecordTrade(event: Event)
      modifies `trades
      ensures Model(orders, trades, balances) == ApplyTrade(Model(orders, old(trades), balances), event)
    {
      var p := event.payload;
      trades := trades[Shown(p, "tradeId") :=
        TradeView(Shown(p, "tradeId"), Shown(p, "instrumentId"), (Shown(p, "makerUserId"), Shown(p, "takerUserId")),
                  Shown(p, "makerOrderId"), Shown(p, "takerOrderId"), Shown(p, "quantity"), Shown(p, "price"), event.sequence)];
    }

    /** One turn of the loop of applySettlement; false when addDecimal throws. */
    method AddPosting(posting: Payload, sequence: int) returns (ok: bool)
      modifies `balances
      ensures SettlePosting(old(balances), posting, sequence) == if ok then Complete(balances) else Aborted(balances)
    {
      var key := Shown(posting, "accountId") + ":" + Shown(posting, "assetId");
      var current := if key in balances then balances[key]
                     else BalanceView(Shown(posting, "accountId"), Shown(posting, "assetId"), "0", "0", sequence);
      var available := AddDecimal(current.available, AsString(posting, "availableDelta", "0"));
      var reserved := AddDecimal(current.reserved, AsString(posting, "reservedDelta", "0"));
      if available.SyntaxError? || reserved.SyntaxError? {
        return false;
      }
      balances := balances[key := current.(available := available.text, reserved := reserved.text, sequence := sequence)];
      ok := true;
    }

    method AddPostings(postings: seq<Payload>, sequence: int) returns (ok: bool)
      modifies `balances
      ensures SettlePostings(old(balances), postings, sequence) == if ok then Complete(balances) else Aborted(balances)
    {
      hide SettlePosting;
      ghost var before := balances;
      for n := 0 to |postings|
        invariant SettlePostings(before, postings[..n], sequence) == Complete(balances)
      {
        assert postings[..n + 1][..n] == postings[..n];
        ok := AddPosting(postings[n], sequence);
        if !ok {
          AbortIsFinal(before, postings, n + 1, sequence);
          return;
        }
      }
      assert postings[..|postings|] == postings;
      ok := true;
    }

    method ApplySettlement(event: Event) returns (r: Outcome)
      requires event.eventType.SettlementApplied?
      modifies `balances
      ensures r == Done || r.Threw?
      ensures ApplyEvent(Model(orders, trades, old(balances)), event)
              == if r.Threw? then Failed(Model(orders, trades, balances), r.error) else Applied(Model(orders, trades, balances))
    {
      if "postings" !in event.payload || !event.payload["postings"].Items? {
        return Threw(InvalidEvent);
      }
      var ok := AddPostings(event.payload["postings"].items, event.sequence);
      r := if ok then Done else Threw(NotANumber);
    }

    /** Clears everything and applies the given events, stopping where one throws. */
    method Rebuild(events: seq<Event>) returns (r: Outcome)
      modifies this
      ensures (Contents(), r) == ApplyEach(Cleared(events), events)
    {
      orders, trades, balances, processedEvents := map[], map[], map[], {};
      appliedSequence := 0;
      sourceSequence := if events == [] then 0 else events[|events| - 1].sequence;
      accepted := [];
      for n := 0 to |events|
        invariant (Contents(), Done) == ApplyEach(Cleared(events), events[..n])
      {
        assert events[..n + 1][..n] == events[..n];
        r := Apply(events[n]);
        if r.Threw? {
          ThrowIsFinal(Cleared(events), events, n + 1);
          return;
        }
      }
      assert events[..|events|] == events;
      r := Done;
    }

    /** False when the given position is rejected. */
    method ObserveSourceSequence(sequence: int) returns (ok: bool)
      modifies `sourceSequence
      ensures ok <==> sequence >= appliedSequence
      ensures sourceSequence == if ok then Max(old(sourceSequence), sequence) else old(sourceSequence)
    {
      if sequence < appliedSequence {
        return false;
      }
      sourceSequence := if sourceSequence >= sequence then sourceSequence else sequence;
      ok := true;
    }
  }

  lemma {:induction false} AbortIsFinal(balances: Balances, postings: seq<Payload>, n: nat, sequence: int)
    requires n <= |postings| && SettlePostings(balances, postings[..n], sequence).Aborted?
    ensures SettlePostings(balances, postings, sequence) == SettlePostings(balances, postings[..n], sequence)
    decreases |postings|
  {
    if n == |postings| {
      assert postings[..n] == postings;
    } else {
      var init := postings[..|postings| - 1];
      assert init[..n] == postings[..n];
      AbortIsFinal(balances, init, n, sequence);
    }
  }

  lemma {:induction false} ThrowIsFinal(s: Store, events: seq<Event>, n: nat)
    requires n <= |events| && ApplyEach(s, events[..n]).1.Threw?
    ensures ApplyEach(s, events) == ApplyEach(s, events[..n])
    decreases |events|
  {
    if n == |events| {
      assert events[..n] == events;
    } else {
      var init := events[..|events| - 1];
      assert init[..n] == events[..n];
      ThrowIsFinal(s, init, n);
    }
  }
}
