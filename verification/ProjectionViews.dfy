/**
  What the read models show, field by field, without reference to how an event is
  applied: which answer each event gets, and that an order or trade is shown as the last
  accepted event naming it tells it
  (apps/backend/src/modules/projections/application/projection.store.ts:107-161, 235-287).
 */
module ProjectionViews {
  import opened StringAdder
  import opened ProjectionSpec
  import opened ProjectionLaws

  // ---- What an event says ----

  /** String(value): text as it is, and "undefined" where the field is missing. */
  ghost predicate Says(payload: Payload, field: string, text: string) {
    if field !in payload then text == "undefined"
    else match payload[field]
      case Text(t) => text == t
      case Items(_, shown) => text == shown
      case Other(shown) => text == shown
  }

  /** The text of a field, or the given text where the field is missing or not text. */
  ghost predicate SaysOr(payload: Payload, field: string, fallback: string, text: string) {
    && (field in payload && payload[field].Text? ==> text == payload[field].text)
    && (field !in payload || !payload[field].Text? ==> text == fallback)
  }

  predicate OrderEvent(event: Event) {
    event.eventType.OrderAccepted? || event.eventType.OrderRejected? || event.eventType.OrderCancelled?
  }

  ghost predicate NamesOrder(event: Event, id: string) {
    OrderEvent(event) && Says(event.payload, "orderId", id)
  }

  ghost predicate NamesTrade(event: Event, id: string) {
    event.eventType.TradeExecuted? && Says(event.payload, "tradeId", id)
  }

  /** The view has each field from the payload field of its own name, and the status the event stands for. */
  ghost predicate ShowsOrder(view: OrderView, event: Event) {
    var p := event.payload;
    && Says(p, "orderId", view.orderId) && Says(p, "userId", view.userId)
    && Says(p, "accountId", view.accountId) && Says(p, "instrumentId", view.instrumentId)
    && SaysOr(p, "remainingQuantity", "0", view.remainingQuantity)
    && view.updatedAtSequence == event.sequence
    && (event.eventType.OrderAccepted? ==> SaysOr(p, "status", "OPEN", view.status))
    && (event.eventType.OrderRejected? ==> view.status == "REJECTED")
    && (event.eventType.OrderCancelled? ==> view.status == "CANCELLED")
  }

  /** Likewise, with the maker's user before the taker's. */
  ghost predicate ShowsTrade(view: TradeView, event: Event) {
    var p := event.payload;
    && Says(p, "tradeId", view.tradeId) && Says(p, "instrumentId", view.instrumentId)
    && Says(p, "makerUserId", view.userIds.0) && Says(p, "takerUserId", view.userIds.1)
    && Says(p, "makerOrderId", view.makerOrderId) && Says(p, "takerOrderId", view.takerOrderId)
    && Says(p, "quantity", view.quantity) && Says(p, "price", view.price)
    && view.sequence == event.sequence
  }

  /** The two tables agree on every key but one. */
  ghost predicate OnlyAt<V>(before: map<string, V>, after: map<string, V>, key: string) {
    forall k :: k != key ==> (k in after <==> k in before) && (k in before ==> after[k] == before[k])
  }

  // ---- One event ----

  /** An accepted order event writes the view of its order as it tells it, and nothing else. */
  lemma OrderEventIsShown(s: Store, event: Event, id: string)
    requires Apply(s, event).1.Done? && NamesOrder(event, id)
    ensures var m := Apply(s, event).0.model;
            && id in m.orders && ShowsOrder(m.orders[id], event) && OnlyAt(s.model.orders, m.orders, id)
            && m.trades == s.model.trades && m.balances == s.model.balances
  {
  }

  /** An accepted trade writes the view of that trade as it tells it, and nothing else. */
  lemma TradeIsShown(s: Store, event: Event, id: string)
    requires Apply(s, event).1.Done? && NamesTrade(event, id)
    ensures var m := Apply(s, event).0.model;
            && id in m.trades && ShowsTrade(m.trades[id], event) && OnlyAt(s.model.trades, m.trades, id)
            && m.orders == s.model.orders && m.balances == s.model.balances
  {
  }

  lemma SaysOnce(payload: Payload, field: string) returns (text: string)
    ensures forall t :: Says(payload, field, t) <==> t == text
  {
    text := Shown(payload, field);
  }

  // ---- One posting ----

  /**
    A posting of the given account and asset goes through exactly if both deltas can be
    added; it then changes the one balance of that account and asset, which keeps its
    ids and carries the event's sequence. A missing delta counts as "0", as does a
    balance not yet there.
   */
  lemma PostingIsShown(balances: Balances, posting: Payload, sequence: int,
                       account: string, asset: string, available: string, reserved: string)
    requires Says(posting, "accountId", account) && Says(posting, "assetId", asset)
    requires SaysOr(posting, "availableDelta", "0", available) && SaysOr(posting, "reservedDelta", "0", reserved)
    ensures var key := account + ":" + asset;
            var held := if key in balances then balances[key] else BalanceView(account, asset, "0", "0", sequence);
            var settled := SettlePosting(balances, posting, sequence);
            && (settled.Complete? <==> AddDecimal(held.available, available).Sum? && AddDecimal(held.reserved, reserved).Sum?)
            && (settled.Complete? ==>
                  && OnlyAt(balances, settled.balances, key) && key in settled.balances
                  && var view := settled.balances[key];
                     && view.accountId == held.accountId && view.assetId == held.assetId && view.sequence == sequence
                     && AddDecimal(held.available, available) == Sum(view.available)
                     && AddDecimal(held.reserved, reserved) == Sum(view.reserved))
            && (settled.Aborted? ==> settled.balances == balances)
  {
    hide AddDecimal;
  }

  lemma {:induction false} AbortedAtOne(balances: Balances, postings: seq<Payload>, sequence: int)
    ensures SettlePostings(balances, postings, sequence).Aborted? <==> SomeThrows(balances, postings, sequence)
  {
    hide SettlePosting;
    if postings != [] {
      var n := |postings| - 1;
      AbortedAtOne(balances, postings[..n], sequence);
      if SomeThrows(balances, postings[..n], sequence) {
        var i :| 0 <= i < n && ThrowsAt(balances, postings[..n], sequence, i);
        assert postings[..n][..i] == postings[..i];
        assert ThrowsAt(balances, postings, sequence, i);
      }
      if SomeThrows(balances, postings, sequence) {
        var i :| 0 <= i < |postings| && ThrowsAt(balances, postings, sequence, i);
        if i < n {
          assert postings[..n][..i] == postings[..i];
          assert ThrowsAt(balances, postings[..n], sequence, i);
        }
      } else {
        assert !ThrowsAt(balances, postings, sequence, n);
      }
    }
  }

  // ---- Which answer an event gets ----

  /** One of the postings cannot be settled on what the postings before it made of the balances. */
  ghost predicate SomeThrows(balances: Balances, postings: seq<Payload>, sequence: int) {
    exists n :: 0 <= n < |postings| && ThrowsAt(balances, postings, sequence, n)
  }

  ghost predicate ThrowsAt(balances: Balances, postings: seq<Payload>, sequence: int, n: nat)
    requires n < |postings|
  {
    var before := SettlePostings(balances, postings[..n], sequence);
    before.Complete? && SettlePosting(before.balances, postings[n], sequence).Aborted?
  }

  /** The payload lists its postings. */
  predicate HasPostings(event: Event) {
    "postings" in event.payload && event.payload["postings"].Items?
  }

  /** Every answer has its one reason, checked in this order. */
  lemma AnswersExactly(s: Store, event: Event)
    ensures var (s', answer) := Apply(s, event);
            var next := event.eventId !in s.processed && event.sequence == s.appliedSequence + 1;
            var settlement := event.eventType.SettlementApplied?;
            var throws := settlement && HasPostings(event)
                          && SomeThrows(s.model.balances, event.payload["postings"].items, event.sequence);
            && (answer == Duplicate <==> event.eventId in s.processed)
            && (answer == Threw(SequenceGap) <==> event.eventId !in s.processed && event.sequence != s.appliedSequence + 1)
            && (answer == Threw(InvalidEvent) <==> next && settlement && !HasPostings(event))
            && (answer == Threw(NotANumber) <==> next && throws)
            && (answer == Done <==> next && (settlement ==> HasPostings(event) && !throws))
            && (!next ==> s' == s)
            && (next ==> s'.sourceSequence == if event.sequence > s.sourceSequence then event.sequence else s.sourceSequence)
            && (answer == Done ==> s'.processed == s.processed + {event.eventId} && s'.appliedSequence == event.sequence
                                   && s'.accepted == s.accepted + [event])
            && (answer != Done ==> s'.processed == s.processed && s'.appliedSequence == s.appliedSequence
                                   && s'.accepted == s.accepted
                                   && s'.model.orders == s.model.orders && s'.model.trades == s.model.trades)
            && (answer == Threw(InvalidEvent) ==> s'.model == s.model)
  {
    hide SettlePosting, SettlePostings, SomeThrows, ApplyOrder, ApplyTrade;
    AbortedAtOne(s.model.balances, Postings(event), event.sequence);
  }

  // ---- Whole runs ----

  ghost predicate LastOrder(events: seq<Event>, id: string, i: nat) {
    i < |events| && NamesOrder(events[i], id) && forall j :: i < j < |events| ==> !NamesOrder(events[j], id)
  }

  ghost predicate LastTrade(events: seq<Event>, id: string, i: nat) {
    i < |events| && NamesTrade(events[i], id) && forall j :: i < j < |events| ==> !NamesTrade(events[j], id)
  }

  /** Every order is shown as the last accepted event naming it tells it, and no other order is shown. */
  ghost predicate OrdersShown(accepted: seq<Event>, orders: map<string, OrderView>) {
    && (forall id, i: nat :: LastOrder(accepted, id, i) ==> id in orders && ShowsOrder(orders[id], accepted[i]))
    && (forall id :: id in orders ==> exists i: nat :: LastOrder(accepted, id, i))
  }

  ghost predicate TradesShown(accepted: seq<Event>, trades: map<string, TradeView>) {
    && (forall id, i: nat :: LastTrade(accepted, id, i) ==> id in trades && ShowsTrade(trades[id], accepted[i]))
    && (forall id :: id in trades ==> exists i: nat :: LastTrade(accepted, id, i))
  }

  lemma OrderStaysShown(s: Store, event: Event)
    requires Apply(s, event).1.Done? && OrdersShown(s.accepted, s.model.orders)
    ensures OrdersShown(Apply(s, event).0.accepted, Apply(s, event).0.model.orders)
  {
    var s', n := Apply(s, event).0, |s.accepted|;
    AnswersExactly(s, event);
    if OrderEvent(event) {
      var named := SaysOnce(event.payload, "orderId");
      OrderEventIsShown(s, event, named);
    } else {
      OtherEventKeepsOrders(s, event);
    }
    hide Apply, ShowsOrder, Says;
    forall id, i: nat | LastOrder(s'.accepted, id, i)
      ensures id in s'.model.orders && ShowsOrder(s'.model.orders[id], s'.accepted[i])
    {
      LastOrderBefore(s.accepted, event, id, i);
    }
    forall id | id in s'.model.orders
      ensures exists i: nat :: LastOrder(s'.accepted, id, i)
    {
      if NamesOrder(event, id) {
        assert LastOrder(s'.accepted, id, n);
      } else {
        var i: nat :| LastOrder(s.accepted, id, i);
        LastOrderBefore(s.accepted, event, id, i);
      }
    }
  }

  lemma LastOrderBefore(events: seq<Event>, event: Event, id: string, i: nat)
    ensures LastOrder(events + [event], id, i)
            <==> if NamesOrder(event, id) then i == |events| else LastOrder(events, id, i)
  {
    hide NamesOrder;
    var all := events + [event];
    assert all[|events|] == event;
    if LastOrder(all, id, i) && i < |events| {
      assert all[i] == events[i] && !NamesOrder(all[|events|], id);
      assert forall j :: i < j < |events| ==> all[j] == events[j];
    }
  }

  lemma OtherEventKeepsOrders(s: Store, event: Event)
    requires Apply(s, event).1.Done? && !(OrderEvent(event))
    ensures Apply(s, event).0.model.orders == s.model.orders
  {
    hide SettlePostings;
  }

  lemma TradeStaysShown(s: Store, event: Event)
    requires Apply(s, event).1.Done? && TradesShown(s.accepted, s.model.trades)
    ensures TradesShown(Apply(s, event).0.accepted, Apply(s, event).0.model.trades)
  {
    var s', n := Apply(s, event).0, |s.accepted|;
    AnswersExactly(s, event);
    if event.eventType.TradeExecuted? {
      var named := SaysOnce(event.payload, "tradeId");
      TradeIsShown(s, event, named);
    } else {
      OtherEventKeepsTrades(s, event);
    }
    hide Apply, ShowsTrade, Says;
    forall id, i: nat | LastTrade(s'.accepted, id, i)
      ensures id in s'.model.trades && ShowsTrade(s'.model.trades[id], s'.accepted[i])
    {
      LastTradeBefore(s.accepted, event, id, i);
    }
    forall id | id in s'.model.trades
      ensures exists i: nat :: LastTrade(s'.accepted, id, i)
    {
      if NamesTrade(event, id) {
        assert LastTrade(s'.accepted, id, n);
      } else {
        var i: nat :| LastTrade(s.accepted, id, i);
        LastTradeBefore(s.accepted, event, id, i);
      }
    }
  }

  lemma LastTradeBefore(events: seq<Event>, event: Event, id: string, i: nat)
    ensures LastTrade(events + [event], id, i)
            <==> if NamesTrade(event, id) then i == |events| else LastTrade(events, id, i)
  {
    hide NamesTrade;
    var all := events + [event];
    assert all[|events|] == event;
    if LastTrade(all, id, i) && i < |events| {
      assert all[i] == events[i] && !NamesTrade(all[|events|], id);
      assert forall j :: i < j < |events| ==> all[j] == events[j];
    }
  }

  lemma OtherEventKeepsTrades(s: Store, event: Event)
    requires Apply(s, event).1.Done? && !(event.eventType.TradeExecuted?)
    ensures Apply(s, event).0.model.trades == s.model.trades
  {
    hide SettlePostings;
  }

  /**
    In every run, duplicates, gaps, failed settlements and observed positions included:
    an order or a trade is shown exactly if an accepted event names it, and then with the
    fields of the last such event.
   */
  lemma {:induction false} ViewsShowTheLastEvent(inputs: seq<Input>)
    ensures OrdersShown(Run(inputs).accepted, Run(inputs).model.orders) && TradesShown(Run(inputs).accepted, Run(inputs).model.trades)
  {
    hide Apply, OrdersShown, TradesShown;
    if inputs == [] {
      FreshShowsNothing();
    } else {
      var s, input := Run(inputs[..|inputs| - 1]), inputs[|inputs| - 1];
      ViewsShowTheLastEvent(inputs[..|inputs| - 1]);
      if input.Feed? && Apply(s, input.event).1.Done? {
        OrderStaysShown(s, input.event);
        TradeStaysShown(s, input.event);
      } else {
        UnacceptedShowsTheSame(s, input);
      }
    }
  }

  lemma FreshShowsNothing()
    ensures OrdersShown(FRESH.accepted, FRESH.model.orders) && TradesShown(FRESH.accepted, FRESH.model.trades)
  {
  }

  lemma UnacceptedShowsTheSame(s: Store, input: Input)
    requires input.Feed? ==> !Apply(s, input.event).1.Done?
    requires OrdersShown(s.accepted, s.model.orders) && TradesShown(s.accepted, s.model.trades)
    ensures OrdersShown(Take(s, input).accepted, Take(s, input).model.orders) && TradesShown(Take(s, input).accepted, Take(s, input).model.trades)
  {
    if input.Feed? {
      AnswersExactly(s, input.event);
    }
    hide Apply, OrdersShown, TradesShown;
  }

  // ---- Balances over runs ----

  /** Every balance is kept under the key of the account and asset it shows. */
  ghost predicate BalancesKeyed(balances: Balances) {
    forall key :: key in balances ==> key == balances[key].accountId + ":" + balances[key].assetId
  }

  lemma PostingKeepsKeys(balances: Balances, posting: Payload, sequence: int)
    requires BalancesKeyed(balances)
    ensures BalancesKeyed(SettlePosting(balances, posting, sequence).balances)
  {
    var account := SaysOnce(posting, "accountId");
    var asset := SaysOnce(posting, "assetId");
    PostingIsShown(balances, posting, sequence, account, asset,
                   AsString(posting, "availableDelta", "0"), AsString(posting, "reservedDelta", "0"));
    hide SettlePosting, Says, SaysOr;
  }

  lemma {:induction false} PostingsKeepKeys(balances: Balances, postings: seq<Payload>, sequence: int)
    requires BalancesKeyed(balances)
    ensures BalancesKeyed(SettlePostings(balances, postings, sequence).balances)
  {
    hide SettlePosting, BalancesKeyed;
    if postings != [] {
      var init := postings[..|postings| - 1];
      PostingsKeepKeys(balances, init, sequence);
      PostingKeepsKeys(SettlePostings(balances, init, sequence).balances, postings[|postings| - 1], sequence);
    }
  }

  lemma TakeKeepsKeys(s: Store, input: Input)
    requires BalancesKeyed(s.model.balances)
    ensures BalancesKeyed(Take(s, input).model.balances)
  {
    hide SettlePostings, BalancesKeyed;
    if input.Feed? {
      PostingsKeepKeys(s.model.balances, Postings(input.event), input.event.sequence);
    }
  }

  /** In every run, failed settlements included, each balance stands under its own account and asset. */
  lemma {:induction false} BalancesStandUnderTheirKeys(inputs: seq<Input>)
    ensures BalancesKeyed(Run(inputs).model.balances)
  {
    hide Take;
    if inputs != [] {
      BalancesStandUnderTheirKeys(inputs[..|inputs| - 1]);
      TakeKeepsKeys(Run(inputs[..|inputs| - 1]), inputs[|inputs| - 1]);
    }
  }
}
