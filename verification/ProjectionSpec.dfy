/**
  What one event does to the read models
  (apps/backend/src/modules/projections/application/projection.store.ts:130-147, 235-287, 315-323).
 */
module ProjectionSpec {
  import opened StringAdder

  /** An unchecked payload value: text, a list of objects, or anything else by what String(value) shows. */
  datatype Json = Text(text: string) | Items(items: seq<map<string, Json>>, shown: string) | Other(shown: string)

  type Payload = map<string, Json>

  datatype EventType = OrderAccepted | OrderRejected | OrderCancelled | TradeExecuted | SettlementApplied

  datatype Event = Event(eventId: string, eventType: EventType, sequence: int, payload: Payload)

  datatype OrderView = OrderView(
    orderId: string, userId: string, accountId: string, instrumentId: string, status: string,
    remainingQuantity: string, updatedAtSequence: int)

  datatype TradeView = TradeView(
    tradeId: string, instrumentId: string, userIds: (string, string), makerOrderId: string, takerOrderId: string,
    quantity: string, price: string, sequence: int)

  datatype BalanceView = BalanceView(accountId: string, assetId: string, available: string, reserved: string, sequence: int)

  type Balances = map<string, BalanceView>

  datatype Model = Model(orders: map<string, OrderView>, trades: map<string, TradeView>, balances: Balances)

  const EMPTY := Model(map[], map[], map[])

  datatype Error = SequenceGap | InvalidEvent | NotANumber

  /** Either way the model is as far as the event got. */
  datatype Effect = Applied(model: Model) | Failed(model: Model, error: Error)

  datatype Settled = Complete(balances: Balances) | Aborted(balances: Balances)

  /** String(payload[field]) */
  function Shown(payload: Payload, field: string): string {
    if field !in payload then "undefined"
    else match payload[field]
      case Text(text) => text
      case Items(_, shown) => shown
      case Other(shown) => shown
  }

  /** asString(payload[field], fallback) */
  function AsString(payload: Payload, field: string, fallback: string): string {
    if field in payload && payload[field].Text? then payload[field].text else fallback
  }

  function ApplyOrder(m: Model, event: Event, status: string): Model {
    var p := event.payload;
    var view := OrderView(Shown(p, "orderId"), Shown(p, "userId"), Shown(p, "accountId"), Shown(p, "instrumentId"), status,
                          AsString(p, "remainingQuantity", "0"), event.sequence);
    m.(orders := m.orders[Shown(p, "orderId") := view])
  }

  function ApplyTrade(m: Model, event: Event): Model {
    var p := event.payload;
    var view := TradeView(Shown(p, "tradeId"), Shown(p, "instrumentId"), (Shown(p, "makerUserId"), Shown(p, "takerUserId")),
                          Shown(p, "makerOrderId"), Shown(p, "takerOrderId"), Shown(p, "quantity"), Shown(p, "price"),
                          event.sequence);
    m.(trades := m.trades[Shown(p, "tradeId") := view])
  }

  function BalanceKey(posting: Payload): string {
    Shown(posting, "accountId") + ":" + Shown(posting, "assetId")
  }

  function CurrentBalance(balances: Balances, posting: Payload, sequence: int): BalanceView {
    if BalanceKey(posting) in balances then balances[BalanceKey(posting)]
    else BalanceView(Shown(posting, "accountId"), Shown(posting, "assetId"), "0", "0", sequence)
  }

  function SettlePosting(balances: Balances, posting: Payload, sequence: int): Settled {
    var current := CurrentBalance(balances, posting, sequence);
    var available := AddDecimal(current.available, AsString(posting, "availableDelta", "0"));
    var reserved := AddDecimal(current.reserved, AsString(posting, "reservedDelta", "0"));
    if available.SyntaxError? || reserved.SyntaxError? then Aborted(balances)
    else
      Complete(balances[BalanceKey(posting) :=
                          current.(available := available.text, reserved := reserved.text, sequence := sequence)])
  }

  /** The postings in turn, up to the first that throws. */
  function SettlePostings(balances: Balances, postings: seq<Payload>, sequence: int): Settled {
    if postings == [] then Complete(balances)
    else
      var before := SettlePostings(balances, postings[..|postings| - 1], sequence);
      if before.Aborted? then before else SettlePosting(before.balances, postings[|postings| - 1], sequence)
  }

  function Postings(event: Event): seq<Payload> {
    if event.eventType.SettlementApplied? && "postings" in event.payload && event.payload["postings"].Items?
    then event.payload["postings"].items else []
  }

  predicate WellFormed(event: Event) {
    event.eventType.SettlementApplied? ==> "postings" in event.payload && event.payload["postings"].Items?
  }

  function ApplyEvent(m: Model, event: Event): Effect {
    match event.eventType
    case OrderAccepted => Applied(ApplyOrder(m, event, AsString(event.payload, "status", "OPEN")))
    case OrderRejected => Applied(ApplyOrder(m, event, "REJECTED"))
    case OrderCancelled => Applied(ApplyOrder(m, event, "CANCELLED"))
    case TradeExecuted => Applied(ApplyTrade(m, event))
    case SettlementApplied =>
      if !WellFormed(event) then Failed(m, InvalidEvent)
      else
        var settled := SettlePostings(m.balances, Postings(event), event.sequence);
        if settled.Complete? then Applied(m.(balances := settled.balances))
        else Failed(m.(balances := settled.balances), NotANumber)
  }

  /** The model a list of events builds; None if one of them cannot be applied. */
  datatype Built = Built(model: Model) | Broken

  function Build(events: seq<Event>): Built {
    if events == [] then Built(EMPTY)
    else
      var before := Build(events[..|events| - 1]);
      if before.Broken? then Broken
      else
        var effect := ApplyEvent(before.model, events[|events| - 1]);
        if effect.Applied? then Built(effect.model) else Broken
  }

  // ---- The store ----

  /** `accepted` is bookkeeping: the events applied so far, in order. */
  datatype Store = Store(
    model: Model, processed: set<string>, appliedSequence: int, sourceSequence: int, accepted: seq<Event>)

  datatype Outcome = Done | Duplicate | Threw(error: Error)

  function Max(a: int, b: int): int {
    if a >= b then a else b
  }

  function Apply(s: Store, event: Event): (Store, Outcome) {
    if event.eventId in s.processed then (s, Duplicate)
    else if event.sequence != s.appliedSequence + 1 then (s, Threw(SequenceGap))
    else
      var source := Max(s.sourceSequence, event.sequence);
      match ApplyEvent(s.model, event)
      case Applied(model) =>
        (Store(model, s.processed + {event.eventId}, event.sequence, source, s.accepted + [event]), Done)
      case Failed(model, error) => (s.(model := model, sourceSequence := source), Threw(error))
  }

  function Cleared(events: seq<Event>): Store {
    Store(EMPTY, {}, 0, if events == [] then 0 else events[|events| - 1].sequence, [])
  }

  /** The events in turn, up to the first that throws. */
  function ApplyEach(s: Store, events: seq<Event>): (Store, Outcome) {
    if events == [] then (s, Done)
    else
      var (before, outcome) := ApplyEach(s, events[..|events| - 1]);
      if outcome.Threw? then (before, outcome)
      else
        var (after, last) := Apply(before, events[|events| - 1]);
        (after, if last.Threw? then last else Done)
  }
}
