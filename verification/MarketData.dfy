/**
  The market-data hub in its own imperative form
  (apps/backend/src/modules/market-data/domain/market-data.ts:108-299).

  A subscriber's handler only records the message it is given; the record is kept with
  the subscriber. Tokens stand for the identity of subscriber objects.
 */
module MarketData {
  import opened OrderBooks
  import opened ResyncLaws

  datatype HubError = MarketDataGap | Backpressure | BookMissing | Forbidden

  datatype Outcome = Success | Failure(error: HubError)

  datatype Subscriber = Subscriber(token: nat, clientId: string, pending: int, received: seq<Message>)

  type Registry = map<string, seq<Subscriber>>

  datatype Channel = BookChannel | TradesChannel | TickerChannel

  function ChannelName(channel: Channel): string {
    match channel
    case BookChannel => "book"
    case TradesChannel => "trades"
    case TickerChannel => "ticker"
  }

  function PublicKey(instrument: Instrument, channel: Channel): string {
    instrument + ":" + ChannelName(channel)
  }

  function Subscribers(registry: Registry, key: string): seq<Subscriber> {
    if key in registry then registry[key] else []
  }

  function Deliver(s: Subscriber, message: Message): Subscriber {
    s.(received := s.received + [message])
  }

  function DeliverAll(subscribers: seq<Subscriber>, message: Message): seq<Subscriber> {
    seq(|subscribers|, i requires 0 <= i < |subscribers| => Deliver(subscribers[i], message))
  }

  /** Every subscriber is handed the message behind what it had received, and nothing else about it changes. */
  lemma EveryoneIsHanded(subscribers: seq<Subscriber>, message: Message)
    ensures var after := DeliverAll(subscribers, message);
            && |after| == |subscribers|
            && forall i :: 0 <= i < |subscribers| ==>
                 (&& |after[i].received| == |subscribers[i].received| + 1
                  && after[i].received[..|subscribers[i].received|] == subscribers[i].received
                  && after[i].received[|subscribers[i].received|] == message
                  && after[i].token == subscribers[i].token && after[i].clientId == subscribers[i].clientId
                  && after[i].pending == subscribers[i].pending)
  {
  }

  lemma NobodyHandedYet(message: Message)
    ensures DeliverAll([], message) == []
  {
  }

  lemma OneMoreHanded(subscribers: seq<Subscriber>, n: nat, message: Message)
    requires n < |subscribers|
    ensures |DeliverAll(subscribers[..n], message)| == n
    ensures (DeliverAll(subscribers[..n], message) + subscribers[n..])[n := Deliver(subscribers[n], message)]
            == DeliverAll(subscribers[..n + 1], message) + subscribers[n + 1..]
  {
  }

  function ViewOf(s: Subscriber): View {
    ReceiveAll(Unknown, s.received)
  }

  /** Instruments may contain colons, yet no two (instrument, channel) pairs share a key. */
  lemma PublicKeyInjective(i: Instrument, c: Channel, i': Instrument, c': Channel)
    requires PublicKey(i, c) == PublicKey(i', c')
    ensures i == i' && c == c'
  {
    var key := PublicKey(i, c);
    assert key[|key| - 1] == ChannelName(c)[|ChannelName(c)| - 1] == ChannelName(c')[|ChannelName(c')| - 1];
    assert c == c';
    assert key[..|i|] == i && key[..|i'|] == i';
  }

  // ---- Counting subscriptions ----

  ghost function Total(registry: Registry): nat {
    if registry == map[] then 0
    else var key :| key in registry; |registry[key]| + Total(registry - {key})
  }

  lemma {:induction false} TotalAt(registry: Registry, key: string)
    requires key in registry
    ensures Total(registry) == |registry[key]| + Total(registry - {key})
    decreases |registry|
  {
    var first :| first in registry && Total(registry) == |registry[first]| + Total(registry - {first});
    if first != key {
      TotalAt(registry - {first}, key);
      TotalAt(registry - {key}, first);
      assert registry - {first} - {key} == registry - {key} - {first};
    }
  }

  lemma TotalAfter(registry: Registry, key: string, subscribers: seq<Subscriber>)
    ensures Total(registry[key := subscribers]) == Total(registry) - |Subscribers(registry, key)| + |subscribers|
  {
    var after := registry[key := subscribers];
    TotalAt(after, key);
    assert after - {key} == registry - {key};
    if key in registry {
      TotalAt(registry, key);
    } else {
      assert registry - {key} == registry;
    }
  }

  // ---- Invariants ----

  ghost predicate BooksValid(books: map<Instrument, BookState>, epochs: map<Instrument, Epoch>) {
    books.Keys == epochs.Keys && forall i :: i in books ==> Represents(books[i], epochs[i])
  }

  /** Between calls no message is pending, and tokens were handed out earlier. */
  ghost predicate RegistryIdle(registry: Registry, nextToken: nat) {
    forall key, n :: key in registry && 0 <= n < |registry[key]| ==>
      registry[key][n].pending == 0 && registry[key][n].token < nextToken
  }

  /** A listener in `synced` has been told everything since its book's last snapshot. */
  ghost predicate ListenersFollow(books: map<Instrument, BookState>, registry: Registry, synced: set<nat>) {
    forall i, n :: 0 <= n < |Subscribers(registry, PublicKey(i, BookChannel))| ==>
      Follows(books, i, Subscribers(registry, PublicKey(i, BookChannel))[n], synced)
  }

  ghost predicate Follows(books: map<Instrument, BookState>, i: Instrument, s: Subscriber, synced: set<nat>) {
    s.token in synced ==> i in books && ViewOf(s) == Following(books[i].book)
  }

  function Tokens(subscribers: seq<Subscriber>): set<nat> {
    set n | 0 <= n < |subscribers| :: subscribers[n].token
  }

  lemma DeliveredBooks(books: map<Instrument, BookState>, i: Instrument, inc: Increment, s: Subscriber, synced: set<nat>)
    requires Follows(books, i, s, synced) && i in books && inc.sequence == books[i].book.sequence + 1
    ensures Follows(books[i := Publish(books[i], inc)], i, Deliver(s, BookUpdate(inc)), synced)
  {
    var received := s.received + [BookUpdate(inc)];
    assert received[..|received| - 1] == s.received;
  }

  /** An increment delivered to all its listeners keeps every listener in step. */
  lemma IncrementReachesListeners(books: map<Instrument, BookState>, registry: Registry, synced: set<nat>, inc: Increment)
    requires ListenersFollow(books, registry, synced)
    requires inc.instrument in books && inc.sequence == books[inc.instrument].book.sequence + 1
    ensures var key := PublicKey(inc.instrument, BookChannel);
            ListenersFollow(books[inc.instrument := Publish(books[inc.instrument], inc)],
                            registry[key := DeliverAll(Subscribers(registry, key), BookUpdate(inc))], synced)
  {
    var key := PublicKey(inc.instrument, BookChannel);
    var books' := books[inc.instrument := Publish(books[inc.instrument], inc)];
    var registry' := registry[key := DeliverAll(Subscribers(registry, key), BookUpdate(inc))];
    forall i, n | 0 <= n < |Subscribers(registry', PublicKey(i, BookChannel))|
      ensures Follows(books', i, Subscribers(registry', PublicKey(i, BookChannel))[n], synced)
    {
      if PublicKey(i, BookChannel) == key {
        PublicKeyInjective(i, BookChannel, inc.instrument, BookChannel);
        assert Follows(books, i, Subscribers(registry, key)[n], synced);
        DeliveredBooks(books, i, inc, Subscribers(registry, key)[n], synced);
      } else {
        assert Follows(books, i, Subscribers(registry, PublicKey(i, BookChannel))[n], synced);
      }
    }
  }

  /** Replacing a book unannounced leaves only its own listeners behind. */
  lemma OthersStillFollow(books: map<Instrument, BookState>, registry: Registry, synced: set<nat>, instrument: Instrument,
                          state: BookState)
    requires ListenersFollow(books, registry, synced)
    ensures ListenersFollow(books[instrument := state], registry,
                            synced - Tokens(Subscribers(registry, PublicKey(instrument, BookChannel))))
  {
    var left := synced - Tokens(Subscribers(registry, PublicKey(instrument, BookChannel)));
    forall i, n | 0 <= n < |Subscribers(registry, PublicKey(i, BookChannel))|
      ensures Follows(books[instrument := state], i, Subscribers(registry, PublicKey(i, BookChannel))[n], left)
    {
      assert Follows(books, i, Subscribers(registry, PublicKey(i, BookChannel))[n], synced);
      if i == instrument {
        assert Subscribers(registry, PublicKey(i, BookChannel))[n].token in Tokens(Subscribers(registry, PublicKey(i, BookChannel)));
      }
    }
  }

  /** Every member of the new list was a member of the old one. */
  ghost predicate Sublist(after: seq<Subscriber>, before: seq<Subscriber>) {
    forall n :: 0 <= n < |after| ==> after[n] in before
  }

  lemma FewerStillFollow(books: map<Instrument, BookState>, registry: Registry, synced: set<nat>, key: string,
                         after: seq<Subscriber>)
    requires ListenersFollow(books, registry, synced) && Sublist(after, Subscribers(registry, key))
    ensures ListenersFollow(books, registry[key := after], synced)
  {
    var registry' := registry[key := after];
    forall i, n | 0 <= n < |Subscribers(registry', PublicKey(i, BookChannel))|
      ensures Follows(books, i, Subscribers(registry', PublicKey(i, BookChannel))[n], synced)
    {
      var s := Subscribers(registry', PublicKey(i, BookChannel))[n];
      assert s in Subscribers(registry, PublicKey(i, BookChannel));
    }
  }

  /** Subscribers of trades and tickers are listed apart from those of books. */
  lemma OtherChannelsStillFollow(books: map<Instrument, BookState>, registry: Registry, synced: set<nat>,
                                 instrument: Instrument, channel: Channel, after: seq<Subscriber>)
    requires ListenersFollow(books, registry, synced) && channel != BookChannel
    ensures ListenersFollow(books, registry[PublicKey(instrument, channel) := after], synced)
  {
    var registry' := registry[PublicKey(instrument, channel) := after];
    forall i, n | 0 <= n < |Subscribers(registry', PublicKey(i, BookChannel))|
      ensures Follows(books, i, Subscribers(registry', PublicKey(i, BookChannel))[n], synced)
    {
      if PublicKey(i, BookChannel) == PublicKey(instrument, channel) {
        PublicKeyInjective(i, BookChannel, instrument, channel);
      }
      assert Follows(books, i, Subscribers(registry, PublicKey(i, BookChannel))[n], synced);
    }
  }

  lemma DeliveryKeepsIdle(registry: Registry, nextToken: nat, key: string, message: Message)
    requires RegistryIdle(registry, nextToken)
    ensures RegistryIdle(registry[key := DeliverAll(Subscribers(registry, key), message)], nextToken)
  {
  }

  lemma BooksAfterPublish(books: map<Instrument, BookState>, epochs: map<Instrument, Epoch>, inc: Increment)
    requires BooksValid(books, epochs)
    requires inc.instrument in books && inc.sequence == books[inc.instrument].book.sequence + 1
    ensures var e := epochs[inc.instrument];
            BooksValid(books[inc.instrument := Publish(books[inc.instrument], inc)],
                       epochs[inc.instrument := Epoch(e.base, e.increments + [inc])])
  {
    PublishExtendsTheEpoch(books[inc.instrument], epochs[inc.instrument], inc);
  }

  lemma PublishDecides(state: BookState, e: Epoch, inc: Increment)
    requires Represents(state, e)
    ensures var after := Publish(state, inc).book;
            && after.sequence == inc.sequence
            && DecidedBy(state.book.bids, inc.bids, after.bids) && DecidedBy(state.book.asks, inc.asks, after.asks)
  {
    ApplyAllKeepsUnique(e.base, e.increments);
    IncrementDecidesEachPrice(state.book, inc);
  }

  /** When the fan-out stops at its first listener, none of the book's listeners was told. */
  lemma LostFanOut(books: map<Instrument, BookState>, registry: Registry, synced: set<nat>, nextToken: nat,
                   instrument: Instrument, state: BookState)
    requires ListenersFollow(books, registry, synced) && RegistryIdle(registry, nextToken)
    requires Subscribers(registry, PublicKey(instrument, BookChannel)) != []
    ensures var key := PublicKey(instrument, BookChannel);
            var listeners := Subscribers(registry, key);
            && ListenersFollow(books[instrument := state], registry[key := listeners[1..]], synced - Tokens(listeners))
            && RegistryIdle(registry[key := listeners[1..]], nextToken)
  {
    var key := PublicKey(instrument, BookChannel);
    OthersStillFollow(books, registry, synced, instrument, state);
    FewerStillFollow(books[instrument := state], registry, synced - Tokens(Subscribers(registry, key)), key,
                     Subscribers(registry, key)[1..]);
  }

  lemma FreshListenerFollows(books: map<Instrument, BookState>, epochs: map<Instrument, Epoch>, s: Subscriber,
                             instrument: Instrument)
    requires BooksValid(books, epochs) && instrument in books && s.received == []
    ensures ViewOf(Deliver(s, BookSnapshot(SnapshotOf(instrument, books[instrument].book)))) == Following(books[instrument].book)
  {
    var received := s.received + [BookSnapshot(SnapshotOf(instrument, books[instrument].book))];
    SnapshotAnswer(books[instrument], epochs[instrument], instrument, Unknown);
    assert received == [BookSnapshot(SnapshotOf(instrument, books[instrument].book))];
  }

  lemma AppendKeepsIdle(registry: Registry, key: string, s: Subscriber)
    requires RegistryIdle(registry, s.token) && s.pending == 0
    ensures RegistryIdle(registry[key := Subscribers(registry, key) + [s]], s.token + 1)
    ensures Total(registry[key := Subscribers(registry, key) + [s]]) == Total(registry) + 1
  {
    TotalAfter(registry, key, Subscribers(registry, key) + [s]);
  }

  lemma NewListenerFollows(books: map<Instrument, BookState>, registry: Registry, synced: set<nat>, nextToken: nat,
                           instrument: Instrument, channel: Channel, s: Subscriber)
    requires ListenersFollow(books, registry, synced) && RegistryIdle(registry, nextToken) && s.token == nextToken
    requires forall t :: t in synced ==> t < nextToken
    requires channel == BookChannel && instrument in books ==> ViewOf(s) == Following(books[instrument].book)
    ensures var key := PublicKey(instrument, channel);
            ListenersFollow(books, registry[key := Subscribers(registry, key) + [s]],
                            if channel == BookChannel && instrument in books then synced + {nextToken} else synced)
  {
    var key := PublicKey(instrument, channel);
    var registry' := registry[key := Subscribers(registry, key) + [s]];
    var synced' := if channel == BookChannel && instrument in books then synced + {nextToken} else synced;
    forall i, n | 0 <= n < |Subscribers(registry', PublicKey(i, BookChannel))|
      ensures Follows(books, i, Subscribers(registry', PublicKey(i, BookChannel))[n], synced')
    {
      if n < |Subscribers(registry, PublicKey(i, BookChannel))| {
        assert Follows(books, i, Subscribers(registry, PublicKey(i, BookChannel))[n], synced);
      } else {
        PublicKeyInjective(i, BookChannel, instrument, channel);
      }
    }
  }

  class MarketDataHub {
    const maxSubscribers: int
    const maxPending: int
    var books: map<Instrument, BookState>
    var publicSubscribers: Registry
    var privateSubscribers: Registry
    var nextToken: nat
    // The last snapshot of each book and the increments since; the listeners told of all of them.
    ghost var epochs: map<Instrument, Epoch>
    ghost var synced: set<nat>

    ghost predicate Valid()
      reads this
    {
      && BooksValid(books, epochs)
      && RegistryIdle(publicSubscribers, nextToken)
      && RegistryIdle(privateSubscribers, nextToken)
      && (forall t :: t in synced ==> t < nextToken)
      && ListenersFollow(books, publicSubscribers, synced)
    }

    ghost predicate WithinCapacity()
      reads this
    {
      Total(publicSubscribers) + Total(privateSubscribers) <= if maxSubscribers > 0 then maxSubscribers else 0
    }

    constructor (maxSubscribers: int, maxPending: int)
      ensures Valid() && WithinCapacity()
      ensures books == map[] && publicSubscribers == map[] && privateSubscribers == map[]
      ensures this.maxSubscribers == maxSubscribers && this.maxPending == maxPending
    {
      this.maxSubscribers, this.maxPending := maxSubscribers, maxPending;
      books, publicSubscribers, privateSubscribers, nextToken := map[], map[], map[], 0;
      epochs, synced := map[], {};
    }

    method PublishSnapshot(snapshot: Snapshot)
      requires Valid()
      modifies `books, `epochs, `synced
      ensures Valid()
      ensures books == old(books)[snapshot.instrument := BookState(FromSnapshot(snapshot), [])]
      ensures epochs == old(epochs)[snapshot.instrument := Epoch(FromSnapshot(snapshot), [])]
      ensures synced == old(synced) - Tokens(Subscribers(publicSubscribers, PublicKey(snapshot.instrument, BookChannel)))
      ensures var book := books[snapshot.instrument].book;
              book.sequence == snapshot.sequence && ListedBy(snapshot.bids, book.bids) && ListedBy(snapshot.asks, book.asks)
    {
      SnapshotIsListed(snapshot);
      SnapshotStartsAnEpoch(snapshot);
      var state := BookState(FromSnapshot(snapshot), []);
      OthersStillFollow(books, publicSubscribers, synced, snapshot.instrument, state);
      books := books[snapshot.instrument := state];
      epochs := epochs[snapshot.instrument := Epoch(FromSnapshot(snapshot), [])];
      synced := synced - Tokens(Subscribers(publicSubscribers, PublicKey(snapshot.instrument, BookChannel)));
    }

    /** `applyLevels`: deletes a level of quantity "0", writes any other. */
    static method ApplyEach(target: Side, levels: seq<Level>) returns (side: Side)
      ensures side == ApplyLevels(target, levels)
      ensures Unique(target) ==> DecidedBy(target, levels, side)
    {
      if Unique(target) {
        LevelsDecide(target, levels);
      }
      side := target;
      for n := 0 to |levels|
        invariant side == ApplyLevels(target, levels[..n])
      {
        assert levels[..n + 1][..n] == levels[..n];
        side := if levels[n].quantity == "0" then DeleteLevel(side, levels[n].price) else SetLevel(side, levels[n]);
      }
      assert levels[..|levels|] == levels;
    }

    /** Hands the message to each subscriber in turn; stops at the first one over its bound, dropping it. */
    method Broadcast(subscribers: seq<Subscriber>, message: Message) returns (after: seq<Subscriber>, ok: bool)
      requires forall n :: 0 <= n < |subscribers| ==> subscribers[n].pending == 0
      ensures ok <==> maxPending >= 1 || subscribers == []
      ensures after == if ok then DeliverAll(subscribers, message) else subscribers[1..]
    {
      hide DeliverAll;
      after := subscribers;
      var n := 0;
      NobodyHandedYet(message);
      while n < |subscribers|
        invariant 0 <= n <= |subscribers| && (n > 0 ==> maxPending >= 1)
        invariant after == DeliverAll(subscribers[..n], message) + subscribers[n..]
      {
        var subscriber := subscribers[n].(pending := subscribers[n].pending + 1);
        if subscriber.pending > maxPending {
          assert subscribers[..n] == [] && after == subscribers;
          return after[..n] + after[n + 1..], false;
        }
        subscriber := Deliver(subscriber, message);
        OneMoreHanded(subscribers, n, message);
        after := after[n := subscriber.(pending := subscriber.pending - 1)];
        n := n + 1;
      }
      assert subscribers[..n] == subscribers;
      ok := true;
    }

    /** The book and its bounded history after one increment. */
    static method Advance(state: BookState, inc: Increment) returns (next: BookState)
      ensures next == Publish(state, inc)
    {
      var bids := ApplyEach(state.book.bids, inc.bids);
      var asks := ApplyEach(state.book.asks, inc.asks);
      var history := state.history + [inc];
      if |history| > RETENTION {
        history := history[1..];
      }
      next := BookState(Book(inc.sequence, bids, asks), history);
    }

    /**
      A gap changes nothing. Otherwise the book moves on and its listeners are told;
      where no message may be pending the book moves on and the first listener is dropped.
     */
    method PublishIncrement(inc: Increment) returns (r: Outcome)
      requires Valid()
      modifies `books, `epochs, `synced, `publicSubscribers
      ensures Valid() && Total(publicSubscribers) <= old(Total(publicSubscribers))
      ensures r == Failure(MarketDataGap) <==>
              inc.instrument !in old(books) || inc.sequence != old(books)[inc.instrument].book.sequence + 1
      ensures r == Failure(MarketDataGap) ==>
                books == old(books) && epochs == old(epochs) && publicSubscribers == old(publicSubscribers) && synced == old(synced)
      ensures r != Failure(MarketDataGap) ==>
                books == old(books)[inc.instrument := Publish(old(books)[inc.instrument], inc)]
      // Both sides of the book, price by price.
      ensures r != Failure(MarketDataGap) ==>
                var before, after := old(books)[inc.instrument].book, books[inc.instrument].book;
                && after.sequence == inc.sequence
                && DecidedBy(before.bids, inc.bids, after.bids) && DecidedBy(before.asks, inc.asks, after.asks)
      ensures r != Failure(MarketDataGap) ==>
                inc.instrument in old(epochs)
                && epochs == old(epochs)[inc.instrument := Epoch(old(epochs)[inc.instrument].base,
                                                                 old(epochs)[inc.instrument].increments + [inc])]
      ensures r != Failure(MarketDataGap) ==>
                (r == Success <==> maxPending >= 1 || Subscribers(old(publicSubscribers), PublicKey(inc.instrument, BookChannel)) == [])
      ensures r == Success ==>
                var key := PublicKey(inc.instrument, BookChannel);
                && synced == old(synced)
                && publicSubscribers
                   == old(publicSubscribers)[key := DeliverAll(Subscribers(old(publicSubscribers), key), BookUpdate(inc))]
      ensures r != Success && r != Failure(MarketDataGap) ==>
                var key := PublicKey(inc.instrument, BookChannel);
                && r == Failure(Backpressure)
                && Subscribers(old(publicSubscribers), key) != []
                && synced == old(synced) - Tokens(Subscribers(old(publicSubscribers), key))
                && publicSubscribers == old(publicSubscribers)[key := Subscribers(old(publicSubscribers), key)[1..]]
    {
      if inc.instrument !in books || inc.sequence != books[inc.instrument].book.sequence + 1 {
        return Failure(MarketDataGap);
      }
      var next := Advance(books[inc.instrument], inc);
      PublishDecides(books[inc.instrument], epochs[inc.instrument], inc);
      BooksAfterPublish(books, epochs, inc);
      var key := PublicKey(inc.instrument, BookChannel);
      var after, ok := Broadcast(Subscribers(publicSubscribers, key), BookUpdate(inc));
      ghost var e := epochs[inc.instrument];
      ghost var left := synced;
      if ok {
        IncrementReachesListeners(books, publicSubscribers, synced, inc);
        DeliveryKeepsIdle(publicSubscribers, nextToken, key, BookUpdate(inc));
      } else {
        left := synced - Tokens(Subscribers(publicSubscribers, key));
        LostFanOut(books, publicSubscribers, synced, nextToken, inc.instrument, next);
      }
      TotalAfter(publicSubscribers, key, after);
      books := books[inc.instrument := next];
      epochs := epochs[inc.instrument := Epoch(e.base, e.increments + [inc])];
      publicSubscribers := publicSubscribers[key := after];
      synced := left;
      r := if ok then Success else Failure(Backpressure);
    }

    /** Trades and tickers go to the subscribers of that instrument and channel. */
    method PublishTick(instrument: Instrument, channel: Channel, sequence: int, price: string, quantity: string)
      returns (r: Outcome)
      requires Valid() && channel != BookChannel
      modifies `publicSubscribers
      ensures Valid() && Total(publicSubscribers) <= old(Total(publicSubscribers))
      ensures var key := PublicKey(instrument, channel);
              var listeners := Subscribers(old(publicSubscribers), key);
              && (r == Success <==> maxPending >= 1 || listeners == [])
              && (r != Success ==> r == Failure(Backpressure))
              && publicSubscribers == old(publicSubscribers)[key :=
                   if r == Success then DeliverAll(listeners, Tick(ChannelName(channel), instrument, sequence, price, quantity))
                   else listeners[1..]]
    {
      var key := PublicKey(instrument, channel);
      var tick := Tick(ChannelName(channel), instrument, sequence, price, quantity);
      var after, ok := Broadcast(Subscribers(publicSubscribers, key), tick);
      OtherChannelsStillFollow(books, publicSubscribers, synced, instrument, channel, after);
      DeliveryKeepsIdle(publicSubscribers, nextToken, key, tick);
      TotalAfter(publicSubscribers, key, after);
      publicSubscribers := publicSubscribers[key := after];
      r := if ok then Success else Failure(Backpressure);
    }

    method GetSnapshot(instrument: Instrument) returns (r: Option<Snapshot>)
      ensures r == if instrument in books then Some(SnapshotOf(instrument, books[instrument].book)) else None
    {
      if instrument !in books {
        return None;
      }
      var book := books[instrument].book;
      r := Some(Snapshot(instrument, book.sequence, book.bids, book.asks));
    }

    /** None when the instrument has no book, which the source reports as an error. */
    method Resync(instrument: Instrument, last: int) returns (r: Option<seq<Message>>)
      requires Valid()
      ensures r.None? <==> instrument !in books
      ensures r.Some? ==> r.value == ResyncLaws.Resync(books[instrument], instrument, last)
      ensures r.Some? && Within(epochs[instrument], last) ==>
                ReceiveAll(Following(BookAt(epochs[instrument], last)), r.value) == Following(books[instrument].book)
    {
      if instrument !in books {
        return None;
      }
      var book := books[instrument];
      var replay: seq<Increment> := [];
      for n := 0 to |book.history|
        invariant replay == After(book.history[..n], last)
      {
        assert book.history[..n + 1][..n] == book.history[..n];
        if book.history[n].sequence > last {
          replay := replay + [book.history[n]];
        }
      }
      assert book.history[..|book.history|] == book.history;
      if Within(epochs[instrument], last) {
        ResyncConverges(book, epochs[instrument], instrument, last);
      }
      if |replay| == book.book.sequence - last {
        return Some(Updates(replay));
      }
      r := Some([BookSnapshot(SnapshotOf(instrument, book.book))]);
    }

    method CountEach(registry: Registry) returns (count: nat)
      ensures count == Total(registry)
    {
      count := 0;
      var rest := registry;
      while rest.Keys != {}
        invariant count + Total(rest) == Total(registry)
        decreases rest.Keys
      {
        var key :| key in rest.Keys;
        TotalAt(rest, key);
        count := count + |rest[key]|;
        rest := rest - {key};
      }
    }

    method GetSubscriberCount() returns (count: nat)
      ensures count == Total(publicSubscribers) + Total(privateSubscribers)
    {
      var publicCount := CountEach(publicSubscribers);
      var privateCount := CountEach(privateSubscribers);
      count := publicCount + privateCount;
    }

    /**
      The subscriber is registered before its snapshot is taken, so a book that does
      not exist makes the call fail and still leaves the subscriber, and its place in
      the capacity, behind.
     */
    method SubscribePublic(clientId: string, instrument: Instrument, channel: Channel) returns (r: Outcome)
      requires Valid() && WithinCapacity()
      modifies `publicSubscribers, `synced, `nextToken
      ensures Valid() && WithinCapacity()
      ensures r == Failure(Backpressure) <==>
              old(Total(publicSubscribers) + Total(privateSubscribers)) >= maxSubscribers
      ensures r == Failure(Backpressure) ==> publicSubscribers == old(publicSubscribers) && synced == old(synced)
      ensures r != Failure(Backpressure) ==>
                var key := PublicKey(instrument, channel);
                var received := if channel == BookChannel && instrument in books
                                then [BookSnapshot(SnapshotOf(instrument, books[instrument].book))] else [];
                && publicSubscribers == old(publicSubscribers)[key := Subscribers(old(publicSubscribers), key)
                                                                 + [Subscriber(old(nextToken), clientId, 0, received)]]
                && Total(publicSubscribers) == old(Total(publicSubscribers)) + 1
                && r == (if channel == BookChannel && instrument !in books then Failure(BookMissing) else Success)
                && synced == if channel == BookChannel && instrument in books then old(synced) + {old(nextToken)} else old(synced)
    {
      var count := GetSubscriberCount();
      if count >= maxSubscribers {
        return Failure(Backpressure);
      }
      var subscriber, found := Welcome(clientId, instrument, channel);
      Enroll(subscriber, instrument, channel);
      r := if found then Success else Failure(BookMissing);
    }

    method Enroll(subscriber: Subscriber, instrument: Instrument, channel: Channel)
      requires Valid() && subscriber.token == nextToken && subscriber.pending == 0
      requires channel == BookChannel && instrument in books ==> ViewOf(subscriber) == Following(books[instrument].book)
      modifies `publicSubscribers, `synced, `nextToken
      ensures Valid()
      ensures Total(publicSubscribers) == old(Total(publicSubscribers)) + 1
      ensures publicSubscribers
              == old(publicSubscribers)[PublicKey(instrument, channel) :=
                   Subscribers(old(publicSubscribers), PublicKey(instrument, channel)) + [subscriber]]
      ensures synced == if channel == BookChannel && instrument in books then old(synced) + {old(nextToken)} else old(synced)
    {
      var key := PublicKey(instrument, channel);
      NewListenerFollows(books, publicSubscribers, synced, nextToken, instrument, channel, subscriber);
      AppendKeepsIdle(publicSubscribers, key, subscriber);
      synced := if channel == BookChannel && instrument in books then synced + {nextToken} else synced;
      publicSubscribers := publicSubscribers[key := Subscribers(publicSubscribers, key) + [subscriber]];
      nextToken := nextToken + 1;
    }

    /** The new subscriber, handed the snapshot when it asks for a book that exists. */
    method Welcome(clientId: string, instrument: Instrument, channel: Channel) returns (s: Subscriber, found: bool)
      requires Valid()
      ensures s == Subscriber(nextToken, clientId, 0,
                              if channel == BookChannel && instrument in books
                              then [BookSnapshot(SnapshotOf(instrument, books[instrument].book))] else [])
      ensures found <==> !(channel == BookChannel && instrument !in books)
      ensures channel == BookChannel && instrument in books ==> ViewOf(s) == Following(books[instrument].book)
    {
      s := Subscriber(nextToken, clientId, 0, []);
      found := true;
      if channel == BookChannel {
        var snapshot := GetSnapshot(instrument);
        if snapshot.None? {
          return s, false;
        }
        FreshListenerFollows(books, epochs, s, instrument);
        s := Deliver(s, BookSnapshot(snapshot.value));
      }
    }

    method SubscribePrivate(clientId: string, authenticated: string, requested: string) returns (r: Outcome)
      requires Valid() && WithinCapacity()
      modifies `privateSubscribers, `nextToken
      ensures Valid() && WithinCapacity()
      ensures r == if authenticated != requested then Failure(Forbidden)
                   else if old(Total(publicSubscribers) + Total(privateSubscribers)) >= maxSubscribers then Failure(Backpressure)
                   else Success
      ensures privateSubscribers
              == if r == Success
                 then old(privateSubscribers)[requested := Subscribers(old(privateSubscribers), requested)
                                                             + [Subscriber(old(nextToken), clientId, 0, [])]]
                 else old(privateSubscribers)
    {
      if authenticated != requested {
        return Failure(Forbidden);
      }
      var count := GetSubscriberCount();
      if count >= maxSubscribers {
        return Failure(Backpressure);
      }
      var subscriber := Subscriber(nextToken, clientId, 0, []);
      AppendKeepsIdle(privateSubscribers, requested, subscriber);
      privateSubscribers := privateSubscribers[requested := Subscribers(privateSubscribers, requested) + [subscriber]];
      nextToken := nextToken + 1;
      r := Success;
    }

    /** Reaches the subscribers of exactly this user and nobody else. */
    method PublishPrivate(event: Message) returns (r: Outcome)
      requires Valid() && event.UserEvent?
      modifies `privateSubscribers
      ensures Valid() && Total(privateSubscribers) <= old(Total(privateSubscribers))
      ensures var listeners := Subscribers(old(privateSubscribers), event.userId);
              && (r == Success <==> maxPending >= 1 || listeners == [])
              && (r != Success ==> r == Failure(Backpressure))
              && privateSubscribers == old(privateSubscribers)[event.userId :=
                   if r == Success then DeliverAll(listeners, event) else listeners[1..]]
    {
      var after, ok := Broadcast(Subscribers(privateSubscribers, event.userId), event);
      TotalAfter(privateSubscribers, event.userId, after);
      privateSubscribers := privateSubscribers[event.userId := after];
      r := if ok then Success else Failure(Backpressure);
    }

    /** The closure subscribePublic returns; safe to call again. */
    method UnsubscribePublic(instrument: Instrument, channel: Channel, token: nat)
      requires Valid() && WithinCapacity()
      modifies `publicSubscribers
      ensures Valid() && WithinCapacity()
      ensures publicSubscribers == old(publicSubscribers)[PublicKey(instrument, channel) :=
                Without(Subscribers(old(publicSubscribers), PublicKey(instrument, channel)), token)]
    {
      var key := PublicKey(instrument, channel);
      var after := Without(Subscribers(publicSubscribers, key), token);
      WithoutIsSublist(Subscribers(publicSubscribers, key), token);
      FewerStillFollow(books, publicSubscribers, synced, key, after);
      TotalAfter(publicSubscribers, key, after);
      publicSubscribers := publicSubscribers[key := after];
    }
  }

  /** `indexOf` and `splice`: drops the first subscriber with the token. */
  function Without(subscribers: seq<Subscriber>, token: nat): seq<Subscriber> {
    if subscribers == [] then []
    else if subscribers[0].token == token then subscribers[1..]
    else [subscribers[0]] + Without(subscribers[1..], token)
  }

  lemma {:induction false} WithoutIsSublist(subscribers: seq<Subscriber>, token: nat)
    ensures Sublist(Without(subscribers, token), subscribers)
    ensures |Without(subscribers, token)| == |subscribers| - if token in Tokens(subscribers) then 1 else 0
  {
    if subscribers != [] && subscribers[0].token != token {
      WithoutIsSublist(subscribers[1..], token);
      TokensSplit(subscribers);
    }
  }

  lemma TokensSplit(subscribers: seq<Subscriber>)
    requires subscribers != []
    ensures Tokens(subscribers) == {subscribers[0].token} + Tokens(subscribers[1..])
  {
    forall t | t in Tokens(subscribers)
      ensures t in {subscribers[0].token} + Tokens(subscribers[1..])
    {
      var n :| 0 <= n < |subscribers| && subscribers[n].token == t;
      if n > 0 {
        assert subscribers[1..][n - 1].token == t;
      }
    }
  }
}
