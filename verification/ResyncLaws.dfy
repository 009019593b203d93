/**
  What the hub keeps for one instrument, and what resync promises about it
  (apps/backend/src/modules/market-data/domain/market-data.ts:89-94, 149-194).
 */
module ResyncLaws {
  import opened OrderBooks

  const RETENTION := 1000

  datatype BookState = BookState(book: Book, history: seq<Increment>)

  /** The last published snapshot and everything accepted since: what a state stands for. */
  datatype Epoch = Epoch(base: Book, increments: seq<Increment>)

  function LastOf<T>(items: seq<T>, limit: nat): seq<T> {
    if |items| <= limit then items else items[|items| - limit..]
  }

  /** `push`, then `shift` when the bound is exceeded. */
  function Push(history: seq<Increment>, inc: Increment): seq<Increment> {
    if |history| + 1 > RETENTION then (history + [inc])[1..] else history + [inc]
  }

  function Publish(s: BookState, inc: Increment): BookState {
    BookState(ApplyIncrement(s.book, inc), Push(s.history, inc))
  }

  function After(history: seq<Increment>, last: int): seq<Increment> {
    if history == [] then []
    else if history[|history| - 1].sequence > last then
      After(history[..|history| - 1], last) + [history[|history| - 1]]
    else After(history[..|history| - 1], last)
  }

  function Resync(s: BookState, instrument: Instrument, last: int): seq<Message> {
    var replay := After(s.history, last);
    if |replay| == s.book.sequence - last then Updates(replay)
    else [BookSnapshot(SnapshotOf(instrument, s.book))]
  }

  /** The state is the book of its epoch, and the history the latest increments of it. */
  ghost predicate Represents(s: BookState, e: Epoch) {
    && UniqueBook(e.base)
    && Consecutive(e.base.sequence, e.increments)
    && s.book == ApplyAll(e.base, e.increments)
    && s.history == LastOf(e.increments, RETENTION)
  }

  /** The book as it stood when its sequence was `sequence`. */
  function BookAt(e: Epoch, sequence: int): Book
    requires e.base.sequence <= sequence <= e.base.sequence + |e.increments|
  {
    ApplyAll(e.base, e.increments[..sequence - e.base.sequence])
  }

  predicate Within(e: Epoch, sequence: int) {
    e.base.sequence <= sequence <= e.base.sequence + |e.increments|
  }

  /** The increments after `last` are all still in the history. */
  predicate Retained(s: BookState, last: int) {
    s.book.sequence - |s.history| <= last <= s.book.sequence
  }

  lemma SnapshotStartsAnEpoch(snapshot: Snapshot)
    ensures Represents(BookState(FromSnapshot(snapshot), []), Epoch(FromSnapshot(snapshot), []))
  {
    FromLevelsIsUnique(snapshot.bids);
    FromLevelsIsUnique(snapshot.asks);
  }

  lemma PublishExtendsTheEpoch(s: BookState, e: Epoch, inc: Increment)
    requires Represents(s, e) && inc.sequence == s.book.sequence + 1
    ensures Represents(Publish(s, inc), Epoch(e.base, e.increments + [inc]))
    ensures var all := e.increments + [inc];
            Publish(s, inc).history == if |all| <= 1000 then all else all[|all| - 1000..]
  {
    SequenceAfter(e.base, e.increments);
    ApplyAllAppends(e.base, e.increments, [inc]);
    assert ApplyAll(s.book, [inc]) == ApplyIncrement(s.book, inc);
  }

  lemma {:induction false} AfterIsASuffix(history: seq<Increment>, from: int, last: int)
    requires Consecutive(from, history)
    ensures After(history, last)
            == if last <= from then history else if last >= from + |history| then [] else history[last - from..]
  {
    if history != [] {
      AfterIsASuffix(history[..|history| - 1], from, last);
      assert history == history[..|history| - 1] + [history[|history| - 1]];
    }
  }

  lemma HistoryIsConsecutive(s: BookState, e: Epoch)
    requires Represents(s, e)
    ensures s.book.sequence == e.base.sequence + |e.increments|
    ensures Consecutive(s.book.sequence - |s.history|, s.history)
    ensures |s.history| <= |e.increments|
    ensures s.history == e.increments[|e.increments| - |s.history|..]
  {
    SequenceAfter(e.base, e.increments);
  }

  lemma DropTwice<T>(items: seq<T>, m: nat, n: nat)
    requires m + n <= |items|
    ensures items[m..][n..] == items[m + n..]
  {
  }

  /** A replay is sent exactly while the history reaches back to `last`; it is the increments after `last`. */
  lemma ReplayIffRetained(s: BookState, e: Epoch, instrument: Instrument, last: int)
    requires Represents(s, e)
    ensures Resync(s, instrument, last)
            == if Retained(s, last) then Updates(e.increments[last - e.base.sequence..])
               else [BookSnapshot(SnapshotOf(instrument, s.book))]
  {
    hide Represents, ApplyAll, After, SnapshotOf;
    HistoryIsConsecutive(s, e);
    AfterIsASuffix(s.history, s.book.sequence - |s.history|, last);
    if Retained(s, last) {
      assert After(s.history, last) == s.history[last - (s.book.sequence - |s.history|)..];
      DropTwice(e.increments, |e.increments| - |s.history|, last - (s.book.sequence - |s.history|));
    }
  }

  lemma SnapshotAnswer(s: BookState, e: Epoch, instrument: Instrument, view: View)
    requires Represents(s, e)
    ensures ReceiveAll(view, [BookSnapshot(SnapshotOf(instrument, s.book))]) == Following(s.book)
  {
    ApplyAllKeepsUnique(e.base, e.increments);
    SnapshotCarriesTheBook(view, instrument, s.book);
    assert [BookSnapshot(SnapshotOf(instrument, s.book))][..0] == [];
  }

  /**
    Resync converges: a client that holds the hub's book as it stood at `last`, at any
    point since the last snapshot, ends with exactly the hub's book, order of levels
    included, whether it is sent a replay or a snapshot.
   */
  lemma ResyncConverges(s: BookState, e: Epoch, instrument: Instrument, last: int)
    requires Represents(s, e) && Within(e, last)
    ensures ReceiveAll(Following(BookAt(e, last)), Resync(s, instrument, last)) == Following(s.book)
  {
    ReplayIffRetained(s, e, instrument, last);
    hide Represents, Retained, Resync;
    if Retained(s, last) {
      var k := last - e.base.sequence;
      var seen, missed := e.increments[..k], e.increments[k..];
      SequenceAfter(e.base, seen);
      FollowingAppliesAll(BookAt(e, last), missed);
      ApplyAllAppends(e.base, seen, missed);
      assert seen + missed == e.increments;
    } else {
      SnapshotAnswer(s, e, instrument, Following(BookAt(e, last)));
    }
  }

  /** A client whose `last` the history does not reach is sent a snapshot, and converges whatever it held. */
  lemma UnretainedConverges(s: BookState, e: Epoch, instrument: Instrument, last: int, view: View)
    requires Represents(s, e) && !Retained(s, last)
    ensures ReceiveAll(view, Resync(s, instrument, last)) == Following(s.book)
  {
    ReplayIffRetained(s, e, instrument, last);
    SnapshotAnswer(s, e, instrument, view);
  }

  /**
    Any other client with a retained `last`, such as one that missed the last snapshot,
    is sent a replay and believes it follows; a price is right exactly if the replay
    writes it or it was right at `last` already.
   */
  lemma ReplayDecidesEachPrice(s: BookState, e: Epoch, instrument: Instrument, held: Book, price: string)
    requires Represents(s, e) && Retained(s, held.sequence) && UniqueBook(held)
    ensures Within(e, held.sequence)
    ensures var missed := e.increments[held.sequence - e.base.sequence..];
            var reached := ApplyAll(held, missed);
            && ReceiveAll(Following(held), Resync(s, instrument, held.sequence)) == Following(reached)
            && reached.sequence == s.book.sequence
            && (SameBid(reached, s.book, price) <==> TouchesBid(missed, price) || SameBid(held, BookAt(e, held.sequence), price))
            && (SameAsk(reached, s.book, price) <==> TouchesAsk(missed, price) || SameAsk(held, BookAt(e, held.sequence), price))
  {
    hide Resync, Quantity, Touches, Unique, ReceiveAll, Updates, ApplyAll, LastOf, TouchesBid, TouchesAsk;
    ReplayIffRetained(s, e, instrument, held.sequence);
    HistoryIsConsecutive(s, e);
    var k := held.sequence - e.base.sequence;
    var seen, missed := e.increments[..k], e.increments[k..];
    FollowingAppliesAll(held, missed);
    SequenceAfter(held, missed);
    ApplyAllKeepsUnique(e.base, seen);
    ApplyAllAppends(e.base, seen, missed);
    assert seen + missed == e.increments;
    IncrementsDecideThePrice(held, BookAt(e, held.sequence), missed, price);
  }

  /** A snapshot republished at the sequence a client already has leaves that client wrong, and unaware. */
  lemma StaleAcrossASnapshot()
    ensures var held := Book(7, [Level("100", "1")], []);
            var s := BookState(FromSnapshot(Snapshot("BTC-USD", 7, [Level("200", "5")], [])), []);
            && Resync(s, "BTC-USD", 7) == []
            && ReceiveAll(Following(held), Resync(s, "BTC-USD", 7)) == Following(held)
            && !SameBid(held, s.book, "100")
  {
    var bids := [Level("200", "5")];
    assert bids[..0] == [];
    var held := Book(7, [Level("100", "1")], []);
    var s := BookState(FromSnapshot(Snapshot("BTC-USD", 7, bids, [])), []);
    assert s.book.bids == bids;
    assert Quantity(bids[1..], "100") == None;
    assert Resync(s, "BTC-USD", 7) == [];
  }
}
