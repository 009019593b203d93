/**
  Order books as snapshot and increments carry them
  (apps/backend/src/modules/market-data/domain/market-data.ts:11-39, 132-165, 272-277),
  and the client rules stated there at lines 15-17 and 29-30.
 */
module OrderBooks {
  type Instrument = string

  datatype Option<+T> = None | Some(value: T)

  datatype Level = Level(price: string, quantity: string)

  /**
    One side of a book: a JavaScript Map from price to quantity, in insertion order.
    Writing a present price keeps its place, a new price goes to the end.
   */
  type Side = seq<Level>

  datatype Book = Book(sequence: int, bids: Side, asks: Side)

  datatype Snapshot = Snapshot(instrument: Instrument, sequence: int, bids: seq<Level>, asks: seq<Level>)

  datatype Increment = Increment(instrument: Instrument, sequence: int, bids: seq<Level>, asks: seq<Level>)

  function Quantity(side: Side, price: string): Option<string> {
    if side == [] then None
    else if side[0].price == price then Some(side[0].quantity)
    else Quantity(side[1..], price)
  }

  /** Map.set */
  function SetLevel(side: Side, level: Level): Side {
    if side == [] then [level]
    else if side[0].price == level.price then [level] + side[1..]
    else [side[0]] + SetLevel(side[1..], level)
  }

  /** Map.delete */
  function DeleteLevel(side: Side, price: string): Side {
    if side == [] then []
    else if side[0].price == price then side[1..]
    else [side[0]] + DeleteLevel(side[1..], price)
  }

  /** A Map holds a key at most once. */
  predicate Unique(side: Side) {
    side != [] ==> Quantity(side[1..], side[0].price) == None && Unique(side[1..])
  }

  function ApplyLevel(side: Side, level: Level): Side {
    if level.quantity == "0" then DeleteLevel(side, level.price) else SetLevel(side, level)
  }

  function ApplyLevels(side: Side, levels: seq<Level>): Side {
    if levels == [] then side
    else ApplyLevel(ApplyLevels(side, levels[..|levels| - 1]), levels[|levels| - 1])
  }

  /** `new Map(pairs)`: a level of quantity "0" in a snapshot is kept, unlike in an increment. */
  function FromLevels(levels: seq<Level>): Side {
    if levels == [] then []
    else SetLevel(FromLevels(levels[..|levels| - 1]), levels[|levels| - 1])
  }

  function FromSnapshot(s: Snapshot): Book {
    Book(s.sequence, FromLevels(s.bids), FromLevels(s.asks))
  }

  function SnapshotOf(instrument: Instrument, book: Book): Snapshot {
    Snapshot(instrument, book.sequence, book.bids, book.asks)
  }

  function ApplyIncrement(book: Book, inc: Increment): Book {
    Book(inc.sequence, ApplyLevels(book.bids, inc.bids), ApplyLevels(book.asks, inc.asks))
  }

  function ApplyAll(book: Book, incs: seq<Increment>): Book {
    if incs == [] then book
    else ApplyIncrement(ApplyAll(book, incs[..|incs| - 1]), incs[|incs| - 1])
  }

  predicate UniqueBook(book: Book) {
    Unique(book.bids) && Unique(book.asks)
  }

  predicate Consecutive(from: int, incs: seq<Increment>) {
    forall i :: 0 <= i < |incs| ==> incs[i].sequence == from + 1 + i
  }

  // ---- Clients ----

  datatype Message =
    | BookSnapshot(snapshot: Snapshot)
    | BookUpdate(update: Increment)
    | Tick(channel: string, instrument: Instrument, sequence: int, price: string, quantity: string)
    | UserEvent(userId: string, sequence: int, kind: string, payload: map<string, string>)

  /** What a client knows: nothing yet, a book, or that it missed something and must resync. */
  datatype View = Unknown | Following(book: Book) | Gap

  function Receive(view: View, message: Message): View {
    match message
    case BookSnapshot(snapshot) => Following(FromSnapshot(snapshot))
    case BookUpdate(update) =>
      if view.Following? && update.sequence == view.book.sequence + 1 then Following(ApplyIncrement(view.book, update))
      else Gap
    case _ => view
  }

  function ReceiveAll(view: View, messages: seq<Message>): View {
    if messages == [] then view
    else Receive(ReceiveAll(view, messages[..|messages| - 1]), messages[|messages| - 1])
  }

  function Updates(incs: seq<Increment>): seq<Message> {
    seq(|incs|, i requires 0 <= i < |incs| => BookUpdate(incs[i]))
  }

  // ---- One price at a time ----

  lemma {:induction false} QuantityAfterSet(side: Side, level: Level, price: string)
    ensures Quantity(SetLevel(side, level), price)
            == if price == level.price then Some(level.quantity) else Quantity(side, price)
  {
    if side != [] && side[0].price != level.price {
      QuantityAfterSet(side[1..], level, price);
      assert SetLevel(side, level)[1..] == SetLevel(side[1..], level);
    } else if side != [] {
      assert SetLevel(side, level)[1..] == side[1..];
    }
  }

  lemma {:induction false} QuantityAfterDelete(side: Side, gone: string, price: string)
    requires Unique(side)
    ensures Quantity(DeleteLevel(side, gone), price) == if price == gone then None else Quantity(side, price)
  {
    if side != [] && side[0].price != gone {
      QuantityAfterDelete(side[1..], gone, price);
      assert DeleteLevel(side, gone)[1..] == DeleteLevel(side[1..], gone);
    }
  }

  lemma {:induction false} SetKeepsUnique(side: Side, level: Level)
    requires Unique(side)
    ensures Unique(SetLevel(side, level))
  {
    if side != [] && side[0].price != level.price {
      SetKeepsUnique(side[1..], level);
      QuantityAfterSet(side[1..], level, side[0].price);
      assert SetLevel(side, level)[1..] == SetLevel(side[1..], level);
    } else if side != [] {
      assert SetLevel(side, level)[1..] == side[1..];
    }
  }

  lemma {:induction false} DeleteKeepsUnique(side: Side, price: string)
    requires Unique(side)
    ensures Unique(DeleteLevel(side, price))
  {
    if side != [] && side[0].price != price {
      DeleteKeepsUnique(side[1..], price);
      QuantityAfterDelete(side[1..], price, side[0].price);
      assert DeleteLevel(side, price)[1..] == DeleteLevel(side[1..], price);
    }
  }

  lemma QuantityAfterLevel(side: Side, level: Level, price: string)
    requires Unique(side)
    ensures Unique(ApplyLevel(side, level))
    ensures Quantity(ApplyLevel(side, level), price)
            == if price != level.price then Quantity(side, price)
               else if level.quantity == "0" then None else Some(level.quantity)
  {
    QuantityAfterSet(side, level, price);
    QuantityAfterDelete(side, level.price, price);
    SetKeepsUnique(side, level);
    DeleteKeepsUnique(side, level.price);
  }

  lemma {:induction false} ApplyKeepsUnique(side: Side, levels: seq<Level>)
    requires Unique(side)
    ensures Unique(ApplyLevels(side, levels))
  {
    if levels != [] {
      ApplyKeepsUnique(side, levels[..|levels| - 1]);
      QuantityAfterLevel(ApplyLevels(side, levels[..|levels| - 1]), levels[|levels| - 1], "");
    }
  }

  lemma {:induction false} FromLevelsIsUnique(levels: seq<Level>)
    ensures Unique(FromLevels(levels))
  {
    if levels != [] {
      FromLevelsIsUnique(levels[..|levels| - 1]);
      SetKeepsUnique(FromLevels(levels[..|levels| - 1]), levels[|levels| - 1]);
    }
  }

  predicate Touches(levels: seq<Level>, price: string) {
    exists i :: 0 <= i < |levels| && levels[i].price == price
  }

  /** Two sides given the same levels agree on a price exactly if it was written or they agreed before. */
  lemma {:induction false} LevelsDecideThePrice(a: Side, b: Side, levels: seq<Level>, price: string)
    requires Unique(a) && Unique(b)
    ensures Quantity(ApplyLevels(a, levels), price) == Quantity(ApplyLevels(b, levels), price)
            <==> Touches(levels, price) || Quantity(a, price) == Quantity(b, price)
  {
    if levels != [] {
      var init, last := levels[..|levels| - 1], levels[|levels| - 1];
      LevelsDecideThePrice(a, b, init, price);
      ApplyKeepsUnique(a, init);
      ApplyKeepsUnique(b, init);
      QuantityAfterLevel(ApplyLevels(a, init), last, price);
      QuantityAfterLevel(ApplyLevels(b, init), last, price);
      TouchesLast(levels, price);
    }
  }

  lemma TouchesLast(levels: seq<Level>, price: string)
    requires levels != []
    ensures Touches(levels, price) <==> Touches(levels[..|levels| - 1], price) || levels[|levels| - 1].price == price
  {
    if Touches(levels[..|levels| - 1], price) {
      var i :| 0 <= i < |levels| - 1 && levels[..|levels| - 1][i].price == price;
      assert levels[i].price == price;
    }
  }

  /** The last level with the price stands at place i. */
  ghost predicate LastAt(levels: seq<Level>, price: string, i: nat) {
    i < |levels| && levels[i].price == price && forall j :: i < j < |levels| ==> levels[j].price != price
  }

  /**
    What a list of levels makes of a side: a price no level has is untouched; otherwise
    the last level with it decides, removing it with the quantity "0" and giving it its
    quantity with any other.
   */
  ghost predicate DecidedBy(before: Side, levels: seq<Level>, after: Side) {
    && (forall price :: !Touches(levels, price) ==> Quantity(after, price) == Quantity(before, price))
    && (forall i: nat :: i < |levels| && LastAt(levels, levels[i].price, i) ==>
          Quantity(after, levels[i].price) == if levels[i].quantity == "0" then None else Some(levels[i].quantity))
  }

  /** A side made of a snapshot's levels alone: the last level of each price, "0" included. */
  ghost predicate ListedBy(levels: seq<Level>, side: Side) {
    && (forall price :: !Touches(levels, price) ==> Quantity(side, price) == None)
    && (forall i: nat :: i < |levels| && LastAt(levels, levels[i].price, i) ==>
          Quantity(side, levels[i].price) == Some(levels[i].quantity))
  }

  lemma LevelsDecide(side: Side, levels: seq<Level>)
    requires Unique(side)
    ensures DecidedBy(side, levels, ApplyLevels(side, levels))
  {
    forall price
      ensures !Touches(levels, price) ==> Quantity(ApplyLevels(side, levels), price) == Quantity(side, price)
    {
      LastLevelDecides(side, levels, price);
    }
    forall i: nat | i < |levels| && LastAt(levels, levels[i].price, i)
      ensures Quantity(ApplyLevels(side, levels), levels[i].price)
              == if levels[i].quantity == "0" then None else Some(levels[i].quantity)
    {
      LastLevelDecides(side, levels, levels[i].price);
    }
  }

  /** Both sides of the book a snapshot stands for, and its sequence. */
  lemma SnapshotIsListed(s: Snapshot)
    ensures var book := FromSnapshot(s);
            book.sequence == s.sequence && ListedBy(s.bids, book.bids) && ListedBy(s.asks, book.asks)
  {
    LevelsAreListed(s.bids);
    LevelsAreListed(s.asks);
  }

  lemma LevelsAreListed(levels: seq<Level>)
    ensures ListedBy(levels, FromLevels(levels))
  {
    forall price
      ensures !Touches(levels, price) ==> Quantity(FromLevels(levels), price) == None
    {
      SnapshotLevelsDecide(levels, price);
    }
    forall i: nat | i < |levels| && LastAt(levels, levels[i].price, i)
      ensures Quantity(FromLevels(levels), levels[i].price) == Some(levels[i].quantity)
    {
      SnapshotLevelsDecide(levels, levels[i].price);
    }
  }

  /** Every price is decided: by no level, or by one last level. */
  lemma {:induction false} TouchedHasALast(levels: seq<Level>, price: string)
    ensures Touches(levels, price) <==> exists i: nat :: LastAt(levels, price, i)
  {
    if levels != [] {
      var n := |levels| - 1;
      TouchedHasALast(levels[..n], price);
      TouchesLast(levels, price);
      if levels[n].price == price {
        assert LastAt(levels, price, n);
      } else {
        forall i: nat
          ensures LastAt(levels, price, i) <==> LastAt(levels[..n], price, i)
        {
          assert i < n ==> levels[..n][i] == levels[i];
        }
      }
    }
  }

  lemma {:induction false} LastLevelDecides(side: Side, levels: seq<Level>, price: string)
    requires Unique(side)
    ensures !Touches(levels, price) ==> Quantity(ApplyLevels(side, levels), price) == Quantity(side, price)
    ensures forall i: nat :: LastAt(levels, price, i) ==>
              Quantity(ApplyLevels(side, levels), price)
              == if levels[i].quantity == "0" then None else Some(levels[i].quantity)
  {
    if levels != [] {
      var n := |levels| - 1;
      LastLevelDecides(side, levels[..n], price);
      ApplyKeepsUnique(side, levels[..n]);
      QuantityAfterLevel(ApplyLevels(side, levels[..n]), levels[n], price);
      TouchesLast(levels, price);
      LastAtEarlier(levels, price);
    }
  }

  lemma LastAtEarlier(levels: seq<Level>, price: string)
    requires levels != []
    ensures forall i: nat :: i < |levels| - 1 && LastAt(levels, price, i) ==> LastAt(levels[..|levels| - 1], price, i)
  {
    forall i: nat | i < |levels| - 1 && LastAt(levels, price, i)
      ensures LastAt(levels[..|levels| - 1], price, i)
    {
      assert forall j :: i <= j < |levels| - 1 ==> levels[..|levels| - 1][j] == levels[j];
    }
  }

  /** A snapshot gives each price the quantity of its last level, "0" included, and no other price. */
  lemma {:induction false} SnapshotLevelsDecide(levels: seq<Level>, price: string)
    ensures !Touches(levels, price) ==> Quantity(FromLevels(levels), price) == None
    ensures forall i: nat :: LastAt(levels, price, i) ==> Quantity(FromLevels(levels), price) == Some(levels[i].quantity)
  {
    if levels != [] {
      var n := |levels| - 1;
      SnapshotLevelsDecide(levels[..n], price);
      QuantityAfterSet(FromLevels(levels[..n]), levels[n], price);
      TouchesLast(levels, price);
      LastAtEarlier(levels, price);
    }
  }

  // ---- The order of the levels ----

  function Prices(side: Side): seq<string> {
    seq(|side|, i requires 0 <= i < |side| => side[i].price)
  }

  lemma {:induction false} SetKeepsPlaces(side: Side, level: Level)
    ensures Prices(SetLevel(side, level))
            == if Quantity(side, level.price).Some? then Prices(side) else Prices(side) + [level.price]
  {
    if side != [] && side[0].price != level.price {
      SetKeepsPlaces(side[1..], level);
      assert Prices(side) == [side[0].price] + Prices(side[1..]);
      assert Prices(SetLevel(side, level)) == [side[0].price] + Prices(SetLevel(side[1..], level));
    }
  }

  lemma {:induction false} DeleteOfAbsent(side: Side, price: string)
    requires Quantity(side, price).None?
    ensures DeleteLevel(side, price) == side
  {
    if side != [] {
      DeleteOfAbsent(side[1..], price);
      assert side == [side[0]] + side[1..];
    }
  }

  lemma {:induction false} DeleteClosesUp(side: Side, i: nat)
    requires Unique(side) && i < |side|
    ensures DeleteLevel(side, side[i].price) == side[..i] + side[i + 1..]
  {
    if i > 0 {
      DeleteClosesUp(side[1..], i - 1);
      QuantityMeansListed(side[1..], side[0].price);
      assert Prices(side[1..])[i - 1] == side[i].price;
      assert side[..i] + side[i + 1..] == [side[0]] + (side[1..][..i - 1] + side[1..][i..]);
    }
  }

  /**
    A level written on a price keeps its place, one written on a new price goes to the
    end, and a deleted one leaves the others in their order.
   */
  lemma PlacesAfterLevel(side: Side, level: Level)
    requires Unique(side)
    ensures var after := ApplyLevel(side, level);
            && (level.quantity != "0" ==>
                  Prices(after) == if level.price in Prices(side) then Prices(side) else Prices(side) + [level.price])
            && (level.quantity == "0" && level.price !in Prices(side) ==> after == side)
            && (forall i :: 0 <= i < |side| && level.quantity == "0" && side[i].price == level.price ==>
                  after == side[..i] + side[i + 1..])
  {
    SetKeepsPlaces(side, level);
    QuantityMeansListed(side, level.price);
    if level.price !in Prices(side) {
      DeleteOfAbsent(side, level.price);
    }
    forall i | 0 <= i < |side| && side[i].price == level.price
      ensures DeleteLevel(side, level.price) == side[..i] + side[i + 1..]
    {
      DeleteClosesUp(side, i);
    }
  }

  lemma {:induction false} QuantityMeansListed(side: Side, price: string)
    ensures Quantity(side, price).Some? <==> price in Prices(side)
  {
    if side != [] {
      QuantityMeansListed(side[1..], price);
      assert Prices(side) == [side[0].price] + Prices(side[1..]);
    }
  }

  // ---- A snapshot carries a book whole ----

  lemma {:induction false} SetAbsentAppends(side: Side, level: Level)
    requires Quantity(side, level.price) == None
    ensures SetLevel(side, level) == side + [level]
  {
    if side != [] {
      SetAbsentAppends(side[1..], level);
      assert side == [side[0]] + side[1..];
    }
  }

  lemma {:induction false} UniqueByLast(side: Side)
    requires side != [] && Unique(side)
    ensures Unique(side[..|side| - 1]) && Quantity(side[..|side| - 1], side[|side| - 1].price) == None
    ensures forall p :: Quantity(side, p) == None ==> Quantity(side[..|side| - 1], p) == None && side[|side| - 1].price != p
  {
    if |side| > 1 {
      UniqueByLast(side[1..]);
      assert side[1..][..|side| - 2] == side[..|side| - 1][1..];
    }
  }

  lemma {:induction false} FromLevelsOfSide(side: Side)
    requires Unique(side)
    ensures FromLevels(side) == side
  {
    if side != [] {
      UniqueByLast(side);
      FromLevelsOfSide(side[..|side| - 1]);
      SetAbsentAppends(side[..|side| - 1], side[|side| - 1]);
      assert side == side[..|side| - 1] + [side[|side| - 1]];
    }
  }

  /** Whoever receives a snapshot of a book, whatever it held before, holds that book, order included. */
  lemma SnapshotCarriesTheBook(view: View, instrument: Instrument, book: Book)
    requires UniqueBook(book)
    ensures Receive(view, BookSnapshot(SnapshotOf(instrument, book))) == Following(book)
    ensures SnapshotOf(instrument, book).instrument == instrument && SnapshotOf(instrument, book).sequence == book.sequence
  {
    FromLevelsOfSide(book.bids);
    FromLevelsOfSide(book.asks);
  }

  /** On either side of the book an increment decides each price by its last level with it. */
  lemma IncrementDecidesEachPrice(book: Book, inc: Increment)
    requires UniqueBook(book)
    ensures var after := ApplyIncrement(book, inc);
            && after.sequence == inc.sequence && UniqueBook(after)
            && DecidedBy(book.bids, inc.bids, after.bids) && DecidedBy(book.asks, inc.asks, after.asks)
  {
    LevelsDecide(book.bids, inc.bids);
    LevelsDecide(book.asks, inc.asks);
    ApplyKeepsUnique(book.bids, inc.bids);
    ApplyKeepsUnique(book.asks, inc.asks);
  }

  // ---- Lists of increments ----

  lemma {:induction false} ApplyAllAppends(book: Book, x: seq<Increment>, y: seq<Increment>)
    ensures ApplyAll(book, x + y) == ApplyAll(ApplyAll(book, x), y)
  {
    if y == [] {
      assert x + y == x;
    } else {
      ApplyAllAppends(book, x, y[..|y| - 1]);
      assert (x + y)[..|x + y| - 1] == x + y[..|y| - 1];
    }
  }

  lemma {:induction false} ApplyAllKeepsUnique(book: Book, incs: seq<Increment>)
    requires UniqueBook(book)
    ensures UniqueBook(ApplyAll(book, incs))
  {
    if incs != [] {
      var before := ApplyAll(book, incs[..|incs| - 1]);
      ApplyAllKeepsUnique(book, incs[..|incs| - 1]);
      ApplyKeepsUnique(before.bids, incs[|incs| - 1].bids);
      ApplyKeepsUnique(before.asks, incs[|incs| - 1].asks);
    }
  }

  lemma SequenceAfter(book: Book, incs: seq<Increment>)
    requires Consecutive(book.sequence, incs)
    ensures ApplyAll(book, incs).sequence == book.sequence + |incs|
  {
  }

  /** A client that is sent consecutive increments applies every one of them. */
  lemma {:induction false} FollowingAppliesAll(book: Book, incs: seq<Increment>)
    requires Consecutive(book.sequence, incs)
    ensures ReceiveAll(Following(book), Updates(incs)) == Following(ApplyAll(book, incs))
  {
    if incs != [] {
      var init := incs[..|incs| - 1];
      FollowingAppliesAll(book, init);
      SequenceAfter(book, init);
      assert Updates(incs)[..|incs| - 1] == Updates(init);
    }
  }

  predicate TouchesBid(incs: seq<Increment>, price: string) {
    exists i :: 0 <= i < |incs| && Touches(incs[i].bids, price)
  }

  predicate TouchesAsk(incs: seq<Increment>, price: string) {
    exists i :: 0 <= i < |incs| && Touches(incs[i].asks, price)
  }

  lemma TouchesBidLast(incs: seq<Increment>, price: string)
    requires incs != []
    ensures TouchesBid(incs, price) <==> TouchesBid(incs[..|incs| - 1], price) || Touches(incs[|incs| - 1].bids, price)
  {
    if TouchesBid(incs[..|incs| - 1], price) {
      var i :| 0 <= i < |incs| - 1 && Touches(incs[..|incs| - 1][i].bids, price);
      assert Touches(incs[i].bids, price);
    }
  }

  lemma TouchesAskLast(incs: seq<Increment>, price: string)
    requires incs != []
    ensures TouchesAsk(incs, price) <==> TouchesAsk(incs[..|incs| - 1], price) || Touches(incs[|incs| - 1].asks, price)
  {
    if TouchesAsk(incs[..|incs| - 1], price) {
      var i :| 0 <= i < |incs| - 1 && Touches(incs[..|incs| - 1][i].asks, price);
      assert Touches(incs[i].asks, price);
    }
  }

  predicate SameBid(a: Book, b: Book, price: string) {
    Quantity(a.bids, price) == Quantity(b.bids, price)
  }

  predicate SameAsk(a: Book, b: Book, price: string) {
    Quantity(a.asks, price) == Quantity(b.asks, price)
  }

  /** The same increments on two books make a price agree exactly if they touch it or it agreed already. */
  lemma {:induction false} IncrementsDecideThePrice(a: Book, b: Book, incs: seq<Increment>, price: string)
    requires UniqueBook(a) && UniqueBook(b)
    ensures SameBid(ApplyAll(a, incs), ApplyAll(b, incs), price) <==> TouchesBid(incs, price) || SameBid(a, b, price)
    ensures SameAsk(ApplyAll(a, incs), ApplyAll(b, incs), price) <==> TouchesAsk(incs, price) || SameAsk(a, b, price)
  {
    if incs != [] {
      var init, last := incs[..|incs| - 1], incs[|incs| - 1];
      var a', b' := ApplyAll(a, init), ApplyAll(b, init);
      IncrementsDecideThePrice(a, b, init, price);
      ApplyAllKeepsUnique(a, init);
      ApplyAllKeepsUnique(b, init);
      LevelsDecideThePrice(a'.bids, b'.bids, last.bids, price);
      LevelsDecideThePrice(a'.asks, b'.asks, last.asks, price);
      TouchesBidLast(incs, price);
      TouchesAskLast(incs, price);
    }
  }
}
