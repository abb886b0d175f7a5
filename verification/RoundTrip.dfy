/** What a cancellation undoes, and when a call leaves the book as it was. */
module RoundTrip {
  import opened Types
  import opened FlatBook
  import opened FlatLemmas
  import opened Matching

  lemma {:induction false} WithoutInserted(s: seq<Order>, o: Order)
    requires !HasId(s, o.orderId)
    ensures Without(Insert(s, o), o.orderId) == s
  {
    WithoutAbsent(s, o.orderId);
    if s != [] && !Better(o.side, o.price, s[0].price) {
      assert s[0].orderId != o.orderId;
      assert forall i :: 0 <= i < |s| - 1 ==> s[1..][i] == s[i + 1];
      WithoutInserted(s[1..], o);
    }
  }

  /** The book after matching alone, before anything of the incoming order rests. */
  function MatchedBook(b: Book, o: Order, tradeId: nat, timestamp: nat): Book {
    b.With(o.side.Opposite(), Match(o, b.On(o.side.Opposite()), tradeId, timestamp).makers)
  }

  /** Placing a fresh order and cancelling it leaves exactly what matching alone left, whether
      or not anything rested. */
  lemma PlaceThenCancel(b: Book, o: Order, tradeId: nat, timestamp: nat)
    requires !Rests(b, o.orderId)
    ensures CancelBook(Place(b, o, tradeId, timestamp).book, o.orderId) == MatchedBook(b, o, tradeId, timestamp)
  {
    var opposite := o.side.Opposite();
    var m := Match(o, b.On(opposite), tradeId, timestamp);
    MatchTaker(o, b.On(opposite), tradeId, timestamp);
    MakersSuffix(o, b.On(opposite), tradeId, timestamp);
    assert !HasId(m.makers, o.orderId);
    WithoutAbsent(m.makers, o.orderId);
    WithoutAbsent(b.On(o.side), o.orderId);
    WithoutInserted(b.On(o.side), m.taker);
  }

  /** An order that crosses nothing: place then cancel restores the book. */
  lemma PlaceThenCancelRestores(b: Book, o: Order, tradeId: nat, timestamp: nat)
    requires !Rests(b, o.orderId) && !CanTrade(o, b.On(o.side.Opposite()))
    ensures CancelBook(Place(b, o, tradeId, timestamp).book, o.orderId) == b
  {
    PlaceThenCancel(b, o, tradeId, timestamp);
  }

  /** A call that trades leaves the opposite side changed. */
  lemma TradingChanges(side: Side, o: Order, s: seq<Order>, tradeId: nat, timestamp: nat)
    requires Live(side, s) && CanTrade(o, s)
    ensures Match(o, s, tradeId, timestamp).makers != s
  {
    var r := Match(o, s, tradeId, timestamp);
    MatchShape(o, s, tradeId, timestamp);
    assert r.trades != [];
    if |r.makers| == |s| {
      assert r.makers[0] == Fill(s[0], r.trades[0].quantity);
    }
  }

  /** `ORDER_BOOK_CHANGED` ends every placement, but two kinds of placement change nothing, and only
      those: an order with nothing left to fill, and a MARKET order that meets an empty opposite side. */
  lemma BookChangesIff(b: Book, o: Order, tradeId: nat, timestamp: nat)
    requires BookInv(b) && !Rests(b, o.orderId)
    ensures Place(b, o, tradeId, timestamp).book == b <==>
            o.remainingQuantity == 0 || (o.orderType.MARKET? && b.On(o.side.Opposite()) == [])
  {
    var opposite := o.side.Opposite();
    var s := b.On(opposite);
    var m := Match(o, s, tradeId, timestamp);
    var book := Place(b, o, tradeId, timestamp).book;
    assert book.On(opposite) == m.makers && book.On(o.side) == Rest(b.On(o.side), m.taker);
    if CanTrade(o, s) {
      TradingChanges(opposite, o, s, tradeId, timestamp);
    } else {
      assert m.taker == o;
    }
  }

  /** Concrete placements of both kinds: the event is emitted and the book is unchanged. */
  lemma BookChangedWithoutChange()
    ensures var o := Order(1, BUY, MARKET, 0.0, 10, 10, 0);
      var p := Place(EMPTY, o, 1, 1);
      OrderBookChanged in p.events && p.book == EMPTY
    ensures var b := Book([], [Order(1, SELL, LIMIT, 100.0, 10, 10, 0)]);
      var p := Place(b, Order(2, BUY, LIMIT, 100.0, 5, 0, 0), 1, 1);
      BookInv(b) && OrderBookChanged in p.events && p.book == b
  {
    var p := Place(EMPTY, Order(1, BUY, MARKET, 0.0, 10, 10, 0), 1, 1);
    assert p.events[|p.events| - 1] == OrderBookChanged;
    var b := Book([], [Order(1, SELL, LIMIT, 100.0, 10, 10, 0)]);
    var q := Place(b, Order(2, BUY, LIMIT, 100.0, 5, 0, 0), 1, 1);
    assert q.events[|q.events| - 1] == OrderBookChanged;
  }
}
