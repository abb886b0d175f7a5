/** The order book as two flat priority lists, best order first, and matching as a
    recursion over such a list. This is the simple form the engine is proved to refine. */
module FlatBook {
  import opened Types

  datatype Book = Book(bids: seq<Order>, asks: seq<Order>) {
    function On(side: Side): seq<Order> {
      if side.BUY? then bids else asks
    }

    function With(side: Side, s: seq<Order>): Book {
      if side.BUY? then Book(s, asks) else Book(bids, s)
    }
  }

  const EMPTY := Book([], [])

  /** `p` has strictly higher priority than `q` among resting orders of this side. */
  predicate Better(side: Side, p: Price, q: Price) {
    if side.BUY? then p > q else p < q
  }

  /** A resting order at price `p` is acceptable to the incoming order. */
  predicate Crosses(order: Order, p: Price) {
    order.orderType.MARKET? || (if order.side.BUY? then p <= order.price else p >= order.price)
  }

  /** The place behind every order of equal or better price. */
  function Insert(s: seq<Order>, order: Order): (r: seq<Order>)
    ensures |r| == |s| + 1
  {
    if s == [] then [order]
    else if Better(order.side, order.price, s[0].price) then [order] + s
    else [s[0]] + Insert(s[1..], order)
  }

  function Without(s: seq<Order>, id: nat): (r: seq<Order>)
    ensures |r| <= |s|
  {
    if s == [] then []
    else if s[0].orderId == id then Without(s[1..], id)
    else [s[0]] + Without(s[1..], id)
  }

  predicate HasId(s: seq<Order>, id: nat) {
    exists i :: 0 <= i < |s| && s[i].orderId == id
  }

  predicate Rests(b: Book, id: nat) {
    HasId(b.bids, id) || HasId(b.asks, id)
  }

  function Fill(order: Order, quantity: nat): Order
    requires quantity <= order.remainingQuantity
  {
    order.(remainingQuantity := order.remainingQuantity - quantity)
  }

  /** The trade between an incoming and a resting order, at the resting order's price. */
  function MakeTrade(taker: Order, maker: Order, quantity: nat, tradeId: nat, timestamp: nat): Trade {
    if taker.side.BUY?
    then Trade(tradeId, taker.orderId, maker.orderId, maker.price, quantity, timestamp)
    else Trade(tradeId, maker.orderId, taker.orderId, maker.price, quantity, timestamp)
  }

  datatype Matched = Matched(taker: Order, makers: seq<Order>, trades: seq<Trade>, events: seq<Event>)

  /** A trade is made: something is left to fill and the best opposite order is acceptable. */
  predicate CanTrade(taker: Order, s: seq<Order>) {
    taker.remainingQuantity > 0 && s != [] && Crosses(taker, s[0].price)
  }

  /** One trade with the best order of the opposite side, which is consumed or left reduced. */
  function TradeOnce(taker: Order, s: seq<Order>, tradeId: nat, timestamp: nat): Matched
    requires s != []
  {
    var q := Min(taker.remainingQuantity, s[0].remainingQuantity);
    var t := MakeTrade(taker, s[0], q, tradeId, timestamp);
    if q == s[0].remainingQuantity then
      Matched(Fill(taker, q), s[1..], [t], [TradeExecuted(t), OrderCompletelyFilled(s[0].orderId)])
    else
      Matched(Fill(taker, q), [Fill(s[0], q)] + s[1..], [t],
              [TradeExecuted(t), OrderPartiallyFilled(s[0].orderId)])
  }

  /** Consumes the acceptable prefix of the opposite side, best order first. */
  function Match(taker: Order, s: seq<Order>, tradeId: nat, timestamp: nat): Matched
    decreases |s|, taker.remainingQuantity
  {
    if !CanTrade(taker, s) then
      Matched(taker, s, [], [])
    else
      var first := TradeOnce(taker, s, tradeId, timestamp);
      var rest := Match(first.taker, first.makers, tradeId + 1, timestamp + 1);
      Matched(rest.taker, rest.makers, first.trades + rest.trades, first.events + rest.events)
  }

  /** The event that reports the incoming order's own fill, if it was filled at all. */
  function OwnEvents(taker: Order): seq<Event> {
    if taker.remainingQuantity == 0 then [OrderCompletelyFilled(taker.orderId)]
    else if taker.remainingQuantity < taker.quantity then [OrderPartiallyFilled(taker.orderId)]
    else []
  }

  /** The unfilled part of a LIMIT order rests; that of a MARKET order is discarded. */
  function Rest(s: seq<Order>, taker: Order): seq<Order> {
    if taker.remainingQuantity > 0 && taker.orderType.LIMIT? then Insert(s, taker) else s
  }

  datatype Placed = Placed(book: Book, taker: Order, trades: seq<Trade>, events: seq<Event>)

  function Place(b: Book, order: Order, tradeId: nat, timestamp: nat): Placed {
    var opposite := order.side.Opposite();
    var m := Match(order, b.On(opposite), tradeId, timestamp);
    Placed(
      b.With(opposite, m.makers).With(order.side, Rest(b.On(order.side), m.taker)),
      m.taker,
      m.trades,
      [OrderAccepted(order.orderId)] + m.events + OwnEvents(m.taker) + [OrderBookChanged])
  }

  function CancelBook(b: Book, id: nat): Book {
    Book(Without(b.bids, id), Without(b.asks, id))
  }

  function CancelEvents(b: Book, id: nat): seq<Event> {
    if Rests(b, id) then [OrderCancelled(id), OrderBookChanged] else []
  }

  // ---------- what every book the engine can reach satisfies ----------

  ghost predicate Sorted(side: Side, s: seq<Order>) {
    forall i, j :: 0 <= i < j < |s| ==> !Better(side, s[j].price, s[i].price)
  }

  ghost predicate Live(side: Side, s: seq<Order>) {
    forall i :: 0 <= i < |s| ==>
      s[i].side == side && s[i].orderType.LIMIT? && 0 < s[i].remainingQuantity <= s[i].quantity
  }

  ghost predicate DistinctIds(s: seq<Order>) {
    forall i, j :: 0 <= i < j < |s| ==> s[i].orderId != s[j].orderId
  }

  ghost predicate DisjointIds(s: seq<Order>, t: seq<Order>) {
    forall i, j :: 0 <= i < |s| && 0 <= j < |t| ==> s[i].orderId != t[j].orderId
  }

  ghost predicate SideInv(side: Side, s: seq<Order>) {
    Sorted(side, s) && Live(side, s) && DistinctIds(s)
  }

  ghost predicate Uncrossed(b: Book) {
    forall i, j :: 0 <= i < |b.bids| && 0 <= j < |b.asks| ==> b.bids[i].price < b.asks[j].price
  }

  ghost predicate BookInv(b: Book) {
    SideInv(BUY, b.bids) && SideInv(SELL, b.asks) && DisjointIds(b.bids, b.asks) && Uncrossed(b)
  }
}
