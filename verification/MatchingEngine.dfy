/** The matching engine: the order book plus the trade history and its counters. */
module MatchingEngines {
  import opened Types
  import opened FlatBook
  import opened Matching
  import opened RoundTrip
  import opened OrderBooks

  /** `whole` is what was done so far followed by `rest`. */
  ghost predicate Continues(whole: Matched, trades: seq<Trade>, events: seq<Event>, rest: Matched) {
    whole == Matched(rest.taker, rest.makers, trades + rest.trades, events + rest.events)
  }

  lemma ContinuesStart(whole: Matched)
    ensures Continues(whole, [], [], whole)
  {
    assert [] + whole.trades == whole.trades && [] + whole.events == whole.events;
  }

  lemma HistoryStep(history: seq<Trade>, trades: seq<Trade>, first: seq<Trade>)
    ensures (history + trades) + first == history + (trades + first)
  {
  }

  lemma ContinuesStep(whole: Matched, trades: seq<Trade>, events: seq<Event>,
                      taker: Order, s: seq<Order>, tradeId: nat, timestamp: nat)
    requires CanTrade(taker, s)
    requires Continues(whole, trades, events, Match(taker, s, tradeId, timestamp))
    ensures var first := TradeOnce(taker, s, tradeId, timestamp);
      Continues(whole, trades + first.trades, events + first.events,
                Match(first.taker, first.makers, tradeId + 1, timestamp + 1)) &&
      |first.trades| == 1 &&
      first.taker == taker.(remainingQuantity := first.taker.remainingQuantity) &&
      (|first.makers| < |s| ||
       (|first.makers| == |s| && first.taker.remainingQuantity < taker.remainingQuantity))
  {
    var first := TradeOnce(taker, s, tradeId, timestamp);
    var rest := Match(first.taker, first.makers, tradeId + 1, timestamp + 1);
    assert trades + (first.trades + rest.trades) == (trades + first.trades) + rest.trades;
    assert events + (first.events + rest.events) == (events + first.events) + rest.events;
  }

  lemma ContinuesEnd(whole: Matched, trades: seq<Trade>, events: seq<Event>,
                     taker: Order, s: seq<Order>, tradeId: nat, timestamp: nat)
    requires !CanTrade(taker, s)
    requires Continues(whole, trades, events, Match(taker, s, tradeId, timestamp))
    ensures whole == Matched(taker, s, trades, events)
  {
  }

  lemma NoTrade(order: Order, s: seq<Order>, tradeId: nat, timestamp: nat)
    requires !CanTrade(order, s)
    ensures Match(order, s, tradeId, timestamp) == Matched(order, s, [], [])
  {
  }

  class MatchingEngine {
    const orderBook: OrderBook
    var recentTrades: seq<Trade>
    var nextTradeId: nat
    var nextTimestamp: nat

    ghost predicate Valid()
      reads this, orderBook
    {
      orderBook.Valid()
    }

    constructor ()
      ensures Valid() && fresh(orderBook) && orderBook.Nodes() == {}
      ensures orderBook.Contents() == EMPTY && orderBook.orderLocations == map[]
      ensures recentTrades == [] && nextTradeId == nextTimestamp == 1
    {
      orderBook := new OrderBook();
      recentTrades, nextTradeId, nextTimestamp := [], 1, 1;
    }

    /** Reduces the best ask in place and takes it off the book once nothing of it is left. */
    method FillAsk(sellOrder: RestingOrder, quantity: nat) returns (filled: bool)
      requires Valid() && orderBook.AskNodes() != [] && sellOrder == orderBook.AskNodes()[0]
      requires quantity <= sellOrder.remainingQuantity
      modifies orderBook, sellOrder
      ensures Valid() && orderBook.Nodes() <= old(orderBook.Nodes())
      ensures orderBook.orderLocations.Keys <= old(orderBook.orderLocations.Keys)
      ensures filled <==> quantity == old(sellOrder.remainingQuantity)
      ensures var s := old(orderBook.Asks());
        orderBook.Asks() == if filled then s[1..] else [Fill(s[0], quantity)] + s[1..]
      ensures orderBook.Bids() == old(orderBook.Bids())
    {
      hide Flatten, Values;
      orderBook.BestAskApart();
      sellOrder.remainingQuantity := sellOrder.remainingQuantity - quantity;
      filled := sellOrder.remainingQuantity == 0;
      if filled {
        var _ := orderBook.RemoveBestAsk();
      }
      ValuesFrame(old(orderBook.BidNodes()));
      ValuesFrame(old(orderBook.AskNodes())[1..]);
    }

    /** One pass through the BUY branch of the matching loop, with the best ask. */
    method TradeWithAsk(order: Order, sellOrder: RestingOrder) returns (order': Order, events: seq<Event>)
      requires Valid() && order.side.BUY?
      requires orderBook.AskNodes() != [] && sellOrder == orderBook.AskNodes()[0]
      modifies this, orderBook, sellOrder
      ensures Valid() && orderBook.Nodes() <= old(orderBook.Nodes())
      ensures orderBook.orderLocations.Keys <= old(orderBook.orderLocations.Keys)
      ensures var first := TradeOnce(order, old(orderBook.Asks()), old(nextTradeId), old(nextTimestamp));
        order' == first.taker && orderBook.Asks() == first.makers && events == first.events &&
        recentTrades == old(recentTrades) + first.trades
      ensures orderBook.Bids() == old(orderBook.Bids())
      ensures nextTradeId == old(nextTradeId) + 1 && nextTimestamp == old(nextTimestamp) + 1
    {
      hide Flatten, Values, Consistent;
      var tradeQuantity := Min(order.remainingQuantity, sellOrder.remainingQuantity);
      var trade := Trade(nextTradeId, order.orderId, sellOrder.orderId, sellOrder.price,
                         tradeQuantity, nextTimestamp);
      order' := order.(remainingQuantity := order.remainingQuantity - tradeQuantity);
      var filled := FillAsk(sellOrder, tradeQuantity);
      label Filled:
      nextTradeId := nextTradeId + 1;
      nextTimestamp := nextTimestamp + 1;
      recentTrades := recentTrades + [trade];
      events := [TradeExecuted(trade)];
      if filled {
        events := events + [OrderCompletelyFilled(sellOrder.orderId)];
      } else {
        events := events + [OrderPartiallyFilled(sellOrder.orderId)];
      }
      orderBook.Untouched@Filled(orderBook.AllNodes());
    }

    /** Reduces the best bid in place and takes it off the book once nothing of it is left. */
    method FillBid(buyOrder: RestingOrder, quantity: nat) returns (filled: bool)
      requires Valid() && orderBook.BidNodes() != [] && buyOrder == orderBook.BidNodes()[0]
      requires quantity <= buyOrder.remainingQuantity
      modifies orderBook, buyOrder
      ensures Valid() && orderBook.Nodes() <= old(orderBook.Nodes())
      ensures orderBook.orderLocations.Keys <= old(orderBook.orderLocations.Keys)
      ensures filled <==> quantity == old(buyOrder.remainingQuantity)
      ensures var s := old(orderBook.Bids());
        orderBook.Bids() == if filled then s[1..] else [Fill(s[0], quantity)] + s[1..]
      ensures orderBook.Asks() == old(orderBook.Asks())
    {
      hide Flatten, Values;
      orderBook.BestBidApart();
      buyOrder.remainingQuantity := buyOrder.remainingQuantity - quantity;
      filled := buyOrder.remainingQuantity == 0;
      if filled {
        var _ := orderBook.RemoveBestBid();
      }
      ValuesFrame(old(orderBook.AskNodes()));
      ValuesFrame(old(orderBook.BidNodes())[1..]);
    }

    /** One pass through the SELL branch of the matching loop, with the best bid. */
    method TradeWithBid(order: Order, buyOrder: RestingOrder) returns (order': Order, events: seq<Event>)
      requires Valid() && order.side.SELL?
      requires orderBook.BidNodes() != [] && buyOrder == orderBook.BidNodes()[0]
      modifies this, orderBook, buyOrder
      ensures Valid() && orderBook.Nodes() <= old(orderBook.Nodes())
      ensures orderBook.orderLocations.Keys <= old(orderBook.orderLocations.Keys)
      ensures var first := TradeOnce(order, old(orderBook.Bids()), old(nextTradeId), old(nextTimestamp));
        order' == first.taker && orderBook.Bids() == first.makers && events == first.events &&
        recentTrades == old(recentTrades) + first.trades
      ensures orderBook.Asks() == old(orderBook.Asks())
      ensures nextTradeId == old(nextTradeId) + 1 && nextTimestamp == old(nextTimestamp) + 1
    {
      hide Flatten, Values, Consistent;
      var tradeQuantity := Min(order.remainingQuantity, buyOrder.remainingQuantity);
      var trade := Trade(nextTradeId, buyOrder.orderId, order.orderId, buyOrder.price,
                         tradeQuantity, nextTimestamp);
      order' := order.(remainingQuantity := order.remainingQuantity - tradeQuantity);
      var filled := FillBid(buyOrder, tradeQuantity);
      label Filled:
      nextTradeId := nextTradeId + 1;
      nextTimestamp := nextTimestamp + 1;
      recentTrades := recentTrades + [trade];
      events := [TradeExecuted(trade)];
      if filled {
        events := events + [OrderCompletelyFilled(buyOrder.orderId)];
      } else {
        events := events + [OrderPartiallyFilled(buyOrder.orderId)];
      }
      orderBook.Untouched@Filled(orderBook.AllNodes());
    }

    /** The side an incoming order trades against. */
    ghost function Opposing(side: Side): seq<Order>
      reads this, orderBook, orderBook.BidNodes(), orderBook.AskNodes()
    {
      if side.BUY? then orderBook.Asks() else orderBook.Bids()
    }

    /** The matching loop: trades while the incoming order has quantity left and the best
        opposite order is acceptable. */
    method MatchIncoming(incoming: Order) returns (order: Order, events: seq<Event>)
      requires Valid()
      modifies this, orderBook, orderBook.Nodes()
      ensures Valid() && orderBook.Nodes() <= old(orderBook.Nodes())
      ensures orderBook.orderLocations.Keys <= old(orderBook.orderLocations.Keys)
      ensures
        var m := Match(incoming, old(Opposing(incoming.side)), old(nextTradeId), old(nextTimestamp));
        m == Matched(order, Opposing(incoming.side), m.trades, events) &&
        order == incoming.(remainingQuantity := order.remainingQuantity) &&
        recentTrades == old(recentTrades) + m.trades &&
        nextTradeId == old(nextTradeId) + |m.trades| &&
        nextTimestamp == old(nextTimestamp) + |m.trades|
      ensures incoming.side.BUY? ==> orderBook.Bids() == old(orderBook.Bids())
      ensures incoming.side.SELL? ==> orderBook.Asks() == old(orderBook.Asks())
      ensures !CanTrade(incoming, old(Opposing(incoming.side))) ==> order == incoming && unchanged(orderBook)
    {
      hide Flatten, Values, Consistent, Match, TradeOnce, Continues;
      ContinuesStart(Match(incoming, Opposing(incoming.side), nextTradeId, nextTimestamp));
      order, events := incoming, [];
      ghost var m := Match(incoming, Opposing(incoming.side), nextTradeId, nextTimestamp);
      ghost var trades: seq<Trade> := [];
      while order.remainingQuantity > 0
        invariant Valid() && orderBook.Nodes() <= old(orderBook.Nodes())
        invariant orderBook.orderLocations.Keys <= old(orderBook.orderLocations.Keys)
        invariant order == incoming.(remainingQuantity := order.remainingQuantity)
        invariant order.side.BUY? ==> orderBook.Bids() == old(orderBook.Bids())
        invariant order.side.SELL? ==> orderBook.Asks() == old(orderBook.Asks())
        invariant recentTrades == old(recentTrades) + trades
        invariant nextTradeId == old(nextTradeId) + |trades|
        invariant nextTimestamp == old(nextTimestamp) + |trades|
        invariant trades == [] ==> unchanged(orderBook)
        invariant Continues(m, trades, events,
                            Match(order, Opposing(order.side), nextTradeId, nextTimestamp))
        decreases |Opposing(order.side)|, order.remainingQuantity
      {
        ghost var s := Opposing(order.side);
        ghost var first := if s == [] then m else TradeOnce(order, s, nextTradeId, nextTimestamp);
        if order.side.BUY? {
          var sellOrder := orderBook.BestAsk();
          if sellOrder == null { break; }
          if order.orderType.LIMIT? && order.price < sellOrder.price { break; }
          ContinuesStep(m, trades, events, order, s, nextTradeId, nextTimestamp);
          var step;
          order, step := TradeWithAsk(order, sellOrder);
          events := events + step;
        } else {
          var buyOrder := orderBook.BestBid();
          if buyOrder == null { break; }
          if order.orderType.LIMIT? && order.price > buyOrder.price { break; }
          ContinuesStep(m, trades, events, order, s, nextTradeId, nextTimestamp);
          var step;
          order, step := TradeWithBid(order, buyOrder);
          events := events + step;
        }
        HistoryStep(old(recentTrades), trades, first.trades);
        trades := trades + first.trades;
      }
      ContinuesEnd(m, trades, events, order, Opposing(order.side), nextTradeId, nextTimestamp);
      if !CanTrade(incoming, old(Opposing(incoming.side))) {
        NoTrade(incoming, old(Opposing(incoming.side)), old(nextTradeId), old(nextTimestamp));
      }
    }

    /** Acknowledge, match, report the order's own fill, and rest what is left of a LIMIT order. */
    method PlaceOrder(incoming: Order) returns (events: seq<Event>)
      requires Valid() && incoming.orderId !in orderBook.orderLocations
      modifies this, orderBook, orderBook.Nodes()
      ensures Valid() && fresh(orderBook.Nodes() - old(orderBook.Nodes()))
      ensures var p := Place(old(orderBook.Contents()), incoming, old(nextTradeId), old(nextTimestamp));
        orderBook.Contents() == p.book && events == p.events &&
        recentTrades == old(recentTrades) + p.trades &&
        nextTradeId == old(nextTradeId) + |p.trades| &&
        nextTimestamp == old(nextTimestamp) + |p.trades|
      ensures !CanTrade(incoming, old(Opposing(incoming.side))) ==>
        var buys, sells := old(orderBook.BidNodes()), old(orderBook.AskNodes());
        if incoming.remainingQuantity > 0 && incoming.orderType.LIMIT?
        then orderBook.Rested(incoming, buys, sells, old(orderBook.orderLocations))
        else unchanged(orderBook)
      ensures AcceptsOnce(events, incoming.orderId)
    {
      hide Flatten, Values, Consistent, Match, Rest, CanTrade, AcceptsOnce, OrderBook.Rested;
      events := [OrderAccepted(incoming.orderId)];
      var order, matched := MatchIncoming(incoming);
      events := events + matched;
      if order.remainingQuantity == 0 {
        events := events + [OrderCompletelyFilled(order.orderId)];
      } else if order.remainingQuantity < order.quantity {
        events := events + [OrderPartiallyFilled(order.orderId)];
      }
      PlaceAcceptsOnce(old(orderBook.Contents()), incoming, old(nextTradeId), old(nextTimestamp));
      RestResidual(order);
      events := events + [OrderBookChanged];
    }

    /** What is left of a LIMIT order comes to rest. */
    method RestResidual(order: Order)
      requires Valid() && order.orderId !in orderBook.orderLocations
      modifies orderBook
      ensures Valid() && fresh(orderBook.Nodes() - old(orderBook.Nodes()))
      ensures var b := old(orderBook.Contents());
        orderBook.Contents() == b.With(order.side, Rest(b.On(order.side), order))
      ensures var buys, sells := old(orderBook.BidNodes()), old(orderBook.AskNodes());
        if order.remainingQuantity > 0 && order.orderType.LIMIT?
        then orderBook.Rested(order, buys, sells, old(orderBook.orderLocations))
        else unchanged(orderBook)
    {
      hide Flatten, Values, Consistent, Insert, OrderBook.Rested;
      if order.remainingQuantity > 0 && order.orderType.LIMIT? {
        ghost var _ := orderBook.AddOrder(order);
      }
    }

    method CancelOrder(orderId: nat) returns (events: seq<Event>)
      requires Valid()
      modifies orderBook
      ensures Valid() && orderBook.Nodes() <= old(orderBook.Nodes())
      ensures events == CancelEvents(old(orderBook.Contents()), orderId)
      ensures events ==
        if old(Rests(orderBook.Contents(), orderId)) then [OrderCancelled(orderId), OrderBookChanged] else []
      ensures orderBook.Contents() == CancelBook(old(orderBook.Contents()), orderId)
      ensures orderBook.orderLocations == old(orderBook.orderLocations) - {orderId}
      ensures if orderId !in old(orderBook.orderLocations) then unchanged(orderBook) else
        var node := old(orderBook.orderLocations)[orderId].node;
        orderBook.BidNodes() == EraseNode(old(orderBook.BidNodes()), node) &&
        orderBook.AskNodes() == EraseNode(old(orderBook.AskNodes()), node)
    {
      events := [];
      var found := orderBook.CancelOrder(orderId);
      if found {
        events := [OrderCancelled(orderId), OrderBookChanged];
      }
    }

    method GetOpenOrders() returns (openOrders: seq<Order>)
      requires Valid()
      ensures openOrders == orderBook.Bids() + orderBook.Asks()
    {
      openOrders := orderBook.GetOpenOrders();
    }
  }

  /** Placing an order that trades with nothing and cancelling it restores the price maps, level by
      level, the index, the history and the counters. */
  method PlaceAndCancel(engine: MatchingEngine, order: Order)
    requires engine.Valid() && order.orderId !in engine.orderBook.orderLocations
    requires !CanTrade(order, engine.Opposing(order.side))
    modifies engine, engine.orderBook, engine.orderBook.Nodes()
    ensures engine.Valid()
    ensures engine.orderBook.bids == old(engine.orderBook.bids) && engine.orderBook.asks == old(engine.orderBook.asks)
    ensures engine.orderBook.orderLocations == old(engine.orderBook.orderLocations)
    ensures engine.recentTrades == old(engine.recentTrades) && engine.nextTradeId == old(engine.nextTradeId)
    ensures engine.nextTimestamp == old(engine.nextTimestamp)
    ensures engine.orderBook.Contents() == old(engine.orderBook.Contents())
  {
    hide Flatten, Values, LevelsOk, UniqueIds, IndexOk, InsertNode, EraseNode, Place, CancelBook, CanTrade;
    ghost var book, b := engine.orderBook, engine.orderBook.Contents();
    UnusedId(book.bids, book.asks, book.orderLocations, order.orderId);
    book.IndexedIds(order.orderId);
    PlaceThenCancelRestores(b, order, engine.nextTradeId, engine.nextTimestamp);
    PlacedWithoutTrade(b, order, engine.nextTradeId, engine.nextTimestamp);
    var events := engine.PlaceOrder(order);
    ghost var locations := book.orderLocations;
    if order.orderId in locations {
      LocationSide(book.bids, book.asks, locations, order.orderId);
    }
    events := engine.CancelOrder(order.orderId);
    if order.orderId in locations {
      ghost var node := locations[order.orderId].node;
      SideRestored(BUY, old(book.bids), book.bids, node, order.side.BUY?);
      SideRestored(SELL, old(book.asks), book.asks, node, order.side.SELL?);
    }
  }

  lemma PlacedWithoutTrade(b: Book, order: Order, tradeId: nat, timestamp: nat)
    requires !CanTrade(order, b.On(order.side.Opposite()))
    ensures Place(b, order, tradeId, timestamp).trades == []
  {
  }
}
