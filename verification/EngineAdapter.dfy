/** The adapter: it numbers the orders, runs the engine and reads the results from its events. */
module EngineAdapters {
  import opened Types
  import opened FlatBook
  import opened FlatLemmas
  import opened Matching
  import opened OrderBooks
  import opened MatchingEngines
  import opened ResultFold
  import opened Depth
  import opened History
  import opened AdapterRuns

  datatype CancelResult = CancelResult(success: bool, reason: string, orderId: int)

  /** A level as the client sees it: the summed quantity cast to `std::int64_t`. */
  datatype ShownLevel = ShownLevel(price: Price, quantity: int)

  datatype OrderBookSnapshot = OrderBookSnapshot(bids: seq<ShownLevel>, asks: seq<ShownLevel>)

  const DEPTH_LEVELS: nat := 10

  function Shown(depth: seq<PriceLevel>): (r: seq<ShownLevel>)
    ensures |r| == |depth|
    ensures forall i :: 0 <= i < |depth| ==> r[i] == ShownLevel(depth[i].price, ToI64(depth[i].quantity))
  {
    seq(|depth|, i requires 0 <= i < |depth| => ShownLevel(depth[i].price, ToI64(depth[i].quantity)))
  }

  /** The ten best levels of each side. */
  function SnapshotOf(b: Book): OrderBookSnapshot {
    OrderBookSnapshot(Shown(Wrap(Take(Group(b.bids), DEPTH_LEVELS))),
                      Shown(Wrap(Take(Group(b.asks), DEPTH_LEVELS))))
  }

  /** The client sees the ten best prices of a side, or all if there are fewer, best first, each with
      everything open at it, cast from `std::uint64_t` to `std::int64_t`. */
  ghost predicate ShowsSide(side: Side, s: seq<Order>, shown: seq<ShownLevel>) {
    BestPrices(side, s, 10, seq(|shown|, i requires 0 <= i < |shown| => shown[i].price)) &&
    forall i :: 0 <= i < |shown| ==>
      shown[i].quantity == ToI64(AtPrice(s, shown[i].price) % 0x1_0000_0000_0000_0000)
  }

  ghost predicate ShowsBook(snapshot: OrderBookSnapshot, b: Book) {
    ShowsSide(BUY, b.bids, snapshot.bids) && ShowsSide(SELL, b.asks, snapshot.asks)
  }

  lemma ShownSide(side: Side, s: seq<Order>)
    requires Sorted(side, s)
    ensures ShowsSide(side, s, Shown(Wrap(Take(Group(s), DEPTH_LEVELS))))
  {
    hide BestPrices, Group, Take, Wrap;
    var depth := Wrap(Take(Group(s), DEPTH_LEVELS));
    var shown := Shown(depth);
    DepthIs(side, s, DEPTH_LEVELS);
    assert seq(|shown|, i requires 0 <= i < |shown| => shown[i].price) ==
           seq(|depth|, i requires 0 <= i < |depth| => depth[i].price);
  }

  lemma SnapshotShows(b: Book)
    requires BookInv(b)
    ensures ShowsBook(SnapshotOf(b), b)
  {
    hide ShowsSide, Shown, Wrap, Take, Group;
    ShownSide(BUY, b.bids);
    ShownSide(SELL, b.asks);
  }

  /** A shown quantity is the true one exactly as long as the level holds less than 2^63. */
  lemma ShownExact(depth: seq<PriceLevel>, i: nat)
    requires i < |depth|
    ensures Shown(Wrap(depth))[i].price == depth[i].price
    ensures Shown(Wrap(depth))[i].quantity == depth[i].quantity <==> depth[i].quantity < TWO_63
  {
    var q := depth[i].quantity;
    var u := q % TWO_64;
    assert Wrap(depth)[i].quantity == u && u < TWO_64 == 2 * TWO_63;
    assert u % (2 * TWO_63) == u;
  }

  /** The fold over the events, as a loop. */
  method ReadEvents(events: seq<Event>, order: Order) returns (result: EngineResult)
    ensures result == ResultFrom(order, events)
  {
    result := Blank(ToI64(order.orderId));
    var remaining: int := order.quantity;
    for i := 0 to |events|
      invariant ReadAll(Reading(remaining, result), order.orderId, events[i..]) ==
                ReadAll(Reading(order.quantity, Blank(ToI64(order.orderId))), order.orderId, events)
    {
      assert events[i..][1..] == events[i + 1..];
      match events[i]
      case TradeExecuted(trade) =>
        var te := TradeEvent(ToI64(trade.tradeId), trade.price, ToI64(trade.quantity));
        result := result.(trades := result.trades + [te]);
        if trade.buyOrderId == order.orderId || trade.sellOrderId == order.orderId {
          remaining := remaining - ToI64(trade.quantity);
        }
      case OrderCompletelyFilled(id) =>
        if id == order.orderId {
          result := result.(status := FILLED, remainingQuantity := 0);
          result := result.(orderUpdates := result.orderUpdates + [OrderUpdateEvent(result.orderId, FILLED, 0)]);
        } else {
          result := result.(orderUpdates := result.orderUpdates + [OrderUpdateEvent(ToI64(id), FILLED, 0)]);
        }
      case OrderPartiallyFilled(id) =>
        if id == order.orderId {
          result := result.(status := PARTIALLY_FILLED, remainingQuantity := remaining);
          result := result.(orderUpdates := result.orderUpdates +
            [OrderUpdateEvent(result.orderId, PARTIALLY_FILLED, remaining)]);
        } else {
          result := result.(orderUpdates := result.orderUpdates +
            [OrderUpdateEvent(ToI64(id), PARTIALLY_FILLED, -1)]);
        }
      case OrderBookChanged =>
        result := result.(bookChanged := true);
      case _ =>
    }
    assert events[|events|..] == [];
    if result.status.ACCEPTED? {
      result := result.(remainingQuantity := remaining);
      if order.orderType.MARKET? && remaining == order.quantity {
        result := result.(accepted := false, rejectReason := NO_LIQUIDITY);
      }
    }
  }

  class EngineAdapter {
    const engine: MatchingEngine
    var nextOrderId: nat

    /** Ids, counters and the book fit together, and `nextOrderId` has never been used. */
    ghost predicate Valid()
      reads this, engine, engine.orderBook, engine.orderBook.BidNodes(), engine.orderBook.AskNodes()
    {
      engine.Valid() && 1 <= nextOrderId < TWO_63 &&
      BookInv(engine.orderBook.Contents()) &&
      IdsBelow(engine.orderBook.Contents(), engine.recentTrades, nextOrderId)
    }

    /** The abstract value: the flat engine and the next number. */
    ghost function State(): AdapterState
      reads this, engine, engine.orderBook, engine.orderBook.BidNodes(), engine.orderBook.AskNodes()
    {
      AdapterState(
        Engine(engine.orderBook.Contents(), engine.recentTrades, engine.nextTradeId, engine.nextTimestamp),
        nextOrderId)
    }

    /** These requests, in this order, have led here. */
    ghost predicate Follows(requests: seq<ParsedRequest>)
      reads this, engine, engine.orderBook, engine.orderBook.BidNodes(), engine.orderBook.AskNodes()
    {
      Valid() && State() == Serve(requests)
    }

    /** The objects are in the state of a legal run of the flat engine, so whatever holds after every
        legal run holds of them. */
    lemma FollowsRun(requests: seq<ParsedRequest>)
      requires Follows(requests)
      ensures var cmds := CommandsOf(requests);
        Legal(cmds) &&
        Run(cmds) == Engine(engine.orderBook.Contents(), engine.recentTrades, engine.nextTradeId, engine.nextTimestamp)
    {
      RunsAreLegal(requests);
    }

    /** One more request has been handled: whatever run led to the old state, extended by `r` it leads here. */
    twostate predicate Served(r: ParsedRequest)
      reads this, engine, engine.orderBook, engine.orderBook.BidNodes(), engine.orderBook.AskNodes()
    {
      State() == Handle(old(State()), r) &&
      forall requests :: old(Follows(requests)) ==> Follows(requests + [r])
    }

    twostate lemma Extends(r: ParsedRequest)
      requires Valid() && State() == Handle(old(State()), r)
      ensures Served(r)
    {
      hide Handle, Serve;
      forall requests | old(Follows(requests)) ensures Follows(requests + [r]) {
        ServeSnoc(requests, r);
      }
    }

    /** Writes elsewhere leave the adapter as it was. */
    twostate lemma Untouched(nodes: seq<RestingOrder>)
      requires old(Valid()) && unchanged(this, engine, engine.orderBook)
      requires nodes == engine.orderBook.AllNodes()
      requires forall n :: n in nodes ==> n.remainingQuantity == old(n.remainingQuantity)
      ensures Valid() && engine.orderBook.Contents() == old(engine.orderBook.Contents())
      ensures State() == old(State())
    {
      hide BookInv;
      engine.orderBook.Untouched(nodes);
    }

    constructor ()
      ensures Valid() && fresh(engine) && fresh(engine.orderBook) && engine.orderBook.Nodes() == {}
      ensures engine.orderBook.Contents() == EMPTY && engine.recentTrades == [] && nextOrderId == 1
      ensures engine.nextTradeId == engine.nextTimestamp == 1
      ensures Follows([])
    {
      engine := new MatchingEngine();
      nextOrderId := 1;
    }

    method PlaceOrder(side: Side, orderType: OrderType, price: Price, quantity: int, now: nat)
      returns (result: EngineResult)
      requires Valid() && 0 < quantity < TWO_63
      requires nextOrderId < TWO_63 - 1
      modifies this, engine, engine.orderBook, engine.orderBook.Nodes()
      ensures Valid() && nextOrderId == old(nextOrderId) + 1
      ensures Served(PlaceRequest(side, orderType, price, quantity, now))
      ensures fresh(engine.orderBook.Nodes() - old(engine.orderBook.Nodes()))
      ensures
        var b := old(engine.orderBook.Contents());
        var o := Order(old(nextOrderId), side, orderType, price, quantity, quantity, now);
        var p := Place(b, o, old(engine.nextTradeId), old(engine.nextTimestamp));
        engine.orderBook.Contents() == p.book &&
        engine.recentTrades == old(engine.recentTrades) + p.trades &&
        engine.nextTradeId == old(engine.nextTradeId) + |p.trades| &&
        engine.nextTimestamp == old(engine.nextTimestamp) + |p.trades| &&
        result == ResultFrom(o, p.events) && ResultOf(result, b, o, p)
    {
      hide Flatten, Values, Consistent, Place, BookInv, ResultFrom, ResultOf, Handle, Served;
      var order := Order(nextOrderId, side, orderType, price, quantity, quantity, now);
      ghost var b, trades, t, u :=
        engine.orderBook.Contents(), engine.recentTrades, engine.nextTradeId, engine.nextTimestamp;
      FreshDoesNotRest(b, trades, order.orderId);
      engine.orderBook.IndexedIds(order.orderId);
      var events := engine.PlaceOrder(order);
      label Matched:
      nextOrderId := nextOrderId + 1;
      result := ReadEvents(events, order);
      engine.orderBook.Untouched@Matched(engine.orderBook.AllNodes());
      FinishPlace(b, order, t, u);
      PlaceKeepsInv(b, order, t, u);
      PlaceKeepsFresh(b, trades, order, t, u);
      HandlePlaced(old(State()), PlaceRequest(side, orderType, price, quantity, now));
      Extends(PlaceRequest(side, orderType, price, quantity, now));
    }

    method CancelOrder(orderId: int) returns (result: CancelResult)
      requires Valid() && -TWO_63 <= orderId < TWO_63
      modifies engine.orderBook
      ensures Valid() && engine.orderBook.Nodes() <= old(engine.orderBook.Nodes())
      ensures Served(CancelRequest(orderId))
      ensures result.orderId == orderId
      ensures result.success <==> 0 <= orderId && old(Rests(engine.orderBook.Contents(), orderId))
      ensures result.reason == if result.success then "" else "Order not found"
      ensures engine.orderBook.Contents() ==
        if result.success then CancelBook(old(engine.orderBook.Contents()), orderId)
        else old(engine.orderBook.Contents())
    {
      hide Flatten, Values, Consistent, BookInv, Without, Served;
      ghost var b := engine.orderBook.Contents();
      result := CancelResult(false, "", orderId);
      CancelKeepsInv(b, ToU64(orderId));
      CancelKeepsFresh(b, engine.recentTrades, ToU64(orderId), nextOrderId);
      NegativeIdsUnknown(b, engine.recentTrades, nextOrderId, orderId);
      var events := engine.CancelOrder(ToU64(orderId));
      Extends(CancelRequest(orderId));
      if events == [] {
        result := result.(success := false, reason := "Order not found");
        return;
      }
      result := result.(success := true);
    }

    method GetOrderBook() returns (snapshot: OrderBookSnapshot)
      requires Valid()
      ensures Valid() && State() == old(State())
      ensures snapshot == SnapshotOf(engine.orderBook.Contents())
      ensures ShowsSide(BUY, engine.orderBook.Contents().bids, snapshot.bids)
      ensures ShowsSide(SELL, engine.orderBook.Contents().asks, snapshot.asks)
    {
      hide Flatten, Values, Consistent, BookInv, Group, Wrap, ShowsSide;
      label Start:
      var bids := engine.orderBook.GetBidDepth(DEPTH_LEVELS);
      label BidsRead:
      var asks := engine.orderBook.GetAskDepth(DEPTH_LEVELS);
      engine.orderBook.Untouched@BidsRead(engine.orderBook.AllNodes());
      Untouched@Start(engine.orderBook.AllNodes());
      snapshot := OrderBookSnapshot(Shown(bids), Shown(asks));
      SnapshotShows(engine.orderBook.Contents());
    }

    method GetActiveOrderCount() returns (count: int)
      requires Valid()
      ensures Valid() && State() == old(State())
      ensures var b := engine.orderBook.Contents(); count == ToI64(|b.bids| + |b.asks|)
    {
      hide Flatten, Values, Consistent, BookInv;
      label Start:
      var openOrders := engine.GetOpenOrders();
      Untouched@Start(engine.orderBook.AllNodes());
      count := ToI64(|openOrders|);
    }
  }

  /** What handling a placement means for the engine. */
  lemma HandlePlaced(s: AdapterState, r: ParsedRequest)
    requires r.PlaceRequest?
    ensures var p := Place(s.engine.book, OrderFor(s.nextOrderId, r), s.engine.nextTradeId, s.engine.nextTimestamp);
      Handle(s, r) == AdapterState(
        Engine(p.book, s.engine.trades + p.trades, s.engine.nextTradeId + |p.trades|,
               s.engine.nextTimestamp + |p.trades|),
        s.nextOrderId + 1)
  {
  }

  /** Casting a negative id gives one above every id in use. */
  lemma NegativeIdsUnknown(b: Book, trades: seq<Trade>, next: int, orderId: int)
    requires IdsBelow(b, trades, next) && next < TWO_63 && -TWO_63 <= orderId < TWO_63
    ensures Rests(b, ToU64(orderId)) <==> 0 <= orderId && Rests(b, orderId)
    ensures !Rests(b, ToU64(orderId)) ==> CancelBook(b, ToU64(orderId)) == b
  {
    if !Rests(b, ToU64(orderId)) {
      WithoutAbsent(b.bids, ToU64(orderId));
      WithoutAbsent(b.asks, ToU64(orderId));
    }
  }
}
