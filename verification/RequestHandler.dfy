/** What one request, run alone, answers, broadcasts and counts. */
module RequestHandlers {
  import opened Types
  import opened FlatBook
  import opened Matching
  import opened OrderBooks
  import opened ResultFold
  import opened AdapterRuns
  import opened EngineAdapters
  import opened MetricsModule
  import opened BestExecution
  import opened RoundTrip

  datatype Message =
    | OrderAcceptedMessage(orderId: int, side: Side, orderType: OrderType, quantity: int, price: Option<Price>)
    | OrderRejectedMessage(reason: string)
    | OrderCancelledMessage(orderId: int)
    | TradeMessage(trade: TradeEvent)
    | OrderStatusMessage(update: OrderUpdateEvent)
    | OrderBookMessage(snapshot: OrderBookSnapshot)

  datatype HandleResult = HandleResult(directResponse: Message, broadcasts: seq<Message>)

  function TradeMessages(trades: seq<TradeEvent>): (r: seq<Message>)
    ensures |r| == |trades|
    ensures forall i :: 0 <= i < |trades| ==> r[i] == TradeMessage(trades[i])
  {
    seq(|trades|, i requires 0 <= i < |trades| => TradeMessage(trades[i]))
  }

  /** Updates with a known remaining quantity; the sentinel -1 is not sent. */
  function StatusMessages(updates: seq<OrderUpdateEvent>): (r: seq<Message>)
    ensures |r| <= |updates|
  {
    if updates == [] then []
    else
      var last := updates[|updates| - 1];
      StatusMessages(updates[..|updates| - 1]) +
      if last.remainingQuantity >= 0 then [OrderStatusMessage(last)] else []
  }

  /** How many of the first `n` updates are sent. */
  ghost function KnownBefore(updates: seq<OrderUpdateEvent>, n: nat): (k: nat)
    requires n <= |updates|
    ensures k <= n
  {
    if n == 0 then 0 else KnownBefore(updates, n - 1) + if updates[n - 1].remainingQuantity >= 0 then 1 else 0
  }

  /** Each update with a known quantity is sent, in order, and nothing else. */
  ghost predicate SendsKnown(messages: seq<Message>, updates: seq<OrderUpdateEvent>) {
    |messages| == KnownBefore(updates, |updates|) &&
    forall i :: 0 <= i < |updates| && updates[i].remainingQuantity >= 0 ==>
      KnownBefore(updates, i) < |messages| && messages[KnownBefore(updates, i)] == OrderStatusMessage(updates[i])
  }

  lemma {:induction false} KnownOfPrefix(updates: seq<OrderUpdateEvent>, m: nat, n: nat)
    requires n <= m <= |updates|
    ensures KnownBefore(updates[..m], n) == KnownBefore(updates, n)
  {
    if n > 0 { KnownOfPrefix(updates, m, n - 1); }
  }

  lemma KnownAfter(updates: seq<OrderUpdateEvent>, m: nat, n: nat)
    requires m <= n <= |updates| && n <= m + 1
    ensures KnownBefore(updates, n) == KnownBefore(updates, m) +
            if m < n && updates[m].remainingQuantity >= 0 then 1 else 0
  {
  }

  lemma {:induction false} StatusMessagesKnown(updates: seq<OrderUpdateEvent>)
    ensures SendsKnown(StatusMessages(updates), updates)
  {
    if updates == [] {
      assert KnownBefore(updates, 0) == 0;
    } else {
      hide KnownBefore;
      var n := |updates| - 1;
      var before := updates[..n];
      StatusMessagesKnown(before);
      var sent, rest := StatusMessages(updates), StatusMessages(before);
      KnownOfPrefix(updates, n, n);
      KnownAfter(updates, n, n + 1);
      forall i | 0 <= i <= n && updates[i].remainingQuantity >= 0
        ensures KnownBefore(updates, i) < |sent| && sent[KnownBefore(updates, i)] == OrderStatusMessage(updates[i])
      {
        if i < n {
          KnownOfPrefix(updates, n, i);
          assert before[i] == updates[i];
          assert rest[KnownBefore(before, i)] == OrderStatusMessage(updates[i]);
        }
      }
    }
  }

  lemma {:induction false} AllKnownBefore(updates: seq<OrderUpdateEvent>, n: nat)
    requires n <= |updates| && forall i :: 0 <= i < n ==> updates[i].remainingQuantity >= 0
    ensures KnownBefore(updates, n) == n
  {
    if n > 0 { AllKnownBefore(updates, n - 1); }
  }

  /** What an accepted placement broadcasts: every trade in order, then a fill for every resting order
      that is gone, then the order's own new status, if it has one, and last the book as it is now. */
  ghost predicate PlaceBroadcasts(messages: seq<Message>, o: Order, was: seq<Order>, p: Placed) {
    var n, gone := |p.trades|, |was| - |p.book.On(o.side.Opposite())|;
    var own, remaining := if p.taker.remainingQuantity == o.quantity then 0 else 1, p.taker.remainingQuantity;
    0 <= gone <= |was| &&
    |messages| == n + gone + own + 1 &&
    (forall i :: 0 <= i < n ==>
      messages[i] == TradeMessage(TradeEvent(ToI64(p.trades[i].tradeId), p.trades[i].price, p.trades[i].quantity))) &&
    (forall i :: 0 <= i < gone ==>
      messages[n + i] == OrderStatusMessage(OrderUpdateEvent(ToI64(was[i].orderId), FILLED, 0))) &&
    (remaining != o.quantity ==>
      messages[n + gone] == OrderStatusMessage(OrderUpdateEvent(
        ToI64(o.orderId), if remaining == 0 then FILLED else PARTIALLY_FILLED, remaining))) &&
    messages[|messages| - 1].OrderBookMessage? &&
    ShowsBook(messages[|messages| - 1].snapshot, p.book)
  }

  lemma StatusesTold(updates: seq<OrderUpdateEvent>, o: Order, was: seq<Order>, left: seq<Order>, touched: nat,
                     remaining: nat)
    requires UpdatesTold(updates, o, was, left, touched, remaining)
    requires 0 <= |was| - |left| <= touched <= |was| - |left| + 1
    ensures var gone, sent := |was| - |left|, StatusMessages(updates);
      |sent| == gone + (if remaining == o.quantity then 0 else 1) &&
      (forall i :: 0 <= i < gone ==>
        sent[i] == OrderStatusMessage(OrderUpdateEvent(ToI64(was[i].orderId), FILLED, 0))) &&
      (remaining != o.quantity ==>
        sent[gone] == OrderStatusMessage(OrderUpdateEvent(
          ToI64(o.orderId), if remaining == 0 then FILLED else PARTIALLY_FILLED, remaining)))
  {
    var gone := |was| - |left|;
    hide StatusMessages, KnownBefore;
    StatusMessagesKnown(updates);
    forall i | 0 <= i <= gone ensures KnownBefore(updates, i) == i { AllKnownBefore(updates, i); }
    KnownAfter(updates, gone, touched);
    KnownAfter(updates, touched, |updates|);
    forall i | 0 <= i < gone
      ensures StatusMessages(updates)[i] == OrderStatusMessage(OrderUpdateEvent(ToI64(was[i].orderId), FILLED, 0))
    {
      assert StatusMessages(updates)[KnownBefore(updates, i)] == OrderStatusMessage(updates[i]);
    }
  }

  lemma PlaceReplyTells(result: EngineResult, b: Book, o: Order, p: Placed, price: Price)
    requires ResultOf(result, b, o, p) && result.accepted && BookInv(p.book)
    requires var was, left := b.On(o.side.Opposite()), p.book.On(o.side.Opposite());
      0 <= |was| - |left| <= |p.trades| <= |was| - |left| + 1
    ensures PlaceBroadcasts(
      PlaceReply(result, o.side, o.orderType, price, o.quantity, p.book).broadcasts, o, b.On(o.side.Opposite()), p)
  {
    hide StatusMessages, SnapshotOf, ShowsBook, BookInv, UpdatesTold;
    var was, left := b.On(o.side.Opposite()), p.book.On(o.side.Opposite());
    StatusesTold(result.orderUpdates, o, was, left, |p.trades|, p.taker.remainingQuantity);
    SnapshotShows(p.book);
  }

  /** What a placement is answered with, given the adapter's result and the book after it. */
  function PlaceReply(result: EngineResult, side: Side, orderType: OrderType, price: Price, quantity: int,
                      after: Book): HandleResult
  {
    if !result.accepted then HandleResult(OrderRejectedMessage(result.rejectReason), [])
    else HandleResult(
      OrderAcceptedMessage(result.orderId, side, orderType, quantity, if orderType.LIMIT? then Some(price) else None),
      TradeMessages(result.trades) + StatusMessages(result.orderUpdates) +
      if result.bookChanged then [OrderBookMessage(SnapshotOf(after))] else [])
  }

  /** The loops that turn a result into broadcasts and count its trades. */
  method Announce(result: EngineResult, metrics: Metrics) returns (broadcasts: seq<Message>)
    modifies metrics
    ensures broadcasts == TradeMessages(result.trades) + StatusMessages(result.orderUpdates)
    ensures var n := |result.trades|;
      |broadcasts| >= n && (forall i :: 0 <= i < n ==> broadcasts[i] == TradeMessage(result.trades[i])) &&
      SendsKnown(broadcasts[n..], result.orderUpdates)
    ensures metrics.Value() == old(metrics.Value()).(
      tradesExecuted := old(metrics.tradesExecuted) + |result.trades|,
      totalVolume := old(metrics.totalVolume) + SumQuantities(result.trades))
  {
    broadcasts := [];
    for i := 0 to |result.trades|
      invariant broadcasts == TradeMessages(result.trades[..i])
      invariant metrics.Value() == old(metrics.Value()).(
        tradesExecuted := old(metrics.tradesExecuted) + i,
        totalVolume := old(metrics.totalVolume) + SumQuantities(result.trades[..i]))
    {
      SumSnoc(result.trades, i);
      broadcasts := broadcasts + [TradeMessage(result.trades[i])];
      metrics.RecordTrade(result.trades[i].quantity);
    }
    assert result.trades[..|result.trades|] == result.trades;
    ghost var sent := broadcasts;
    for i := 0 to |result.orderUpdates|
      invariant broadcasts == sent + StatusMessages(result.orderUpdates[..i])
    {
      var update := result.orderUpdates[i];
      assert result.orderUpdates[..i + 1][..i] == result.orderUpdates[..i];
      if update.remainingQuantity >= 0 {
        broadcasts := broadcasts + [OrderStatusMessage(update)];
      }
    }
    assert result.orderUpdates[..|result.orderUpdates|] == result.orderUpdates;
    assert broadcasts[|sent|..] == StatusMessages(result.orderUpdates);
    StatusMessagesKnown(result.orderUpdates);
  }

  lemma {:induction false} SumConcat(a: seq<TradeEvent>, b: seq<TradeEvent>)
    ensures SumQuantities(a + b) == SumQuantities(a) + SumQuantities(b)
  {
    if a == [] {
      assert a + b == b;
    } else {
      assert (a + b)[1..] == a[1..] + b;
      SumConcat(a[1..], b);
    }
  }

  lemma SumSnoc(trades: seq<TradeEvent>, i: nat)
    requires i < |trades|
    ensures SumQuantities(trades[..i + 1]) == SumQuantities(trades[..i]) + trades[i].quantity
  {
    assert trades[..i + 1] == trades[..i] + [trades[i]];
    SumConcat(trades[..i], [trades[i]]);
  }

  /** The reply to a placement: a MARKET order that meets an empty opposite side is rejected and nothing
      is broadcast; any other is acknowledged with its own id and terms and its effects are broadcast. */
  ghost predicate PlaceAnswered(reply: HandleResult, b: Book, o: Order, p: Placed) {
    if o.orderType.MARKET? && b.On(o.side.Opposite()) == [] then
      reply.directResponse == OrderRejectedMessage("No liquidity for market order") && reply.broadcasts == []
    else
      reply.directResponse.OrderAcceptedMessage? &&
      reply.directResponse.orderId == ToI64(o.orderId) &&
      reply.directResponse.side == o.side &&
      reply.directResponse.orderType == o.orderType &&
      reply.directResponse.quantity == o.quantity &&
      reply.directResponse.price == (if o.orderType.LIMIT? then Some(o.price) else None) &&
      PlaceBroadcasts(reply.broadcasts, o, b.On(o.side.Opposite()), p)
  }

  lemma PlaceParts(b: Book, o: Order, tradeId: nat, timestamp: nat)
    ensures var p, m := Place(b, o, tradeId, timestamp), Match(o, b.On(o.side.Opposite()), tradeId, timestamp);
      p.book.On(o.side.Opposite()) == m.makers && p.trades == m.trades
  {
  }

  lemma PlaceTells(result: EngineResult, b: Book, o: Order, tradeId: nat, timestamp: nat)
    requires var p := Place(b, o, tradeId, timestamp); ResultOf(result, b, o, p) && BookInv(p.book)
    ensures var p := Place(b, o, tradeId, timestamp);
      PlaceAnswered(PlaceReply(result, o.side, o.orderType, o.price, o.quantity, p.book), b, o, p)
  {
    hide Place, Match, PlaceBroadcasts, BookInv, UpdatesTold, TradesTold, StatusMessages, SnapshotOf;
    TradesOrOneMore(o, b.On(o.side.Opposite()), tradeId, timestamp);
    PlaceParts(b, o, tradeId, timestamp);
    if result.accepted { PlaceReplyTells(result, b, o, Place(b, o, tradeId, timestamp), o.price); }
  }

  lemma OwnIdAnswered(reply: HandleResult, b: Book, o: Order, p: Placed)
    requires PlaceAnswered(reply, b, o, p) && o.orderId < TWO_63
    ensures reply.directResponse.OrderAcceptedMessage? ==> reply.directResponse.orderId == o.orderId
  {
  }

  lemma ResultCounts(result: EngineResult, b: Book, o: Order, p: Placed)
    requires ResultOf(result, b, o, p)
    ensures result.accepted <==> !NoLiquidity(b, o)
    ensures result.accepted ==> |result.trades| == |p.trades| && SumQuantities(result.trades) == Volume(p.trades)
    ensures !result.accepted ==> |p.trades| == 0 && Volume(p.trades) == 0
  {
  }

  class RequestHandler {
    const adapter: EngineAdapter
    const metrics: Metrics

    constructor (adapter: EngineAdapter, metrics: Metrics)
      ensures this.adapter == adapter && this.metrics == metrics
    {
      this.adapter := adapter;
      this.metrics := metrics;
    }

    /** The critical section of a placement. */
    method ExecutePlace(side: Side, orderType: OrderType, price: Price, quantity: int, now: nat)
      returns (result: EngineResult)
      requires adapter.Valid() && 0 < quantity < TWO_63 && adapter.nextOrderId < TWO_63 - 1
      modifies adapter, adapter.engine, adapter.engine.orderBook, adapter.engine.orderBook.Nodes(), metrics
      ensures adapter.Valid() && adapter.Served(PlaceRequest(side, orderType, price, quantity, now))
      ensures
        var b := old(adapter.engine.orderBook.Contents());
        var o := Order(old(adapter.nextOrderId), side, orderType, price, quantity, quantity, now);
        var p := Place(b, o, old(adapter.engine.nextTradeId), old(adapter.engine.nextTimestamp));
        result == ResultFrom(o, p.events) && ResultOf(result, b, o, p) &&
        adapter.engine.orderBook.Contents() == p.book &&
        metrics.Value() == old(metrics.Value()).(activeOrders := ToI64(|p.book.bids| + |p.book.asks|))
      ensures fresh(adapter.engine.orderBook.Nodes() - old(adapter.engine.orderBook.Nodes()))
    {
      hide Flatten, Values, Consistent, BookInv, Place, ResultFrom, ResultOf;
      result := adapter.PlaceOrder(side, orderType, price, quantity, now);
      var count := adapter.GetActiveOrderCount();
      label Counted:
      metrics.SetActiveOrders(count);
      adapter.Untouched@Counted(adapter.engine.orderBook.AllNodes());
      adapter.Extends(PlaceRequest(side, orderType, price, quantity, now));
    }

    /** Counts and announces the result, once the lock is released. */
    method Respond(result: EngineResult, side: Side, orderType: OrderType, price: Price, quantity: int)
      returns (reply: HandleResult)
      requires adapter.Valid()
      modifies metrics
      ensures adapter.Valid() && adapter.State() == old(adapter.State())
      ensures adapter.engine.orderBook.Nodes() == old(adapter.engine.orderBook.Nodes())
      ensures reply == PlaceReply(result, side, orderType, price, quantity, adapter.engine.orderBook.Contents())
      ensures metrics.Value() ==
        if result.accepted then Counters(
          old(metrics.ordersProcessed) + 1,
          old(metrics.tradesExecuted) + |result.trades|,
          old(metrics.activeOrders),
          old(metrics.totalVolume) + SumQuantities(result.trades))
        else old(metrics.Value())
    {
      hide Flatten, Values, Consistent, BookInv, SnapshotOf, StatusMessages, TradeMessages;
      label Released:
      if !result.accepted {
        reply := HandleResult(OrderRejectedMessage(result.rejectReason), []);
        return;
      }
      metrics.RecordOrder();
      var broadcasts := Announce(result, metrics);
      adapter.Untouched@Released(adapter.engine.orderBook.AllNodes());
      if result.bookChanged {
        var snapshot := adapter.GetOrderBook();
        broadcasts := broadcasts + [OrderBookMessage(snapshot)];
      }
      reply := HandleResult(
        OrderAcceptedMessage(result.orderId, side, orderType, quantity, if orderType.LIMIT? then Some(price) else None),
        broadcasts);
    }

    method HandlePlaceOrder(side: Side, orderType: OrderType, price: Price, quantity: int, now: nat)
      returns (reply: HandleResult)
      requires adapter.Valid() && 0 < quantity < TWO_63 && adapter.nextOrderId < TWO_63 - 1
      modifies adapter, adapter.engine, adapter.engine.orderBook, adapter.engine.orderBook.Nodes(), metrics
      ensures adapter.Valid() && adapter.Served(PlaceRequest(side, orderType, price, quantity, now))
      ensures fresh(adapter.engine.orderBook.Nodes() - old(adapter.engine.orderBook.Nodes()))
      ensures
        var b := old(adapter.engine.orderBook.Contents());
        var o := Order(old(adapter.nextOrderId), side, orderType, price, quantity, quantity, now);
        var p := Place(b, o, old(adapter.engine.nextTradeId), old(adapter.engine.nextTimestamp));
        var was := old(metrics.Value());
        adapter.engine.orderBook.Contents() == p.book &&
        reply == PlaceReply(ResultFrom(o, p.events), side, orderType, price, quantity, p.book) &&
        metrics.Value() == Counters(
          was.ordersProcessed + (if NoLiquidity(b, o) then 0 else 1),
          was.tradesExecuted + |p.trades|,
          ToI64(|p.book.bids| + |p.book.asks|),
          was.totalVolume + Volume(p.trades)) &&
        PlaceAnswered(reply, b, o, p)
      ensures reply.directResponse.OrderAcceptedMessage? ==> reply.directResponse.orderId == old(adapter.nextOrderId)
    {
      hide Flatten, Values, Consistent, BookInv, Place, ResultFrom, ResultOf, PlaceReply, PlaceAnswered;
      ghost var o := Order(adapter.nextOrderId, side, orderType, price, quantity, quantity, now);
      ghost var b := adapter.engine.orderBook.Contents();
      ghost var t, u := adapter.engine.nextTradeId, adapter.engine.nextTimestamp;
      ghost var p := Place(b, o, t, u);
      var result := ExecutePlace(side, orderType, price, quantity, now);
      ResultCounts(result, b, o, p);
      PlaceTells(result, b, o, t, u);
      OwnIdAnswered(PlaceReply(result, side, orderType, price, quantity, p.book), b, o, p);
      reply := Respond(result, side, orderType, price, quantity);
      adapter.Extends(PlaceRequest(side, orderType, price, quantity, now));
    }

    method HandleCancelOrder(orderId: int) returns (reply: HandleResult)
      requires adapter.Valid() && -TWO_63 <= orderId < TWO_63
      modifies adapter.engine.orderBook, metrics
      ensures adapter.Valid() && adapter.Served(CancelRequest(orderId))
      ensures adapter.engine.orderBook.Nodes() <= old(adapter.engine.orderBook.Nodes())
      ensures
        var b := old(adapter.engine.orderBook.Contents());
        var found := 0 <= orderId && Rests(b, orderId);
        var after := if found then CancelBook(b, orderId) else b;
        adapter.engine.orderBook.Contents() == after &&
        reply == CancelReply(orderId, found, after) &&
        metrics.Value() == old(metrics.Value()).(activeOrders := ToI64(|after.bids| + |after.asks|)) &&
        if found then
          reply.directResponse == OrderCancelledMessage(orderId) && |reply.broadcasts| == 2 &&
          reply.broadcasts[0] == OrderStatusMessage(OrderUpdateEvent(orderId, CANCELLED, 0)) &&
          reply.broadcasts[1].OrderBookMessage? && ShowsBook(reply.broadcasts[1].snapshot, after)
        else
          reply.directResponse == OrderRejectedMessage("Order not found") && reply.broadcasts == []
    {
      hide Flatten, Values, Consistent, BookInv, SnapshotOf, CancelBook, Rests;
      var cancelResult := adapter.CancelOrder(orderId);
      var count := adapter.GetActiveOrderCount();
      label Counted:
      metrics.SetActiveOrders(count);
      adapter.Untouched@Counted(adapter.engine.orderBook.AllNodes());
      adapter.Extends(CancelRequest(orderId));
      if !cancelResult.success {
        reply := HandleResult(OrderRejectedMessage(cancelResult.reason), []);
        return;
      }
      reply := Cancelled(cancelResult.orderId);
      adapter.Extends(CancelRequest(orderId));
    }

    /** The tail of a successful cancellation. */
    method Cancelled(orderId: int) returns (reply: HandleResult)
      requires adapter.Valid()
      ensures adapter.Valid() && adapter.State() == old(adapter.State())
      ensures metrics.Value() == old(metrics.Value())
      ensures reply == CancelReply(orderId, true, adapter.engine.orderBook.Contents())
      ensures |reply.broadcasts| == 2 && reply.broadcasts[1].OrderBookMessage?
      ensures ShowsBook(reply.broadcasts[1].snapshot, adapter.engine.orderBook.Contents())
    {
      hide Flatten, Values, Consistent, BookInv, SnapshotOf, ShowsSide;
      label Start:
      metrics.RecordCancel();
      adapter.Untouched@Start(adapter.engine.orderBook.AllNodes());
      var broadcasts := [OrderStatusMessage(OrderUpdateEvent(orderId, CANCELLED, 0))];
      var snapshot := adapter.GetOrderBook();
      reply := HandleResult(OrderCancelledMessage(orderId), broadcasts + [OrderBookMessage(snapshot)]);
    }
  }

  /** What a cancellation is answered with, given the book after it. */
  function CancelReply(orderId: int, found: bool, after: Book): HandleResult {
    if !found then HandleResult(OrderRejectedMessage("Order not found"), [])
    else HandleResult(OrderCancelledMessage(orderId),
                      [OrderStatusMessage(OrderUpdateEvent(orderId, CANCELLED, 0)),
                       OrderBookMessage(SnapshotOf(after))])
  }

  // ---------- which broadcasts a client can rely on ----------

  /** A refreshed book is broadcast exactly when the placement changed the book. */
  lemma SnapshotIffChanged(b: Book, o: Order, tradeId: nat, timestamp: nat)
    requires BookInv(b) && !Rests(b, o.orderId) && o.remainingQuantity == o.quantity && 0 < o.quantity < TWO_63
    ensures var p := Place(b, o, tradeId, timestamp);
      var reply := PlaceReply(ResultFrom(o, p.events), o.side, o.orderType, o.price, o.quantity, p.book);
      (p.book != b <==> exists i :: 0 <= i < |reply.broadcasts| && reply.broadcasts[i].OrderBookMessage?) &&
      (p.book != b ==> reply.broadcasts[|reply.broadcasts| - 1] == OrderBookMessage(SnapshotOf(p.book)))
  {
    hide BookInv, Place, ResultFrom, SnapshotOf, StatusMessages, Rests;
    var p := Place(b, o, tradeId, timestamp);
    var reply := PlaceReply(ResultFrom(o, p.events), o.side, o.orderType, o.price, o.quantity, p.book);
    FinishPlace(b, o, tradeId, timestamp);
    BookChangesIff(b, o, tradeId, timestamp);
    if p.book != b { assert reply.broadcasts[|reply.broadcasts| - 1].OrderBookMessage?; }
  }

  lemma {:induction false} AllKnown(updates: seq<OrderUpdateEvent>)
    ensures |StatusMessages(updates)| == |updates| <==>
            forall i :: 0 <= i < |updates| ==> updates[i].remainingQuantity >= 0
  {
    if updates != [] {
      var init := updates[..|updates| - 1];
      AllKnown(init);
      assert forall i :: 0 <= i < |init| ==> updates[i] == init[i];
    }
  }

  /** The quantity of the best `k` orders of a side. */
  function FirstTotal(s: seq<Order>, k: nat): nat
    requires k <= |s|
  {
    if k == 0 then 0 else FirstTotal(s, k - 1) + s[k - 1].remainingQuantity
  }

  lemma {:induction false} VolumeOfConsumed(s: seq<Order>, trades: seq<Trade>, k: nat)
    requires k <= |trades| && k <= |s|
    requires forall i :: 0 <= i < k ==> trades[i].quantity == s[i].remainingQuantity
    ensures Volume(trades[..k]) == FirstTotal(s, k)
  {
    if k > 0 {
      VolumeOfConsumed(s, trades, k - 1);
      assert trades[..k] == trades[..k - 1] + [trades[k - 1]];
      VolumeConcat(trades[..k - 1], [trades[k - 1]]);
      assert [trades[k - 1]][1..] == [];
    }
  }

  lemma {:induction false} FirstTotalGrows(s: seq<Order>, j: nat, k: nat)
    requires j <= k <= |s|
    ensures FirstTotal(s, j) <= FirstTotal(s, k)
  {
    if j < k { FirstTotalGrows(s, j, k - 1); }
  }

  /** The fill ends on an order boundary: the executed quantity is that of some best `k` orders. */
  ghost predicate OnBoundary(o: Order, s: seq<Order>) {
    exists k :: 0 <= k <= |s| && FirstTotal(s, k) == Min(o.remainingQuantity, Acceptable(o, s))
  }

  /** The traded volume is that of the consumed orders, plus a proper part of the next one if it
      was left reduced. */
  lemma VolumeOfMatch(o: Order, s: seq<Order>, tradeId: nat, timestamp: nat)
    ensures var m := Match(o, s, tradeId, timestamp);
      var d := |s| - |m.makers|;
      0 <= d <= |s| && (|m.trades| == d || |m.trades| == d + 1 <= |s|) &&
      (|m.trades| == d ==> Volume(m.trades) == FirstTotal(s, d)) &&
      (|m.trades| == d + 1 <= |s| ==> FirstTotal(s, d) < Volume(m.trades) < FirstTotal(s, d + 1))
  {
    var m := Match(o, s, tradeId, timestamp);
    hide Match, Volume;
    var d := |s| - |m.makers|;
    MatchShape(o, s, tradeId, timestamp);
    VolumeOfConsumed(s, m.trades, d);
    assert m.trades[..d] + m.trades[d..] == m.trades;
    VolumeConcat(m.trades[..d], m.trades[d..]);
    if |m.trades| == d {
      assert m.trades[d..] == [];
      VolumeFew(MakeTrade(o, o, 0, 0, 0));
    } else {
      assert m.trades[d..] == [m.trades[d]];
      VolumeFew(m.trades[d]);
    }
  }

  lemma VolumeFew(t: Trade)
    ensures Volume([]) == 0 && Volume([t]) == t.quantity
  {
    assert [t][1..] == [];
  }

  lemma StrictlyBetween(s: seq<Order>, d: nat, volume: nat)
    requires d < |s| && FirstTotal(s, d) < volume < FirstTotal(s, d + 1)
    ensures forall k :: 0 <= k <= |s| ==> FirstTotal(s, k) != volume
  {
    forall k | 0 <= k <= |s| ensures FirstTotal(s, k) != volume {
      if k <= d { FirstTotalGrows(s, k, d); } else { FirstTotalGrows(s, d + 1, k); }
    }
  }

  lemma PartialIffInside(o: Order, s: seq<Order>, tradeId: nat, timestamp: nat)
    requires Sorted(o.side.Opposite(), s)
    ensures var m := Match(o, s, tradeId, timestamp);
      |m.makers| + |m.trades| == |s| <==> OnBoundary(o, s)
  {
    hide Match, Volume, FirstTotal, Acceptable;
    var m := Match(o, s, tradeId, timestamp);
    ExecutesAll(o, s, tradeId, timestamp);
    VolumeOfMatch(o, s, tradeId, timestamp);
    if |m.trades| + |m.makers| > |s| { StrictlyBetween(s, |s| - |m.makers|, Volume(m.trades)); }
  }

  /** Every status transition of an accepted placement is broadcast if and only if the executed
      quantity ends on an order boundary: a resting order left partly filled is not announced. */
  lemma TransitionsBroadcastIff(b: Book, o: Order, tradeId: nat, timestamp: nat)
    requires BookInv(b) && !Rests(b, o.orderId) && o.remainingQuantity == o.quantity && 0 < o.quantity < TWO_63
    ensures var p := Place(b, o, tradeId, timestamp);
      var updates := ResultFrom(o, p.events).orderUpdates;
      |StatusMessages(updates)| == |updates| <==> OnBoundary(o, b.On(o.side.Opposite()))
  {
    hide Match, ResultFrom, StatusMessages, OnBoundary;
    var s := b.On(o.side.Opposite());
    var m := Match(o, s, tradeId, timestamp);
    var p := Place(b, o, tradeId, timestamp);
    var updates := ResultFrom(o, p.events).orderUpdates;
    FinishPlace(b, o, tradeId, timestamp);
    AllKnown(updates);
    PartialIffInside(o, s, tradeId, timestamp);
    TradesOrOneMore(o, s, tradeId, timestamp);
    if |m.makers| + |m.trades| > |s| {
      assert updates[|m.trades| - 1].remainingQuantity == -1;
    }
  }

  lemma TradesOrOneMore(o: Order, s: seq<Order>, tradeId: nat, timestamp: nat)
    ensures var m := Match(o, s, tradeId, timestamp);
      |s| <= |m.makers| + |m.trades| <= |s| + 1 && |m.makers| <= |s|
  {
    MatchShape(o, s, tradeId, timestamp);
  }

  /** A resting SELL of 100 met by a BUY of 40: a transition goes unannounced. */
  lemma TransitionNotBroadcast()
    ensures var b := Book([], [Order(1, SELL, LIMIT, 100.0, 100, 100, 0)]);
      var o := Order(2, BUY, LIMIT, 100.0, 40, 40, 0);
      var updates := ResultFrom(o, Place(b, o, 1, 1).events).orderUpdates;
      BookInv(b) && |StatusMessages(updates)| != |updates|
  {
    hide Place, ResultFrom, StatusMessages;
    var s := [Order(1, SELL, LIMIT, 100.0, 100, 100, 0)];
    var o := Order(2, BUY, LIMIT, 100.0, 40, 40, 0);
    TransitionsBroadcastIff(Book([], s), o, 1, 1);
    assert Acceptable(o, s) == 100 + Acceptable(o, s[1..]) == 100;
    assert FirstTotal(s, 1) == FirstTotal(s, 0) + 100;
    StrictlyBetween(s, 0, 40);
  }
}
