/** How the adapter reads the engine's events back into the result of a request. */
module ResultFold {
  import opened Types
  import opened FlatBook
  import opened Matching

  datatype OrderStatus = ACCEPTED | PARTIALLY_FILLED | FILLED | CANCELLED

  datatype TradeEvent = TradeEvent(tradeId: int, price: Price, quantity: int)

  datatype OrderUpdateEvent = OrderUpdateEvent(orderId: int, status: OrderStatus, remainingQuantity: int)

  datatype EngineResult = EngineResult(
    accepted: bool,
    rejectReason: string,
    orderId: int,
    remainingQuantity: int,
    status: OrderStatus,
    trades: seq<TradeEvent>,
    orderUpdates: seq<OrderUpdateEvent>,
    bookChanged: bool)

  const TWO_63: int := 0x8000_0000_0000_0000

  /** `static_cast<std::int64_t>` of a `std::uint64_t`: the one value of that type congruent modulo 2^64. */
  function ToI64(u: nat): (i: int)
    ensures u < TWO_63 ==> i == u
    ensures -0x8000_0000_0000_0000 <= i < 0x8000_0000_0000_0000 && (u - i) % 0x1_0000_0000_0000_0000 == 0
  {
    var r := u % (2 * TWO_63);
    if r < TWO_63 then r else r - 2 * TWO_63
  }

  /** `static_cast<std::uint64_t>` of a `std::int64_t`. */
  function ToU64(i: int): (u: nat)
    requires -TWO_63 <= i < TWO_63
    ensures 0 <= i ==> u == i
    ensures i < 0 ==> u >= TWO_63
    ensures u < 0x1_0000_0000_0000_0000 && (u - i) % 0x1_0000_0000_0000_0000 == 0
  {
    if i < 0 then i + 2 * TWO_63 else i
  }

  /** The fold's local `remaining` and the result under construction. */
  datatype Reading = Reading(remaining: int, result: EngineResult)

  function ToTradeEvent(t: Trade): TradeEvent {
    TradeEvent(ToI64(t.tradeId), t.price, ToI64(t.quantity))
  }

  function Read(r: Reading, orderId: nat, e: Event): Reading {
    match e
    case OrderAccepted(id) => r
    case OrderCancelled(id) => r
    case TradeExecuted(t) =>
      Reading(
        if t.buyOrderId == orderId || t.sellOrderId == orderId then r.remaining - ToI64(t.quantity) else r.remaining,
        r.result.(trades := r.result.trades + [ToTradeEvent(t)]))
    case OrderCompletelyFilled(id) =>
      if id == orderId then
        r.(result := r.result.(status := FILLED, remainingQuantity := 0,
                               orderUpdates := r.result.orderUpdates + [OrderUpdateEvent(r.result.orderId, FILLED, 0)]))
      else
        r.(result := r.result.(
          orderUpdates := r.result.orderUpdates + [OrderUpdateEvent(ToI64(id), FILLED, 0)]))
    case OrderPartiallyFilled(id) =>
      if id == orderId then
        r.(result := r.result.(status := PARTIALLY_FILLED, remainingQuantity := r.remaining,
                               orderUpdates := r.result.orderUpdates +
                                 [OrderUpdateEvent(r.result.orderId, PARTIALLY_FILLED, r.remaining)]))
      else
        r.(result := r.result.(
          orderUpdates := r.result.orderUpdates + [OrderUpdateEvent(ToI64(id), PARTIALLY_FILLED, -1)]))
    case OrderBookChanged => r.(result := r.result.(bookChanged := true))
  }

  function ReadAll(r: Reading, orderId: nat, events: seq<Event>): Reading
    decreases |events|
  {
    if events == [] then r else ReadAll(Read(r, orderId, events[0]), orderId, events[1..])
  }

  lemma {:induction false} ReadConcat(r: Reading, orderId: nat, a: seq<Event>, b: seq<Event>)
    ensures ReadAll(r, orderId, a + b) == ReadAll(ReadAll(r, orderId, a), orderId, b)
    decreases |a|
  {
    if a == [] {
      assert a + b == b;
    } else {
      assert (a + b)[1..] == a[1..] + b;
      ReadConcat(Read(r, orderId, a[0]), orderId, a[1..], b);
    }
  }

  lemma ReadTwo(r: Reading, orderId: nat, e: Event, f: Event)
    ensures ReadAll(r, orderId, [e]) == Read(r, orderId, e)
    ensures ReadAll(r, orderId, [e, f]) == Read(Read(r, orderId, e), orderId, f)
  {
    assert [e, f][1..] == [f] && [f][1..] == [] && [e][1..] == [];
    var q := Read(r, orderId, e);
    assert ReadAll(q, orderId, [f]) == ReadAll(Read(q, orderId, f), orderId, []);
  }

  // ---------- what the result should say ----------

  function Maker(side: Side, t: Trade): nat {
    if side.BUY? then t.sellOrderId else t.buyOrderId
  }

  /** The trades as the client sees them: number, price and quantity of each, in order. */
  function TradeEvents(trades: seq<Trade>): (r: seq<TradeEvent>)
    ensures |r| == |trades|
    ensures forall i :: 0 <= i < |trades| ==>
      r[i] == TradeEvent(ToI64(trades[i].tradeId), trades[i].price, ToI64(trades[i].quantity))
  {
    seq(|trades|, i requires 0 <= i < |trades| => ToTradeEvent(trades[i]))
  }

  /** One update per resting order traded with: the first `consumed` of them are filled, and any
      other is reported by the sentinel -1. */
  function MakerUpdates(side: Side, trades: seq<Trade>, consumed: int): (r: seq<OrderUpdateEvent>)
    ensures |r| == |trades|
  {
    seq(|trades|, i requires 0 <= i < |trades| =>
      if i < consumed then OrderUpdateEvent(ToI64(Maker(side, trades[i])), FILLED, 0)
      else OrderUpdateEvent(ToI64(Maker(side, trades[i])), PARTIALLY_FILLED, -1))
  }

  /** The true final status of the incoming order. */
  function StatusOf(taker: Order): OrderStatus {
    if taker.remainingQuantity == 0 then FILLED
    else if taker.remainingQuantity < taker.quantity then PARTIALLY_FILLED
    else ACCEPTED
  }

  function OwnUpdates(taker: Order): seq<OrderUpdateEvent> {
    if StatusOf(taker).ACCEPTED? then []
    else [OrderUpdateEvent(ToI64(taker.orderId), StatusOf(taker), taker.remainingQuantity)]
  }

  /** The reading after these trades, the first `consumed` of which filled their resting order. */
  function After(r: Reading, side: Side, trades: seq<Trade>, consumed: int): Reading {
    Reading(r.remaining - Volume(trades),
            r.result.(trades := r.result.trades + TradeEvents(trades),
                      orderUpdates := r.result.orderUpdates + MakerUpdates(side, trades, consumed)))
  }

  lemma AfterBoth(r: Reading, side: Side, a: seq<Trade>, b: seq<Trade>, consumedA: int, consumedB: int)
    requires consumedB >= 0 && (consumedA == |a| || (b == [] && consumedB == 0))
    ensures After(After(r, side, a, consumedA), side, b, consumedB) == After(r, side, a + b, consumedA + consumedB)
  {
    hide MakerUpdates, TradeEvents;
    VolumeConcat(a, b);
    TradeEventsConcat(a, b);
    MakerUpdatesConcat(side, a, b, consumedA, consumedB);
  }

  lemma TradeEventsConcat(a: seq<Trade>, b: seq<Trade>)
    ensures TradeEvents(a + b) == TradeEvents(a) + TradeEvents(b)
  {
  }

  lemma MakerUpdatesConcat(side: Side, a: seq<Trade>, b: seq<Trade>, consumedA: int, consumedB: int)
    requires consumedB >= 0 && (consumedA == |a| || (b == [] && consumedB == 0))
    ensures MakerUpdates(side, a + b, consumedA + consumedB) ==
            MakerUpdates(side, a, consumedA) + MakerUpdates(side, b, consumedB)
  {
  }

  /** Reading one trade and the resting order's own event. */
  lemma ReadTrade(r: Reading, o: Order, s: seq<Order>, tradeId: nat, timestamp: nat)
    requires CanTrade(o, s) && s[0].orderId != o.orderId
    requires o.remainingQuantity < TWO_63
    ensures var first := TradeOnce(o, s, tradeId, timestamp);
      ReadAll(r, o.orderId, first.events) == After(r, o.side, first.trades, |s| - |first.makers|)
  {
    hide ReadAll;
    var first := TradeOnce(o, s, tradeId, timestamp);
    ReadTwo(r, o.orderId, first.events[0], first.events[1]);
    assert TradeEvents(first.trades) == [ToTradeEvent(first.trades[0])];
    var u := MakerUpdates(o.side, first.trades, |s| - |first.makers|);
    assert u == [u[0]];
    assert first.trades[1..] == [] && Volume(first.trades) == first.trades[0].quantity;
  }

  /** Reading the whole matching loop. */
  lemma {:induction false} ReadMatch(r: Reading, o: Order, s: seq<Order>, tradeId: nat, timestamp: nat)
    requires !HasId(s, o.orderId) && o.remainingQuantity < TWO_63
    ensures var m := Match(o, s, tradeId, timestamp);
      ReadAll(r, o.orderId, m.events) == After(r, o.side, m.trades, |s| - |m.makers|)
    decreases |s|, o.remainingQuantity
  {
    hide After, MakerUpdates, ReadAll;
    if CanTrade(o, s) {
      var first := TradeOnce(o, s, tradeId, timestamp);
      var rest := Match(first.taker, first.makers, tradeId + 1, timestamp + 1);
      assert s[0].orderId != o.orderId;
      assert forall i :: 0 < i < |s| ==> s[1..][i - 1] == s[i];
      MakersSuffix(first.taker, first.makers, tradeId + 1, timestamp + 1);
      ReadTrade(r, o, s, tradeId, timestamp);
      ReadConcat(r, o.orderId, first.events, rest.events);
      ReadMatch(ReadAll(r, o.orderId, first.events), first.taker, first.makers, tradeId + 1, timestamp + 1);
      AfterBoth(r, o.side, first.trades, rest.trades, |s| - |first.makers|, |first.makers| - |rest.makers|);
    } else {
      ReadNothing(r, o.orderId, o.side);
    }
  }

  lemma ReadNothing(r: Reading, orderId: nat, side: Side)
    ensures ReadAll(r, orderId, []) == After(r, side, [], 0)
  {
    assert r.result.trades + TradeEvents([]) == r.result.trades;
    assert r.result.orderUpdates + MakerUpdates(side, [], 0) == r.result.orderUpdates;
  }

  /** Reading the events of a placement gives the engine's true final values, without the reader
      having seen the engine: only the order's own id tells its events from the others'. */
  lemma ReadPlace(b: Book, o: Order, tradeId: nat, timestamp: nat, blank: EngineResult)
    requires !Rests(b, o.orderId)
    requires o.remainingQuantity == o.quantity && 0 < o.quantity < TWO_63
    requires blank.orderId == ToI64(o.orderId) && blank.status.ACCEPTED?
    requires blank.trades == [] && blank.orderUpdates == [] && blank.remainingQuantity == 0
    ensures var p := Place(b, o, tradeId, timestamp);
      var consumed := |b.On(o.side.Opposite())| - |p.book.On(o.side.Opposite())|;
      ReadAll(Reading(o.quantity, blank), o.orderId, p.events) ==
      Reading(p.taker.remainingQuantity,
              blank.(status := StatusOf(p.taker),
                     remainingQuantity := if StatusOf(p.taker).ACCEPTED? then 0 else p.taker.remainingQuantity,
                     trades := TradeEvents(p.trades),
                     orderUpdates := MakerUpdates(o.side, p.trades, consumed) + OwnUpdates(p.taker),
                     bookChanged := true))
  {
    hide ReadAll, Match, TradeEvents, MakerUpdates, Volume, ToI64;
    var s := b.On(o.side.Opposite());
    var m := Match(o, s, tradeId, timestamp);
    var own := OwnEvents(m.taker);
    var accepted, changed := [OrderAccepted(o.orderId)], [OrderBookChanged];
    var r0 := Reading(o.quantity, blank);
    MatchTaker(o, s, tradeId, timestamp);
    ReadConcat(r0, o.orderId, accepted + m.events + own, changed);
    ReadConcat(r0, o.orderId, accepted + m.events, own);
    ReadConcat(r0, o.orderId, accepted, m.events);
    ReadTwo(r0, o.orderId, accepted[0], accepted[0]);
    ReadMatch(r0, o, s, tradeId, timestamp);
    var r1 := ReadAll(r0, o.orderId, m.events);
    ReadOwn(r1, m.taker);
    ReadTwo(ReadAll(r1, o.orderId, own), o.orderId, OrderBookChanged, OrderBookChanged);
  }

  lemma ReadOwn(r: Reading, taker: Order)
    requires r.remaining == taker.remainingQuantity
    requires r.result.orderId == ToI64(taker.orderId)
    requires taker.remainingQuantity <= taker.quantity && taker.quantity > 0
    requires r.result.status.ACCEPTED? && r.result.remainingQuantity == 0
    ensures ReadAll(r, taker.orderId, OwnEvents(taker)) ==
      r.(result := r.result.(
        status := StatusOf(taker),
        remainingQuantity := if StatusOf(taker).ACCEPTED? then 0 else taker.remainingQuantity,
        orderUpdates := r.result.orderUpdates + OwnUpdates(taker)))
  {
    if OwnEvents(taker) != [] {
      ReadTwo(r, taker.orderId, OwnEvents(taker)[0], OrderBookChanged);
    }
  }

  // ---------- properties of the result ----------

  function SumQuantities(trades: seq<TradeEvent>): int {
    if trades == [] then 0 else trades[0].quantity + SumQuantities(trades[1..])
  }

  lemma {:induction false} SumOfTradeEvents(trades: seq<Trade>)
    requires Volume(trades) < TWO_63
    ensures SumQuantities(TradeEvents(trades)) == Volume(trades)
  {
    if trades != [] {
      assert TradeEvents(trades)[1..] == TradeEvents(trades[1..]);
      SumOfTradeEvents(trades[1..]);
    }
  }

  /** The quantities reported to the client add up to what was asked for. */
  lemma ReportedAddsUp(b: Book, o: Order, tradeId: nat, timestamp: nat)
    requires o.remainingQuantity == o.quantity < TWO_63
    ensures var p := Place(b, o, tradeId, timestamp);
      SumQuantities(TradeEvents(p.trades)) == Volume(p.trades) &&
      SumQuantities(TradeEvents(p.trades)) + p.taker.remainingQuantity == o.quantity
  {
    MatchTaker(o, b.On(o.side.Opposite()), tradeId, timestamp);
    SumOfTradeEvents(Place(b, o, tradeId, timestamp).trades);
  }

  lemma MatchTrades(side: Side, o: Order, s: seq<Order>, tradeId: nat, timestamp: nat)
    requires Live(side, s) && CanTrade(o, s)
    ensures Volume(Match(o, s, tradeId, timestamp).trades) > 0
  {
    WorkBound(side, o, s, tradeId, timestamp);
    VolumeAtLeast(Match(o, s, tradeId, timestamp).trades);
  }

  /** A MARKET order is left untouched exactly when there is nothing on the other side. */
  lemma UntouchedIff(b: Book, o: Order, tradeId: nat, timestamp: nat)
    requires BookInv(b)
    requires o.orderType.MARKET? && o.remainingQuantity == o.quantity > 0
    ensures var p := Place(b, o, tradeId, timestamp);
      (p.taker.remainingQuantity == o.quantity <==> b.On(o.side.Opposite()) == []) &&
      (b.On(o.side.Opposite()) == [] ==> p.book == b && p.trades == [])
  {
    var s := b.On(o.side.Opposite());
    MatchTaker(o, s, tradeId, timestamp);
    if s != [] {
      MatchTrades(o.side.Opposite(), o, s, tradeId, timestamp);
    }
  }

  // ---------- the finished result ----------

  function Blank(orderId: int): EngineResult {
    EngineResult(true, "", orderId, 0, ACCEPTED, [], [], false)
  }

  const NO_LIQUIDITY: string := "No liquidity for market order"

  /** What the adapter does once the events are read: an order without fills rests, or is rejected
      if it is a MARKET order. */
  function Finish(r: Reading, orderType: OrderType, quantity: int): EngineResult {
    if !r.result.status.ACCEPTED? then r.result
    else
      var result := r.result.(remainingQuantity := r.remaining);
      if orderType.MARKET? && r.remaining == quantity
      then result.(accepted := false, rejectReason := NO_LIQUIDITY)
      else result
  }

  /** The result the adapter reads from the events of one placement. */
  function ResultFrom(order: Order, events: seq<Event>): EngineResult {
    Finish(ReadAll(Reading(order.quantity, Blank(ToI64(order.orderId))), order.orderId, events),
           order.orderType, order.quantity)
  }

  /** A MARKET order with nothing to trade against. */
  predicate NoLiquidity(b: Book, o: Order) {
    o.orderType.MARKET? && b.On(o.side.Opposite()) == []
  }

  /** The trades of a result are the engine's own, in order, with their true numbers, prices and quantities. */
  ghost predicate TradesTold(told: seq<TradeEvent>, trades: seq<Trade>) {
    |told| == |trades| &&
    forall i :: 0 <= i < |trades| ==>
      told[i].tradeId == ToI64(trades[i].tradeId) &&
      told[i].price == trades[i].price &&
      told[i].quantity == trades[i].quantity
  }

  /** One update per resting order touched, in the order of the book: filled if it is gone, else with the
      sentinel -1. The incoming order's own update, if its status has changed, comes last. */
  ghost predicate UpdatesTold(updates: seq<OrderUpdateEvent>, o: Order, was: seq<Order>, left: seq<Order>,
                              touched: nat, remaining: nat)
  {
    touched <= |was| &&
    |updates| == touched + (if remaining == o.quantity then 0 else 1) &&
    (forall i :: 0 <= i < touched ==>
      updates[i].orderId == ToI64(was[i].orderId) &&
      (i < |was| - |left| ==> updates[i].status == FILLED && updates[i].remainingQuantity == 0) &&
      (i >= |was| - |left| ==> updates[i].status == PARTIALLY_FILLED && updates[i].remainingQuantity == -1)) &&
    (remaining != o.quantity ==>
      updates[touched].orderId == ToI64(o.orderId) &&
      updates[touched].status == (if remaining == 0 then FILLED else PARTIALLY_FILLED) &&
      updates[touched].remainingQuantity == remaining)
  }

  /** What the client is told, in terms of what the engine did. */
  ghost predicate ResultOf(result: EngineResult, b: Book, o: Order, p: Placed) {
    && result.orderId == ToI64(o.orderId)
    && result.remainingQuantity == p.taker.remainingQuantity <= o.quantity
    && (result.status.FILLED? <==> p.taker.remainingQuantity == 0)
    && (result.status.PARTIALLY_FILLED? <==> 0 < p.taker.remainingQuantity < o.quantity)
    && (result.status.ACCEPTED? <==> p.taker.remainingQuantity == o.quantity)
    && (result.accepted <==> !(o.orderType.MARKET? && b.On(o.side.Opposite()) == []))
    && result.rejectReason == (if result.accepted then "" else "No liquidity for market order")
    && TradesTold(result.trades, p.trades)
    && SumQuantities(result.trades) == Volume(p.trades)
    && SumQuantities(result.trades) + result.remainingQuantity == o.quantity
    && UpdatesTold(result.orderUpdates, o, b.On(o.side.Opposite()), p.book.On(o.side.Opposite()), |p.trades|,
                   p.taker.remainingQuantity)
    && result.bookChanged
    && (!result.accepted ==> p.book == b && p.trades == [])
  }

  lemma TradeEventsTold(trades: seq<Trade>)
    requires Volume(trades) < TWO_63
    ensures TradesTold(TradeEvents(trades), trades)
  {
    QuantityBound(trades);
  }

  lemma {:induction false} QuantityBound(trades: seq<Trade>)
    ensures forall i :: 0 <= i < |trades| ==> trades[i].quantity <= Volume(trades)
  {
    if trades != [] {
      QuantityBound(trades[1..]);
      assert forall i :: 0 < i < |trades| ==> trades[i] == trades[1..][i - 1];
    }
  }

  lemma MakerUpdatesTold(o: Order, s: seq<Order>, tradeId: nat, timestamp: nat)
    requires 0 < o.quantity < TWO_63 && o.remainingQuantity == o.quantity
    ensures var m := Match(o, s, tradeId, timestamp);
      UpdatesTold(MakerUpdates(o.side, m.trades, |s| - |m.makers|) + OwnUpdates(m.taker), o, s, m.makers,
                  |m.trades|, m.taker.remainingQuantity)
  {
    hide Match;
    MatchShape(o, s, tradeId, timestamp);
    MatchTaker(o, s, tradeId, timestamp);
  }

  /** The finished result reports the engine's true final values, and rejection means that a
      MARKET order met an empty opposite side and nothing happened. */
  lemma FinishPlace(b: Book, o: Order, tradeId: nat, timestamp: nat)
    requires BookInv(b) && !Rests(b, o.orderId)
    requires o.remainingQuantity == o.quantity && 0 < o.quantity < TWO_63
    ensures var p := Place(b, o, tradeId, timestamp);
      ResultOf(ResultFrom(o, p.events), b, o, p)
  {
    hide Match, ReadAll, MakerUpdates, TradeEvents, BookInv, TradesTold, UpdatesTold;
    var opposite := o.side.Opposite();
    ReadPlace(b, o, tradeId, timestamp, Blank(ToI64(o.orderId)));
    ReportedAddsUp(b, o, tradeId, timestamp);
    MatchTaker(o, b.On(opposite), tradeId, timestamp);
    TradeEventsTold(Place(b, o, tradeId, timestamp).trades);
    MakerUpdatesTold(o, b.On(opposite), tradeId, timestamp);
    if o.orderType.MARKET? { UntouchedIff(b, o, tradeId, timestamp); }
  }

  /** At most one update of a result carries the sentinel -1. It is that of the last resting order
      touched, it is there exactly when that order is left partly filled, and it names that order. */
  lemma SentinelLast(b: Book, o: Order, tradeId: nat, timestamp: nat, i: nat)
    requires BookInv(b) && !Rests(b, o.orderId)
    requires o.remainingQuantity == o.quantity && 0 < o.quantity < TWO_63
    ensures var p := Place(b, o, tradeId, timestamp);
      var updates := ResultFrom(o, p.events).orderUpdates;
      var was, left := b.On(o.side.Opposite()), p.book.On(o.side.Opposite());
      i < |updates| ==>
        (updates[i].remainingQuantity == -1 <==> i == |p.trades| - 1 && |left| + |p.trades| > |was|) &&
        (updates[i].remainingQuantity == -1 ==>
          left != [] && i < |was| && left[0].orderId == was[i].orderId &&
          0 < left[0].remainingQuantity < was[i].remainingQuantity &&
          updates[i] == OrderUpdateEvent(ToI64(left[0].orderId), PARTIALLY_FILLED, -1))
  {
    hide Match, ReadAll, BookInv, ResultFrom;
    var s := b.On(o.side.Opposite());
    FinishPlace(b, o, tradeId, timestamp);
    MatchShape(o, s, tradeId, timestamp);
  }

  // ---------- fresh ids ----------

  /** Every id in the book and in the trade history is below `id`. */
  ghost predicate IdsBelow(b: Book, trades: seq<Trade>, id: int) {
    (forall i :: 0 <= i < |b.bids| ==> b.bids[i].orderId < id) &&
    (forall i :: 0 <= i < |b.asks| ==> b.asks[i].orderId < id) &&
    (forall i :: 0 <= i < |trades| ==> trades[i].buyOrderId < id && trades[i].sellOrderId < id)
  }

  lemma FreshDoesNotRest(b: Book, trades: seq<Trade>, id: nat)
    requires IdsBelow(b, trades, id)
    ensures !Rests(b, id)
  {
  }

  ghost predicate AllBelow(s: seq<Order>, id: int) {
    forall i :: 0 <= i < |s| ==> s[i].orderId < id
  }

  lemma MatchBelow(o: Order, s: seq<Order>, tradeId: nat, timestamp: nat)
    requires AllBelow(s, o.orderId)
    ensures var m := Match(o, s, tradeId, timestamp);
      AllBelow(m.makers, o.orderId) &&
      forall i :: 0 <= i < |m.trades| ==> m.trades[i].buyOrderId <= o.orderId && m.trades[i].sellOrderId <= o.orderId
  {
    MatchShape(o, s, tradeId, timestamp);
    MakersSuffix(o, s, tradeId, timestamp);
  }

  lemma RestBelow(s: seq<Order>, taker: Order)
    requires AllBelow(s, taker.orderId)
    ensures AllBelow(Rest(s, taker), taker.orderId + 1)
  {
    InsertFrom(s, taker);
  }

  /** Numbering orders consecutively keeps the next number above everything used so far. */
  lemma PlaceKeepsFresh(b: Book, trades: seq<Trade>, o: Order, tradeId: nat, timestamp: nat)
    requires IdsBelow(b, trades, o.orderId)
    ensures var p := Place(b, o, tradeId, timestamp);
      IdsBelow(p.book, trades + p.trades, o.orderId + 1)
  {
    var opposite := o.side.Opposite();
    MatchTaker(o, b.On(opposite), tradeId, timestamp);
    MatchBelow(o, b.On(opposite), tradeId, timestamp);
    RestBelow(b.On(o.side), Match(o, b.On(opposite), tradeId, timestamp).taker);
  }

  lemma CancelKeepsFresh(b: Book, trades: seq<Trade>, id: nat, next: int)
    requires BookInv(b) && IdsBelow(b, trades, next)
    ensures IdsBelow(CancelBook(b, id), trades, next)
  {
    WithoutInv(BUY, b.bids, id);
    WithoutInv(SELL, b.asks, id);
  }
}
