/** The two hand-written branches are mirror images: swapping sides and negating prices
    commutes with every operation of the engine. */
module Mirror {
  import opened Types
  import opened FlatBook
  import opened History

  function MirrorOrder(o: Order): Order {
    o.(side := o.side.Opposite(), price := -o.price)
  }

  function MirrorTrade(t: Trade): Trade {
    t.(buyOrderId := t.sellOrderId, sellOrderId := t.buyOrderId, price := -t.price)
  }

  function MirrorEvent(e: Event): Event {
    if e.TradeExecuted? then TradeExecuted(MirrorTrade(e.trade)) else e
  }

  function MirrorOrders(s: seq<Order>): (r: seq<Order>)
    ensures |r| == |s| && forall i :: 0 <= i < |s| ==> r[i] == MirrorOrder(s[i])
  {
    seq(|s|, i requires 0 <= i < |s| => MirrorOrder(s[i]))
  }

  function MirrorTrades(s: seq<Trade>): (r: seq<Trade>)
    ensures |r| == |s| && forall i :: 0 <= i < |s| ==> r[i] == MirrorTrade(s[i])
  {
    seq(|s|, i requires 0 <= i < |s| => MirrorTrade(s[i]))
  }

  function MirrorEvents(s: seq<Event>): (r: seq<Event>)
    ensures |r| == |s| && forall i :: 0 <= i < |s| ==> r[i] == MirrorEvent(s[i])
  {
    seq(|s|, i requires 0 <= i < |s| => MirrorEvent(s[i]))
  }

  function MirrorBook(b: Book): Book {
    Book(MirrorOrders(b.asks), MirrorOrders(b.bids))
  }

  function MirrorMatched(m: Matched): Matched {
    Matched(MirrorOrder(m.taker), MirrorOrders(m.makers), MirrorTrades(m.trades), MirrorEvents(m.events))
  }

  lemma MirrorTradeOnce(o: Order, s: seq<Order>, tradeId: nat, timestamp: nat)
    requires s != []
    ensures TradeOnce(MirrorOrder(o), MirrorOrders(s), tradeId, timestamp) ==
            MirrorMatched(TradeOnce(o, s, tradeId, timestamp))
  {
    var first := TradeOnce(o, s, tradeId, timestamp);
    var mirrored := TradeOnce(MirrorOrder(o), MirrorOrders(s), tradeId, timestamp);
    assert mirrored.taker == MirrorOrder(first.taker);
    assert mirrored.makers == MirrorOrders(first.makers);
    assert mirrored.trades == MirrorTrades(first.trades);
    assert mirrored.events == MirrorEvents(first.events);
  }

  lemma MirrorConcat(a: Matched, b: Matched)
    ensures MirrorTrades(a.trades + b.trades) == MirrorTrades(a.trades) + MirrorTrades(b.trades)
    ensures MirrorEvents(a.events + b.events) == MirrorEvents(a.events) + MirrorEvents(b.events)
  {
  }

  lemma {:induction false} MirrorMatch(o: Order, s: seq<Order>, tradeId: nat, timestamp: nat)
    ensures Match(MirrorOrder(o), MirrorOrders(s), tradeId, timestamp) ==
            MirrorMatched(Match(o, s, tradeId, timestamp))
    decreases |s|, o.remainingQuantity
  {
    assert CanTrade(MirrorOrder(o), MirrorOrders(s)) == CanTrade(o, s);
    hide MirrorOrders, MirrorTrades, MirrorEvents, TradeOnce;
    if CanTrade(o, s) {
      var first := TradeOnce(o, s, tradeId, timestamp);
      MirrorTradeOnce(o, s, tradeId, timestamp);
      MirrorMatch(first.taker, first.makers, tradeId + 1, timestamp + 1);
      var rest := Match(first.taker, first.makers, tradeId + 1, timestamp + 1);
      MirrorConcat(first, rest);
    } else {
      assert MirrorTrades([]) == [] && MirrorEvents([]) == [];
    }
  }

  lemma {:induction false} MirrorInsert(s: seq<Order>, o: Order)
    ensures Insert(MirrorOrders(s), MirrorOrder(o)) == MirrorOrders(Insert(s, o))
  {
    if s != [] {
      assert MirrorOrders(s)[1..] == MirrorOrders(s[1..]);
      MirrorInsert(s[1..], o);
    }
  }

  lemma {:induction false} MirrorWithout(s: seq<Order>, id: nat)
    ensures Without(MirrorOrders(s), id) == MirrorOrders(Without(s, id))
  {
    if s != [] {
      assert MirrorOrders(s)[1..] == MirrorOrders(s[1..]);
      MirrorWithout(s[1..], id);
    }
  }

  /** Placing the mirrored order on the mirrored book gives the mirrored book, order, trades and events. */
  lemma PlaceMirrors(b: Book, o: Order, tradeId: nat, timestamp: nat)
    ensures var p := Place(b, o, tradeId, timestamp);
      Place(MirrorBook(b), MirrorOrder(o), tradeId, timestamp) ==
      Placed(MirrorBook(p.book), MirrorOrder(p.taker), MirrorTrades(p.trades), MirrorEvents(p.events))
  {
    hide Match, MirrorOrders, MirrorTrades, MirrorEvents, Insert;
    var opposite := o.side.Opposite();
    var m := Match(o, b.On(opposite), tradeId, timestamp);
    MirrorSides(b, o.side);
    MirrorMatch(o, b.On(opposite), tradeId, timestamp);
    MirrorRest(b.On(o.side), m.taker);
    MirrorPlacedEvents(o.orderId, m);
  }

  lemma MirrorSides(b: Book, side: Side)
    ensures MirrorBook(b).On(side) == MirrorOrders(b.On(side.Opposite()))
    ensures MirrorBook(b).On(side.Opposite()) == MirrorOrders(b.On(side))
  {
  }

  lemma MirrorRest(s: seq<Order>, taker: Order)
    ensures Rest(MirrorOrders(s), MirrorOrder(taker)) == MirrorOrders(Rest(s, taker))
  {
    MirrorInsert(s, taker);
  }

  lemma MirrorPlacedEvents(id: nat, m: Matched)
    ensures MirrorEvents([OrderAccepted(id)] + m.events + OwnEvents(m.taker) + [OrderBookChanged]) ==
      [OrderAccepted(id)] + MirrorEvents(m.events) + OwnEvents(MirrorOrder(m.taker)) + [OrderBookChanged]
  {
  }

  lemma CancelMirrors(b: Book, id: nat)
    ensures CancelBook(MirrorBook(b), id) == MirrorBook(CancelBook(b, id))
    ensures CancelEvents(MirrorBook(b), id) == CancelEvents(b, id)
  {
    MirrorWithout(b.bids, id);
    MirrorWithout(b.asks, id);
    MirrorHasId(b.bids, id);
    MirrorHasId(b.asks, id);
  }

  lemma MirrorHasId(s: seq<Order>, id: nat)
    ensures HasId(MirrorOrders(s), id) == HasId(s, id)
  {
    if HasId(s, id) {
      var i :| 0 <= i < |s| && s[i].orderId == id;
      assert MirrorOrders(s)[i].orderId == id;
    }
  }

  // ---------- whole runs ----------

  function MirrorCommand(c: Command): Command {
    if c.Submit? then Submit(MirrorOrder(c.order)) else c
  }

  function MirrorCommands(cmds: seq<Command>): (r: seq<Command>)
    ensures |r| == |cmds| && forall i :: 0 <= i < |cmds| ==> r[i] == MirrorCommand(cmds[i])
  {
    seq(|cmds|, i requires 0 <= i < |cmds| => MirrorCommand(cmds[i]))
  }

  function MirrorEngine(e: Engine): Engine {
    e.(book := MirrorBook(e.book), trades := MirrorTrades(e.trades))
  }

  /** The mirrored commands lead to the mirrored book and the mirrored trade history, whatever
      the commands. */
  lemma {:induction false} RunMirrors(cmds: seq<Command>)
    ensures Run(MirrorCommands(cmds)) == MirrorEngine(Run(cmds))
  {
    hide Place, CancelBook, MirrorBook;
    if cmds == [] {
      MirrorNothing();
    } else {
      var before, c := cmds[..|cmds| - 1], cmds[|cmds| - 1];
      RunMirrors(before);
      assert MirrorCommands(cmds)[..|cmds| - 1] == MirrorCommands(before);
      var e := Run(before);
      match c
      case Submit(o) =>
        PlaceMirrors(e.book, o, e.nextTradeId, e.nextTimestamp);
        var p := Place(e.book, o, e.nextTradeId, e.nextTimestamp);
        assert MirrorTrades(e.trades + p.trades) == MirrorTrades(e.trades) + MirrorTrades(p.trades);
      case Cancel(id) =>
        CancelMirrors(e.book, id);
    }
  }

  lemma MirrorNothing()
    ensures MirrorEngine(INITIAL) == INITIAL
  {
    assert MirrorOrders([]) == [] && MirrorTrades([]) == [];
  }
}
