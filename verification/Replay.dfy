/** Event sourcing: the event vector alone, applied to the old view of open orders,
    rebuilds the new book. The reader of the events knows only ids and trades. */
module Replay {
  import opened Types
  import opened FlatBook
  import opened FlatLemmas
  import opened Matching
  import opened History

  /** The reader's view: the open orders, and the submitted order while its call is being read. */
  datatype View = View(book: Book, pending: Option<Order>)

  function Reduce(o: Order, quantity: nat): Order {
    Fill(o, Min(quantity, o.remainingQuantity))
  }

  function ReduceId(s: seq<Order>, id: nat, quantity: nat): (r: seq<Order>)
    ensures |r| == |s|
  {
    if s == [] then []
    else [if s[0].orderId == id then Reduce(s[0], quantity) else s[0]] + ReduceId(s[1..], id, quantity)
  }

  function ReduceBook(b: Book, id: nat, quantity: nat): Book {
    Book(ReduceId(b.bids, id, quantity), ReduceId(b.asks, id, quantity))
  }

  function Apply(v: View, submitted: Order, e: Event): View {
    match e
    case OrderAccepted(id) => if id == submitted.orderId then v.(pending := Some(submitted)) else v
    case OrderCancelled(id) => v.(book := CancelBook(v.book, id))
    case TradeExecuted(t) =>
      var resting := if submitted.side.BUY? then t.sellOrderId else t.buyOrderId;
      View(ReduceBook(v.book, resting, t.quantity),
           if v.pending.Some? then Some(Reduce(v.pending.value, t.quantity)) else None)
    case OrderPartiallyFilled(id) => v
    case OrderCompletelyFilled(id) =>
      if v.pending.Some? && v.pending.value.orderId == id then v.(pending := None)
      else v.(book := CancelBook(v.book, id))
    case OrderBookChanged =>
      if v.pending.Some? && v.pending.value.orderType.LIMIT? then
        var o := v.pending.value;
        View(v.book.With(o.side, Insert(v.book.On(o.side), o)), None)
      else v.(pending := None)
  }

  function ApplyAll(v: View, submitted: Order, events: seq<Event>): View
    decreases |events|
  {
    if events == [] then v else ApplyAll(Apply(v, submitted, events[0]), submitted, events[1..])
  }

  lemma {:induction false} ApplyConcat(v: View, submitted: Order, a: seq<Event>, b: seq<Event>)
    ensures ApplyAll(v, submitted, a + b) == ApplyAll(ApplyAll(v, submitted, a), submitted, b)
    decreases |a|
  {
    if a == [] {
      assert a + b == b;
    } else {
      assert (a + b)[1..] == a[1..] + b;
      ApplyConcat(Apply(v, submitted, a[0]), submitted, a[1..], b);
    }
  }

  lemma ApplyTwo(v: View, submitted: Order, e: Event, f: Event)
    ensures ApplyAll(v, submitted, [e]) == Apply(v, submitted, e)
    ensures ApplyAll(v, submitted, [e, f]) == Apply(Apply(v, submitted, e), submitted, f)
  {
    assert [e, f][1..] == [f] && [f][1..] == [] && [e][1..] == [];
    var w := Apply(v, submitted, e);
    assert ApplyAll(w, submitted, [f]) == ApplyAll(Apply(w, submitted, f), submitted, []);
  }

  lemma {:induction false} ReduceAbsent(s: seq<Order>, id: nat, quantity: nat)
    requires !HasId(s, id)
    ensures ReduceId(s, id, quantity) == s
  {
    if s != [] {
      assert s[0].orderId != id;
      assert forall i :: 0 <= i < |s| - 1 ==> s[1..][i] == s[i + 1];
      ReduceAbsent(s[1..], id, quantity);
    }
  }

  /** Only the front order has its own id. */
  lemma FrontById(s: seq<Order>, quantity: nat)
    requires s != [] && DistinctIds(s)
    ensures ReduceId(s, s[0].orderId, quantity) == [Reduce(s[0], quantity)] + s[1..]
    ensures forall o: Order :: o.orderId == s[0].orderId ==> Without([o] + s[1..], s[0].orderId) == s[1..]
  {
    assert !HasId(s[1..], s[0].orderId);
    ReduceAbsent(s[1..], s[0].orderId, quantity);
    WithoutAbsent(s[1..], s[0].orderId);
  }

  /** Distinct ids on the side matched against, none of them on the own side or the order's own. */
  ghost predicate Readable(o: Order, own: seq<Order>, opposite: seq<Order>) {
    DistinctIds(opposite) && DisjointIds(own, opposite) && !HasId(opposite, o.orderId)
  }

  ghost function ViewOf(own: seq<Order>, opposite: seq<Order>, o: Order): View {
    View(EMPTY.With(o.side, own).With(o.side.Opposite(), opposite), Some(o))
  }

  lemma ReplayTrade(own: seq<Order>, s: seq<Order>, submitted: Order, o: Order, tradeId: nat, timestamp: nat)
    requires Readable(o, own, s) && CanTrade(o, s)
    requires submitted.side == o.side && submitted.orderId == o.orderId
    ensures var first := TradeOnce(o, s, tradeId, timestamp);
      ApplyAll(ViewOf(own, s, o), submitted, first.events) == ViewOf(own, first.makers, first.taker) &&
      Readable(first.taker, own, first.makers)
  {
    hide ApplyAll, Without, ReduceId;
    var first := TradeOnce(o, s, tradeId, timestamp);
    var q := Min(o.remainingQuantity, s[0].remainingQuantity);
    var id := s[0].orderId;
    FrontById(s, q);
    assert !HasId(own, id);
    ReduceAbsent(own, id, q);
    WithoutAbsent(own, id);
    var v := ViewOf(own, s, o);
    var v1 := Apply(v, submitted, first.events[0]);
    assert v1 == ViewOf(own, [Reduce(s[0], q)] + s[1..], first.taker);
    assert Apply(v1, submitted, first.events[1]) == ViewOf(own, first.makers, first.taker);
    ApplyTwo(v, submitted, first.events[0], first.events[1]);
  }

  lemma {:induction false} ReplayMatch(own: seq<Order>, s: seq<Order>, submitted: Order, o: Order,
                                       tradeId: nat, timestamp: nat)
    requires Readable(o, own, s)
    requires submitted.side == o.side && submitted.orderId == o.orderId
    ensures var r := Match(o, s, tradeId, timestamp);
      ApplyAll(ViewOf(own, s, o), submitted, r.events) == ViewOf(own, r.makers, r.taker)
    decreases |s|, o.remainingQuantity
  {
    if CanTrade(o, s) {
      var first := TradeOnce(o, s, tradeId, timestamp);
      var rest := Match(first.taker, first.makers, tradeId + 1, timestamp + 1);
      ReplayTrade(own, s, submitted, o, tradeId, timestamp);
      ReplayMatch(own, first.makers, submitted, first.taker, tradeId + 1, timestamp + 1);
      ApplyConcat(ViewOf(own, s, o), submitted, first.events, rest.events);
    }
  }

  /** The events after the last trade: the order's own fill and the book change. */
  lemma ReplayEnd(own: seq<Order>, s: seq<Order>, submitted: Order, o: Order)
    requires !HasId(own, o.orderId)
    ensures ApplyAll(ViewOf(own, s, o), submitted, OwnEvents(o) + [OrderBookChanged]) ==
            View(ViewOf(Rest(own, o), s, o).book, None)
  {
    var v := ViewOf(own, s, o);
    var end := [OrderBookChanged];
    var own' := OwnEvents(o);
    ApplyConcat(v, submitted, own', end);
    if own' != [] { ApplyTwo(v, submitted, own'[0], OrderBookChanged); }
    ApplyTwo(ApplyAll(v, submitted, own'), submitted, OrderBookChanged, OrderBookChanged);
  }

  /** Replaying the events of a placement rebuilds the new book exactly: orders, remaining
      quantities and priority. */
  lemma PlaceReplays(b: Book, o: Order, tradeId: nat, timestamp: nat)
    requires BookInv(b) && !Rests(b, o.orderId)
    ensures var p := Place(b, o, tradeId, timestamp);
      ApplyAll(View(b, None), o, p.events) == View(p.book, None)
  {
    var p := Place(b, o, tradeId, timestamp);
    var own, s := b.On(o.side), b.On(o.side.Opposite());
    var m := Match(o, s, tradeId, timestamp);
    var accepted := [OrderAccepted(o.orderId)];
    assert DisjointIds(own, s);
    MatchTaker(o, s, tradeId, timestamp);
    ApplyConcat(View(b, None), o, accepted, m.events + (OwnEvents(m.taker) + [OrderBookChanged]));
    assert p.events == accepted + (m.events + (OwnEvents(m.taker) + [OrderBookChanged]));
    ApplyTwo(View(b, None), o, accepted[0], accepted[0]);
    ReplayMatch(own, s, o, o, tradeId, timestamp);
    ApplyConcat(ViewOf(own, s, o), o, m.events, OwnEvents(m.taker) + [OrderBookChanged]);
    ReplayEnd(own, m.makers, o, m.taker);
  }

  /** So do the events of a cancellation, found or not. */
  lemma CancelReplays(b: Book, id: nat, submitted: Order)
    ensures ApplyAll(View(b, None), submitted, CancelEvents(b, id)) == View(CancelBook(b, id), None)
  {
    if Rests(b, id) {
      ApplyTwo(View(b, None), submitted, OrderCancelled(id), OrderBookChanged);
    } else {
      WithoutAbsent(b.bids, id);
      WithoutAbsent(b.asks, id);
    }
  }

  // ---------- whole runs ----------

  /** One call as the reader sees it: the command and the events it returned. */
  datatype Call = Call(command: Command, events: seq<Event>)

  function EventsOf(e: Engine, c: Command): seq<Event> {
    match c
    case Submit(o) => Place(e.book, o, e.nextTradeId, e.nextTimestamp).events
    case Cancel(id) => CancelEvents(e.book, id)
  }

  function Transcript(cmds: seq<Command>): seq<Call> {
    if cmds == [] then []
    else
      var before, c := cmds[..|cmds| - 1], cmds[|cmds| - 1];
      Transcript(before) + [Call(c, EventsOf(Run(before), c))]
  }

  /** Stands for the submitted order while the events of a cancellation are read. */
  const NO_ORDER := Order(0, BUY, LIMIT, 0.0, 0, 0, 0)

  function ReadCall(v: View, call: Call): View {
    ApplyAll(v, if call.command.Submit? then call.command.order else NO_ORDER, call.events)
  }

  function ReadCalls(v: View, calls: seq<Call>): View {
    if calls == [] then v else ReadCall(ReadCalls(v, calls[..|calls| - 1]), calls[|calls| - 1])
  }

  /** Reading the events of a whole legal run from the empty view rebuilds the engine's book. */
  lemma {:induction false} RunReplays(cmds: seq<Command>)
    requires Legal(cmds)
    ensures ReadCalls(View(EMPTY, None), Transcript(cmds)) == View(Run(cmds).book, None)
  {
    if cmds != [] {
      var before, c := cmds[..|cmds| - 1], cmds[|cmds| - 1];
      LegalInit(cmds);
      RunReplays(before);
      RunInv(before);
      var e := Run(before);
      assert Transcript(cmds)[..|Transcript(before)|] == Transcript(before);
      match c
      case Submit(o) =>
        if Rests(e.book, o.orderId) { RestsSubmitted(before, e, o.orderId); }
        PlaceReplays(e.book, o, e.nextTradeId, e.nextTimestamp);
      case Cancel(id) =>
        CancelReplays(e.book, id, NO_ORDER);
    }
  }
}
