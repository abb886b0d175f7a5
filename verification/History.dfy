/** Whole runs of the engine: what holds after every sequence of placements and cancellations. */
module History {
  import opened Types
  import opened FlatBook
  import opened Matching
  import opened Ledger

  datatype Engine = Engine(book: Book, trades: seq<Trade>, nextTradeId: nat, nextTimestamp: nat)

  datatype Command = Submit(order: Order) | Cancel(orderId: nat)

  const INITIAL := Engine(EMPTY, [], 1, 1)

  function Step(e: Engine, c: Command): Engine {
    match c
    case Submit(order) =>
      var p := Place(e.book, order, e.nextTradeId, e.nextTimestamp);
      Engine(p.book, e.trades + p.trades, e.nextTradeId + |p.trades|, e.nextTimestamp + |p.trades|)
    case Cancel(orderId) => e.(book := CancelBook(e.book, orderId))
  }

  function Run(cmds: seq<Command>): Engine {
    if cmds == [] then INITIAL else Step(Run(cmds[..|cmds| - 1]), cmds[|cmds| - 1])
  }

  ghost predicate Submits(c: Command, id: nat) {
    c.Submit? && c.order.orderId == id
  }

  ghost predicate Submitted(cmds: seq<Command>, id: nat) {
    exists i :: 0 <= i < |cmds| && Submits(cmds[i], id)
  }

  ghost predicate SubmittedAs(cmds: seq<Command>, id: nat, side: Side) {
    exists i :: 0 <= i < |cmds| && Submits(cmds[i], id) && cmds[i].order.side == side
  }

  /** Callers give every order its own id and submit it unfilled with a positive quantity. */
  ghost predicate Legal(cmds: seq<Command>) {
    (forall i :: 0 <= i < |cmds| && cmds[i].Submit? ==>
      cmds[i].order.remainingQuantity == cmds[i].order.quantity > 0) &&
    forall i, j :: 0 <= i < j < |cmds| && cmds[i].Submit? && cmds[j].Submit? ==>
      cmds[i].order.orderId != cmds[j].order.orderId
  }

  lemma LegalInit(cmds: seq<Command>)
    requires Legal(cmds) && cmds != []
    ensures var c := cmds[|cmds| - 1];
      Legal(cmds[..|cmds| - 1]) && (c.Submit? ==> !Submitted(cmds[..|cmds| - 1], c.order.orderId))
  {
  }

  lemma SubmittedGrows(cmds: seq<Command>, id: nat, side: Side)
    requires cmds != []
    ensures SubmittedAs(cmds[..|cmds| - 1], id, side) ==> SubmittedAs(cmds, id, side)
    ensures Submitted(cmds[..|cmds| - 1], id) ==> Submitted(cmds, id)
  {
    if SubmittedAs(cmds[..|cmds| - 1], id, side) {
      var i :| 0 <= i < |cmds| - 1 && Submits(cmds[..|cmds| - 1][i], id) && cmds[..|cmds| - 1][i].order.side == side;
      assert Submits(cmds[i], id);
    }
    if Submitted(cmds[..|cmds| - 1], id) {
      var i :| 0 <= i < |cmds| - 1 && Submits(cmds[..|cmds| - 1][i], id);
      assert Submits(cmds[i], id);
    }
  }

  // ---------- the invariant of every run ----------

  /** Resting orders and both parties of every trade are submitted orders of the right side. */
  ghost predicate Sourced(cmds: seq<Command>, e: Engine) {
    (forall i :: 0 <= i < |e.book.bids| ==> SubmittedAs(cmds, e.book.bids[i].orderId, BUY)) &&
    (forall i :: 0 <= i < |e.book.asks| ==> SubmittedAs(cmds, e.book.asks[i].orderId, SELL)) &&
    (forall i :: 0 <= i < |e.trades| ==>
      SubmittedAs(cmds, e.trades[i].buyOrderId, BUY) && SubmittedAs(cmds, e.trades[i].sellOrderId, SELL))
  }

  /** Trades are numbered and stamped consecutively from 1, and each moves something. */
  ghost predicate Numbered(e: Engine) {
    e.nextTradeId == e.nextTimestamp == |e.trades| + 1 &&
    forall i :: 0 <= i < |e.trades| ==>
      e.trades[i].tradeId == e.trades[i].timestamp == i + 1 && e.trades[i].quantity > 0
  }

  lemma RestsSubmitted(cmds: seq<Command>, e: Engine, id: nat)
    requires Sourced(cmds, e) && Rests(e.book, id)
    ensures Submitted(cmds, id)
  {
    if HasId(e.book.bids, id) {
      var i :| 0 <= i < |e.book.bids| && e.book.bids[i].orderId == id;
      assert SubmittedAs(cmds, e.book.bids[i].orderId, BUY);
    } else {
      var i :| 0 <= i < |e.book.asks| && e.book.asks[i].orderId == id;
      assert SubmittedAs(cmds, e.book.asks[i].orderId, SELL);
    }
  }

  lemma StepNumbered(e: Engine, o: Order)
    requires BookInv(e.book) && Numbered(e)
    ensures Numbered(Step(e, Submit(o)))
  {
    var s := e.book.On(o.side.Opposite());
    MatchShape(o, s, e.nextTradeId, e.nextTimestamp);
    WorkBound(o.side.Opposite(), o, s, e.nextTradeId, e.nextTimestamp);
  }

  lemma SourcedGrows(cmds: seq<Command>, c: Command, e: Engine)
    requires Sourced(cmds, e)
    ensures Sourced(cmds + [c], e)
  {
    var cmds' := cmds + [c];
    assert cmds'[..|cmds'| - 1] == cmds;
    forall id, side ensures SubmittedAs(cmds, id, side) ==> SubmittedAs(cmds', id, side) {
      SubmittedGrows(cmds', id, side);
    }
  }

  ghost predicate From(cmds: seq<Command>, side: Side, s: seq<Order>) {
    forall i :: 0 <= i < |s| ==> SubmittedAs(cmds, s[i].orderId, side)
  }

  lemma MatchSourced(cmds: seq<Command>, o: Order, s: seq<Order>, tradeId: nat, timestamp: nat)
    requires SubmittedAs(cmds, o.orderId, o.side) && From(cmds, o.side.Opposite(), s)
    ensures var m := Match(o, s, tradeId, timestamp);
      From(cmds, o.side.Opposite(), m.makers) &&
      forall i :: 0 <= i < |m.trades| ==>
        SubmittedAs(cmds, m.trades[i].buyOrderId, BUY) && SubmittedAs(cmds, m.trades[i].sellOrderId, SELL)
  {
    MatchShape(o, s, tradeId, timestamp);
    MakersSuffix(o, s, tradeId, timestamp);
  }

  lemma RestSourced(cmds: seq<Command>, s: seq<Order>, taker: Order)
    requires From(cmds, taker.side, s) && SubmittedAs(cmds, taker.orderId, taker.side)
    ensures From(cmds, taker.side, Rest(s, taker))
  {
    InsertFrom(s, taker);
  }

  lemma StepSourced(cmds: seq<Command>, e: Engine, o: Order)
    requires Sourced(cmds, e)
    ensures Sourced(cmds + [Submit(o)], Step(e, Submit(o)))
  {
    var cmds' := cmds + [Submit(o)];
    SourcedGrows(cmds, Submit(o), e);
    assert Submits(cmds'[|cmds|], o.orderId);
    assert SubmittedAs(cmds', o.orderId, o.side);
    var s := e.book.On(o.side.Opposite());
    MatchTaker(o, s, e.nextTradeId, e.nextTimestamp);
    MatchSourced(cmds', o, s, e.nextTradeId, e.nextTimestamp);
    RestSourced(cmds', e.book.On(o.side), Match(o, s, e.nextTradeId, e.nextTimestamp).taker);
  }

  lemma StepCancelSourced(cmds: seq<Command>, e: Engine, id: nat)
    requires Sourced(cmds, e) && BookInv(e.book)
    ensures Sourced(cmds + [Cancel(id)], Step(e, Cancel(id)))
  {
    SourcedGrows(cmds, Cancel(id), e);
    WithoutInv(BUY, e.book.bids, id);
    WithoutInv(SELL, e.book.asks, id);
  }

  lemma InitialInv()
    ensures BookInv(INITIAL.book) && Sourced([], INITIAL) && Numbered(INITIAL)
  {
  }

  lemma CancelNumbered(e: Engine, id: nat)
    requires Numbered(e)
    ensures Numbered(Step(e, Cancel(id)))
  {
  }

  /** After every legal run the book is sorted, live and uncrossed, and every id in it or in the
      history was submitted. */
  lemma {:induction false} RunInv(cmds: seq<Command>)
    requires Legal(cmds)
    ensures BookInv(Run(cmds).book) && Sourced(cmds, Run(cmds)) && Numbered(Run(cmds))
  {
    hide BookInv, Sourced, Numbered, Place, CancelBook;
    if cmds == [] {
      InitialInv();
    } else {
      var before, c := cmds[..|cmds| - 1], cmds[|cmds| - 1];
      LegalInit(cmds);
      RunInv(before);
      var e := Run(before);
      assert cmds == before + [c];
      match c
      case Submit(o) =>
        if Rests(e.book, o.orderId) { RestsSubmitted(before, e, o.orderId); }
        PlaceKeepsInv(e.book, o, e.nextTradeId, e.nextTimestamp);
        StepNumbered(e, o);
        StepSourced(before, e, o);
      case Cancel(id) =>
        CancelKeepsInv(e.book, id);
        CancelNumbered(e, id);
        StepCancelSourced(before, e, id);
    }
  }

  // ---------- conservation ----------

  /** Quantity of a placement that is neither traded nor rests: the residual of a MARKET order. */
  function Discarded(e: Engine, o: Order): nat {
    if o.orderType.MARKET? then Place(e.book, o, e.nextTradeId, e.nextTimestamp).taker.remainingQuantity else 0
  }

  /** What one command takes out of circulation for an id. */
  function LostBy(e: Engine, c: Command, id: nat): nat {
    match c
    case Submit(o) => if o.orderId == id then Discarded(e, o) else 0
    case Cancel(x) => if x == id then Resting(e.book, id) else 0
  }

  function Asked(cmds: seq<Command>, id: nat): nat {
    if cmds == [] then 0
    else
      var c := cmds[|cmds| - 1];
      Asked(cmds[..|cmds| - 1], id) + if c.Submit? && c.order.orderId == id then c.order.quantity else 0
  }

  function Lost(cmds: seq<Command>, id: nat): nat {
    if cmds == [] then 0
    else Lost(cmds[..|cmds| - 1], id) + LostBy(Run(cmds[..|cmds| - 1]), cmds[|cmds| - 1], id)
  }

  /** One placement: the incoming order's quantity is traded, rests or is discarded; what any
      other order loses it trades. */
  lemma PlaceConserves(e: Engine, o: Order, id: nat)
    requires !Rests(e.book, o.orderId)
    ensures var p := Place(e.book, o, e.nextTradeId, e.nextTimestamp);
      Traded(p.trades, id) + Resting(p.book, id) + LostBy(e, Submit(o), id) ==
      Resting(e.book, id) + if id == o.orderId then o.remainingQuantity else 0
  {
    var own, s := e.book.On(o.side), e.book.On(o.side.Opposite());
    var m := Match(o, s, e.nextTradeId, e.nextTimestamp);
    MatchTaker(o, s, e.nextTradeId, e.nextTimestamp);
    RemainingInsert(own, m.taker, id);
    if id == o.orderId {
      TakerConserved(o, s, e.nextTradeId, e.nextTimestamp);
      MakersSuffix(o, s, e.nextTradeId, e.nextTimestamp);
      assert !HasId(m.makers, id);
      RemainingAbsent(m.makers, id);
      RemainingAbsent(s, id);
      RemainingAbsent(own, id);
    } else {
      MakerConserved(o, s, e.nextTradeId, e.nextTimestamp, id);
    }
  }

  lemma StepConserves(e: Engine, c: Command, id: nat)
    requires c.Submit? ==> !Rests(e.book, c.order.orderId)
    ensures var e' := Step(e, c);
      Traded(e'.trades, id) + Resting(e'.book, id) + LostBy(e, c, id) ==
      Traded(e.trades, id) + Resting(e.book, id) +
        if c.Submit? && c.order.orderId == id then c.order.remainingQuantity else 0
  {
    match c
    case Submit(o) =>
      PlaceConserves(e, o, id);
      TradesConcat(e.trades, Place(e.book, o, e.nextTradeId, e.nextTimestamp).trades, id);
    case Cancel(x) =>
      RemainingWithout(e.book.bids, x, id);
      RemainingWithout(e.book.asks, x, id);
  }

  /** For every id and after every legal run: what was asked for is what was traded, what still
      rests, and what was cancelled or discarded. */
  lemma {:induction false} Conservation(cmds: seq<Command>, id: nat)
    requires Legal(cmds)
    ensures Asked(cmds, id) == Traded(Run(cmds).trades, id) + Resting(Run(cmds).book, id) + Lost(cmds, id)
  {
    if cmds != [] {
      var before, c := cmds[..|cmds| - 1], cmds[|cmds| - 1];
      LegalInit(cmds);
      Conservation(before, id);
      RunInv(before);
      if c.Submit? && Rests(Run(before).book, c.order.orderId) {
        RestsSubmitted(before, Run(before), c.order.orderId);
      }
      StepConserves(Run(before), c, id);
    }
  }

  // ---------- both sides of the history ----------

  /** Everything the submitted orders of one side traded on that side of the history. */
  function SideTotal(cmds: seq<Command>, side: Side, trades: seq<Trade>): nat {
    if cmds == [] then 0
    else
      var c := cmds[0];
      (if c.Submit? && c.order.side == side
       then if side.BUY? then Bought(trades, c.order.orderId) else Sold(trades, c.order.orderId)
       else 0) + SideTotal(cmds[1..], side, trades)
  }

  lemma {:induction false} SideTotalConcat(cmds: seq<Command>, side: Side, a: seq<Trade>, b: seq<Trade>)
    ensures SideTotal(cmds, side, a + b) == SideTotal(cmds, side, a) + SideTotal(cmds, side, b)
  {
    if cmds != [] {
      if cmds[0].Submit? { TradesConcat(a, b, cmds[0].order.orderId); }
      SideTotalConcat(cmds[1..], side, a, b);
    }
  }

  function Party(t: Trade, side: Side): nat {
    if side.BUY? then t.buyOrderId else t.sellOrderId
  }

  lemma {:induction false} SideTotalAbsent(cmds: seq<Command>, side: Side, t: Trade)
    requires !Submitted(cmds, Party(t, side))
    ensures SideTotal(cmds, side, [t]) == 0
  {
    if cmds != [] {
      assert !Submits(cmds[0], Party(t, side));
      assert forall i :: 0 <= i < |cmds| - 1 ==> cmds[1..][i] == cmds[i + 1];
      SideTotalAbsent(cmds[1..], side, t);
      if cmds[0].Submit? { OneTrade(t, cmds[0].order.orderId); }
    }
  }

  /** A trade is counted exactly once: its party on this side was submitted once. */
  lemma {:induction false} SideTotalOne(cmds: seq<Command>, side: Side, t: Trade)
    requires Legal(cmds) && SubmittedAs(cmds, Party(t, side), side)
    ensures SideTotal(cmds, side, [t]) == t.quantity
  {
    var i :| 0 <= i < |cmds| && Submits(cmds[i], Party(t, side)) && cmds[i].order.side == side;
    if cmds[0].Submit? { OneTrade(t, cmds[0].order.orderId); }
    if i == 0 {
      assert !Submitted(cmds[1..], Party(t, side));
      SideTotalAbsent(cmds[1..], side, t);
    } else {
      assert cmds[1..][i - 1] == cmds[i];
      assert cmds[0].Submit? ==> cmds[0].order.orderId != Party(t, side);
      SideTotalOne(cmds[1..], side, t);
    }
  }

  lemma {:induction false} SideTotalVolume(cmds: seq<Command>, side: Side, trades: seq<Trade>)
    requires Legal(cmds)
    requires forall i :: 0 <= i < |trades| ==> SubmittedAs(cmds, Party(trades[i], side), side)
    ensures SideTotal(cmds, side, trades) == Volume(trades)
  {
    if trades == [] {
      SideTotalNothing(cmds, side);
    } else {
      assert trades == [trades[0]] + trades[1..];
      SideTotalOne(cmds, side, trades[0]);
      SideTotalVolume(cmds, side, trades[1..]);
      SideTotalConcat(cmds, side, [trades[0]], trades[1..]);
    }
  }

  lemma {:induction false} SideTotalNothing(cmds: seq<Command>, side: Side)
    ensures SideTotal(cmds, side, []) == 0
  {
    if cmds != [] { SideTotalNothing(cmds[1..], side); }
  }

  /** After every legal run, total bought equals total sold equals the traded volume. */
  lemma BoughtEqualsSold(cmds: seq<Command>)
    requires Legal(cmds)
    ensures SideTotal(cmds, BUY, Run(cmds).trades) == Volume(Run(cmds).trades)
    ensures SideTotal(cmds, SELL, Run(cmds).trades) == Volume(Run(cmds).trades)
  {
    RunInv(cmds);
    SideTotalVolume(cmds, BUY, Run(cmds).trades);
    SideTotalVolume(cmds, SELL, Run(cmds).trades);
  }

  // ---------- orders that have left the book ----------

  ghost predicate Names(t: Trade, id: nat) {
    t.buyOrderId == id || t.sellOrderId == id
  }

  /** A step brings no order into the book but the one submitted, keeps an order on its side,
      and trades with no other. */
  lemma StepOrigins(e: Engine, c: Command, id: nat, side: Side)
    requires c.Submit? ==> c.order.orderId != id
    ensures HasId(Step(e, c).book.On(side), id) ==> HasId(e.book.On(side), id)
    ensures |e.trades| <= |Step(e, c).trades| && Step(e, c).trades[..|e.trades|] == e.trades
    ensures forall i :: |e.trades| <= i < |Step(e, c).trades| && Names(Step(e, c).trades[i], id) ==> Rests(e.book, id)
  {
    hide Match, Rest, Without;
    match c
    case Submit(o) =>
      var own, s := e.book.On(o.side), e.book.On(o.side.Opposite());
      var m := Match(o, s, e.nextTradeId, e.nextTimestamp);
      MatchTaker(o, s, e.nextTradeId, e.nextTimestamp);
      MatchOrigins(o, s, e.nextTradeId, e.nextTimestamp, id);
      RestOrigins(own, m.taker, id);
    case Cancel(x) =>
      WithoutOrigins(e.book.bids, x, id);
      WithoutOrigins(e.book.asks, x, id);
  }

  lemma MatchOrigins(o: Order, s: seq<Order>, tradeId: nat, timestamp: nat, id: nat)
    requires o.orderId != id
    ensures var m := Match(o, s, tradeId, timestamp);
      (HasId(m.makers, id) ==> HasId(s, id)) &&
      forall i :: 0 <= i < |m.trades| && Names(m.trades[i], id) ==> HasId(s, id)
  {
    MatchShape(o, s, tradeId, timestamp);
    MakersSuffix(o, s, tradeId, timestamp);
  }

  lemma RestOrigins(s: seq<Order>, taker: Order, id: nat)
    requires taker.orderId != id
    ensures HasId(Rest(s, taker), id) ==> HasId(s, id)
  {
    InsertFrom(s, taker);
  }

  lemma {:induction false} WithoutOrigins(s: seq<Order>, x: nat, id: nat)
    ensures HasId(Without(s, x), id) ==> HasId(s, id)
  {
    if s != [] && HasId(Without(s, x), id) {
      WithoutOrigins(s[1..], x, id);
      if s[0].orderId == id {
      } else if s[0].orderId == x {
        var i :| 0 <= i < |s[1..]| && s[1..][i].orderId == id;
        assert s[i + 1].orderId == id;
      } else {
        var r := Without(s, x);
        var i :| 0 <= i < |r| && r[i].orderId == id;
        assert Without(s[1..], x)[i - 1].orderId == id;
        var j :| 0 <= j < |s[1..]| && s[1..][j].orderId == id;
        assert s[j + 1].orderId == id;
      }
    }
  }

  /** Once an order has been filled or cancelled, it never rests again and no later trade names it. */
  lemma {:induction false} GoneStaysGone(cmds: seq<Command>, i: nat, id: nat)
    requires Legal(cmds) && i <= |cmds|
    requires Submitted(cmds[..i], id) && !Rests(Run(cmds[..i]).book, id)
    ensures !Rests(Run(cmds).book, id)
    ensures var e, e' := Run(cmds[..i]), Run(cmds);
      |e.trades| <= |e'.trades| && e'.trades[..|e.trades|] == e.trades &&
      forall k :: |e.trades| <= k < |e'.trades| ==> !Names(e'.trades[k], id)
    decreases |cmds|
  {
    if i == |cmds| {
      assert cmds[..i] == cmds;
    } else {
      var before, c := cmds[..|cmds| - 1], cmds[|cmds| - 1];
      LegalInit(cmds);
      assert before[..i] == cmds[..i];
      GoneStaysGone(before, i, id);
      NotResubmitted(cmds, i, id);
      StepOrigins(Run(before), c, id, BUY);
      StepOrigins(Run(before), c, id, SELL);
    }
  }

  lemma NotResubmitted(cmds: seq<Command>, i: nat, id: nat)
    requires Legal(cmds) && i < |cmds| && Submitted(cmds[..i], id)
    ensures var c := cmds[|cmds| - 1]; c.Submit? ==> c.order.orderId != id
  {
    var k :| 0 <= k < i && Submits(cmds[..i][k], id);
    assert cmds[..i][k] == cmds[k];
  }
}
