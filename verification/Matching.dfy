/** What one run of the matching loop does, in closed form, and the invariant of the book. */
module Matching {
  import opened Types
  import opened FlatBook
  import opened FlatLemmas

  function Volume(trades: seq<Trade>): nat {
    if trades == [] then 0 else trades[0].quantity + Volume(trades[1..])
  }

  lemma {:induction false} VolumeConcat(a: seq<Trade>, b: seq<Trade>)
    ensures Volume(a + b) == Volume(a) + Volume(b)
  {
    if a == [] {
      assert a + b == b;
    } else {
      assert (a + b)[1..] == a[1..] + b;
      VolumeConcat(a[1..], b);
    }
  }

  /** The loop trades with the orders of `s` in turn. All it touches are consumed, except that the
      last may be left reduced, and then nothing is left of the incoming order. */
  ghost predicate Shape(o: Order, s: seq<Order>, tradeId: nat, timestamp: nat, r: Matched) {
    && |r.makers| <= |s|
    && var d := |s| - |r.makers|;
    && (|r.trades| == d || |r.trades| == d + 1 <= |s|)
    && (forall i :: 0 <= i < |r.trades| ==>
          r.trades[i] == MakeTrade(o, s[i], r.trades[i].quantity, tradeId + i, timestamp + i) &&
          Crosses(o, s[i].price))
    && (forall i :: 0 <= i < d ==> r.trades[i].quantity == s[i].remainingQuantity)
    && (if |r.trades| == d then r.makers == s[d..] else
          r.taker.remainingQuantity == 0 &&
          0 < r.trades[d].quantity < s[d].remainingQuantity &&
          r.makers == [Fill(s[d], r.trades[d].quantity)] + s[d + 1..])
  }

  lemma ShapeCons(o: Order, s: seq<Order>, tradeId: nat, timestamp: nat, rest: Matched, r: Matched)
    requires s != [] && Crosses(o, s[0].price) && s[0].remainingQuantity <= o.remainingQuantity
    requires Shape(Fill(o, s[0].remainingQuantity), s[1..], tradeId + 1, timestamp + 1, rest)
    requires r.taker == rest.taker && r.makers == rest.makers
    requires r.trades == [MakeTrade(o, s[0], s[0].remainingQuantity, tradeId, timestamp)] + rest.trades
    ensures Shape(o, s, tradeId, timestamp, r)
  {
    var d := |s| - |r.makers|;
    forall i | 0 <= i < |r.trades|
      ensures r.trades[i] == MakeTrade(o, s[i], r.trades[i].quantity, tradeId + i, timestamp + i)
      ensures Crosses(o, s[i].price)
      ensures i < d ==> r.trades[i].quantity == s[i].remainingQuantity
    {
      if i > 0 {
        assert r.trades[i] == rest.trades[i - 1] && s[i] == s[1..][i - 1];
      }
    }
    if |r.trades| == d {
      assert s[1..][d - 1..] == s[d..];
    } else {
      assert r.trades[d] == rest.trades[d - 1] && s[1..][d - 1] == s[d];
      assert s[1..][d..] == s[d + 1..];
    }
  }

  lemma {:induction false} MatchShape(o: Order, s: seq<Order>, tradeId: nat, timestamp: nat)
    ensures Shape(o, s, tradeId, timestamp, Match(o, s, tradeId, timestamp))
    decreases |s|
  {
    if CanTrade(o, s) {
      var first := TradeOnce(o, s, tradeId, timestamp);
      if |first.makers| < |s| {
        var rest := Match(first.taker, s[1..], tradeId + 1, timestamp + 1);
        MatchShape(first.taker, s[1..], tradeId + 1, timestamp + 1);
        ShapeCons(o, s, tradeId, timestamp, rest, Match(o, s, tradeId, timestamp));
      }
    }
  }

  /** The loop stops only when no further trade is possible. */
  lemma {:induction false} MatchStops(o: Order, s: seq<Order>, tradeId: nat, timestamp: nat)
    ensures var r := Match(o, s, tradeId, timestamp); !CanTrade(r.taker, r.makers)
    decreases |s|, o.remainingQuantity
  {
    if CanTrade(o, s) {
      var first := TradeOnce(o, s, tradeId, timestamp);
      MatchStops(first.taker, first.makers, tradeId + 1, timestamp + 1);
    }
  }

  /** Only the remaining quantity of the incoming order changes, by exactly the traded volume. */
  lemma {:induction false} MatchTaker(o: Order, s: seq<Order>, tradeId: nat, timestamp: nat)
    ensures var r := Match(o, s, tradeId, timestamp);
      r.taker == o.(remainingQuantity := r.taker.remainingQuantity) &&
      r.taker.remainingQuantity + Volume(r.trades) == o.remainingQuantity
    decreases |s|, o.remainingQuantity
  {
    if CanTrade(o, s) {
      var first := TradeOnce(o, s, tradeId, timestamp);
      var rest := Match(first.taker, first.makers, tradeId + 1, timestamp + 1);
      MatchTaker(first.taker, first.makers, tradeId + 1, timestamp + 1);
      assert (first.trades + rest.trades)[1..] == rest.trades;
    }
  }

  lemma {:induction false} VolumeAtLeast(trades: seq<Trade>)
    requires forall i :: 0 <= i < |trades| ==> trades[i].quantity > 0
    ensures |trades| <= Volume(trades)
  {
    if trades != [] { VolumeAtLeast(trades[1..]); }
  }

  /** Every trade moves something, and all but the last use up the order they meet. */
  lemma ShapeBound(side: Side, o: Order, s: seq<Order>, tradeId: nat, timestamp: nat, r: Matched)
    requires Live(side, s) && Shape(o, s, tradeId, timestamp, r)
    ensures |r.trades| <= |s|
    ensures forall i :: 0 <= i < |r.trades| ==> r.trades[i].quantity > 0
    ensures forall i :: 0 <= i < |r.trades| - 1 ==> r.trades[i].quantity == s[i].remainingQuantity
  {}

  /** The work bound of one call. */
  lemma WorkBound(side: Side, o: Order, s: seq<Order>, tradeId: nat, timestamp: nat)
    requires Live(side, s)
    ensures var r := Match(o, s, tradeId, timestamp);
      |r.trades| <= Min(o.remainingQuantity, |s|) &&
      (forall i :: 0 <= i < |r.trades| ==> r.trades[i].quantity > 0) &&
      forall i :: 0 <= i < |r.trades| - 1 ==> r.trades[i].quantity == s[i].remainingQuantity
  {
    hide Match, Shape, Volume;
    MatchShape(o, s, tradeId, timestamp);
    ShapeBound(side, o, s, tradeId, timestamp, Match(o, s, tradeId, timestamp));
    MatchTaker(o, s, tradeId, timestamp);
    VolumeAtLeast(Match(o, s, tradeId, timestamp).trades);
  }

  /** What a trade says: its number and stamp, the resting order's price, the two parties, and a price
      within the incoming order's limit. */
  lemma TradeTerms(o: Order, s: seq<Order>, tradeId: nat, timestamp: nat, i: nat)
    ensures var trades := Match(o, s, tradeId, timestamp).trades;
      i < |trades| ==>
        i < |s| && var t := trades[i];
        t.tradeId == tradeId + i && t.timestamp == timestamp + i && t.price == s[i].price &&
        (o.side.BUY? ==> t.buyOrderId == o.orderId && t.sellOrderId == s[i].orderId) &&
        (o.side.SELL? ==> t.buyOrderId == s[i].orderId && t.sellOrderId == o.orderId) &&
        (o.side.BUY? && o.orderType.LIMIT? ==> t.price <= o.price) &&
        (o.side.SELL? && o.orderType.LIMIT? ==> t.price >= o.price)
  {
    hide Match;
    MatchShape(o, s, tradeId, timestamp);
  }

  // ---------- the events of a placement ----------

  /** A trade and the resting order's own event, for every trade in turn. */
  ghost predicate TradesReported(s: seq<Order>, consumed: int, trades: seq<Trade>, events: seq<Event>) {
    |events| == 2 * |trades| && |trades| <= |s| &&
    forall i :: 0 <= i < |trades| ==>
      events[2 * i] == TradeExecuted(trades[i]) &&
      events[2 * i + 1] ==
        if i < consumed then OrderCompletelyFilled(s[i].orderId) else OrderPartiallyFilled(s[i].orderId)
  }

  lemma ReportedCons(s: seq<Order>, consumed: int, trades: seq<Trade>, events: seq<Event>, t: Trade)
    requires s != [] && TradesReported(s[1..], consumed, trades, events)
    requires consumed >= 0
    ensures TradesReported(s, consumed + 1, [t] + trades,
                           [TradeExecuted(t), OrderCompletelyFilled(s[0].orderId)] + events)
  {
    var trades', events' := [t] + trades, [TradeExecuted(t), OrderCompletelyFilled(s[0].orderId)] + events;
    forall i | 0 <= i < |trades'|
      ensures events'[2 * i] == TradeExecuted(trades'[i])
      ensures events'[2 * i + 1] ==
        if i < consumed + 1 then OrderCompletelyFilled(s[i].orderId) else OrderPartiallyFilled(s[i].orderId)
    {
      if i > 0 {
        assert events'[2 * i] == events[2 * (i - 1)] && events'[2 * i + 1] == events[2 * (i - 1) + 1];
        assert trades'[i] == trades[i - 1] && s[1..][i - 1] == s[i];
      }
    }
  }

  lemma {:induction false} MatchEvents(o: Order, s: seq<Order>, tradeId: nat, timestamp: nat)
    ensures var m := Match(o, s, tradeId, timestamp);
      TradesReported(s, |s| - |m.makers|, m.trades, m.events)
    decreases |s|
  {
    if CanTrade(o, s) {
      var first := TradeOnce(o, s, tradeId, timestamp);
      if |first.makers| < |s| {
        var rest := Match(first.taker, s[1..], tradeId + 1, timestamp + 1);
        MatchEvents(first.taker, s[1..], tradeId + 1, timestamp + 1);
        MatchShape(first.taker, s[1..], tradeId + 1, timestamp + 1);
        ReportedCons(s, |s| - 1 - |rest.makers|, rest.trades, rest.events, first.trades[0]);
      }
    }
  }

  /** All events of a placement: one acceptance, which names the order; two events per trade; the
      order's own fill, if any; and the book change. */
  lemma PlaceEvents(b: Book, o: Order, tradeId: nat, timestamp: nat)
    ensures var p := Place(b, o, tradeId, timestamp);
      var was, left := b.On(o.side.Opposite()), p.book.On(o.side.Opposite());
      var n, remaining := |p.trades|, p.taker.remainingQuantity;
      n <= |was| &&
      |p.events| == 2 * n + (if remaining < o.quantity || remaining == 0 then 3 else 2) &&
      p.events[0] == OrderAccepted(o.orderId) &&
      (forall i :: 0 <= i < n ==>
        p.events[2 * i + 1] == TradeExecuted(p.trades[i]) &&
        p.events[2 * i + 2] == if i < |was| - |left| then OrderCompletelyFilled(was[i].orderId)
                               else OrderPartiallyFilled(was[i].orderId)) &&
      (remaining == 0 ==> p.events[2 * n + 1] == OrderCompletelyFilled(o.orderId)) &&
      (0 < remaining < o.quantity ==> p.events[2 * n + 1] == OrderPartiallyFilled(o.orderId)) &&
      p.events[|p.events| - 1] == OrderBookChanged
  {
    hide Match;
    var s := b.On(o.side.Opposite());
    var m := Match(o, s, tradeId, timestamp);
    var p := Place(b, o, tradeId, timestamp);
    MatchEvents(o, s, tradeId, timestamp);
    MatchTaker(o, s, tradeId, timestamp);
    forall i | 0 <= i < |m.trades|
      ensures p.events[2 * i + 1] == TradeExecuted(p.trades[i])
      ensures p.events[2 * i + 2] == if i < |s| - |m.makers| then OrderCompletelyFilled(s[i].orderId)
                                     else OrderPartiallyFilled(s[i].orderId)
    {
      assert p.events[2 * i + 1] == m.events[2 * i] && p.events[2 * i + 2] == m.events[2 * i + 1];
    }
  }

  /** The first event accepts the order, no other event is an acceptance, and the last reports the book. */
  ghost predicate AcceptsOnce(events: seq<Event>, id: nat) {
    |events| >= 2 && events[0] == OrderAccepted(id) && events[|events| - 1] == OrderBookChanged &&
    forall i :: 0 < i < |events| ==> !events[i].OrderAccepted?
  }

  lemma PlaceAcceptsOnce(b: Book, o: Order, tradeId: nat, timestamp: nat)
    ensures AcceptsOnce(Place(b, o, tradeId, timestamp).events, o.orderId)
  {
    hide Place;
    var p := Place(b, o, tradeId, timestamp);
    PlaceEvents(b, o, tradeId, timestamp);
    forall i | 0 < i < |p.events| ensures !p.events[i].OrderAccepted? {
      if i <= 2 * |p.trades| {
        var k := (i - 1) / 2;
        assert p.events[2 * k + 1] == TradeExecuted(p.trades[k]);
        assert i == 2 * k + 1 || i == 2 * k + 2;
      }
    }
  }

  // ---------- the invariant of the book ----------

  /** What is left of a side is a suffix of it, its first order perhaps reduced but not to nothing. */
  ghost predicate ReducedSuffix(m: seq<Order>, s: seq<Order>) {
    |m| <= |s| &&
    forall k :: 0 <= k < |m| ==>
      var was := s[|s| - |m| + k];
      m[k] == was.(remainingQuantity := m[k].remainingQuantity) &&
      m[k].remainingQuantity <= was.remainingQuantity &&
      (was.remainingQuantity > 0 ==> m[k].remainingQuantity > 0) &&
      (k > 0 ==> m[k] == was)
  }

  lemma MakersSuffix(o: Order, s: seq<Order>, tradeId: nat, timestamp: nat)
    ensures ReducedSuffix(Match(o, s, tradeId, timestamp).makers, s)
  {
    hide Match, Shape, ReducedSuffix;
    MatchShape(o, s, tradeId, timestamp);
    ShapeSuffix(o, s, tradeId, timestamp, Match(o, s, tradeId, timestamp));
  }

  lemma ShapeSuffix(o: Order, s: seq<Order>, tradeId: nat, timestamp: nat, r: Matched)
    requires Shape(o, s, tradeId, timestamp, r)
    ensures ReducedSuffix(r.makers, s)
  {
    hide MakeTrade, Crosses;
    var d := |s| - |r.makers|;
    forall k | 0 <= k < |r.makers|
      ensures var was := s[d + k];
        r.makers[k] == was.(remainingQuantity := r.makers[k].remainingQuantity) &&
        r.makers[k].remainingQuantity <= was.remainingQuantity &&
        (was.remainingQuantity > 0 ==> r.makers[k].remainingQuantity > 0) &&
        (k > 0 ==> r.makers[k] == was)
    {
      if |r.trades| == d || k > 0 {
        assert r.makers[k] == s[d + k];
      }
    }
  }

  lemma SuffixInv(side: Side, m: seq<Order>, s: seq<Order>)
    requires SideInv(side, s) && ReducedSuffix(m, s)
    ensures SideInv(side, m)
  {
    var d := |s| - |m|;
    assert forall k :: 0 <= k < |m| ==> m[k].price == s[d + k].price && m[k].orderId == s[d + k].orderId;
    assert Sorted(side, m);
    assert DistinctIds(m);
    assert Live(side, m);
  }

  lemma MakersInv(side: Side, o: Order, s: seq<Order>, tradeId: nat, timestamp: nat)
    requires SideInv(side, s)
    ensures SideInv(side, Match(o, s, tradeId, timestamp).makers)
    ensures ReducedSuffix(Match(o, s, tradeId, timestamp).makers, s)
  {
    MakersSuffix(o, s, tradeId, timestamp);
    SuffixInv(side, Match(o, s, tradeId, timestamp).makers, s);
  }

  lemma InsertSorted(side: Side, s: seq<Order>, o: Order)
    requires Sorted(side, s) && o.side == side
    ensures Sorted(side, Insert(s, o))
  {
    hide Insert;
    var k := InsertPosition(s, o);
    var r := s[..k] + [o] + s[k..];
    forall i, j | 0 <= i < j < |r| ensures !Better(side, r[j].price, r[i].price) {
      if i == k {
        assert !Better(side, s[j - 1].price, s[k].price);
      } else if j == k {
        assert r[i] == s[i];
      } else {
        var i', j' := if i < k then i else i - 1, if j < k then j else j - 1;
        assert r[i] == s[i'] && r[j] == s[j'];
      }
    }
  }

  lemma InsertDistinct(s: seq<Order>, o: Order)
    requires DistinctIds(s) && !HasId(s, o.orderId)
    ensures DistinctIds(Insert(s, o))
  {
    var k := InsertPosition(s, o);
    var r := s[..k] + [o] + s[k..];
    forall i, j | 0 <= i < j < |r| ensures r[i].orderId != r[j].orderId {
      var i', j' := if i < k then i else i - 1, if j < k then j else j - 1;
      assert i != k ==> r[i] == s[i'];
      assert j != k ==> r[j] == s[j'];
    }
  }

  lemma InsertFrom(s: seq<Order>, o: Order)
    ensures forall i :: 0 <= i < |Insert(s, o)| ==> Insert(s, o)[i] == o || Insert(s, o)[i] in s
  {
    var k := InsertPosition(s, o);
    var r := s[..k] + [o] + s[k..];
    assert forall i :: 0 <= i < k ==> r[i] == s[i];
    assert forall i :: k < i < |r| ==> r[i] == s[i - 1];
  }

  lemma InsertInv(side: Side, s: seq<Order>, o: Order)
    requires SideInv(side, s)
    requires o.side == side && o.orderType.LIMIT? && 0 < o.remainingQuantity <= o.quantity
    requires !HasId(s, o.orderId)
    ensures SideInv(side, Insert(s, o))
  {
    InsertSorted(side, s, o);
    InsertDistinct(s, o);
    InsertFrom(s, o);
  }

  lemma RemoveInv(side: Side, s: seq<Order>, k: nat)
    requires SideInv(side, s) && k < |s|
    ensures var r := s[..k] + s[k + 1..];
      SideInv(side, r) && !HasId(r, s[k].orderId) && forall i :: 0 <= i < |r| ==> r[i] in s
  {
    var r := s[..k] + s[k + 1..];
    assert forall i :: 0 <= i < |r| ==> r[i] == s[if i < k then i else i + 1];
    assert Sorted(side, r);
    assert DistinctIds(r);
  }

  lemma {:induction false} WithoutInv(side: Side, s: seq<Order>, id: nat)
    requires SideInv(side, s)
    ensures SideInv(side, Without(s, id)) && !HasId(Without(s, id), id)
    ensures forall i :: 0 <= i < |Without(s, id)| ==> Without(s, id)[i] in s
  {
    hide Without, Sorted, Live;
    if HasId(s, id) {
      var k :| 0 <= k < |s| && s[k].orderId == id;
      WithoutAt(s, k);
      RemoveInv(side, s, k);
    } else {
      WithoutAbsent(s, id);
    }
  }

  /** The side an order may be matched against, and the side it may rest on. */
  ghost predicate SidesInv(side: Side, own: seq<Order>, opposite: seq<Order>) {
    SideInv(side, own) && SideInv(side.Opposite(), opposite) && DisjointIds(own, opposite) &&
    forall i, j :: 0 <= i < |own| && 0 <= j < |opposite| ==>
      Better(side.Opposite(), own[i].price, opposite[j].price)
  }

  lemma SidesOfBook(b: Book, side: Side)
    ensures BookInv(b) <==> SidesInv(side, b.On(side), b.On(side.Opposite()))
  {
  }

  lemma MatchKeepsSides(o: Order, own: seq<Order>, opposite: seq<Order>, tradeId: nat, timestamp: nat)
    requires SidesInv(o.side, own, opposite)
    ensures SidesInv(o.side, own, Match(o, opposite, tradeId, timestamp).makers)
  {
    MakersInv(o.side.Opposite(), o, opposite, tradeId, timestamp);
  }

  /** An order that can no longer trade does not cross the side it was matched against. */
  lemma RestKeepsSides(taker: Order, own: seq<Order>, opposite: seq<Order>)
    requires SidesInv(taker.side, own, opposite)
    requires !CanTrade(taker, opposite) && taker.remainingQuantity <= taker.quantity
    requires !HasId(own, taker.orderId) && !HasId(opposite, taker.orderId)
    ensures SidesInv(taker.side, Rest(own, taker), opposite)
  {
    if taker.remainingQuantity > 0 && taker.orderType.LIMIT? {
      InsertInv(taker.side, own, taker);
      InsertFrom(own, taker);
    }
  }

  /** Placing a fresh order keeps the book sorted, live, uncrossed and free of repeated ids. */
  lemma PlaceKeepsInv(b: Book, o: Order, tradeId: nat, timestamp: nat)
    requires BookInv(b) && !Rests(b, o.orderId)
    requires o.remainingQuantity <= o.quantity
    ensures BookInv(Place(b, o, tradeId, timestamp).book)
  {
    var opposite := o.side.Opposite();
    var m := Match(o, b.On(opposite), tradeId, timestamp);
    SidesOfBook(b, o.side);
    MatchKeepsSides(o, b.On(o.side), b.On(opposite), tradeId, timestamp);
    MatchStops(o, b.On(opposite), tradeId, timestamp);
    MatchTaker(o, b.On(opposite), tradeId, timestamp);
    MakersInv(opposite, o, b.On(opposite), tradeId, timestamp);
    RestKeepsSides(m.taker, b.On(o.side), m.makers);
    SidesOfBook(Place(b, o, tradeId, timestamp).book, o.side);
  }

  lemma CancelKeepsInv(b: Book, id: nat)
    requires BookInv(b)
    ensures BookInv(CancelBook(b, id)) && !Rests(CancelBook(b, id), id)
  {
    WithoutInv(BUY, b.bids, id);
    WithoutInv(SELL, b.asks, id);
  }
}
