/** Splitting an order in two: the market sees no difference. */
module Split {
  import opened Types
  import opened FlatBook
  import opened Matching
  import opened Ledger
  import opened Depth

  /** Orders that only differ in identity and size. */
  ghost predicate Alike(o: Order, o': Order) {
    o.side == o'.side && o.orderType == o'.orderType && o.price == o'.price
  }

  /** The loop does not look at the identity of the incoming order. */
  lemma {:induction false} MatchAlike(o: Order, o': Order, s: seq<Order>, t: nat, u: nat, t': nat, u': nat)
    requires Alike(o, o') && o.remainingQuantity == o'.remainingQuantity
    ensures var m, m' := Match(o, s, t, u), Match(o', s, t', u');
      m.makers == m'.makers && m.taker.remainingQuantity == m'.taker.remainingQuantity
    decreases |s|, o.remainingQuantity
  {
    if CanTrade(o, s) {
      var first, first' := TradeOnce(o, s, t, u), TradeOnce(o', s, t', u');
      MatchAlike(first.taker, first'.taker, first.makers, t + 1, u + 1, t' + 1, u' + 1);
    }
  }

  /** Matching a whole order is matching its parts one after the other. */
  lemma {:induction false} MatchSplit(o: Order, o1: Order, o2: Order, s: seq<Order>,
                                      t: nat, u: nat, t1: nat, u1: nat, t2: nat, u2: nat)
    requires Alike(o, o1) && Alike(o, o2)
    requires o.remainingQuantity == o1.remainingQuantity + o2.remainingQuantity
    ensures var m, m1 := Match(o, s, t, u), Match(o1, s, t1, u1);
      var m2 := Match(o2, m1.makers, t2, u2);
      m2.makers == m.makers &&
      m1.taker.remainingQuantity + m2.taker.remainingQuantity == m.taker.remainingQuantity
    decreases |s|
  {
    if !CanTrade(o1, s) {
      if o1.remainingQuantity == 0 { MatchAlike(o, o2, s, t, u, t2, u2); }
    } else if o1.remainingQuantity >= s[0].remainingQuantity {
      var q := s[0].remainingQuantity;
      MatchSplit(Fill(o, q), Fill(o1, q), o2, s[1..], t + 1, u + 1, t1 + 1, u1 + 1, t2, u2);
    } else {
      MatchSplitFront(o, o1, o2, s, t, u, t1, u1, t2, u2);
    }
  }

  /** The first part ends inside the front order. */
  lemma MatchSplitFront(o: Order, o1: Order, o2: Order, s: seq<Order>,
                        t: nat, u: nat, t1: nat, u1: nat, t2: nat, u2: nat)
    requires Alike(o, o1) && Alike(o, o2) && CanTrade(o1, s)
    requires o.remainingQuantity == o1.remainingQuantity + o2.remainingQuantity
    requires o1.remainingQuantity < s[0].remainingQuantity
    ensures var m, m1 := Match(o, s, t, u), Match(o1, s, t1, u1);
      var m2 := Match(o2, m1.makers, t2, u2);
      m2.makers == m.makers &&
      m1.taker.remainingQuantity + m2.taker.remainingQuantity == m.taker.remainingQuantity
  {
    hide Match;
    var a := o1.remainingQuantity;
    var left := [Fill(s[0], a)] + s[1..];
    MatchWithin(o1, s, t1, u1);
    if o2.remainingQuantity > 0 {
      assert left[1..] == s[1..];
      FrontAlike(o, o2, s, left, t, u, t2, u2);
      MatchOnce(o, s, t, u);
      MatchOnce(o2, left, t2, u2);
      var first, second := TradeOnce(o, s, t, u), TradeOnce(o2, left, t2, u2);
      MatchAlike(first.taker, second.taker, first.makers, t + 1, u + 1, t2 + 1, u2 + 1);
    } else {
      MatchWithin(o, s, t, u);
      MatchNothing(o2, left, t2, u2);
    }
  }

  lemma MatchOnce(o: Order, s: seq<Order>, t: nat, u: nat)
    requires CanTrade(o, s)
    ensures var first := TradeOnce(o, s, t, u);
      var m, rest := Match(o, s, t, u), Match(first.taker, first.makers, t + 1, u + 1);
      m.makers == rest.makers && m.taker == rest.taker
  {
  }

  lemma MatchNothing(o: Order, s: seq<Order>, t: nat, u: nat)
    requires !CanTrade(o, s)
    ensures Match(o, s, t, u) == Matched(o, s, [], [])
  {
  }

  lemma MatchWithin(o: Order, s: seq<Order>, t: nat, u: nat)
    requires CanTrade(o, s) && o.remainingQuantity < s[0].remainingQuantity
    ensures var m := Match(o, s, t, u);
      m.makers == [Fill(s[0], o.remainingQuantity)] + s[1..] && m.taker.remainingQuantity == 0
  {
    var first := TradeOnce(o, s, t, u);
    assert !CanTrade(first.taker, first.makers);
  }

  /** Trading with the whole front order, or with the rest of it after a part is gone. */
  lemma FrontAlike(o: Order, o2: Order, s: seq<Order>, left: seq<Order>, t: nat, u: nat, t2: nat, u2: nat)
    requires CanTrade(o, s) && Alike(o, o2) && 0 < o2.remainingQuantity < o.remainingQuantity
    requires var a := o.remainingQuantity - o2.remainingQuantity;
      a < s[0].remainingQuantity && left == [Fill(s[0], a)] + s[1..]
    ensures CanTrade(o2, left)
    ensures var first, second := TradeOnce(o, s, t, u), TradeOnce(o2, left, t2, u2);
      first.makers == second.makers && Alike(first.taker, second.taker) &&
      first.taker.remainingQuantity == second.taker.remainingQuantity
  {
  }

  /** One order of quantity a + b, or a and then b: the opposite side, the fill of every resting
      order and the L2 depth of both sides come out the same. */
  lemma SplitInvariance(b: Book, o: Order, o1: Order, o2: Order,
                        t: nat, u: nat, t1: nat, u1: nat, t2: nat, u2: nat)
    requires BookInv(b) && Alike(o, o1) && Alike(o, o2)
    requires o.remainingQuantity == o1.remainingQuantity + o2.remainingQuantity
    ensures
      var p, p1 := Place(b, o, t, u), Place(b, o1, t1, u1);
      var p2 := Place(p1.book, o2, t2, u2);
      p2.book.On(o.side.Opposite()) == p.book.On(o.side.Opposite()) &&
      Group(p2.book.bids) == Group(p.book.bids) && Group(p2.book.asks) == Group(p.book.asks) &&
      forall id :: id != o.orderId && id != o1.orderId && id != o2.orderId ==>
        Traded(p.trades, id) == Traded(p1.trades, id) + Traded(p2.trades, id)
  {
    var own, s := b.On(o.side), b.On(o.side.Opposite());
    var m, m1 := Match(o, s, t, u), Match(o1, s, t1, u1);
    var m2 := Match(o2, m1.makers, t2, u2);
    MatchSplit(o, o1, o2, s, t, u, t1, u1, t2, u2);
    MatchTaker(o, s, t, u);
    MatchTaker(o1, s, t1, u1);
    MatchTaker(o2, m1.makers, t2, u2);
    RestSplit(own, m.taker, m1.taker, m2.taker);
    forall id | id != o.orderId && id != o1.orderId && id != o2.orderId
      ensures Traded(m.trades, id) == Traded(m1.trades, id) + Traded(m2.trades, id)
    {
      MakerConserved(o, s, t, u, id);
      MakerConserved(o1, s, t1, u1, id);
      MakerConserved(o2, m1.makers, t2, u2, id);
    }
  }

  /** Resting the two residuals shows the same depth as resting their sum. */
  lemma RestSplit(own: seq<Order>, o: Order, o1: Order, o2: Order)
    requires Sorted(o.side, own) && Alike(o, o1) && Alike(o, o2)
    requires o.remainingQuantity == o1.remainingQuantity + o2.remainingQuantity
    ensures Group(Rest(Rest(own, o1), o2)) == Group(Rest(own, o))
  {
    hide Group, Insert, Sorted;
    GroupInsert(own, o);
    GroupInsert(own, o1);
    GroupInsert(own, o2);
    if o1.remainingQuantity > 0 && o2.remainingQuantity > 0 && o.orderType.LIMIT? {
      InsertSorted(o.side, own, o1);
      GroupInsert(Insert(own, o1), o2);
      AddLevelTwice(o.side, Group(own), o.price, o1.remainingQuantity, o2.remainingQuantity);
    }
  }
}
