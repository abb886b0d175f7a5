/** Who traded how much: sums over the trade history and over resting orders, by order id. */
module Ledger {
  import opened Types
  import opened FlatBook

  function Bought(trades: seq<Trade>, id: nat): nat {
    if trades == [] then 0
    else (if trades[0].buyOrderId == id then trades[0].quantity else 0) + Bought(trades[1..], id)
  }

  function Sold(trades: seq<Trade>, id: nat): nat {
    if trades == [] then 0
    else (if trades[0].sellOrderId == id then trades[0].quantity else 0) + Sold(trades[1..], id)
  }

  function Traded(trades: seq<Trade>, id: nat): nat {
    Bought(trades, id) + Sold(trades, id)
  }

  function Remaining(s: seq<Order>, id: nat): nat {
    if s == [] then 0
    else (if s[0].orderId == id then s[0].remainingQuantity else 0) + Remaining(s[1..], id)
  }

  function Resting(b: Book, id: nat): nat {
    Remaining(b.bids, id) + Remaining(b.asks, id)
  }

  lemma {:induction false} TradesConcat(a: seq<Trade>, b: seq<Trade>, id: nat)
    ensures Bought(a + b, id) == Bought(a, id) + Bought(b, id)
    ensures Sold(a + b, id) == Sold(a, id) + Sold(b, id)
  {
    if a == [] {
      assert a + b == b;
    } else {
      assert (a + b)[1..] == a[1..] + b;
      TradesConcat(a[1..], b, id);
    }
  }

  lemma OneTrade(t: Trade, id: nat)
    ensures Bought([t], id) == if t.buyOrderId == id then t.quantity else 0
    ensures Sold([t], id) == if t.sellOrderId == id then t.quantity else 0
  {
    assert [t][1..] == [];
  }

  lemma {:induction false} RemainingAbsent(s: seq<Order>, id: nat)
    requires !HasId(s, id)
    ensures Remaining(s, id) == 0
  {
    if s != [] {
      assert s[0].orderId != id;
      assert forall i :: 0 <= i < |s| - 1 ==> s[1..][i] == s[i + 1];
      RemainingAbsent(s[1..], id);
    }
  }

  lemma {:induction false} RemainingInsert(s: seq<Order>, o: Order, id: nat)
    ensures Remaining(Insert(s, o), id) ==
            Remaining(s, id) + if o.orderId == id then o.remainingQuantity else 0
  {
    if s != [] && !Better(o.side, o.price, s[0].price) {
      RemainingInsert(s[1..], o, id);
    }
  }

  lemma {:induction false} RemainingWithout(s: seq<Order>, id: nat, other: nat)
    ensures Remaining(Without(s, id), other) == if other == id then 0 else Remaining(s, other)
  {
    if s != [] { RemainingWithout(s[1..], id, other); }
  }

  /** What an order of the opposite side loses in the loop is exactly what it trades, on its own side. */
  lemma {:induction false} MakerConserved(o: Order, s: seq<Order>, tradeId: nat, timestamp: nat, id: nat)
    requires id != o.orderId
    ensures var r := Match(o, s, tradeId, timestamp);
      Remaining(r.makers, id) + Traded(r.trades, id) == Remaining(s, id) &&
      (if o.side.BUY? then Bought(r.trades, id) else Sold(r.trades, id)) == 0
    decreases |s|, o.remainingQuantity
  {
    if CanTrade(o, s) {
      var first := TradeOnce(o, s, tradeId, timestamp);
      var rest := Match(first.taker, first.makers, tradeId + 1, timestamp + 1);
      MakerConserved(first.taker, first.makers, tradeId + 1, timestamp + 1, id);
      TradesConcat(first.trades, rest.trades, id);
      assert first.trades[1..] == [];
    }
  }

  /** The incoming order trades exactly what it loses, on its own side only. */
  lemma {:induction false} TakerConserved(o: Order, s: seq<Order>, tradeId: nat, timestamp: nat)
    requires !HasId(s, o.orderId)
    ensures var r := Match(o, s, tradeId, timestamp);
      r.taker.remainingQuantity + Traded(r.trades, o.orderId) == o.remainingQuantity &&
      (if o.side.BUY? then Sold(r.trades, o.orderId) else Bought(r.trades, o.orderId)) == 0
    decreases |s|, o.remainingQuantity
  {
    if CanTrade(o, s) {
      var first := TradeOnce(o, s, tradeId, timestamp);
      var rest := Match(first.taker, first.makers, tradeId + 1, timestamp + 1);
      assert s[0].orderId != o.orderId;
      assert forall i :: 0 < i < |s| ==> s[1..][i - 1] == s[i];
      TakerConserved(first.taker, first.makers, tradeId + 1, timestamp + 1);
      TradesConcat(first.trades, rest.trades, o.orderId);
      assert first.trades[1..] == [];
    }
  }
}
