/** The greedy loop is optimal: it executes as much as possible, at the best possible price. */
module BestExecution {
  import opened Types
  import opened FlatBook
  import opened Matching

  /** Everything resting at a price the order accepts, wherever it stands in the list. */
  function Acceptable(o: Order, s: seq<Order>): nat {
    if s == [] then 0
    else (if Crosses(o, s[0].price) then s[0].remainingQuantity else 0) + Acceptable(o, s[1..])
  }

  lemma {:induction false} NothingAcceptable(o: Order, s: seq<Order>)
    requires Sorted(o.side.Opposite(), s) && s != [] && !Crosses(o, s[0].price)
    ensures Acceptable(o, s) == 0
  {
    if |s| > 1 {
      assert !Better(o.side.Opposite(), s[1].price, s[0].price);
      NothingAcceptable(o, s[1..]);
    }
  }

  /** The executed quantity is the smaller of what was asked for and what was acceptable. */
  lemma {:induction false} ExecutesAll(o: Order, s: seq<Order>, tradeId: nat, timestamp: nat)
    requires Sorted(o.side.Opposite(), s)
    ensures Volume(Match(o, s, tradeId, timestamp).trades) == Min(o.remainingQuantity, Acceptable(o, s))
    decreases |s|
  {
    if CanTrade(o, s) {
      var first := TradeOnce(o, s, tradeId, timestamp);
      var rest := Match(first.taker, first.makers, tradeId + 1, timestamp + 1);
      assert (first.trades + rest.trades)[1..] == rest.trades;
      if |first.makers| < |s| {
        ExecutesAll(first.taker, s[1..], tradeId + 1, timestamp + 1);
        AcceptableAlike(o, first.taker, s[1..]);
      }
    } else if s != [] && !Crosses(o, s[0].price) {
      NothingAcceptable(o, s);
    }
  }

  lemma {:induction false} AcceptableAlike(o: Order, o': Order, s: seq<Order>)
    requires o'.side == o.side && o'.orderType == o.orderType && o'.price == o.price
    ensures Acceptable(o', s) == Acceptable(o, s)
  {
    if s != [] { AcceptableAlike(o, o', s[1..]); }
  }

  // ---------- the price of an allocation ----------

  /** How much is taken from each resting order, in list order. */
  type Allocation = seq<nat>

  function Sum(a: Allocation): nat {
    if a == [] then 0 else a[0] + Sum(a[1..])
  }

  function Cost(s: seq<Order>, a: Allocation): real
    requires |a| == |s|
  {
    if s == [] then 0.0 else s[0].price * a[0] as real + Cost(s[1..], a[1..])
  }

  /** What the trades of one call are worth. */
  function Worth(trades: seq<Trade>): real {
    if trades == [] then 0.0 else trades[0].price * trades[0].quantity as real + Worth(trades[1..])
  }

  /** No order gives more than it has, and only acceptable orders give anything. */
  ghost predicate Feasible(o: Order, s: seq<Order>, a: Allocation) {
    |a| == |s| &&
    forall i :: 0 <= i < |s| ==> a[i] <= s[i].remainingQuantity && (a[i] > 0 ==> Crosses(o, s[i].price))
  }

  /** The allocation the trades amount to: the i-th trade is with the i-th resting order. */
  function Taken(trades: seq<Trade>, n: nat): (a: Allocation)
    requires |trades| <= n
    ensures |a| == n
  {
    seq(n, i requires 0 <= i < n => if i < |trades| then trades[i].quantity else 0)
  }

  lemma {:induction false} TakenTotals(s: seq<Order>, trades: seq<Trade>)
    requires |trades| <= |s|
    requires forall i :: 0 <= i < |trades| ==> trades[i].price == s[i].price
    ensures Sum(Taken(trades, |s|)) == Volume(trades) && Cost(s, Taken(trades, |s|)) == Worth(trades)
  {
    if s != [] {
      var tail := if trades == [] then [] else trades[1..];
      assert Taken(trades, |s|)[1..] == Taken(tail, |s| - 1);
      TakenTotals(s[1..], tail);
    }
  }

  /** Moving quantity across the pivot price never helps: one term of the exchange argument. */
  lemma ExchangeTerm(price: real, pivot: real, a: nat, g: nat)
    requires (price <= pivot && a <= g) || (price >= pivot && a >= g)
    ensures price * a as real - price * g as real >= pivot * a as real - pivot * g as real
  {
    var d := a as real - g as real;
    assert (price - pivot) * d >= 0.0;
    assert price * d == price * a as real - price * g as real;
    assert pivot * d == pivot * a as real - pivot * g as real;
    assert (price - pivot) * d == price * d - pivot * d;
  }

  /** If `a` takes no more than `g` where prices are below the pivot and no less where they are
      above, then `a` costs at least as much more as its extra quantity at the pivot price. */
  lemma {:induction false} Exchange(s: seq<Order>, a: Allocation, g: Allocation, pivot: real)
    requires |a| == |g| == |s|
    requires forall i :: 0 <= i < |s| ==>
      (s[i].price <= pivot && a[i] <= g[i]) || (s[i].price >= pivot && a[i] >= g[i])
    ensures Cost(s, a) - Cost(s, g) >= pivot * Sum(a) as real - pivot * Sum(g) as real
  {
    if s != [] {
      Exchange(s[1..], a[1..], g[1..], pivot);
      ExchangeTerm(s[0].price, pivot, a[0], g[0]);
      assert pivot * Sum(a) as real == pivot * a[0] as real + pivot * Sum(a[1..]) as real;
      assert pivot * Sum(g) as real == pivot * g[0] as real + pivot * Sum(g[1..]) as real;
    }
  }

  lemma {:induction false} SumZero(a: Allocation)
    requires Sum(a) == 0
    ensures forall i :: 0 <= i < |a| ==> a[i] == 0
  {
    if a != [] { SumZero(a[1..]); }
  }

  /** The trades themselves are one of the allocations compared with. */
  lemma TradesAreFeasible(o: Order, s: seq<Order>, tradeId: nat, timestamp: nat)
    ensures var trades := Match(o, s, tradeId, timestamp).trades;
      |trades| <= |s| && Feasible(o, s, Taken(trades, |s|)) &&
      Sum(Taken(trades, |s|)) == Volume(trades) && Cost(s, Taken(trades, |s|)) == Worth(trades)
  {
    MatchShape(o, s, tradeId, timestamp);
    TakenTotals(s, Match(o, s, tradeId, timestamp).trades);
  }

  lemma NothingTaken(a: Allocation, g: Allocation)
    requires Sum(a) == Sum(g) && |a| == |g|
    requires forall i :: 0 <= i < |g| ==> g[i] == 0
    ensures a == g
  {
    NothingSums(g);
    SumZero(a);
  }

  lemma {:induction false} NothingSums(g: Allocation)
    requires forall i :: 0 <= i < |g| ==> g[i] == 0
    ensures Sum(g) == 0
  {
    if g != [] { NothingSums(g[1..]); }
  }

  /** Orders ahead of the last one traded with are taken whole, orders behind it not at all. */
  lemma AroundPivot(side: Side, o: Order, s: seq<Order>, tradeId: nat, timestamp: nat, a: Allocation, i: nat)
    requires Sorted(side, s) && Feasible(o, s, a) && i < |s|
    ensures var trades := Match(o, s, tradeId, timestamp).trades;
      var n := |trades|;
      n <= |s| &&
      (i < n - 1 ==> !Better(side, s[n - 1].price, s[i].price) && a[i] <= Taken(trades, |s|)[i]) &&
      (i >= n > 0 ==> !Better(side, s[i].price, s[n - 1].price) && Taken(trades, |s|)[i] == 0)
  {
    MatchShape(o, s, tradeId, timestamp);
  }

  /** Buying: no feasible allocation of the executed quantity costs less than the trades made. */
  lemma BuyIsCheapest(o: Order, s: seq<Order>, tradeId: nat, timestamp: nat, a: Allocation)
    requires o.side.BUY? && Sorted(SELL, s) && |a| == |s| && Feasible(o, s, a)
    requires Sum(a) == Volume(Match(o, s, tradeId, timestamp).trades)
    ensures Worth(Match(o, s, tradeId, timestamp).trades) <= Cost(s, a)
  {
    hide Match, Sorted, Feasible, Cost, Sum, Worth, Volume, Crosses;
    var trades := Match(o, s, tradeId, timestamp).trades;
    TradesAreFeasible(o, s, tradeId, timestamp);
    var g, n := Taken(trades, |s|), |trades|;
    var pivot := if n == 0 then 0.0 else s[n - 1].price;
    if n == 0 { NothingTaken(a, g); }
    forall i | 0 <= i < |s|
      ensures (s[i].price <= pivot && a[i] <= g[i]) || (s[i].price >= pivot && a[i] >= g[i])
    {
      AroundPivot(SELL, o, s, tradeId, timestamp, a, i);
    }
    Exchange(s, a, g, pivot);
  }

  /** Selling: no feasible allocation of the executed quantity pays more. */
  lemma SellIsDearest(o: Order, s: seq<Order>, tradeId: nat, timestamp: nat, a: Allocation)
    requires o.side.SELL? && Sorted(BUY, s) && |a| == |s| && Feasible(o, s, a)
    requires Sum(a) == Volume(Match(o, s, tradeId, timestamp).trades)
    ensures Worth(Match(o, s, tradeId, timestamp).trades) >= Cost(s, a)
  {
    hide Match, Sorted, Feasible, Cost, Sum, Worth, Volume, Crosses;
    var trades := Match(o, s, tradeId, timestamp).trades;
    TradesAreFeasible(o, s, tradeId, timestamp);
    var g, n := Taken(trades, |s|), |trades|;
    var pivot := if n == 0 then 0.0 else s[n - 1].price;
    if n == 0 { NothingTaken(a, g); }
    forall i | 0 <= i < |s|
      ensures (s[i].price <= pivot && g[i] <= a[i]) || (s[i].price >= pivot && g[i] >= a[i])
    {
      AroundPivot(BUY, o, s, tradeId, timestamp, a, i);
    }
    Exchange(s, g, a, pivot);
  }
}
