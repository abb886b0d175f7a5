/** Level-2 depth as a view of the flat priority list. */
module Depth {
  import opened Types
  import opened FlatBook

  datatype PriceLevel = PriceLevel(price: Price, quantity: nat)

  function Total(s: seq<Order>): nat {
    if s == [] then 0 else s[0].remainingQuantity + Total(s[1..])
  }

  /** One more order in front of a depth. */
  function Merge(o: Order, depth: seq<PriceLevel>): seq<PriceLevel> {
    if depth != [] && depth[0].price == o.price
    then [PriceLevel(o.price, o.remainingQuantity + depth[0].quantity)] + depth[1..]
    else [PriceLevel(o.price, o.remainingQuantity)] + depth
  }

  /** Adjacent orders of equal price form one level. */
  function Group(s: seq<Order>): seq<PriceLevel> {
    if s == [] then [] else Merge(s[0], Group(s[1..]))
  }

  /** `std::uint64_t` arithmetic, which the source sums level quantities in. */
  const TWO_64: nat := 0x1_0000_0000_0000_0000

  function Wrap(depth: seq<PriceLevel>): (r: seq<PriceLevel>)
    ensures |r| == |depth|
    ensures forall i :: 0 <= i < |depth| ==>
      r[i] == PriceLevel(depth[i].price, depth[i].quantity % TWO_64)
  {
    seq(|depth|, i requires 0 <= i < |depth| => depth[i].(quantity := depth[i].quantity % TWO_64))
  }

  function Take<T>(s: seq<T>, n: nat): (r: seq<T>)
    ensures |r| == Min(n, |s|) && forall i :: 0 <= i < |r| ==> r[i] == s[i]
  {
    if n < |s| then s[..n] else s
  }

  lemma {:induction false} TotalConcat(a: seq<Order>, b: seq<Order>)
    ensures Total(a + b) == Total(a) + Total(b)
  {
    if a == [] {
      assert a + b == b;
    } else {
      assert (a + b)[1..] == a[1..] + b;
      TotalConcat(a[1..], b);
    }
  }

  lemma TotalSnoc(s: seq<Order>, i: nat)
    requires i < |s|
    ensures Total(s[..i + 1]) == Total(s[..i]) + s[i].remainingQuantity
  {
    assert s[..i + 1] == s[..i] + [s[i]];
    TotalConcat(s[..i], [s[i]]);
  }

  lemma {:induction false} GroupHead(s: seq<Order>)
    requires s != []
    ensures Group(s) != [] && Group(s)[0].price == s[0].price
  {
  }

  /** One whole level at the front of the list. */
  lemma {:induction false} GroupLevel(a: seq<Order>, b: seq<Order>)
    requires a != []
    requires forall i :: 0 <= i < |a| ==> a[i].price == a[0].price
    requires b != [] ==> b[0].price != a[0].price
    ensures Group(a + b) == [PriceLevel(a[0].price, Total(a))] + Group(b)
  {
    assert (a + b)[1..] == a[1..] + b;
    if b != [] { GroupHead(b); }
    if |a| == 1 {
      assert a[1..] + b == b;
      assert Total(a) == a[0].remainingQuantity + Total(a[1..]);
    } else {
      GroupLevel(a[1..], b);
    }
  }

  // ---------- what the grouping means ----------

  /** Everything resting at one price, wherever it stands in the list. */
  function AtPrice(s: seq<Order>, price: Price): nat {
    if s == [] then 0
    else (if s[0].price == price then s[0].remainingQuantity else 0) + AtPrice(s[1..], price)
  }

  function Sum(depth: seq<PriceLevel>): nat {
    if depth == [] then 0 else depth[0].quantity + Sum(depth[1..])
  }

  ghost predicate BestFirst(side: Side, depth: seq<PriceLevel>) {
    forall i, j :: 0 <= i < j < |depth| ==> Better(side, depth[i].price, depth[j].price)
  }

  ghost predicate Shows(depth: seq<PriceLevel>, price: Price) {
    exists i :: 0 <= i < |depth| && depth[i].price == price
  }

  lemma {:induction false} NothingAtPrice(side: Side, s: seq<Order>, price: Price)
    requires Sorted(side, s) && s != [] && Better(side, price, s[0].price)
    ensures AtPrice(s, price) == 0
  {
    if |s| > 1 {
      assert !Better(side, s[1].price, s[0].price);
      NothingAtPrice(side, s[1..], price);
    }
  }

  /** The levels of a sorted side are strictly best first. */
  lemma {:induction false} GroupBestFirst(side: Side, s: seq<Order>)
    requires Sorted(side, s)
    ensures BestFirst(side, Group(s))
    ensures s != [] ==> Group(s) != [] && Group(s)[0].price == s[0].price
  {
    if |s| > 1 {
      GroupBestFirst(side, s[1..]);
      assert !Better(side, s[1].price, s[0].price);
    }
  }

  /** Each level shows exactly the open quantity at its price, and exactly the resting prices are shown. */
  lemma {:induction false} GroupSums(side: Side, s: seq<Order>)
    requires Sorted(side, s)
    ensures forall i :: 0 <= i < |Group(s)| ==> Group(s)[i].quantity == AtPrice(s, Group(s)[i].price)
  {
    if s != [] {
      var g, rest := Group(s), Group(s[1..]);
      GroupSums(side, s[1..]);
      GroupBestFirst(side, s);
      if s[1..] != [] {
        GroupBestFirst(side, s[1..]);
        assert !Better(side, s[1].price, s[0].price);
        if rest[0].price != s[0].price { NothingAtPrice(side, s[1..], s[0].price); }
      }
      forall i | 0 < i < |g| ensures g[i].quantity == AtPrice(s, g[i].price) {
        assert Better(side, g[0].price, g[i].price);
        assert g[i] in rest;
      }
    }
  }

  ghost predicate HasPrice(s: seq<Order>, price: Price) {
    exists k :: 0 <= k < |s| && s[k].price == price
  }

  lemma MergeShows(o: Order, depth: seq<PriceLevel>, price: Price)
    ensures Shows(Merge(o, depth), price) <==> price == o.price || Shows(depth, price)
  {
    var g := Merge(o, depth);
    var shift := |g| - |depth|;
    assert g[0].price == o.price;
    assert forall i :: 0 < i < |g| ==> g[i] == depth[i - shift];
    if Shows(depth, price) {
      var i :| 0 <= i < |depth| && depth[i].price == price;
      assert g[i + shift].price == price;
    }
  }

  /** Exactly the resting prices are shown. */
  lemma {:induction false} GroupPrices(s: seq<Order>, price: Price)
    ensures Shows(Group(s), price) <==> HasPrice(s, price)
  {
    if s != [] {
      var t := s[1..];
      GroupPrices(t, price);
      MergeShows(s[0], Group(t), price);
      if HasPrice(t, price) {
        var k :| 0 <= k < |t| && t[k].price == price;
        assert s[k + 1].price == price;
      }
      if HasPrice(s, price) && price != s[0].price {
        var k :| 0 <= k < |s| && s[k].price == price;
        assert t[k - 1].price == price;
      }
    }
  }

  /** The full depth accounts for all open quantity of the side. */
  lemma {:induction false} GroupTotal(s: seq<Order>)
    ensures Sum(Group(s)) == Total(s)
  {
    if s != [] { GroupTotal(s[1..]); }
  }

  /** Asking for fewer levels gives a prefix of asking for more. */
  lemma DepthPrefix(s: seq<Order>, m: nat, n: nat)
    requires m <= n
    ensures Wrap(Take(Group(s), m)) == Take(Wrap(Take(Group(s), n)), m)
  {
  }

  /** Quantities are shown exactly as long as the level holds less than 2^64. */
  lemma WrapExact(s: seq<Order>, n: nat)
    ensures Wrap(Take(Group(s), n)) == Take(Group(s), n) <==>
            forall i :: 0 <= i < n && i < |Group(s)| ==> Group(s)[i].quantity < TWO_64
  {
    var d := Take(Group(s), n);
    if Wrap(d) == d {
      forall i | 0 <= i < |d| ensures d[i].quantity < TWO_64 {
        assert Wrap(d)[i] == d[i];
      }
    }
  }

  // ---------- a depth query, told without grouping ----------

  ghost function Prices(s: seq<Order>): set<Price> {
    set k | 0 <= k < |s| :: s[k].price
  }

  /** The best `n` different prices of a side, or all if there are fewer, best first. */
  ghost predicate BestPrices(side: Side, s: seq<Order>, n: nat, prices: seq<Price>) {
    |prices| == Min(n, |Prices(s)|) &&
    (forall i :: 0 <= i < |prices| ==> prices[i] in Prices(s)) &&
    (forall i, j :: 0 <= i < j < |prices| ==> if side.BUY? then prices[i] > prices[j] else prices[i] < prices[j]) &&
    (forall i, p :: 0 <= i < |prices| && p in Prices(s) && p !in prices ==>
      if side.BUY? then prices[i] > p else prices[i] < p)
  }

  /** The best `n` prices of a side, each with everything open at it, modulo 2^64. */
  ghost predicate DepthOf(side: Side, s: seq<Order>, n: nat, depth: seq<PriceLevel>) {
    BestPrices(side, s, n, seq(|depth|, i requires 0 <= i < |depth| => depth[i].price)) &&
    forall i :: 0 <= i < |depth| ==>
      depth[i].quantity == AtPrice(s, depth[i].price) % 0x1_0000_0000_0000_0000
  }

  lemma PricesCons(s: seq<Order>)
    requires s != []
    ensures Prices(s) == {s[0].price} + Prices(s[1..])
  {
    forall p | p in Prices(s[1..]) ensures p in Prices(s) {
      var k :| 0 <= k < |s[1..]| && s[1..][k].price == p;
      assert s[k + 1].price == p;
    }
    forall p | p in Prices(s) ensures p in {s[0].price} + Prices(s[1..]) {
      var k :| 0 <= k < |s| && s[k].price == p;
      if k > 0 { assert s[1..][k - 1].price == p; }
    }
  }

  /** There are as many levels as prices. */
  lemma {:induction false} GroupCount(side: Side, s: seq<Order>)
    requires Sorted(side, s)
    ensures |Group(s)| == |Prices(s)|
  {
    if s != [] {
      var t := s[1..];
      GroupCount(side, t);
      PricesCons(s);
      GroupPrices(t, s[0].price);
      if t != [] {
        GroupBestFirst(side, t);
        assert !Better(side, t[0].price, s[0].price);
        assert HasPrice(t, t[0].price);
      }
      assert HasPrice(t, s[0].price) <==> s[0].price in Prices(t);
    }
  }

  /** Grouping, truncating and wrapping tells the depth. */
  lemma DepthIs(side: Side, s: seq<Order>, n: nat)
    requires Sorted(side, s)
    ensures DepthOf(side, s, n, Wrap(Take(Group(s), n)))
  {
    hide Group, AtPrice, Sorted;
    var g := Group(s);
    var d := Wrap(Take(g, n));
    var prices := seq(|d|, i requires 0 <= i < |d| => d[i].price);
    GroupCount(side, s);
    GroupSums(side, s);
    GroupBestFirst(side, s);
    forall i | 0 <= i < |prices| ensures prices[i] in Prices(s) {
      assert Shows(g, g[i].price);
      GroupPrices(s, g[i].price);
    }
    forall i, p | 0 <= i < |prices| && p in Prices(s) && p !in prices
      ensures if side.BUY? then prices[i] > p else prices[i] < p
    {
      GroupPrices(s, p);
      assert HasPrice(s, p);
      var k :| 0 <= k < |g| && g[k].price == p;
      assert forall m :: 0 <= m < |d| ==> prices[m] == g[m].price;
      assert Better(side, g[i].price, g[k].price);
    }
  }

  // ---------- a new order in the depth ----------

  /** Adding quantity to one price of an L2 view. */
  function AddLevel(side: Side, depth: seq<PriceLevel>, price: Price, quantity: nat): seq<PriceLevel> {
    if depth == [] || Better(side, price, depth[0].price) then [PriceLevel(price, quantity)] + depth
    else if depth[0].price == price then [PriceLevel(price, depth[0].quantity + quantity)] + depth[1..]
    else [depth[0]] + AddLevel(side, depth[1..], price, quantity)
  }

  lemma MergeAdd(side: Side, o: Order, depth: seq<PriceLevel>, price: Price, quantity: nat)
    requires !Better(side, price, o.price)
    requires depth != [] ==> !Better(side, depth[0].price, o.price)
    ensures Merge(o, AddLevel(side, depth, price, quantity)) == AddLevel(side, Merge(o, depth), price, quantity)
  {
    if depth != [] && depth[0].price == o.price && price != o.price {
      assert AddLevel(side, depth, price, quantity) == [depth[0]] + AddLevel(side, depth[1..], price, quantity);
    }
    assert Merge(o, depth)[0].price == o.price;
  }

  lemma {:induction false} GroupInsert(s: seq<Order>, o: Order)
    requires Sorted(o.side, s)
    ensures Group(Insert(s, o)) == AddLevel(o.side, Group(s), o.price, o.remainingQuantity)
  {
    if s != [] {
      GroupBestFirst(o.side, s);
      if Better(o.side, o.price, s[0].price) {
        assert ([o] + s)[1..] == s;
      } else {
        var t := s[1..];
        GroupInsert(t, o);
        assert ([s[0]] + Insert(t, o))[1..] == Insert(t, o);
        if t != [] {
          GroupBestFirst(o.side, t);
          assert !Better(o.side, t[0].price, s[0].price);
        }
        MergeAdd(o.side, s[0], Group(t), o.price, o.remainingQuantity);
      }
    }
  }

  lemma {:induction false} AddLevelTwice(side: Side, depth: seq<PriceLevel>, price: Price, a: nat, b: nat)
    ensures AddLevel(side, AddLevel(side, depth, price, a), price, b) == AddLevel(side, depth, price, a + b)
  {
    if depth == [] || Better(side, price, depth[0].price) {
      assert ([PriceLevel(price, a)] + depth)[1..] == depth;
    } else if depth[0].price != price {
      AddLevelTwice(side, depth[1..], price, a, b);
    }
  }
}
