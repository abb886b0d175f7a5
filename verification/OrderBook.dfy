/** The two-level book: price levels in map order, each a FIFO list of stable nodes,
    with an index from order id to location beside it. */
module OrderBooks {
  import opened Types
  import opened FlatBook
  import opened FlatLemmas
  import opened Depth

  /** A list node. Only `remainingQuantity` is assigned after the order rests. */
  class RestingOrder {
    const orderId: nat
    const side: Side
    const orderType: OrderType
    const price: Price
    const quantity: nat
    const timestamp: nat
    var remainingQuantity: nat

    constructor (order: Order)
      ensures Value() == order
    {
      orderId := order.orderId;
      side := order.side;
      orderType := order.orderType;
      price := order.price;
      quantity := order.quantity;
      timestamp := order.timestamp;
      remainingQuantity := order.remainingQuantity;
    }

    function Value(): Order
      reads this
    {
      Order(orderId, side, orderType, price, quantity, remainingQuantity, timestamp)
    }
  }

  /** One entry of the price map. */
  datatype Level = Level(price: Price, orders: seq<RestingOrder>)

  datatype OrderLocation = OrderLocation(side: Side, price: Price, node: RestingOrder)

  type Index = map<nat, OrderLocation>

  function Flatten(levels: seq<Level>): seq<RestingOrder> {
    if levels == [] then [] else levels[0].orders + Flatten(levels[1..])
  }

  ghost function Values(nodes: seq<RestingOrder>): (r: seq<Order>)
    reads nodes
    ensures |r| == |nodes|
    ensures forall i :: 0 <= i < |nodes| ==> r[i] == nodes[i].Value()
  {
    if nodes == [] then [] else [nodes[0].Value()] + Values(nodes[1..])
  }

  twostate lemma {:induction false} ValuesFrame(nodes: seq<RestingOrder>)
    requires forall n :: n in nodes ==> n.remainingQuantity == old(n.remainingQuantity)
    ensures Values(nodes) == old(Values(nodes))
  {
    if nodes != [] { ValuesFrame(nodes[1..]); }
  }

  // ---------- the ordered map of lists ----------

  /** Whether the map has an entry for this price. */
  predicate HasLevel(levels: seq<Level>, price: Price) {
    exists i :: 0 <= i < |levels| && levels[i].price == price
  }

  /** `map[node.price].push_back(node)`: `operator[]` makes a level, in key order, if there is none. */
  function PushBack(side: Side, levels: seq<Level>, node: RestingOrder): seq<Level> {
    if levels == [] || Better(side, node.price, levels[0].price) then
      [Level(node.price, [node])] + levels
    else if levels[0].price == node.price then
      [Level(node.price, levels[0].orders + [node])] + levels[1..]
    else
      [levels[0]] + PushBack(side, levels[1..], node)
  }

  /** `std::list::erase` of one node. */
  function EraseNode(nodes: seq<RestingOrder>, node: RestingOrder): seq<RestingOrder> {
    if nodes == [] then []
    else if nodes[0] == node then nodes[1..]
    else [nodes[0]] + EraseNode(nodes[1..], node)
  }

  /** Erases a node from the level of its price, and the level from the map once it is empty.
      The level must exist, or `operator[]` would make one. */
  function Erase(levels: seq<Level>, price: Price, node: RestingOrder): seq<Level>
    requires HasLevel(levels, price)
  {
    if levels[0].price == price then
      var left := EraseNode(levels[0].orders, node);
      if left == [] then levels[1..] else [Level(price, left)] + levels[1..]
    else
      assert levels[1..] == levels[1..|levels|];
      [levels[0]] + Erase(levels[1..], price, node)
  }

  // ---------- the representation invariant ----------

  ghost predicate LevelOk(side: Side, level: Level) {
    level.orders != [] &&
    forall n :: n in level.orders ==> n.side == side && n.price == level.price
  }

  /** Keys strictly in comparator order (`std::greater` for bids, `std::less` for asks), no level empty. */
  ghost predicate LevelsOk(side: Side, levels: seq<Level>) {
    (forall i :: 0 <= i < |levels| ==> LevelOk(side, levels[i])) &&
    (forall i, j :: 0 <= i < j < |levels| ==> Better(side, levels[i].price, levels[j].price))
  }

  ghost predicate UniqueIds(nodes: seq<RestingOrder>) {
    forall i, j :: 0 <= i < j < |nodes| ==> nodes[i].orderId != nodes[j].orderId
  }

  ghost predicate Indexed(nodes: seq<RestingOrder>, index: Index) {
    forall n :: n in nodes ==> n.orderId in index && index[n.orderId].node == n
  }

  ghost predicate IndexOk(own: seq<RestingOrder>, other: seq<RestingOrder>, index: Index) {
    Indexed(own, index) && Indexed(other, index) &&
    forall id :: id in index ==>
      var l := index[id];
      l.node.orderId == id && l.side == l.node.side && l.price == l.node.price &&
      (l.node in own || l.node in other)
  }

  /** Both sides of the book and the index agree. */
  ghost predicate Consistent(bids: seq<Level>, asks: seq<Level>, index: Index) {
    LevelsOk(BUY, bids) && LevelsOk(SELL, asks) &&
    UniqueIds(Flatten(bids)) && UniqueIds(Flatten(asks)) &&
    IndexOk(Flatten(bids), Flatten(asks), index)
  }

  lemma {:induction false} NodeFacts(side: Side, levels: seq<Level>, node: RestingOrder)
    requires LevelsOk(side, levels) && node in Flatten(levels)
    ensures node.side == side && HasLevel(levels, node.price)
    ensures levels[0].price == node.price <==> node in levels[0].orders
  {
    assert LevelOk(side, levels[0]);
    if node in levels[0].orders {
      assert levels[0].price == node.price;
    } else {
      NodeFacts(side, levels[1..], node);
      var i :| 0 <= i < |levels[1..]| && levels[1..][i].price == node.price;
      assert levels[i + 1].price == node.price;
    }
  }

  lemma FlattenHead(side: Side, levels: seq<Level>)
    requires LevelsOk(side, levels) && levels != []
    ensures Flatten(levels) != [] && Flatten(levels)[0] == levels[0].orders[0]
    ensures Flatten(levels)[0].price == levels[0].price
  {
    assert LevelOk(side, levels[0]);
  }

  // ---------- adding a node ----------

  /** The node form of `FlatBook.Insert`. */
  function InsertNode(nodes: seq<RestingOrder>, node: RestingOrder): seq<RestingOrder> {
    if nodes == [] then [node]
    else if Better(node.side, node.price, nodes[0].price) then [node] + nodes
    else [nodes[0]] + InsertNode(nodes[1..], node)
  }

  lemma {:induction false} InsertNodeSkips(a: seq<RestingOrder>, b: seq<RestingOrder>, node: RestingOrder)
    requires forall n :: n in a ==> !Better(node.side, node.price, n.price)
    ensures InsertNode(a + b, node) == a + InsertNode(b, node)
  {
    if a == [] {
      assert a + b == b;
    } else {
      assert (a + b)[1..] == a[1..] + b;
      InsertNodeSkips(a[1..], b, node);
    }
  }

  lemma {:induction false} InsertNodeMembers(nodes: seq<RestingOrder>, node: RestingOrder)
    ensures forall n :: n in InsertNode(nodes, node) <==> n in nodes || n == node
  {
    if nodes != [] {
      assert nodes == [nodes[0]] + nodes[1..];
      InsertNodeMembers(nodes[1..], node);
    }
  }

  ghost predicate Avoids(nodes: seq<RestingOrder>, id: nat) {
    forall i :: 0 <= i < |nodes| ==> nodes[i].orderId != id
  }

  lemma {:induction false} InsertNodeAvoids(nodes: seq<RestingOrder>, node: RestingOrder, id: nat)
    requires Avoids(nodes, id) && node.orderId != id
    ensures Avoids(InsertNode(nodes, node), id)
  {
    if nodes != [] {
      InsertNodeAvoids(nodes[1..], node, id);
    }
  }

  lemma {:induction false} InsertNodeUnique(nodes: seq<RestingOrder>, node: RestingOrder)
    requires UniqueIds(nodes) && Avoids(nodes, node.orderId)
    ensures UniqueIds(InsertNode(nodes, node))
  {
    if nodes != [] {
      InsertNodeUnique(nodes[1..], node);
      InsertNodeAvoids(nodes[1..], node, nodes[0].orderId);
    }
  }

  lemma {:induction false} ValuesInsert(nodes: seq<RestingOrder>, node: RestingOrder)
    ensures Values(InsertNode(nodes, node)) == Insert(Values(nodes), node.Value())
  {
    if nodes != [] {
      ValuesInsert(nodes[1..], node);
    }
  }

  /** The map-of-lists insertion is the insertion into the flat list. */
  lemma {:induction false} PushBackFlatten(side: Side, levels: seq<Level>, node: RestingOrder)
    requires LevelsOk(side, levels) && node.side == side
    ensures Flatten(PushBack(side, levels, node)) == InsertNode(Flatten(levels), node)
  {
    if levels == [] {
      assert Flatten([Level(node.price, [node])] + levels) == [node];
    } else {
      FlattenHead(side, levels);
      assert LevelOk(side, levels[0]);
      var a, b := levels[0].orders, levels[1..];
      if Better(side, node.price, levels[0].price) {
        assert ([Level(node.price, [node])] + levels)[1..] == levels;
      } else {
        InsertNodeSkips(a, Flatten(b), node);
        if levels[0].price == node.price {
          if b != [] { FlattenHead(side, b); }
          assert InsertNode(Flatten(b), node) == [node] + Flatten(b);
          assert a + [node] + Flatten(b) == a + ([node] + Flatten(b));
        } else {
          PushBackFlatten(side, b, node);
        }
      }
    }
  }

  lemma {:induction false} InsertNodeSet(nodes: seq<RestingOrder>, node: RestingOrder)
    ensures (set n | n in InsertNode(nodes, node)) == (set n | n in nodes) + {node}
  {
    if nodes != [] {
      InsertNodeSet(nodes[1..], node);
      assert (set n | n in nodes) == {nodes[0]} + set n | n in nodes[1..];
      assert (set n | n in [nodes[0]] + InsertNode(nodes[1..], node)) ==
             {nodes[0]} + set n | n in InsertNode(nodes[1..], node);
    }
  }

  /** Every level is strictly behind price `p`. */
  ghost predicate Behind(side: Side, p: Price, levels: seq<Level>) {
    forall i :: 0 <= i < |levels| ==> Better(side, p, levels[i].price)
  }

  lemma {:induction false} PushBackBehind(side: Side, levels: seq<Level>, node: RestingOrder, p: Price)
    requires Behind(side, p, levels) && Better(side, p, node.price)
    ensures Behind(side, p, PushBack(side, levels, node))
  {
    if levels != [] {
      PushBackBehind(side, levels[1..], node, p);
    }
  }

  lemma {:induction false} PushBackOk(side: Side, levels: seq<Level>, node: RestingOrder)
    requires LevelsOk(side, levels) && node.side == side
    ensures LevelsOk(side, PushBack(side, levels, node))
  {
    if levels != [] && !Better(side, node.price, levels[0].price) {
      if levels[0].price == node.price {
        assert LevelOk(side, levels[0]);
      } else {
        PushBackOk(side, levels[1..], node);
        PushBackBehind(side, levels[1..], node, levels[0].price);
      }
    }
  }

  // ---------- erasing a node ----------

  lemma {:induction false} EraseNodeConcat(a: seq<RestingOrder>, b: seq<RestingOrder>, node: RestingOrder)
    ensures EraseNode(a + b, node) ==
            if node in a then EraseNode(a, node) + b else a + EraseNode(b, node)
  {
    if a == [] {
      assert a + b == b;
    } else {
      var t := a[1..];
      assert (a + b)[0] == a[0] && (a + b)[1..] == t + b;
      if a[0] != node {
        EraseNodeConcat(t, b, node);
        if node in t {
          assert [a[0]] + (EraseNode(t, node) + b) == ([a[0]] + EraseNode(t, node)) + b;
        } else {
          assert [a[0]] + (t + EraseNode(b, node)) == a + EraseNode(b, node);
        }
      }
    }
  }

  lemma {:induction false} EraseNodeMembers(nodes: seq<RestingOrder>, node: RestingOrder)
    ensures forall n :: n in EraseNode(nodes, node) ==> n in nodes
    ensures forall n :: n in nodes && n != node ==> n in EraseNode(nodes, node)
  {
    if nodes != [] {
      assert nodes == [nodes[0]] + nodes[1..];
      if nodes[0] != node {
        EraseNodeMembers(nodes[1..], node);
      }
    }
  }

  lemma {:induction false} EraseNodeUnique(nodes: seq<RestingOrder>, node: RestingOrder)
    requires UniqueIds(nodes)
    ensures UniqueIds(EraseNode(nodes, node))
    ensures node !in EraseNode(nodes, node)
  {
    if nodes != [] && nodes[0] != node {
      EraseNodeUnique(nodes[1..], node);
      EraseNodeMembers(nodes[1..], node);
      var r := EraseNode(nodes[1..], node);
      forall i | 0 <= i < |r| ensures r[i].orderId != nodes[0].orderId {
        assert r[i] in r && r[i] in nodes[1..];
      }
    }
  }

  lemma {:induction false} ValuesErase(nodes: seq<RestingOrder>, node: RestingOrder)
    requires UniqueIds(nodes)
    requires forall n :: n in nodes && n.orderId == node.orderId ==> n == node
    ensures Values(EraseNode(nodes, node)) == Without(Values(nodes), node.orderId)
  {
    if nodes != [] {
      if nodes[0] == node {
        NodeIds(nodes[1..], node.orderId);
        WithoutAbsent(Values(nodes[1..]), node.orderId);
      } else {
        assert nodes[0] in nodes;
        ValuesErase(nodes[1..], node);
      }
    }
  }

  lemma NodeIds(nodes: seq<RestingOrder>, id: nat)
    ensures HasId(Values(nodes), id) <==> exists n :: n in nodes && n.orderId == id
  {
    if n :| n in nodes && n.orderId == id {
      var i :| 0 <= i < |nodes| && nodes[i] == n;
      assert Values(nodes)[i].orderId == id;
    }
    if HasId(Values(nodes), id) {
      var i :| 0 <= i < |nodes| && Values(nodes)[i].orderId == id;
      assert nodes[i] in nodes;
    }
  }

  lemma {:induction false} EraseFlatten(side: Side, levels: seq<Level>, node: RestingOrder)
    requires LevelsOk(side, levels) && node in Flatten(levels)
    ensures HasLevel(levels, node.price)
    ensures Flatten(Erase(levels, node.price, node)) == EraseNode(Flatten(levels), node)
  {
    NodeFacts(side, levels, node);
    EraseNodeConcat(levels[0].orders, Flatten(levels[1..]), node);
    if levels[0].price != node.price {
      EraseFlatten(side, levels[1..], node);
    }
  }

  lemma {:induction false} EraseBehind(side: Side, levels: seq<Level>, node: RestingOrder, p: Price)
    requires Behind(side, p, levels) && HasLevel(levels, node.price)
    ensures Behind(side, p, Erase(levels, node.price, node))
  {
    if levels[0].price != node.price {
      EraseBehind(side, levels[1..], node, p);
    }
  }

  lemma {:induction false} EraseOk(side: Side, levels: seq<Level>, node: RestingOrder)
    requires LevelsOk(side, levels) && HasLevel(levels, node.price)
    ensures LevelsOk(side, Erase(levels, node.price, node))
  {
    assert LevelOk(side, levels[0]);
    EraseNodeMembers(levels[0].orders, node);
    if levels[0].price != node.price {
      EraseOk(side, levels[1..], node);
      EraseBehind(side, levels[1..], node, levels[0].price);
    }
  }

  // ---------- what the book's updates keep ----------

  lemma IndexAdd(own: seq<RestingOrder>, other: seq<RestingOrder>, index: Index,
                 own': seq<RestingOrder>, node: RestingOrder)
    requires IndexOk(own, other, index) && node.orderId !in index
    requires forall n :: n in own' <==> n in own || n == node
    ensures IndexOk(own', other, index[node.orderId := OrderLocation(node.side, node.price, node)])
  {
  }

  lemma IndexRemove(own: seq<RestingOrder>, other: seq<RestingOrder>, index: Index,
                    own': seq<RestingOrder>, node: RestingOrder)
    requires IndexOk(own, other, index) && node in own && node !in other
    requires forall n :: n in own' <==> n in own && n != node
    ensures IndexOk(own', other, index - {node.orderId})
  {
  }

  lemma AddBidKeeps(bids: seq<Level>, asks: seq<Level>, index: Index, node: RestingOrder)
    requires Consistent(bids, asks, index)
    requires node.side.BUY? && node.orderId !in index
    ensures Consistent(PushBack(BUY, bids, node), asks,
                       index[node.orderId := OrderLocation(BUY, node.price, node)])
    ensures Flatten(PushBack(BUY, bids, node)) == InsertNode(Flatten(bids), node)
  {
    PushBackOk(BUY, bids, node);
    PushBackFlatten(BUY, bids, node);
    InsertNodeUnique(Flatten(bids), node);
    InsertNodeMembers(Flatten(bids), node);
    IndexAdd(Flatten(bids), Flatten(asks), index, InsertNode(Flatten(bids), node), node);
  }

  lemma AddAskKeeps(bids: seq<Level>, asks: seq<Level>, index: Index, node: RestingOrder)
    requires Consistent(bids, asks, index)
    requires node.side.SELL? && node.orderId !in index
    ensures Consistent(bids, PushBack(SELL, asks, node),
                       index[node.orderId := OrderLocation(SELL, node.price, node)])
    ensures Flatten(PushBack(SELL, asks, node)) == InsertNode(Flatten(asks), node)
  {
    PushBackOk(SELL, asks, node);
    PushBackFlatten(SELL, asks, node);
    InsertNodeUnique(Flatten(asks), node);
    InsertNodeMembers(Flatten(asks), node);
    IndexAdd(Flatten(asks), Flatten(bids), index, InsertNode(Flatten(asks), node), node);
  }

  /** The two sides hold different orders. */
  lemma SidesApart(bids: seq<Level>, asks: seq<Level>, index: Index, b: RestingOrder, a: RestingOrder)
    requires Consistent(bids, asks, index)
    requires b in Flatten(bids) && a in Flatten(asks)
    ensures b != a && b.orderId != a.orderId
  {
    NodeFacts(BUY, bids, b);
    NodeFacts(SELL, asks, a);
  }

  lemma EraseBidKeeps(bids: seq<Level>, asks: seq<Level>, index: Index, node: RestingOrder)
    requires Consistent(bids, asks, index)
    requires node in Flatten(bids)
    ensures HasLevel(bids, node.price)
    ensures Consistent(Erase(bids, node.price, node), asks, index - {node.orderId})
    ensures Flatten(Erase(bids, node.price, node)) == EraseNode(Flatten(bids), node)
  {
    EraseFlatten(BUY, bids, node);
    EraseOk(BUY, bids, node);
    EraseNodeMembers(Flatten(bids), node);
    EraseNodeUnique(Flatten(bids), node);
    forall a | a in Flatten(asks) ensures a != node { SidesApart(bids, asks, index, node, a); }
    IndexRemove(Flatten(bids), Flatten(asks), index, EraseNode(Flatten(bids), node), node);
  }

  lemma EraseAskKeeps(bids: seq<Level>, asks: seq<Level>, index: Index, node: RestingOrder)
    requires Consistent(bids, asks, index)
    requires node in Flatten(asks)
    ensures HasLevel(asks, node.price)
    ensures Consistent(bids, Erase(asks, node.price, node), index - {node.orderId})
    ensures Flatten(Erase(asks, node.price, node)) == EraseNode(Flatten(asks), node)
  {
    EraseFlatten(SELL, asks, node);
    EraseOk(SELL, asks, node);
    EraseNodeMembers(Flatten(asks), node);
    EraseNodeUnique(Flatten(asks), node);
    forall b | b in Flatten(bids) ensures b != node { SidesApart(bids, asks, index, b, node); }
    IndexRemove(Flatten(asks), Flatten(bids), index, EraseNode(Flatten(asks), node), node);
  }

  /** Deleting by id erases the indexed node from its own side and nothing from the other. */
  lemma EraseValues(bids: seq<Level>, asks: seq<Level>, index: Index, id: nat)
    requires Consistent(bids, asks, index) && id in index
    ensures Without(Values(Flatten(bids)), id) == Values(EraseNode(Flatten(bids), index[id].node))
    ensures Without(Values(Flatten(asks)), id) == Values(EraseNode(Flatten(asks), index[id].node))
  {
    ValuesErase(Flatten(bids), index[id].node);
    ValuesErase(Flatten(asks), index[id].node);
  }

  lemma {:induction false} EraseNodeAbsent(nodes: seq<RestingOrder>, node: RestingOrder)
    requires node !in nodes
    ensures EraseNode(nodes, node) == nodes
  {
    if nodes != [] { EraseNodeAbsent(nodes[1..], node); }
  }

  /** The index records the side on which the node rests. */
  lemma LocationSide(bids: seq<Level>, asks: seq<Level>, index: Index, id: nat)
    requires Consistent(bids, asks, index) && id in index
    ensures var l := index[id];
      l.price == l.node.price && l.node.orderId == id &&
      (l.side.BUY? <==> l.node in Flatten(bids)) && (l.side.SELL? <==> l.node in Flatten(asks))
  {
    var node := index[id].node;
    if node in Flatten(bids) { NodeFacts(BUY, bids, node); }
    if node in Flatten(asks) { NodeFacts(SELL, asks, node); }
  }

  /** The front node of the first level; null if there is no level, or it were empty. */
  function Front(levels: seq<Level>): RestingOrder? {
    if levels == [] || levels[0].orders == [] then null else levels[0].orders[0]
  }

  lemma FrontOfSide(side: Side, levels: seq<Level>)
    requires LevelsOk(side, levels)
    ensures Front(levels) == null <==> Flatten(levels) == []
    ensures Front(levels) != null ==> Front(levels) == Flatten(levels)[0]
  {
    if levels != [] { FlattenHead(side, levels); }
  }

  /** Removing the front node of the best level, and the level once it is empty. */
  function Pop(levels: seq<Level>): seq<Level>
    requires levels != [] && levels[0].orders != []
  {
    var left := levels[0].orders[1..];
    if left == [] then levels[1..] else levels[0 := Level(levels[0].price, left)]
  }

  lemma PopIsErase(side: Side, levels: seq<Level>)
    requires LevelsOk(side, levels) && levels != []
    ensures levels[0].orders != [] && HasLevel(levels, levels[0].price)
    ensures var node := levels[0].orders[0];
      node == Flatten(levels)[0] && node.price == levels[0].price &&
      Pop(levels) == Erase(levels, node.price, node) &&
      EraseNode(Flatten(levels), node) == Flatten(levels)[1..]
  {
    FlattenHead(side, levels);
    assert LevelOk(side, levels[0]);
  }

  lemma PopBidKeeps(bids: seq<Level>, asks: seq<Level>, index: Index)
    requires Consistent(bids, asks, index) && bids != []
    ensures bids[0].orders != [] && bids[0].orders[0] == Flatten(bids)[0]
    ensures Consistent(Pop(bids), asks, index - {Flatten(bids)[0].orderId})
    ensures Flatten(Pop(bids)) == Flatten(bids)[1..]
  {
    assert LevelOk(BUY, bids[0]);
    PopIsErase(BUY, bids);
    EraseBidKeeps(bids, asks, index, Flatten(bids)[0]);
  }

  lemma PopAskKeeps(bids: seq<Level>, asks: seq<Level>, index: Index)
    requires Consistent(bids, asks, index) && asks != []
    ensures asks[0].orders != [] && asks[0].orders[0] == Flatten(asks)[0]
    ensures Consistent(bids, Pop(asks), index - {Flatten(asks)[0].orderId})
    ensures Flatten(Pop(asks)) == Flatten(asks)[1..]
  {
    assert LevelOk(SELL, asks[0]);
    PopIsErase(SELL, asks);
    EraseAskKeeps(bids, asks, index, Flatten(asks)[0]);
  }

  // ---------- the read-only queries ----------

  lemma {:induction false} ValuesConcat(a: seq<RestingOrder>, b: seq<RestingOrder>)
    ensures Values(a + b) == Values(a) + Values(b)
  {
    if a == [] {
      assert a + b == b;
    } else {
      assert (a + b)[1..] == a[1..] + b;
      ValuesConcat(a[1..], b);
    }
  }

  lemma FlattenParts(levels: seq<Level>)
    requires levels != []
    ensures forall i :: 0 <= i < |levels[0].orders| ==> levels[0].orders[i] == Flatten(levels)[i]
    ensures forall i :: 0 <= i < |Flatten(levels[1..])| ==>
      Flatten(levels[1..])[i] == Flatten(levels)[|levels[0].orders| + i]
  {
  }

  /** What a map holds level by level. */
  ghost function LevelTotals(levels: seq<Level>): (r: seq<PriceLevel>)
    reads Flatten(levels)
    ensures |r| == |levels|
  {
    if levels == [] then []
    else
      var a, b := levels[0].orders, levels[1..];
      FlattenParts(levels);
      [PriceLevel(levels[0].price, Total(Values(a)))] + LevelTotals(b)
  }

  lemma {:induction false} LevelTotalsAt(levels: seq<Level>, i: nat)
    requires i < |levels|
    ensures LevelTotals(levels)[i] == PriceLevel(levels[i].price, Total(Values(levels[i].orders)))
  {
    if i > 0 { LevelTotalsAt(levels[1..], i - 1); }
  }

  /** Level by level is the same as grouping the flat list by price. */
  lemma {:induction false} LevelsGroup(side: Side, levels: seq<Level>)
    requires LevelsOk(side, levels)
    ensures Group(Values(Flatten(levels))) == LevelTotals(levels)
  {
    if levels != [] {
      assert LevelOk(side, levels[0]);
      var a, b := levels[0].orders, Flatten(levels[1..]);
      LevelsGroup(side, levels[1..]);
      ValuesConcat(a, b);
      if levels[1..] != [] { FlattenHead(side, levels[1..]); }
      GroupLevel(Values(a), Values(b));
    }
  }

  /** The loops of the depth queries over one side, in `std::uint64_t` arithmetic. */
  method LevelDepth(levels: seq<Level>, n: nat) returns (depth: seq<PriceLevel>)
    ensures depth == Wrap(Take(LevelTotals(levels), n))
  {
    hide Flatten, LevelTotals;
    forall k | 0 <= k < |levels|
      ensures LevelTotals(levels)[k] == PriceLevel(levels[k].price, Total(Values(levels[k].orders)))
    {
      LevelTotalsAt(levels, k);
    }
    forall k, i | 0 <= k < |levels| && 0 <= i < |levels[k].orders|
      ensures Total(Values(levels[k].orders)[..i + 1]) ==
              Total(Values(levels[k].orders)[..i]) + levels[k].orders[i].remainingQuantity
    {
      TotalSnoc(Values(levels[k].orders), i);
    }
    depth := [];
    var count := 0;
    while count < |levels|
      invariant count <= |levels| && count <= n && |depth| == count
      invariant forall k :: 0 <= k < count ==>
        var t := LevelTotals(levels)[k];
        depth[k] == PriceLevel(t.price, t.quantity % TWO_64)
    {
      if count >= n { break; }
      var totalQuantity := 0;
      var orders := levels[count].orders;
      for i := 0 to |orders|
        invariant totalQuantity == Total(Values(orders)[..i]) % TWO_64
      {
        totalQuantity := (totalQuantity + orders[i].remainingQuantity) % TWO_64;
      }
      assert Values(orders)[..|orders|] == Values(orders);
      depth := depth + [PriceLevel(levels[count].price, totalQuantity)];
      count := count + 1;
    }
  }

  /** The values of the first levels, for every number of levels. */
  ghost function Prefixes(levels: seq<Level>): (p: seq<seq<Order>>)
    reads Flatten(levels)
    ensures |p| == |levels| + 1 && p[0] == []
  {
    if levels == [] then [[]]
    else
      var a, b := levels[0].orders, levels[1..];
      FlattenParts(levels);
      var rest := Prefixes(b);
      [[]] + seq(|rest|, i requires 0 <= i < |rest| reads a => Values(a) + rest[i])
  }

  lemma {:induction false} PrefixLast(levels: seq<Level>)
    ensures Prefixes(levels)[|levels|] == Values(Flatten(levels))
  {
    if levels != [] {
      PrefixLast(levels[1..]);
      ValuesConcat(levels[0].orders, Flatten(levels[1..]));
    }
  }

  lemma {:induction false} PrefixStep(levels: seq<Level>, i: nat)
    requires i < |levels|
    ensures Prefixes(levels)[i + 1] == Prefixes(levels)[i] + Values(levels[i].orders)
  {
    if i > 0 { PrefixStep(levels[1..], i - 1); }
  }

  /** The two nested loops of `getOpenOrders`, for one side. */
  method OpenOrders(levels: seq<Level>) returns (orders: seq<Order>)
    ensures orders == Values(Flatten(levels))
  {
    hide Flatten, Prefixes;
    ghost var p := Prefixes(levels);
    PrefixLast(levels);
    forall i | 0 <= i < |levels| ensures p[i + 1] == p[i] + Values(levels[i].orders) {
      PrefixStep(levels, i);
    }
    orders := [];
    for i := 0 to |levels|
      invariant orders == p[i]
    {
      var level := levels[i].orders;
      for j := 0 to |level|
        invariant orders == p[i] + Values(level)[..j]
      {
        orders := orders + [level[j].Value()];
      }
      assert Values(level)[..|level|] == Values(level);
    }
  }

  class OrderBook {
    var bids: seq<Level>
    var asks: seq<Level>
    var orderLocations: Index

    /** The nodes of a side in priority order. */
    ghost function BidNodes(): seq<RestingOrder> reads this { Flatten(bids) }
    ghost function AskNodes(): seq<RestingOrder> reads this { Flatten(asks) }

    ghost function AllNodes(): seq<RestingOrder> reads this { BidNodes() + AskNodes() }

    ghost function Nodes(): set<RestingOrder>
      reads this
    {
      (set n | n in BidNodes()) + (set n | n in AskNodes())
    }

    ghost predicate Valid()
      reads this
    {
      Consistent(bids, asks, orderLocations)
    }

    ghost function Bids(): seq<Order> reads this, BidNodes() { Values(BidNodes()) }
    ghost function Asks(): seq<Order> reads this, AskNodes() { Values(AskNodes()) }

    /** The abstract value: one flat priority list per side. */
    ghost function Contents(): Book
      reads this, BidNodes(), AskNodes()
    {
      Book(Bids(), Asks())
    }

    constructor ()
      ensures Valid() && Contents() == EMPTY && Nodes() == {} && orderLocations == map[]
    {
      bids, asks, orderLocations := [], [], map[];
    }

    /** From these nodes and this index, the order has come to rest in a node of its own, which the
        index knows; nothing else has changed. */
    ghost predicate Rested(order: Order, buys: seq<RestingOrder>, sells: seq<RestingOrder>, index: Index)
      reads this
    {
      order.orderId in orderLocations &&
      var node := orderLocations[order.orderId].node;
      orderLocations == index[order.orderId := OrderLocation(order.side, order.price, node)] &&
      BidNodes() == (if order.side.BUY? then InsertNode(buys, node) else buys) &&
      AskNodes() == (if order.side.SELL? then InsertNode(sells, node) else sells)
    }

    /** The order rests behind all orders of equal or better price, in a node of its own. */
    method AddOrder(order: Order) returns (ghost node: RestingOrder)
      requires Valid()
      requires order.orderId !in orderLocations
      modifies this
      ensures Valid() && fresh(Nodes() - old(Nodes()))
      ensures Rested(order, old(BidNodes()), old(AskNodes()), old(orderLocations))
      ensures node == orderLocations[order.orderId].node && node.Value() == order
      ensures Bids() == if order.side.BUY? then Insert(old(Bids()), order) else old(Bids())
      ensures Asks() == if order.side.SELL? then Insert(old(Asks()), order) else old(Asks())
    {
      hide Flatten, Values, Consistent;
      var added := new RestingOrder(order);
      node := added;
      if order.side.BUY? {
        InsertNodeSet(BidNodes(), node);
        AddBid(added);
        ValuesInsert(old(BidNodes()), node);
      } else {
        InsertNodeSet(AskNodes(), node);
        AddAsk(added);
        ValuesInsert(old(AskNodes()), node);
      }
      ValuesFrame(old(BidNodes()));
      ValuesFrame(old(AskNodes()));
    }

    /** The BUY branch of `AddOrder`. */
    method AddBid(node: RestingOrder)
      requires Valid()
      requires node.side.BUY? && node.orderId !in orderLocations
      modifies this
      ensures Valid() && asks == old(asks) && BidNodes() == InsertNode(old(BidNodes()), node)
      ensures orderLocations ==
        old(orderLocations)[node.orderId := OrderLocation(BUY, node.price, node)]
    {
      AddBidKeeps(bids, asks, orderLocations, node);
      bids := PushBack(BUY, bids, node);
      orderLocations := orderLocations[node.orderId := OrderLocation(BUY, node.price, node)];
    }

    /** The SELL branch of `AddOrder`. */
    method AddAsk(node: RestingOrder)
      requires Valid()
      requires node.side.SELL? && node.orderId !in orderLocations
      modifies this
      ensures Valid() && bids == old(bids) && AskNodes() == InsertNode(old(AskNodes()), node)
      ensures orderLocations ==
        old(orderLocations)[node.orderId := OrderLocation(SELL, node.price, node)]
    {
      AddAskKeeps(bids, asks, orderLocations, node);
      asks := PushBack(SELL, asks, node);
      orderLocations := orderLocations[node.orderId := OrderLocation(SELL, node.price, node)];
    }

    /** Writes elsewhere leave the book as it was. */
    twostate lemma Untouched(nodes: seq<RestingOrder>)
      requires old(Valid()) && unchanged(this) && nodes == AllNodes()
      requires forall n :: n in nodes ==> n.remainingQuantity == old(n.remainingQuantity)
      ensures Valid() && Nodes() == old(Nodes())
      ensures Bids() == old(Bids()) && Asks() == old(Asks()) && Contents() == old(Contents())
    {
      assert forall n :: n in BidNodes() || n in AskNodes() ==> n in nodes;
      ValuesFrame(BidNodes());
      ValuesFrame(AskNodes());
    }

    /** The front node of a side is nowhere else in the book. */
    lemma BestBidApart()
      requires Valid() && BidNodes() != []
      ensures BidNodes()[0] !in AskNodes() && BidNodes()[0] !in BidNodes()[1..]
    {
      if BidNodes()[0] in AskNodes() {
        SidesApart(bids, asks, orderLocations, BidNodes()[0], BidNodes()[0]);
      }
    }

    lemma BestAskApart()
      requires Valid() && AskNodes() != []
      ensures AskNodes()[0] !in BidNodes() && AskNodes()[0] !in AskNodes()[1..]
    {
      if AskNodes()[0] in BidNodes() {
        SidesApart(bids, asks, orderLocations, AskNodes()[0], AskNodes()[0]);
      }
    }

    /** Null exactly when there is no BUY order; otherwise the highest-priority one. */
    function BestBid(): (best: RestingOrder?)
      requires Valid()
      reads this
      ensures best == null <==> BidNodes() == []
      ensures best != null ==> best == BidNodes()[0]
    {
      FrontOfSide(BUY, bids);
      Front(bids)
    }

    /** Null exactly when there is no SELL order; otherwise the highest-priority one. */
    function BestAsk(): (best: RestingOrder?)
      requires Valid()
      reads this
      ensures best == null <==> AskNodes() == []
      ensures best != null ==> best == AskNodes()[0]
    {
      FrontOfSide(SELL, asks);
      Front(asks)
    }

    method RemoveBestBid() returns (removed: bool)
      requires Valid()
      modifies this
      ensures Valid() && asks == old(asks)
      ensures removed <==> old(BidNodes()) != []
      ensures BidNodes() == if removed then old(BidNodes())[1..] else old(BidNodes())
      ensures orderLocations == if removed
        then old(orderLocations) - {old(BidNodes())[0].orderId} else old(orderLocations)
    {
      if bids == [] { return false; }
      assert LevelOk(BUY, bids[0]);
      if bids[0].orders == [] { return false; }
      PopBidKeeps(bids, asks, orderLocations);
      orderLocations := orderLocations - {bids[0].orders[0].orderId};
      bids := bids[0 := Level(bids[0].price, bids[0].orders[1..])];
      if bids[0].orders == [] { bids := bids[1..]; }
      removed := true;
    }

    method RemoveBestAsk() returns (removed: bool)
      requires Valid()
      modifies this
      ensures Valid() && bids == old(bids)
      ensures removed <==> old(AskNodes()) != []
      ensures AskNodes() == if removed then old(AskNodes())[1..] else old(AskNodes())
      ensures orderLocations == if removed
        then old(orderLocations) - {old(AskNodes())[0].orderId} else old(orderLocations)
    {
      if asks == [] { return false; }
      assert LevelOk(SELL, asks[0]);
      if asks[0].orders == [] { return false; }
      PopAskKeeps(bids, asks, orderLocations);
      orderLocations := orderLocations - {asks[0].orders[0].orderId};
      asks := asks[0 := Level(asks[0].price, asks[0].orders[1..])];
      if asks[0].orders == [] { asks := asks[1..]; }
      removed := true;
    }

    /** Deletes the order through the index, from whatever place it has in its level. */
    method CancelOrder(orderId: nat) returns (found: bool)
      requires Valid()
      modifies this
      ensures Valid() && Nodes() <= old(Nodes())
      ensures found <==> old(Rests(Contents(), orderId))
      ensures Contents() == old(CancelBook(Contents(), orderId))
      ensures found <==> orderId in old(orderLocations)
      ensures orderLocations == old(orderLocations) - {orderId}
      ensures if !found then unchanged(this) else
        var node := old(orderLocations)[orderId].node;
        BidNodes() == EraseNode(old(BidNodes()), node) && AskNodes() == EraseNode(old(AskNodes()), node)
    {
      hide Flatten, Values;
      IndexedIds(orderId);
      if orderId !in orderLocations {
        WithoutAbsent(Bids(), orderId);
        WithoutAbsent(Asks(), orderId);
        return false;
      }
      EraseValues(bids, asks, orderLocations, orderId);
      EraseLocated(orderId);
      ValuesFrame(BidNodes());
      ValuesFrame(AskNodes());
      found := true;
    }

    /** `CancelOrder` for an id the index knows. */
    method EraseLocated(orderId: nat)
      requires Valid()
      requires orderId in orderLocations
      modifies this
      ensures Valid() && Nodes() <= old(Nodes())
      ensures var node := old(orderLocations)[orderId].node;
        BidNodes() == EraseNode(old(BidNodes()), node) && AskNodes() == EraseNode(old(AskNodes()), node)
      ensures orderLocations == old(orderLocations) - {orderId}
    {
      var loc := orderLocations[orderId];
      LocationSide(bids, asks, orderLocations, orderId);
      EraseNodeMembers(BidNodes(), loc.node);
      EraseNodeMembers(AskNodes(), loc.node);
      if loc.side.BUY? {
        EraseBidKeeps(bids, asks, orderLocations, loc.node);
        EraseNodeAbsent(AskNodes(), loc.node);
        bids := Erase(bids, loc.price, loc.node);
      } else {
        EraseAskKeeps(bids, asks, orderLocations, loc.node);
        EraseNodeAbsent(BidNodes(), loc.node);
        asks := Erase(asks, loc.price, loc.node);
      }
      orderLocations := orderLocations - {orderId};
    }

    /** The ids the index knows are exactly the ids of the resting orders. */
    lemma IndexedIds(id: nat)
      requires Valid()
      ensures id in orderLocations <==> Rests(Contents(), id)
      ensures id in orderLocations ==> orderLocations[id].node.orderId == id
    {
      NodeIds(BidNodes(), id);
      NodeIds(AskNodes(), id);
    }

    /** Aggregated BUY-side depth: the best `levels` prices with their summed quantities. */
    method GetBidDepth(levels: nat) returns (depth: seq<PriceLevel>)
      requires Valid()
      ensures depth == Wrap(Take(Group(Bids()), levels))
      ensures DepthOf(BUY, Bids(), levels, depth)
    {
      hide Flatten, Values, LevelTotals, DepthOf;
      LevelsGroup(BUY, bids);
      LevelsSorted(BUY, bids);
      DepthIs(BUY, Bids(), levels);
      depth := LevelDepth(bids, levels);
    }

    /** Aggregated SELL-side depth. */
    method GetAskDepth(levels: nat) returns (depth: seq<PriceLevel>)
      requires Valid()
      ensures depth == Wrap(Take(Group(Asks()), levels))
      ensures DepthOf(SELL, Asks(), levels, depth)
    {
      hide Flatten, Values, LevelTotals, DepthOf;
      LevelsGroup(SELL, asks);
      LevelsSorted(SELL, asks);
      DepthIs(SELL, Asks(), levels);
      depth := LevelDepth(asks, levels);
    }

    /** Every resting order, bids before asks, each side in priority order. */
    method GetOpenOrders() returns (openOrders: seq<Order>)
      requires Valid()
      ensures openOrders == Bids() + Asks()
    {
      hide Flatten, Values;
      var buys := OpenOrders(bids);
      var sells := OpenOrders(asks);
      openOrders := buys + sells;
    }
  }

  // ---------- adding and cancelling ----------

  lemma {:induction false} EraseInserted(nodes: seq<RestingOrder>, node: RestingOrder)
    requires node !in nodes
    ensures EraseNode(InsertNode(nodes, node), node) == nodes
  {
    if nodes != [] && !Better(node.side, node.price, nodes[0].price) {
      EraseInserted(nodes[1..], node);
    }
  }

  /** The levels of a side are determined by its nodes in priority order. */
  lemma {:induction false} LevelsDetermined(side: Side, a: seq<Level>, b: seq<Level>)
    requires LevelsOk(side, a) && LevelsOk(side, b) && Flatten(a) == Flatten(b)
    ensures a == b
  {
    if a != [] {
      FlattenHead(side, a);
      FlattenHead(side, b);
      FirstLevelFits(side, a, b);
      FirstLevelFits(side, b, a);
      var x, y := a[0].orders, b[0].orders;
      assert Flatten(a)[..|x|] == x && Flatten(b)[..|y|] == y;
      assert Flatten(a)[|x|..] == Flatten(a[1..]) && Flatten(b)[|y|..] == Flatten(b[1..]);
      assert a == [a[0]] + a[1..] && b == [b[0]] + b[1..];
      LevelsDetermined(side, a[1..], b[1..]);
    } else if b != [] {
      FlattenHead(side, b);
    }
  }

  /** Within the first level all prices are equal; behind it all are worse. */
  lemma PricesByPosition(side: Side, levels: seq<Level>, i: nat)
    requires LevelsOk(side, levels) && levels != [] && i < |Flatten(levels)|
    ensures if i < |levels[0].orders| then Flatten(levels)[i].price == levels[0].price
            else Better(side, levels[0].price, Flatten(levels)[i].price)
  {
    FlattenParts(levels);
    if i < |levels[0].orders| {
      assert LevelOk(side, levels[0]);
      assert levels[0].orders[i] in levels[0].orders;
    } else {
      LaterPrice(side, levels, Flatten(levels[1..])[i - |levels[0].orders|]);
    }
  }

  lemma LaterPrice(side: Side, levels: seq<Level>, node: RestingOrder)
    requires LevelsOk(side, levels) && levels != [] && node in Flatten(levels[1..])
    ensures Better(side, levels[0].price, node.price)
  {
    NodeFacts(side, levels[1..], node);
    var k :| 0 <= k < |levels[1..]| && levels[1..][k].price == node.price;
    assert Better(side, levels[0].price, levels[k + 1].price);
  }

  /** A side is sorted. */
  lemma {:induction false} LevelsSorted(side: Side, levels: seq<Level>)
    requires LevelsOk(side, levels)
    ensures Sorted(side, Values(Flatten(levels)))
  {
    var nodes := Flatten(levels);
    forall i, j | 0 <= i < j < |nodes| ensures !Better(side, nodes[j].price, nodes[i].price) {
      PricesInOrder(side, levels, i, j);
    }
  }

  lemma {:induction false} PricesInOrder(side: Side, levels: seq<Level>, i: nat, j: nat)
    requires LevelsOk(side, levels) && i < j < |Flatten(levels)|
    ensures !Better(side, Flatten(levels)[j].price, Flatten(levels)[i].price)
  {
    var n := |levels[0].orders|;
    PricesByPosition(side, levels, i);
    PricesByPosition(side, levels, j);
    if i >= n {
      FlattenParts(levels);
      PricesInOrder(side, levels[1..], i - n, j - n);
    }
  }

  /** The first level of one holds no more than that of the other: the next price is worse. */
  lemma FirstLevelFits(side: Side, a: seq<Level>, b: seq<Level>)
    requires LevelsOk(side, a) && LevelsOk(side, b) && Flatten(a) == Flatten(b)
    requires a != [] && b != [] && a[0].price == b[0].price
    ensures |a[0].orders| <= |b[0].orders|
  {
    var i := |b[0].orders|;
    if i < |Flatten(a)| {
      PricesByPosition(side, a, i);
      PricesByPosition(side, b, i);
    }
    assert |a[0].orders| <= |Flatten(a)|;
  }

  lemma UnusedId(bids: seq<Level>, asks: seq<Level>, index: Index, id: nat)
    requires Consistent(bids, asks, index) && id !in index
    ensures Avoids(Flatten(bids), id) && Avoids(Flatten(asks), id)
  {
  }

  /** A side from which a node that was not there is erased, inserted before or not, is as it was. */
  lemma SideRestored(side: Side, was: seq<Level>, now: seq<Level>, node: RestingOrder, inserted: bool)
    requires LevelsOk(side, was) && LevelsOk(side, now) && Avoids(Flatten(was), node.orderId)
    requires Flatten(now) == EraseNode(if inserted then InsertNode(Flatten(was), node) else Flatten(was), node)
    ensures now == was
  {
    hide LevelsOk, Flatten, InsertNode, EraseNode;
    EraseInserted(Flatten(was), node);
    EraseNodeAbsent(Flatten(was), node);
    LevelsDetermined(side, now, was);
  }

  /** Resting a fresh order and cancelling it restores both maps, level by level, and the index. */
  method AddThenCancel(book: OrderBook, order: Order)
    requires book.Valid() && order.orderId !in book.orderLocations
    modifies book
    ensures book.Valid()
    ensures book.bids == old(book.bids) && book.asks == old(book.asks)
    ensures book.orderLocations == old(book.orderLocations)
  {
    hide Flatten, Values, LevelsOk, UniqueIds, IndexOk, InsertNode, EraseNode;
    UnusedId(book.bids, book.asks, book.orderLocations, order.orderId);
    ghost var node := book.AddOrder(order);
    var found := book.CancelOrder(order.orderId);
    SideRestored(BUY, old(book.bids), book.bids, node, order.side.BUY?);
    SideRestored(SELL, old(book.asks), book.asks, node, order.side.SELL?);
  }
}
