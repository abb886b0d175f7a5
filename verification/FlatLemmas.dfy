/** Facts about inserting into and deleting from a flat priority list. */
module FlatLemmas {
  import opened Types
  import opened FlatBook

  /** Any position with only better or equal prices before it and a worse price at it is the one. */
  lemma {:induction false} InsertAt(s: seq<Order>, order: Order, k: nat)
    requires k <= |s|
    requires forall i :: 0 <= i < k ==> !Better(order.side, order.price, s[i].price)
    requires k < |s| ==> Better(order.side, order.price, s[k].price)
    ensures Insert(s, order) == s[..k] + [order] + s[k..]
  {
    if k > 0 {
      InsertAt(s[1..], order, k - 1);
      assert s[..k] == [s[0]] + s[1..][..k - 1];
      assert s[k..] == s[1..][k - 1..];
    }
  }

  /** The position `Insert` chooses. */
  ghost function InsertPosition(s: seq<Order>, order: Order): (k: nat)
    ensures k <= |s|
    ensures forall i :: 0 <= i < k ==> !Better(order.side, order.price, s[i].price)
    ensures k < |s| ==> Better(order.side, order.price, s[k].price)
    ensures Insert(s, order) == s[..k] + [order] + s[k..]
  {
    var k :=
      if s == [] || Better(order.side, order.price, s[0].price) then 0
      else 1 + InsertPosition(s[1..], order);
    InsertAt(s, order, k);
    k
  }

  lemma {:induction false} WithoutAbsent(s: seq<Order>, id: nat)
    requires !HasId(s, id)
    ensures Without(s, id) == s
  {
    if s != [] {
      assert s[0].orderId != id;
      forall i | 0 <= i < |s| - 1 ensures s[1..][i].orderId != id {
        assert s[1..][i] == s[i + 1];
      }
      WithoutAbsent(s[1..], id);
    }
  }

  /** With distinct ids, deleting an id deletes exactly its one position. */
  lemma {:induction false} WithoutAt(s: seq<Order>, k: nat)
    requires k < |s| && DistinctIds(s)
    ensures Without(s, s[k].orderId) == s[..k] + s[k + 1..]
  {
    if k == 0 {
      WithoutAbsent(s[1..], s[0].orderId);
    } else {
      WithoutAt(s[1..], k - 1);
      assert s[..k] == [s[0]] + s[1..][..k - 1];
    }
  }
}
