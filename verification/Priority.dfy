/** Price-time priority over whole runs: nobody overtakes, and nobody is served before those ahead. */
module Priority {
  import opened Types
  import opened FlatBook
  import opened FlatLemmas
  import opened Matching
  import opened Ledger
  import opened History

  /** `x` stands before `y`. */
  ghost predicate Ahead(s: seq<Order>, x: nat, y: nat) {
    exists i, j :: 0 <= i < j < |s| && s[i].orderId == x && s[j].orderId == y
  }

  lemma SuffixAt(m: seq<Order>, s: seq<Order>, i: nat)
    requires DistinctIds(s) && ReducedSuffix(m, s) && i < |s| && HasId(m, s[i].orderId)
    ensures |s| - |m| <= i && m[i - (|s| - |m|)].orderId == s[i].orderId
  {
    var k :| 0 <= k < |m| && m[k].orderId == s[i].orderId;
    assert s[|s| - |m| + k].orderId == s[i].orderId;
  }

  lemma SuffixKeepsAhead(m: seq<Order>, s: seq<Order>, x: nat, y: nat)
    requires DistinctIds(s) && ReducedSuffix(m, s)
    requires Ahead(s, x, y) && HasId(m, x) && HasId(m, y)
    ensures Ahead(m, x, y)
  {
    var i, j :| 0 <= i < j < |s| && s[i].orderId == x && s[j].orderId == y;
    SuffixAt(m, s, i);
    SuffixAt(m, s, j);
  }

  lemma InsertKeepsAhead(s: seq<Order>, o: Order, x: nat, y: nat)
    requires Ahead(s, x, y)
    ensures Ahead(Insert(s, o), x, y)
  {
    var i, j :| 0 <= i < j < |s| && s[i].orderId == x && s[j].orderId == y;
    var k := InsertPosition(s, o);
    var i', j' := if i < k then i else i + 1, if j < k then j else j + 1;
    assert Insert(s, o)[i'] == s[i] && Insert(s, o)[j'] == s[j];
  }

  lemma RemovalKeepsAhead(s: seq<Order>, k: nat, x: nat, y: nat)
    requires Ahead(s, x, y) && k < |s| && s[k].orderId != x && s[k].orderId != y
    ensures Ahead(s[..k] + s[k + 1..], x, y)
  {
    var r := s[..k] + s[k + 1..];
    var i, j :| 0 <= i < j < |s| && s[i].orderId == x && s[j].orderId == y;
    var i', j' := if i < k then i else i - 1, if j < k then j else j - 1;
    assert r[i'] == s[i] && r[j'] == s[j];
  }

  lemma WithoutKeepsAhead(s: seq<Order>, id: nat, x: nat, y: nat)
    requires Ahead(s, x, y) && id != x && id != y && DistinctIds(s)
    ensures Ahead(Without(s, id), x, y)
  {
    if HasId(s, id) {
      var k :| 0 <= k < |s| && s[k].orderId == id;
      WithoutAt(s, k);
      RemovalKeepsAhead(s, k, x, y);
    } else {
      WithoutAbsent(s, id);
    }
  }

  /** A newcomer rests behind exactly the orders of equal or better price: earlier orders at its
      price keep their turn, worse ones do not. */
  lemma NewcomerBehind(s: seq<Order>, o: Order, i: nat)
    requires SideInv(o.side, s) && !HasId(s, o.orderId) && i < |s|
    ensures Ahead(Insert(s, o), s[i].orderId, o.orderId) <==> !Better(o.side, o.price, s[i].price)
    ensures Ahead(Insert(s, o), o.orderId, s[i].orderId) <==> Better(o.side, o.price, s[i].price)
  {
    var k := InsertPosition(s, o);
    var r := Insert(s, o);
    InsertDistinct(s, o);
    var i' := if i < k then i else i + 1;
    assert r[k] == o && r[i'] == s[i];
    AheadByIndex(r, i', k);
    AheadByIndex(r, k, i');
    assert i >= k ==> !Better(o.side, s[i].price, s[k].price);
  }

  lemma AheadByIndex(s: seq<Order>, i: nat, j: nat)
    requires DistinctIds(s) && i < |s| && j < |s| && i != j
    ensures Ahead(s, s[i].orderId, s[j].orderId) <==> i < j
  {
    if Ahead(s, s[i].orderId, s[j].orderId) {
      var a, b :| 0 <= a < b < |s| && s[a].orderId == s[i].orderId && s[b].orderId == s[j].orderId;
      assert a == i && b == j;
    }
  }

  lemma StepKeepsAhead(e: Engine, c: Command, side: Side, x: nat, y: nat)
    requires BookInv(e.book) && Ahead(e.book.On(side), x, y)
    requires HasId(Step(e, c).book.On(side), x) && HasId(Step(e, c).book.On(side), y)
    ensures Ahead(Step(e, c).book.On(side), x, y)
  {
    match c
    case Submit(o) =>
      var s := e.book.On(o.side.Opposite());
      var m := Match(o, s, e.nextTradeId, e.nextTimestamp);
      if side == o.side {
        InsertKeepsAhead(e.book.On(side), m.taker, x, y);
      } else {
        MakersSuffix(o, s, e.nextTradeId, e.nextTimestamp);
        SuffixKeepsAhead(m.makers, s, x, y);
      }
    case Cancel(id) =>
      WithoutInv(side, e.book.On(side), id);
      WithoutKeepsAhead(e.book.On(side), id, x, y);
  }

  /** While two orders rest on one side, however many commands later, their priority is unchanged. */
  lemma {:induction false} NoOvertaking(cmds: seq<Command>, i: nat, side: Side, x: nat, y: nat)
    requires Legal(cmds) && i <= |cmds|
    requires Ahead(Run(cmds[..i]).book.On(side), x, y)
    requires HasId(Run(cmds).book.On(side), x) && HasId(Run(cmds).book.On(side), y)
    ensures Ahead(Run(cmds).book.On(side), x, y)
    decreases |cmds|
  {
    if i == |cmds| {
      assert cmds[..i] == cmds;
    } else {
      var before, c := cmds[..|cmds| - 1], cmds[|cmds| - 1];
      LegalInit(cmds);
      assert before[..i] == cmds[..i];
      AheadSubmitted(cmds, i, side, x, y);
      NotResubmitted(cmds, i, x);
      NotResubmitted(cmds, i, y);
      StepOrigins(Run(before), c, x, side);
      StepOrigins(Run(before), c, y, side);
      NoOvertaking(before, i, side, x, y);
      RunInv(before);
      StepKeepsAhead(Run(before), c, side, x, y);
    }
  }

  lemma AheadSubmitted(cmds: seq<Command>, i: nat, side: Side, x: nat, y: nat)
    requires Legal(cmds) && i <= |cmds|
    requires Ahead(Run(cmds[..i]).book.On(side), x, y)
    ensures Submitted(cmds[..i], x) && Submitted(cmds[..i], y)
  {
    var e := Run(cmds[..i]);
    var s := e.book.On(side);
    RunInv(cmds[..i]);
    var j, k :| 0 <= j < k < |s| && s[j].orderId == x && s[k].orderId == y;
    assert HasId(s, x) && HasId(s, y);
    RestsSubmitted(cmds[..i], e, x);
    RestsSubmitted(cmds[..i], e, y);
  }

  lemma {:induction false} RemainingAt(s: seq<Order>, i: nat)
    requires DistinctIds(s) && i < |s|
    ensures Remaining(s, s[i].orderId) == s[i].remainingQuantity
  {
    if i == 0 {
      assert !HasId(s[1..], s[0].orderId);
      RemainingAbsent(s[1..], s[0].orderId);
    } else {
      RemainingAt(s[1..], i - 1);
    }
  }

  /** An order trades in a step only if everyone ahead of it is completely filled in that step. */
  lemma ServedInOrder(o: Order, s: seq<Order>, tradeId: nat, timestamp: nat, i: nat, j: nat)
    requires DistinctIds(s) && !HasId(s, o.orderId) && i < j < |s|
    requires var trades := Match(o, s, tradeId, timestamp).trades;
      exists k :: 0 <= k < |trades| && Names(trades[k], s[j].orderId)
    ensures var m := Match(o, s, tradeId, timestamp);
      !HasId(m.makers, s[i].orderId) && Traded(m.trades, s[i].orderId) == s[i].remainingQuantity
  {
    hide Match, ReducedSuffix, Crosses, Traded, Remaining;
    var m := Match(o, s, tradeId, timestamp);
    var k :| 0 <= k < |m.trades| && Names(m.trades[k], s[j].orderId);
    MatchShape(o, s, tradeId, timestamp);
    assert s[j].orderId != o.orderId;
    assert k == j;
    MakersSuffix(o, s, tradeId, timestamp);
    if HasId(m.makers, s[i].orderId) { SuffixAt(m.makers, s, i); }
    RemainingAt(s, i);
    RemainingAbsent(m.makers, s[i].orderId);
    MakerConserved(o, s, tradeId, timestamp, s[i].orderId);
  }

  // ---------- price, then time ----------

  /** A resting order is one that was submitted; only its remaining quantity may have changed. */
  ghost predicate AsSubmitted(cmds: seq<Command>, o: Order) {
    exists i :: 0 <= i < |cmds| && cmds[i].Submit? &&
      o == cmds[i].order.(remainingQuantity := o.remainingQuantity)
  }

  ghost predicate AllAsSubmitted(cmds: seq<Command>, s: seq<Order>) {
    forall k :: 0 <= k < |s| ==> AsSubmitted(cmds, s[k])
  }

  lemma AsSubmittedLater(cmds: seq<Command>, c: Command, o: Order, o': Order)
    requires AsSubmitted(cmds, o) && o' == o.(remainingQuantity := o'.remainingQuantity)
    ensures AsSubmitted(cmds + [c], o')
  {
    var i :| 0 <= i < |cmds| && cmds[i].Submit? && o == cmds[i].order.(remainingQuantity := o.remainingQuantity);
    assert (cmds + [c])[i] == cmds[i];
  }

  lemma OwnSideAsSubmitted(cmds: seq<Command>, s: seq<Order>, o: Order, taker: Order)
    requires AllAsSubmitted(cmds, s) && taker == o.(remainingQuantity := taker.remainingQuantity)
    ensures AllAsSubmitted(cmds + [Submit(o)], Rest(s, taker))
  {
    var cmds' := cmds + [Submit(o)];
    InsertFrom(s, taker);
    assert cmds'[|cmds|] == Submit(o) && AsSubmitted(cmds', taker);
    forall k | 0 <= k < |s| ensures AsSubmitted(cmds', s[k]) { AsSubmittedLater(cmds, Submit(o), s[k], s[k]); }
    forall k | 0 <= k < |Rest(s, taker)| ensures AsSubmitted(cmds', Rest(s, taker)[k]) {
      if Rest(s, taker)[k] in s {
        var j :| 0 <= j < |s| && s[j] == Rest(s, taker)[k];
      }
    }
  }

  lemma OtherSideAsSubmitted(cmds: seq<Command>, c: Command, s: seq<Order>, m: seq<Order>)
    requires AllAsSubmitted(cmds, s) && ReducedSuffix(m, s)
    ensures AllAsSubmitted(cmds + [c], m)
  {
    forall k | 0 <= k < |m| ensures AsSubmitted(cmds + [c], m[k]) {
      AsSubmittedLater(cmds, c, s[|s| - |m| + k], m[k]);
    }
  }

  lemma WithoutAsSubmitted(cmds: seq<Command>, side: Side, s: seq<Order>, id: nat)
    requires AllAsSubmitted(cmds, s) && SideInv(side, s)
    ensures AllAsSubmitted(cmds + [Cancel(id)], Without(s, id))
  {
    WithoutInv(side, s, id);
    var r := Without(s, id);
    forall k | 0 <= k < |r| ensures AsSubmitted(cmds + [Cancel(id)], r[k]) {
      var j :| 0 <= j < |s| && s[j] == r[k];
      AsSubmittedLater(cmds, Cancel(id), s[j], r[k]);
    }
  }

  /** After every legal run, whatever rests is an order as it was submitted but for its remaining quantity. */
  lemma {:induction false} RestsAsSubmitted(cmds: seq<Command>, side: Side)
    requires Legal(cmds)
    ensures AllAsSubmitted(cmds, Run(cmds).book.On(side))
  {
    hide AllAsSubmitted, Match, Without, Rest, BookInv;
    if cmds == [] {
      NothingSubmitted(side);
    } else {
      var before, c := cmds[..|cmds| - 1], cmds[|cmds| - 1];
      LegalInit(cmds);
      RestsAsSubmitted(before, side);
      RunInv(before);
      var e := Run(before);
      assert cmds == before + [c];
      match c
      case Submit(o) =>
        var s := e.book.On(o.side.Opposite());
        MatchTaker(o, s, e.nextTradeId, e.nextTimestamp);
        MakersSuffix(o, s, e.nextTradeId, e.nextTimestamp);
        var m := Match(o, s, e.nextTradeId, e.nextTimestamp);
        if side == o.side {
          OwnSideAsSubmitted(before, e.book.On(side), o, m.taker);
        } else {
          OtherSideAsSubmitted(before, c, s, m.makers);
        }
      case Cancel(id) =>
        SideOfBook(e.book, side);
        WithoutAsSubmitted(before, side, e.book.On(side), id);
    }
  }

  lemma NothingSubmitted(side: Side)
    ensures AllAsSubmitted([], EMPTY.On(side))
  {
  }

  lemma SideOfBook(b: Book, side: Side)
    requires BookInv(b)
    ensures SideInv(side, b.On(side))
  {
  }

  /** Of two resting orders exactly one is ahead. */
  lemma OneIsAhead(s: seq<Order>, x: nat, y: nat)
    requires DistinctIds(s) && HasId(s, x) && HasId(s, y) && x != y
    ensures Ahead(s, x, y) <==> !Ahead(s, y, x)
  {
    var i :| 0 <= i < |s| && s[i].orderId == x;
    var j :| 0 <= j < |s| && s[j].orderId == y;
    AheadByIndex(s, i, j);
    AheadByIndex(s, j, i);
  }

  /** The price an order rests at is the one it was submitted with. */
  lemma PriceOf(cmds: seq<Command>, i: nat, o: Order)
    requires Legal(cmds) && i < |cmds| && Submits(cmds[i], o.orderId) && AsSubmitted(cmds, o)
    ensures o.price == cmds[i].order.price
  {
    var k :| 0 <= k < |cmds| && cmds[k].Submit? && o == cmds[k].order.(remainingQuantity := o.remainingQuantity);
    assert k == i;
  }

  /** The newest order against one that already rests. */
  lemma NewestBehind(cmds: seq<Command>, i: nat, side: Side, x: nat, y: nat)
    requires Legal(cmds) && i < |cmds| - 1
    requires Submits(cmds[i], x) && Submits(cmds[|cmds| - 1], y) && cmds[|cmds| - 1].order.side == side
    requires HasId(Run(cmds).book.On(side), x) && HasId(Run(cmds).book.On(side), y)
    ensures Ahead(Run(cmds).book.On(side), x, y) <==>
            !Better(side, cmds[|cmds| - 1].order.price, cmds[i].order.price)
  {
    hide BookInv, Match, Insert, Ahead;
    var before, c := cmds[..|cmds| - 1], cmds[|cmds| - 1];
    LegalInit(cmds);
    var e := Run(before);
    var own, o := e.book.On(side), c.order;
    RunInv(before);
    SideOfBook(e.book, side);
    StepOrigins(e, c, x, side);
    if Rests(e.book, y) { RestsSubmitted(before, e, y); }
    MatchTaker(o, e.book.On(side.Opposite()), e.nextTradeId, e.nextTimestamp);
    var taker := Match(o, e.book.On(side.Opposite()), e.nextTradeId, e.nextTimestamp).taker;
    var k :| 0 <= k < |own| && own[k].orderId == x;
    RestsAsSubmitted(before, side);
    PriceOf(before, i, own[k]);
    NewcomerBehind(own, taker, k);
  }

  /** Price-time priority over whole runs: of two orders of one side that both rest after a legal
      run, the one submitted first is ahead if and only if the later price is not strictly better. */
  lemma {:induction false} PriceTimePriority(cmds: seq<Command>, i: nat, j: nat, side: Side, x: nat, y: nat)
    requires Legal(cmds) && i < j < |cmds| && Submits(cmds[i], x) && Submits(cmds[j], y)
    requires cmds[i].order.side == cmds[j].order.side == side
    requires HasId(Run(cmds).book.On(side), x) && HasId(Run(cmds).book.On(side), y)
    ensures Ahead(Run(cmds).book.On(side), x, y) <==> !Better(side, cmds[j].order.price, cmds[i].order.price)
    decreases |cmds|
  {
    hide Run, Step, BookInv, Ahead, Better;
    if j == |cmds| - 1 {
      NewestBehind(cmds, i, side, x, y);
    } else {
      var before := cmds[..|cmds| - 1];
      BothRestedBefore(cmds, i, j, side, x, y);
      PriceTimePriority(before, i, j, side, x, y);
    }
  }

  /** Orders submitted earlier that both rest now rested before the last command, in the same order. */
  lemma BothRestedBefore(cmds: seq<Command>, i: nat, j: nat, side: Side, x: nat, y: nat)
    requires Legal(cmds) && i < j < |cmds| - 1 && Submits(cmds[i], x) && Submits(cmds[j], y)
    requires HasId(Run(cmds).book.On(side), x) && HasId(Run(cmds).book.On(side), y)
    ensures var before := cmds[..|cmds| - 1];
      Legal(before) && HasId(Run(before).book.On(side), x) && HasId(Run(before).book.On(side), y) &&
      (Ahead(Run(cmds).book.On(side), x, y) <==> Ahead(Run(before).book.On(side), x, y))
  {
    hide Step, BookInv, Ahead;
    var before, c := cmds[..|cmds| - 1], cmds[|cmds| - 1];
    LegalInit(cmds);
    var e := Run(before);
    StepOrigins(e, c, x, side);
    StepOrigins(e, c, y, side);
    RunInv(before);
    RunInv(cmds);
    SideOfBook(e.book, side);
    SideOfBook(Run(cmds).book, side);
    OneIsAhead(e.book.On(side), x, y);
    OneIsAhead(Run(cmds).book.On(side), x, y);
    if Ahead(e.book.On(side), x, y) {
      StepKeepsAhead(e, c, side, x, y);
    } else {
      StepKeepsAhead(e, c, side, y, x);
    }
  }
}
