/** Request handlers as interleaved atomic steps: the engine runs under `engineMutex_`, the
    counters are updated after it is released, and snapshots are read outside it. */
module Accounting {
  import opened Types
  import opened FlatBook
  import opened Matching
  import opened History
  import opened ResultFold
  import opened AdapterRuns
  import opened EngineAdapters
  import opened MetricsModule

  /** What a request got from the adapter. `at` counts the requests served up to its own. */
  datatype Outcome =
    | OfPlace(request: ParsedRequest, result: EngineResult, at: nat)
    | OfCancel(request: ParsedRequest, success: bool, at: nat)

  /** Where a handler is in its code. */
  datatype Handler =
    | Idle
    | Entered(request: ParsedRequest)             // holds engineMutex_
    | Executed(outcome: Outcome)                  // holds it, engine called
    | Counted(outcome: Outcome, count: int)       // holds it, active orders counted
    | Stored(outcome: Outcome)                    // holds it, active orders stored
    | Released(outcome: Outcome)
    | Recording(outcome: Outcome, left: seq<TradeEvent>)
    | HalfRecorded(outcome: Outcome, left: seq<TradeEvent>)   // trade counted, volume not yet added
    | Refused(outcome: Outcome)
    | Broadcast(outcome: Outcome, snapshot: OrderBookSnapshot, seen: nat)   // seen: requests served when read

  datatype Server = Server(
    adapter: AdapterState,
    served: seq<ParsedRequest>,
    owner: Option<nat>,
    metrics: Counters,
    handlers: seq<Handler>)

  /** What the adapter's `placeOrder` returns. */
  function PlaceResult(s: AdapterState, r: ParsedRequest): EngineResult
    requires r.PlaceRequest?
  {
    var o := OrderFor(s.nextOrderId, r);
    ResultFrom(o, Place(s.engine.book, o, s.engine.nextTradeId, s.engine.nextTimestamp).events)
  }

  function OutcomeOf(s: AdapterState, r: ParsedRequest, at: nat): Outcome {
    if r.PlaceRequest? then OfPlace(r, PlaceResult(s, r), at)
    else OfCancel(r, Rests(s.engine.book, ToU64(r.orderId)), at)
  }

  function Succeeded(o: Outcome): bool {
    match o
    case OfPlace(_, result, _) => result.accepted
    case OfCancel(_, success, _) => success
  }

  function ActiveOrders(s: AdapterState): int {
    ToI64(|s.engine.book.bids| + |s.engine.book.asks|)
  }

  datatype Move = Begin(t: nat, request: ParsedRequest) | Advance(t: nat)

  /** One atomic step of handler `t`; nothing happens if it is not enabled. */
  function Apply(s: Server, m: Move): Server {
    if m.Begin? then
      if CanBegin(s, m.t)
      then s.(owner := Some(m.t), handlers := s.handlers[m.t := Entered(m.request)])
      else s
    else if m.t < |s.handlers| then AdvanceHandler(s, m.t)
    else s
  }

  predicate CanBegin(s: Server, t: nat) {
    t < |s.handlers| && s.owner.None? && Finished(s.handlers[t])
  }

  predicate Finished(h: Handler) {
    h.Idle? || h.Refused? || h.Broadcast?
  }

  function AdvanceHandler(s: Server, t: nat): Server
    requires t < |s.handlers|
  {
    match s.handlers[t]
    case Entered(r) =>
      var o := OutcomeOf(s.adapter, r, |s.served| + 1);
      s.(adapter := Handle(s.adapter, r), served := s.served + [r],
         handlers := s.handlers[t := Executed(o)])
    case Executed(o) => s.(handlers := s.handlers[t := Counted(o, ActiveOrders(s.adapter))])
    case Counted(o, count) =>
      s.(metrics := s.metrics.(activeOrders := count), handlers := s.handlers[t := Stored(o)])
    case Stored(o) => s.(owner := None, handlers := s.handlers[t := Released(o)])
    case Released(o) =>
      if !Succeeded(o) then s.(handlers := s.handlers[t := Refused(o)])
      else if o.OfPlace? then
        s.(metrics := s.metrics.(ordersProcessed := s.metrics.ordersProcessed + 1),
           handlers := s.handlers[t := Recording(o, o.result.trades)])
      else s.(handlers := s.handlers[t := Recording(o, [])])
    case Recording(o, left) =>
      if left != [] then
        s.(metrics := s.metrics.(tradesExecuted := s.metrics.tradesExecuted + 1),
           handlers := s.handlers[t := HalfRecorded(o, left)])
      else s.(handlers := s.handlers[t := Broadcast(o, SnapshotOf(s.adapter.engine.book), |s.served|)])
    case HalfRecorded(o, left) =>
      if left != [] then
        s.(metrics := s.metrics.(totalVolume := s.metrics.totalVolume + left[0].quantity),
           handlers := s.handlers[t := Recording(o, left[1..])])
      else s
    case _ => s
  }

  function Boot(n: nat): Server {
    Server(START, [], None, ZERO, seq(n, _ => Idle))
  }

  function Play(n: nat, moves: seq<Move>): Server {
    if moves == [] then Boot(n) else Apply(Play(n, moves[..|moves| - 1]), moves[|moves| - 1])
  }

  // ---------- what the in-flight handlers still owe the counters ----------

  datatype Due = Due(orders: int, trades: int, volume: int)

  function OutcomeDue(o: Outcome): Due {
    if o.OfPlace? && o.result.accepted
    then Due(1, |o.result.trades|, SumQuantities(o.result.trades))
    else Due(0, 0, 0)
  }

  function DueOf(h: Handler): Due {
    match h
    case Executed(o) => OutcomeDue(o)
    case Counted(o, _) => OutcomeDue(o)
    case Stored(o) => OutcomeDue(o)
    case Released(o) => OutcomeDue(o)
    case Recording(_, left) => Due(0, |left|, SumQuantities(left))
    case HalfRecorded(_, left) => Due(0, |left| - 1, SumQuantities(left))
    case _ => Due(0, 0, 0)
  }

  function TotalDue(hs: seq<Handler>): Due {
    if hs == [] then Due(0, 0, 0)
    else
      var d, rest := DueOf(hs[0]), TotalDue(hs[1..]);
      Due(d.orders + rest.orders, d.trades + rest.trades, d.volume + rest.volume)
  }

  lemma {:induction false} TotalDueUpdate(hs: seq<Handler>, t: nat, h: Handler)
    requires t < |hs|
    ensures var d, d', was, now := TotalDue(hs), TotalDue(hs[t := h]), DueOf(hs[t]), DueOf(h);
      d'.orders == d.orders - was.orders + now.orders &&
      d'.trades == d.trades - was.trades + now.trades &&
      d'.volume == d.volume - was.volume + now.volume
  {
    if t == 0 {
      assert hs[0 := h][1..] == hs[1..];
    } else {
      assert hs[t := h][1..] == hs[1..][t - 1 := h];
      TotalDueUpdate(hs[1..], t - 1, h);
    }
  }

  lemma {:induction false} NothingDue(hs: seq<Handler>)
    requires forall i :: 0 <= i < |hs| ==> DueOf(hs[i]) == Due(0, 0, 0)
    ensures TotalDue(hs) == Due(0, 0, 0)
  {
    if hs != [] { NothingDue(hs[1..]); }
  }

  // ---------- the invariant ----------

  predicate Critical(h: Handler) {
    h.Entered? || h.Executed? || h.Counted? || h.Stored?
  }

  /** Exactly the owner of `engineMutex_` is inside its critical section. */
  ghost predicate MutexInv(s: Server) {
    (s.owner.Some? ==> s.owner.value < |s.handlers|) &&
    forall t :: 0 <= t < |s.handlers| ==> (Critical(s.handlers[t]) <==> s.owner == Some(t))
  }

  /** The active count is exact unless the owner has called the engine and not stored it yet. */
  ghost predicate ActiveInv(s: Server) {
    var exact := s.metrics.activeOrders == ActiveOrders(s.adapter);
    match if s.owner.Some? && s.owner.value < |s.handlers| then s.handlers[s.owner.value] else Idle
    case Executed(_) => true
    case Counted(_, count) => count == ActiveOrders(s.adapter)
    case _ => exact
  }

  ghost predicate NonNegative(trades: seq<TradeEvent>) {
    forall i :: 0 <= i < |trades| ==> trades[i].quantity >= 0
  }

  /** A snapshot shows a state between whole requests, at or after the handler's own. */
  ghost predicate HandlerInv(s: Server, h: Handler) {
    match h
    case Executed(o) => OutcomeInv(s, o)
    case Counted(o, _) => OutcomeInv(s, o)
    case Stored(o) => OutcomeInv(s, o)
    case Released(o) => OutcomeInv(s, o)
    case Recording(o, left) => OutcomeInv(s, o) && Succeeded(o) && NonNegative(left)
    case HalfRecorded(o, left) => OutcomeInv(s, o) && Succeeded(o) && left != [] && NonNegative(left)
    case Refused(o) => OutcomeInv(s, o) && !Succeeded(o)
    case Broadcast(o, snapshot, seen) =>
      OutcomeInv(s, o) && Succeeded(o) && o.at <= seen <= |s.served| &&
      snapshot == SnapshotOf(Serve(s.served[..seen]).engine.book)
    case _ => true
  }

  /** The outcome is what the adapter answers to the `at`-th request after all those before it. */
  ghost predicate OutcomeInv(s: Server, o: Outcome) {
    1 <= o.at <= |s.served| &&
    o == OutcomeOf(Serve(s.served[..o.at - 1]), s.served[o.at - 1], o.at) &&
    (o.OfPlace? ==> NonNegative(o.result.trades) && (!o.result.accepted ==> o.result.trades == []))
  }

  /** The placements among these requests that are not rejected: all but the MARKET orders that meet an
      empty opposite side when their turn comes. */
  ghost function AcceptedIn(served: seq<ParsedRequest>): nat {
    if served == [] then 0
    else
      var before, r := served[..|served| - 1], served[|served| - 1];
      AcceptedIn(before) +
      if r.PlaceRequest? && !(r.orderType.MARKET? && Serve(before).engine.book.On(r.side.Opposite()) == [])
      then 1 else 0
  }

  /** Counted plus still owed is what really happened. */
  ghost predicate CountersInv(s: Server) {
    var d := TotalDue(s.handlers);
    s.metrics.ordersProcessed + d.orders == AcceptedIn(s.served) &&
    s.metrics.tradesExecuted + d.trades == |s.adapter.engine.trades| &&
    s.metrics.totalVolume + d.volume == Volume(s.adapter.engine.trades)
  }

  ghost predicate Inv(s: Server) {
    s.adapter == Serve(s.served) && MutexInv(s) && ActiveInv(s) && CountersInv(s) &&
    forall t :: 0 <= t < |s.handlers| ==> HandlerInv(s, s.handlers[t])
  }

  /** What one placement adds to the history and to what is owed. */
  lemma PlaceEffect(result: EngineResult, b: Book, o: Order, p: Placed, trades: seq<Trade>)
    requires ResultOf(result, b, o, p)
    ensures |trades + p.trades| == |trades| + (if result.accepted then |result.trades| else 0)
    ensures Volume(trades + p.trades) == Volume(trades) + (if result.accepted then SumQuantities(result.trades) else 0)
    ensures NonNegative(result.trades) && (!result.accepted ==> result.trades == [])
  {
    hide UpdatesTold;
    VolumeConcat(trades, p.trades);
  }

  /** One engine call: the result lists exactly the trades the history gained, and a rejection
      lists none. */
  lemma ExecuteEffect(served: seq<ParsedRequest>, r: ParsedRequest)
    ensures var s := Serve(served);
      var s', o := Handle(s, r), OutcomeOf(s, r, |served| + 1);
      |s'.engine.trades| == |s.engine.trades| + OutcomeDue(o).trades &&
      Volume(s'.engine.trades) == Volume(s.engine.trades) + OutcomeDue(o).volume &&
      AcceptedIn(served + [r]) == AcceptedIn(served) + OutcomeDue(o).orders &&
      (o.OfPlace? ==> NonNegative(o.result.trades) && (!o.result.accepted ==> o.result.trades == []))
  {
    hide Serve, Place, ResultFrom, BookInv, UpdatesTold, TradesTold, Volume, SumQuantities, NonNegative;
    var s := Serve(served);
    assert (served + [r])[..|served|] == served;
    if r.PlaceRequest? {
      AlwaysFresh(served);
      var order := OrderFor(s.nextOrderId, r);
      var p := Place(s.engine.book, order, s.engine.nextTradeId, s.engine.nextTimestamp);
      FinishPlace(s.engine.book, order, s.engine.nextTradeId, s.engine.nextTimestamp);
      PlaceEffect(PlaceResult(s, r), s.engine.book, order, p, s.engine.trades);
    }
  }

  lemma OutcomeKeeps(s: Server, s': Server, o: Outcome)
    requires s.served <= s'.served && OutcomeInv(s, o)
    ensures OutcomeInv(s', o)
  {
    assert s'.served[..o.at - 1] == s.served[..o.at - 1];
  }

  lemma OthersKeep(s: Server, s': Server, t: nat)
    requires t < |s.handlers| == |s'.handlers|
    requires forall i :: 0 <= i < |s.handlers| && i != t ==> s'.handlers[i] == s.handlers[i]
    requires s.served <= s'.served
    requires forall i :: 0 <= i < |s.handlers| ==> HandlerInv(s, s.handlers[i])
    requires HandlerInv(s', s'.handlers[t])
    ensures forall i :: 0 <= i < |s'.handlers| ==> HandlerInv(s', s'.handlers[i])
  {
    forall i | 0 <= i < |s'.handlers| ensures HandlerInv(s', s'.handlers[i]) {
      if i != t {
        var h := s.handlers[i];
        assert HandlerInv(s, h);
        if h.Broadcast? { assert s'.served[..h.seen] == s.served[..h.seen]; }
        if !h.Idle? && !h.Entered? { OutcomeKeeps(s, s', h.outcome); }
      }
    }
  }

  lemma BeginKeeps(s: Server, t: nat, r: ParsedRequest)
    requires Inv(s)
    ensures Inv(Apply(s, Begin(t, r)))
  {
    hide Serve;
    var s' := Apply(s, Begin(t, r));
    if s' != s {
      TotalDueUpdate(s.handlers, t, Entered(r));
      OthersKeep(s, s', t);
    }
  }

  lemma ExecuteOwes(o: Outcome)
    ensures OutcomeDue(o).orders == if o.OfPlace? && o.result.accepted then 1 else 0
    ensures o.OfPlace? && !o.result.accepted ==> OutcomeDue(o).trades == 0
  {
  }

  /** Handler `t` is about to call the engine. */
  ghost predicate Calls(s: Server, t: nat) {
    t < |s.handlers| && s.handlers[t].Entered? && s.adapter == Serve(s.served)
  }

  lemma ExecuteMutex(s: Server, t: nat)
    requires MutexInv(s) && Calls(s, t)
    ensures MutexInv(AdvanceHandler(s, t)) && ActiveInv(AdvanceHandler(s, t))
  {
    hide ActiveOrders, Handle, OutcomeOf, Serve;
    assert Critical(s.handlers[t]);
  }

  lemma ExecuteCounters(s: Server, t: nat)
    requires CountersInv(s) && Calls(s, t)
    ensures CountersInv(AdvanceHandler(s, t))
  {
    hide Serve, Handle, OutcomeOf, OutcomeDue, TotalDue, Volume;
    var r := s.handlers[t].request;
    ExecuteEffect(s.served, r);
    ExecuteOwes(OutcomeOf(s.adapter, r, |s.served| + 1));
    TotalDueUpdate(s.handlers, t, AdvanceHandler(s, t).handlers[t]);
  }

  lemma ExecuteHandlers(s: Server, t: nat)
    requires Calls(s, t)
    requires forall i :: 0 <= i < |s.handlers| ==> HandlerInv(s, s.handlers[i])
    ensures var s' := AdvanceHandler(s, t);
      forall i :: 0 <= i < |s'.handlers| ==> HandlerInv(s', s'.handlers[i])
  {
    hide Serve, Handle, PlaceResult, SnapshotOf;
    var s' := AdvanceHandler(s, t);
    ExecuteEffect(s.served, s.handlers[t].request);
    assert s'.served[..|s.served|] == s.served;
    OthersKeep(s, s', t);
  }

  lemma ExecuteKeeps(s: Server, t: nat)
    requires Inv(s) && t < |s.handlers| && s.handlers[t].Entered?
    ensures Inv(AdvanceHandler(s, t))
  {
    hide Serve, MutexInv, ActiveInv, CountersInv, HandlerInv, OutcomeOf;
    ServeSnoc(s.served, s.handlers[t].request);
    ExecuteMutex(s, t);
    ExecuteCounters(s, t);
    ExecuteHandlers(s, t);
  }

  /** A step of a handler that does not call the engine. */
  ghost predicate Quiet(s: Server, t: nat) {
    t < |s.handlers| && !s.handlers[t].Entered?
  }

  lemma QuietMutex(s: Server, t: nat)
    requires MutexInv(s) && Quiet(s, t)
    ensures MutexInv(AdvanceHandler(s, t))
  {
    assert Critical(s.handlers[t]) <==> s.owner == Some(t);
  }

  lemma QuietActive(s: Server, t: nat)
    requires MutexInv(s) && ActiveInv(s) && Quiet(s, t)
    ensures ActiveInv(AdvanceHandler(s, t))
  {
    hide ActiveOrders;
    assert Critical(s.handlers[t]) <==> s.owner == Some(t);
  }

  lemma QuietCounters(s: Server, t: nat)
    requires CountersInv(s) && Quiet(s, t) && HandlerInv(s, s.handlers[t])
    ensures CountersInv(AdvanceHandler(s, t))
  {
    hide SnapshotOf, ActiveOrders, TotalDue, OutcomeOf, Serve;
    TotalDueUpdate(s.handlers, t, AdvanceHandler(s, t).handlers[t]);
  }

  lemma QuietHandlers(s: Server, t: nat)
    requires Quiet(s, t) && s.adapter == Serve(s.served)
    requires forall i :: 0 <= i < |s.handlers| ==> HandlerInv(s, s.handlers[i])
    ensures var s' := AdvanceHandler(s, t);
      forall i :: 0 <= i < |s'.handlers| ==> HandlerInv(s', s'.handlers[i])
  {
    hide Serve, SnapshotOf, ActiveOrders, HandlerInv;
    QuietHandler(s, t);
    OthersKeep(s, AdvanceHandler(s, t), t);
  }

  lemma QuietHandler(s: Server, t: nat)
    requires Quiet(s, t) && s.adapter == Serve(s.served) && HandlerInv(s, s.handlers[t])
    ensures HandlerInv(AdvanceHandler(s, t), AdvanceHandler(s, t).handlers[t])
  {
    hide Serve, SnapshotOf, ActiveOrders, OutcomeOf;
    assert s.served[..|s.served|] == s.served;
  }

  lemma QuietKeeps(s: Server, t: nat)
    requires Inv(s) && Quiet(s, t)
    ensures Inv(AdvanceHandler(s, t))
  {
    hide Serve, MutexInv, ActiveInv, CountersInv, HandlerInv;
    QuietMutex(s, t);
    QuietActive(s, t);
    QuietCounters(s, t);
    QuietHandlers(s, t);
  }

  /** Every interleaving of every handlers' steps keeps the invariant. */
  lemma {:induction false} AlwaysInv(n: nat, moves: seq<Move>)
    ensures Inv(Play(n, moves))
  {
    if moves == [] {
      NothingDue(Boot(n).handlers);
    } else {
      var before, m := moves[..|moves| - 1], moves[|moves| - 1];
      AlwaysInv(n, before);
      var s := Play(n, before);
      if m.Begin? {
        BeginKeeps(s, m.t, m.request);
      } else if m.t < |s.handlers| {
        if s.handlers[m.t].Entered? { ExecuteKeeps(s, m.t); } else { QuietKeeps(s, m.t); }
      }
    }
  }

  // ---------- what the invariant says to the outside ----------

  lemma {:induction false} SumNonNegative(trades: seq<TradeEvent>)
    requires NonNegative(trades)
    ensures SumQuantities(trades) >= 0
  {
    if trades != [] {
      assert forall i :: 0 < i < |trades| ==> trades[i] == trades[1..][i - 1];
      SumNonNegative(trades[1..]);
    }
  }

  lemma OwesNonNegative(s: Server, h: Handler)
    requires HandlerInv(s, h)
    ensures DueOf(h).orders >= 0 && DueOf(h).trades >= 0 && DueOf(h).volume >= 0
  {
    hide Serve, SumQuantities, OutcomeOf, NonNegative, SnapshotOf;
    if h.Recording? || h.HalfRecorded? {
      SumNonNegative(h.left);
    } else if !h.Idle? && !h.Entered? && h.outcome.OfPlace? {
      SumNonNegative(h.outcome.result.trades);
    }
  }

  lemma {:induction false} DueNonNegative(s: Server, hs: seq<Handler>)
    requires forall t :: 0 <= t < |hs| ==> HandlerInv(s, hs[t])
    ensures TotalDue(hs).trades >= 0 && TotalDue(hs).orders >= 0 && TotalDue(hs).volume >= 0
  {
    if hs != [] {
      assert HandlerInv(s, hs[0]);
      OwesNonNegative(s, hs[0]);
      DueNonNegative(s, hs[1..]);
    }
  }

  /** The counters never run ahead of the engine, and agree with it whenever no handler is at work. */
  lemma MetricsAgree(n: nat, moves: seq<Move>)
    ensures var s := Play(n, moves);
      s.metrics.tradesExecuted <= |s.adapter.engine.trades| &&
      s.metrics.totalVolume <= Volume(s.adapter.engine.trades) &&
      s.metrics.ordersProcessed <= AcceptedIn(s.served) &&
      ((forall t :: 0 <= t < |s.handlers| ==> Finished(s.handlers[t])) ==>
        s.metrics.tradesExecuted == |s.adapter.engine.trades| &&
        s.metrics.totalVolume == Volume(s.adapter.engine.trades) &&
        s.metrics.ordersProcessed == AcceptedIn(s.served))
  {
    AlwaysInv(n, moves);
    var s := Play(n, moves);
    DueNonNegative(s, s.handlers);
    if forall t :: 0 <= t < |s.handlers| ==> Finished(s.handlers[t]) {
      NothingDue(s.handlers);
    }
  }

  /** Whenever `engineMutex_` is free the active count is the number of open orders. */
  lemma ActiveCountExact(n: nat, moves: seq<Move>)
    ensures var s := Play(n, moves);
      var book := s.adapter.engine.book;
      s.owner.None? ==> s.metrics.activeOrders == ToI64(|book.bids| + |book.asks|)
  {
    hide Serve, HandlerInv, CountersInv, MutexInv, Play, ToI64;
    AlwaysInv(n, moves);
  }

  // ---------- every interleaving is a serial run of the requests ----------

  /** A handler has been to the engine with its present request. */
  predicate Answered(h: Handler) {
    !h.Idle? && !h.Entered?
  }

  /** A handler's latest request, the number of moves made before it began, and the number of
      requests served by then. */
  datatype Beginning = Beginning(request: ParsedRequest, moment: nat, before: nat)

  function Latest(n: nat, moves: seq<Move>, t: nat): Option<Beginning> {
    if moves == [] then None
    else
      var earlier, m := moves[..|moves| - 1], moves[|moves| - 1];
      var s := Play(n, earlier);
      if m.Begin? && m.t == t && CanBegin(s, t) then Some(Beginning(m.request, |earlier|, |s.served|))
      else Latest(n, earlier, t)
  }

  /** A handler works on the request it began with, and takes its place after it began. */
  ghost predicate WorksOn(s: Server, h: Handler, b: Option<Beginning>) {
    !h.Idle? ==>
      b.Some? && b.value.before <= |s.served| &&
      if h.Entered? then h.request == b.value.request
      else h.outcome.request == b.value.request && b.value.before < h.outcome.at <= |s.served|
  }

  lemma AdvanceWorksOn(s: Server, t: nat, u: nat, b: Option<Beginning>)
    requires t < |s.handlers| && u < |s.handlers| && WorksOn(s, s.handlers[u], b)
    ensures var s' := AdvanceHandler(s, t);
      |s'.handlers| == |s.handlers| && WorksOn(s', s'.handlers[u], b)
  {
    hide PlaceResult, Handle, SnapshotOf, ActiveOrders, Succeeded;
  }

  lemma {:induction false} AlwaysWorksOn(n: nat, moves: seq<Move>, u: nat)
    requires u < |Play(n, moves).handlers|
    ensures WorksOn(Play(n, moves), Play(n, moves).handlers[u], Latest(n, moves, u))
  {
    hide AdvanceHandler;
    if moves != [] {
      var earlier, m := moves[..|moves| - 1], moves[|moves| - 1];
      var s := Play(n, earlier);
      if m.Advance? && m.t < |s.handlers| {
        AdvanceCount(s, m.t);
        AlwaysWorksOn(n, earlier, u);
        AdvanceWorksOn(s, m.t, u, Latest(n, earlier, u));
      } else {
        AlwaysWorksOn(n, earlier, u);
      }
    }
  }

  lemma AdvanceCount(s: Server, t: nat)
    requires t < |s.handlers|
    ensures |AdvanceHandler(s, t).handlers| == |s.handlers| && s.served <= AdvanceHandler(s, t).served
  {
  }

  /** The answer to a cancellation in this state: success exactly if the id rests, a negative one being
      cast to `std::uint64_t`. */
  ghost predicate CancelTold(s: AdapterState, r: ParsedRequest, success: bool) {
    r.CancelRequest? &&
    (success <==> Rests(s.engine.book, if r.orderId < 0 then r.orderId + 0x1_0000_0000_0000_0000 else r.orderId))
  }

  /** The answer to a placement in this state: the true result of placing the request's own order. */
  ghost predicate PlaceTold(s: AdapterState, r: ParsedRequest, result: EngineResult) {
    r.PlaceRequest? &&
    var o := Order(s.nextOrderId, r.side, r.orderType, r.price, r.quantity, r.quantity, r.now);
    ResultOf(result, s.engine.book, o, Place(s.engine.book, o, s.engine.nextTradeId, s.engine.nextTimestamp))
  }

  lemma OutcomeTold(served: seq<ParsedRequest>, r: ParsedRequest, at: nat)
    ensures var o := OutcomeOf(Serve(served), r, at);
      o.at == at && o.request == r &&
      (r.PlaceRequest? ==> o.OfPlace? && PlaceTold(Serve(served), r, o.result)) &&
      (r.CancelRequest? ==> o.OfCancel? && CancelTold(Serve(served), r, o.success))
  {
    hide Serve, ResultOf, ResultFrom, Place, BookInv;
    AlwaysFresh(served);
    if r.PlaceRequest? {
      var s := Serve(served);
      FinishPlace(s.engine.book, OrderFor(s.nextOrderId, r), s.engine.nextTradeId, s.engine.nextTimestamp);
    }
  }

  lemma {:induction false} NextOrderIdBound(served: seq<ParsedRequest>)
    ensures Serve(served).nextOrderId <= |served| + 1
  {
    if served != [] { NextOrderIdBound(served[..|served| - 1]); }
  }

  /** As long as fewer than 2^63 - 2 requests have been served, no negative id finds an order. */
  lemma NegativeNeverFound(served: seq<ParsedRequest>, r: ParsedRequest, success: bool)
    requires |served| < 0x7fff_ffff_ffff_fffe && CancelTold(Serve(served), r, success)
    ensures success <==> 0 <= r.orderId && Rests(Serve(served).engine.book, r.orderId)
  {
    hide Serve;
    var s := Serve(served);
    NextOrderIdBound(served);
    AlwaysFresh(served);
    NegativeIdsUnknown(s.engine.book, s.engine.trades, s.nextOrderId, r.orderId);
  }

  /** Every answer is the true answer to the request the handler began with, given in the state after
      the requests before it in one serial order; its place there comes after everything served when it
      began. A handler broadcasts exactly if its request succeeded, and its snapshot shows the book
      between whole requests, at or after its own place. */
  lemma AnswersAreSerial(n: nat, moves: seq<Move>, t: nat)
    requires t < |Play(n, moves).handlers|
    requires Play(n, moves).handlers[t].Broadcast? || Play(n, moves).handlers[t].Refused?
    ensures var s := Play(n, moves);
      var h := s.handlers[t];
      var at, r := h.outcome.at, h.outcome.request;
      1 <= at <= |s.served| && s.served[at - 1] == r &&
      var a := Serve(s.served[..at - 1]);
      (r.CancelRequest? ==>
        h.outcome.OfCancel? && CancelTold(a, r, h.outcome.success) &&
        (|s.served| < 0x7fff_ffff_ffff_fffe ==>
          (h.outcome.success <==> 0 <= r.orderId && Rests(a.engine.book, r.orderId))) &&
        (h.Broadcast? <==> h.outcome.success)) &&
      (r.PlaceRequest? ==>
        h.outcome.OfPlace? && PlaceTold(a, r, h.outcome.result) &&
        (h.Broadcast? <==> !(r.orderType.MARKET? && a.engine.book.On(r.side.Opposite()) == []))) &&
      (h.Broadcast? ==>
        at <= h.seen <= |s.served| && ShowsBook(h.snapshot, Serve(s.served[..h.seen]).engine.book))
    ensures var at := Play(n, moves).handlers[t].outcome.at;
      var b := Latest(n, moves, t);
      b.Some? && Play(n, moves).handlers[t].outcome.request == b.value.request && b.value.before < at
  {
    hide Serve, PlaceResult, SnapshotOf, ShowsBook, Play, OutcomeOf, BookInv, CancelTold;
    AlwaysInv(n, moves);
    var s := Play(n, moves);
    var h := s.handlers[t];
    assert HandlerInv(s, h);
    AlwaysWorksOn(n, moves, t);
    var before, r := s.served[..h.outcome.at - 1], h.outcome.request;
    OutcomeTold(before, s.served[h.outcome.at - 1], h.outcome.at);
    if r.CancelRequest? && |s.served| < 0x7fff_ffff_ffff_fffe {
      NegativeNeverFound(before, r, h.outcome.success);
    }
    if h.Broadcast? {
      AlwaysFresh(s.served[..h.seen]);
      SnapshotShows(Serve(s.served[..h.seen]).engine.book);
    }
  }

  /** No two answers share a place. */
  ghost predicate PlacesDistinct(s: Server) {
    forall t, u :: 0 <= t < u < |s.handlers| && Answered(s.handlers[t]) && Answered(s.handlers[u]) ==>
      s.handlers[t].outcome.at != s.handlers[u].outcome.at
  }

  lemma AdvanceDistinct(s: Server, t: nat)
    requires t < |s.handlers| && PlacesDistinct(s)
    requires forall u :: 0 <= u < |s.handlers| && Answered(s.handlers[u]) ==> s.handlers[u].outcome.at <= |s.served|
    ensures PlacesDistinct(AdvanceHandler(s, t))
  {
    hide PlaceResult, Handle, SnapshotOf, ActiveOrders, Succeeded;
  }

  /** Different handlers' answers stand at different places of the serial order. */
  lemma {:induction false} DistinctPlaces(n: nat, moves: seq<Move>)
    ensures PlacesDistinct(Play(n, moves))
  {
    hide AdvanceHandler;
    if moves != [] {
      var earlier, m := moves[..|moves| - 1], moves[|moves| - 1];
      var s := Play(n, earlier);
      DistinctPlaces(n, earlier);
      if m.Advance? && m.t < |s.handlers| {
        forall u | 0 <= u < |s.handlers| && Answered(s.handlers[u]) ensures s.handlers[u].outcome.at <= |s.served| {
          AlwaysWorksOn(n, earlier, u);
        }
        AdvanceDistinct(s, m.t);
      }
    }
  }

  lemma {:induction false} ServedGrows(n: nat, moves: seq<Move>, k: nat)
    requires k <= |moves|
    ensures Play(n, moves[..k]).served <= Play(n, moves).served
    ensures |Play(n, moves[..k]).handlers| == |Play(n, moves).handlers|
  {
    hide AdvanceHandler;
    if k == |moves| {
      assert moves[..k] == moves;
    } else {
      var earlier, m := moves[..|moves| - 1], moves[|moves| - 1];
      assert earlier[..k] == moves[..k];
      ServedGrows(n, earlier, k);
      var s := Play(n, earlier);
      if m.Advance? && m.t < |s.handlers| { AdvanceCount(s, m.t); }
    }
  }

  /** What `Latest` records happened at its moment. */
  lemma {:induction false} LatestHappened(n: nat, moves: seq<Move>, t: nat)
    requires Latest(n, moves, t).Some?
    ensures var b := Latest(n, moves, t).value;
      b.moment < |moves| && moves[b.moment] == Begin(t, b.request) && b.before == |Play(n, moves[..b.moment]).served|
  {
    var earlier, m := moves[..|moves| - 1], moves[|moves| - 1];
    if !(m.Begin? && m.t == t && CanBegin(Play(n, earlier), t)) {
      LatestHappened(n, earlier, t);
      var b := Latest(n, earlier, t).value;
      assert earlier[..b.moment] == moves[..b.moment];
    }
  }

  /** The serial order respects real time: a request answered before another one began is served before it. */
  lemma RealTimeOrder(n: nat, moves: seq<Move>, k: nat, t: nat, u: nat)
    requires k <= |moves| && t < |Play(n, moves[..k]).handlers| && u < |Play(n, moves).handlers|
    requires Answered(Play(n, moves[..k]).handlers[t]) && Answered(Play(n, moves).handlers[u])
    requires Latest(n, moves, u).Some? && k <= Latest(n, moves, u).value.moment
    ensures Play(n, moves[..k]).handlers[t].outcome.at < Play(n, moves).handlers[u].outcome.at
  {
    hide Play, Latest;
    var b := Latest(n, moves, u).value;
    AlwaysWorksOn(n, moves[..k], t);
    AlwaysWorksOn(n, moves, u);
    LatestHappened(n, moves, u);
    ServedGrows(n, moves[..b.moment], k);
    assert moves[..b.moment][..k] == moves[..k];
  }

  // ---------- every handler gets done ----------

  /** The steps a handler still has to make. */
  function StepsLeft(h: Handler): nat {
    match h
    case Entered(r) => 5
    case Executed(_) => 4
    case Counted(_, _) => 3
    case Stored(_) => 2
    case Released(_) => 1
    case Recording(_, left) => 2 * |left| + 1
    case HalfRecorded(_, left) => 2 * |left|
    case _ => 0
  }

  /** `k` steps of one handler, undisturbed. */
  function Repeat(t: nat, k: nat): seq<Move> {
    seq(k, i => Advance(t))
  }

  lemma PlaySnoc(n: nat, moves: seq<Move>, m: Move)
    ensures Play(n, moves + [m]) == Apply(Play(n, moves), m)
  {
    assert (moves + [m])[..|moves|] == moves;
  }

  lemma RecordingStep(s: Server, t: nat)
    requires t < |s.handlers| && HandlerInv(s, s.handlers[t])
    requires s.handlers[t].Recording? || s.handlers[t].HalfRecorded?
    ensures var h, h' := s.handlers[t], AdvanceHandler(s, t).handlers[t];
      if StepsLeft(h) == 1 && h.Recording? then h'.Broadcast?
      else (h'.Recording? || h'.HalfRecorded?) && StepsLeft(h) > 1 && StepsLeft(h') == StepsLeft(h) - 1
    ensures |AdvanceHandler(s, t).handlers| == |s.handlers|
  {
    hide Serve, SnapshotOf, OutcomeOf;
  }

  /** Past the lock only the recording of trades remains. */
  lemma {:induction false} RecordingEnds(n: nat, moves: seq<Move>, t: nat, k: nat)
    requires t < |Play(n, moves).handlers| && k == StepsLeft(Play(n, moves).handlers[t])
    requires Play(n, moves).handlers[t].Recording? || Play(n, moves).handlers[t].HalfRecorded?
    ensures t < |Play(n, moves + Repeat(t, k)).handlers|
    ensures Play(n, moves + Repeat(t, k)).handlers[t].Broadcast?
    decreases k
  {
    hide Play, AdvanceHandler, StepsLeft, Inv;
    StepOfRecording(n, moves, t);
    var later := moves + [Advance(t)];
    assert moves + Repeat(t, k) == later + Repeat(t, k - 1);
    if Play(n, later).handlers[t].Broadcast? {
      assert later + Repeat(t, 0) == later;
    } else {
      RecordingEnds(n, later, t, k - 1);
    }
  }

  lemma StepOfRecording(n: nat, moves: seq<Move>, t: nat)
    requires t < |Play(n, moves).handlers|
    requires Play(n, moves).handlers[t].Recording? || Play(n, moves).handlers[t].HalfRecorded?
    ensures var s, s' := Play(n, moves), Play(n, moves + [Advance(t)]);
      |s'.handlers| == |s.handlers| &&
      var k, h' := StepsLeft(s.handlers[t]), s'.handlers[t];
      k >= 1 && if k == 1 then h'.Broadcast? else (h'.Recording? || h'.HalfRecorded?) && StepsLeft(h') == k - 1
  {
    hide Play, AdvanceHandler, HandlerInv, SnapshotOf, MutexInv, ActiveInv, CountersInv;
    AlwaysInv(n, moves);
    PlaySnoc(n, moves, Advance(t));
    assert HandlerInv(Play(n, moves), Play(n, moves).handlers[t]);
    RecordingStep(Play(n, moves), t);
  }

  /** Left to itself, a handler that holds the lock or is past it releases the lock and gets done. */
  lemma {:induction false} HandlersFinish(n: nat, moves: seq<Move>, t: nat)
    returns (k: nat)
    requires t < |Play(n, moves).handlers|
    ensures t < |Play(n, moves + Repeat(t, k)).handlers|
    ensures Finished(Play(n, moves + Repeat(t, k)).handlers[t])
    ensures Play(n, moves + Repeat(t, k)).owner != Some(t)
    decreases if Play(n, moves).handlers[t].Recording? || Play(n, moves).handlers[t].HalfRecorded? then 0
              else 1 + StepsLeft(Play(n, moves).handlers[t])
  {
    hide Play, SnapshotOf, OutcomeOf, ActiveOrders, Handle;
    var s := Play(n, moves);
    var h := s.handlers[t];
    if Finished(h) {
      k := 0;
      assert moves + Repeat(t, 0) == moves;
    } else if h.Recording? || h.HalfRecorded? {
      k := StepsLeft(h);
      RecordingEnds(n, moves, t, k);
    } else {
      PlaySnoc(n, moves, Advance(t));
      var rest := HandlersFinish(n, moves + [Advance(t)], t);
      k := rest + 1;
      assert moves + Repeat(t, k) == (moves + [Advance(t)]) + Repeat(t, rest);
    }
    AlwaysInv(n, moves + Repeat(t, k));
    assert MutexInv(Play(n, moves + Repeat(t, k)));
  }

  /** The engine has seen exactly the served requests, in that order. */
  lemma EngineIsSerial(n: nat, moves: seq<Move>)
    ensures var s := Play(n, moves);
      s.adapter == Serve(s.served) && s.adapter.engine == Run(CommandsOf(s.served))
  {
    AlwaysInv(n, moves);
    RunsAreLegal(Play(n, moves).served);
  }
}
