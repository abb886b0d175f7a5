/** Whole runs of the adapter: its numbering makes every run of the engine a legal one. */
module AdapterRuns {
  import opened Types
  import opened FlatBook
  import opened History
  import opened ResultFold

  datatype AdapterState = AdapterState(engine: Engine, nextOrderId: nat)

  const START := AdapterState(INITIAL, 1)

  datatype Request =
    | PlaceRequest(side: Side, orderType: OrderType, price: Price, quantity: int, now: nat)
    | CancelRequest(orderId: int)

  /** What the parser lets through: positive `std::int64_t` quantities, any `std::int64_t` id. */
  predicate Parsed(r: Request) {
    match r
    case PlaceRequest(_, _, _, quantity, _) => 0 < quantity < TWO_63
    case CancelRequest(orderId) => -TWO_63 <= orderId < TWO_63
  }

  type ParsedRequest = r: Request | Parsed(r) witness CancelRequest(0)

  function OrderFor(id: nat, r: ParsedRequest): Order
    requires r.PlaceRequest?
  {
    Order(id, r.side, r.orderType, r.price, r.quantity, r.quantity, r.now)
  }

  function CommandFor(id: nat, r: ParsedRequest): Command {
    if r.PlaceRequest? then Submit(OrderFor(id, r)) else Cancel(ToU64(r.orderId))
  }

  function Handle(s: AdapterState, r: ParsedRequest): AdapterState {
    AdapterState(Step(s.engine, CommandFor(s.nextOrderId, r)),
                 if r.PlaceRequest? then s.nextOrderId + 1 else s.nextOrderId)
  }

  function Serve(requests: seq<ParsedRequest>): AdapterState {
    if requests == [] then START
    else Handle(Serve(requests[..|requests| - 1]), requests[|requests| - 1])
  }

  lemma ServeSnoc(served: seq<ParsedRequest>, r: ParsedRequest)
    ensures Serve(served + [r]) == Handle(Serve(served), r)
  {
    assert (served + [r])[..|served|] == served;
  }

  /** The engine commands a run of requests amounts to. */
  function CommandsOf(requests: seq<ParsedRequest>): (cmds: seq<Command>)
    ensures |cmds| == |requests|
  {
    if requests == [] then []
    else
      var before := requests[..|requests| - 1];
      CommandsOf(before) + [CommandFor(Serve(before).nextOrderId, requests[|requests| - 1])]
  }

  /** All submitted ids lie between 1 and the next number. */
  ghost predicate NumberedBelow(cmds: seq<Command>, next: nat) {
    forall i :: 0 <= i < |cmds| && cmds[i].Submit? ==> 1 <= cmds[i].order.orderId < next
  }

  lemma LegalSnoc(cmds: seq<Command>, c: Command, next: nat)
    requires Legal(cmds) && NumberedBelow(cmds, next)
    requires c.Submit? ==> c.order.orderId == next && c.order.remainingQuantity == c.order.quantity > 0
    ensures Legal(cmds + [c])
  {
    var r := cmds + [c];
    forall i, j | 0 <= i < j < |r| && r[i].Submit? && r[j].Submit?
      ensures r[i].order.orderId != r[j].order.orderId
    {
      if j == |cmds| { assert r[i] == cmds[i]; }
    }
  }

  /** Every run of the adapter is a legal run of the engine: ids are never reused, so everything
      proved of legal runs holds of it. */
  lemma {:induction false} RunsAreLegal(requests: seq<ParsedRequest>)
    ensures Serve(requests).engine == Run(CommandsOf(requests))
    ensures Legal(CommandsOf(requests))
    ensures NumberedBelow(CommandsOf(requests), Serve(requests).nextOrderId)
    ensures Serve(requests).nextOrderId >= 1
  {
    hide Legal, Step, Run;
    if requests == [] {
      EmptyRun();
    } else {
      var before := requests[..|requests| - 1];
      RunsAreLegal(before);
      var c := CommandFor(Serve(before).nextOrderId, requests[|requests| - 1]);
      RunSnoc(CommandsOf(before), c);
      LegalSnoc(CommandsOf(before), c, Serve(before).nextOrderId);
    }
  }

  lemma EmptyRun()
    ensures Legal([]) && Run([]) == INITIAL
  {
  }

  lemma RunSnoc(cmds: seq<Command>, c: Command)
    ensures Run(cmds + [c]) == Step(Run(cmds), c)
  {
    assert (cmds + [c])[..|cmds|] == cmds;
  }

  /** In every reachable state of the adapter the next id is above every id in the book and in the
      trade history, and the book satisfies its invariant. */
  lemma {:induction false} AlwaysFresh(requests: seq<ParsedRequest>)
    ensures var s := Serve(requests);
      BookInv(s.engine.book) && IdsBelow(s.engine.book, s.engine.trades, s.nextOrderId) &&
      !Rests(s.engine.book, s.nextOrderId)
  {
    RunsAreLegal(requests);
    RunInv(CommandsOf(requests));
    var s := Serve(requests);
    IdsOfRun(CommandsOf(requests), s);
    FreshDoesNotRest(s.engine.book, s.engine.trades, s.nextOrderId);
  }

  lemma SubmittedBelow(cmds: seq<Command>, id: nat, side: Side, next: nat)
    requires SubmittedAs(cmds, id, side)
    requires NumberedBelow(cmds, next)
    ensures id < next
  {
  }

  lemma IdsOfRun(cmds: seq<Command>, s: AdapterState)
    requires Sourced(cmds, s.engine)
    requires NumberedBelow(cmds, s.nextOrderId)
    ensures IdsBelow(s.engine.book, s.engine.trades, s.nextOrderId)
  {
    forall id: nat, side | SubmittedAs(cmds, id, side) ensures id < s.nextOrderId {
      SubmittedBelow(cmds, id, side, s.nextOrderId);
    }
  }
}
