# FinTora order book, matching engine and order server: a verified model

This project models the limit order book and matching engine of FinTora (`engine/`), the adapter that
numbers orders and reads results back from the engine's event stream, and the server protocols around
them: request handlers that share a mutex and counters, and the per-session write queue.

How it is built:

- `FlatBook.dfy` is the simple form: one flat priority list per side, matching as a recursion over such a
  list, insertion behind all orders of equal or better price, cancellation as deletion of an id.
- `OrderBook.dfy` and `MatchingEngine.dfy` are the engine's own form: classes over price levels in map order,
  FIFO lists of stable node objects whose remaining quantity is assigned in place, and an index from id to
  location. Every method is proved equal to the flat form (`Contents()` is the abstraction).
- The theorems are then proved about the flat form: `Matching`, `BestExecution`, `Replay`, `Mirror`, `Split`,
  `RoundTrip`, `Depth`, `Ledger`, `History` (whole runs) and `Priority`. They hold of the classes because every
  call of the adapter's or the request handler's extends the run of requests its state follows (`Served`,
  `Follows`), and such a run is a legal run of the flat engine (`FollowsRun`).
- `ResultFold.dfy`, `EngineAdapter.dfy` and `AdapterRuns.dfy` treat the adapter; `Metrics.dfy`,
  `RequestHandler.dfy` and `Accounting.dfy` the request handlers, alone and interleaved step by step;
  `WebSocketSession.dfy` the write queue.

Modelling choices:

- Prices are `real`; quantities, order ids and trade ids are `nat`. Where the source sums level quantities in
  `std::uint64_t` or casts to `std::int64_t`, the wrap-around is written out (`Wrap`, `ToI64`, `ToU64`), and
  `WrapExact` and `ShownExact` say exactly when it does not show.
- `std::map` is the sequence of its entries in comparator order, `std::list` a sequence of node references (an
  iterator is the reference), `std::unordered_map` a `map`.
- A `RestingOrder` node has one mutable field, `remainingQuantity`: the source assigns no other field of an
  order once it rests.
- The engine's `placeOrder` asks only what `engine/README.md` line 525 asks: an id that is not in use. Orders of
  any quantity and remaining quantity are accepted by the model as by the code.
- The wall clock (`now`) is a parameter. The order's `timestamp` is carried and never read.

Where code and documentation disagree, the model follows the code:

- `engine/README.md` line 237 describes `ORDER_BOOK_CHANGED` as "the state of the order book changed". It also
  ends the events of two kinds of placement that change nothing (`BookChangedWithoutChange`): a MARKET order
  that meets an empty opposite side, and an order with no remaining quantity. `BookChangesIff` proves that these
  are the only such placements. At the handler's level, where quantities are positive, the promise holds: a book is broadcast if and only if it changed (`SnapshotIffChanged`).
- `server/README.md` line 141 promises an update broadcast for every status transition. A resting order left
  partly filled gets the sentinel -1 and is not announced (`TransitionNotBroadcast`). Every transition is
  broadcast if and only if the executed quantity ends on an order boundary (`TransitionsBroadcastIff`).
- A comment in `server/src/Metrics.cpp` says that cancellations are counted as processed orders; `recordCancel`
  counts nothing, and neither does a rejected placement.
- `server/README.md` line 154 announces an `ERROR` for an unknown cancellation; the handler answers
  `ORDER_REJECTED`.

## Model

| member | source | states |
|---|---|---|
| OrderBooks.OrderBook.AddOrder | engine/src/OrderBook.cpp:11-27 | the new node stands behind every order of equal or better price on its side, the other side is untouched, and exactly its id is added to the index |
| OrderBooks.OrderBook.BestBid | engine/src/OrderBook.cpp:33-59 | null exactly when there is no BUY order (an empty level never occurs); otherwise the first node in price-time order |
| OrderBooks.OrderBook.BestAsk | engine/src/OrderBook.cpp:91-112 | null exactly when there is no SELL order; otherwise the first node in price-time order |
| OrderBooks.OrderBook.RemoveBestBid | engine/src/OrderBook.cpp:144-167 | removes the first BUY order and its index entry and nothing else, and reports whether there was one |
| OrderBooks.OrderBook.RemoveBestAsk | engine/src/OrderBook.cpp:173-196 | removes the first SELL order and its index entry and nothing else, and reports whether there was one |
| OrderBooks.OrderBook.CancelOrder | engine/src/OrderBook.cpp:307-338 | finds the id if and only if it rests, and leaves both sides as filtering out that id leaves them |
| OrderBooks.OrderBook.IndexedIds | engine/include/OrderBook.h:57-70 | in every valid book the index knows exactly the resting ids |
| OrderBooks.EraseBidKeeps | engine/src/OrderBook.cpp:317-325 | the level looked up by price exists, so `operator[]` makes none; the indexed node leaves it and index and levels still agree |
| OrderBooks.EraseAskKeeps | engine/src/OrderBook.cpp:326-334 | the same for the SELL side |
| OrderBooks.PushBackFlatten | engine/src/OrderBook.cpp:13-26 | appending to the level of its price is insertion into the flat price-time list |
| OrderBooks.OrderBook.GetBidDepth | engine/src/OrderBook.cpp:202-249 | the n best BUY prices, or all if there are fewer, best first, each with everything open at it in uint64 arithmetic |
| OrderBooks.OrderBook.GetAskDepth | engine/src/OrderBook.cpp:255-301 | the n best SELL prices, or all if there are fewer, best first, each with everything open at it in uint64 arithmetic |
| OrderBooks.LevelsGroup | engine/src/OrderBook.cpp:221-246 | summing level by level equals grouping and summing the flat list by price |
| OrderBooks.OrderBook.GetOpenOrders | engine/src/OrderBook.cpp:344-362 | all resting orders, bids before asks, each side in priority order |
| OrderBooks.AddThenCancel | engine/src/OrderBook.cpp:11-338 | resting a fresh order and cancelling it restores both maps level by level and the index exactly |
| MatchingEngines.MatchingEngine.TradeWithAsk | engine/src/MatchingEngine.cpp:36-74 | the BUY branch makes one trade as the flat form does: quantity, price, parties, counters, events, in-place reduction or removal |
| MatchingEngines.MatchingEngine.TradeWithBid | engine/src/MatchingEngine.cpp:90-128 | the SELL branch makes one trade as the flat form does |
| MatchingEngines.MatchingEngine.MatchIncoming | engine/src/MatchingEngine.cpp:20-130 | the loop terminates and equals the prefix-consuming recursion on the opposite side; the own side is untouched |
| MatchingEngines.MatchingEngine.PlaceOrder | engine/src/MatchingEngine.cpp:10-157 | book, trade history, counters and returned events are those of the flat form, for every valid book and every order with an unused id; the first event accepts this order and no other event is an acceptance |
| MatchingEngines.MatchingEngine.CancelOrder | engine/src/MatchingEngine.cpp:163-178 | filters one id out of the book; the cancellation of that id and the book change if it rested, no event otherwise |
| MatchingEngines.MatchingEngine.GetOpenOrders | engine/src/MatchingEngine.cpp:193-196 | all resting orders, bids before asks |
| MatchingEngines.PlaceAndCancel | engine/src/MatchingEngine.cpp:10-178 | on the engine, placing an order that trades nothing and cancelling it restores the price maps level by level, the index, the history and the counters |
| Matching.MatchShape | engine/src/MatchingEngine.cpp:20-130 | the i-th trade is with the i-th order at that order's price; all touched orders are consumed whole except perhaps the last, and then nothing is left of the incoming order |
| Matching.MatchStops | engine/src/MatchingEngine.cpp:20-34 | matching stops only when no further trade is possible |
| Matching.MatchTaker | engine/src/MatchingEngine.cpp:36-57 | the incoming order loses exactly the traded volume and nothing else of it changes |
| Matching.WorkBound | engine/src/MatchingEngine.cpp:20-130 | no more trades than the incoming quantity or the opposite order count; all but the last consume their resting order |
| Matching.TradeTerms | engine/src/MatchingEngine.cpp:30-49 | number, stamp, price and both parties of every trade, and its price is within the order's limit |
| Matching.PlaceEvents | engine/src/MatchingEngine.cpp:14-156 | the whole event vector of a placement, position by position |
| Matching.PlaceKeepsInv | engine/src/MatchingEngine.cpp:10-157 | a placement keeps the book sorted, uncrossed, free of repeated ids, and every resting order LIMIT with 0 < remaining <= quantity |
| Matching.CancelKeepsInv | engine/src/OrderBook.cpp:307-338 | so does a cancellation, after which the id no longer rests |
| BestExecution.ExecutesAll | engine/src/MatchingEngine.cpp:20-57 | the executed quantity is the minimum of the order's quantity and all resting quantity at acceptable prices |
| BestExecution.BuyIsCheapest | engine/src/MatchingEngine.cpp:20-75 | no feasible allocation of the executed quantity over the resting orders costs a BUY less |
| BestExecution.SellIsDearest | engine/src/MatchingEngine.cpp:76-129 | no feasible allocation of the executed quantity pays a SELL more |
| BestExecution.TradesAreFeasible | engine/src/MatchingEngine.cpp:36-57 | the trades made are themselves one of those allocations, with the same cost |
| Replay.PlaceReplays | engine/src/MatchingEngine.cpp:14-156 | applying the returned events to the old open orders rebuilds the new open orders, remaining quantities and priority exactly |
| Replay.CancelReplays | engine/src/MatchingEngine.cpp:163-178 | so does applying the events of a cancellation, found or not |
| Replay.RunReplays | engine/src/MatchingEngine.cpp:10-178 | applying all events of a legal run to the empty view rebuilds the book the run leads to |
| Mirror.PlaceMirrors | engine/src/MatchingEngine.cpp:22-129 | swapping sides and negating prices commutes with placement: book, order, trades and events |
| Mirror.CancelMirrors | engine/src/OrderBook.cpp:317-334 | and with cancellation |
| Mirror.RunMirrors | engine/src/MatchingEngine.cpp:10-178 | and with whole runs: mirrored commands lead to the mirrored book and trade history |
| Split.MatchSplit | engine/src/MatchingEngine.cpp:20-130 | matching a quantity is matching its parts one after the other |
| Split.SplitInvariance | engine/src/MatchingEngine.cpp:20-150 | a + b at once, or a then b: same opposite side, same fill of every resting order, same L2 depth on both sides |
| RoundTrip.PlaceThenCancel | engine/src/MatchingEngine.cpp:147-150 | placing and then cancelling leaves exactly what matching alone left |
| RoundTrip.PlaceThenCancelRestores | engine/src/OrderBook.cpp:307-338 | for an order that trades nothing, the book is restored |
| RoundTrip.BookChangesIff | engine/src/MatchingEngine.cpp:132-154 | a placement leaves the book unchanged if and only if nothing of the order is left to fill or it is a MARKET order meeting an empty opposite side |
| RoundTrip.BookChangedWithoutChange | engine/src/MatchingEngine.cpp:152-154 | concrete placements of both kinds that report a book change without one |
| Depth.GroupBestFirst | engine/src/OrderBook.cpp:215-221 | depth levels are strictly best first |
| Depth.GroupSums | engine/src/OrderBook.cpp:230-243 | each level shows the whole open quantity at its price |
| Depth.GroupPrices | engine/src/OrderBook.cpp:221-246 | exactly the resting prices are shown |
| Depth.DepthIs | engine/src/OrderBook.cpp:215-246 | the first n groups are the n best prices, with the whole open quantity at each |
| Depth.GroupTotal | engine/src/OrderBook.cpp:203-249 | the full depth sums to all open quantity of the side |
| Depth.DepthPrefix | engine/src/OrderBook.cpp:223-228 | asking for fewer levels gives a prefix |
| Depth.WrapExact | engine/src/OrderBook.cpp:231-238 | the uint64 sums are the true ones if and only if every requested level holds less than 2^64 |
| Ledger.MakerConserved | engine/src/MatchingEngine.cpp:36-57 | what a resting order loses it trades, on its own side only |
| Ledger.TakerConserved | engine/src/MatchingEngine.cpp:36-57 | what the incoming order loses it trades, on its own side only |
| History.RunInv | engine/src/MatchingEngine.cpp:10-178 | after every legal run the book is uncrossed and valid, every id in book and history was submitted on that side, and trades are numbered and stamped consecutively from 1 |
| History.Conservation | engine/src/MatchingEngine.cpp:36-150 | for every id, quantity asked = traded + resting + cancelled or discarded, after every legal run |
| History.BoughtEqualsSold | engine/src/MatchingEngine.cpp:41-49 | after every legal run, total bought = total sold = traded volume |
| History.GoneStaysGone | engine/src/MatchingEngine.cpp:59-67 | an order filled or cancelled never rests again and no later trade names it |
| Priority.NoOvertaking | engine/src/OrderBook.cpp:33-59 | while two orders rest on one side their order never changes, however many commands later |
| Priority.ServedInOrder | engine/src/MatchingEngine.cpp:24-66 | an order trades in a step only if every order ahead of it is completely filled in that step |
| Priority.RestsAsSubmitted | engine/src/MatchingEngine.cpp:147-150 | after every legal run, a resting order differs from the submitted one in its remaining quantity only |
| Priority.PriceTimePriority | engine/src/OrderBook.cpp:11-27 | of two orders of one side that rest after a legal run, the earlier one is ahead if and only if the later one's price is not strictly better |
| Priority.NewcomerBehind | engine/src/OrderBook.cpp:11-27 | a newcomer rests behind exactly the orders of equal or better price |
| ResultFold.ReadPlace | server/src/EngineAdapter.cpp:65-125 | the fold over the events computes the engine's true final status, remaining quantity, trades and updates |
| ResultFold.FinishPlace | server/src/EngineAdapter.cpp:46-137 | the finished result reports the true status, remaining quantity, trades (number, price and quantity of each) and one update per order touched, which add up, and rejects exactly a MARKET order with an empty opposite side, when nothing changed |
| ResultFold.SentinelLast | server/src/EngineAdapter.cpp:108-114 | at most one update of the result carries -1: that of the last resting order touched, exactly when it is left partly filled, and it names that order |
| ResultFold.UntouchedIff | server/src/EngineAdapter.cpp:127-135 | a MARKET order stays unfilled exactly when the opposite side is empty |
| ResultFold.PlaceKeepsFresh | server/src/EngineAdapter.cpp:48-60 | consecutive numbering keeps the next id above every id in the book and the history |
| EngineAdapters.ReadEvents | server/src/EngineAdapter.cpp:62-137 | the loop over the events computes the fold |
| EngineAdapters.EngineAdapter.PlaceOrder | server/src/EngineAdapter.cpp:43-138 | engine state and result for every valid adapter; the id is fresh before and after; the run of requests is extended by one |
| EngineAdapters.EngineAdapter.FollowsRun | server/src/EngineAdapter.cpp:43-156 | after any sequence of calls the objects are in the state of a legal run of the flat engine |
| EngineAdapters.EngineAdapter.CancelOrder | server/src/EngineAdapter.cpp:140-156 | succeeds exactly for a resting id; a negative id never finds one; the run of requests is extended by one |
| EngineAdapters.EngineAdapter.GetOrderBook | server/src/EngineAdapter.cpp:158-174 | bids show the ten best BUY prices and asks the ten best SELL prices, best first, each with everything open at it cast to int64, and nothing changes |
| EngineAdapters.EngineAdapter.GetActiveOrderCount | server/src/EngineAdapter.cpp:176-179 | the number of resting orders, and nothing changes |
| EngineAdapters.ShownExact | server/src/EngineAdapter.cpp:166-171 | a shown quantity is the true one if and only if the level holds less than 2^63 |
| AdapterRuns.RunsAreLegal | server/src/EngineAdapter.cpp:48-60 | every run of the adapter is a legal run of the engine, ids never reused |
| AdapterRuns.AlwaysFresh | server/src/EngineAdapter.cpp:50-60 | in every reachable state the next id is unused and above all ids in book and history |
| MetricsModule.Metrics.RecordOrder | server/src/Metrics.cpp:8-10 | one more processed order, nothing else |
| MetricsModule.Metrics.RecordTrade | server/src/Metrics.cpp:12-15 | one more trade and its volume, nothing else |
| MetricsModule.Metrics.RecordCancel | server/src/Metrics.cpp:17-19 | no counter changes |
| MetricsModule.Metrics.SetActiveOrders | server/src/Metrics.cpp:21-23 | the active count, nothing else |
| RequestHandlers.Announce | server/src/RequestHandler.cpp:78-87 | broadcasts every trade in order, then every update but the sentinels in order, and counts every trade |
| RequestHandlers.StatusMessagesKnown | server/src/RequestHandler.cpp:83-87 | which update each status message carries |
| RequestHandlers.RequestHandler.HandlePlaceOrder | server/src/RequestHandler.cpp:48-98 | for one placement: the acknowledgement with the order's own id and terms, or the rejection without broadcasts; every broadcast by position; the counters; the adapter's whole next state |
| RequestHandlers.RequestHandler.HandleCancelOrder | server/src/RequestHandler.cpp:100-127 | for one cancellation: the answer, its two broadcasts or none, the counters and the adapter's whole next state |
| RequestHandlers.SnapshotIffChanged | server/src/RequestHandler.cpp:60-91 | a refreshed book is broadcast, last, if and only if the placement changed the book |
| RequestHandlers.TransitionsBroadcastIff | server/src/RequestHandler.cpp:83-87 | every status transition is broadcast if and only if the executed quantity ends on an order boundary |
| RequestHandlers.TransitionNotBroadcast | server/src/RequestHandler.cpp:83-87 | a concrete placement with an unannounced transition |
| Accounting.AlwaysInv | server/src/RequestHandler.cpp:53-91 | the inductive invariant of all interleavings: counted plus still owed by in-flight handlers is the engine's history |
| Accounting.MetricsAgree | server/src/RequestHandler.cpp:65-81 | the counters of orders, trades and volume never run ahead of the engine and agree with it whenever no handler is at work |
| Accounting.ActiveCountExact | server/src/RequestHandler.cpp:54-58 | whenever `engineMutex_` is free the active count is the number of open orders |
| Accounting.AnswersAreSerial | server/src/RequestHandler.cpp:105-122 | every answer is the true answer to the request its handler began with, in the state at its place in one serial order, after all that was served when it began; handlers broadcast exactly for requests that succeed, and every snapshot shows the book between whole requests at or after that place |
| Accounting.DistinctPlaces | server/src/RequestHandler.cpp:53-122 | different handlers' answers have different places in the serial order |
| Accounting.RealTimeOrder | server/src/RequestHandler.cpp:53-122 | a request answered before another began has the earlier place |
| Accounting.NegativeNeverFound | server/src/EngineAdapter.cpp:140-156 | below 2^63 - 2 requests, a cancellation succeeds exactly for a non-negative resting id |
| Accounting.HandlersFinish | server/src/RequestHandler.cpp:53-122 | a handler left to itself releases the lock and gets done |
| Accounting.EngineIsSerial | server/src/RequestHandler.cpp:54-58 | under every interleaving the engine state is that of a legal serial run |
| WebSocketSessions.AlwaysInv | server/src/WebSocketSession.cpp:83-147 | at most one outstanding write, the queue's front; while open, outstanding iff queued; completed, queued and posted concatenate to the accepted sends |
| WebSocketSessions.AcceptedAreSent | server/src/WebSocketSession.cpp:83-94 | what is accepted or still to be posted is, with multiplicity, what was sent while the session was open |
| WebSocketSessions.CompletionsEnabled | server/src/WebSocketSession.cpp:113-127 | a completion handler never erases from an empty queue |
| WebSocketSessions.DrainedMeansDelivered | server/src/WebSocketSession.cpp:96-137 | an open session with nothing pending has delivered every accepted message in order |
| WebSocketSessions.ReceivedIsPrefix | server/src/WebSocketSession.cpp:96-147 | what a client received is always a prefix of what was accepted |
| WebSocketSessions.NothingAfterClose | server/src/WebSocketSession.cpp:97-147 | however a run continues after a close, at most the write in flight still completes |
| WebSocketSessions.WebSocketSession.Send | server/src/WebSocketSession.cpp:83-94 | posts this message, last, if the session is open, and changes nothing if it is closed |
| WebSocketSessions.WebSocketSession.OnSend | server/src/WebSocketSession.cpp:96-111 | queues the message and starts a write only if the queue was empty |
| WebSocketSessions.WebSocketSession.OnWrite | server/src/WebSocketSession.cpp:113-137 | completes the outstanding write, closes on an error, and starts the next queued write |
| WebSocketSessions.WebSocketSession.Disconnect | server/src/WebSocketSession.cpp:139-147 | the first call closes the session, takes it off the client list and closes the socket; later calls change nothing |

## Left out

- IEEE-754 rounding and NaN prices, the `symbol` field, and all timing and complexity claims.
- Wrap-around of `nextTradeId` and `nextTimestamp` (`std::uint64_t`) and of the `int64_t` counters: they are unbounded here.
- EngineAdapters.EngineAdapter.PlaceOrder: requires that fewer than 2^63 - 2 orders were placed before, because signed overflow of `nextOrderId_` is undefined in the source; positive quantity below 2^63 is what the parser lets through (server/src/Protocol.cpp:47-50).
- AdapterRuns.RunsAreLegal: numbers orders without that bound. `Accounting` inherits this: past it, a negative id is
  answered for the order its cast names, as `AnswersAreSerial` states.
- The pointer structure of `std::map`, `std::list` and `std::unordered_map`; their entries in order, node identity and the in-place change of remaining quantities are modelled.
- The statements of one matching step in their exact order: `TradeWithAsk` and `TradeWithBid` reduce the resting order before they bump the counters, which nothing can observe.
- Calling `placeOrder` with an id that is in use: the source documents it as the caller's duty not to.
- MetricsModule.Metrics.RecordTrade: the class method adds count and volume together; `Accounting` takes the two `fetch_add` calls as two steps.
- The adapter's own `mutex_`: each of its calls is one atomic step in `Accounting`, which is what that mutex gives.
- `GET_METRICS` and `Metrics::snapshot`: four relaxed loads with no relation to each other promised.
- The handlers' interleaving is modelled by step functions on values (`Accounting`), the class `RequestHandler` runs one request alone.
- The cross-client order of broadcasts, which the code does not promise, and `ClientManager`'s session set, of which a session models only whether it is in it.
- JSON, sockets, handshakes, timeouts, the accept loop and signals. Assumed of Asio: a strand runs posted handlers one at a time in order, and each write completes once.
- The React frontend.
