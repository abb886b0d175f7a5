/** The server's counters. Each statement below is one atomic operation of the source. */
module MetricsModule {

  datatype Counters = Counters(ordersProcessed: int, tradesExecuted: int, activeOrders: int, totalVolume: int)

  const ZERO := Counters(0, 0, 0, 0)

  class Metrics {
    var ordersProcessed: int
    var tradesExecuted: int
    var activeOrders: int
    var totalVolume: int

    function Value(): Counters
      reads this
    {
      Counters(ordersProcessed, tradesExecuted, activeOrders, totalVolume)
    }

    constructor ()
      ensures Value() == ZERO
    {
      ordersProcessed, tradesExecuted, activeOrders, totalVolume := 0, 0, 0, 0;
    }

    method RecordOrder()
      modifies this
      ensures Value() == old(Value()).(ordersProcessed := old(ordersProcessed) + 1)
    {
      ordersProcessed := ordersProcessed + 1;
    }

    method RecordTrade(volume: int)
      modifies this
      ensures Value() == old(Value()).(tradesExecuted := old(tradesExecuted) + 1,
                                       totalVolume := old(totalVolume) + volume)
    {
      tradesExecuted := tradesExecuted + 1;
      totalVolume := totalVolume + volume;
    }

    /** Counts nothing, although the source's comment says a cancellation is a processed order. */
    method RecordCancel()
      ensures Value() == old(Value())
    {
    }

    method SetActiveOrders(count: int)
      modifies this
      ensures Value() == old(Value()).(activeOrders := count)
    {
      activeOrders := count;
    }
  }
}
