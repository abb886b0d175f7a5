/** The values that cross the engine's interface: orders, trades and events. */
module Types {

  datatype Option<+T> = None | Some(value: T)

  /** Prices are a total order with negation; the rounding of `double` is not modelled. */
  type Price = real

  datatype Side = BUY | SELL {
    function Opposite(): Side {
      if BUY? then SELL else BUY
    }
  }

  datatype OrderType = LIMIT | MARKET

  datatype Order = Order(
    orderId: nat,
    side: Side,
    orderType: OrderType,
    price: Price,
    quantity: nat,
    remainingQuantity: nat,
    timestamp: nat)

  datatype Trade = Trade(
    tradeId: nat,
    buyOrderId: nat,
    sellOrderId: nat,
    price: Price,
    quantity: nat,
    timestamp: nat)

  /** `Event.type` selects which of the remaining fields the source fills in. */
  datatype Event =
    | OrderAccepted(orderId: nat)
    | OrderCancelled(orderId: nat)
    | TradeExecuted(trade: Trade)
    | OrderPartiallyFilled(orderId: nat)
    | OrderCompletelyFilled(orderId: nat)
    | OrderBookChanged

  function Min(a: nat, b: nat): nat {
    if a <= b then a else b
  }
}
