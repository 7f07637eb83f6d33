/** The values the matching engine works with. */
module Types {

  datatype Option<+T> = None | Some(value: T)

  datatype Side = Buy | Sell

  datatype OrderType = Market | Limit | StopLoss | StopLimit

  /** Unset stands for a market or stop-loss order's unvalidated time in force: it is handled like GTC. */
  datatype TimeInForce = GTC | IOC | FOK | Unset

  datatype Status = Created | Open | PartiallyFilled | Filled | Cancelled | Rejected | Expired

  /** The fields of an order at one moment. `arrival` is the book's sequence number when the order came to rest. */
  datatype OrderView = OrderView(
    id: string, user: string, side: Side, typ: OrderType, tif: TimeInForce,
    price: int, quantity: int, filled: int, status: Status, arrival: nat)
  {
    function Remaining(): int {
      quantity - filled
    }
  }

  datatype Trade = Trade(
    takerId: string, makerId: string, takerUser: string, makerUser: string, symbol: string,
    price: int, quantity: int, quoteQty: int, takerSide: Side)

  function Opposite(s: Side): Side {
    if s == Buy then Sell else Buy
  }
}
