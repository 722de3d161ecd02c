/**
 * The order record shared by the book, the engine and the orders table
 * (src/models/order.ts), plus the small Option/Outcome wrappers the
 * lookups and the failing store operations return.
 */
module Orders {

  datatype Option<+T> = None | Some(value: T)

  /** Pass, or Fail with the error the source rejects its promise with. */
  datatype Outcome<+E> = Pass | Fail(error: E)

  /** `type: 'BUY' | 'SELL'` */
  datatype Side = Buy | Sell

  datatype Status = Pending | PartiallyFilled | Filled | Canceled

  /**
   * One limit order. `quantity` is the remaining quantity (the engine
   * lowers it as the order trades); `createdAt` is the submission time in
   * milliseconds (`Date.getTime()`), the tie-break key of the book.
   */
  datatype Order = Order(
    id: int,
    userId: string,
    symbol: string,
    side: Side,
    quantity: int,
    price: real,
    status: Status,
    createdAt: int
  )

  /** The set of ids carried by a queue of orders. */
  function IdsIn(q: seq<Order>): set<int>
  {
    set o | o in q :: o.id
  }
}
