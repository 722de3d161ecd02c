/**
 * The orders table of src/services/orderService.ts, keyed by order id:
 * the pending-orders query, the cancel transition, and the status write
 * the engine's settlement uses.
 */
module OrderService {
  import opened Orders

  datatype OrderError = NoPendingOrder(userId: string, orderId: int)

  /** The row `cancelOrder`'s `WHERE userId = ? AND id = ? AND status = 'PENDING'` matches. */
  predicate Cancellable(rows: map<int, Order>, userId: string, orderId: int)
  {
    orderId in rows && rows[orderId].userId == userId && rows[orderId].status == Pending
  }

  /** `UPDATE orders SET status = ? WHERE id = ?`: that row only; an unknown id changes nothing. */
  function WithStatus(rows: map<int, Order>, orderId: int, status: Status): (r: map<int, Order>)
    ensures r.Keys == rows.Keys
    ensures orderId in rows ==> r[orderId] == rows[orderId].(status := status)
    ensures forall id :: id in rows && id != orderId ==> r[id] == rows[id]
  {
    if orderId in rows then rows[orderId := rows[orderId].(status := status)] else rows
  }

  class OrderStore {
    var rows: map<int, Order>

    constructor ()
      ensures rows == map[]
    {
      rows := map[];
    }

    /**
     * `getPendingOrders`: exactly the user's orders whose status is
     * PENDING (a partially filled order is not among them).
     */
    function GetPendingOrders(userId: string): (r: map<int, Order>)
      reads this
      ensures forall id :: id in r <==> id in rows && rows[id].userId == userId && rows[id].status == Pending
      ensures forall id :: id in r ==> r[id] == rows[id]
      ensures forall id :: id in r ==> Cancellable(rows, userId, id)
    {
      map id | id in rows && rows[id].userId == userId && rows[id].status == Pending :: rows[id]
    }

    /**
     * `cancelOrder`: succeeds exactly when the order exists, belongs to the
     * user and is PENDING, and then only its status becomes CANCELED;
     * otherwise it fails with "No pending order found" and changes
     * nothing. Either way the order is not cancellable afterwards.
     */
    method CancelOrder(userId: string, orderId: int) returns (r: Outcome<OrderError>)
      modifies this
      ensures r.Pass? <==> Cancellable(old(rows), userId, orderId)
      ensures r.Pass? ==> rows == WithStatus(old(rows), orderId, Canceled)
      ensures r.Fail? ==> r == Fail(NoPendingOrder(userId, orderId)) && rows == old(rows)
      ensures GetPendingOrders(userId) == old(GetPendingOrders(userId)) - {orderId}
      ensures !Cancellable(rows, userId, orderId)
    {
      if !Cancellable(rows, userId, orderId) {
        return Fail(NoPendingOrder(userId, orderId));
      }
      rows := WithStatus(rows, orderId, Canceled);
      return Pass;
    }

    /** `updateOrderStatus`: sets the status of that order. */
    method UpdateOrderStatus(orderId: int, status: Status)
      modifies this
      ensures rows == WithStatus(old(rows), orderId, status)
    {
      rows := WithStatus(rows, orderId, status);
    }
  }
}
