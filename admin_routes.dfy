/** The status update (`PUT /api/admin/orders/:id/status`) and its request check. */
module AdminRoutes {
  import opened Results
  import opened Http
  import opened OrderModel

  /** The request's status must be one of these literals. */
  const ValidStatuses: seq<string> := ["Pending", "Preparing", "Out for Delivery", "Delivered"]

  const InvalidStatus := Message(400, "Invalid status")
  const OrderNotFound := Message(404, "Order not found")

  /** `validStatuses.includes(status)`, read as the status it names. */
  function ParseStatus(name: string): (r: Option<Status>)
    ensures r.Some? <==> name in ValidStatuses
    ensures r.Some? ==> StatusName(r.value) == name
  {
    if name == "Pending" then Some(Pending)
    else if name == "Preparing" then Some(Preparing)
    else if name == "Out for Delivery" then Some(OutForDelivery)
    else if name == "Delivered" then Some(Delivered)
    else None
  }

  /** Every status of the order schema is accepted by its own name. */
  lemma ParseStatusName(s: Status)
    ensures ParseStatus(StatusName(s)) == Some(s)
  {
  }

  /** `order.status = status`: the order at `id` gets the new status and nothing else changes. */
  function WithStatus(orders: seq<Order>, id: OrderId, status: Status): (r: seq<Order>)
    requires id < |orders|
    ensures |r| == |orders|
    ensures r[id].status == status
    ensures r[id].(status := orders[id].status) == orders[id]
    ensures forall j :: 0 <= j < |orders| && j != id ==> r[j] == orders[j]
  {
    orders[id := orders[id].(status := status)]
  }

  /** Setting the same status twice is the same as setting it once. */
  lemma WithStatusIdempotent(orders: seq<Order>, id: OrderId, status: Status)
    requires id < |orders|
    ensures WithStatus(WithStatus(orders, id, status), id, status) == WithStatus(orders, id, status)
  {
  }

  /** There is no forward-only rule: from whatever status the order has, any status can be set, and setting one after another keeps the last. */
  lemma AnyStatusFromAny(orders: seq<Order>, id: OrderId, first: Status, second: Status)
    requires id < |orders|
    ensures WithStatus(WithStatus(orders, id, first), id, second) == WithStatus(orders, id, second)
  {
  }
}
