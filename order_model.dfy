/**
 * The order document: line-item snapshots, the total, the four-value status enum with
 * its default, the delivery address and the optional delivery notes.
 */
module OrderModel {
  import opened Results
  import opened UserModel

  type OrderId = nat

  /** The `status` enum; a value outside it cannot be represented. */
  datatype Status = Pending | Preparing | OutForDelivery | Delivered

  /** The string each status is stored and sent as. */
  function StatusName(s: Status): string {
    match s
    case Pending => "Pending"
    case Preparing => "Preparing"
    case OutForDelivery => "Out for Delivery"
    case Delivered => "Delivered"
  }

  /** A purchased product as it was at order time. */
  datatype LineItem = LineItem(productId: ProductId, name: string, quantity: int, price: int)

  /** `productId` and `name` are required strings; `quantity` and `price` are required numbers. */
  predicate ValidLineItem(li: LineItem) {
    Present(li.productId) && Present(li.name)
  }

  /** The delivery address, copied into the order by value. */
  datatype ShippingAddress = ShippingAddress(street: string, city: string, state: string, zip: string)

  predicate ValidShippingAddress(a: ShippingAddress) {
    Present(a.street) && Present(a.city) && Present(a.state) && Present(a.zip)
  }

  /** `createdAt` is the document's creation time, modelled as a logical clock reading. */
  datatype Order = Order(
    id: OrderId,
    user: UserId,
    items: seq<LineItem>,
    total: int,
    status: Status,
    address: ShippingAddress,
    deliveryNotes: Option<string>,
    createdAt: nat)

  /** What `save` validates: every line item and the four address fields. */
  predicate ValidOrder(o: Order) {
    (forall li :: li in o.items ==> ValidLineItem(li)) && ValidShippingAddress(o.address)
  }

  /** `new Order({...})`: a new order is `Pending`, and `total` is 0 when it is not given. */
  function NewOrder(
    id: OrderId, createdAt: nat, user: UserId, items: seq<LineItem>, total: Option<int>,
    address: ShippingAddress, deliveryNotes: Option<string>): (o: Order)
    ensures o.status == Pending
    ensures total.None? ==> o.total == 0
    ensures total.Some? ==> o.total == total.value
    ensures o.id == id && o.createdAt == createdAt && o.user == user && o.items == items
    ensures o.address == address && o.deliveryNotes == deliveryNotes
  {
    Order(id, user, items, total.GetOr(0), Pending, address, deliveryNotes, createdAt)
  }
}
