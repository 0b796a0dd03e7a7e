/**
 * Checkout pricing (`POST /api/orders`) and the order listings (`GET /api/orders/myorders`,
 * and the "newest first" order the admin listing shares). Prices are whole numbers of the
 * smallest currency unit, so a total is exact.
 */
module OrderRoutes {
  import opened Results
  import opened Http
  import opened UserModel
  import opened OrderModel

  /** A catalog entry: the authoritative name and price of a product. */
  datatype Product = Product(name: string, price: nat)

  type Catalog = map<ProductId, Product>

  /**
   * One entry of the checkout request's `cart`. A client may send a name and a price of
   * its own; pricing never reads them. The quantity is not checked by checkout.
   */
  datatype CartEntry = CartEntry(productId: ProductId, quantity: int, claimedName: Option<string>, claimedPrice: Option<int>)

  /** The answer to an empty or missing cart. */
  const NoItemsInCart := Message(400, "No items in cart")

  /** The answer to every exception the checkout handler catches. */
  const ServerError := ServerFault("Server Error")

  /** `cart.map(item => item.productId)`, as the set the catalog query asks for. */
  function ProductIds(cart: seq<CartEntry>): (ids: set<ProductId>)
    ensures forall i :: 0 <= i < |cart| ==> cart[i].productId in ids
    ensures forall id :: id in ids ==> exists i :: 0 <= i < |cart| && cart[i].productId == id
  {
    set i | 0 <= i < |cart| :: cart[i].productId
  }

  /** `Product.find({ _id: { $in: ids } })` keyed by id: the catalog restricted to `ids`. */
  function FindByIds(catalog: Catalog, ids: set<ProductId>): (found: Catalog)
    ensures found.Keys == catalog.Keys * ids
    ensures forall id :: id in found ==> found[id] == catalog[id]
  {
    map id | id in catalog && id in ids :: catalog[id]
  }

  /** Every entry names a product the catalog has. */
  predicate Listed(catalog: Catalog, cart: seq<CartEntry>) {
    forall i :: 0 <= i < |cart| ==> cart[i].productId in catalog
  }

  /** The line item for one entry: id and quantity from the client, name and price from the catalog. */
  function Snapshot(entry: CartEntry, p: Product): LineItem {
    LineItem(entry.productId, p.name, entry.quantity, p.price)
  }

  /** The priced line items of a cart, one per entry, in cart order. */
  function LineItems(catalog: Catalog, cart: seq<CartEntry>): (items: seq<LineItem>)
    requires Listed(catalog, cart)
    ensures |items| == |cart|
  {
    if cart == [] then []
    else
      var last := cart[|cart| - 1];
      LineItems(catalog, cart[..|cart| - 1]) + [Snapshot(last, catalog[last.productId])]
  }

  function Cost(li: LineItem): int {
    li.price * li.quantity
  }

  /** The sum of price times quantity over line items, accumulated in order. */
  function Total(items: seq<LineItem>): int {
    if items == [] then 0 else Total(items[..|items| - 1]) + Cost(items[|items| - 1])
  }

  /** The reference sum: catalog price times requested quantity over the cart entries. */
  function CartSum(catalog: Catalog, cart: seq<CartEntry>): int
    requires Listed(catalog, cart)
  {
    if cart == [] then 0
    else
      var last := cart[|cart| - 1];
      CartSum(catalog, cart[..|cart| - 1]) + catalog[last.productId].price * last.quantity
  }

  /** Line item `i` takes the id and quantity of entry `i` and the catalog's name and price. */
  lemma {:induction false} LineItemAt(catalog: Catalog, cart: seq<CartEntry>, i: nat)
    requires Listed(catalog, cart) && i < |cart|
    ensures LineItems(catalog, cart)[i] ==
            LineItem(cart[i].productId, catalog[cart[i].productId].name, cart[i].quantity, catalog[cart[i].productId].price)
  {
    if i < |cart| - 1 {
      LineItemAt(catalog, cart[..|cart| - 1], i);
    }
  }

  /** The total of the line items is the catalog-priced sum over the cart. */
  lemma {:induction false} TotalIsCartSum(catalog: Catalog, cart: seq<CartEntry>)
    requires Listed(catalog, cart)
    ensures Total(LineItems(catalog, cart)) == CartSum(catalog, cart)
  {
    if cart != [] {
      var prefix := cart[..|cart| - 1];
      var items := LineItems(catalog, cart);
      TotalIsCartSum(catalog, prefix);
      assert items[..|items| - 1] == LineItems(catalog, prefix);
    }
  }

  /** With no negative quantity in the cart, the total is not negative. */
  lemma {:induction false} TotalNonNegative(catalog: Catalog, cart: seq<CartEntry>)
    requires Listed(catalog, cart)
    requires forall i :: 0 <= i < |cart| ==> cart[i].quantity >= 0
    ensures CartSum(catalog, cart) >= 0
  {
    if cart != [] {
      TotalNonNegative(catalog, cart[..|cart| - 1]);
    }
  }

  /** Two carts that agree on ids and quantities price identically, whatever names and prices the client claims. */
  lemma {:induction false} ClaimsIgnoredInPricing(catalog: Catalog, c1: seq<CartEntry>, c2: seq<CartEntry>)
    requires |c1| == |c2|
    requires forall i :: 0 <= i < |c1| ==> c1[i].productId == c2[i].productId && c1[i].quantity == c2[i].quantity
    ensures Listed(catalog, c1) <==> Listed(catalog, c2)
    ensures Listed(catalog, c1) ==> LineItems(catalog, c1) == LineItems(catalog, c2) && CartSum(catalog, c1) == CartSum(catalog, c2)
  {
    if c1 != [] && Listed(catalog, c1) {
      ClaimsIgnoredInPricing(catalog, c1[..|c1| - 1], c2[..|c2| - 1]);
    }
  }

  /** One step of the pricing walk: entry `i` adds its snapshot to the line items and its cost to the total. */
  lemma PriceStep(catalog: Catalog, cart: seq<CartEntry>, i: nat)
    requires i < |cart| && Listed(catalog, cart[..i]) && cart[i].productId in catalog
    ensures Listed(catalog, cart[..i + 1])
    ensures LineItems(catalog, cart[..i + 1]) == LineItems(catalog, cart[..i]) + [Snapshot(cart[i], catalog[cart[i].productId])]
    ensures Total(LineItems(catalog, cart[..i + 1]))
            == Total(LineItems(catalog, cart[..i])) + catalog[cart[i].productId].price * cart[i].quantity
  {
    var next := cart[..i + 1];
    assert next[..i] == cart[..i] && next[i] == cart[i];
    var items := LineItems(catalog, next);
    assert items[..|items| - 1] == LineItems(catalog, cart[..i]);
  }

  /** An entry whose product is missing, after entries whose products exist, is the first missing one. */
  lemma FirstMissing(catalog: Catalog, cart: seq<CartEntry>, i: nat)
    requires i < |cart| && cart[i].productId !in catalog && Listed(catalog, cart[..i])
    ensures !Listed(catalog, cart)
    ensures exists k :: 0 <= k < |cart| && cart[k].productId == cart[i].productId && cart[i].productId !in catalog &&
                        forall j :: 0 <= j < k ==> cart[j].productId in catalog
  {
    forall j | 0 <= j < i ensures cart[j].productId in catalog {
      assert cart[..i][j] == cart[j];
    }
  }

  /** The priced cart: the line items and their total. */
  datatype Priced = Priced(items: seq<LineItem>, total: int)

  /**
   * Server-side price verification: look the cart's ids up in one catalog query, then walk
   * the cart in order, snapshotting each product and adding price times quantity to the
   * running total. The first entry whose product is missing aborts the walk; its id is the
   * failure.
   */
  method PriceCart(catalog: Catalog, cart: seq<CartEntry>) returns (r: Result<Priced, ProductId>)
    ensures r.Err? <==> !Listed(catalog, cart)
    ensures r.Err? ==> exists k :: 0 <= k < |cart| && cart[k].productId == r.error && r.error !in catalog &&
                                   forall j :: 0 <= j < k ==> cart[j].productId in catalog
    ensures r.Ok? ==> Listed(catalog, cart) && r.value.items == LineItems(catalog, cart) && r.value.total == Total(r.value.items)
  {
    var productMap := FindByIds(catalog, ProductIds(cart));
    var items: seq<LineItem> := [];
    var total := 0;
    var i := 0;
    while i < |cart|
      invariant 0 <= i <= |cart|
      invariant Listed(catalog, cart[..i])
      invariant items == LineItems(catalog, cart[..i])
      invariant total == Total(items)
    {
      var entry := cart[i];
      if entry.productId !in productMap {
        FirstMissing(catalog, cart, i);
        return Err(entry.productId);
      }
      var product := productMap[entry.productId];
      PriceStep(catalog, cart, i);
      total := total + product.price * entry.quantity;
      items := items + [Snapshot(entry, product)];
      i := i + 1;
    }
    assert cart[..i] == cart;
    r := Ok(Priced(items, total));
  }

  /** The products of every entry exist, and their ids and names pass the line-item schema. */
  predicate Orderable(catalog: Catalog, cart: seq<CartEntry>) {
    && Listed(catalog, cart)
    && forall i :: 0 <= i < |cart| ==> Present(cart[i].productId) && Present(catalog[cart[i].productId].name)
  }

  /**
   * The checkout decision: the order the handler saves, or the response it fails with.
   * A missing or empty cart is a 400; a missing product, or an order the schema rejects,
   * is an exception answered with a 500.
   */
  function PlaceOrder(
    catalog: Catalog, id: OrderId, createdAt: nat, caller: UserId, cart: Option<seq<CartEntry>>,
    address: ShippingAddress, deliveryNotes: Option<string>): (r: Result<Order, ApiError>)
    ensures cart.None? || cart == Some([]) ==> r == Err(NoItemsInCart)
    ensures cart.Some? && cart.value != [] && !Listed(catalog, cart.value) ==> r == Err(ServerError)
    ensures r.Ok? <==> cart.Some? && cart.value != [] && Orderable(catalog, cart.value) && ValidShippingAddress(address)
    ensures r.Err? ==> r.error == NoItemsInCart || r.error == ServerError
    ensures r.Ok? ==>
      && r.value.items == LineItems(catalog, cart.value)
      && r.value.total == CartSum(catalog, cart.value)
      && r.value.user == caller && r.value.status == Pending
      && r.value.address == address && r.value.deliveryNotes == deliveryNotes
      && r.value.id == id && r.value.createdAt == createdAt
      && ValidOrder(r.value)
  {
    if cart.None? || cart.value == [] then Err(NoItemsInCart)
    else if !Listed(catalog, cart.value) then Err(ServerError)
    else
      var items := LineItems(catalog, cart.value);
      var order := NewOrder(id, createdAt, caller, items, Some(Total(items)), address, deliveryNotes);
      TotalIsCartSum(catalog, cart.value);
      OrderableIffValid(catalog, cart.value, order);
      if ValidOrder(order) then Ok(order) else Err(ServerError)
  }

  /** An order built from a listed cart passes validation exactly when the cart is orderable and the address complete. */
  lemma OrderableIffValid(catalog: Catalog, cart: seq<CartEntry>, order: Order)
    requires Listed(catalog, cart) && order.items == LineItems(catalog, cart)
    ensures ValidOrder(order) <==> Orderable(catalog, cart) && ValidShippingAddress(order.address)
  {
    var items := order.items;
    forall i | 0 <= i < |cart|
      ensures items[i] == Snapshot(cart[i], catalog[cart[i].productId])
    {
      LineItemAt(catalog, cart, i);
    }
    if Orderable(catalog, cart) {
      forall li | li in items ensures ValidLineItem(li) {
        var i :| 0 <= i < |items| && items[i] == li;
      }
    }
    if ValidOrder(order) {
      forall i | 0 <= i < |cart|
        ensures Present(cart[i].productId) && Present(catalog[cart[i].productId].name)
      {
        assert items[i] in items;
      }
    }
  }

  /** Checkout ignores the names and prices a client puts in its cart. */
  lemma ClaimsIgnoredAtCheckout(
    catalog: Catalog, id: OrderId, createdAt: nat, caller: UserId, c1: seq<CartEntry>, c2: seq<CartEntry>,
    address: ShippingAddress, deliveryNotes: Option<string>)
    requires |c1| == |c2|
    requires forall i :: 0 <= i < |c1| ==> c1[i].productId == c2[i].productId && c1[i].quantity == c2[i].quantity
    ensures PlaceOrder(catalog, id, createdAt, caller, Some(c1), address, deliveryNotes)
         == PlaceOrder(catalog, id, createdAt, caller, Some(c2), address, deliveryNotes)
  {
    ClaimsIgnoredInPricing(catalog, c1, c2);
  }

  /** An example: two loaves at 950 make one line item and a total of 1900. */
  lemma CheckoutExample(address: ShippingAddress)
    requires ValidShippingAddress(address)
    ensures
      var catalog := map["p1" := Product("Sourdough", 950)];
      var cart := [CartEntry("p1", 2, Some("Sourdough"), Some(1))];
      PlaceOrder(catalog, 0, 0, 7, Some(cart), address, None)
        == Ok(Order(0, 7, [LineItem("p1", "Sourdough", 2, 950)], 1900, Pending, address, None, 0))
  {
    var catalog := map["p1" := Product("Sourdough", 950)];
    var cart := [CartEntry("p1", 2, Some("Sourdough"), Some(1))];
    var items := [LineItem("p1", "Sourdough", 2, 950)];
    assert Listed(catalog, cart);
    assert cart[..0] == [];
    assert LineItems(catalog, cart) == items;
    assert items[..0] == [];
    assert Total(items) == 1900;
    var order := NewOrder(0, 0, 7, items, Some(1900), address, None);
    assert ValidOrder(order);
  }

  // ---- Listings ----

  /** Creation times strictly increase along the sequence. */
  predicate OldestFirst(orders: seq<Order>) {
    forall i, j :: 0 <= i < j < |orders| ==> orders[i].createdAt < orders[j].createdAt
  }

  /** Saving an order created after every stored one keeps the store in creation order. */
  lemma AppendOldestFirst(orders: seq<Order>, order: Order)
    requires OldestFirst(orders)
    requires forall i :: 0 <= i < |orders| ==> orders[i].createdAt < order.createdAt
    ensures OldestFirst(orders + [order])
  {
    var all := orders + [order];
    forall i, j | 0 <= i < j < |all| ensures all[i].createdAt < all[j].createdAt {
      assert all[i] == orders[i];
      if j < |orders| {
        assert all[j] == orders[j];
      }
    }
  }

  /** Creation times strictly decrease along the sequence. */
  predicate NewestFirstOrder(orders: seq<Order>) {
    forall i, j :: 0 <= i < j < |orders| ==> orders[i].createdAt > orders[j].createdAt
  }

  /** `Order.find({ user })`: the orders a user owns, in stored order. */
  function OrdersOf(orders: seq<Order>, user: UserId): (mine: seq<Order>)
    ensures forall o :: o in mine <==> o in orders && o.user == user
  {
    if orders == [] then []
    else
      assert orders == [orders[0]] + orders[1..];
      if orders[0].user == user then [orders[0]] + OrdersOf(orders[1..], user) else OrdersOf(orders[1..], user)
  }

  /** `.sort({ createdAt: -1 })` over orders kept oldest first: the reversal. */
  function NewestFirst(orders: seq<Order>): (r: seq<Order>)
    ensures |r| == |orders|
    ensures forall i :: 0 <= i < |r| ==> r[i] == orders[|orders| - 1 - i]
    ensures forall o :: o in r <==> o in orders
    ensures OldestFirst(orders) ==> NewestFirstOrder(r)
  {
    var r := seq(|orders|, i requires 0 <= i < |orders| => orders[|orders| - 1 - i]);
    ReversalSorted(orders, r);
    r
  }

  /** A reversal keeps exactly the same orders and turns oldest-first into newest-first. */
  lemma ReversalSorted(orders: seq<Order>, r: seq<Order>)
    requires |r| == |orders| && forall i :: 0 <= i < |r| ==> r[i] == orders[|orders| - 1 - i]
    ensures forall o :: o in r <==> o in orders
    ensures OldestFirst(orders) ==> NewestFirstOrder(r)
  {
    forall o | o in orders ensures o in r {
      var j :| 0 <= j < |orders| && orders[j] == o;
      assert r[|orders| - 1 - j] == o;
    }
  }

  /** Dropping the oldest order keeps the rest in creation order. */
  lemma DropOldestFirst(orders: seq<Order>)
    requires orders != [] && OldestFirst(orders)
    ensures OldestFirst(orders[1..])
    ensures forall o :: o in orders[1..] ==> orders[0].createdAt < o.createdAt
  {
    var rest := orders[1..];
    forall i, j | 0 <= i < j < |rest| ensures rest[i].createdAt < rest[j].createdAt {
      assert rest[i] == orders[i + 1] && rest[j] == orders[j + 1];
    }
    forall o | o in rest ensures orders[0].createdAt < o.createdAt {
      var k :| 0 <= k < |rest| && rest[k] == o;
      assert orders[k + 1] == o;
    }
  }

  /** An order older than every order of a sequence in creation order can go in front of it. */
  lemma PrependOldestFirst(first: Order, orders: seq<Order>)
    requires OldestFirst(orders)
    requires forall o :: o in orders ==> first.createdAt < o.createdAt
    ensures OldestFirst([first] + orders)
  {
    var all := [first] + orders;
    forall i, j | 0 <= i < j < |all| ensures all[i].createdAt < all[j].createdAt {
      assert all[j] == orders[j - 1];
      if i > 0 {
        assert all[i] == orders[i - 1];
      } else {
        assert orders[j - 1] in orders;
      }
    }
  }

  /** Filtering keeps the creation order. */
  lemma {:induction false} OrdersOfOldestFirst(orders: seq<Order>, user: UserId)
    requires OldestFirst(orders)
    ensures OldestFirst(OrdersOf(orders, user))
  {
    if orders != [] {
      DropOldestFirst(orders);
      OrdersOfOldestFirst(orders[1..], user);
      if orders[0].user == user {
        PrependOldestFirst(orders[0], OrdersOf(orders[1..], user));
      }
    }
  }

  /**
   * `GET /myorders`: the caller's orders, newest first. Over orders kept in creation order
   * the listing holds exactly the caller's orders, sorted by creation time, newest first.
   */
  function MyOrders(orders: seq<Order>, user: UserId): (r: seq<Order>)
    ensures OldestFirst(orders) ==> forall o :: o in r <==> o in orders && o.user == user
    ensures OldestFirst(orders) ==> NewestFirstOrder(r)
  {
    if OldestFirst(orders) then
      OrdersOfOldestFirst(orders, user);
      NewestFirst(OrdersOf(orders, user))
    else
      NewestFirst(OrdersOf(orders, user))
  }

  /** A negative quantity lowers a checkout total: one loaf at 950 and minus one at 950 cost nothing. */
  lemma NegativeQuantityLowersTotal(address: ShippingAddress)
    requires ValidShippingAddress(address)
    ensures
      var catalog := map["p1" := Product("Sourdough", 950)];
      var cart := [CartEntry("p1", 1, None, None), CartEntry("p1", -1, None, None)];
      && PlaceOrder(catalog, 0, 0, 7, Some(cart), address, None).Ok?
      && PlaceOrder(catalog, 0, 0, 7, Some(cart), address, None).value.total == 0
  {
    var catalog := map["p1" := Product("Sourdough", 950)];
    var cart := [CartEntry("p1", 1, None, None), CartEntry("p1", -1, None, None)];
    assert cart[..1][..0] == [] && cart[..1] == [cart[0]];
    assert CartSum(catalog, cart) == 0;
  }

  /** Pricing's result fixes the checkout outcome: the order built from its items and total, if it validates. */
  lemma PlaceOrderOfPriced(
    catalog: Catalog, id: OrderId, createdAt: nat, caller: UserId, cart: seq<CartEntry>,
    address: ShippingAddress, deliveryNotes: Option<string>, priced: Priced, order: Order)
    requires cart != [] && Listed(catalog, cart)
    requires priced.items == LineItems(catalog, cart) && priced.total == Total(priced.items)
    requires order == NewOrder(id, createdAt, caller, priced.items, Some(priced.total), address, deliveryNotes)
    ensures ValidOrder(order) ==> PlaceOrder(catalog, id, createdAt, caller, Some(cart), address, deliveryNotes) == Ok(order)
    ensures !ValidOrder(order) ==> PlaceOrder(catalog, id, createdAt, caller, Some(cart), address, deliveryNotes) == Err(ServerError)
  {
  }
}
