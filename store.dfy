/**
 * The in-memory store the handlers work on: users, orders and the read-only catalog,
 * with a journal of document saves in the order they happen. Each handler that writes
 * is a method of the store, proved against the decision function of its route.
 */
module Store {
  import opened Results
  import opened Http
  import opened UserModel
  import opened OrderModel
  import Bcrypt
  import OrderRoutes
  import AdminRoutes
  import AuthRoutes
  import UserRoutes

  /** One `save()` of a document, as the store sees it. */
  datatype Write = OrderSaved(order: OrderId) | UserSaved(user: UserId)

  class Shop {
    const env: AuthRoutes.Env
    const catalog: OrderRoutes.Catalog
    /** Users by id: `users[i].id == i`. */
    var users: seq<User>
    /** Orders by id, in creation order: `orders[i].id == i`. */
    var orders: seq<Order>
    /** The next creation time to hand out. */
    var clock: nat
    var journal: seq<Write>

    /** Every stored document passed its schema; emails are unique; creation times increase. */
    ghost predicate Valid()
      reads this
    {
      && (forall i :: 0 <= i < |users| ==> users[i].id == i && ValidUser(users[i]))
      && UniqueEmails(users)
      && (forall i :: 0 <= i < |orders| ==>
            orders[i].id == i && ValidOrder(orders[i]) && orders[i].user < |users| && orders[i].createdAt < clock)
      && OrderRoutes.OldestFirst(orders)
    }

    constructor (env: AuthRoutes.Env, catalog: OrderRoutes.Catalog)
      ensures Valid()
      ensures this.env == env && this.catalog == catalog
      ensures users == [] && orders == [] && clock == 0 && journal == []
    {
      this.env := env;
      this.catalog := catalog;
      users, orders, clock, journal := [], [], 0, [];
    }

    /**
     * `POST /api/orders` by the authenticated `caller`: price the cart against the catalog,
     * save the order, then clear the caller's stored cart. On any failure nothing is written.
     */
    method Checkout(caller: UserId, cart: Option<seq<OrderRoutes.CartEntry>>, address: ShippingAddress, deliveryNotes: Option<string>)
      returns (r: Result<Order, ApiError>)
      requires Valid() && caller < |users|
      modifies this
      ensures Valid()
      ensures r == OrderRoutes.PlaceOrder(catalog, |old(orders)|, old(clock), caller, cart, address, deliveryNotes)
      ensures r.Ok? ==>
        && orders == old(orders) + [r.value]
        && users == old(users)[caller := old(users)[caller].(cart := [])]
        && journal == old(journal) + [OrderSaved(r.value.id), UserSaved(caller)]
        && clock == old(clock) + 1
      ensures r.Err? ==> orders == old(orders) && users == old(users) && journal == old(journal) && clock == old(clock)
    {
      if cart.None? || cart.value == [] {
        return Err(OrderRoutes.NoItemsInCart);
      }
      var priced := OrderRoutes.PriceCart(catalog, cart.value);
      if priced.Err? {
        return Err(OrderRoutes.ServerError);
      }
      var order := NewOrder(|orders|, clock, caller, priced.value.items, Some(priced.value.total), address, deliveryNotes);
      OrderRoutes.PlaceOrderOfPriced(catalog, |orders|, clock, caller, cart.value, address, deliveryNotes, priced.value, order);
      if !ValidOrder(order) {
        return Err(OrderRoutes.ServerError);
      }
      CommitOrder(order);
      r := Ok(order);
    }

    /** The writes of a successful checkout: `order.save()`, then the caller's cart emptied and saved. */
    method CommitOrder(order: Order)
      requires Valid() && order.user < |users|
      requires ValidOrder(order) && order.id == |orders| && order.createdAt == clock
      modifies this
      ensures Valid()
      ensures orders == old(orders) + [order]
      ensures users == old(users)[order.user := old(users)[order.user].(cart := [])]
      ensures journal == old(journal) + [OrderSaved(order.id), UserSaved(order.user)]
      ensures clock == old(clock) + 1
    {
      OrderRoutes.AppendOldestFirst(orders, order);
      // order.save()
      orders := orders + [order];
      clock := clock + 1;
      journal := journal + [OrderSaved(order.id)];
      // user.cart = []; user.save()
      var user := users[order.user];
      var saved := PreSave(env.digest, user.(cart := []), false, "");
      assert saved == user.(cart := []);
      users := users[order.user := saved];
      journal := journal + [UserSaved(order.user)];
      assert forall i :: 0 <= i < |users| ==> users[i].email == old(users)[i].email;
      assert forall i :: 0 <= i < |orders| - 1 ==> orders[i] == old(orders)[i];
    }

    /** `GET /api/orders/myorders`: exactly the caller's orders, newest first. */
    method MyOrders(caller: UserId) returns (r: seq<Order>)
      requires Valid() && caller < |users|
      ensures forall o :: o in r <==> o in orders && o.user == caller
      ensures OrderRoutes.NewestFirstOrder(r)
      ensures r == OrderRoutes.MyOrders(orders, caller)
    {
      r := OrderRoutes.MyOrders(orders, caller);
    }

    /** `GET /api/admin/orders` by an administrator: every order, newest first. */
    method AllOrders(caller: UserId) returns (r: seq<Order>)
      requires Valid() && caller < |users| && users[caller].isAdmin
      ensures forall o :: o in r <==> o in orders
      ensures |r| == |orders|
      ensures OrderRoutes.NewestFirstOrder(r)
    {
      r := OrderRoutes.NewestFirst(orders);
    }

    /**
     * `PUT /api/admin/orders/:id/status` by an administrator. The status literal is checked
     * before the order is looked up; only that order's status changes.
     */
    method SetStatus(caller: UserId, id: OrderId, status: string) returns (r: Result<Order, ApiError>)
      requires Valid() && caller < |users| && users[caller].isAdmin
      modifies this
      ensures Valid()
      ensures users == old(users) && clock == old(clock)
      ensures AdminRoutes.ParseStatus(status).None? ==>
                r == Err(AdminRoutes.InvalidStatus) && orders == old(orders) && journal == old(journal)
      ensures AdminRoutes.ParseStatus(status).Some? && id >= |old(orders)| ==>
                r == Err(AdminRoutes.OrderNotFound) && orders == old(orders) && journal == old(journal)
      ensures AdminRoutes.ParseStatus(status).Some? && id < |old(orders)| ==>
                && orders == AdminRoutes.WithStatus(old(orders), id, AdminRoutes.ParseStatus(status).value)
                && r == Ok(orders[id])
                && journal == old(journal) + [OrderSaved(id)]
    {
      var parsed := AdminRoutes.ParseStatus(status);
      if parsed.None? {
        return Err(AdminRoutes.InvalidStatus);
      }
      if id >= |orders| {
        return Err(AdminRoutes.OrderNotFound);
      }
      var order := orders[id].(status := parsed.value);
      orders := orders[id := order];
      journal := journal + [OrderSaved(id)];
      r := Ok(order);
    }

    /**
     * `POST /api/auth/register`: on success exactly one user is added, the new user, with
     * the password hashed under `salt` (the value `genSalt` would produce).
     */
    method Register(name: string, email: string, password: string, salt: string)
      returns (r: Result<AuthRoutes.AuthResponse, ApiError>)
      requires Valid() && |salt| == Bcrypt.SaltLength
      modifies this
      ensures Valid()
      ensures orders == old(orders) && clock == old(clock)
      ensures var d := AuthRoutes.Register(env, old(users), name, email, password, salt);
              && (d.Ok? ==> users == old(users) + [d.value] && journal == old(journal) + [UserSaved(d.value.id)]
                            && r == Ok(AuthRoutes.ResponseFor(env, d.value)))
              && (d.Err? ==> users == old(users) && journal == old(journal) && r == Err(d.error))
    {
      var d := AuthRoutes.Register(env, users, name, email, password, salt);
      if d.Err? {
        return Err(d.error);
      }
      AuthRoutes.RegisterKeepsEmailsUnique(env, users, name, email, password, salt);
      users := users + [d.value];
      journal := journal + [UserSaved(d.value.id)];
      r := Ok(AuthRoutes.ResponseFor(env, d.value));
    }

    /** `GET /api/user/cart`: the caller's stored cart. */
    method GetCart(caller: UserId) returns (cart: seq<CartItem>)
      requires Valid() && caller < |users|
      ensures cart == users[caller].cart
      ensures forall i :: 0 <= i < |cart| ==> ValidCartItem(cart[i])
    {
      cart := users[caller].cart;
      assert forall i :: 0 <= i < |cart| ==> cart[i] in users[caller].cart;
    }

    /** `PUT /api/user/cart`: the caller's cart becomes the submitted one; nothing else changes. */
    method UpdateCart(caller: UserId, cart: seq<CartItem>) returns (r: Result<seq<CartItem>, ApiError>)
      requires Valid() && caller < |users|
      modifies this
      ensures Valid()
      ensures orders == old(orders) && clock == old(clock)
      ensures r.Ok? <==> forall i :: 0 <= i < |cart| ==> ValidCartItem(cart[i])
      ensures r.Ok? ==> r.value == cart && users == old(users)[caller := old(users)[caller].(cart := cart)]
                        && journal == old(journal) + [UserSaved(caller)]
      ensures r.Err? ==> r == Err(UserRoutes.ServerError) && users == old(users) && journal == old(journal)
    {
      var saved := UserRoutes.ReplaceCart(env.digest, users[caller], cart);
      if saved.Err? {
        return Err(saved.error);
      }
      users := users[caller := saved.value];
      journal := journal + [UserSaved(caller)];
      r := Ok(saved.value.cart);
    }

    /** `PUT /api/user/addresses`: the caller's addresses become the submitted list, cast; nothing else changes. */
    method UpdateAddresses(caller: UserId, addresses: seq<AddressInput>) returns (r: Result<seq<Address>, ApiError>)
      requires Valid() && caller < |users|
      modifies this
      ensures Valid()
      ensures orders == old(orders) && clock == old(clock)
      ensures r.Ok? <==> forall i :: 0 <= i < |addresses| ==> ValidAddress(CastAddress(addresses[i]))
      ensures r.Ok? ==> r.value == CastAddresses(addresses)
                        && users == old(users)[caller := old(users)[caller].(addresses := CastAddresses(addresses))]
                        && journal == old(journal) + [UserSaved(caller)]
      ensures r.Err? ==> r == Err(UserRoutes.ServerError) && users == old(users) && journal == old(journal)
    {
      var saved := UserRoutes.ReplaceAddresses(env.digest, users[caller], addresses);
      if saved.Err? {
        return Err(saved.error);
      }
      users := users[caller := saved.value];
      journal := journal + [UserSaved(caller)];
      r := Ok(saved.value.addresses);
    }
  }
}
