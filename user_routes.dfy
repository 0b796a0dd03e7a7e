/** The profile routes: `GET /api/user/cart`, `PUT /api/user/cart` and `PUT /api/user/addresses`. */
module UserRoutes {
  import opened Results
  import opened Http
  import opened UserModel
  import Bcrypt

  /** The answer when `save` rejects the document. */
  const ServerError := ServerFault("Server Error")

  /** `user.cart = cart; user.save()`: the cart is replaced wholesale, if the document still validates. */
  function ReplaceCart(digest: Bcrypt.Digest, u: User, cart: seq<CartItem>): (r: Result<User, ApiError>)
    ensures r.Ok? <==> ValidUser(u.(cart := cart))
    ensures ValidUser(u) ==> (r.Ok? <==> forall i :: 0 <= i < |cart| ==> ValidCartItem(cart[i]))
    ensures r.Ok? ==> r.value.cart == cart && r.value.(cart := u.cart) == u
    ensures r.Err? ==> r.error == ServerError
  {
    var doc := u.(cart := cart);
    if ValidUser(doc) then Ok(PreSave(digest, doc, false, "")) else Err(ServerError)
  }

  /** `user.addresses = addresses; user.save()`: the list is cast and replaced wholesale, if it validates. */
  function ReplaceAddresses(digest: Bcrypt.Digest, u: User, addresses: seq<AddressInput>): (r: Result<User, ApiError>)
    ensures r.Ok? <==> ValidUser(u.(addresses := CastAddresses(addresses)))
    ensures ValidUser(u) ==> (r.Ok? <==> forall i :: 0 <= i < |addresses| ==> ValidAddress(CastAddress(addresses[i])))
    ensures r.Ok? ==> r.value.addresses == CastAddresses(addresses) && r.value.(addresses := u.addresses) == u
    ensures r.Err? ==> r.error == ServerError
  {
    var doc := u.(addresses := CastAddresses(addresses));
    if ValidUser(doc) then Ok(PreSave(digest, doc, false, "")) else Err(ServerError)
  }
}
