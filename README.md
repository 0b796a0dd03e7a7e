# Checkout, order status and accounts of a storefront backend, in Dafny

This project models the core of a small order-taking backend (an Express and Mongoose
service for a bakery storefront) over an in-memory store of users, orders and a read-only
catalog that maps a product id to its name and price:

- **Checkout** (`POST /api/orders`): a client cart of `{productId, quantity}` becomes
  priced line items. Name and price are always taken from the catalog. The total is the
  sum of price × quantity in cart order. Any missing product aborts the whole operation.
  On success the order is saved first, then the caller's stored cart is cleared.
- **Order listings**: the caller's own orders, and every order for an administrator, both
  newest first.
- **Order status update** by an administrator. The status is one of four values and the
  order schema's default is `Pending`. A status literal is checked before the order is
  looked up. Any valid status can be set from any current status, and only `status` changes.
- **Register and login**: the validators, the duplicate-email check, and hashing the
  password before it is stored (bcrypt: the salt is kept in front of the digest). At login
  a wrong password and an unknown email get the same 401; a password that is not a string
  gets a 500 for a known email and a 401 for an unknown one. Tokens are bound to the user id and last 30 days.
- **Profile updates**: the stored cart and the saved addresses are each replaced wholesale,
  subject to the schema's constraints.

Files: `results.dfy` (Option, Result), `http.dfy` (error responses), `bcrypt.dfy`,
`jwt.dfy`, `user_model.dfy` and `order_model.dfy` (the two schemas),
`order_routes.dfy`, `admin_routes.dfy`, `auth_routes.dfy` and `user_routes.dfy` (the
decision function of each handler, with its lemmas), and `store.dfy` (class `Shop`, the
store; each handler that writes is a method proved against its route's decision function).

Modelling conventions:
- Prices are whole numbers of the smallest currency unit (`nat`), so totals are exact.
- Mongoose's `required` on a String path rejects both a missing value and `""`, so a
  missing string is written as `""`.
- User and order ids are positions in the store's sequences. Product ids are strings.
- `createdAt` is a logical clock that increases with every order created.
- Every `save()` is recorded in the store's `journal`, so the order of the two checkout
  writes is part of the state.
- bcrypt's digest, the JWT secret and `isEmail` are parameters (`AuthRoutes.Env`).
- The random salt is an argument of registration.
- The `protect` guard and the `admin` guard are preconditions: an existing caller id, and
  that caller's `isAdmin` flag.

Behaviour of the code worth noting:
- A product missing from the catalog is a thrown `Error`, caught and answered with
  500 "Server Error", not a dedicated not-found response.
- An incomplete delivery address fails the order's schema validation at `save()`. That is
  also a 500.
- Checkout does not check quantities. A zero or negative quantity is priced as sent, so a
  total can be negative. `OrderRoutes.TotalNonNegative` gives the condition under which it
  is not, and `OrderRoutes.NegativeQuantityLowersTotal` shows a cart whose negative entry
  cancels a positive one.
- Status changes are not restricted to forward moves.
- A login password sent as `null` or a number passes `exists()`. For a registered email,
  bcrypt's `compare` then rejects it and the handler answers 500; for an unknown email the
  answer is the 401. So such a request reveals whether an email is registered
  (`AuthRoutes.NotTextRevealsEmail`).
- Every save the store makes after registration goes through the guarded hook
  `UserModel.PreSave`, with the password unmodified: the cart cleared at checkout, and the
  cart and address updates. The store therefore models the intended hook, and the hook as
  written (`UserModel.PreSaveAsWritten`) appears only in the Findings row below.

## Model

| member | source | states |
|---|---|---|
| `Bcrypt.Hash` | models/User.js:61-62 | a stored hash begins with the salt it was made with |
| `Bcrypt.CompareHash` | models/User.js:52-54 | a raw password always matches its own hash, for every salt |
| `Bcrypt.CompareIsHashOf` | models/User.js:52-54 | `compare(raw, stored)` holds exactly when `stored` is the hash of `raw` under some salt |
| `Jwt.GenerateToken` | routes/authRoutes.js:10-14 | the token carries the user id, checks against the server secret, and expires after 30 days |
| `Jwt.GenerateTokenInjective` | routes/authRoutes.js:10-14 | different users get different tokens |
| `UserModel.CastAddress` | models/User.js:5-11 | a cast address keeps the four fields submitted, and `default` is true only when it was sent as true |
| `UserModel.CastAddresses` | models/User.js:43 | the cast list has the submitted length and casts each address in place |
| `UserModel.NewUser` | models/User.js:38-44 | a new user is an administrator only when that is set explicitly, and starts with no addresses and an empty cart |
| `UserModel.MatchPassword` | models/User.js:52-54 | the entered password matches exactly when the stored password is its hash under some salt |
| `UserModel.PreSave` | models/User.js:57-63 | saving changes nothing but the password; a modified password is replaced by a hash that the raw password matches; an unmodified one is kept |
| `UserModel.PreSaveAsWritten` | models/User.js:57-63 | the hook as written replaces the password by a hash of whatever is stored, modified or not, and changes nothing else |
| `UserModel.PreSaveAsWrittenLosesPassword` | models/User.js:57-63 | with the hook as written, a second save without a password change leaves a password field that the registered password no longer matches; with the guard, it still matches |
| `OrderModel.NewOrder` | models/Order.js:18-28 | a new order is `Pending`, its total is 0 when none is given, and its other fields are those given |
| `OrderRoutes.ProductIds` | routes/orderRoutes.js:22 | the queried ids are exactly the cart's product ids |
| `OrderRoutes.FindByIds` | routes/orderRoutes.js:25-31 | the product map holds exactly the catalog entries whose ids were asked for |
| `OrderRoutes.LineItems` | routes/orderRoutes.js:34-49 | there is one line item per cart entry |
| `OrderRoutes.LineItemAt` | routes/orderRoutes.js:34-48 | line item i has the productId and quantity of cart entry i and the catalog's name and price |
| `OrderRoutes.TotalIsCartSum` | routes/orderRoutes.js:33-41 | the total of the line items equals the sum over the cart of catalog price × quantity |
| `OrderRoutes.TotalNonNegative` | routes/orderRoutes.js:40-41 | with no negative quantity the total is not negative |
| `OrderRoutes.ClaimsIgnoredInPricing` | routes/orderRoutes.js:43-48 | carts that agree on ids and quantities give the same line items and total, whatever name and price a client puts in them |
| `OrderRoutes.PriceCart` | routes/orderRoutes.js:22-49 | fails exactly when some product is missing, with the first missing id; otherwise returns the line items and a total that is their sum |
| `OrderRoutes.NegativeQuantityLowersTotal` | routes/orderRoutes.js:40-41 | an entry with quantity -1 is priced as sent: one and minus one of a product give an accepted order with total 0 |
| `OrderRoutes.PlaceOrderOfPriced` | routes/orderRoutes.js:50-58 | once the cart is priced, checkout saves exactly the order built from those items and that total, or fails with a 500 when it does not validate |
| `OrderRoutes.PlaceOrder` | routes/orderRoutes.js:13-58 | a missing or empty cart is a 400 "No items in cart"; a missing product is a 500; success exactly when all products exist and the order validates; the order carries the caller, the priced items, the catalog-priced total, status `Pending`, and the address and notes as sent |
| `OrderRoutes.OrderableIffValid` | models/Order.js:10-34 | a priced order passes its schema exactly when every product id and catalog name is present and the address is complete |
| `OrderRoutes.ClaimsIgnoredAtCheckout` | routes/orderRoutes.js:43-48 | checkout's whole outcome does not depend on client-sent names or prices |
| `OrderRoutes.CheckoutExample` | routes/orderRoutes.js:33-58 | two of a product at 950 (the client claiming a price of 1) make one line item at 950 and a total of 1900 |
| `OrderRoutes.OrdersOf` | routes/orderRoutes.js:80 | the filter keeps exactly the orders owned by the user |
| `OrderRoutes.OrdersOfOldestFirst` | routes/orderRoutes.js:80 | filtering keeps the creation order |
| `OrderRoutes.NewestFirst` | routes/orderRoutes.js:80 | `.sort({ createdAt: -1 })` over orders kept in creation order: the listing has exactly the same orders, sorted by `createdAt` descending, position i holding the order i places from the end; the admin listing (routes/adminRoutes.js:12-14) uses the same sort |
| `OrderRoutes.MyOrders` | routes/orderRoutes.js:78-81 | over orders stored in creation order, the caller's listing holds exactly the caller's orders, sorted by `createdAt` descending |
| `AdminRoutes.ParseStatus` | routes/adminRoutes.js:29-32 | a literal is accepted exactly when it is one of the four valid statuses, and it names the status it yields |
| `AdminRoutes.ParseStatusName` | models/Order.js:23-28 | every status of the order schema is accepted under its own name |
| `AdminRoutes.WithStatus` | routes/adminRoutes.js:37-39 | the order gets the new status, its other fields stay, and every other order stays the same |
| `AdminRoutes.WithStatusIdempotent` | routes/adminRoutes.js:38-39 | setting the same status twice gives the same state as setting it once |
| `AdminRoutes.AnyStatusFromAny` | routes/adminRoutes.js:38 | there is no transition rule: the last status set wins, whatever came before |
| `AuthRoutes.ResponseFor` | routes/authRoutes.js:48-60 | the response's token is bound to that user's id, for 30 days |
| `AuthRoutes.RegistrationErrors` | routes/authRoutes.js:22-32 | each validator reports exactly when its check fails (empty name, invalid email, password under 6); no other message appears, each at most once, in the validators' order; no error exactly when all three pass |
| `AuthRoutes.LoginErrors` | routes/authRoutes.js:74-81 | login's validators report an invalid email and a password that was not sent (a `null` or a number passes `exists()`), each exactly when it happens, at most once each, in that order, and nothing else |
| `AuthRoutes.FindByEmail` | routes/authRoutes.js:37 | finds the first user with the email, and none exactly when no user has it |
| `AuthRoutes.FindByEmailUnique` | models/User.js:29-33 | with unique emails the user found is the one that has the email |
| `AuthRoutes.Register` | routes/authRoutes.js:28-60 | validation errors give a 400 with their messages; an existing email gives 400 "User already exists"; an empty email that the email check lets through fails `User.create`'s validation, a 500; otherwise the new user has the next id, the given name and email, `isAdmin` false, no addresses, an empty cart, and a hashed password that the raw one matches |
| `AuthRoutes.RegisterKeepsEmailsUnique` | routes/authRoutes.js:37-46 | registration keeps emails unique |
| `AuthRoutes.Login` | routes/authRoutes.js:77-107 | validation errors give a 400; a password that is not a string, sent for a known email, makes `matchPassword` reject and gives a 500, and exactly that case does; every other failure is the one 401 "Invalid email or password"; success carries a user with that email whose password matches, and a token for that user |
| `AuthRoutes.LoginSucceedsIff` | routes/authRoutes.js:86-101 | with unique emails, login succeeds exactly when a user has that email and `matchPassword` holds |
| `AuthRoutes.NotTextRevealsEmail` | routes/authRoutes.js:75-107 | with a password that is not a string, an unknown email gets the 401 and a registered one the 500, so the two responses differ |
| `AuthRoutes.LoginFailureUndifferentiated` | routes/authRoutes.js:86-104 | an unknown email and a wrong string password for a known email give the identical 401 |
| `AuthRoutes.RegisterThenLogin` | routes/authRoutes.js:42-101 | right after registering, the same email and password log in as the new user |
| `UserRoutes.ReplaceCart` | routes/userRoutes.js:24-30 | the save succeeds exactly when every submitted item has a productId and quantity of at least 1; the stored cart is then the submitted one and no other field changes; otherwise a 500 |
| `UserRoutes.ReplaceAddresses` | routes/userRoutes.js:40-46 | the save succeeds exactly when every submitted address has its four fields; the stored addresses are then the cast list and no other field changes, the cart included; otherwise a 500 |
| `Store.Shop.Checkout` | routes/orderRoutes.js:12-73 | the outcome is the checkout decision; on success the order is appended, the caller's stored cart becomes empty, and the journal records the order save before the user save; on failure nothing is written |
| `Store.Shop.CommitOrder` | routes/orderRoutes.js:60-65 | the order is appended, then the owner's cart is emptied; the journal records the order save before the user save; the store invariant is kept and nothing else changes |
| `Store.Shop.MyOrders` | routes/orderRoutes.js:78-86 | returns exactly the caller's orders, newest first |
| `Store.Shop.AllOrders` | routes/adminRoutes.js:10-20 | returns every order, newest first |
| `Store.Shop.SetStatus` | routes/adminRoutes.js:25-48 | an invalid literal is a 400 whatever the id, and a missing order a 404, both with nothing written; otherwise only that order's status changes and the updated order is returned |
| `Store.Shop.Register` | routes/authRoutes.js:19-66 | on success exactly the new user is added and saved; on failure the users are unchanged; the response is the user's fields with a token for the new id |
| `Store.Shop.GetCart` | routes/userRoutes.js:10-19 | returns the stored cart, whose every item is valid, and changes nothing |
| `Store.Shop.UpdateCart` | routes/userRoutes.js:24-35 | the caller's cart becomes the submitted one, and is returned, exactly when it validates; no other user field and no order changes |
| `Store.Shop.UpdateAddresses` | routes/userRoutes.js:40-51 | the caller's addresses become the submitted list, cast, and are returned, exactly when it validates; the cart and everything else are unchanged |

## Left out

- The `protect` and `admin` middleware bodies are not part of this model. They appear only
  as preconditions: the caller is a stored user, and for the admin routes that user is an
  administrator. How an unauthenticated or non-admin request is answered is therefore not
  modelled, nor is the order in which the two guards run.
- The Product model is not part of this model. The catalog is a map from id to name and
  price that the core only reads.
- `server.js` (Express wiring, CORS, helmet, rate limiting, listening) and `seeder.js`
  (wiping and seeding the database) are I/O and configuration.
- bcrypt's digest, salt generation and cost factor are not modelled. The digest is a
  parameter, and the salt is an argument.
- JWT signing internals and expiry checking are not modelled. A signature is represented
  by the key it was made with.
- express-validator's `isEmail` is a parameter.
- `Store.Shop.SetStatus`: an `:id` that is not a well-formed ObjectId makes `findById`
  throw a cast error, which the handler answers with 500 "Server Error", not 404. Order ids
  are naturals here, so such an id cannot be sent.
- `AuthRoutes.Register`: name and password are strings. A JSON object sent as either
  becomes "[object Object]" for the validators and passes them. Mongoose's String cast then
  rejects it in `User.create`, and the handler answers 500 "Server error". That case is
  not modelled.
- Database faults are not modelled. These are the catch-all 500 for a failed query or write.
- User and order ids are naturals. Product ids are strings, and any non-empty string
  stands for a well-formed ObjectId. At checkout a malformed id makes the product query
  throw, which gives the same 500 as a missing product.
- `UserRoutes.ReplaceCart`: a cart item whose `productId` is not a well-formed ObjectId
  fails the cast at `save()`, and the handler answers 500. The model accepts any non-empty
  string, so it accepts such a cart.
- `Store.Shop.UpdateCart`: inherits the gap above. A cart with a malformed `productId` is
  stored, where the source answers 500 and stores nothing.
- The error items of a 400 validation response carry `type`, `value`, `path` and
  `location` besides `msg`. `Http.Invalid` keeps only the messages, in order.
- Subdocument `_id` fields and `updatedAt` are not modelled.
- Wall-clock timestamps are replaced by a logical clock.
- Atomicity of the two checkout writes, and concurrent requests (two checkouts racing on
  one cart), are persistence and concurrency concerns. The journal records only the order
  of the writes.
- Floating-point prices and quantities are not modelled, nor is JavaScript's coercion of
  non-numeric quantities.
- Logging (`console.error`) is not modelled.
- The success status codes are not part of the results. Register and checkout answer 201;
  the other handlers answer 200.
- `Store.Shop.GetCart`: returns the stored items without the product name, price and image
  that `populate` attaches to each.
- `Store.Shop.AllOrders`: returns the orders without populating each owner's id, name and
  email.
- `Store.Shop.SetStatus`: the modification time that `save` refreshes is not modelled.

## Findings

| source | as written | input that shows it | evidently intended | confidence | as-written member | corrected member |
|---|---|---|---|---|---|---|
| models/User.js:57-63 | `next()` for an unmodified password is not followed by `return`. The hook falls through and hashes the stored hash again on every save. | A user registers with "secret1", then saves their cart (`PUT /api/user/cart`). The document's password becomes a hash of the hash, and `matchPassword("secret1")` is false. | Hash only when the password was modified. | not executed; medium: whether the re-hashed value reaches the database depends on when Mongoose acts on the early `next()` | `UserModel.PreSaveAsWrittenLosesPassword` | `UserModel.PreSave` |
