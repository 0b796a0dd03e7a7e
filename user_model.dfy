/**
 * The user document: embedded addresses and cart items, the schema's defaults and
 * required fields, password checking and the hook that hashes a password before a save.
 */
module UserModel {
  import opened Results
  import Bcrypt

  type UserId = nat
  type ProductId = string

  /**
   * Mongoose's `required` on a String path rejects a missing value and the empty string;
   * the model writes a missing string as "".
   */
  predicate Present(s: string) {
    |s| > 0
  }

  /** A saved address as stored. */
  datatype Address = Address(street: string, city: string, state: string, zip: string, isDefault: bool)

  /** A saved address as a client submits it: `default` may be left out. */
  datatype AddressInput = AddressInput(street: string, city: string, state: string, zip: string, isDefault: Option<bool>)

  predicate ValidAddress(a: Address) {
    Present(a.street) && Present(a.city) && Present(a.state) && Present(a.zip)
  }

  /** Casting a submitted address into the embedded schema, applying `default: false`. */
  function CastAddress(a: AddressInput): (r: Address)
    ensures r.street == a.street && r.city == a.city && r.state == a.state && r.zip == a.zip
    ensures r.isDefault <==> a.isDefault == Some(true)
  {
    Address(a.street, a.city, a.state, a.zip, a.isDefault.GetOr(false))
  }

  function CastAddresses(addresses: seq<AddressInput>): (r: seq<Address>)
    ensures |r| == |addresses|
    ensures forall i :: 0 <= i < |r| ==> r[i] == CastAddress(addresses[i])
  {
    seq(|addresses|, i requires 0 <= i < |addresses| => CastAddress(addresses[i]))
  }

  /** An entry of a stored cart. */
  datatype CartItem = CartItem(productId: ProductId, quantity: int)

  predicate ValidCartItem(c: CartItem) {
    Present(c.productId) && c.quantity >= 1
  }

  /** A user document; `password` holds the raw password until the pre-save hook hashes it. */
  datatype User = User(
    id: UserId,
    name: string,
    email: string,
    password: string,
    isAdmin: bool,
    addresses: seq<Address>,
    cart: seq<CartItem>)

  /** What `save` validates: the required strings and every embedded document. */
  predicate ValidUser(u: User) {
    && Present(u.name) && Present(u.email) && Present(u.password)
    && (forall a :: a in u.addresses ==> ValidAddress(a))
    && (forall c :: c in u.cart ==> ValidCartItem(c))
  }

  /** `email` is declared `unique`: no two stored users share one. */
  predicate UniqueEmails(users: seq<User>) {
    forall i, j :: 0 <= i < j < |users| ==> users[i].email != users[j].email
  }

  /** A new document with the schema's defaults: not an administrator, no addresses, an empty cart. */
  function NewUser(id: UserId, name: string, email: string, password: string, isAdmin: Option<bool>): (u: User)
    ensures u.id == id && u.name == name && u.email == email && u.password == password
    ensures u.isAdmin <==> isAdmin == Some(true)
    ensures u.addresses == [] && u.cart == []
  {
    User(id, name, email, password, isAdmin.GetOr(false), [], [])
  }

  /** `matchPassword(entered)`: bcrypt's comparison against the stored hash. */
  predicate MatchPassword(digest: Bcrypt.Digest, u: User, entered: string)
    ensures MatchPassword(digest, u, entered) <==>
            exists salt :: |salt| == Bcrypt.SaltLength && u.password == Bcrypt.Hash(digest, salt, entered)
  {
    Bcrypt.CompareIsHashOf(digest, entered, u.password);
    Bcrypt.Compare(digest, entered, u.password)
  }

  /**
   * The pre-save hook with the guard it is meant to have: a modified password is replaced
   * by its hash under a fresh salt, and an unmodified one is left alone.
   */
  function PreSave(digest: Bcrypt.Digest, u: User, passwordModified: bool, salt: string): (r: User)
    requires passwordModified ==> |salt| == Bcrypt.SaltLength
    ensures r.(password := u.password) == u
    ensures passwordModified ==> MatchPassword(digest, r, u.password)
    ensures !passwordModified ==> r == u
  {
    if passwordModified then
      Bcrypt.CompareHash(digest, salt, u.password);
      u.(password := Bcrypt.Hash(digest, salt, u.password))
    else
      u
  }

  /**
   * The pre-save hook as written: the early `next()` is not followed by a return, so the
   * password is hashed again whether or not it was modified.
   */
  function PreSaveAsWritten(digest: Bcrypt.Digest, u: User, passwordModified: bool, salt: string): (r: User)
    requires |salt| == Bcrypt.SaltLength
    ensures r.(password := u.password) == u
    ensures MatchPassword(digest, r, u.password)
  {
    Bcrypt.CompareHash(digest, salt, u.password);
    u.(password := Bcrypt.Hash(digest, salt, u.password))
  }

  /**
   * A user registers with "secret1" and is saved again without a password change (as the
   * cart and address updates and checkout do). With the intended guard the password still
   * matches; with the hook as written the stored value is a hash of the hash, and it does not.
   */
  lemma PreSaveAsWrittenLosesPassword()
    ensures
      var digest: Bcrypt.Digest := (salt: string, raw: string) => raw;
      var salt := "$2a$10$abcdefghijklmnopqrstuv";
      var registered := PreSave(digest, NewUser(0, "Ann", "ann@example.com", "secret1", None), true, salt);
      && MatchPassword(digest, registered, "secret1")
      && MatchPassword(digest, PreSave(digest, registered, false, salt), "secret1")
      && !MatchPassword(digest, PreSaveAsWritten(digest, registered, false, salt), "secret1")
  {
    var digest: Bcrypt.Digest := (salt: string, raw: string) => raw;
    var salt := "$2a$10$abcdefghijklmnopqrstuv";
    var registered := PreSave(digest, NewUser(0, "Ann", "ann@example.com", "secret1", None), true, salt);
    var resaved := PreSaveAsWritten(digest, registered, false, salt);
    assert |resaved.password| == 2 * Bcrypt.SaltLength + 7;
    assert |Bcrypt.Hash(digest, resaved.password[..Bcrypt.SaltLength], "secret1")| == Bcrypt.SaltLength + 7;
  }
}
