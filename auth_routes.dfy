/** Registration and login (`POST /api/auth/register`, `POST /api/auth/login`) and their tokens. */
module AuthRoutes {
  import opened Results
  import opened Http
  import opened UserModel
  import Bcrypt
  import Jwt

  /**
   * What the handlers take from outside: bcrypt's digest, the signing secret
   * (`process.env.JWT_SECRET`) and express-validator's `isEmail`.
   */
  datatype Env = Env(digest: Bcrypt.Digest, secret: string, isEmail: string -> bool)

  const NameRequired := "Name is required"
  const EmailInvalid := "Please include a valid email"
  const PasswordTooShort := "Password must be 6 or more characters"
  const PasswordRequired := "Password is required"
  const MinPasswordLength: nat := 6

  const UserExists := Message(400, "User already exists")
  const InvalidCredentials := Message(401, "Invalid email or password")
  const ServerError := ServerFault("Server error")

  /** The body of a successful register or login: the user's public fields and a token. */
  datatype AuthResponse = AuthResponse(
    id: UserId, name: string, email: string, isAdmin: bool,
    addresses: seq<Address>, cart: seq<CartItem>, token: Jwt.Token)

  function ResponseFor(env: Env, u: User): (r: AuthResponse)
    ensures Jwt.Verify(r.token, env.secret) == Some(u.id) && r.token.claims.expiresIn == Jwt.ExpiresIn
  {
    AuthResponse(u.id, u.name, u.email, u.isAdmin, u.addresses, u.cart, Jwt.GenerateToken(env.secret, u.id))
  }

  /** The place of each register validator in the chain: name, then email, then password. */
  function RegistrationRank(message: string): nat {
    if message == NameRequired then 0
    else if message == EmailInvalid then 1
    else if message == PasswordTooShort then 2
    else 3
  }

  /** The register validators' messages, one per failing check, in declaration order. */
  function RegistrationErrors(env: Env, name: string, email: string, password: string): (errors: seq<string>)
    ensures NameRequired in errors <==> name == ""
    ensures EmailInvalid in errors <==> !env.isEmail(email)
    ensures PasswordTooShort in errors <==> |password| < MinPasswordLength
    ensures forall m :: m in errors ==> m == NameRequired || m == EmailInvalid || m == PasswordTooShort
    ensures forall i, j :: 0 <= i < j < |errors| ==> RegistrationRank(errors[i]) < RegistrationRank(errors[j])
    ensures errors == [] <==> name != "" && env.isEmail(email) && |password| >= MinPasswordLength
  {
    (if name == "" then [NameRequired] else [])
    + (if !env.isEmail(email) then [EmailInvalid] else [])
    + (if |password| < MinPasswordLength then [PasswordTooShort] else [])
  }

  /**
   * The `password` field of a login body as JSON delivers it: not sent at all, sent as a
   * value that is not a string (`null`, a number, an object), or sent as a string.
   */
  datatype PasswordField = Missing | NotText | Text(value: string)

  /** The login validators' messages; `exists()` rejects only a password that was not sent at all. */
  function LoginErrors(env: Env, email: string, password: PasswordField): (errors: seq<string>)
    ensures EmailInvalid in errors <==> !env.isEmail(email)
    ensures PasswordRequired in errors <==> password.Missing?
    ensures forall m :: m in errors ==> m == EmailInvalid || m == PasswordRequired
    ensures |errors| <= 2
    ensures |errors| == 2 ==> errors == [EmailInvalid, PasswordRequired]
    ensures errors == [] <==> env.isEmail(email) && !password.Missing?
  {
    (if !env.isEmail(email) then [EmailInvalid] else [])
    + (if password.Missing? then [PasswordRequired] else [])
  }

  /** `User.findOne({ email })`: the first stored user with that email. */
  function FindByEmail(users: seq<User>, email: string): (r: Option<nat>)
    ensures r.Some? ==> r.value < |users| && users[r.value].email == email
    ensures r.Some? ==> forall j :: 0 <= j < r.value ==> users[j].email != email
    ensures r.None? <==> forall i :: 0 <= i < |users| ==> users[i].email != email
  {
    if users == [] then None
    else
      match FindByEmail(users[..|users| - 1], email)
      case Some(i) => Some(i)
      case None => if users[|users| - 1].email == email then Some(|users| - 1) else None
  }

  /** With unique emails the user found is the only one with that email. */
  lemma FindByEmailUnique(users: seq<User>, email: string, i: nat)
    requires UniqueEmails(users) && i < |users| && users[i].email == email
    ensures FindByEmail(users, email) == Some(i)
  {
  }

  /**
   * The register decision: the validated, hashed new user record, or the response the
   * handler fails with. `User.create` validates the raw document, then the pre-save hook
   * hashes the (new, hence modified) password.
   */
  function Register(env: Env, users: seq<User>, name: string, email: string, password: string, salt: string): (r: Result<User, ApiError>)
    requires |salt| == Bcrypt.SaltLength
    ensures RegistrationErrors(env, name, email, password) != [] ==> r == Err(Invalid(RegistrationErrors(env, name, email, password)))
    ensures RegistrationErrors(env, name, email, password) == [] && (exists i :: 0 <= i < |users| && users[i].email == email) ==> r == Err(UserExists)
    ensures (RegistrationErrors(env, name, email, password) == [] && !Present(email)
             && forall i :: 0 <= i < |users| ==> users[i].email != email)
            ==> r == Err(ServerError)
    ensures r.Ok? <==> RegistrationErrors(env, name, email, password) == [] && Present(email)
                       && forall i :: 0 <= i < |users| ==> users[i].email != email
    ensures r.Ok? ==>
      && r.value.id == |users| && r.value.name == name && r.value.email == email
      && !r.value.isAdmin && r.value.addresses == [] && r.value.cart == []
      && r.value.password == Bcrypt.Hash(env.digest, salt, password)
      && MatchPassword(env.digest, r.value, password)
      && ValidUser(r.value)
  {
    var errors := RegistrationErrors(env, name, email, password);
    if errors != [] then Err(Invalid(errors))
    else if FindByEmail(users, email).Some? then Err(UserExists)
    else
      var doc := NewUser(|users|, name, email, password, None);
      if !ValidUser(doc) then Err(ServerError)
      else Ok(PreSave(env.digest, doc, true, salt))
  }

  /**
   * The login decision. A failed validation is a 400 with the validators' messages;
   * otherwise the user found by email must match the password, and an unknown email and
   * a wrong password get the same 401. A password that is not a string reaches bcrypt's
   * `compare` only when the email is known; `compare` then rejects, which is a 500.
   */
  function Login(env: Env, users: seq<User>, email: string, password: PasswordField): (r: Result<AuthResponse, ApiError>)
    ensures LoginErrors(env, email, password) != [] ==> r == Err(Invalid(LoginErrors(env, email, password)))
    ensures LoginErrors(env, email, password) == [] && r.Err? ==> r.error == InvalidCredentials || r.error == ServerError
    ensures r == Err(ServerError) <==>
              LoginErrors(env, email, password) == [] && password.NotText?
              && exists i :: 0 <= i < |users| && users[i].email == email
    ensures r.Ok? ==> password.Text?
    ensures r.Ok? ==> exists i :: 0 <= i < |users| && users[i].email == email
                        && MatchPassword(env.digest, users[i], password.value) && r.value == ResponseFor(env, users[i])
  {
    var errors := LoginErrors(env, email, password);
    if errors != [] then Err(Invalid(errors))
    else
      match FindByEmail(users, email)
      case Some(i) =>
        if password.NotText? then Err(ServerError)
        else if MatchPassword(env.digest, users[i], password.value) then Ok(ResponseFor(env, users[i]))
        else Err(InvalidCredentials)
      case None => Err(InvalidCredentials)
  }

  /** With unique emails, login succeeds exactly when some user has the email and matches the password. */
  lemma LoginSucceedsIff(env: Env, users: seq<User>, email: string, password: string)
    requires UniqueEmails(users) && env.isEmail(email)
    ensures Login(env, users, email, Text(password)).Ok? <==>
            exists i :: 0 <= i < |users| && users[i].email == email && MatchPassword(env.digest, users[i], password)
  {
    if exists i :: 0 <= i < |users| && users[i].email == email && MatchPassword(env.digest, users[i], password) {
      var i :| 0 <= i < |users| && users[i].email == email && MatchPassword(env.digest, users[i], password);
      FindByEmailUnique(users, email, i);
    }
  }

  /** An unknown email and a wrong password for a known one give the identical response. */
  lemma LoginFailureUndifferentiated(env: Env, users: seq<User>, unknown: string, known: nat, wrong: string)
    requires UniqueEmails(users) && known < |users|
    requires env.isEmail(unknown) && env.isEmail(users[known].email)
    requires forall i :: 0 <= i < |users| ==> users[i].email != unknown
    requires !MatchPassword(env.digest, users[known], wrong)
    ensures Login(env, users, unknown, Text(wrong)) == Login(env, users, users[known].email, Text(wrong)) == Err(InvalidCredentials)
  {
    FindByEmailUnique(users, users[known].email, known);
  }

  /**
   * A password that is not a string tells a registered email from an unknown one: the
   * known email gets a 500, because bcrypt's `compare` rejects, and the unknown one gets the 401.
   */
  lemma NotTextRevealsEmail(env: Env, users: seq<User>, unknown: string, known: nat)
    requires known < |users|
    requires env.isEmail(unknown) && env.isEmail(users[known].email)
    requires forall i :: 0 <= i < |users| ==> users[i].email != unknown
    ensures Login(env, users, unknown, NotText) == Err(InvalidCredentials)
    ensures Login(env, users, users[known].email, NotText) == Err(ServerError)
    ensures Login(env, users, unknown, NotText) != Login(env, users, users[known].email, NotText)
  {
  }

  /** Registering keeps emails unique. */
  lemma RegisterKeepsEmailsUnique(env: Env, users: seq<User>, name: string, email: string, password: string, salt: string)
    requires |salt| == Bcrypt.SaltLength && UniqueEmails(users)
    requires Register(env, users, name, email, password, salt).Ok?
    ensures UniqueEmails(users + [Register(env, users, name, email, password, salt).value])
  {
  }

  /** Right after a successful registration the same email and password log in, as the new user. */
  lemma RegisterThenLogin(env: Env, users: seq<User>, name: string, email: string, password: string, salt: string)
    requires |salt| == Bcrypt.SaltLength
    requires Register(env, users, name, email, password, salt).Ok?
    ensures var u := Register(env, users, name, email, password, salt).value;
            Login(env, users + [u], email, Text(password)) == Ok(ResponseFor(env, u))
  {
    var u := Register(env, users, name, email, password, salt).value;
    var all := users + [u];
    assert all[..|all| - 1] == users;
    assert FindByEmail(all, email) == Some(|users|);
  }
}
