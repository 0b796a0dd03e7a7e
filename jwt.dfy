/**
 * Session tokens as `jsonwebtoken` signs them. A signature is modelled by the key it was
 * made with: only the holder of that key can make a token that checks against it.
 */
module Jwt {
  import opened Results

  const SecondsPerDay: nat := 24 * 60 * 60

  /** `expiresIn: '30d'`, in seconds. */
  const ExpiresIn: nat := 30 * SecondsPerDay

  /** The payload `{ id }` and the expiry the library adds. */
  datatype Claims = Claims(id: nat, expiresIn: nat)

  datatype Token = Signed(claims: Claims, key: string)

  /** `generateToken(id)`: sign `{ id }` with the server secret, valid for 30 days. */
  function GenerateToken(secret: string, id: nat): (t: Token)
    ensures Verify(t, secret) == Some(id)
    ensures t.claims.expiresIn == ExpiresIn
  {
    Signed(Claims(id, ExpiresIn), secret)
  }

  /** The user id a token carries, when it was signed with `secret`. */
  function Verify(t: Token, secret: string): (id: Option<nat>)
    ensures id.Some? <==> t.key == secret
  {
    if t.key == secret then Some(t.claims.id) else None
  }

  /** Tokens of two different users are different. */
  lemma GenerateTokenInjective(secret: string, a: nat, b: nat)
    ensures GenerateToken(secret, a) == GenerateToken(secret, b) ==> a == b
  {
  }
}
