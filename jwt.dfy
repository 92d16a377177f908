/**
 * Stand-in for the token library the service calls (claims construction,
 * encode, decode).  The library itself is not part of this model: a token is
 * either one this service signed, carrying its claims, or any other text.
 */
module Jwt {
  import opened Common

  /** Subject, issued-at, expiry (epoch seconds) and the unique token id. */
  datatype Claims = Claims(sub: string, iat: int, exp: int, jti: string)

  datatype Token = Signed(claims: Claims) | Unsigned(text: string)

  /**
   * Claims for `sub` issued at `now` that expire `ttl` seconds later; `jti`
   * is the fresh identifier the library draws.
   */
  function NewClaims(sub: string, now: Timestamp, ttl: int, jti: string): Claims
  {
    Claims(sub, now, now + ttl, jti)
  }

  function Encode(c: Claims): Token
  {
    Signed(c)
  }

  function Decode(t: Token): Result<Claims>
  {
    match t
    case Signed(c) => Ok(c)
    case Unsigned(_) => Err(MalformedToken)
  }

  /** A token this service issued decodes back to the claims it was made from. */
  lemma DecodeEncode(c: Claims)
    ensures Decode(Encode(c)) == Ok(c)
  {
  }
}
