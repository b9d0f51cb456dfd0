/** Token claims as the services see them (src/models/jwt.py).  Signing,
    signature checking and expiry checking belong to the JWT library and are
    not part of this model: a `TokenData` is a token that has already been
    decoded and accepted by it.  `TokenData` joins the fields
    `JWTService.check_banned` reads (user id, token name, token string, jti,
    iat) with the expiry and the permission claim, and also stands for the
    `Payload` the handlers import but the repository does not define. */
module Tokens {
  import opened Ids

  /** The claims of a signed token. */
  datatype RawToken = RawToken(sub: Uuid, iat: int, jti: Uuid, exp: int, tokenType: string, permissions: seq<Uuid>)

  /** A decoded token: who it is for, its type ("access" or "refresh"), the
      encoded token string itself, and its claims. */
  datatype TokenData = TokenData(
    userId: Uuid, nameToken: string, token: string, jti: Uuid, iat: int, exp: int, permissions: seq<Uuid>)

  /** `authjwt_access_token_expires` and `authjwt_refresh_token_expires`, in seconds. */
  datatype JwtConfig = JwtConfig(accessExpires: int, refreshExpires: int)

  /** The claims `create_access_token` / `create_refresh_token` put into a new
      token issued at `now`; `jti` stands for the library's fresh uuid4. */
  function Issue(subject: Uuid, tokenType: string, permissions: seq<Uuid>, now: int, expires: int, jti: Uuid): RawToken
  {
    RawToken(subject, now, jti, now + expires, tokenType, permissions)
  }
}
