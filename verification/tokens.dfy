/** The verification-token and password-reset-token entities. Both have the same columns (token
    string, owning user, expiration time) and the same 10-minute window, so one datatype serves
    both stores. */
module Tokens {
  import opened Wrappers
  import opened Entities

  /** A point in time in milliseconds since the epoch, as `Date.getTime()` reports it. */
  type Millis = int

  /** Lifetime of a freshly built token, in minutes. */
  const EXPIRATION_TIME: nat := 10

  const MILLIS_PER_MINUTE: nat := 60 * 1000

  /** A token row. `user` is absent only for a token built with the one-argument constructor. */
  datatype Token = Token(token: string, user: Option<UserId>, expirationTime: Millis)

  /** The clock reading `now` advanced by `minutes` minutes. */
  function CalculateExpirationDate(now: Millis, minutes: int): (exp: Millis)
    ensures exp - now == minutes * 60_000
    ensures minutes > 0 ==> exp > now
  {
    now + minutes * MILLIS_PER_MINUTE
  }

  /** Constructor `(user, token)`: binds the token string to its user and stamps the expiry. */
  function NewToken(user: UserId, token: string, now: Millis): (t: Token)
    ensures t.token == token && t.user == Some(user)
    ensures t.expirationTime == now + 600_000
  {
    Token(token, Some(user), CalculateExpirationDate(now, EXPIRATION_TIME))
  }

  /** Constructor `(token)`: the same expiry, but no user. */
  function NewUnboundToken(token: string, now: Millis): (t: Token)
    ensures t.token == token && t.user == None
    ensures t.expirationTime == now + 600_000
  {
    Token(token, None, CalculateExpirationDate(now, EXPIRATION_TIME))
  }

  /** The validation test: the time remaining, `expirationTime - now`, is zero or negative. */
  function IsExpired(t: Token, now: Millis): (b: bool)
    ensures b <==> now >= t.expirationTime
  {
    t.expirationTime - now <= 0
  }

  /** Once a token reads as expired it reads as expired at every later time. */
  lemma ExpiryIsMonotone(t: Token, now: Millis, later: Millis)
    requires IsExpired(t, now) && now <= later
    ensures IsExpired(t, later)
  {
  }

  /** A token built at `created` is live strictly before `created` + 10 minutes and expired from
      that instant on (the boundary itself counts as expired). */
  lemma FreshTokenWindow(user: UserId, token: string, created: Millis, now: Millis)
    ensures IsExpired(NewToken(user, token, created), now) <==> now >= created + 600_000
    ensures IsExpired(NewUnboundToken(token, created), now) <==> now >= created + 600_000
  {
  }
}
