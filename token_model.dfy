/** Access / refresh token records. */
module TokenModel {

  datatype Token = Token(
    accessToken: string,
    refreshToken: string,
    clientId: string,
    userId: nat,
    scope: seq<string>,
    expiresAt: int,
    refreshExpiresAt: int)

  /** isExpired: strictly past expires_at. */
  predicate IsExpired(t: Token, now: int) {
    t.expiresAt < now
  }

  /** isRefreshExpired: strictly past refresh_expires_at, whatever the access expiry. */
  predicate IsRefreshExpired(t: Token, now: int) {
    t.refreshExpiresAt < now
  }

  /**
   * A token is still valid at its exact expiry instant and expired one second
   * later, and once expired it stays expired; the two expiries are independent.
   */
  lemma ExpiryInstants(t: Token, now: int, later: int)
    requires now <= later
    ensures !IsExpired(t, t.expiresAt) && IsExpired(t, t.expiresAt + 1)
    ensures !IsRefreshExpired(t, t.refreshExpiresAt) && IsRefreshExpired(t, t.refreshExpiresAt + 1)
    ensures IsExpired(t, now) ==> IsExpired(t, later)
    ensures IsRefreshExpired(t, now) ==> IsRefreshExpired(t, later)
    ensures t.expiresAt < now <= t.refreshExpiresAt ==> IsExpired(t, now) && !IsRefreshExpired(t, now)
  {
  }
}
