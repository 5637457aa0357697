/** Authorization-code records. */
module CodeModel {

  datatype AuthorizationCode = AuthorizationCode(
    code: string,
    clientId: string,
    userId: nat,
    redirectUri: string,
    scope: seq<string>,
    expiresAt: int)

  /** isExpired: strictly past expires_at. */
  predicate IsExpired(c: AuthorizationCode, now: int) {
    c.expiresAt < now
  }

  /** A code is valid at its exact expiry instant, expired one second later, and stays expired. */
  lemma ExpiryInstants(c: AuthorizationCode, now: int, later: int)
    requires now <= later
    ensures !IsExpired(c, c.expiresAt) && IsExpired(c, c.expiresAt + 1)
    ensures IsExpired(c, now) ==> IsExpired(c, later)
  {
  }
}
