/** One login session, and the reduced copy of it that the cache keeps.
    Instants and durations are nanoseconds; 0 is Go's zero time. */
module SessionModel {
  import opened Wrappers

  const SECOND: int := 1_000_000_000
  const DAY: int := 24 * 3600 * SECOND
  const ZERO_TIME: int := 0

  /** The textual form of an IP address, never empty. */
  type AddressText = s: string | |s| > 0 witness "::"

  datatype Session = Session(
    id: string,
    userId: string,
    organizationId: string,
    authMode: string,
    tokenHash: string,
    createdAt: int,
    expiresAt: int,
    revokedAt: Option<int>,
    lastSeenAt: int,
    ip: Option<AddressText>,
    userAgentHash: string,
    idTokenEncrypted: string)
  {
    predicate Live(now: int) {
      revokedAt.None? && now < expiresAt
    }
  }

  /** The JSON payload of a cache entry: every field of the session but the id token. */
  datatype SessionCacheValue = SessionCacheValue(
    id: string,
    userId: string,
    organizationId: string,
    authMode: string,
    sessionTokenHash: string,
    createdAt: int,
    expiresAt: int,
    revokedAt: Option<int>,
    lastSeenAt: int,
    ip: string,
    userAgentHash: string)

  function ToCacheValue(s: Session): (v: SessionCacheValue) {
    SessionCacheValue(
      s.id, s.userId, s.organizationId, s.authMode, s.tokenHash, s.createdAt, s.expiresAt,
      s.revokedAt, s.lastSeenAt, if s.ip.Some? then s.ip.value else "", s.userAgentHash)
  }

  function ToSession(v: SessionCacheValue): (s: Session) {
    Session(
      v.id, v.userId, v.organizationId, v.authMode, v.sessionTokenHash, v.createdAt, v.expiresAt,
      v.revokedAt, v.lastSeenAt, if v.ip != "" then Some(v.ip) else None, v.userAgentHash, "")
  }

  /** The two sessions agree on everything but the last-seen stamp and the id
      token, the two fields a cached copy may have different. */
  predicate Same(a: Session, b: Session) {
    a.(lastSeenAt := 0, idTokenEncrypted := "") == b.(lastSeenAt := 0, idTokenEncrypted := "")
  }

  /** What a cached copy loses is exactly the id token. */
  lemma CacheRoundTrip(s: Session)
    ensures ToSession(ToCacheValue(s)) == s.(idTokenEncrypted := "")
  {
  }
}
