/** The cache-aside view onto sessions: TTL entries under the token hash. */
module SessionCache {
  import opened Wrappers
  import opened SessionModel

  const MIN_TTL: int := 5 * SECOND
  const MAX_TTL: int := DAY

  datatype Entry = Entry(value: SessionCacheValue, expires: int)

  type Entries = map<string, Entry>

  /** An entry is served up to and including the instant it expires at. */
  function Lookup(entries: Entries, hash: string, now: int): (r: Option<Session>) {
    if hash != "" && hash in entries && now <= entries[hash].expires
    then Some(ToSession(entries[hash].value))
    else None
  }

  /** The TTL that Put chooses: the remaining lifetime, at most a day; nothing
      is written when five seconds or less remain. */
  function PutTtl(s: Session, now: int): (ttl: Option<int>)
    ensures ttl.Some? ==> MIN_TTL < ttl.value <= MAX_TTL && now + ttl.value <= s.expiresAt
    ensures ttl.None? <==> s.tokenHash == "" || s.expiresAt <= now + 5_000_000_000
    ensures ttl.Some? ==> ttl.value == 86_400_000_000_000 || now + ttl.value == s.expiresAt
    ensures ttl.Some? ==> ttl.value <= 86_400_000_000_000
  {
    if s.tokenHash == "" || s.expiresAt - now <= MIN_TTL then None
    else if s.expiresAt - now > MAX_TTL then Some(MAX_TTL)
    else Some(s.expiresAt - now)
  }

  /** Put with the caller's clock `now`, reaching the cache at the instant `at`. */
  function PutAt(entries: Entries, s: Session, now: int, at: int): Entries {
    var ttl := PutTtl(s, now);
    if ttl.Some? then entries[s.tokenHash := Entry(ToCacheValue(s), at + ttl.value)] else entries
  }

  function Evict(entries: Entries, hashes: set<string>): Entries {
    entries - hashes
  }

  function Members(hashes: seq<string>): set<string> {
    set h | h in hashes
  }

  /** What is put is got, up to and including the instant its TTL ends: every field of the
      session but the id token. Other entries stay. */
  lemma PutThenGet(entries: Entries, s: Session, now: int, at: int, hash: string, later: int)
    requires s.tokenHash != "" && s.expiresAt > now + 5_000_000_000
    ensures
      var after := PutAt(entries, s, now, at);
      var ttl := if s.expiresAt - now < 86_400_000_000_000 then s.expiresAt - now else 86_400_000_000_000;
      Lookup(after, hash, later) == if hash != s.tokenHash then Lookup(entries, hash, later)
                                    else if later <= at + ttl then Some(s.(idTokenEncrypted := ""))
                                    else None
  {
    CacheRoundTrip(s);
  }

  /** What has five seconds or less to live, or no hash, is not put. */
  lemma NothingPut(entries: Entries, s: Session, now: int, at: int)
    requires s.tokenHash == "" || s.expiresAt <= now + 5_000_000_000
    ensures PutAt(entries, s, now, at) == entries
  {
  }

  lemma EvictThenGet(entries: Entries, hashes: set<string>, hash: string, now: int)
    ensures Lookup(Evict(entries, hashes), hash, now) == if hash in hashes then None else Lookup(entries, hash, now)
    ensures Lookup(entries, "", now) == None
  {
  }

  class Cache {
    var entries: Entries

    constructor ()
      ensures entries == map[]
    {
      entries := map[];
    }

    /** `down` says that the backend fails this call; the caller sees a miss. */
    method Get(hash: string, now: int, down: bool) returns (r: Option<Session>)
      ensures r == if down then None else Lookup(entries, hash, now)
    {
      if hash == "" || down || hash !in entries || now > entries[hash].expires {
        return None;
      }
      return Some(ToSession(entries[hash].value));
    }

    method Put(s: Session, now: int, down: bool)
      modifies this
      ensures entries == if down then old(entries) else PutAt(old(entries), s, now, now)
    {
      if s.tokenHash == "" {
        return;
      }
      var ttl := s.expiresAt - now;
      if ttl <= MIN_TTL {
        return;
      }
      if ttl > MAX_TTL {
        ttl := MAX_TTL;
      }
      if !down {
        entries := entries[s.tokenHash := Entry(ToCacheValue(s), now + ttl)];
      }
    }

    /** Only the hashes in `failing` are not deleted. */
    method Delete(hash: string, failing: set<string>)
      modifies this
      ensures entries == Evict(old(entries), if hash == "" then {} else {hash} - failing)
    {
      if hash == "" {
        return;
      }
      if hash !in failing {
        entries := entries - {hash};
      }
    }

    method DeleteMany(hashes: seq<string>, failing: set<string>)
      modifies this
      ensures entries == Evict(old(entries), Members(hashes) - {""} - failing)
    {
      for i := 0 to |hashes|
        invariant entries == Evict(old(entries), Members(hashes[..i]) - {""} - failing)
      {
        Delete(hashes[i], failing);
        assert Members(hashes[..i + 1]) == Members(hashes[..i]) + {hashes[i]};
      }
      assert hashes[..|hashes|] == hashes;
    }
  }
}
