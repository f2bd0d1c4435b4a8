/** The session manager: mint, validate, revoke, revoke-all and rotate over the
    table and an optional cache. Every operation is given first as a function
    on the two, then as the method that performs it call by call. */
module SessionManager {
  import opened Wrappers
  import opened SessionModel
  import opened SessionStore
  import opened SessionCache

  datatype MintRequest = MintRequest(
    userId: string,
    organizationId: string,
    authMode: string,
    ip: Option<AddressText>,
    userAgent: string,
    idTokenEncrypted: string)

  /** The random draws of one mint: the token, the row id, and whether the
      entropy source worked. */
  datatype Draw = Draw(token: string, id: string, failed: bool)

  datatype MintResult = MintResult(session: Session, plaintextToken: string, expiresAt: int)

  datatype AuthError = ArgumentRequired | NoEntropy | StoreFailed(error: StoreError)

  /** Which of the calls made on behalf of one operation fail. */
  datatype Faults = Faults(store: bool, touch: bool, cacheGet: bool, cacheSet: bool, cacheDel: set<string>)

  const NO_FAULTS := Faults(false, false, false, false, {})

  datatype Config = Config(ttl: int, sessionsPerUser: int, cached: bool)

  datatype World = World(rows: Rows, entries: Entries)

  function HashUserAgent(hashToken: string -> string, userAgent: string): string {
    if userAgent == "" then "" else hashToken(userAgent)
  }

  /** The row that a mint asks the store to insert. */
  function NewSession(hashToken: string -> string, cfg: Config, req: MintRequest, draw: Draw, now: int): Session {
    Session(
      draw.id, req.userId, req.organizationId, req.authMode, hashToken(draw.token),
      ZERO_TIME, now + cfg.ttl, None, ZERO_TIME, req.ip,
      HashUserAgent(hashToken, req.userAgent), req.idTokenEncrypted)
  }

  ghost function HashSet(rows: Rows, ids: set<string>): set<string>
    requires ids <= rows.Keys
  {
    set id | id in ids :: rows[id].tokenHash
  }

  ghost function Mint(
    hashToken: string -> string, w: World, cfg: Config, req: MintRequest, draw: Draw, now: int, f: Faults)
    : (World, Result<MintResult, AuthError>)
  {
    if req.userId == "" || req.organizationId == "" || req.authMode == "" then (w, Err(ArgumentRequired))
    else if draw.failed then (w, Err(NoEntropy))
    else
      var s := NewSession(hashToken, cfg, req, draw, now);
      if !Required(s) then (w, Err(StoreFailed(FieldRequired)))
      else if f.store then (w, Err(StoreFailed(Unavailable)))
      else
        match CreateEnforcingCap(w.rows, s, cfg.sessionsPerUser, now)
        case CreateFailed(e) => (w, Err(StoreFailed(e)))
        case Created(rows, saved, revoked) =>
          var put := if f.cacheSet then w.entries else PutAt(w.entries, saved, now, now);
          var entries :=
            if cfg.cached then Evict(put, HashSet(w.rows, revoked) - {""} - f.cacheDel) else w.entries;
          (World(rows, entries), Ok(MintResult(saved, draw.token, s.expiresAt)))
  }

  ghost function Validate(
    hashToken: string -> string, w: World, cfg: Config, token: string, now: int, f: Faults)
    : (World, Result<Session, StoreError>)
  {
    if token == "" then (w, Err(SessionNotFound))
    else
      var hash := hashToken(token);
      var hit := if cfg.cached && !f.cacheGet then Lookup(w.entries, hash, now) else None;
      if hit.Some? then
        if hit.value.Live(now) then (w, Ok(hit.value))
        else (w.(entries := Evict(w.entries, {hash} - f.cacheDel)), Err(SessionNotFound))
      else if hash != "" && f.store then (w, Err(Unavailable))
      else
        match FindByHash(w.rows, hash)
        case None => (w, Err(SessionNotFound))
        case Some(s) =>
          if !s.Live(now) then (w, Err(SessionNotFound))
          else
            var rows := if f.touch || s.id == "" then w.rows else Touch(w.rows, s.id, now);
            if !cfg.cached then (World(rows, w.entries), Ok(s))
            else
              var seen := s.(lastSeenAt := now);
              (World(rows, if f.cacheSet then w.entries else PutAt(w.entries, seen, now, now)), Ok(seen))
  }

  ghost function RevokeOne(w: World, cfg: Config, id: string, hash: string, now: int, f: Faults)
    : (World, Result<(), AuthError>)
  {
    if id == "" then (w, Err(ArgumentRequired))
    else if f.store then (w, Err(StoreFailed(Unavailable)))
    else
      var entries :=
        if cfg.cached && hash != "" then Evict(w.entries, {hash} - f.cacheDel) else w.entries;
      (World(Revoke(w.rows, {id}, now), entries), Ok(()))
  }

  /** `committed` is what other transactions commit between the SELECT of the hashes and
      the UPDATE. */
  ghost function RevokeAll(w: World, cfg: Config, user: string, now: int, f: Faults, committed: Rows := map[])
    : (World, Result<nat, AuthError>)
  {
    if user == "" then (w, Err(ArgumentRequired))
    else if f.store then (w, Err(StoreFailed(Unavailable)))
    else
      var live := LiveOf(w.rows, user, now);
      var entries :=
        if cfg.cached then Evict(w.entries, HashSet(w.rows, live) - {""} - f.cacheDel) else w.entries;
      var seen := w.rows + committed;
      (World(Revoke(seen, LiveOf(seen, user, now), now), entries), Ok(|live|))
  }

  /** Without such a commit the UPDATE revokes what the SELECT saw. */
  lemma RevokeAllAlone(w: World, cfg: Config, user: string, now: int, f: Faults)
    requires user != "" && !f.store
    ensures
      var live := LiveOf(w.rows, user, now);
      && live <= w.rows.Keys
      && RevokeAll(w, cfg, user, now, f) ==
           (World(Revoke(w.rows, live, now),
                  if cfg.cached then Evict(w.entries, HashSet(w.rows, live) - {""} - f.cacheDel) else w.entries),
            Ok(|live|))
  {
    assert w.rows + map[] == w.rows;
    hide Revoke, HashSet;
  }

  /** Revoke, then mint; `mid` and `f` are the faults of the two halves. */
  ghost function Rotate(
    hashToken: string -> string, w: World, cfg: Config, id: string, hash: string,
    req: MintRequest, draw: Draw, now: int, now': int, mid: Faults, f: Faults)
    : (World, Result<MintResult, AuthError>)
  {
    var (w', r) := RevokeOne(w, cfg, id, hash, now, mid);
    if r.Err? then (w', Err(r.error)) else Mint(hashToken, w', cfg, req, draw, now', f)
  }

  lemma HashSeqIsHashSet(rows: Rows, ids: set<string>, hashes: seq<string>)
    requires ids <= rows.Keys && HashesOf(rows, ids, hashes)
    ensures Members(hashes) == HashSet(rows, ids)
  {
  }

  lemma CreatedRevokes(rows: Rows, draft: Session, cap: int, now: int)
    ensures CreateEnforcingCap(rows, draft, cap, now).Created? ==>
              CreateEnforcingCap(rows, draft, cap, now).revoked <= rows.Keys
  {
  }

  /** The mints that come to nothing. */
  lemma FailedMint(hashToken: string -> string, w: World, cfg: Config, req: MintRequest, draw: Draw, now: int,
                   f: Faults)
    requires !f.store && !draw.failed
    requires CreateEnforcingCap(w.rows, NewSession(hashToken, cfg, req, draw, now), cfg.sessionsPerUser,
                                now).CreateFailed?
    ensures
      var c := CreateEnforcingCap(w.rows, NewSession(hashToken, cfg, req, draw, now), cfg.sessionsPerUser, now);
      var (w', r) := Mint(hashToken, w, cfg, req, draw, now, f);
      && w' == w
      && r == if req.userId == "" || req.organizationId == "" || req.authMode == "" then Err(ArgumentRequired)
              else Err(StoreFailed(c.error))
  {
  }

  /** What the store answers to a mint that it rejects. */
  lemma RejectedMint(hashToken: string -> string, w: World, cfg: Config, req: MintRequest, draw: Draw, now: int,
                     f: Faults)
    requires req.userId != "" && req.organizationId != "" && req.authMode != "" && !draw.failed
    ensures
      var s := NewSession(hashToken, cfg, req, draw, now);
      var c := CreateEnforcingCap(w.rows, s, cfg.sessionsPerUser, now);
      (!Required(s) || f.store || c.CreateFailed?) ==>
        Mint(hashToken, w, cfg, req, draw, now, f) ==
          (w, Err(StoreFailed(if !Required(s) then FieldRequired else if f.store then Unavailable else c.error)))
  {
    hide Excess, Revoke, Collides;
  }

  /** The mints that succeed. */
  lemma CreatedMint(hashToken: string -> string, w: World, cfg: Config, req: MintRequest, draw: Draw, now: int,
                    f: Faults)
    requires !f.store && !draw.failed
    requires CreateEnforcingCap(w.rows, NewSession(hashToken, cfg, req, draw, now), cfg.sessionsPerUser, now).Created?
    ensures
      var c := CreateEnforcingCap(w.rows, NewSession(hashToken, cfg, req, draw, now), cfg.sessionsPerUser, now);
      var put := if f.cacheSet then w.entries else PutAt(w.entries, c.saved, now, now);
      c.revoked <= w.rows.Keys &&
      Mint(hashToken, w, cfg, req, draw, now, f) ==
        (World(c.rows, if cfg.cached then Evict(put, HashSet(w.rows, c.revoked) - {""} - f.cacheDel) else w.entries),
         Ok(MintResult(c.saved, draw.token, now + cfg.ttl)))
  {
    CreatedRevokes(w.rows, NewSession(hashToken, cfg, req, draw, now), cfg.sessionsPerUser, now);
    hide PutAt, Excess, Revoke;
  }

  class Manager {
    const hashToken: string -> string
    const store: Store
    const cache: Cache?
    const ttl: int
    const sessionsPerUser: int

    /** A zero TTL means the default of a day; the cap is taken as it is. */
    constructor (hashToken: string -> string, store: Store, cache: Cache?, ttl: int, sessionsPerUser: int)
      ensures this.hashToken == hashToken && this.store == store && this.cache == cache
      ensures this.ttl == (if ttl == 0 then 86_400_000_000_000 else ttl) && this.sessionsPerUser == sessionsPerUser
    {
      this.hashToken := hashToken;
      this.store := store;
      this.cache := cache;
      this.ttl := if ttl == 0 then DAY else ttl;
      this.sessionsPerUser := sessionsPerUser;
    }

    function Cfg(): Config {
      Config(ttl, sessionsPerUser, cache != null)
    }

    ghost function Footprint(): set<object> {
      {store} + if cache == null then {} else {cache}
    }

    ghost function State(): World
      reads Footprint()
    {
      World(store.rows, if cache == null then map[] else cache.entries)
    }

    method EvictMany(hashes: seq<string>, f: Faults)
      modifies Footprint()
      ensures store.rows == old(store.rows)
      ensures State().entries == if cache == null then map[]
                                 else Evict(old(State().entries), Members(hashes) - {""} - f.cacheDel)
    {
      if cache != null && |hashes| > 0 {
        cache.DeleteMany(hashes, f.cacheDel);
      } else {
        assert Members(hashes) - {""} - f.cacheDel == {} || cache == null;
      }
    }

    /** Cache the new session, then drop the entries of the sessions the cap revoked. */
    method CacheMinted(s: Session, now: int, revokedHashes: seq<string>, f: Faults)
      modifies Footprint()
      ensures store.rows == old(store.rows)
      ensures State().entries ==
        if cache == null then map[]
        else Evict(if f.cacheSet then old(State().entries) else PutAt(old(State().entries), s, now, now),
                   Members(revokedHashes) - {""} - f.cacheDel)
    {
      if cache != null {
        cache.Put(s, now, f.cacheSet);
        EvictMany(revokedHashes, f);
      }
    }

    method MintSession(req: MintRequest, draw: Draw, now: int, f: Faults)
      returns (r: Result<MintResult, AuthError>)
      requires WellFormed(store.rows)
      modifies Footprint()
      ensures WellFormed(store.rows)
      ensures (State(), r) == Mint(hashToken, old(State()), Cfg(), req, draw, now, f)
    {
      if req.userId == "" || req.organizationId == "" {
        return Err(ArgumentRequired);
      }
      if req.authMode == "" {
        return Err(ArgumentRequired);
      }
      if draw.failed {
        return Err(NoEntropy);
      }
      var expires := now + ttl;
      var s := NewSession(hashToken, Cfg(), req, draw, now);
      ghost var was := State();
      ghost var c := CreateEnforcingCap(was.rows, s, sessionsPerUser, now);
      hide CreateEnforcingCap, Mint, PutAt, Evict, Revoke, WellFormed, HashSet, Members;
      var created, revokedHashes := store.CreateSessionEnforcingCap(s, sessionsPerUser, now, f.store);
      if created.Err? {
        RejectedMint(hashToken, was, Cfg(), req, draw, now, f);
        return Err(StoreFailed(created.error));
      }
      CreatedMint(hashToken, was, Cfg(), req, draw, now, f);
      HashSeqIsHashSet(was.rows, c.revoked, revokedHashes);
      CacheMinted(created.value, now, revokedHashes, f);
      return Ok(MintResult(created.value, draw.token, expires));
    }

    method ValidateSession(token: string, now: int, f: Faults) returns (r: Result<Session, StoreError>)
      requires WellFormed(store.rows)
      modifies Footprint()
      ensures (State(), r) == Validate(hashToken, old(State()), Cfg(), token, now, f)
    {
      if token == "" {
        return Err(SessionNotFound);
      }
      var hash := hashToken(token);
      if cache != null {
        var cached := cache.Get(hash, now, f.cacheGet);
        if cached.Some? {
          if !cached.value.Live(now) {
            cache.Delete(hash, f.cacheDel);
            return Err(SessionNotFound);
          }
          return Ok(cached.value);
        }
      }
      var got := store.GetSessionByTokenHash(hash, f.store);
      if got.Err? {
        return got;
      }
      var s := got.value;
      if !s.Live(now) {
        return Err(SessionNotFound);
      }
      store.TouchSessionLastSeen(s.id, now, f.touch || s.id == "");
      if cache != null {
        s := s.(lastSeenAt := now);
        cache.Put(s, now, f.cacheSet);
      }
      return Ok(s);
    }

    method RevokeSession(id: string, hash: string, now: int, f: Faults) returns (r: Result<(), AuthError>)
      modifies Footprint()
      ensures (State(), r) == RevokeOne(old(State()), Cfg(), id, hash, now, f)
    {
      if id == "" {
        return Err(ArgumentRequired);
      }
      var revoked := store.RevokeSession(id, now, f.store);
      if revoked.Err? {
        return Err(StoreFailed(revoked.error));
      }
      if cache != null && hash != "" {
        cache.Delete(hash, f.cacheDel);
      }
      return Ok(());
    }

    method RevokeUserSessions(user: string, now: int, committed: Rows, f: Faults) returns (r: Result<nat, AuthError>)
      modifies Footprint()
      ensures (State(), r) == RevokeAll(old(State()), Cfg(), user, now, f, committed)
    {
      if user == "" {
        return Err(ArgumentRequired);
      }
      var hashes := store.RevokeUserSessions(user, now, committed, f.store);
      if hashes.Err? {
        return Err(StoreFailed(hashes.error));
      }
      HashSeqIsHashSet(old(store.rows), LiveOf(old(store.rows), user, now), hashes.value);
      EvictMany(hashes.value, f);
      return Ok(|hashes.value|);
    }

    method RotateSessionForOrg(
      id: string, hash: string, req: MintRequest, draw: Draw, now: int, now': int, mid: Faults, f: Faults)
      returns (r: Result<MintResult, AuthError>)
      requires WellFormed(store.rows)
      modifies Footprint()
      ensures WellFormed(store.rows)
      ensures (State(), r) == Rotate(hashToken, old(State()), Cfg(), id, hash, req, draw, now, now', mid, f)
    {
      if id == "" {
        return Err(ArgumentRequired);
      }
      var revoked := RevokeSession(id, hash, now, mid);
      if revoked.Err? {
        return Err(revoked.error);
      }
      r := MintSession(req, draw, now', f);
    }
  }
}
