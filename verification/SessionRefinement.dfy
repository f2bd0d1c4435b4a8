/** The cache is invisible: with atomic calls and no cache faults, a manager
    with a cache answers every run of requests as one without. */
module SessionRefinement {
  import opened Wrappers
  import opened SessionModel
  import opened SessionStore
  import opened SessionCache
  import opened SessionManager

  datatype Command =
    | Tick(dt: nat)
    | MintCmd(req: MintRequest, draw: Draw)
    | ValidateCmd(token: string)
    | RevokeCmd(id: string, hash: string)
    | RevokeUserCmd(user: string)
    | RotateCmd(id: string, hash: string, req: MintRequest, draw: Draw)
    | SweepCmd(olderThan: int)

  datatype Reply =
    | Quiet
    | Minted(mint: Result<MintResult, AuthError>)
    | Validated(session: Result<Session, StoreError>)
    | Revoked(done: Result<(), AuthError>)
    | RevokedAll(count: Result<nat, AuthError>)

  datatype Sys = Sys(w: World, now: int)

  ghost function Step(hashToken: string -> string, cfg: Config, s: Sys, cmd: Command): (Sys, Reply) {
    match cmd
    case Tick(dt) => (Sys(s.w, s.now + dt), Quiet)
    case MintCmd(req, draw) =>
      var (w, r) := Mint(hashToken, s.w, cfg, req, draw, s.now, NO_FAULTS);
      (Sys(w, s.now), Minted(r))
    case ValidateCmd(token) =>
      var (w, r) := Validate(hashToken, s.w, cfg, token, s.now, NO_FAULTS);
      (Sys(w, s.now), Validated(r))
    case RevokeCmd(id, hash) =>
      var (w, r) := RevokeOne(s.w, cfg, id, hash, s.now, NO_FAULTS);
      (Sys(w, s.now), Revoked(r))
    case RevokeUserCmd(user) =>
      var (w, r) := RevokeAll(s.w, cfg, user, s.now, NO_FAULTS);
      (Sys(w, s.now), RevokedAll(r))
    case RotateCmd(id, hash, req, draw) =>
      var (w, r) := Rotate(hashToken, s.w, cfg, id, hash, req, draw, s.now, s.now, NO_FAULTS, NO_FAULTS);
      (Sys(w, s.now), Minted(r))
    case SweepCmd(olderThan) => (Sys(s.w.(rows := Sweep(s.w.rows, olderThan)), s.now), Quiet)
  }

  /** Callers revoke a session under its own token hash, and the sweeper's
      horizon lies in the past. */
  ghost predicate Legal(s: Sys, cmd: Command) {
    match cmd
    case RevokeCmd(id, hash) => id in s.w.rows ==> s.w.rows[id].tokenHash == hash
    case RotateCmd(id, hash, _, _) => id in s.w.rows ==> s.w.rows[id].tokenHash == hash
    case SweepCmd(olderThan) => olderThan <= s.now
    case _ => true
  }

  ghost function Run(hashToken: string -> string, cfg: Config, s: Sys, cmds: seq<Command>): seq<Reply>
    decreases |cmds|
  {
    if cmds == [] then []
    else
      var (s', r) := Step(hashToken, cfg, s, cmds[0]);
      [r] + Run(hashToken, cfg, s', cmds[1..])
  }

  ghost predicate LegalRun(hashToken: string -> string, cfg: Config, s: Sys, cmds: seq<Command>)
    decreases |cmds|
  {
    cmds != [] ==>
      Legal(s, cmds[0]) && LegalRun(hashToken, cfg, Step(hashToken, cfg, s, cmds[0]).0, cmds[1..])
  }

  // ----- the simulation relation -----

  predicate SameRow(a: Session, b: Session) {
    a.(lastSeenAt := 0) == b.(lastSeenAt := 0)
  }

  ghost predicate SameRows(a: Rows, b: Rows) {
    a.Keys == b.Keys && forall id | id in a :: SameRow(a[id], b[id])
  }

  /** An entry that can still be served is a copy of a row of the table. */
  predicate EntryOk(rows: Rows, hash: string, e: Entry, now: int) {
    now <= e.expires ==>
      && e.value.sessionTokenHash == hash
      && e.value.revokedAt.None?
      && e.expires <= e.value.expiresAt
      && e.value.id in rows
      && Same(rows[e.value.id], ToSession(e.value))
  }

  ghost predicate Coherent(w: World, now: int) {
    forall h | h in w.entries :: EntryOk(w.rows, h, w.entries[h], now)
  }

  ghost predicate RowsAgree(a: Rows, b: Rows) {
    WellFormed(a) && WellFormed(b) && SameRows(a, b)
  }

  ghost predicate Agree(c: Sys, p: Sys) {
    c.now == p.now && RowsAgree(c.w.rows, p.w.rows) && Coherent(c.w, c.now)
  }

  predicate SameReply(a: Reply, b: Reply) {
    match (a, b)
    case (Validated(Ok(s)), Validated(Ok(t))) => Same(s, t)
    case _ => a == b
  }

  // ----- the two tables -----

  lemma RevokedRowsAgree(a: Rows, b: Rows, ids: set<string>, now: int)
    requires RowsAgree(a, b)
    ensures RowsAgree(Revoke(a, ids, now), Revoke(b, ids, now))
  {
    RevokeKeepsWellFormed(a, ids, now);
    RevokeKeepsWellFormed(b, ids, now);
  }

  lemma TouchedRowsAgree(a: Rows, b: Rows, id: string, now: int)
    requires RowsAgree(a, b)
    ensures RowsAgree(Touch(a, id, now), b)
    ensures RowsAgree(a, Touch(b, id, now))
  {
    TouchKeepsWellFormed(a, id, now);
    TouchKeepsWellFormed(b, id, now);
  }

  lemma SweptRowsAgree(a: Rows, b: Rows, olderThan: int)
    requires RowsAgree(a, b)
    ensures RowsAgree(Sweep(a, olderThan), Sweep(b, olderThan))
  {
    SweepKeepsWellFormed(a, olderThan);
    SweepKeepsWellFormed(b, olderThan);
  }

  lemma SameLive(a: Rows, b: Rows, user: string, now: int)
    requires SameRows(a, b)
    ensures LiveOf(a, user, now) == LiveOf(b, user, now)
  {
  }

  lemma SameExcess(a: Rows, b: Rows, user: string, cap: int, now: int)
    requires SameRows(a, b)
    ensures Excess(a, user, cap, now) == Excess(b, user, cap, now)
  {
    SameLive(a, b, user, now);
    var others := LiveOf(a, user, now);
    forall id | id in others
      ensures OlderIn(a, others, id) == OlderIn(b, others, id)
    {
    }
  }

  lemma InsertedRowsAgree(a: Rows, b: Rows, s: Session)
    requires RowsAgree(a, b) && Required(s) && !Collides(a, s)
    ensures RowsAgree(a[s.id := s], b[s.id := s])
  {
  }

  lemma CreatedRowsAgree(a: Rows, b: Rows, s: Session, cap: int, now: int)
    requires RowsAgree(a, b)
    ensures
      match (CreateEnforcingCap(a, s, cap, now), CreateEnforcingCap(b, s, cap, now))
      case (Created(ar, asaved, arevoked), Created(br, bsaved, brevoked)) =>
        RowsAgree(ar, br) && asaved == bsaved && arevoked == brevoked
      case (CreateFailed(e), CreateFailed(d)) => e == d
      case _ => false
  {
    assert Collides(a, s) == Collides(b, s);
    if Required(s) && !Collides(a, s) {
      SameExcess(a, b, s.userId, cap, now);
      var revoked := Excess(a, s.userId, cap, now);
      RevokedRowsAgree(a, b, revoked, now);
      assert !Collides(Revoke(a, revoked, now), Stamped(s, now));
      InsertedRowsAgree(Revoke(a, revoked, now), Revoke(b, revoked, now), Stamped(s, now));
    }
  }

  lemma SameFind(a: Rows, b: Rows, hash: string)
    requires RowsAgree(a, b)
    ensures
      match (FindByHash(a, hash), FindByHash(b, hash))
      case (Some(s), Some(t)) => SameRow(s, t) && s.id in a && a[s.id] == s
      case (None, None) => true
      case _ => false
  {
  }

  // ----- the cache against the table -----

  /** Revoking rows and evicting their hashes keeps the rest coherent. */
  lemma RevokeKeepsCoherent(w: World, ids: set<string>, hashes: set<string>, now: int)
    requires Coherent(w, now)
    requires forall id | id in ids && id in w.rows :: w.rows[id].tokenHash in hashes
    ensures Coherent(World(Revoke(w.rows, ids, now), Evict(w.entries, hashes)), now)
  {
  }

  lemma EvictKeepsCoherent(w: World, hashes: set<string>, now: int)
    requires Coherent(w, now)
    ensures Coherent(w.(entries := Evict(w.entries, hashes)), now)
  {
  }

  lemma PutKeepsCoherent(w: World, s: Session, now: int)
    requires Coherent(w, now)
    requires s.id in w.rows && Same(w.rows[s.id], s) && s.revokedAt.None?
    ensures Coherent(World(w.rows, PutAt(w.entries, s, now, now)), now)
  {
    CacheRoundTrip(s);
  }

  lemma ReadKeepsCoherent(w: World, s: Session, now: int)
    requires Coherent(w, now)
    requires s.id in w.rows && w.rows[s.id] == s && s.revokedAt.None?
    ensures Coherent(World(Touch(w.rows, s.id, now), PutAt(w.entries, s.(lastSeenAt := now), now, now)), now)
    ensures s.id != "" || Coherent(World(w.rows, PutAt(w.entries, s.(lastSeenAt := now), now, now)), now)
  {
    var touched := w.(rows := Touch(w.rows, s.id, now));
    assert Coherent(touched, now);
    PutKeepsCoherent(touched, s.(lastSeenAt := now), now);
    PutKeepsCoherent(w, s.(lastSeenAt := now), now);
  }

  lemma InsertKeepsCoherent(w: World, s: Session, now: int)
    requires Coherent(w, now) && s.id !in w.rows
    ensures Coherent(w.(rows := w.rows[s.id := s]), now)
  {
  }

  /** What is swept has expired from the cache, or was evicted when revoked. */
  lemma SweepKeepsCoherent(w: World, olderThan: int, now: int)
    requires Coherent(w, now) && olderThan <= now
    ensures Coherent(w.(rows := Sweep(w.rows, olderThan)), now)
  {
  }

  // ----- one command -----

  lemma MintAgrees(hashToken: string -> string, cfg: Config, c: Sys, p: Sys, req: MintRequest, draw: Draw)
    requires cfg.cached && Agree(c, p)
    ensures
      var (cw, cr) := Mint(hashToken, c.w, cfg, req, draw, c.now, NO_FAULTS);
      var (pw, pr) := Mint(hashToken, p.w, cfg.(cached := false), req, draw, p.now, NO_FAULTS);
      Agree(Sys(cw, c.now), Sys(pw, p.now)) && cr == pr
  {
    hide SameRows, Coherent, WellFormed, CreateEnforcingCap, PutAt, Evict, HashSet;
    var now := c.now;
    var s := NewSession(hashToken, cfg, req, draw, now);
    CreatedRowsAgree(c.w.rows, p.w.rows, s, cfg.sessionsPerUser, now);
    var created := CreateEnforcingCap(c.w.rows, s, cfg.sessionsPerUser, now);
    if created.Created? {
      MintKeepsCoherent(c.w, s, cfg.sessionsPerUser, now);
    }
  }

  /** Put before evict, as the manager does it. */
  lemma MintKeepsCoherent(w: World, s: Session, cap: int, now: int)
    requires WellFormed(w.rows) && Coherent(w, now)
    requires CreateEnforcingCap(w.rows, s, cap, now).Created?
    ensures
      var c := CreateEnforcingCap(w.rows, s, cap, now);
      Coherent(World(c.rows, Evict(PutAt(w.entries, c.saved, now, now), HashSet(w.rows, c.revoked) - {""} - {})), now)
  {
    hide Coherent, OlderThanRest, Excess;
    var c := CreateEnforcingCap(w.rows, s, cap, now);
    MintRevokesOldestExcess(w.rows, s, cap, now);
    var hashes := HashSet(w.rows, c.revoked);
    RevokeKeepsCoherent(w, c.revoked, hashes, now);
    var evicted := World(Revoke(w.rows, c.revoked, now), Evict(w.entries, hashes));
    InsertKeepsCoherent(evicted, c.saved, now);
    PutKeepsCoherent(World(c.rows, evicted.entries), c.saved, now);
    assert s.tokenHash !in hashes;
    assert Evict(PutAt(w.entries, c.saved, now, now), hashes - {""} - {}) == PutAt(evicted.entries, c.saved, now, now);
  }

  lemma ValidateAgrees(hashToken: string -> string, cfg: Config, c: Sys, p: Sys, token: string)
    requires cfg.cached && Agree(c, p)
    ensures
      var (cw, cr) := Validate(hashToken, c.w, cfg, token, c.now, NO_FAULTS);
      var (pw, pr) := Validate(hashToken, p.w, cfg.(cached := false), token, p.now, NO_FAULTS);
      Agree(Sys(cw, c.now), Sys(pw, p.now)) && SameReply(Validated(cr), Validated(pr))
  {
    hide SameRows, Coherent, PutAt, WellFormed;
    var now := c.now;
    var hash := hashToken(token);
    SameFind(c.w.rows, p.w.rows, hash);
    var found := FindByHash(c.w.rows, hash);
    if found.Some? {
      var id := found.value.id;
      TouchedRowsAgree(c.w.rows, p.w.rows, id, now);
      TouchedRowsAgree(Touch(c.w.rows, id, now), p.w.rows, id, now);
      if found.value.Live(now) {
        ReadKeepsCoherent(c.w, found.value, now);
      }
    }
    var hit := Lookup(c.w.entries, hash, now);
    if hit.Some? {
      EntryFindsRow(c.w, hash, now);
      EvictKeepsCoherent(c.w, {hash} - {}, now);
    }
  }

  /** What the cache serves is what the table holds. */
  lemma EntryFindsRow(w: World, hash: string, now: int)
    requires WellFormed(w.rows) && Coherent(w, now) && Lookup(w.entries, hash, now).Some?
    ensures FindByHash(w.rows, hash).Some?
    ensures Same(FindByHash(w.rows, hash).value, Lookup(w.entries, hash, now).value)
  {
    var e := w.entries[hash];
    assert w.rows[e.value.id].tokenHash == hash;
  }

  lemma RowsNeedHash(rows: Rows, id: string)
    requires WellFormed(rows)
    ensures id in rows ==> rows[id].tokenHash != ""
  {
  }

  lemma RevokeAgrees(cfg: Config, c: Sys, p: Sys, id: string, hash: string)
    requires cfg.cached && Agree(c, p)
    requires id in c.w.rows ==> c.w.rows[id].tokenHash == hash
    ensures
      var (cw, cr) := RevokeOne(c.w, cfg, id, hash, c.now, NO_FAULTS);
      var (pw, pr) := RevokeOne(p.w, cfg.(cached := false), id, hash, p.now, NO_FAULTS);
      Agree(Sys(cw, c.now), Sys(pw, p.now)) && cr == pr
  {
    hide SameRows, Coherent, WellFormed, Revoke;
    RevokedRowsAgree(c.w.rows, p.w.rows, {id}, c.now);
    if hash == "" {
      RowsNeedHash(c.w.rows, id);
      RevokeKeepsCoherent(c.w, {id}, {}, c.now);
      assert Evict(c.w.entries, {}) == c.w.entries;
    } else {
      RevokeKeepsCoherent(c.w, {id}, {hash} - {}, c.now);
    }
  }

  lemma RevokeAllAgrees(cfg: Config, c: Sys, p: Sys, user: string)
    requires cfg.cached && Agree(c, p)
    ensures
      var (cw, cr) := RevokeAll(c.w, cfg, user, c.now, NO_FAULTS);
      var (pw, pr) := RevokeAll(p.w, cfg.(cached := false), user, p.now, NO_FAULTS);
      Agree(Sys(cw, c.now), Sys(pw, p.now)) && cr == pr
  {
    if user != "" {
      SameLive(c.w.rows, p.w.rows, user, c.now);
      RevokeAllAlone(c.w, cfg, user, c.now, NO_FAULTS);
      RevokeAllAlone(p.w, cfg.(cached := false), user, p.now, NO_FAULTS);
      var live := LiveOf(c.w.rows, user, c.now);
      HashesAreKnown(c.w.rows, live);
      hide SameRows, Coherent, WellFormed, Revoke, LiveOf, HashSet, RevokeAll, Evict;
      RevokedRowsAgree(c.w.rows, p.w.rows, live, c.now);
      RevokeKeepsCoherent(c.w, live, HashSet(c.w.rows, live) - {""} - {}, c.now);
    }
  }

  lemma HashesAreKnown(rows: Rows, ids: set<string>)
    requires WellFormed(rows) && ids <= rows.Keys
    ensures forall id | id in ids :: rows[id].tokenHash in HashSet(rows, ids) - {""} - {}
  {
  }

  lemma StepAgrees(hashToken: string -> string, cfg: Config, c: Sys, p: Sys, cmd: Command)
    requires cfg.cached && Agree(c, p) && Legal(p, cmd)
    ensures
      var (c', cr) := Step(hashToken, cfg, c, cmd);
      var (p', pr) := Step(hashToken, cfg.(cached := false), p, cmd);
      Agree(c', p') && SameReply(cr, pr)
  {
    match cmd
    case Tick(dt) =>
    case MintCmd(req, draw) => MintAgrees(hashToken, cfg, c, p, req, draw);
    case ValidateCmd(token) => ValidateAgrees(hashToken, cfg, c, p, token);
    case RevokeCmd(id, hash) => RevokeAgrees(cfg, c, p, id, hash);
    case RevokeUserCmd(user) => RevokeAllAgrees(cfg, c, p, user);
    case RotateCmd(id, hash, req, draw) =>
      RevokeAgrees(cfg, c, p, id, hash);
      var cw := RevokeOne(c.w, cfg, id, hash, c.now, NO_FAULTS).0;
      var pw := RevokeOne(p.w, cfg.(cached := false), id, hash, p.now, NO_FAULTS).0;
      MintAgrees(hashToken, cfg, Sys(cw, c.now), Sys(pw, p.now), req, draw);
    case SweepCmd(olderThan) =>
      SweptRowsAgree(c.w.rows, p.w.rows, olderThan);
      SweepKeepsCoherent(c.w, olderThan, c.now);
  }

  // ----- whole runs -----

  lemma {:induction false} RunsAgree(hashToken: string -> string, cfg: Config, c: Sys, p: Sys, cmds: seq<Command>)
    requires cfg.cached && Agree(c, p)
    requires LegalRun(hashToken, cfg.(cached := false), p, cmds)
    ensures
      var cs := Run(hashToken, cfg, c, cmds);
      var ps := Run(hashToken, cfg.(cached := false), p, cmds);
      |cs| == |ps| == |cmds| && forall i | 0 <= i < |cmds| :: SameReply(cs[i], ps[i])
    decreases |cmds|
  {
    hide Step, Agree;
    if cmds != [] {
      StepAgrees(hashToken, cfg, c, p, cmds[0]);
      var c' := Step(hashToken, cfg, c, cmds[0]).0;
      var p' := Step(hashToken, cfg.(cached := false), p, cmds[0]).0;
      RunsAgree(hashToken, cfg, c', p', cmds[1..]);
    }
  }

  /** From an empty table, every legal run is answered alike with and without a cache. */
  lemma CacheIsInvisible(hashToken: string -> string, cfg: Config, start: int, cmds: seq<Command>)
    requires cfg.cached
    requires LegalRun(hashToken, cfg.(cached := false), Sys(World(map[], map[]), start), cmds)
    ensures
      var s := Sys(World(map[], map[]), start);
      var cs := Run(hashToken, cfg, s, cmds);
      var ps := Run(hashToken, cfg.(cached := false), s, cmds);
      |cs| == |ps| == |cmds| && forall i | 0 <= i < |cmds| :: SameReply(cs[i], ps[i])
  {
    var s := Sys(World(map[], map[]), start);
    RunsAgree(hashToken, cfg, s, s, cmds);
  }

  /** The legality of revocations and the absence of faults are needed. After RevokeSession
      on a cached live session the cached manager rejects the token exactly if the caller
      passed that session's own hash and its Del went through, or if this very
      lookup misses because the cache fails. The cache-less manager rejects it anyway. */
  lemma RevokeUnderOtherHash(hashToken: string -> string, cfg: Config, c: Sys, p: Sys,
                             id: string, hash: string, token: string, f: Faults, g: Faults)
    requires cfg.cached && Agree(c, p) && token != "" && id != "" && !f.store
    requires id in c.w.rows && c.w.rows[id].Live(c.now) && c.w.rows[id].tokenHash == hashToken(token)
    requires Lookup(c.w.entries, hashToken(token), c.now).Some?
    ensures
      var cw := RevokeOne(c.w, cfg, id, hash, c.now, f).0;
      var pw := RevokeOne(p.w, cfg.(cached := false), id, hash, p.now, f).0;
      && Validate(hashToken, pw, cfg.(cached := false), token, p.now, g).1.Err?
      && (Validate(hashToken, cw, cfg, token, c.now, g).1.Err?
          <==> (hash == hashToken(token) && hash !in f.cacheDel) || g.cacheGet)
  {
    hide SameRows, Coherent, Evict;
    var h := hashToken(token);
    var row := c.w.rows[id].(revokedAt := Some(c.now));
    RevokedRowsAgree(c.w.rows, p.w.rows, {id}, c.now);
    EntryFindsRow(c.w, h, c.now);
    SameFind(Revoke(c.w.rows, {id}, c.now), Revoke(p.w.rows, {id}, c.now), h);
    assert Revoke(c.w.rows, {id}, c.now)[id] == row;
    assert FindByHash(Revoke(c.w.rows, {id}, c.now), h).value == row;
    LookupAfterEvict(c.w.entries, h, hash, f.cacheDel, c.now);
  }

  lemma LookupAfterEvict(entries: Entries, h: string, hash: string, failing: set<string>, now: int)
    requires Lookup(entries, h, now).Some?
    ensures Lookup(Evict(entries, {hash} - failing), h, now)
            == if h == hash && hash !in failing then None else Lookup(entries, h, now)
  {
  }
}
