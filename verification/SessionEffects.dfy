/** What the session operations come to in plain terms: which sessions the cap takes, what a
    new session carries, and what its token is then good for. */
module SessionEffects {
  import opened Wrappers
  import opened Lexicographic
  import opened SessionModel
  import opened SessionStore
  import opened SessionCache
  import opened SessionManager
  import opened SessionInterleaving
  import opened SessionSteps

  // ----- the oldest go first -----

  /** No step changes whose row it is, when it was made or when it expires, and none brings
      back an id. */
  ghost predicate RowsStay(s: State, t: State) {
    && s.issued <= t.issued
    && forall id | id in t.rows ::
         if id in s.rows then
           && t.rows[id].createdAt == s.rows[id].createdAt && t.rows[id].userId == s.rows[id].userId
           && t.rows[id].expiresAt == s.rows[id].expiresAt
         else id !in s.issued
  }

  lemma InsertRowsStay(cfg: Config, s: State, pid: nat, r: Request)
    requires r.Inserting?
    ensures RowsStay(s, CallInserting(cfg, s, pid, r))
    ensures forall id | id in CallInserting(cfg, s, pid, r).issued && id !in s.issued ::
              id in CallInserting(cfg, s, pid, r).rows && CallInserting(cfg, s, pid, r).rows[id].createdAt == s.now
  {
    var c := CreateEnforcingCap(s.rows, r.draft, cfg.sessionsPerUser, s.now);
    if c.Created? {
      CreatedRowsStay(s.rows, r.draft, cfg.sessionsPerUser, s.now);
    }
    hide CreateEnforcingCap, HashSet;
  }

  lemma CreatedRowsStay(rows: Rows, draft: Session, cap: int, now: int)
    requires CreateEnforcingCap(rows, draft, cap, now).Created?
    ensures
      var after := CreateEnforcingCap(rows, draft, cap, now).rows;
      && draft.id in after && after[draft.id].createdAt == now
      && forall id | id in after ::
           if id in rows then
             && after[id].createdAt == rows[id].createdAt && after[id].userId == rows[id].userId
             && after[id].expiresAt == rows[id].expiresAt
           else id == draft.id
  {
    CreateIs(rows, draft, cap, now);
    hide CreateEnforcingCap;
  }

  ghost predicate SameTable(s: State, t: State) {
    t.rows == s.rows && t.issued == s.issued && t.now == s.now
  }

  lemma QuietCalls(s: State, pid: nat, r: Request, ok: bool, pick: string)
    requires s.history != []
    ensures r.Looking? ==> SameTable(s, CallLooking(s, pid, r, ok))
    ensures r.Reading? ==> SameTable(s, CallReading(s, pid, r))
    ensures r.RevokingUser? ==> SameTable(s, CallRevokingUser(s, pid, r))
    ensures r.Evicting? ==> SameTable(s, CallEvicting(s, pid, r, ok, pick))
  {
    hide Lookup, FindByHash, LiveOf, HashSet, Evict;
  }

  lemma RevokingRowsStay(s: State, pid: nat, r: Request)
    ensures r.Revoking? ==> RowsStay(s, CallRevoking(s, pid, r)) && CallRevoking(s, pid, r).issued == s.issued
                            && CallRevoking(s, pid, r).now == s.now
    ensures r.UpdatingUser? ==>
              && RowsStay(s, CallUpdatingUser(s, pid, r)) && CallUpdatingUser(s, pid, r).issued == s.issued
              && CallUpdatingUser(s, pid, r).now == s.now
  {
    hide LiveOf, HashSet;
  }

  lemma PutQuiet(s: State, session: Session, at: int, readStep: nat, ok: bool)
    ensures SameTable(s, Put(s, session, at, readStep, ok))
  {
    hide PutAt, PutTtl;
  }

  lemma CallRowsStay(cfg: Config, s: State, pid: nat, ok: bool, pick: string)
    requires s.history != []
    ensures
      var t := NextCall(cfg, s, pid, ok, pick);
      && RowsStay(s, t) && t.now == s.now
      && forall id | id in t.issued && id !in s.issued :: id in t.rows && t.rows[id].createdAt == s.now
  {
    hide CallInserting, CallLooking, CallReading, CallRevoking, CallRevokingUser, CallUpdatingUser, CallEvicting, Put;
    if pid in s.requests {
      var r := s.requests[pid];
      QuietCalls(s, pid, r, ok, pick);
      RevokingRowsStay(s, pid, r);
      match r
      case Inserting(_, _, _) => InsertRowsStay(cfg, s, pid, r); InsertClock(cfg, s, pid, r);
      case Storing(_, at, v, k) => PutQuiet(s, v, at, k, ok);
      case Caching(v, at, k, _) => PutQuiet(s, v, at, k, ok);
      case _ =>
    }
  }

  lemma InsertClock(cfg: Config, s: State, pid: nat, r: Request)
    requires r.Inserting?
    ensures CallInserting(cfg, s, pid, r).now == s.now
  {
    hide CreateEnforcingCap;
  }

  lemma ApplyRowsStay(cfg: Config, s: State, a: Action)
    requires s.history != []
    ensures
      var t := Apply(cfg, s, a);
      && RowsStay(s, t)
      && forall id | id in t.issued && id !in s.issued ::
           id in t.rows && t.rows[id].createdAt == s.now && t.now == s.now
  {
    hide NextCall;
    if a.Call? {
      CallRowsStay(cfg, s, a.pid, a.ok, a.pick);
    }
  }

  lemma {:induction false} RowsStayLong(cfg: Config, actions: seq<Action>, i: nat, j: nat)
    requires i <= j <= |actions|
    ensures RowsStay(Exec(cfg, actions[..i]), Exec(cfg, actions[..j]))
    decreases j
  {
    hide Apply, Exec;
    if i < j {
      RowsStayLong(cfg, actions, i, j - 1);
      ExecStep(cfg, actions, j - 1);
      ApplyRowsStay(cfg, Exec(cfg, actions[..j - 1]), actions[j - 1]);
      RowsAreIssued(cfg, actions[..i]);
    }
  }

  lemma RowsAreIssued(cfg: Config, actions: seq<Action>)
    ensures Exec(cfg, actions).rows.Keys <= Exec(cfg, actions).issued
  {
    Reachable(cfg, actions);
  }

  /** The i-th action of the run inserts the session `id`. */
  ghost predicate Inserts(cfg: Config, actions: seq<Action>, i: nat, id: string) {
    i < |actions| && id !in Exec(cfg, actions[..i]).issued && id in Exec(cfg, actions[..i + 1]).issued
  }

  lemma StampOfInsert(cfg: Config, actions: seq<Action>, i: nat, n: nat, id: string)
    requires Inserts(cfg, actions, i, id) && i < n <= |actions| && id in Exec(cfg, actions[..n]).rows
    ensures Exec(cfg, actions[..n]).rows[id].createdAt == Exec(cfg, actions[..i]).now
  {
    ExecStep(cfg, actions, i);
    hide Exec, Apply;
    ApplyRowsStay(cfg, Exec(cfg, actions[..i]), actions[i]);
    RowsStayLong(cfg, actions, i + 1, n);
  }

  /** A mint that revokes one session of a user and leaves another. */
  lemma CreateTakesOlder(rows: Rows, draft: Session, cap: int, now: int, a: string, b: string)
    requires WellFormed(rows) && CreateEnforcingCap(rows, draft, cap, now).Created?
    requires a in rows && b in rows && rows[a].userId == rows[b].userId && rows[a].Live(now) && rows[b].Live(now)
    requires
      var after := CreateEnforcingCap(rows, draft, cap, now).rows;
      (a in after ==> after[a].Live(now)) && (b in after ==> !after[b].Live(now))
    ensures
      || rows[b].createdAt < rows[a].createdAt
      || (rows[b].createdAt == rows[a].createdAt && StringLess(rows[b].id, rows[a].id))
  {
    var c := CreateEnforcingCap(rows, draft, cap, now);
    CreateIs(rows, draft, cap, now);
    MintRevokesOldestExcess(rows, draft, cap, now);
    hide CreateEnforcingCap, StringLess;
    assert b in c.revoked && a !in c.revoked;
    assert a in LiveOf(rows, draft.userId, now);
    assert Older(rows[b], rows[a]);
  }

  lemma MintTakesOlder(cfg: Config, s: State, pid: nat, ok: bool, pick: string, a: string, b: string)
    requires s.history != [] && WellFormed(s.rows) && pid in s.requests && s.requests[pid].Inserting?
    requires LiveIn(s, b) && LiveIn(s, a) && s.rows[a].userId == s.rows[b].userId
    requires
      var t := Apply(cfg, s, Call(pid, ok, pick));
      !LiveIn(t, b) && LiveIn(t, a)
    ensures
      || s.rows[b].createdAt < s.rows[a].createdAt
      || (s.rows[b].createdAt == s.rows[a].createdAt && StringLess(s.rows[b].id, s.rows[a].id))
  {
    var r := s.requests[pid];
    CallIs(cfg, s, pid, ok, pick);
    CreateIs(s.rows, r.draft, cfg.sessionsPerUser, s.now);
    hide Apply, CreateEnforcingCap, HashSet, StringLess, WellFormed;
    var c := CreateEnforcingCap(s.rows, r.draft, cfg.sessionsPerUser, s.now);
    if c.Created? && r.draft.id !in s.issued {
      CreateTakesOlder(s.rows, r.draft, cfg.sessionsPerUser, s.now, a, b);
    }
  }

  lemma LiveWas(s: State, t: State, id: string)
    requires id in s.issued && RowsStay(s, t) && s.now <= t.now && (Dead(s, id) ==> Dead(t, id)) && LiveIn(t, id)
    ensures LiveIn(s, id)
  {
  }

  lemma NextState(cfg: Config, actions: seq<Action>, k: nat)
    requires k < |actions|
    ensures
      var s, t := Exec(cfg, actions[..k]), Exec(cfg, actions[..k + 1]);
      s.now <= t.now && RowsStay(s, t) && forall id | Dead(s, id) :: Dead(t, id)
  {
    RowsStayLong(cfg, actions, k, k + 1);
    DeadStays(cfg, actions, k, k + 1);
    ExecStep(cfg, actions, k);
    Reachable(cfg, actions[..k]);
    hide Exec, Inv, Apply, RowsStay;
    ApplyKeepsInv(cfg, Exec(cfg, actions[..k]), actions[k]);
  }

  /** A session that is live after a step was so before it, unless the step made it. */
  lemma LiveBefore(cfg: Config, actions: seq<Action>, i: nat, k: nat, id: string)
    requires Inserts(cfg, actions, i, id) && i < k < |actions| && LiveIn(Exec(cfg, actions[..k + 1]), id)
    ensures LiveIn(Exec(cfg, actions[..k]), id)
  {
    hide Exec, LiveIn, Dead;
    NextState(cfg, actions, k);
    RowsStayLong(cfg, actions, i + 1, k);
    hide RowsStay;
    assert id in Exec(cfg, actions[..k]).issued by { StaysIssued(cfg, actions, i + 1, k, id); }
    LiveWas(Exec(cfg, actions[..k]), Exec(cfg, actions[..k + 1]), id);
  }

  lemma StaysIssued(cfg: Config, actions: seq<Action>, i: nat, k: nat, id: string)
    requires i <= k <= |actions| && id in Exec(cfg, actions[..i]).issued
    ensures id in Exec(cfg, actions[..k]).issued
  {
    DeadStays(cfg, actions, i, k);
  }

  lemma RowsHaveIds(cfg: Config, actions: seq<Action>)
    ensures
      var s := Exec(cfg, actions);
      s.history != [] && WellFormed(s.rows) && forall id | id in s.rows :: s.rows[id].id == id
  {
    Reachable(cfg, actions);
  }

  lemma LessOneWay(a: string, b: string)
    requires StringLess(a, b)
    ensures !StringLess(b, a)
  {
    StringOrder();
  }

  /** Of two sessions of one user the one inserted first goes first: no later mint revokes
      the second while the first stays live. At one instant the lesser id counts as first. */
  lemma OldestGoFirst(cfg: Config, actions: seq<Action>, i: nat, j: nat, k: nat, a: string, b: string)
    requires Inserts(cfg, actions, i, a) && Inserts(cfg, actions, j, b) && i < k && j < k < |actions|
    requires
      var first, second := Exec(cfg, actions[..i]).now, Exec(cfg, actions[..j]).now;
      first < second || (first == second && StringLess(a, b))
    requires
      var s := Exec(cfg, actions[..k]);
      && actions[k].Call? && actions[k].pid in s.requests && s.requests[actions[k].pid].Inserting?
      && LiveIn(s, b) && (a in s.rows ==> s.rows[a].userId == s.rows[b].userId)
      && !LiveIn(Exec(cfg, actions[..k + 1]), b)
    ensures !LiveIn(Exec(cfg, actions[..k + 1]), a)
  {
    hide Exec, Apply, WellFormed, StringLess, Inserts, Inv;
    var s := Exec(cfg, actions[..k]);
    if LiveIn(Exec(cfg, actions[..k + 1]), a) {
      LiveBefore(cfg, actions, i, k, a);
      RowsHaveIds(cfg, actions[..k]);
      ExecStep(cfg, actions, k);
      StampOfInsert(cfg, actions, i, k, a);
      StampOfInsert(cfg, actions, j, k, b);
      MintTakesOlder(cfg, s, actions[k].pid, actions[k].ok, actions[k].pick, a, b);
      if StringLess(a, b) {
        LessOneWay(a, b);
      }
    }
  }

  // ----- what a new session carries -----

  lemma MintCreates(hashToken: string -> string, w: World, cfg: Config, req: MintRequest, draw: Draw, now: int,
                    f: Faults)
    requires Mint(hashToken, w, cfg, req, draw, now, f).1.Ok?
    ensures !f.store && !draw.failed
    ensures CreateEnforcingCap(w.rows, NewSession(hashToken, cfg, req, draw, now), cfg.sessionsPerUser, now).Created?
  {
    hide CreateEnforcingCap;
  }

  /** A mint that succeeds answers with everything that was asked for, in a row of its own. */
  lemma MintCarries(hashToken: string -> string, w: World, cfg: Config, req: MintRequest, draw: Draw, now: int,
                    f: Faults)
    requires Mint(hashToken, w, cfg, req, draw, now, f).1.Ok?
    ensures
      var (w', r) := Mint(hashToken, w, cfg, req, draw, now, f);
      && r.value.session == Session(
           draw.id, req.userId, req.organizationId, req.authMode, hashToken(draw.token), now, now + cfg.ttl, None, now,
           req.ip, if req.userAgent == "" then "" else hashToken(req.userAgent), req.idTokenEncrypted)
      && r.value.plaintextToken == draw.token && r.value.expiresAt == now + cfg.ttl
      && draw.id !in w.rows && w'.rows.Keys == w.rows.Keys + {draw.id} && w'.rows[draw.id] == r.value.session
  {
    MintCreates(hashToken, w, cfg, req, draw, now, f);
    CreateIs(w.rows, NewSession(hashToken, cfg, req, draw, now), cfg.sessionsPerUser, now);
    hide CreateEnforcingCap, PutAt, Evict, HashSet;
  }

  /** When a mint is refused, and with what; nothing changes then. */
  lemma MintRefuses(hashToken: string -> string, w: World, cfg: Config, req: MintRequest, draw: Draw, now: int,
                    f: Faults)
    ensures
      var (w', r) := Mint(hashToken, w, cfg, req, draw, now, f);
      var blank := req.userId == "" || req.organizationId == "" || req.authMode == "";
      && (blank ==> r == Err(ArgumentRequired))
      && (!blank && draw.failed ==> r == Err(NoEntropy))
      && (!blank && !draw.failed && f.store ==>
            r == Err(StoreFailed(FieldRequired)) || r == Err(StoreFailed(Unavailable)))
      && (!blank && !draw.failed && f.store && draw.id != "" && hashToken(draw.token) != "" && now + cfg.ttl != 0 ==>
            r == Err(StoreFailed(Unavailable)))
      && (r.Err? ==> w' == w)
  {
    hide CreateEnforcingCap, PutAt, Evict, HashSet;
  }

  /** A rotation that succeeds: the same for the new session, and the old one is revoked. */
  lemma RotateCarries(hashToken: string -> string, w: World, cfg: Config, id: string, hash: string, req: MintRequest,
                      draw: Draw, now: int, now': int, mid: Faults, f: Faults)
    requires Rotate(hashToken, w, cfg, id, hash, req, draw, now, now', mid, f).1.Ok?
    ensures
      var (w', r) := Rotate(hashToken, w, cfg, id, hash, req, draw, now, now', mid, f);
      && id != ""
      && r.value.session == Session(
           draw.id, req.userId, req.organizationId, req.authMode, hashToken(draw.token), now', now' + cfg.ttl, None,
           now', req.ip, if req.userAgent == "" then "" else hashToken(req.userAgent), req.idTokenEncrypted)
      && r.value.plaintextToken == draw.token && r.value.expiresAt == now' + cfg.ttl
      && w'.rows.Keys == w.rows.Keys + {draw.id} && w'.rows[draw.id] == r.value.session
      && (id in w.rows ==> id != draw.id && w'.rows[id].revokedAt.Some?)
  {
    var revoked := RevokeOne(w, cfg, id, hash, now, mid).0;
    RevokesOne(w, cfg, id, hash, now, mid);
    MintCarries(hashToken, revoked, cfg, req, draw, now', f);
    MintCreates(hashToken, revoked, cfg, req, draw, now', f);
    CreateIs(revoked.rows, NewSession(hashToken, cfg, req, draw, now'), cfg.sessionsPerUser, now');
    hide Mint, CreateEnforcingCap, Revoke, Evict;
    if id in w.rows {
      RotatedRows(hashToken, revoked, cfg, req, draw, now', f, id);
    }
  }

  lemma RotatedRows(hashToken: string -> string, w: World, cfg: Config, req: MintRequest, draw: Draw, now: int,
                    f: Faults, id: string)
    requires Mint(hashToken, w, cfg, req, draw, now, f).1.Ok? && id in w.rows && w.rows[id].revokedAt.Some?
    ensures
      var rows := Mint(hashToken, w, cfg, req, draw, now, f).0.rows;
      id in rows && id != draw.id && rows[id].revokedAt.Some?
  {
    MintCreates(hashToken, w, cfg, req, draw, now, f);
    CreateIs(w.rows, NewSession(hashToken, cfg, req, draw, now), cfg.sessionsPerUser, now);
    hide CreateEnforcingCap, PutAt, Evict, HashSet;
  }

  /** A revocation in plain terms: the row is stamped unless it already is, no other row
      changes, and a missing id or a failing database leave everything alone. */
  lemma RevokesOne(w: World, cfg: Config, id: string, hash: string, now: int, f: Faults)
    ensures
      var (w', r) := RevokeOne(w, cfg, id, hash, now, f);
      && r == (if id == "" then Err(ArgumentRequired) else if f.store then Err(StoreFailed(Unavailable)) else Ok(()))
      && (r.Err? ==> w' == w)
      && w'.rows == (if r.Ok? && id in w.rows && w.rows[id].revokedAt.None?
                     then w.rows[id := w.rows[id].(revokedAt := Some(now))] else w.rows)
      && w'.entries == (if r.Ok? && cfg.cached && hash != "" && hash !in f.cacheDel then w.entries - {hash}
                        else w.entries)
  {
    var (w', r) := RevokeOne(w, cfg, id, hash, now, f);
    if r.Ok? {
      assert w'.rows == if id in w.rows && w.rows[id].revokedAt.None?
                        then w.rows[id := w.rows[id].(revokedAt := Some(now))] else w.rows;
      assert hash in f.cacheDel ==> w.entries - ({hash} - f.cacheDel) == w.entries;
      assert hash !in f.cacheDel ==> {hash} - f.cacheDel == {hash};
    }
  }

  /** A revoke-all in plain terms: it counts the sessions that the SELECT finds live, drops
      their entries as far as the Dels work, and revokes what is live by the UPDATE. */
  lemma RevokesAll(w: World, cfg: Config, user: string, now: int, f: Faults, committed: Rows)
    ensures
      var (w', r) := RevokeAll(w, cfg, user, now, f, committed);
      var seen := w.rows + committed;
      var live := set id | id in w.rows && w.rows[id].userId == user && w.rows[id].revokedAt.None?
                           && now < w.rows[id].expiresAt;
      && r == (if user == "" then Err(ArgumentRequired) else if f.store then Err(StoreFailed(Unavailable))
               else Ok(|live|))
      && (r.Err? ==> w' == w)
      && (r.Ok? ==>
            && w'.rows.Keys == seen.Keys
            && (forall id | id in seen ::
                  w'.rows[id] == if seen[id].userId == user && seen[id].revokedAt.None? && now < seen[id].expiresAt
                                 then seen[id].(revokedAt := Some(now)) else seen[id])
            && w'.entries == if cfg.cached
                             then map h | h in w.entries
                                          && (h == "" || h in f.cacheDel
                                              || forall id | id in live :: w.rows[id].tokenHash != h) :: w.entries[h]
                             else w.entries)
  {
    var live := set id | id in w.rows && w.rows[id].userId == user && w.rows[id].revokedAt.None?
                         && now < w.rows[id].expiresAt;
    assert live == LiveOf(w.rows, user, now);
    EvictedHashes(w.rows, live, w.entries, f.cacheDel);
  }

  lemma EvictedHashes(rows: Rows, ids: set<string>, entries: Entries, failing: set<string>)
    requires ids <= rows.Keys
    ensures Evict(entries, HashSet(rows, ids) - {""} - failing)
            == map h | h in entries && (h == "" || h in failing || forall id | id in ids :: rows[id].tokenHash != h) ::
                 entries[h]
  {
  }

  // ----- what its token is good for -----

  /** A validation in plain terms. From the cache comes what is cached there; from
      the table the live row with the token's hash, stamped as seen now if there is a cache
      to keep it. */
  lemma ValidatedIs(hashToken: string -> string, w: World, cfg: Config, token: string, now: int, f: Faults)
    requires WellFormed(w.rows) && Validate(hashToken, w, cfg, token, now, f).1.Ok?
    ensures
      var s := Validate(hashToken, w, cfg, token, now, f).1.value;
      && token != "" && s.revokedAt.None? && now < s.expiresAt
      && ((cfg.cached && !f.cacheGet && Some(s) == Lookup(w.entries, hashToken(token), now))
          || (!f.store && s.id in w.rows && w.rows[s.id].tokenHash == hashToken(token)
              && s == if cfg.cached then w.rows[s.id].(lastSeenAt := now) else w.rows[s.id]))
  {
    hide PutAt, Touch, Evict, Lookup;
  }

  lemma TableRow(rows: Rows, id: string, hash: string)
    requires WellFormed(rows) && id in rows && rows[id].tokenHash == hash
    ensures FindByHash(rows, hash) == Some(rows[id])
  {
  }

  lemma MintedEntry(hashToken: string -> string, w: World, cfg: Config, req: MintRequest, draw: Draw, now: int,
                    f: Faults, later: int)
    requires WellFormed(w.rows) && cfg.cached && Mint(hashToken, w, cfg, req, draw, now, f).1.Ok?
    requires hashToken(draw.token) !in w.entries
    ensures
      var (w', r) := Mint(hashToken, w, cfg, req, draw, now, f);
      var hit := Lookup(w'.entries, hashToken(draw.token), later);
      hit.Some? ==> hit.value == r.value.session.(idTokenEncrypted := "")
  {
    MintCreates(hashToken, w, cfg, req, draw, now, f);
    CreatedMint(hashToken, w, cfg, req, draw, now, f);
    CreateIs(w.rows, NewSession(hashToken, cfg, req, draw, now), cfg.sessionsPerUser, now);
    hide Mint, CreateEnforcingCap, HashSet, Excess;
    var saved := Mint(hashToken, w, cfg, req, draw, now, f).1.value.session;
    CacheRoundTrip(saved);
  }

  /** The token of a new session is good for it until it expires, whatever calls fail but the
      table's own: it validates to a session of the very user and organization that were
      asked for. */
  lemma MintedTokenValidates(hashToken: string -> string, w: World, cfg: Config, req: MintRequest, draw: Draw,
                             now: int, f: Faults, later: int, g: Faults)
    requires WellFormed(w.rows) && draw.token != "" && hashToken(draw.token) !in w.entries && !g.store
    requires Mint(hashToken, w, cfg, req, draw, now, f).1.Ok? && now <= later < now + cfg.ttl
    ensures
      var (w', r) := Mint(hashToken, w, cfg, req, draw, now, f);
      var v := Validate(hashToken, w', cfg, r.value.plaintextToken, later, g).1;
      && v.Ok? && v.value.id == draw.id && v.value.userId == req.userId
      && v.value.organizationId == req.organizationId && v.value.authMode == req.authMode && v.value.ip == req.ip
  {
    var (w', r) := Mint(hashToken, w, cfg, req, draw, now, f);
    MintCarries(hashToken, w, cfg, req, draw, now, f);
    MintCreates(hashToken, w, cfg, req, draw, now, f);
    CreateKeepsWellFormed(w.rows, NewSession(hashToken, cfg, req, draw, now), cfg.sessionsPerUser, now);
    CreatedMint(hashToken, w, cfg, req, draw, now, f);
    if cfg.cached {
      MintedEntry(hashToken, w, cfg, req, draw, now, f, later);
    }
    TableRow(w'.rows, draw.id, hashToken(draw.token));
    hide Mint, CreateEnforcingCap, PutAt, Touch, Evict, Lookup, WellFormed, FindByHash, HashSet;
  }

  /** So is the token of a rotation. */
  lemma RotatedTokenValidates(hashToken: string -> string, w: World, cfg: Config, id: string, hash: string,
                              req: MintRequest, draw: Draw, now: int, now': int, mid: Faults, f: Faults, later: int,
                              g: Faults)
    requires WellFormed(w.rows) && draw.token != "" && hashToken(draw.token) !in w.entries && !g.store
    requires Rotate(hashToken, w, cfg, id, hash, req, draw, now, now', mid, f).1.Ok? && now' <= later < now' + cfg.ttl
    ensures
      var (w', r) := Rotate(hashToken, w, cfg, id, hash, req, draw, now, now', mid, f);
      var v := Validate(hashToken, w', cfg, r.value.plaintextToken, later, g).1;
      && v.Ok? && v.value.id == draw.id && v.value.userId == req.userId
      && v.value.organizationId == req.organizationId && v.value.authMode == req.authMode && v.value.ip == req.ip
  {
    var revoked := RevokeOne(w, cfg, id, hash, now, mid).0;
    RevokesOne(w, cfg, id, hash, now, mid);
    RevokeKeepsWellFormed(w.rows, {id}, now);
    assert WellFormed(revoked.rows);
    hide Mint, Validate, RevokeOne, WellFormed;
    MintedTokenValidates(hashToken, revoked, cfg, req, draw, now', f, later, g);
  }
}
