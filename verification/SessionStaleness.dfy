/** How long a revocation can go unnoticed: exactly when a stale cache entry is served,
    and by how much the service can lag. */
module SessionStaleness {
  import opened Wrappers
  import opened SessionModel
  import opened SessionStore
  import opened SessionCache
  import opened SessionManager
  import opened SessionInterleaving
  import opened SessionSteps

  // ----- when an entry is served -----

  /** In every reachable state: a lookup that meets a servable entry accepts its session
      exactly if that has not expired at the clock the request captured. Whether the
      table has revoked or even lost the session makes no difference. */
  lemma ServedIffUnexpired(cfg: Config, actions: seq<Action>, pid: nat, pick: string)
    requires
      var s := Exec(cfg, actions);
      pid in s.requests && s.requests[pid].Looking? && Lookup(s.entries, s.requests[pid].hash, s.now).Some?
    ensures
      var s := Exec(cfg, actions);
      var r := s.requests[pid];
      Apply(cfg, s, Call(pid, true, pick)).requests[pid].Returned? <==> r.at < s.entries[r.hash].value.expiresAt
  {
    var s := Exec(cfg, actions);
    Reachable(cfg, actions);
    assert EntryInv(s, s.requests[pid].hash);
    CallIs(cfg, s, pid, true, pick);
    hide Inv, Apply, TableInv;
  }

  // ----- how far it lags -----

  lemma {:induction false} ClockGrows(cfg: Config, actions: seq<Action>, i: nat, j: nat)
    requires i <= j <= |actions|
    ensures Exec(cfg, actions[..i]).now <= Exec(cfg, actions[..j]).now
    decreases j
  {
    hide Inv, Apply, Exec;
    if i < j {
      ClockGrows(cfg, actions, i, j - 1);
      Reachable(cfg, actions[..j - 1]);
      ExecStep(cfg, actions, j - 1);
      ApplyKeepsInv(cfg, Exec(cfg, actions[..j - 1]), actions[j - 1]);
    }
  }

  /** Something accepted a session whose revocation had reached the table before. */
  ghost predicate AcceptedLate(cfg: Config, actions: seq<Action>, revoked: nat, pid: nat) {
    && revoked <= |actions|
    && var s := Exec(cfg, actions);
       pid in s.requests && s.requests[pid].Returned?
       && Dead(Exec(cfg, actions[..revoked]), s.requests[pid].session.id)
  }

  /** No row, and none about to be inserted, has more than the TTL to live. */
  ghost predicate Expiring(cfg: Config, s: State) {
    && (forall id | id in s.rows :: s.rows[id].expiresAt <= s.now + cfg.ttl)
    && (forall pid | pid in s.requests && s.requests[pid].Inserting? ::
          s.requests[pid].draft.expiresAt <= s.now + cfg.ttl)
  }

  /** What most steps do: rows may go or change but not live longer, and one request moves. */
  lemma MoveKeepsExpiring(cfg: Config, s: State, t: State, pid: nat, r: Request)
    requires Expiring(cfg, s) && t.now == s.now && t.requests == s.requests[pid := r]
    requires r.Inserting? ==> r.draft.expiresAt <= s.now + cfg.ttl
    requires forall id | id in t.rows :: id in s.rows && t.rows[id].expiresAt == s.rows[id].expiresAt
    ensures Expiring(cfg, t)
  {
  }

  lemma InsertKeepsExpiring(cfg: Config, s: State, pid: nat, r: Request)
    requires Expiring(cfg, s) && r.Inserting? && r.draft.expiresAt <= s.now + cfg.ttl
    ensures Expiring(cfg, CallInserting(cfg, s, pid, r))
  {
    hide HashSet, Excess, Collides, Required;
  }

  lemma LookingKeepsExpiring(cfg: Config, s: State, pid: nat, r: Request, ok: bool)
    requires Expiring(cfg, s) && r.Looking?
    ensures Expiring(cfg, CallLooking(s, pid, r, ok))
  {
    hide Lookup;
    var t := CallLooking(s, pid, r, ok);
    MoveKeepsExpiring(cfg, s, t, pid, t.requests[pid]);
  }

  lemma ReadingKeepsExpiring(cfg: Config, s: State, pid: nat, r: Request)
    requires Expiring(cfg, s) && r.Reading? && s.history != []
    ensures Expiring(cfg, CallReading(s, pid, r))
  {
    hide FindByHash;
    var t := CallReading(s, pid, r);
    MoveKeepsExpiring(cfg, s, t, pid, t.requests[pid]);
  }

  lemma RevokingKeepsExpiring(cfg: Config, s: State, pid: nat, r: Request)
    requires Expiring(cfg, s)
    ensures r.Revoking? ==> Expiring(cfg, CallRevoking(s, pid, r))
    ensures r.RevokingUser? ==> Expiring(cfg, CallRevokingUser(s, pid, r))
    ensures r.UpdatingUser? ==> Expiring(cfg, CallUpdatingUser(s, pid, r))
  {
    hide LiveOf, HashSet;
  }

  lemma EvictingKeepsExpiring(cfg: Config, s: State, pid: nat, r: Request, ok: bool, pick: string)
    requires Expiring(cfg, s) && r.Evicting?
    ensures Expiring(cfg, CallEvicting(s, pid, r, ok, pick))
  {
    hide Evict;
  }

  lemma PutKeeps(s: State, session: Session, at: int, readStep: nat, ok: bool)
    ensures var t := Put(s, session, at, readStep, ok); t.(entries := s.entries, origins := s.origins) == s
  {
    hide PutAt, PutTtl;
  }

  lemma CallKeepsExpiring(cfg: Config, s: State, pid: nat, ok: bool, pick: string)
    requires s.history != [] && Expiring(cfg, s)
    ensures Expiring(cfg, NextCall(cfg, s, pid, ok, pick))
  {
    hide CallInserting, CallLooking, CallReading, CallRevoking, CallRevokingUser, CallUpdatingUser, CallEvicting, Put;
    if pid in s.requests {
      var r := s.requests[pid];
      match r
      case Looking(_, _) => LookingKeepsExpiring(cfg, s, pid, r, ok);
      case Reading(_, _) => ReadingKeepsExpiring(cfg, s, pid, r);
      case Inserting(_, _, _) => InsertKeepsExpiring(cfg, s, pid, r);
      case Evicting(_, _, _, _) => EvictingKeepsExpiring(cfg, s, pid, r, ok, pick);
      case Storing(_, at, v, k) => PutKeeps(s, v, at, k, ok);
      case Caching(v, at, k, _) => PutKeeps(s, v, at, k, ok);
      case _ => RevokingKeepsExpiring(cfg, s, pid, r);
    }
  }

  lemma ApplyKeepsExpiring(cfg: Config, s: State, a: Action)
    requires s.history != [] && Expiring(cfg, s)
    ensures Expiring(cfg, Apply(cfg, s, a))
  {
    hide NextCall;
    if a.Call? {
      CallKeepsExpiring(cfg, s, a.pid, a.ok, a.pick);
    }
  }

  lemma {:induction false} RunKeepsExpiring(cfg: Config, actions: seq<Action>)
    ensures Expiring(cfg, Exec(cfg, actions))
    decreases |actions|
  {
    if actions != [] {
      RunKeepsExpiring(cfg, actions[..|actions| - 1]);
      hide Apply, Expiring;
      ApplyKeepsExpiring(cfg, Exec(cfg, actions[..|actions| - 1]), actions[|actions| - 1]);
    }
  }

  /** At the clock that its request captured, a session is accepted for less than the
      session TTL after its revocation, from the cache or not, however slow the calls. */
  lemma RevocationLag(cfg: Config, actions: seq<Action>, revoked: nat, pid: nat)
    requires AcceptedLate(cfg, actions, revoked, pid)
    ensures Exec(cfg, actions).requests[pid].at < Exec(cfg, actions[..revoked]).now + cfg.ttl
  {
    AcceptedSession(cfg, actions, pid);
    AcceptedAfterRevocation(cfg, actions, revoked, pid);
    var source := Exec(cfg, actions).requests[pid].source;
    var step := if source.FromCache? then source.origin.readStep else source.readStep;
    RunKeepsExpiring(cfg, actions[..step]);
    ClockGrows(cfg, actions, step, revoked);
  }

  /** From its read to its Put, the call that made the entry took at most `delay`. */
  ghost predicate PutInTime(cfg: Config, actions: seq<Action>, source: Source, delay: int) {
    source.FromCache? && source.origin.readStep <= |actions|
    && source.origin.putTime - Exec(cfg, actions[..source.origin.readStep]).now <= delay
  }

  /** A lookup may reach the cache long after its request captured the clock. By the time
      of the lookup itself, the lag is at most what the Put took, and a day. */
  lemma LookupLag(cfg: Config, actions: seq<Action>, revoked: nat, pid: nat, delay: int)
    requires AcceptedLate(cfg, actions, revoked, pid)
    requires PutInTime(cfg, actions, Exec(cfg, actions).requests[pid].source, delay)
    ensures
      Exec(cfg, actions).requests[pid].source.getTime <= Exec(cfg, actions[..revoked]).now + delay + DAY
  {
    AcceptedSession(cfg, actions, pid);
    AcceptedAfterRevocation(cfg, actions, revoked, pid);
    ClockGrows(cfg, actions, Exec(cfg, actions).requests[pid].source.origin.readStep, revoked);
  }

  // ----- runs to start with -----

  /** One user with one session, whose token hashes to "hash". */
  const REQUEST := MintRequest("user", "org", "password", None, "", "")

  const DRAW := Draw("token", "id", false)

  ghost function Hashing(): string -> string {
    (token: string) => "hash"
  }

  ghost function Minted(cfg: Config): Session {
    Stamped(NewSession(Hashing(), cfg, REQUEST, DRAW, 0), 0)
  }

  lemma CreateIntoEmpty(s: Session, cap: int, now: int)
    requires Required(s)
    ensures CreateEnforcingCap(map[], s, cap, now)
        == Created(map[s.id := Stamped(s, now)], Stamped(s, now), Excess(map[], s.userId, cap, now))
    ensures Excess(map[], s.userId, cap, now) == {}
  {
    assert LiveOf(map[], s.userId, now) == {};
    assert Revoke(map[], Excess(map[], s.userId, cap, now), now) == map[];
    if cap > 0 && 1 - cap > 0 {
      assert false;
    }
  }

  /** From the beginning: a mint, whose Put may fail. */
  lemma {:induction false} FirstMint(cfg: Config, f: Faults) returns (steps: seq<Action>)
    requires cfg.cached && cfg.ttl > 0 && !f.store
    ensures
      var s := Exec(cfg, steps);
      && s.now == 0 && s.requests.Keys == {0} && s.rows == map["id" := Minted(cfg)]
      && s.entries == if f.cacheSet then map[] else PutAt(map[], Minted(cfg), 0, 0)
  {
    var draft := NewSession(Hashing(), cfg, REQUEST, DRAW, 0);
    assert draft.tokenHash == "hash";
    CreateIntoEmpty(draft, cfg.sessionsPerUser, 0);
    CreatedMint(Hashing(), World(map[], map[]), cfg, REQUEST, DRAW, 0, f);
    assert HashSet(map[], {}) == {};
    var put := if f.cacheSet then map[] else PutAt(map[], Minted(cfg), 0, 0);
    assert Evict(put, {} - {""} - f.cacheDel) == put;
    hide Mint, CreateEnforcingCap, PutAt, Evict, HashSet, Apply;
    steps := UndisturbedMint(cfg, INITIAL, 0, Hashing(), REQUEST, DRAW, f);
    assert [] + steps == steps;
    ExecContinue(cfg, [], steps);
  }

  lemma MintedIs(cfg: Config)
    requires cfg.ttl > MIN_TTL
    ensures
      var row := Minted(cfg);
      && row.tokenHash == "hash" && row.id == "id" && row.expiresAt == cfg.ttl && row.revokedAt.None? && row.Live(0)
      && FindByHash(map["id" := row], "hash") == Some(row)
      && "id" in Revoke(map["id" := row], {"id"}, 0) && Revoke(map["id" := row], {"id"}, 0)["id"].revokedAt.Some?
      && Lookup(PutAt(map[], row, 0, 0), "hash", 0) == Some(row)
      && PutAt(map[], row, 0, 0)["hash"].value.expiresAt == cfg.ttl
  {
    CacheRoundTrip(Minted(cfg));
    assert map["id" := Minted(cfg)]["id"].tokenHash == "hash";
  }

  // ----- a Del that fails -----

  /** Revoke in the table, delete the entry if `ok`, and look it up again. */
  function RevokeThenValidate(p: nat, q: nat, id: string, hash: string, ok: bool): seq<Action> {
    [StartRevoke(p, id, hash)] + ([Call(p, true, "")] + ([Call(p, ok, hash)]
    + ([StartValidate(q, hash)] + ([Call(q, true, "")] + []))))
  }

  lemma RevokeIs(cfg: Config, s: State, pid: nat)
    requires s.history != [] && pid in s.requests && s.requests[pid].Revoking?
    requires s.requests[pid].id != "" && s.requests[pid].hash != ""
    ensures
      var r := s.requests[pid];
      var t := Apply(cfg, s, Call(pid, true, ""));
      && t.now == s.now && t.entries == s.entries && t.rows == Revoke(s.rows, {r.id}, s.now)
      && pid in t.requests && t.requests == s.requests[pid := t.requests[pid]]
      && t.requests[pid].Evicting? && t.requests[pid].hashes == {r.hash}
  {
    CallIs(cfg, s, pid, true, "");
    hide Apply;
  }

  lemma DelIs(cfg: Config, s: State, pid: nat, ok: bool, hash: string)
    requires s.history != [] && pid in s.requests && s.requests[pid].Evicting? && hash in s.requests[pid].hashes
    ensures
      var t := Apply(cfg, s, Call(pid, ok, hash));
      && t.now == s.now && t.rows == s.rows && t.entries == (if ok then s.entries - {hash} else s.entries)
      && pid in t.requests && t.requests == s.requests[pid := t.requests[pid]]
  {
    CallIs(cfg, s, pid, ok, hash);
    hide Apply;
  }

  lemma {:induction false} ThenValidate(cfg: Config, s: State, p: nat, q: nat, id: string, hash: string, ok: bool)
    requires s.history != [] && p !in s.requests && q !in s.requests && p != q
    requires id in s.rows && id != "" && Lookup(s.entries, hash, s.now).Some?
    requires s.entries[hash].value.revokedAt.None?
    ensures
      var t := Continue(cfg, s, RevokeThenValidate(p, q, id, hash, ok));
      && id in t.rows && t.rows[id].revokedAt.Some? && q in t.requests
      && (t.requests[q].Returned? <==> !ok && s.now < s.entries[hash].value.expiresAt)
      && (t.requests[q].Returned? ==> Some(t.requests[q].session) == Lookup(s.entries, hash, s.now))
  {
    hide Apply, Effect, NextCall, Continue, OwnSteps, Working;
    var s1 := Apply(cfg, s, StartRevoke(p, id, hash));
    RevokeStarts(cfg, s, p, id, hash);
    var s2 := Apply(cfg, s1, Call(p, true, ""));
    RevokeIs(cfg, s1, p);
    var s3 := Apply(cfg, s2, Call(p, ok, hash));
    DelIs(cfg, s2, p, ok, hash);
    var s4 := Apply(cfg, s3, StartValidate(q, hash));
    ValidateStarts(cfg, s3, q, hash);
    var s5 := Apply(cfg, s4, Call(q, true, ""));
    LookIs(cfg, s4, q, true);
    ContinueNone(cfg, s5);
    ContinueOne(cfg, s4, Call(q, true, ""), []);
    ContinueOne(cfg, s3, StartValidate(q, hash), [Call(q, true, "")] + []);
    ContinueOne(cfg, s2, Call(p, ok, hash), [StartValidate(q, hash)] + ([Call(q, true, "")] + []));
    ContinueOne(cfg, s1, Call(p, true, ""),
                [Call(p, ok, hash)] + ([StartValidate(q, hash)] + ([Call(q, true, "")] + [])));
    ContinueOne(cfg, s, StartRevoke(p, id, hash),
                [Call(p, true, "")] + ([Call(p, ok, hash)] + ([StartValidate(q, hash)] + ([Call(q, true, "")] + []))));
  }

  /** Against the comment at services/api/internal/auth/session.go:190-194. In every
      reachable state in which a session of the table is cached: revoke it, then validate
      its token. The revoked session is accepted exactly if the Del failed and
      the session has not expired. */
  lemma {:induction false} StaleEntryIsAccepted(cfg: Config, actions: seq<Action>, p: nat, q: nat, id: string,
                                                hash: string, ok: bool)
    requires p != q
    requires
      var s := Exec(cfg, actions);
      && p !in s.requests && q !in s.requests && id in s.rows && s.rows[id].tokenHash == hash
      && Lookup(s.entries, hash, s.now).Some?
    ensures
      var s := Exec(cfg, actions);
      var t := Exec(cfg, actions + RevokeThenValidate(p, q, id, hash, ok));
      && id in t.rows && t.rows[id].revokedAt.Some? && q in t.requests
      && (t.requests[q].Returned? <==> !ok && s.now < s.entries[hash].value.expiresAt)
      && (t.requests[q].Returned? ==> Some(t.requests[q].session) == Lookup(s.entries, hash, s.now))
  {
    var s := Exec(cfg, actions);
    Reachable(cfg, actions);
    assert EntryInv(s, hash) && TableInv(cfg, s);
    ThenValidate(cfg, s, p, q, id, hash, ok);
    ExecContinue(cfg, actions, RevokeThenValidate(p, q, id, hash, ok));
  }

  /** There is such a state: mint, revoke with a failing Del, validate. */
  lemma {:induction false} RevokedSessionAccepted(cfg: Config) returns (run: seq<Action>)
    requires cfg.cached && cfg.ttl > MIN_TTL
    ensures
      var t := Exec(cfg, run);
      && "id" in t.rows && t.rows["id"].revokedAt.Some?
      && 2 in t.requests && t.requests[2].Returned? && t.requests[2].session.id == "id"
  {
    MintedIs(cfg);
    hide Exec, Minted, Lookup, PutAt, FindByHash, Revoke, RevokeThenValidate;
    var mint := FirstMint(cfg, NO_FAULTS);
    StaleEntryIsAccepted(cfg, mint, 1, 2, "id", "hash", false);
    run := mint + RevokeThenValidate(1, 2, "id", "hash", false);
  }

  // ----- a late Put, and a late lookup -----

  /** A validation starts at `at`, one that has read its row Puts it `putLate` later, and
      the first looks it up when `getLate` more has passed. */
  function LatePut(p: nat, q: nat, hash: string, at: nat, putLate: nat, getLate: nat): seq<Action> {
    [Tick(at)] + ([StartValidate(q, hash)] + ([Tick(putLate)] + ([Call(p, true, "")]
    + ([Tick(getLate)] + ([Call(q, true, "")] + [])))))
  }

  lemma TickIs(cfg: Config, s: State, dt: nat)
    requires s.history != []
    ensures Alike(Apply(cfg, s, Tick(dt)), s.(now := s.now + dt))
  {
  }

  lemma ServeIs(cfg: Config, s: State, q: nat, entry: Entry, origin: Origin)
    requires s.history != [] && q in s.requests && s.requests[q].Looking?
    requires
      var r := s.requests[q];
      && r.hash != "" && r.hash in s.entries && s.entries[r.hash] == entry && s.now <= entry.expires
      && ToSession(entry.value).Live(r.at) && r.hash in s.origins && s.origins[r.hash] == origin
    ensures
      var r := s.requests[q];
      var t := Apply(cfg, s, Call(q, true, ""));
      t.rows == s.rows
      && t.requests == s.requests[q := Returned(r.hash, r.at, ToSession(entry.value), FromCache(origin, s.now))]
  {
    CallIs(cfg, s, q, true, "");
    hide Apply;
  }

  lemma {:induction false} LatePutIsServed(cfg: Config, s: State, p: nat, q: nat, at: nat, putLate: nat, getLate: nat)
    requires s.history != [] && p in s.requests && s.requests[p].Storing? && q !in s.requests
    requires
      var r := s.requests[p];
      && r.hash != "" && r.session.tokenHash == r.hash && r.session.Live(s.now + at)
      && PutTtl(r.session, r.at).Some? && getLate <= PutTtl(r.session, r.at).value
    ensures
      var r := s.requests[p];
      var t := Continue(cfg, s, LatePut(p, q, r.hash, at, putLate, getLate));
      && t.rows == s.rows && q in t.requests
      && t.requests[q] == Returned(r.hash, s.now + at, r.session.(idTokenEncrypted := ""),
                                   FromCache(Origin(r.readStep, s.now + at + putLate),
                                             s.now + at + putLate + getLate))
  {
    hide Apply, Effect, NextCall, Continue, OwnSteps, Working, Lookup;
    var r := s.requests[p];
    var s1 := Apply(cfg, s, Tick(at));
    TickIs(cfg, s, at);
    var s2 := Apply(cfg, s1, StartValidate(q, r.hash));
    ValidateStarts(cfg, s1, q, r.hash);
    var s3 := Apply(cfg, s2, Tick(putLate));
    TickIs(cfg, s2, putLate);
    var s4 := Apply(cfg, s3, Call(p, true, ""));
    StoreIs(cfg, s3, p, true);
    CacheRoundTrip(r.session);
    var s5 := Apply(cfg, s4, Tick(getLate));
    TickIs(cfg, s4, getLate);
    var s6 := Apply(cfg, s5, Call(q, true, ""));
    ServeIs(cfg, s5, q, s4.entries[r.hash], Origin(r.readStep, s.now + at + putLate));
    ContinueNone(cfg, s6);
    ContinueOne(cfg, s5, Call(q, true, ""), []);
    ContinueOne(cfg, s4, Tick(getLate), [Call(q, true, "")] + []);
    ContinueOne(cfg, s3, Call(p, true, ""), [Tick(getLate)] + ([Call(q, true, "")] + []));
    ContinueOne(cfg, s2, Tick(putLate), [Call(p, true, "")] + ([Tick(getLate)] + ([Call(q, true, "")] + [])));
    ContinueOne(cfg, s1, StartValidate(q, r.hash),
                [Tick(putLate)] + ([Call(p, true, "")] + ([Tick(getLate)] + ([Call(q, true, "")] + []))));
    ContinueOne(cfg, s, Tick(at),
                [StartValidate(q, r.hash)]
                + ([Tick(putLate)] + ([Call(p, true, "")] + ([Tick(getLate)] + ([Call(q, true, "")] + [])))));
  }

  /** A validation up to where it would Put what it has read. */
  function ReadOnly(p: nat, hash: string): seq<Action> {
    [StartValidate(p, hash)] + ([Call(p, true, "")] + ([Call(p, true, "")] + ([Call(p, false, "")] + [])))
  }

  lemma MissIs(cfg: Config, s: State, pid: nat)
    requires s.history != [] && pid in s.requests && s.requests[pid].Looking? && s.requests[pid].hash !in s.entries
    ensures
      var r := s.requests[pid];
      Alike(Apply(cfg, s, Call(pid, true, "")), Move(s, pid, Reading(r.hash, r.at)))
  {
    CallIs(cfg, s, pid, true, "");
    hide Apply;
  }

  lemma OneMore(cfg: Config, s: State, a: Action)
    requires s.history != []
    ensures |Apply(cfg, s, a).history| == |s.history| + 1
  {
    hide Effect;
  }

  lemma {:induction false} ReadOnlyIs(cfg: Config, s: State, p: nat, row: Session)
    requires s.history != [] && p !in s.requests && row.tokenHash !in s.entries
    requires FindByHash(s.rows, row.tokenHash) == Some(row) && row.Live(s.now)
    ensures
      var t := Continue(cfg, s, ReadOnly(p, row.tokenHash));
      && t.now == s.now && t.rows == s.rows && t.entries == s.entries && t.issued == s.issued
      && t.requests == s.requests[p := Storing(row.tokenHash, s.now, row.(lastSeenAt := s.now), |s.history| + 1)]
  {
    hide Apply, Effect, NextCall, Continue, OwnSteps, Working, FindByHash, Touch;
    var hash := row.tokenHash;
    var s1 := Apply(cfg, s, StartValidate(p, hash));
    ValidateStarts(cfg, s, p, hash);
    var s2 := Apply(cfg, s1, Call(p, true, ""));
    MissIs(cfg, s1, p);
    var s3 := Apply(cfg, s2, Call(p, true, ""));
    ReadIs(cfg, s2, p);
    var s4 := Apply(cfg, s3, Call(p, false, ""));
    TouchIs(cfg, s3, p, false);
    OneMore(cfg, s, StartValidate(p, hash));
    OneMore(cfg, s1, Call(p, true, ""));
    ContinueNone(cfg, s4);
    ContinueOne(cfg, s3, Call(p, false, ""), []);
    ContinueOne(cfg, s2, Call(p, true, ""), [Call(p, false, "")] + []);
    ContinueOne(cfg, s1, Call(p, true, ""), [Call(p, true, "")] + ([Call(p, false, "")] + []));
    ContinueOne(cfg, s, StartValidate(p, hash),
                [Call(p, true, "")] + ([Call(p, true, "")] + ([Call(p, false, "")] + [])));
  }

  /** Mint without caching, read, and revoke: the reader is about to Put what it has read. */
  lemma {:induction false} ReadThenRevoked(cfg: Config) returns (before: seq<Action>, readStep: nat)
    requires cfg.cached && cfg.ttl > MIN_TTL
    ensures
      var s := Exec(cfg, before);
      && s.now == 0 && Dead(s, "id") && s.requests.Keys == {0, 1, 2} && readStep <= |before|
      && s.requests[1] == Storing("hash", 0, Minted(cfg).(lastSeenAt := 0), readStep)
  {
    MintedIs(cfg);
    var mint := FirstMint(cfg, NO_FAULTS.(cacheSet := true));
    var s := Exec(cfg, mint);
    Reachable(cfg, mint);
    RecordIsFaithful(cfg, mint, 0);
    assert TableInv(cfg, s) && s.rows.Keys <= s.issued && "id" in s.rows;
    hide Exec, Inv, TableInv, Minted, FindByHash, Revoke, Apply, Lookup, PutAt, OwnSteps, Working;
    var read := ReadOnly(1, "hash");
    ReadOnlyIs(cfg, s, 1, Minted(cfg));
    var t := Continue(cfg, s, read);
    var revoke := UndisturbedRevoke(cfg, t, 2, "id", "hash", NO_FAULTS);
    ContinueConcat(cfg, s, read, revoke);
    ExecContinue(cfg, mint, read + revoke);
    before := mint + (read + revoke);
    readStep := |s.history| + 1;
    assert |read| == 4;
  }

  /** How far the lag can go: a session revoked at time zero is accepted by a request that
      started at any `at` within its TTL, with a Put `at + putLate` after its read and a
      lookup anywhere in the life of the entry. No call fails but one touch and one Put. */
  lemma {:induction false} LagIsReached(cfg: Config, at: nat, putLate: nat, getLate: nat)
    returns (run: seq<Action>, revoked: nat)
    requires cfg.cached && cfg.ttl > MIN_TTL && at < cfg.ttl && getLate <= cfg.ttl && getLate <= DAY
    ensures AcceptedLate(cfg, run, revoked, 3) && Exec(cfg, run[..revoked]).now == 0
    ensures
      var r := Exec(cfg, run).requests[3];
      && r.at == at && PutInTime(cfg, run, r.source, at + putLate)
      && r.source.getTime == at + putLate + getLate
  {
    MintedIs(cfg);
    var before, readStep := ReadThenRevoked(cfg);
    var s := Exec(cfg, before);
    hide Inv, TableInv, Minted, FindByHash, Apply, LatePut, Revoke, Lookup, PutAt;
    LatePutIsServed(cfg, s, 1, 3, at, putLate, getLate);
    var late := LatePut(1, 3, "hash", at, putLate, getLate);
    ExecContinue(cfg, before, late);
    run, revoked := before + late, |before|;
    assert run[..revoked] == before && run[..0] == [];
    ClockGrows(cfg, run, 0, readStep);
    ClockGrows(cfg, run, readStep, revoked);
    assert Exec(cfg, []) == INITIAL;
  }

  // ----- the lag that can be promised -----

  /** Nothing accepts a session more than `bound` after its revocation, at the clock that
      decides on expiry. */
  ghost predicate KeepsLag(cfg: Config, bound: int) {
    forall actions, revoked: nat, pid | AcceptedLate(cfg, actions, revoked, pid) ::
      Exec(cfg, actions).requests[pid].at - Exec(cfg, actions[..revoked]).now <= bound
  }

  /** The 24 h that services/api/internal/auth/session_cache.go:144-146 promises, or any
      other bound from the five seconds of the smallest TTL on, is kept in all
      runs exactly if the session TTL keeps it: with the default of a day it is. */
  lemma {:induction false} LagKeptIff(cfg: Config, bound: int)
    requires cfg.cached && bound >= MIN_TTL
    ensures KeepsLag(cfg, bound) <==> cfg.ttl <= bound + 1
  {
    hide Dead, Exec;
    if cfg.ttl <= bound + 1 {
      forall actions, revoked: nat, pid | AcceptedLate(cfg, actions, revoked, pid)
        ensures Exec(cfg, actions).requests[pid].at - Exec(cfg, actions[..revoked]).now <= bound
      {
        RevocationLag(cfg, actions, revoked, pid);
      }
    } else {
      var run, revoked := LagIsReached(cfg, cfg.ttl - 1, 0, 0);
      assert AcceptedLate(cfg, run, revoked, 3);
    }
  }

  /** The same by the time of the lookup, when each Put comes within `delay` of its read. */
  ghost predicate KeepsLookupLag(cfg: Config, delay: int, bound: int) {
    forall actions, revoked: nat, pid
      | AcceptedLate(cfg, actions, revoked, pid)
        && PutInTime(cfg, actions, Exec(cfg, actions).requests[pid].source, delay) ::
      Exec(cfg, actions).requests[pid].source.getTime - Exec(cfg, actions[..revoked]).now <= bound
  }

  /** There a slow Put counts, and a slow request, whose clock is older than its lookup. */
  lemma {:induction false} LookupLagKeptIff(cfg: Config, delay: nat, bound: int)
    requires cfg.cached && cfg.ttl >= DAY
    ensures KeepsLookupLag(cfg, delay, bound) <==> delay + DAY <= bound
  {
    hide Dead, Exec;
    if delay + DAY <= bound {
      forall actions, revoked: nat, pid
        | AcceptedLate(cfg, actions, revoked, pid)
          && PutInTime(cfg, actions, Exec(cfg, actions).requests[pid].source, delay)
        ensures Exec(cfg, actions).requests[pid].source.getTime - Exec(cfg, actions[..revoked]).now <= bound
      {
        LookupLag(cfg, actions, revoked, pid, delay);
      }
    } else {
      var at := if delay < cfg.ttl then delay else cfg.ttl - 1;
      var run, revoked := LagIsReached(cfg, at, delay - at, DAY);
      assert AcceptedLate(cfg, run, revoked, 3);
    }
  }

  // ----- a mint in the gap of a revoke-all -----

  /** What a successful mint leaves of the new session. */
  lemma MintedSession(hashToken: string -> string, w: World, cfg: Config, req: MintRequest, draw: Draw, now: int,
                      f: Faults)
    returns (row: Session)
    requires WellFormed(w.rows) && cfg.cached && cfg.ttl > MIN_TTL && draw.token != ""
    requires hashToken(draw.token) !in w.entries && Mint(hashToken, w, cfg, req, draw, now, f).1.Ok?
    ensures
      var h := hashToken(draw.token);
      var minted := Mint(hashToken, w, cfg, req, draw, now, f).0;
      && WellFormed(minted.rows) && w.rows.Keys <= minted.rows.Keys
      && draw.id in minted.rows && minted.rows[draw.id] == row
      && row.Live(now) && row.userId == req.userId && row.tokenHash == h && h != ""
      && (forall id | id in w.rows :: w.rows[id].tokenHash != h)
      && (h in minted.entries <==> !f.cacheSet)
      && (!f.cacheSet ==> Lookup(minted.entries, h, now) == Some(row.(idTokenEncrypted := "")))
  {
    var draft := NewSession(hashToken, cfg, req, draw, now);
    var c := CreateEnforcingCap(w.rows, draft, cfg.sessionsPerUser, now);
    MintWasCreated(hashToken, w, cfg, req, draw, now, f);
    CreatedMint(hashToken, w, cfg, req, draw, now, f);
    CreateKeepsWellFormed(w.rows, draft, cfg.sessionsPerUser, now);
    row := c.saved;
    CacheRoundTrip(row);
    hide Mint, WellFormed, Excess;
  }

  lemma MintWasCreated(hashToken: string -> string, w: World, cfg: Config, req: MintRequest, draw: Draw, now: int,
                       f: Faults)
    requires Mint(hashToken, w, cfg, req, draw, now, f).1.Ok?
    ensures !f.store && !draw.failed
    ensures CreateEnforcingCap(w.rows, NewSession(hashToken, cfg, req, draw, now), cfg.sessionsPerUser, now).Created?
  {
    hide CreateEnforcingCap;
  }

  /** A revoke-all of these, in which nothing fails. */
  lemma AllRevoked(w: World, cfg: Config, user: string, now: int, committed: Rows, id: string)
    requires user != "" && cfg.cached && w.rows.Keys <= committed.Keys && WellFormed(committed)
    requires id in committed && committed[id].userId == user && committed[id].Live(now)
    ensures
      var t := RevokeAll(w, cfg, user, now, NO_FAULTS, committed).0;
      && WellFormed(t.rows) && id in t.rows && t.rows[id].revokedAt.Some?
      && t.rows[id].tokenHash == committed[id].tokenHash
      && t.entries == Evict(w.entries, HashSet(w.rows, LiveOf(w.rows, user, now)) - {""} - {})
  {
    assert w.rows + committed == committed;
    RevokeKeepsWellFormed(committed, LiveOf(committed, user, now), now);
    hide WellFormed, HashSet;
  }

  /** A revoked session is accepted only from the cache. */
  lemma OnlyFromCache(hashToken: string -> string, w: World, cfg: Config, token: string, now: int, id: string)
    requires WellFormed(w.rows) && cfg.cached && token != ""
    requires id in w.rows && w.rows[id].tokenHash == hashToken(token) && w.rows[id].revokedAt.Some?
    ensures
      var hit := Lookup(w.entries, hashToken(token), now);
      Validate(hashToken, w, cfg, token, now, NO_FAULTS).1.Ok? <==> hit.Some? && hit.value.Live(now)
  {
    RowUnderHash(w.rows, id, hashToken(token));
    ValidateIs(hashToken, w, cfg, token, now, NO_FAULTS);
    hide WellFormed, Validate, Lookup;
  }

  lemma RowUnderHash(rows: Rows, id: string, hash: string)
    requires WellFormed(rows) && id in rows && rows[id].tokenHash == hash
    ensures FindByHash(rows, hash) == Some(rows[id])
  {
  }

  /** A revoke-all whose every call works, and a mint by its user that commits either
      before its SELECT or between SELECT and UPDATE; `f` are the faults of the mint. The
      new session is revoked in both cases. A validation still accepts it
      exactly if the mint fell in the gap and its Put worked. */
  lemma CommittedInGap(hashToken: string -> string, w: World, cfg: Config, req: MintRequest, draw: Draw, now: int,
                       f: Faults)
    requires WellFormed(w.rows) && cfg.cached && cfg.ttl > MIN_TTL && draw.token != "" && req.userId != ""
    requires hashToken(draw.token) !in w.entries && Mint(hashToken, w, cfg, req, draw, now, f).1.Ok?
    ensures
      var minted := Mint(hashToken, w, cfg, req, draw, now, f).0;
      var inGap := RevokeAll(World(w.rows, minted.entries), cfg, req.userId, now, NO_FAULTS, minted.rows).0;
      var before := RevokeAll(minted, cfg, req.userId, now, NO_FAULTS).0;
      && draw.id in inGap.rows && inGap.rows[draw.id].revokedAt.Some?
      && draw.id in before.rows && before.rows[draw.id].revokedAt.Some?
      && (Validate(hashToken, inGap, cfg, draw.token, now, NO_FAULTS).1.Ok? <==> !f.cacheSet)
      && Validate(hashToken, before, cfg, draw.token, now, NO_FAULTS).1.Err?
  {
    var minted := Mint(hashToken, w, cfg, req, draw, now, f).0;
    var row := MintedSession(hashToken, w, cfg, req, draw, now, f);
    hide Mint, Validate, WellFormed, RevokeAll;
    GapIsMissed(hashToken, w.rows, minted, cfg, draw.token, req.userId, now, draw.id);
    SelectedIsEvicted(hashToken, minted, cfg, draw.token, req.userId, now, draw.id);
    hide Lookup;
  }

  /** A session that the SELECT has not seen keeps its cache entry. */
  lemma GapIsMissed(hashToken: string -> string, rows: Rows, minted: World, cfg: Config, token: string, user: string,
                    now: int, id: string)
    requires user != "" && cfg.cached && token != "" && rows.Keys <= minted.rows.Keys && WellFormed(minted.rows)
    requires id in minted.rows && minted.rows[id].userId == user && minted.rows[id].Live(now)
    requires minted.rows[id].tokenHash == hashToken(token)
    requires forall i | i in rows :: rows[i].tokenHash != hashToken(token)
    ensures
      var t := RevokeAll(World(rows, minted.entries), cfg, user, now, NO_FAULTS, minted.rows).0;
      var hit := Lookup(minted.entries, hashToken(token), now);
      && id in t.rows && t.rows[id].revokedAt.Some?
      && (Validate(hashToken, t, cfg, token, now, NO_FAULTS).1.Ok? <==> hit.Some? && hit.value.Live(now))
  {
    hide WellFormed, RevokeAll, Validate;
    var w := World(rows, minted.entries);
    AllRevoked(w, cfg, user, now, minted.rows, id);
    OnlyFromCache(hashToken, RevokeAll(w, cfg, user, now, NO_FAULTS, minted.rows).0, cfg, token, now, id);
    assert hashToken(token) !in HashSet(rows, LiveOf(rows, user, now));
  }

  /** One that it has seen does not. */
  lemma SelectedIsEvicted(hashToken: string -> string, minted: World, cfg: Config, token: string, user: string,
                          now: int, id: string)
    requires user != "" && cfg.cached && token != "" && WellFormed(minted.rows)
    requires id in minted.rows && minted.rows[id].userId == user && minted.rows[id].Live(now)
    requires minted.rows[id].tokenHash == hashToken(token)
    ensures
      var t := RevokeAll(minted, cfg, user, now, NO_FAULTS).0;
      && id in t.rows && t.rows[id].revokedAt.Some?
      && Validate(hashToken, t, cfg, token, now, NO_FAULTS).1.Err?
  {
    hide RevokeAll, Validate;
    SameWithoutCommit(minted, cfg, user, now);
    AllRevoked(minted, cfg, user, now, minted.rows, id);
    assert id in LiveOf(minted.rows, user, now);
    OnlyFromCache(hashToken, RevokeAll(minted, cfg, user, now, NO_FAULTS).0, cfg, token, now, id);
  }

  lemma SameWithoutCommit(w: World, cfg: Config, user: string, now: int)
    ensures RevokeAll(w, cfg, user, now, NO_FAULTS, w.rows) == RevokeAll(w, cfg, user, now, NO_FAULTS)
  {
    assert w.rows + w.rows == w.rows && w.rows + map[] == w.rows;
    hide Revoke, LiveOf, HashSet;
  }
}
