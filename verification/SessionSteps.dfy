/** The step machine against the operations: a request that nobody disturbs, and whose
    store calls work, does call by call what the manager's operation does at once. */
module SessionSteps {
  import opened Wrappers
  import opened SessionModel
  import opened SessionStore
  import opened SessionCache
  import opened SessionManager
  import opened SessionInterleaving

  predicate Own(a: Action, pid: nat) {
    !a.Tick? && !a.SweepRows? && !a.Die? && a.pid == pid
  }

  /** The actions of one request: its start and its calls, and nobody else's. */
  ghost predicate OwnSteps(steps: seq<Action>, pid: nat) {
    forall a | a in steps :: Own(a, pid)
  }

  /** No call fails. */
  ghost predicate Working(steps: seq<Action>) {
    forall a | a in steps :: a.Call? ==> a.ok
  }

  /** More actions, from any state. */
  ghost function Continue(cfg: Config, s: State, actions: seq<Action>): (t: State)
    requires s.history != []
    ensures t.history != []
    decreases |actions|
  {
    if actions == [] then s else Continue(cfg, Apply(cfg, s, actions[0]), actions[1..])
  }

  lemma {:induction false} ExecContinue(cfg: Config, before: seq<Action>, after: seq<Action>)
    ensures Exec(cfg, before + after) == Continue(cfg, Exec(cfg, before), after)
    decreases |after|
  {
    hide Apply;
    if after == [] {
      assert before + after == before;
    } else {
      var next := before + [after[0]];
      assert before + after == next + after[1..] && next[..|before|] == before;
      ExecContinue(cfg, next, after[1..]);
    }
  }

  lemma {:induction false} ContinueOne(cfg: Config, s: State, a: Action, rest: seq<Action>)
    requires s.history != []
    ensures Continue(cfg, s, [a] + rest) == Continue(cfg, Apply(cfg, s, a), rest)
    ensures forall pid :: OwnSteps([a] + rest, pid) <==> Own(a, pid) && OwnSteps(rest, pid)
    ensures Working([a] + rest) <==> (a.Call? ==> a.ok) && Working(rest)
  {
    hide Apply;
    assert ([a] + rest)[1..] == rest;
  }

  lemma {:induction false} ContinueConcat(cfg: Config, s: State, a: seq<Action>, b: seq<Action>)
    requires s.history != []
    ensures Continue(cfg, s, a + b) == Continue(cfg, Continue(cfg, s, a), b)
    ensures forall pid :: OwnSteps(a + b, pid) <==> OwnSteps(a, pid) && OwnSteps(b, pid)
    ensures Working(a + b) <==> Working(a) && Working(b)
    decreases |a|
  {
    hide Apply;
    if a == [] {
      assert a + b == b;
    } else {
      assert (a + b)[1..] == a[1..] + b;
      ContinueConcat(cfg, Apply(cfg, s, a[0]), a[1..], b);
    }
  }

  lemma {:induction false} ContinueNone(cfg: Config, s: State)
    requires s.history != []
    ensures Continue(cfg, s, []) == s
    ensures Working([]) && forall pid :: OwnSteps([], pid)
  {
  }

  /** The two states differ in the record only. */
  ghost predicate Alike(a: State, b: State) {
    a == b.(history := a.history)
  }

  lemma CallIs(cfg: Config, s: State, pid: nat, ok: bool, pick: string)
    requires s.history != []
    ensures Alike(Apply(cfg, s, Call(pid, ok, pick)), NextCall(cfg, s, pid, ok, pick))
  {
    hide NextCall;
  }

  lemma StartIs(cfg: Config, s: State, a: Action, pid: nat, r: Request)
    requires s.history != [] && pid !in s.requests && Effect(cfg, s, a) == Start(s, pid, r)
    ensures Alike(Apply(cfg, s, a), Move(s, pid, r))
  {
    hide Effect;
  }

  function RevokeReply(r: Result<(), AuthError>): Reply {
    if r.Ok? then RevokedOne else Refused(r.error)
  }

  function RevokeAllReply(r: Result<nat, AuthError>): Reply {
    if r.Ok? then RevokedAll(r.value) else Refused(r.error)
  }

  /** The machine knows the token by its hash only. */
  function MintReply(r: Result<MintResult, AuthError>): Reply {
    if r.Ok? then Issued(r.value.session) else Refused(r.error)
  }

  ghost function WorldOf(s: State): World {
    World(s.rows, s.entries)
  }

  // ----- evictions -----

  /** One Del after the other; those of `failing` fail. */
  lemma {:induction false} EvictAll(cfg: Config, s: State, pid: nat, failing: set<string>) returns (calls: seq<Action>)
    requires s.history != [] && pid in s.requests && s.requests[pid].Evicting?
    ensures OwnSteps(calls, pid) && (failing == {} ==> Working(calls))
    ensures
      var r := s.requests[pid];
      Alike(Continue(cfg, s, calls),
            s.(entries := Evict(s.entries, r.hashes - failing),
               requests := s.requests[pid := Evicting({}, r.next, r.gone, r.reply)]))
    decreases |s.requests[pid].hashes|
  {
    var r := s.requests[pid];
    if r.hashes == {} {
      calls := [];
      assert Evict(s.entries, r.hashes - failing) == s.entries;
      assert s.requests[pid := Evicting({}, r.next, r.gone, r.reply)] == s.requests;
      ContinueNone(cfg, s);
    } else {
      var h :| h in r.hashes;
      var a := Call(pid, h !in failing, h);
      var s1 := Apply(cfg, s, a);
      CallIs(cfg, s, pid, h !in failing, h);
      hide Apply, OwnSteps, Working, NextCall;
      EvictOne(cfg, s, pid, h !in failing, h);
      hide Evict;
      var rest := EvictAll(cfg, s1, pid, failing);
      ContinueOne(cfg, s, a, rest);
      calls := [a] + rest;
      var done := Evicting({}, r.next, r.gone, r.reply);
      assert s1.requests[pid := done] == s.requests[pid := done];
      EvictRest(s.entries, r.hashes, h, failing);
    }
  }

  lemma EvictRest(entries: Entries, hashes: set<string>, h: string, failing: set<string>)
    requires h in hashes
    ensures Evict(if h !in failing then Evict(entries, {h}) else entries, (hashes - {h}) - failing)
         == Evict(entries, hashes - failing)
  {
  }

  lemma EvictOne(cfg: Config, s: State, pid: nat, ok: bool, h: string)
    requires s.history != [] && pid in s.requests && s.requests[pid].Evicting? && h in s.requests[pid].hashes
    ensures
      var r := s.requests[pid];
      NextCall(cfg, s, pid, ok, h)
      == s.(entries := if ok then Evict(s.entries, {h}) else s.entries,
            requests := s.requests[pid := Evicting(r.hashes - {h}, r.next, r.gone, r.reply)])
  {
  }

  /** And then on: to the mint of a rotation, or to the end. */
  lemma {:induction false} EvictAndGoOn(cfg: Config, s: State, pid: nat, failing: set<string>)
    returns (calls: seq<Action>)
    requires s.history != [] && pid in s.requests && s.requests[pid].Evicting?
    ensures OwnSteps(calls, pid) && (failing == {} ==> Working(calls))
    ensures
      var r := s.requests[pid];
      Alike(Continue(cfg, s, calls),
            s.(entries := Evict(s.entries, r.hashes - failing),
               requests := s.requests[pid := if r.next.Some? then Minting(r.next.value, r.gone)
                                             else Finished(r.reply)]))
  {
    hide Apply, OwnSteps, Working;
    var r := s.requests[pid];
    var evictions := EvictAll(cfg, s, pid, failing);
    var t := Continue(cfg, s, evictions);
    var last := Call(pid, true, "");
    CallIs(cfg, t, pid, true, "");
    ContinueNone(cfg, Apply(cfg, t, last));
    ContinueOne(cfg, t, last, []);
    ContinueConcat(cfg, s, evictions, [last] + []);
    calls := evictions + ([last] + []);
  }

  // ----- revocations -----

  /** From the UPDATE on. */
  lemma {:induction false} RevokeSteps(cfg: Config, s: State, pid: nat, f: Faults)
    returns (calls: seq<Action>, gone: Option<string>)
    requires s.history != [] && pid in s.requests && s.requests[pid].Revoking? && cfg.cached && !f.store
    ensures OwnSteps(calls, pid)
    ensures
      var r := s.requests[pid];
      var t := Continue(cfg, s, calls);
      && WorldOf(t) == RevokeOne(WorldOf(s), cfg, r.id, r.hash, s.now, f).0
      && t.now == s.now && t.issued == s.issued && t.origins == s.origins
      && t.requests == s.requests[pid := if r.id == "" then Finished(Refused(ArgumentRequired))
                                         else if r.next.Some? then Minting(r.next.value, gone)
                                         else Finished(RevokedOne)]
  {
    var r := s.requests[pid];
    var a := Call(pid, true, "");
    var s1 := Apply(cfg, s, a);
    CallIs(cfg, s, pid, true, "");
    hide Apply, OwnSteps, Working;
    gone := if r.id in s.issued then Some(r.id) else None;
    if r.id == "" {
      ContinueNone(cfg, s1);
      ContinueOne(cfg, s, a, []);
      calls := [a] + [];
    } else {
      var rest := EvictAndGoOn(cfg, s1, pid, f.cacheDel);
      ContinueOne(cfg, s, a, rest);
      calls := [a] + rest;
      assert Evict(s.entries, (if r.hash == "" then {} else {r.hash}) - f.cacheDel)
          == (if r.hash != "" then Evict(s.entries, {r.hash} - f.cacheDel) else s.entries);
    }
  }

  lemma RevokeStarts(cfg: Config, s: State, pid: nat, id: string, hash: string)
    requires s.history != [] && pid !in s.requests
    ensures Alike(Apply(cfg, s, StartRevoke(pid, id, hash)), Move(s, pid, Revoking(id, hash, None)))
  {
    StartIs(cfg, s, StartRevoke(pid, id, hash), pid, Revoking(id, hash, None));
  }

  /** RevokeSession, undisturbed. */
  lemma {:induction false} UndisturbedRevoke(cfg: Config, s: State, pid: nat, id: string, hash: string, f: Faults)
    returns (steps: seq<Action>)
    requires s.history != [] && pid !in s.requests && cfg.cached && !f.store
    ensures OwnSteps(steps, pid)
    ensures
      var t := Continue(cfg, s, steps);
      var (w, result) := RevokeOne(WorldOf(s), cfg, id, hash, s.now, f);
      && WorldOf(t) == w && t.requests == s.requests[pid := Finished(RevokeReply(result))]
      && t.now == s.now && t.issued == s.issued && t.origins == s.origins
  {
    var a := StartRevoke(pid, id, hash);
    hide Apply, OwnSteps, Working, Effect;
    RevokeStarts(cfg, s, pid, id, hash);
    var rest, gone := RevokeSteps(cfg, Apply(cfg, s, a), pid, f);
    ContinueOne(cfg, s, a, rest);
    steps := [a] + rest;
  }

  lemma RevokeUserStarts(cfg: Config, s: State, pid: nat, user: string)
    requires s.history != [] && pid !in s.requests
    ensures Alike(Apply(cfg, s, StartRevokeUser(pid, user)), Move(s, pid, RevokingUser(user)))
  {
    StartIs(cfg, s, StartRevokeUser(pid, user), pid, RevokingUser(user));
  }

  lemma SelectIs(cfg: Config, s: State, pid: nat)
    requires s.history != [] && pid in s.requests && s.requests[pid].RevokingUser?
    ensures
      var user := s.requests[pid].user;
      Alike(Apply(cfg, s, Call(pid, true, "")),
            Move(s, pid, if user == "" then Finished(Refused(ArgumentRequired))
                         else UpdatingUser(user, s.now, HashSet(s.rows, LiveOf(s.rows, user, s.now)),
                                           |LiveOf(s.rows, user, s.now)|)))
  {
    CallIs(cfg, s, pid, true, "");
    hide Apply, OwnSteps, Working;
  }

  lemma UpdateIs(cfg: Config, s: State, pid: nat)
    requires s.history != [] && pid in s.requests && s.requests[pid].UpdatingUser?
    ensures
      var r := s.requests[pid];
      var t := Apply(cfg, s, Call(pid, true, ""));
      && t.rows == Revoke(s.rows, LiveOf(s.rows, r.user, r.at), r.at)
      && t.now == s.now && t.issued == s.issued && t.origins == s.origins && t.entries == s.entries
      && t.requests == s.requests[pid := Evicting(r.selected, None, None, RevokedAll(r.count))]
  {
    CallIs(cfg, s, pid, true, "");
    hide Apply, OwnSteps, Working;
  }

  lemma RevokeAllIs(w: World, cfg: Config, user: string, now: int, f: Faults)
    requires cfg.cached && !f.store && WellFormed(w.rows)
    ensures
      var live := LiveOf(w.rows, user, now);
      && live <= w.rows.Keys
      && RevokeAll(w, cfg, user, now, f) ==
           if user == "" then (w, Err(ArgumentRequired))
           else (World(Revoke(w.rows, live, now), Evict(w.entries, HashSet(w.rows, live) - f.cacheDel)), Ok(|live|))
  {
    if user != "" {
      RevokeAllAlone(w, cfg, user, now, f);
      var live := LiveOf(w.rows, user, now);
      NoEmptyHash(w.rows, live);
      assert HashSet(w.rows, live) - {""} - f.cacheDel == HashSet(w.rows, live) - f.cacheDel;
    }
  }

  /** RevokeUserSessions, undisturbed. */
  lemma {:induction false} UndisturbedRevokeUser(cfg: Config, s: State, pid: nat, user: string, f: Faults)
    returns (steps: seq<Action>)
    requires s.history != [] && pid !in s.requests && cfg.cached && !f.store && WellFormed(s.rows)
    ensures OwnSteps(steps, pid)
    ensures
      var t := Continue(cfg, s, steps);
      var (w, result) := RevokeAll(WorldOf(s), cfg, user, s.now, f);
      && WorldOf(t) == w && t.requests == s.requests[pid := Finished(RevokeAllReply(result))]
      && t.now == s.now && t.issued == s.issued && t.origins == s.origins
  {
    hide Apply, OwnSteps, Working, Effect, NextCall, LiveOf, HashSet, Revoke, RevokeAll, WellFormed;
    var start, call := StartRevokeUser(pid, user), Call(pid, true, "");
    RevokeUserStarts(cfg, s, pid, user);
    RevokeAllIs(WorldOf(s), cfg, user, s.now, f);
    var s1 := Apply(cfg, s, start);
    var s2 := Apply(cfg, s1, call);
    SelectIs(cfg, s1, pid);
    if user == "" {
      ContinueNone(cfg, s2);
      ContinueOne(cfg, s1, call, []);
      ContinueOne(cfg, s, start, [call] + []);
      steps := [start] + ([call] + []);
    } else {
      var s3 := Apply(cfg, s2, call);
      UpdateIs(cfg, s2, pid);
      var rest := EvictAndGoOn(cfg, s3, pid, f.cacheDel);
      ContinueOne(cfg, s2, call, rest);
      ContinueOne(cfg, s1, call, [call] + rest);
      ContinueOne(cfg, s, start, [call] + ([call] + rest));
      steps := [start] + ([call] + ([call] + rest));
    }
  }

  // ----- mints -----

  lemma InsertIs(cfg: Config, s: State, pid: nat)
    requires s.history != [] && pid in s.requests && s.requests[pid].Inserting? && s.requests[pid].draft.id !in s.issued
    ensures
      var r := s.requests[pid];
      var c := CreateEnforcingCap(s.rows, r.draft, cfg.sessionsPerUser, s.now);
      var t := Apply(cfg, s, Call(pid, true, ""));
      && t.now == s.now && t.entries == s.entries
      && if c.CreateFailed? then
           && t.rows == s.rows
           && t.requests == s.requests[pid := Finished(Refused(StoreFailed(c.error)))]
         else
           && t.rows == c.rows && c.revoked <= s.rows.Keys
           && t.requests == s.requests[pid := Caching(c.saved, r.at, |s.history|, HashSet(s.rows, c.revoked))]
  {
    CallIs(cfg, s, pid, true, "");
    hide Apply, OwnSteps, Working, CreateEnforcingCap, HashSet;
    CreatedRevokes(s.rows, s.requests[pid].draft, cfg.sessionsPerUser, s.now);
  }

  lemma PutIs(cfg: Config, s: State, pid: nat, ok: bool)
    requires s.history != [] && pid in s.requests && s.requests[pid].Caching?
    ensures
      var r := s.requests[pid];
      var t := Apply(cfg, s, Call(pid, ok, ""));
      && t.now == s.now && t.rows == s.rows
      && t.entries == (if ok then PutAt(s.entries, r.session, r.at, s.now) else s.entries)
      && t.requests == s.requests[pid := Evicting(r.revoked, None, None, Issued(r.session))]
  {
    CallIs(cfg, s, pid, ok, "");
    hide Apply, OwnSteps, Working;
  }

  lemma ClockIs(cfg: Config, s: State, pid: nat)
    requires s.history != [] && pid in s.requests && s.requests[pid].Minting?
    ensures
      var r := s.requests[pid];
      Alike(Apply(cfg, s, Call(pid, true, "")),
            Move(s, pid, if r.draft.userId == "" || r.draft.organizationId == "" || r.draft.authMode == ""
                         then Finished(Refused(ArgumentRequired))
                         else Inserting(r.draft.(expiresAt := s.now + cfg.ttl), s.now, r.gone)))
  {
    CallIs(cfg, s, pid, true, "");
    hide Apply, OwnSteps, Working;
  }

  /** From the clock reading on. */
  lemma {:induction false} MintSteps(
    cfg: Config, s: State, pid: nat, hashToken: string -> string, req: MintRequest, draw: Draw, f: Faults)
    returns (calls: seq<Action>)
    requires s.history != [] && pid in s.requests && s.requests[pid].Minting? && WellFormed(s.rows)
    requires cfg.cached && !f.store && !draw.failed && draw.id !in s.issued
    requires s.requests[pid].draft.(expiresAt := s.now + cfg.ttl) == NewSession(hashToken, cfg, req, draw, s.now)
    ensures OwnSteps(calls, pid)
    ensures
      var t := Continue(cfg, s, calls);
      var (w, result) := Mint(hashToken, WorldOf(s), cfg, req, draw, s.now, f);
      && WorldOf(t) == w && t.now == s.now && t.requests == s.requests[pid := Finished(MintReply(result))]
  {
    hide Apply, OwnSteps, Working, NextCall, CreateEnforcingCap, HashSet, PutAt, WellFormed, Mint;
    var draft := NewSession(hashToken, cfg, req, draw, s.now);
    assert draft.userId == req.userId && draft.organizationId == req.organizationId && draft.authMode == req.authMode;
    var call, put := Call(pid, true, ""), Call(pid, !f.cacheSet, "");
    var s1 := Apply(cfg, s, call);
    ClockIs(cfg, s, pid);
    if req.userId == "" || req.organizationId == "" || req.authMode == "" {
      BlankMint(hashToken, WorldOf(s), cfg, req, draw, s.now, f);
      ContinueNone(cfg, s1);
      ContinueOne(cfg, s, call, []);
      calls := [call] + [];
      return;
    }
    assert s1.requests[pid] == Inserting(draft, s.now, s.requests[pid].gone) && draft.id == draw.id;
    var s2 := Apply(cfg, s1, call);
    InsertIs(cfg, s1, pid);
    var created := CreateEnforcingCap(s.rows, draft, cfg.sessionsPerUser, s.now);
    if created.CreateFailed? {
      FailedMint(hashToken, WorldOf(s), cfg, req, draw, s.now, f);
      ContinueNone(cfg, s2);
      ContinueOne(cfg, s1, call, []);
      ContinueOne(cfg, s, call, [call] + []);
      calls := [call] + ([call] + []);
    } else {
      var s3 := Apply(cfg, s2, put);
      PutIs(cfg, s2, pid, !f.cacheSet);
      var hashes := HashSet(s.rows, created.revoked);
      NoEmptyHash(s.rows, created.revoked);
      assert hashes - {""} - f.cacheDel == hashes - f.cacheDel;
      CreatedMint(hashToken, WorldOf(s), cfg, req, draw, s.now, f);
      var rest := EvictAndGoOn(cfg, s3, pid, f.cacheDel);
      ContinueOne(cfg, s2, put, rest);
      ContinueOne(cfg, s1, call, [put] + rest);
      ContinueOne(cfg, s, call, [call] + ([put] + rest));
      calls := [call] + ([call] + ([put] + rest));
    }
  }

  lemma BlankMint(hashToken: string -> string, w: World, cfg: Config, req: MintRequest, draw: Draw, now: int, f: Faults)
    requires req.userId == "" || req.organizationId == "" || req.authMode == ""
    ensures Mint(hashToken, w, cfg, req, draw, now, f) == (w, Err(ArgumentRequired))
  {
  }

  lemma NoEmptyHash(rows: Rows, ids: set<string>)
    requires WellFormed(rows) && ids <= rows.Keys
    ensures "" !in HashSet(rows, ids)
  {
  }

  lemma MintStarts(cfg: Config, s: State, pid: nat, draft: Session)
    requires s.history != [] && pid !in s.requests
    ensures Alike(Apply(cfg, s, StartMint(pid, draft)), Move(s, pid, Minting(draft, None)))
  {
    StartIs(cfg, s, StartMint(pid, draft), pid, Minting(draft, None));
  }

  /** MintSession, undisturbed. */
  lemma {:induction false} UndisturbedMint(
    cfg: Config, s: State, pid: nat, hashToken: string -> string, req: MintRequest, draw: Draw, f: Faults)
    returns (steps: seq<Action>)
    requires s.history != [] && pid !in s.requests && WellFormed(s.rows)
    requires cfg.cached && !f.store && !draw.failed && draw.id !in s.issued
    ensures OwnSteps(steps, pid)
    ensures
      var t := Continue(cfg, s, steps);
      var (w, result) := Mint(hashToken, WorldOf(s), cfg, req, draw, s.now, f);
      && WorldOf(t) == w && t.now == s.now && t.requests == s.requests[pid := Finished(MintReply(result))]
  {
    var a := StartMint(pid, NewSession(hashToken, cfg, req, draw, s.now));
    hide Apply, OwnSteps, Working, Mint, WellFormed, Effect;
    MintStarts(cfg, s, pid, NewSession(hashToken, cfg, req, draw, s.now));
    var rest := MintSteps(cfg, Apply(cfg, s, a), pid, hashToken, req, draw, f);
    ContinueOne(cfg, s, a, rest);
    steps := [a] + rest;
  }

  /** RotateSessionForOrg, undisturbed. */
  lemma {:induction false} UndisturbedRotate(
    cfg: Config, s: State, pid: nat, id: string, hash: string,
    hashToken: string -> string, req: MintRequest, draw: Draw, mid: Faults, f: Faults)
    returns (steps: seq<Action>)
    requires s.history != [] && pid !in s.requests && WellFormed(s.rows)
    requires cfg.cached && !mid.store && !f.store && !draw.failed && draw.id !in s.issued
    ensures OwnSteps(steps, pid)
    ensures
      var t := Continue(cfg, s, steps);
      var (w, result) := Rotate(hashToken, WorldOf(s), cfg, id, hash, req, draw, s.now, s.now, mid, f);
      && WorldOf(t) == w && t.now == s.now && t.requests == s.requests[pid := Finished(MintReply(result))]
  {
    hide Apply, OwnSteps, Working, Effect, Mint, WellFormed, RevokeOne, NewSession;
    var draft := NewSession(hashToken, cfg, req, draw, s.now);
    var a := StartRotate(pid, id, hash, draft);
    var s1 := Apply(cfg, s, a);
    RotateStarts(cfg, s, pid, id, hash, draft);
    var revoke, gone := RevokeSteps(cfg, s1, pid, mid);
    ContinueOne(cfg, s, a, revoke);
    var t := Continue(cfg, s1, revoke);
    RevokedWorld(WorldOf(s), cfg, id, hash, s.now, mid);
    if id == "" {
      steps := [a] + revoke;
    } else {
      DraftIsNew(cfg, hashToken, req, draw, s.now);
      var rest := MintSteps(cfg, t, pid, hashToken, req, draw, f);
      ContinueConcat(cfg, s, [a] + revoke, rest);
      steps := ([a] + revoke) + rest;
    }
  }

  lemma RotateStarts(cfg: Config, s: State, pid: nat, id: string, hash: string, draft: Session)
    requires s.history != [] && pid !in s.requests
    ensures Alike(Apply(cfg, s, StartRotate(pid, id, hash, draft)), Move(s, pid, Revoking(id, hash, Some(draft))))
  {
    StartIs(cfg, s, StartRotate(pid, id, hash, draft), pid, Revoking(id, hash, Some(draft)));
  }

  lemma RevokedWorld(w: World, cfg: Config, id: string, hash: string, now: int, f: Faults)
    requires WellFormed(w.rows) && !f.store
    ensures WellFormed(RevokeOne(w, cfg, id, hash, now, f).0.rows)
    ensures RevokeOne(w, cfg, id, hash, now, f).1 == if id == "" then Err(ArgumentRequired) else Ok(())
  {
    RevokeKeepsWellFormed(w.rows, {id}, now);
  }

  lemma DraftIsNew(cfg: Config, hashToken: string -> string, req: MintRequest, draw: Draw, now: int)
    ensures
      var draft := NewSession(hashToken, cfg, req, draw, now);
      draft.(expiresAt := now + cfg.ttl) == draft
  {
  }

  // ----- validations -----

  lemma ReadIs(cfg: Config, s: State, pid: nat)
    requires s.history != [] && pid in s.requests && s.requests[pid].Reading?
    ensures
      var r := s.requests[pid];
      var found := FindByHash(s.rows, r.hash);
      Alike(Apply(cfg, s, Call(pid, true, "")),
            Move(s, pid, if found.Some? && found.value.Live(r.at)
                         then Touching(r.hash, r.at, found.value, |s.history| - 1)
                         else Finished(NO_SESSION)))
  {
    CallIs(cfg, s, pid, true, "");
    hide Apply, OwnSteps, Working;
  }

  lemma TouchIs(cfg: Config, s: State, pid: nat, ok: bool)
    requires s.history != [] && pid in s.requests && s.requests[pid].Touching?
    ensures
      var r := s.requests[pid];
      Alike(Apply(cfg, s, Call(pid, ok, "")),
            s.(rows := if ok then Touch(s.rows, r.session.id, s.now) else s.rows,
               requests := s.requests[pid := Storing(r.hash, r.at, r.session.(lastSeenAt := r.at), r.readStep)]))
  {
    CallIs(cfg, s, pid, ok, "");
    hide Apply, OwnSteps, Working;
  }

  lemma StoreIs(cfg: Config, s: State, pid: nat, ok: bool)
    requires s.history != [] && pid in s.requests && s.requests[pid].Storing?
    ensures
      var r := s.requests[pid];
      var t := Apply(cfg, s, Call(pid, ok, ""));
      && t.now == s.now && t.rows == s.rows && t.issued == s.issued
      && t.entries == (if ok then PutAt(s.entries, r.session, r.at, s.now) else s.entries)
      && t.origins == (if ok && PutTtl(r.session, r.at).Some?
                       then s.origins[r.session.tokenHash := Origin(r.readStep, s.now)] else s.origins)
      && t.requests == s.requests[pid := Returned(r.hash, r.at, r.session, FromTable(r.readStep))]
  {
    CallIs(cfg, s, pid, ok, "");
    hide Apply, OwnSteps, Working;
  }

  /** From the table read on. */
  lemma {:induction false} ReadSteps(cfg: Config, s: State, pid: nat, f: Faults) returns (calls: seq<Action>)
    requires s.history != [] && pid in s.requests && s.requests[pid].Reading? && s.requests[pid].at == s.now
    ensures OwnSteps(calls, pid)
    ensures
      var r := s.requests[pid];
      var t := Continue(cfg, s, calls);
      match FindByHash(s.rows, r.hash)
      case Some(row) =>
        if row.Live(s.now) then
          var seen := row.(lastSeenAt := s.now);
          && t.rows == (if f.touch then s.rows else Touch(s.rows, row.id, s.now))
          && t.entries == (if f.cacheSet then s.entries else PutAt(s.entries, seen, s.now, s.now))
          && pid in t.requests && t.requests[pid].Returned? && t.requests[pid].session == seen
        else t.rows == s.rows && t.entries == s.entries && t.requests == s.requests[pid := Finished(NO_SESSION)]
      case None => t.rows == s.rows && t.entries == s.entries && t.requests == s.requests[pid := Finished(NO_SESSION)]
  {
    hide Apply, OwnSteps, Working, NextCall, FindByHash, PutAt, Touch;
    var r := s.requests[pid];
    var read, touch, put := Call(pid, true, ""), Call(pid, !f.touch, ""), Call(pid, !f.cacheSet, "");
    var s1 := Apply(cfg, s, read);
    ReadIs(cfg, s, pid);
    var found := FindByHash(s.rows, r.hash);
    if found.Some? && found.value.Live(s.now) {
      var s2 := Apply(cfg, s1, touch);
      TouchIs(cfg, s1, pid, !f.touch);
      var s3 := Apply(cfg, s2, put);
      StoreIs(cfg, s2, pid, !f.cacheSet);
      ContinueNone(cfg, s3);
      ContinueOne(cfg, s2, put, []);
      ContinueOne(cfg, s1, touch, [put] + []);
      ContinueOne(cfg, s, read, [touch] + ([put] + []));
      calls := [read] + ([touch] + ([put] + []));
    } else {
      ContinueNone(cfg, s1);
      ContinueOne(cfg, s, read, []);
      calls := [read] + [];
    }
  }

  lemma LookIs(cfg: Config, s: State, pid: nat, ok: bool)
    requires s.history != [] && pid in s.requests && s.requests[pid].Looking?
    ensures
      var r := s.requests[pid];
      var hit := if ok then Lookup(s.entries, r.hash, s.now) else None;
      var t := Apply(cfg, s, Call(pid, ok, ""));
      && WorldOf(t) == WorldOf(s) && t.now == s.now && pid in t.requests
      && t.requests == s.requests[pid := t.requests[pid]]
      && if hit.None? then t.requests[pid] == Reading(r.hash, r.at)
         else if hit.value.Live(r.at) then t.requests[pid].Returned? && t.requests[pid].session == hit.value
         else t.requests[pid] == Evicting({r.hash}, None, None, NO_SESSION)
  {
    CallIs(cfg, s, pid, ok, "");
    hide Apply;
  }

  lemma ValidateIs(hashToken: string -> string, w: World, cfg: Config, token: string, now: int, f: Faults)
    requires WellFormed(w.rows) && cfg.cached && !f.store && token != ""
    ensures
      var hash := hashToken(token);
      var hit := if f.cacheGet then None else Lookup(w.entries, hash, now);
      var row := FindByHash(w.rows, hash);
      Validate(hashToken, w, cfg, token, now, f) ==
        if hit.Some? then
          if hit.value.Live(now) then (w, Ok(hit.value))
          else (w.(entries := Evict(w.entries, {hash} - f.cacheDel)), Err(SessionNotFound))
        else if row.None? || !row.value.Live(now) then (w, Err(SessionNotFound))
        else
          var seen := row.value.(lastSeenAt := now);
          (World(if f.touch then w.rows else Touch(w.rows, row.value.id, now),
                 if f.cacheSet then w.entries else PutAt(w.entries, seen, now, now)), Ok(seen))
  {
    FoundHasId(w.rows, hashToken(token));
    hide WellFormed, PutAt, Touch, FindByHash, Evict;
  }

  /** The state in which a validation, started in `s`, has come to `result`. */
  ghost predicate Validated(s: State, pid: nat, t: State, w: World, result: Result<Session, StoreError>) {
    && WorldOf(t) == w && pid in t.requests
    && (result.Ok? ==> t.requests[pid].Returned? && t.requests[pid].session == result.value)
    && (result.Err? ==> t.requests == s.requests[pid := Finished(Refused(StoreFailed(result.error)))])
  }

  /** From the table read, or the eviction of a dead entry, on. */
  lemma {:induction false} LookedSteps(cfg: Config, s: State, pid: nat, hashToken: string -> string, token: string,
                                       f: Faults)
    returns (calls: seq<Action>)
    requires s.history != [] && pid in s.requests && s.requests[pid] == Looking(hashToken(token), s.now)
    requires WellFormed(s.rows) && cfg.cached && !f.store && token != ""
    ensures OwnSteps(calls, pid)
    ensures
      var (w, result) := Validate(hashToken, WorldOf(s), cfg, token, s.now, f);
      Validated(s, pid, Continue(cfg, Apply(cfg, s, Call(pid, !f.cacheGet, "")), calls), w, result)
  {
    var hash := hashToken(token);
    var t := Apply(cfg, s, Call(pid, !f.cacheGet, ""));
    LookIs(cfg, s, pid, !f.cacheGet);
    ValidateIs(hashToken, WorldOf(s), cfg, token, s.now, f);
    var hit := if f.cacheGet then None else Lookup(s.entries, hash, s.now);
    hide Apply, OwnSteps, Working, WellFormed, PutAt, Touch, Validate, FindByHash, Evict, Lookup;
    if hit.Some? && hit.value.Live(s.now) {
      ContinueNone(cfg, t);
      calls := [];
    } else if hit.Some? {
      calls := EvictAndGoOn(cfg, t, pid, f.cacheDel);
    } else {
      calls := ReadSteps(cfg, t, pid, f);
    }
  }

  lemma ValidateStarts(cfg: Config, s: State, pid: nat, hash: string)
    requires s.history != [] && pid !in s.requests
    ensures Alike(Apply(cfg, s, StartValidate(pid, hash)), Move(s, pid, Looking(hash, s.now)))
  {
    StartIs(cfg, s, StartValidate(pid, hash), pid, Looking(hash, s.now));
  }

  /** ValidateSession, undisturbed: the same table and cache, and the same answer. */
  lemma {:induction false} UndisturbedValidate(
    cfg: Config, s: State, pid: nat, hashToken: string -> string, token: string, f: Faults)
    returns (steps: seq<Action>)
    requires s.history != [] && pid !in s.requests && WellFormed(s.rows) && cfg.cached && !f.store && token != ""
    ensures OwnSteps(steps, pid)
    ensures
      var (w, result) := Validate(hashToken, WorldOf(s), cfg, token, s.now, f);
      Validated(s, pid, Continue(cfg, s, steps), w, result)
  {
    hide Apply, OwnSteps, Working, WellFormed, Validate, Effect, NextCall, Continue;
    var start, look := StartValidate(pid, hashToken(token)), Call(pid, !f.cacheGet, "");
    var s1 := Apply(cfg, s, start);
    ValidateStarts(cfg, s, pid, hashToken(token));
    var rest := LookedSteps(cfg, s1, pid, hashToken, token, f);
    ContinueOne(cfg, s1, look, rest);
    ContinueOne(cfg, s, start, [look] + rest);
    steps := [start] + ([look] + rest);
    var (w, result) := Validate(hashToken, WorldOf(s), cfg, token, s.now, f);
    StartedBefore(s, s1, pid, Continue(cfg, s, steps), w, result);
  }

  /** The start of a validation only makes it pending. */
  lemma StartedBefore(s: State, s1: State, pid: nat, t: State, w: World, result: Result<Session, StoreError>)
    requires s1.requests - {pid} == s.requests - {pid} && Validated(s1, pid, t, w, result)
    ensures Validated(s, pid, t, w, result)
  {
    assert forall q | q in s.requests && q != pid :: q in s.requests - {pid};
    assert forall q | q in s1.requests && q != pid :: q in s1.requests - {pid};
  }

  lemma FoundHasId(rows: Rows, hash: string)
    requires WellFormed(rows)
    ensures FindByHash(rows, hash).Some? ==> FindByHash(rows, hash).value.id != ""
  {
  }
}
