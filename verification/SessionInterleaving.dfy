/** Every interleaving of mints, validations, revocations and rotations, one
    store or cache call at a time. Cache calls may fail, and any request may
    die between two of its calls. */
module SessionInterleaving {
  import opened Wrappers
  import opened SessionModel
  import opened SessionStore
  import opened SessionCache
  import opened SessionManager

  /** Where a cache entry comes from: the table snapshot its session was read or
      inserted in, and the instant of the Put. */
  datatype Origin = Origin(readStep: nat, putTime: int)

  datatype Source = FromCache(origin: Origin, getTime: int) | FromTable(readStep: nat)

  /** What a request comes to that does not return a validated session. */
  datatype Reply = Issued(session: Session) | RevokedOne | RevokedAll(count: nat) | Refused(error: AuthError)

  const NO_SESSION := Refused(StoreFailed(SessionNotFound))

  /** A request, by the call it makes next. `at` is the clock it captured when it
      started, `gone` the session that a rotation has already revoked. */
  datatype Request =
    | Looking(hash: string, at: int)
    | Reading(hash: string, at: int)
    | Touching(hash: string, at: int, session: Session, readStep: nat)
    | Storing(hash: string, at: int, session: Session, readStep: nat)
    | Returned(hash: string, at: int, session: Session, source: Source)
    | Minting(draft: Session, gone: Option<string>)
    | Inserting(draft: Session, at: int, gone: Option<string>)
    | Caching(session: Session, at: int, readStep: nat, revoked: set<string>)
    | Revoking(id: string, hash: string, next: Option<Session>)
    | RevokingUser(user: string)
    | UpdatingUser(user: string, at: int, selected: set<string>, count: nat)
    | Evicting(hashes: set<string>, next: Option<Session>, gone: Option<string>, reply: Reply)
    | Finished(reply: Reply)

  datatype State = State(
    now: int,
    rows: Rows,
    history: seq<Rows>,        // every table so far; the last one is `rows`
    entries: Entries,
    origins: map<string, Origin>,
    requests: map<nat, Request>,
    issued: set<string>,       // the ids ever inserted: a UUID is not drawn twice
    rotations: set<(string, string)>)

  datatype Action =
    | Tick(dt: nat)
    | StartValidate(pid: nat, hash: string)
    | StartMint(pid: nat, draft: Session)
    | StartRevoke(pid: nat, id: string, hash: string)
    | StartRevokeUser(pid: nat, user: string)
    | StartRotate(pid: nat, id: string, hash: string, draft: Session)
    | Call(pid: nat, ok: bool, pick: string)  // ok: the cache answers; pick: which hash to evict
    | Die(pid: nat)
    | SweepRows(olderThan: int)

  const INITIAL := State(0, map[], [map[]], map[], map[], map[], {}, {})

  ghost function Move(s: State, pid: nat, r: Request): State {
    s.(requests := s.requests[pid := r])
  }

  ghost function CallLooking(s: State, pid: nat, r: Request, ok: bool): State
    requires r.Looking?
  {
    var hit := if ok then Lookup(s.entries, r.hash, s.now) else None;
    if hit.None? then Move(s, pid, Reading(r.hash, r.at))
    else if !hit.value.Live(r.at) then Move(s, pid, Evicting({r.hash}, None, None, NO_SESSION))
    else
      var origin := if r.hash in s.origins then s.origins[r.hash] else Origin(0, 0);
      Move(s, pid, Returned(r.hash, r.at, hit.value, FromCache(origin, s.now)))
  }

  ghost function CallReading(s: State, pid: nat, r: Request): State
    requires r.Reading? && s.history != []
  {
    match FindByHash(s.rows, r.hash)
    case None => Move(s, pid, Finished(NO_SESSION))
    case Some(row) =>
      if row.Live(r.at) then Move(s, pid, Touching(r.hash, r.at, row, |s.history| - 1))
      else Move(s, pid, Finished(NO_SESSION))
  }

  /** A Put of `session`, read at `readStep`, with the captured clock `at`. */
  ghost function Put(s: State, session: Session, at: int, readStep: nat, ok: bool): State {
    if ok && PutTtl(session, at).Some? then
      s.(entries := PutAt(s.entries, session, at, s.now),
         origins := s.origins[session.tokenHash := Origin(readStep, s.now)])
    else s
  }

  ghost function CallInserting(cfg: Config, s: State, pid: nat, r: Request): State
    requires r.Inserting?
  {
    var c := CreateEnforcingCap(s.rows, r.draft, cfg.sessionsPerUser, s.now);
    if c.CreateFailed? then Move(s, pid, Finished(Refused(StoreFailed(c.error))))
    else if r.draft.id in s.issued then Move(s, pid, Finished(Refused(StoreFailed(UniqueViolation))))
    else
      var rotations := if r.gone.Some? then s.rotations + {(r.gone.value, r.draft.id)} else s.rotations;
      Move(s.(rows := c.rows, issued := s.issued + {r.draft.id}, rotations := rotations),
           pid, Caching(c.saved, r.at, |s.history|, HashSet(s.rows, c.revoked)))
  }

  ghost function CallRevoking(s: State, pid: nat, r: Request): State
    requires r.Revoking?
  {
    if r.id == "" then Move(s, pid, Finished(Refused(ArgumentRequired)))
    else
      var gone := if r.id in s.issued then Some(r.id) else None;
      Move(s.(rows := Revoke(s.rows, {r.id}, s.now)), pid,
           Evicting(if r.hash == "" then {} else {r.hash}, r.next, gone, RevokedOne))
  }

  /** The SELECT of RevokeUserSessions; NOW() is the transaction's own clock. */
  ghost function CallRevokingUser(s: State, pid: nat, r: Request): State
    requires r.RevokingUser?
  {
    if r.user == "" then Move(s, pid, Finished(Refused(ArgumentRequired)))
    else
      var live := LiveOf(s.rows, r.user, s.now);
      Move(s, pid, UpdatingUser(r.user, s.now, HashSet(s.rows, live), |live|))
  }

  /** Its UPDATE, which also meets sessions committed since; their hashes are not known. */
  ghost function CallUpdatingUser(s: State, pid: nat, r: Request): State
    requires r.UpdatingUser?
  {
    Move(s.(rows := Revoke(s.rows, LiveOf(s.rows, r.user, r.at), r.at)), pid,
         Evicting(r.selected, None, None, RevokedAll(r.count)))
  }

  ghost function CallEvicting(s: State, pid: nat, r: Request, ok: bool, pick: string): State
    requires r.Evicting?
  {
    if r.hashes == {} then
      Move(s, pid, if r.next.Some? then Minting(r.next.value, r.gone) else Finished(r.reply))
    else if pick !in r.hashes then s
    else
      Move(if ok then s.(entries := Evict(s.entries, {pick})) else s,
           pid, r.(hashes := r.hashes - {pick}))
  }

  ghost function NextCall(cfg: Config, s: State, pid: nat, ok: bool, pick: string): State
    requires s.history != []
  {
    if pid !in s.requests then s
    else
      var r := s.requests[pid];
      match r
      case Looking(_, _) => CallLooking(s, pid, r, ok)
      case Reading(_, _) => CallReading(s, pid, r)
      case Touching(hash, at, session, readStep) =>
        Move(if ok then s.(rows := Touch(s.rows, session.id, s.now)) else s,
             pid, Storing(hash, at, session.(lastSeenAt := at), readStep))
      case Storing(hash, at, session, readStep) =>
        Move(Put(s, session, at, readStep, ok), pid, Returned(hash, at, session, FromTable(readStep)))
      case Minting(draft, gone) =>
        Move(s, pid,
             if draft.userId == "" || draft.organizationId == "" || draft.authMode == ""
             then Finished(Refused(ArgumentRequired))
             else Inserting(draft.(expiresAt := s.now + cfg.ttl), s.now, gone))
      case Inserting(_, _, _) => CallInserting(cfg, s, pid, r)
      case Caching(session, at, readStep, revoked) =>
        Move(Put(s, session, at, readStep, ok), pid, Evicting(revoked, None, None, Issued(session)))
      case Revoking(_, _, _) => CallRevoking(s, pid, r)
      case RevokingUser(_) => CallRevokingUser(s, pid, r)
      case UpdatingUser(_, _, _, _) => CallUpdatingUser(s, pid, r)
      case Evicting(_, _, _, _) => CallEvicting(s, pid, r, ok, pick)
      case _ => s
  }

  ghost function Start(s: State, pid: nat, r: Request): State {
    if pid in s.requests then s else Move(s, pid, r)
  }

  /** The effect of an action, before the new table is put on record. */
  ghost function Effect(cfg: Config, s: State, a: Action): State
    requires s.history != []
  {
    match a
    case Tick(dt) => s.(now := s.now + dt)
    case StartValidate(pid, hash) => Start(s, pid, Looking(hash, s.now))
    case StartMint(pid, draft) => Start(s, pid, Minting(draft, None))
    case StartRevoke(pid, id, hash) => Start(s, pid, Revoking(id, hash, None))
    case StartRevokeUser(pid, user) => Start(s, pid, RevokingUser(user))
    case StartRotate(pid, id, hash, draft) => Start(s, pid, Revoking(id, hash, Some(draft)))
    case Call(pid, ok, pick) => NextCall(cfg, s, pid, ok, pick)
    case Die(pid) => s.(requests := s.requests - {pid})
    case SweepRows(olderThan) => s.(rows := Sweep(s.rows, olderThan))
  }

  ghost function Apply(cfg: Config, s: State, a: Action): (s': State)
    requires s.history != []
    ensures s'.history != []
  {
    var e := Effect(cfg, s, a);
    e.(history := s.history + [e.rows])
  }

  ghost function Exec(cfg: Config, actions: seq<Action>): (s: State)
    ensures s.history != []
    decreases |actions|
  {
    if actions == [] then INITIAL
    else Apply(cfg, Exec(cfg, actions[..|actions| - 1]), actions[|actions| - 1])
  }

  // ----- the invariant -----

  /** `v` is a copy of an un-revoked row of the `step`-th table. */
  ghost predicate Seen(history: seq<Rows>, step: nat, v: Session) {
    step < |history| && v.id in history[step] && Same(history[step][v.id], v) && v.revokedAt.None?
  }

  /** The session has been in the table and will never be live in it again. */
  ghost predicate Dead(s: State, id: string) {
    id in s.issued && (id in s.rows ==> s.rows[id].revokedAt.Some?)
  }

  ghost predicate TableInv(cfg: Config, s: State) {
    && s.history != [] && s.history[|s.history| - 1] == s.rows
    && WellFormed(s.rows) && s.rows.Keys <= s.issued
    && (cfg.sessionsPerUser >= 1 ==> CapHolds(s.rows, cfg.sessionsPerUser, s.now))
  }

  ghost predicate EntryInv(s: State, h: string) {
    h in s.entries ==>
      && h in s.origins
      && s.entries[h].value.sessionTokenHash == h
      && Seen(s.history, s.origins[h].readStep, ToSession(s.entries[h].value))
      && s.origins[h].putTime <= s.now
      && s.entries[h].expires <= s.origins[h].putTime + DAY
  }

  ghost predicate OldDead(s: State, gone: Option<string>) {
    gone.Some? ==> Dead(s, gone.value)
  }

  ghost predicate RequestInv(s: State, r: Request) {
    match r
    case Looking(_, at) => at <= s.now
    case Reading(_, at) => at <= s.now
    case Touching(hash, at, v, k) => at <= s.now && v.tokenHash == hash && v.Live(at) && Seen(s.history, k, v)
    case Storing(hash, at, v, k) => at <= s.now && v.tokenHash == hash && v.Live(at) && Seen(s.history, k, v)
    case Returned(hash, at, v, FromTable(k)) =>
      at <= s.now && v.tokenHash == hash && v.Live(at) && Seen(s.history, k, v)
    case Returned(hash, at, v, FromCache(o, got)) =>
      && v.tokenHash == hash && v.Live(at) && Seen(s.history, o.readStep, v)
      && at <= got <= s.now && o.putTime <= got <= o.putTime + DAY
    case Minting(_, gone) => OldDead(s, gone)
    case Inserting(_, _, gone) => OldDead(s, gone)
    case Caching(v, at, k, _) => Seen(s.history, k, v)
    case Evicting(_, _, gone, _) => OldDead(s, gone)
    case _ => true
  }

  ghost predicate RotationInv(s: State, pair: (string, string)) {
    Dead(s, pair.0) && pair.1 in s.issued
  }

  ghost predicate Inv(cfg: Config, s: State) {
    && TableInv(cfg, s)
    && (forall h :: EntryInv(s, h))
    && (forall pid | pid in s.requests :: RequestInv(s, s.requests[pid]))
    && (forall pair | pair in s.rotations :: RotationInv(s, pair))
  }

  /** What every step does to the past: time and the record grow, dead sessions stay dead. */
  ghost predicate Grows(s: State, s': State) {
    && s.now <= s'.now
    && s.history <= s'.history
    && s.issued <= s'.issued
    && (forall id | Dead(s, id) :: Dead(s', id))
  }

  lemma GrowthKeepsRequest(s: State, s': State, r: Request)
    requires Grows(s, s') && RequestInv(s, r)
    ensures RequestInv(s', r)
  {
  }

  lemma GrowthKeepsEntry(s: State, s': State, h: string)
    requires Grows(s, s') && EntryInv(s, h)
    requires h in s'.entries ==>
               h in s.entries && s'.entries[h] == s.entries[h] && h in s'.origins
               && (h in s.origins ==> s'.origins[h] == s.origins[h])
    ensures EntryInv(s', h)
  {
  }

  /** The frame of every step: what it does not touch stays as it was, so only
      the table, the entry and the request it touches need looking at. */
  lemma StepKeepsInv(cfg: Config, s: State, s': State)
    requires Inv(cfg, s) && Grows(s, s') && TableInv(cfg, s')
    requires forall h | h in s'.entries ::
               || EntryInv(s', h)
               || (h in s.entries && s'.entries[h] == s.entries[h] && h in s'.origins
                   && (h in s.origins ==> s'.origins[h] == s.origins[h]))
    requires forall pid | pid in s'.requests ::
               || RequestInv(s', s'.requests[pid])
               || (pid in s.requests && s'.requests[pid] == s.requests[pid])
    requires forall pair | pair in s'.rotations :: pair in s.rotations || RotationInv(s', pair)
    ensures Inv(cfg, s')
  {
    forall h
      ensures EntryInv(s', h)
    {
      if h in s'.entries && !EntryInv(s', h) {
        GrowthKeepsEntry(s, s', h);
      }
    }
    forall pid | pid in s'.requests
      ensures RequestInv(s', s'.requests[pid])
    {
      if pid in s.requests && s'.requests[pid] == s.requests[pid] {
        GrowthKeepsRequest(s, s', s.requests[pid]);
      }
    }
    forall pair | pair in s'.rotations
      ensures RotationInv(s', pair)
    {
    }
  }

  // ----- the table from step to step -----

  /** No row becomes more alive: rows may vanish, be revoked, be touched or expire. */
  ghost predicate Onward(s: State, s': State) {
    forall id | id in s'.rows ::
      && id in s.rows && s.rows[id].userId == s'.rows[id].userId
      && (s'.rows[id].Live(s'.now) ==> s.rows[id].Live(s.now))
      && (s.rows[id].revokedAt.Some? ==> s'.rows[id].revokedAt.Some?)
  }

  lemma OnwardTable(cfg: Config, s: State, s': State)
    requires TableInv(cfg, s) && s'.history == s.history + [s'.rows]
    requires s.now <= s'.now && s.issued == s'.issued
    requires WellFormed(s'.rows) && Onward(s, s')
    ensures TableInv(cfg, s') && Grows(s, s')
  {
    if cfg.sessionsPerUser >= 1 {
      LessLiveKeepsCap(s.rows, s'.rows, cfg.sessionsPerUser, s.now, s'.now);
    }
  }

  lemma RevokedTable(cfg: Config, s: State, s': State, ids: set<string>, at: int)
    requires TableInv(cfg, s) && s'.history == s.history + [s'.rows]
    requires s.now == s'.now && s.issued == s'.issued && s'.rows == Revoke(s.rows, ids, at)
    ensures TableInv(cfg, s') && Grows(s, s')
    ensures forall id | id in ids && id in s.issued :: Dead(s', id)
  {
    RevokeKeepsWellFormed(s.rows, ids, at);
    OnwardTable(cfg, s, s');
  }

  lemma TouchedTable(cfg: Config, s: State, s': State, id: string)
    requires TableInv(cfg, s) && s'.history == s.history + [s'.rows]
    requires s.now == s'.now && s.issued == s'.issued && s'.rows == Touch(s.rows, id, s.now)
    ensures TableInv(cfg, s') && Grows(s, s')
  {
    TouchKeepsWellFormed(s.rows, id, s.now);
    OnwardTable(cfg, s, s');
  }

  lemma SweptTable(cfg: Config, s: State, s': State, olderThan: int)
    requires TableInv(cfg, s) && s'.history == s.history + [s'.rows]
    requires s.now == s'.now && s.issued == s'.issued && s'.rows == Sweep(s.rows, olderThan)
    ensures TableInv(cfg, s') && Grows(s, s')
  {
    SweepKeepsWellFormed(s.rows, olderThan);
    OnwardTable(cfg, s, s');
  }

  lemma InsertedTable(cfg: Config, s: State, s': State, draft: Session)
    requires TableInv(cfg, s) && s'.history == s.history + [s'.rows] && draft.id !in s.issued
    requires CreateEnforcingCap(s.rows, draft, cfg.sessionsPerUser, s.now).Created?
    requires s'.rows == CreateEnforcingCap(s.rows, draft, cfg.sessionsPerUser, s.now).rows
    requires s.now == s'.now && s'.issued == s.issued + {draft.id}
    ensures TableInv(cfg, s') && Grows(s, s')
  {
    CreateKeepsWellFormed(s.rows, draft, cfg.sessionsPerUser, s.now);
    MintRevokesOldestExcess(s.rows, draft, cfg.sessionsPerUser, s.now);
    if cfg.sessionsPerUser >= 1 {
      MintKeepsCap(s.rows, draft, cfg.sessionsPerUser, s.now);
    }
    hide WellFormed, CapHolds, LiveOf, Excess, OlderThanRest;
    forall id | Dead(s, id)
      ensures Dead(s', id)
    {
    }
  }

  // ----- each kind of step -----

  /** A step that changes neither table nor cache. */
  lemma MoveKeepsInv(cfg: Config, s: State, s': State, pid: nat, r: Request)
    requires Inv(cfg, s) && s' == Move(s, pid, r).(history := s.history + [s.rows])
    requires Grows(s, s') ==> RequestInv(s', r)
    ensures Inv(cfg, s') && Grows(s, s')
  {
    OnwardTable(cfg, s, s');
    assert forall h | h in s'.entries :: EntryInv(s, h);
    StepKeepsInv(cfg, s, s');
  }

  lemma PutKeepsInv(cfg: Config, s: State, pid: nat, session: Session, at: int, readStep: nat, ok: bool, next: Request,
                    s': State)
    requires Inv(cfg, s) && Seen(s.history, readStep, session)
    requires s' == Move(Put(s, session, at, readStep, ok), pid, next).(history := s.history + [s.rows])
    requires Grows(s, s') ==> RequestInv(s', next)
    ensures Inv(cfg, s') && Grows(s, s')
  {
    OnwardTable(cfg, s, s');
    CacheRoundTrip(session);
    assert EntryInv(s', session.tokenHash) by {
      assert EntryInv(s, session.tokenHash);
    }
    forall h | h in s'.entries && h != session.tokenHash
      ensures h in s.entries && s'.entries[h] == s.entries[h] && h in s'.origins
              && (h in s.origins ==> s'.origins[h] == s.origins[h])
    {
      assert EntryInv(s, h);
    }
    hide TableInv, EntryInv, RequestInv, RotationInv, Grows;
    StepKeepsInv(cfg, s, s');
  }

  lemma LookingKeepsInv(cfg: Config, s: State, pid: nat, ok: bool, pick: string)
    requires Inv(cfg, s) && pid in s.requests && s.requests[pid].Looking?
    ensures Inv(cfg, Apply(cfg, s, Call(pid, ok, pick))) && Grows(s, Apply(cfg, s, Call(pid, ok, pick)))
  {
    var r := s.requests[pid];
    var s' := Apply(cfg, s, Call(pid, ok, pick));
    assert RequestInv(s, r);
    assert EntryInv(s, r.hash);
    hide Inv, TableInv, WellFormed;
    MoveKeepsInv(cfg, s, s', pid, s'.requests[pid]);
  }

  lemma ReadingKeepsInv(cfg: Config, s: State, pid: nat, ok: bool, pick: string)
    requires Inv(cfg, s) && pid in s.requests && s.requests[pid].Reading?
    ensures Inv(cfg, Apply(cfg, s, Call(pid, ok, pick))) && Grows(s, Apply(cfg, s, Call(pid, ok, pick)))
  {
    var r := s.requests[pid];
    var s' := Apply(cfg, s, Call(pid, ok, pick));
    assert RequestInv(s, r);
    var found := FindByHash(s.rows, r.hash);
    if found.Some? && found.value.Live(r.at) {
      assert s.rows[found.value.id] == found.value;
      assert Seen(s.history, |s.history| - 1, found.value);
    }
    hide TableInv, WellFormed;
    MoveKeepsInv(cfg, s, s', pid, s'.requests[pid]);
  }

  lemma StoringKeepsInv(cfg: Config, s: State, pid: nat, ok: bool, pick: string)
    requires Inv(cfg, s) && pid in s.requests && s.requests[pid].Storing?
    ensures Inv(cfg, Apply(cfg, s, Call(pid, ok, pick))) && Grows(s, Apply(cfg, s, Call(pid, ok, pick)))
  {
    var r := s.requests[pid];
    var s' := Apply(cfg, s, Call(pid, ok, pick));
    assert RequestInv(s, r);
    hide Inv;
    PutKeepsInv(cfg, s, pid, r.session, r.at, r.readStep, ok, s'.requests[pid], s');
  }

  lemma CachingKeepsInv(cfg: Config, s: State, pid: nat, ok: bool, pick: string)
    requires Inv(cfg, s) && pid in s.requests && s.requests[pid].Caching?
    ensures Inv(cfg, Apply(cfg, s, Call(pid, ok, pick))) && Grows(s, Apply(cfg, s, Call(pid, ok, pick)))
  {
    var r := s.requests[pid];
    var s' := Apply(cfg, s, Call(pid, ok, pick));
    assert RequestInv(s, r);
    hide Inv;
    PutKeepsInv(cfg, s, pid, r.session, r.at, r.readStep, ok, s'.requests[pid], s');
  }

  lemma MintingKeepsInv(cfg: Config, s: State, pid: nat, ok: bool, pick: string)
    requires Inv(cfg, s) && pid in s.requests && s.requests[pid].Minting?
    ensures Inv(cfg, Apply(cfg, s, Call(pid, ok, pick))) && Grows(s, Apply(cfg, s, Call(pid, ok, pick)))
  {
    var r := s.requests[pid];
    var s' := Apply(cfg, s, Call(pid, ok, pick));
    assert RequestInv(s, r);
    hide Inv;
    MoveKeepsInv(cfg, s, s', pid, s'.requests[pid]);
  }

  lemma TouchingKeepsInv(cfg: Config, s: State, pid: nat, ok: bool, pick: string)
    requires Inv(cfg, s) && pid in s.requests && s.requests[pid].Touching?
    ensures Inv(cfg, Apply(cfg, s, Call(pid, ok, pick))) && Grows(s, Apply(cfg, s, Call(pid, ok, pick)))
  {
    var r := s.requests[pid];
    var s' := Apply(cfg, s, Call(pid, ok, pick));
    assert RequestInv(s, r);
    if ok {
      TouchedTable(cfg, s, s', r.session.id);
    } else {
      OnwardTable(cfg, s, s');
    }
    assert Seen(s.history, r.readStep, r.session.(lastSeenAt := r.at));
    assert forall h | h in s'.entries :: EntryInv(s, h);
    hide TableInv;
    StepKeepsInv(cfg, s, s');
  }

  lemma InsertingKeepsInv(cfg: Config, s: State, pid: nat, ok: bool, pick: string)
    requires Inv(cfg, s) && pid in s.requests && s.requests[pid].Inserting?
    ensures Inv(cfg, Apply(cfg, s, Call(pid, ok, pick))) && Grows(s, Apply(cfg, s, Call(pid, ok, pick)))
  {
    var r := s.requests[pid];
    var s' := Apply(cfg, s, Call(pid, ok, pick));
    assert RequestInv(s, r);
    var c := CreateEnforcingCap(s.rows, r.draft, cfg.sessionsPerUser, s.now);
    if r.draft.id in s.issued || c.CreateFailed? {
      MoveKeepsInv(cfg, s, s', pid, s'.requests[pid]);
    } else {
      InsertedKeepsInv(cfg, s, pid, r, c, s');
    }
  }

  lemma InsertedKeepsInv(cfg: Config, s: State, pid: nat, r: Request, c: CreateOutcome, s': State)
    requires Inv(cfg, s) && r.Inserting? && RequestInv(s, r) && r.draft.id !in s.issued
    requires c == CreateEnforcingCap(s.rows, r.draft, cfg.sessionsPerUser, s.now) && c.Created?
    requires s' == CallInserting(cfg, s, pid, r).(history := s.history + [c.rows])
    ensures Inv(cfg, s') && Grows(s, s')
  {
    InsertedTable(cfg, s, s', r.draft);
    InsertedIsSeen(s, s', c);
    assert s.history != [];
    assert forall h | h in s'.entries :: EntryInv(s, h);
    hide TableInv, CreateEnforcingCap, Seen, HashSet, EntryInv, Dead;
    StepKeepsInv(cfg, s, s');
  }

  lemma InsertedIsSeen(s: State, s': State, c: CreateOutcome)
    requires c.Created? && s'.history == s.history + [c.rows]
    requires c.saved.id in c.rows && c.rows[c.saved.id] == c.saved && c.saved.revokedAt.None?
    ensures Seen(s'.history, |s.history|, c.saved)
  {
  }

  lemma RevokedKeepsInv(cfg: Config, s: State, pid: nat, ids: set<string>, at: int, next: Request, s': State)
    requires Inv(cfg, s) && next.Evicting?
    requires next.gone.Some? ==> next.gone.value in ids && next.gone.value in s.issued
    requires s' == Move(s.(rows := Revoke(s.rows, ids, at)), pid, next).(history := s.history + [s'.rows])
    ensures Inv(cfg, s') && Grows(s, s')
  {
    RevokedTable(cfg, s, s', ids, at);
    assert forall h | h in s'.entries :: EntryInv(s, h);
    hide TableInv, Revoke, Dead;
    StepKeepsInv(cfg, s, s');
  }

  lemma RevokingKeepsInv(cfg: Config, s: State, pid: nat, ok: bool, pick: string)
    requires Inv(cfg, s) && pid in s.requests && s.requests[pid].Revoking?
    ensures Inv(cfg, Apply(cfg, s, Call(pid, ok, pick))) && Grows(s, Apply(cfg, s, Call(pid, ok, pick)))
  {
    var r := s.requests[pid];
    var s' := Apply(cfg, s, Call(pid, ok, pick));
    assert s.history != [];
    hide Inv, Revoke, Grows, RequestInv;
    if r.id == "" {
      FinishKeepsInv(cfg, s, s', pid, s'.requests[pid].reply);
    } else {
      RevokedKeepsInv(cfg, s, pid, {r.id}, s.now, s'.requests[pid], s');
    }
  }

  lemma FinishKeepsInv(cfg: Config, s: State, s': State, pid: nat, reply: Reply)
    requires Inv(cfg, s) && s' == Move(s, pid, Finished(reply)).(history := s.history + [s.rows])
    ensures Inv(cfg, s') && Grows(s, s')
  {
    hide Inv;
    MoveKeepsInv(cfg, s, s', pid, Finished(reply));
  }

  lemma RevokingUserKeepsInv(cfg: Config, s: State, pid: nat, ok: bool, pick: string)
    requires Inv(cfg, s) && pid in s.requests && s.requests[pid].RevokingUser?
    ensures Inv(cfg, Apply(cfg, s, Call(pid, ok, pick))) && Grows(s, Apply(cfg, s, Call(pid, ok, pick)))
  {
    var s' := Apply(cfg, s, Call(pid, ok, pick));
    hide Inv;
    MoveKeepsInv(cfg, s, s', pid, s'.requests[pid]);
  }

  lemma UpdatingUserKeepsInv(cfg: Config, s: State, pid: nat, ok: bool, pick: string)
    requires Inv(cfg, s) && pid in s.requests && s.requests[pid].UpdatingUser?
    ensures Inv(cfg, Apply(cfg, s, Call(pid, ok, pick))) && Grows(s, Apply(cfg, s, Call(pid, ok, pick)))
  {
    var r := s.requests[pid];
    var s' := Apply(cfg, s, Call(pid, ok, pick));
    assert s.history != [];
    hide Inv, Revoke, Grows, LiveOf;
    RevokedKeepsInv(cfg, s, pid, LiveOf(s.rows, r.user, r.at), r.at, s'.requests[pid], s');
  }

  lemma EvictingKeepsInv(cfg: Config, s: State, pid: nat, ok: bool, pick: string)
    requires Inv(cfg, s) && pid in s.requests && s.requests[pid].Evicting?
    ensures Inv(cfg, Apply(cfg, s, Call(pid, ok, pick))) && Grows(s, Apply(cfg, s, Call(pid, ok, pick)))
  {
    var r := s.requests[pid];
    var s' := Apply(cfg, s, Call(pid, ok, pick));
    assert RequestInv(s, r);
    if r.hashes == {} {
      MoveKeepsInv(cfg, s, s', pid, s'.requests[pid]);
    } else if pick !in r.hashes {
      QuietKeepsInv(cfg, s, s');
    } else if ok {
      EvictedKeepsInv(cfg, s, pid, {pick}, s'.requests[pid], s');
    } else {
      MoveKeepsInv(cfg, s, s', pid, s'.requests[pid]);
    }
  }

  lemma EvictedKeepsInv(cfg: Config, s: State, pid: nat, hashes: set<string>, next: Request, s': State)
    requires Inv(cfg, s) && next.Evicting? && RequestInv(s, next)
    requires s' == Move(s.(entries := Evict(s.entries, hashes)), pid, next).(history := s.history + [s.rows])
    ensures Inv(cfg, s') && Grows(s, s')
  {
    OnwardTable(cfg, s, s');
    assert forall h | h in s'.entries :: h in s.entries && s'.entries[h] == s.entries[h] && EntryInv(s, h);
    hide TableInv;
    StepKeepsInv(cfg, s, s');
  }

  lemma NextCallKeepsInv(cfg: Config, s: State, pid: nat, ok: bool, pick: string)
    requires Inv(cfg, s)
    ensures Inv(cfg, Apply(cfg, s, Call(pid, ok, pick))) && Grows(s, Apply(cfg, s, Call(pid, ok, pick)))
  {
    if pid !in s.requests || s.requests[pid].Returned? || s.requests[pid].Finished? {
      QuietKeepsInv(cfg, s, Apply(cfg, s, Call(pid, ok, pick)));
    } else {
      hide Inv, Apply;
      match s.requests[pid]
      case Looking(_, _) => LookingKeepsInv(cfg, s, pid, ok, pick);
      case Reading(_, _) => ReadingKeepsInv(cfg, s, pid, ok, pick);
      case Touching(_, _, _, _) => TouchingKeepsInv(cfg, s, pid, ok, pick);
      case Storing(_, _, _, _) => StoringKeepsInv(cfg, s, pid, ok, pick);
      case Minting(_, _) => MintingKeepsInv(cfg, s, pid, ok, pick);
      case Inserting(_, _, _) => InsertingKeepsInv(cfg, s, pid, ok, pick);
      case Caching(_, _, _, _) => CachingKeepsInv(cfg, s, pid, ok, pick);
      case Revoking(_, _, _) => RevokingKeepsInv(cfg, s, pid, ok, pick);
      case RevokingUser(_) => RevokingUserKeepsInv(cfg, s, pid, ok, pick);
      case UpdatingUser(_, _, _, _) => UpdatingUserKeepsInv(cfg, s, pid, ok, pick);
      case Evicting(_, _, _, _) => EvictingKeepsInv(cfg, s, pid, ok, pick);
    }
  }

  /** Time may pass and requests may die. */
  lemma QuietKeepsInv(cfg: Config, s: State, s': State)
    requires Inv(cfg, s) && s.now <= s'.now
    requires s' == s.(now := s'.now, requests := s'.requests, history := s.history + [s.rows])
    requires forall pid | pid in s'.requests :: pid in s.requests && s'.requests[pid] == s.requests[pid]
    ensures Inv(cfg, s') && Grows(s, s')
  {
    OnwardTable(cfg, s, s');
    assert forall h | h in s'.entries :: EntryInv(s, h);
    hide TableInv;
    StepKeepsInv(cfg, s, s');
  }

  lemma StartKeepsInv(cfg: Config, s: State, pid: nat, r: Request, s': State)
    requires Inv(cfg, s) && RequestInv(s, r)
    requires s' == Start(s, pid, r).(history := s.history + [s.rows])
    ensures Inv(cfg, s') && Grows(s, s')
  {
    if pid in s.requests {
      QuietKeepsInv(cfg, s, s');
    } else {
      MoveKeepsInv(cfg, s, s', pid, r);
    }
  }

  lemma ApplyKeepsInv(cfg: Config, s: State, a: Action)
    requires Inv(cfg, s)
    ensures Inv(cfg, Apply(cfg, s, a)) && Grows(s, Apply(cfg, s, a))
  {
    var s' := Apply(cfg, s, a);
    assert s.history != [];
    hide Inv;
    match a
    case Tick(_) => QuietKeepsInv(cfg, s, s');
    case StartValidate(pid, hash) => StartKeepsInv(cfg, s, pid, Looking(hash, s.now), s');
    case StartMint(pid, draft) => StartKeepsInv(cfg, s, pid, Minting(draft, None), s');
    case StartRevoke(pid, id, hash) => StartKeepsInv(cfg, s, pid, Revoking(id, hash, None), s');
    case StartRevokeUser(pid, user) => StartKeepsInv(cfg, s, pid, RevokingUser(user), s');
    case StartRotate(pid, id, hash, draft) => StartKeepsInv(cfg, s, pid, Revoking(id, hash, Some(draft)), s');
    case Call(pid, ok, pick) => NextCallKeepsInv(cfg, s, pid, ok, pick);
    case Die(_) => QuietKeepsInv(cfg, s, s');
    case SweepRows(olderThan) => SweepKeepsInv(cfg, s, olderThan);
  }

  lemma SweepKeepsInv(cfg: Config, s: State, olderThan: int)
    requires Inv(cfg, s)
    ensures Inv(cfg, Apply(cfg, s, SweepRows(olderThan))) && Grows(s, Apply(cfg, s, SweepRows(olderThan)))
  {
    var s' := Apply(cfg, s, SweepRows(olderThan));
    SweptTable(cfg, s, s', olderThan);
    assert forall h | h in s'.entries :: EntryInv(s, h);
    hide TableInv;
    StepKeepsInv(cfg, s, s');
  }

  lemma ExecStep(cfg: Config, actions: seq<Action>, i: nat)
    requires i < |actions|
    ensures Exec(cfg, actions[..i + 1]) == Apply(cfg, Exec(cfg, actions[..i]), actions[i])
  {
    assert actions[..i + 1][..i] == actions[..i];
  }

  lemma {:induction false} Reachable(cfg: Config, actions: seq<Action>)
    ensures Inv(cfg, Exec(cfg, actions))
    decreases |actions|
  {
    if actions != [] {
      Reachable(cfg, actions[..|actions| - 1]);
      ApplyKeepsInv(cfg, Exec(cfg, actions[..|actions| - 1]), actions[|actions| - 1]);
    } else {
      InitialInv(cfg);
    }
  }

  lemma InitialInv(cfg: Config)
    ensures Inv(cfg, INITIAL)
  {
    forall user
      ensures LiveOf(INITIAL.rows, user, 0) == {}
    {
    }
  }

  // ----- what holds of every run -----

  /** The record is what it claims to be: its i-th table is the table after i actions. */
  lemma {:induction false} RecordIsFaithful(cfg: Config, actions: seq<Action>, i: nat)
    requires i <= |actions|
    ensures |Exec(cfg, actions).history| == |actions| + 1
    ensures Exec(cfg, actions).history[i] == Exec(cfg, actions[..i]).rows
    decreases |actions|
  {
    Reachable(cfg, actions);
    if actions != [] {
      var before := actions[..|actions| - 1];
      if i < |actions| {
        RecordIsFaithful(cfg, before, i);
        assert before[..i] == actions[..i];
      } else {
        RecordIsFaithful(cfg, before, 0);
        assert actions[..i] == actions;
      }
    }
  }

  /** A session that a validation returns is unexpired at the clock it captured,
      has the token's hash, and is a copy of a row that some call found
      un-revoked in the table. Served from the cache, that call is the one whose
      Put made the entry, at most a day before the Get. */
  lemma AcceptedSession(cfg: Config, actions: seq<Action>, pid: nat)
    requires pid in Exec(cfg, actions).requests && Exec(cfg, actions).requests[pid].Returned?
    ensures
      var Returned(hash, at, v, source) := Exec(cfg, actions).requests[pid];
      var step := if source.FromCache? then source.origin.readStep else source.readStep;
      && at < v.expiresAt && v.tokenHash == hash
      && step <= |actions|
      && (var table := Exec(cfg, actions[..step]).rows;
          v.id in table && Same(table[v.id], v) && table[v.id].revokedAt.None?)
      && (source.FromCache? ==>
            at <= source.getTime && source.origin.putTime <= source.getTime <= source.origin.putTime + DAY)
  {
    var s := Exec(cfg, actions);
    Reachable(cfg, actions);
    assert RequestInv(s, s.requests[pid]);
    RecordIsFaithful(cfg, actions, 0);
    var source := s.requests[pid].source;
    var step := if source.FromCache? then source.origin.readStep else source.readStep;
    RecordIsFaithful(cfg, actions, step);
  }

  /** No interleaving ever shows a user with more live sessions than the cap. */
  lemma CapNeverExceeded(cfg: Config, actions: seq<Action>, user: string)
    requires cfg.sessionsPerUser >= 1
    ensures var s := Exec(cfg, actions); |LiveOf(s.rows, user, s.now)| <= cfg.sessionsPerUser
  {
    Reachable(cfg, actions);
  }

  ghost predicate LiveIn(s: State, id: string) {
    id in s.rows && s.rows[id].Live(s.now)
  }

  lemma NextCallRotations(cfg: Config, s: State, pid: nat, ok: bool, pick: string)
    requires s.history != []
    ensures
      var s' := NextCall(cfg, s, pid, ok, pick);
      || s'.rotations == s.rotations
      || exists pair :: s'.rotations == s.rotations + {pair} && pair.1 !in s.issued
  {
    hide CreateEnforcingCap, Lookup, PutAt, FindByHash, Touch, Revoke, LiveOf, HashSet, Evict, PutTtl;
    if pid in s.requests && s.requests[pid].Inserting? {
      var r := s.requests[pid];
      if r.gone.Some? {
        var pair := (r.gone.value, r.draft.id);
        assert pair.1 == r.draft.id;
      }
    }
  }

  /** Only the insert of a rotation records it, and that insert is the first
      time the table sees the new session. */
  lemma RotationsGrow(cfg: Config, s: State, a: Action)
    requires s.history != []
    ensures forall pair | pair in Apply(cfg, s, a).rotations :: pair in s.rotations || pair.1 !in s.issued
  {
    hide NextCall, Sweep;
    if a.Call? {
      NextCallRotations(cfg, s, a.pid, a.ok, a.pick);
    }
  }

  lemma ApplyKeepsDead(cfg: Config, s: State, a: Action)
    requires Inv(cfg, s)
    ensures s.issued <= Apply(cfg, s, a).issued
    ensures forall id | Dead(s, id) :: Dead(Apply(cfg, s, a), id)
  {
    assert s.history != [];
    hide Inv, Apply;
    ApplyKeepsInv(cfg, s, a);
  }

  /** What was issued stays issued, and what is dead stays dead. */
  lemma {:induction false} DeadStays(cfg: Config, actions: seq<Action>, i: nat, j: nat)
    requires i <= j <= |actions|
    ensures Exec(cfg, actions[..i]).issued <= Exec(cfg, actions[..j]).issued
    ensures forall id | Dead(Exec(cfg, actions[..i]), id) :: Dead(Exec(cfg, actions[..j]), id)
    decreases j
  {
    hide Inv, Apply, Exec, Dead;
    if i < j {
      DeadStays(cfg, actions, i, j - 1);
      Reachable(cfg, actions[..j - 1]);
      ExecStep(cfg, actions, j - 1);
      ApplyKeepsDead(cfg, Exec(cfg, actions[..j - 1]), actions[j - 1]);
    }
  }

  /** Before a rotation its new session has not been in the table. */
  lemma {:induction false} NewSessionAbsentBefore(cfg: Config, actions: seq<Action>, i: nat, j: nat,
                                                  pair: (string, string))
    requires i <= j <= |actions| && pair in Exec(cfg, actions[..j]).rotations
    ensures pair in Exec(cfg, actions[..i]).rotations || pair.1 !in Exec(cfg, actions[..i]).issued
    decreases j
  {
    if i < j {
      ExecStep(cfg, actions, j - 1);
      hide Apply, Exec;
      RotationsGrow(cfg, Exec(cfg, actions[..j - 1]), actions[j - 1]);
      if pair in Exec(cfg, actions[..j - 1]).rotations {
        NewSessionAbsentBefore(cfg, actions, i, j - 1, pair);
      } else {
        DeadStays(cfg, actions, i, j - 1);
      }
    }
  }

  /** A rotation's old and new session are never live together, neither before it
      nor at any step of it nor after it, whatever fails. */
  lemma RotationNeverDoubles(cfg: Config, actions: seq<Action>, i: nat, pair: (string, string))
    requires i <= |actions| && pair in Exec(cfg, actions).rotations
    ensures var s := Exec(cfg, actions[..i]); !(LiveIn(s, pair.0) && LiveIn(s, pair.1))
  {
    var s := Exec(cfg, actions[..i]);
    Reachable(cfg, actions[..i]);
    assert actions[..|actions|] == actions;
    NewSessionAbsentBefore(cfg, actions, i, |actions|, pair);
    assert pair in s.rotations ==> RotationInv(s, pair);
  }

  /** A revocation that has reached the table can be overlooked by at most the
      calls that had already read the row: whatever accepts the session
      afterwards goes back to a read from before the revocation. */
  lemma AcceptedAfterRevocation(cfg: Config, actions: seq<Action>, revoked: nat, pid: nat)
    requires revoked <= |actions|
    requires pid in Exec(cfg, actions).requests && Exec(cfg, actions).requests[pid].Returned?
    requires Dead(Exec(cfg, actions[..revoked]), Exec(cfg, actions).requests[pid].session.id)
    ensures
      var source := Exec(cfg, actions).requests[pid].source;
      (if source.FromCache? then source.origin.readStep else source.readStep) < revoked
  {
    AcceptedSession(cfg, actions, pid);
    var r := Exec(cfg, actions).requests[pid];
    var step := if r.source.FromCache? then r.source.origin.readStep else r.source.readStep;
    if step >= revoked {
      DeadStays(cfg, actions, revoked, step);
    }
  }
}
