/** The sessions table: the transactions of NativeAuthStore on it, as functions
    on the rows, and a class that carries them out. */
module SessionStore {
  import opened Wrappers
  import opened Lexicographic
  import opened SessionModel

  /** The table, by primary key. */
  type Rows = map<string, Session>

  datatype StoreError = SessionNotFound | FieldRequired | UniqueViolation | Unavailable

  /** The PRIMARY KEY and UNIQUE constraints. */
  ghost predicate WellFormed(rows: Rows) {
    && (forall id | id in rows :: rows[id].id == id && id != "" && rows[id].tokenHash != "")
    && (forall a, b {:trigger rows[a].tokenHash, rows[b].tokenHash} |
          a in rows && b in rows && rows[a].tokenHash == rows[b].tokenHash :: a == b)
  }

  ghost function FindByHash(rows: Rows, hash: string): (r: Option<Session>)
    ensures r.Some? ==> hash != "" && r.value.tokenHash == hash
                        && exists id :: id in rows && rows[id] == r.value
    ensures r.None? && hash != "" ==> forall id | id in rows :: rows[id].tokenHash != hash
  {
    if hash != "" && exists id :: id in rows && rows[id].tokenHash == hash then
      var id :| id in rows && rows[id].tokenHash == hash;
      Some(rows[id])
    else
      None
  }

  ghost function LiveOf(rows: Rows, user: string, now: int): set<string> {
    set id | id in rows && rows[id].userId == user && rows[id].Live(now)
  }

  // ----- oldest first: ORDER BY created_at, id -----

  predicate Older(a: Session, b: Session) {
    a.createdAt < b.createdAt || (a.createdAt == b.createdAt && StringLess(a.id, b.id))
  }

  ghost function OlderIn(rows: Rows, ids: set<string>, id: string): set<string>
    requires ids <= rows.Keys && id in rows
  {
    set q | q in ids && Older(rows[q], rows[id])
  }

  /** The `k` oldest rows among `ids`. */
  ghost function Oldest(rows: Rows, ids: set<string>, k: nat): set<string>
    requires ids <= rows.Keys
  {
    set id | id in ids && |OlderIn(rows, ids, id)| < k
  }

  lemma SubsetSize<T>(a: set<T>, b: set<T>)
    requires a <= b
    ensures |a| <= |b|
    ensures |a| == |b| ==> a == b
  {
    assert b == a + (b - a);
  }

  lemma OlderOrder(a: Session, b: Session)
    ensures !(Older(a, b) && Older(b, a))
    ensures a.id != b.id ==> Older(a, b) || Older(b, a)
  {
    StringOrder();
  }

  lemma OlderTransitive(a: Session, b: Session, c: Session)
    requires Older(a, b) && Older(b, c)
    ensures Older(a, c)
  {
    StringOrder();
  }

  /** `m` is the oldest of `ids`. */
  ghost predicate IsOldest(rows: Rows, ids: set<string>, m: string)
    requires ids <= rows.Keys
  {
    m in ids && forall q {:trigger Older(rows[m], rows[q])} | q in ids && q != m :: Older(rows[m], rows[q])
  }

  /** Every row of `picked` is older than every other row of `ids`. */
  ghost predicate OlderThanRest(rows: Rows, ids: set<string>, picked: set<string>)
    requires picked <= ids <= rows.Keys
  {
    forall p, q {:trigger Older(rows[p], rows[q])} |
      p in picked && q in ids && q !in picked :: Older(rows[p], rows[q])
  }

  /** If `picked` holds k of the ids and all of them are older than the rest,
      then `picked` is exactly the k oldest. */
  lemma OldestUnique(rows: Rows, ids: set<string>, picked: set<string>)
    requires WellFormed(rows) && picked <= ids <= rows.Keys
    requires OlderThanRest(rows, ids, picked)
    ensures Oldest(rows, ids, |picked|) == picked
  {
    forall id | id in ids
      ensures |OlderIn(rows, ids, id)| < |picked| <==> id in picked
    {
      var older := OlderIn(rows, ids, id);
      if id in picked {
        forall q | q in older
          ensures q in picked - {id}
        {
          OlderOrder(rows[q], rows[id]);
        }
        SubsetSize(older, picked - {id});
      } else {
        SubsetSize(picked, older);
      }
    }
  }

  /** There is an oldest row in every non-empty set of rows. */
  lemma {:induction false} OldestExists(rows: Rows, ids: set<string>) returns (m: string)
    requires WellFormed(rows) && {} < ids <= rows.Keys
    ensures IsOldest(rows, ids, m)
  {
    m :| m in ids;
    if ids != {m} {
      var n := OldestExists(rows, ids - {m});
      OlderOrder(rows[m], rows[n]);
      if Older(rows[m], rows[n]) {
        forall q | q in ids && q != m
          ensures Older(rows[m], rows[q])
        {
          if q != n {
            OlderTransitive(rows[m], rows[n], rows[q]);
          }
        }
      } else {
        m := n;
      }
    }
  }

  /** Taking the oldest of the rest keeps the picked rows older than the rest. */
  lemma PickNext(rows: Rows, ids: set<string>, picked: set<string>, m: string)
    requires picked <= ids <= rows.Keys && OlderThanRest(rows, ids, picked)
    requires IsOldest(rows, ids - picked, m)
    ensures OlderThanRest(rows, ids, picked + {m})
  {
    forall p, q | p in picked + {m} && q in ids && q !in picked + {m}
      ensures Older(rows[p], rows[q])
    {
      assert q in ids - picked;
    }
  }

  lemma {:induction false} PickOldest(rows: Rows, ids: set<string>, k: nat) returns (picked: set<string>)
    requires WellFormed(rows) && ids <= rows.Keys && k <= |ids|
    ensures picked <= ids && |picked| == k && OlderThanRest(rows, ids, picked)
  {
    picked := {};
    if k > 0 {
      var fewer := PickOldest(rows, ids, k - 1);
      assert |ids - fewer| == |ids| - |fewer|;
      var m := OldestExists(rows, ids - fewer);
      PickNext(rows, ids, fewer, m);
      picked := fewer + {m};
    }
  }

  /** Cutting a set of rows at the k oldest leaves everything older on the cut side. */
  lemma OldestSplits(rows: Rows, ids: set<string>, k: nat)
    requires WellFormed(rows) && ids <= rows.Keys && k <= |ids|
    ensures |Oldest(rows, ids, k)| == k
    ensures OlderThanRest(rows, ids, Oldest(rows, ids, k))
  {
    var picked := PickOldest(rows, ids, k);
    OldestUnique(rows, ids, picked);
  }

  // ----- the transactions -----

  datatype CreateOutcome =
    | Created(rows: Rows, saved: Session, revoked: set<string>)
    | CreateFailed(error: StoreError)

  ghost function Revoke(rows: Rows, ids: set<string>, now: int): Rows {
    map id | id in rows ::
      if id in ids && rows[id].revokedAt.None? then rows[id].(revokedAt := Some(now)) else rows[id]
  }

  /** UPDATE sessions SET revoked_at = NOW() WHERE user_id = user, for the live rows */
  function RevokeWhere(rows: Rows, user: string, now: int): (rows': Rows)
    ensures rows' == Revoke(rows, LiveOf(rows, user, now), now)
  {
    map i | i in rows ::
      if rows[i].userId == user && rows[i].Live(now) then rows[i].(revokedAt := Some(now)) else rows[i]
  }

  /** UPDATE sessions SET last_seen_at = NOW() */
  function Touch(rows: Rows, id: string, now: int): Rows {
    if id in rows then rows[id := rows[id].(lastSeenAt := now)] else rows
  }

  predicate Required(s: Session) {
    && s.id != "" && s.userId != "" && s.organizationId != ""
    && s.tokenHash != "" && s.expiresAt != ZERO_TIME && s.authMode != ""
  }

  predicate Collides(rows: Rows, s: Session) {
    s.id in rows || exists id :: id in rows && rows[id].tokenHash == s.tokenHash
  }

  /** The row as the INSERT stamps it. */
  function Stamped(s: Session, now: int): Session {
    s.(createdAt := now, lastSeenAt := now, revokedAt := None)
  }

  /** The sessions that the cap makes the insert revoke. */
  ghost function Excess(rows: Rows, user: string, cap: int, now: int): set<string> {
    var others := LiveOf(rows, user, now);
    if cap > 0 && |others| + 1 - cap > 0 then Oldest(rows, others, |others| + 1 - cap) else {}
  }

  /** CreateSessionEnforcingCap: insert and revoke the oldest excess in one transaction. */
  ghost function CreateEnforcingCap(rows: Rows, s: Session, cap: int, now: int): CreateOutcome {
    if !Required(s) then CreateFailed(FieldRequired)
    else if Collides(rows, s) then CreateFailed(UniqueViolation)
    else
      var revoked := Excess(rows, s.userId, cap, now);
      Created(Revoke(rows, revoked, now)[s.id := Stamped(s, now)], Stamped(s, now), revoked)
  }

  /** SweepExpiredSessions */
  ghost function Sweep(rows: Rows, olderThan: int): Rows {
    map id | id in rows
             && !(rows[id].expiresAt < olderThan
                  || (rows[id].revokedAt.Some? && rows[id].revokedAt.value < olderThan)) :: rows[id]
  }

  /** Swept is exactly what expired or was revoked before `olderThan`. */
  lemma SweptWereDead(rows: Rows, olderThan: int, id: string)
    requires id in rows
    ensures id !in Sweep(rows, olderThan) <==>
            rows[id].expiresAt < olderThan || (rows[id].revokedAt.Some? && rows[id].revokedAt.value < olderThan)
    ensures id in Sweep(rows, olderThan) ==> Sweep(rows, olderThan)[id] == rows[id]
    ensures Sweep(rows, olderThan).Keys <= rows.Keys
  {
  }

  /** A create in plain terms: what it demands, what it answers, how the new row is stamped,
      and that of the others it revokes only live ones of the same user. */
  lemma CreateIs(rows: Rows, s: Session, cap: int, now: int)
    ensures
      var c := CreateEnforcingCap(rows, s, cap, now);
      var missing := s.id == "" || s.userId == "" || s.organizationId == "" || s.tokenHash == "" || s.expiresAt == 0
                     || s.authMode == "";
      var taken := s.id in rows || exists id :: id in rows && rows[id].tokenHash == s.tokenHash;
      && (missing ==> c == CreateFailed(FieldRequired))
      && (!missing && taken ==> c == CreateFailed(UniqueViolation))
      && (!missing && !taken ==>
            && c.Created? && c.saved == s.(createdAt := now, lastSeenAt := now, revokedAt := None)
            && c.rows.Keys == rows.Keys + {s.id} && c.rows[s.id] == c.saved
            && forall id | id in rows ::
                 if id in c.revoked
                 then rows[id].userId == s.userId && rows[id].revokedAt.None? && now < rows[id].expiresAt
                      && c.rows[id] == rows[id].(revokedAt := Some(now))
                 else c.rows[id] == rows[id])
  {
    hide Oldest;
    ExcessIsLive(rows, s.userId, cap, now);
    hide Excess;
  }

  lemma ExcessIsLive(rows: Rows, user: string, cap: int, now: int)
    ensures Excess(rows, user, cap, now) <= LiveOf(rows, user, now)
  {
  }

  // ----- what the transactions keep -----

  lemma InsertKeepsWellFormed(rows: Rows, s: Session)
    requires WellFormed(rows) && Required(s) && !Collides(rows, s)
    ensures WellFormed(rows[s.id := s])
  {
  }

  lemma RevokeCollides(rows: Rows, ids: set<string>, now: int, s: Session)
    ensures Collides(Revoke(rows, ids, now), s) <==> Collides(rows, s)
  {
    var revoked := Revoke(rows, ids, now);
    if id :| id in rows && rows[id].tokenHash == s.tokenHash {
      assert id in revoked && revoked[id].tokenHash == s.tokenHash;
    }
    if id :| id in revoked && revoked[id].tokenHash == s.tokenHash {
      assert id in rows && rows[id].tokenHash == s.tokenHash;
    }
  }

  lemma CreateKeepsWellFormed(rows: Rows, s: Session, cap: int, now: int)
    requires WellFormed(rows)
    ensures var c := CreateEnforcingCap(rows, s, cap, now); c.Created? ==> WellFormed(c.rows)
  {
    hide Excess, WellFormed, Collides, Revoke;
    if Required(s) && !Collides(rows, s) {
      var revoked := Excess(rows, s.userId, cap, now);
      RevokeKeepsWellFormed(rows, revoked, now);
      RevokeCollides(rows, revoked, now, s);
      StampedCollides(Revoke(rows, revoked, now), s, now);
      InsertKeepsWellFormed(Revoke(rows, revoked, now), Stamped(s, now));
    }
  }

  lemma StampedCollides(rows: Rows, s: Session, now: int)
    ensures Collides(rows, Stamped(s, now)) <==> Collides(rows, s)
    ensures Required(Stamped(s, now)) <==> Required(s)
  {
  }

  lemma RevokeKeepsWellFormed(rows: Rows, ids: set<string>, now: int)
    requires WellFormed(rows)
    ensures WellFormed(Revoke(rows, ids, now))
  {
  }

  lemma TouchKeepsWellFormed(rows: Rows, id: string, now: int)
    requires WellFormed(rows)
    ensures WellFormed(Touch(rows, id, now))
  {
  }

  lemma SweepKeepsWellFormed(rows: Rows, olderThan: int)
    requires WellFormed(rows)
    ensures WellFormed(Sweep(rows, olderThan))
  {
  }

  /** The mint revokes exactly the oldest excess: with the new row excluded,
      everything revoked is older than everything of the user that stays live,
      and no more is revoked than the cap asks for. */
  lemma MintRevokesOldestExcess(rows: Rows, s: Session, cap: int, now: int)
    requires WellFormed(rows)
    requires CreateEnforcingCap(rows, s, cap, now).Created?
    ensures
      var c := CreateEnforcingCap(rows, s, cap, now);
      var others := LiveOf(rows, s.userId, now);
      var revoked := c.revoked;
      && s.id !in revoked && c.saved.revokedAt.None? && c.rows[s.id] == c.saved
      && revoked <= others
      && |revoked| == (if cap > 0 && |others| + 1 > cap then |others| + 1 - cap else 0)
      && OlderThanRest(rows, others, revoked)
      && c.rows == Revoke(rows, revoked, now)[s.id := c.saved]
  {
    var others := LiveOf(rows, s.userId, now);
    if cap > 0 && |others| + 1 - cap > 0 {
      OldestSplits(rows, others, |others| + 1 - cap);
    }
  }

  ghost predicate CapHolds(rows: Rows, cap: int, now: int) {
    forall user :: |LiveOf(rows, user, now)| <= cap
  }

  /** Who is live after a mint. */
  lemma LiveAfterMint(rows: Rows, s: Session, revoked: set<string>, now: int, user: string)
    requires s.id !in rows && revoked <= LiveOf(rows, s.userId, now)
    ensures
      var before := LiveOf(rows, user, now);
      LiveOf(Revoke(rows, revoked, now)[s.id := Stamped(s, now)], user, now)
      == if user != s.userId then before
         else if now < s.expiresAt then (before - revoked) + {s.id}
         else before - revoked
  {
    var rows' := Revoke(rows, revoked, now)[s.id := Stamped(s, now)];
    forall id | id in rows'
      ensures id in LiveOf(rows', user, now) <==>
              if id == s.id then user == s.userId && now < s.expiresAt
              else id in LiveOf(rows, user, now) && id !in revoked
    {
    }
  }

  /** No mint takes any user over the cap. */
  lemma MintKeepsCap(rows: Rows, s: Session, cap: int, now: int)
    requires WellFormed(rows) && cap >= 1 && CapHolds(rows, cap, now)
    requires CreateEnforcingCap(rows, s, cap, now).Created?
    ensures CapHolds(CreateEnforcingCap(rows, s, cap, now).rows, cap, now)
  {
    MintRevokesOldestExcess(rows, s, cap, now);
    var c := CreateEnforcingCap(rows, s, cap, now);
    forall user
      ensures |LiveOf(c.rows, user, now)| <= cap
    {
      LiveAfterMint(rows, s, c.revoked, now, user);
      var before := LiveOf(rows, user, now);
      if user == s.userId {
        assert |before - c.revoked| == |before| - |c.revoked|;
      }
    }
  }

  /** Whatever only makes sessions less live keeps the cap: revoking, sweeping,
      touching and the passing of time are all of this kind. */
  lemma LessLiveKeepsCap(rows: Rows, rows': Rows, cap: int, now: int, now': int)
    requires now <= now' && CapHolds(rows, cap, now)
    requires forall id | id in rows' && rows'[id].Live(now') ::
               id in rows && rows[id].Live(now) && rows[id].userId == rows'[id].userId
    ensures CapHolds(rows', cap, now')
  {
    forall user
      ensures |LiveOf(rows', user, now')| <= cap
    {
      assert LiveOf(rows', user, now') <= LiveOf(rows, user, now);
      SubsetSize(LiveOf(rows', user, now'), LiveOf(rows, user, now));
    }
  }

  /** Revoking every live session of a user leaves none. */
  lemma RevokeAllLeavesNone(rows: Rows, user: string, now: int)
    ensures LiveOf(Revoke(rows, LiveOf(rows, user, now), now), user, now) == {}
  {
  }

  // ----- the store object -----

  ghost predicate HashesOf(rows: Rows, ids: set<string>, hashes: seq<string>) {
    && (forall id | id in ids :: id in rows && rows[id].tokenHash in hashes)
    && (forall h | h in hashes :: exists id :: id in ids && id in rows && rows[id].tokenHash == h)
  }

  /** The state of the selection loop after `n` rounds. */
  ghost predicate SelectedOldest(rows: Rows, among: set<string>, ids: set<string>, hashes: seq<string>, n: nat)
    requires among <= rows.Keys
  {
    && ids <= among && |ids| == |hashes| == n
    && |among - ids| == |among| - n
    && OlderThanRest(rows, among, ids)
    && HashesOf(rows, ids, hashes)
  }

  lemma HashesOfNext(rows: Rows, ids: set<string>, hashes: seq<string>, id: string)
    requires id in rows && HashesOf(rows, ids, hashes)
    ensures HashesOf(rows, ids + {id}, hashes + [rows[id].tokenHash])
  {
    forall h | h in hashes + [rows[id].tokenHash]
      ensures exists i :: i in ids + {id} && i in rows && rows[i].tokenHash == h
    {
      if h in hashes {
        var i :| i in ids && i in rows && rows[i].tokenHash == h;
        assert i in ids + {id};
      } else {
        assert id in ids + {id};
      }
    }
  }

  lemma SelectNext(rows: Rows, among: set<string>, ids: set<string>, hashes: seq<string>, n: nat, id: string)
    requires among <= rows.Keys && SelectedOldest(rows, among, ids, hashes, n)
    requires IsOldest(rows, among - ids, id)
    ensures SelectedOldest(rows, among, ids + {id}, hashes + [rows[id].tokenHash], n + 1)
  {
    PickNext(rows, among, ids, id);
    HashesOfNext(rows, ids, hashes, id);
    assert among - (ids + {id}) == (among - ids) - {id};
  }

  /** The user's sessions, as far as they were neither revoked nor expired, are revoked as of
      `now`; all else is as before. */
  ghost predicate RevokedFor(before: Rows, after: Rows, user: string, now: int) {
    && after.Keys == before.Keys
    && forall id | id in before ::
         after[id] == if before[id].userId == user && before[id].revokedAt.None? && now < before[id].expiresAt
                      then before[id].(revokedAt := Some(now)) else before[id]
  }

  class Store {
    var rows: Rows

    constructor ()
      ensures rows == map[]
    {
      rows := map[];
    }

    /** `down` says that the database does not answer this call. */
    method GetSessionByTokenHash(tokenHash: string, down: bool) returns (r: Result<Session, StoreError>)
      requires WellFormed(rows)
      ensures r == (if tokenHash == "" then Err(SessionNotFound)
                    else if down then Err(Unavailable)
                    else match FindByHash(rows, tokenHash)
                         case None => Err(SessionNotFound)
                         case Some(s) => Ok(s))
      ensures r.Ok? ==> r.value.tokenHash == tokenHash != "" && r.value.id in rows && rows[r.value.id] == r.value
      ensures r == Err(SessionNotFound) <==>
                tokenHash == "" || (!down && forall id | id in rows :: rows[id].tokenHash != tokenHash)
    {
      if tokenHash == "" {
        return Err(SessionNotFound);
      }
      if down {
        return Err(Unavailable);
      }
      if id :| id in rows && rows[id].tokenHash == tokenHash {
        return Ok(rows[id]);
      }
      return Err(SessionNotFound);
    }

    method TouchSessionLastSeen(id: string, now: int, down: bool)
      modifies this
      ensures rows == if down then old(rows) else Touch(old(rows), id, now)
      ensures rows == if down || id !in old(rows) then old(rows)
                      else old(rows)[id := old(rows)[id].(lastSeenAt := now)]
    {
      if !down && id in rows {
        rows := rows[id := rows[id].(lastSeenAt := now)];
      }
    }

    method RevokeSession(id: string, now: int, down: bool) returns (r: Result<(), StoreError>)
      modifies this
      ensures r == if id == "" then Err(FieldRequired) else if down then Err(Unavailable) else Ok(())
      ensures rows == if r.Ok? then Revoke(old(rows), {id}, now) else old(rows)
      ensures rows == if r.Ok? && id in old(rows) && old(rows)[id].revokedAt.None?
                      then old(rows)[id := old(rows)[id].(revokedAt := Some(now))] else old(rows)
    {
      if id == "" {
        return Err(FieldRequired);
      }
      if down {
        return Err(Unavailable);
      }
      rows := map i | i in rows ::
        if i == id && rows[i].revokedAt.None? then rows[i].(revokedAt := Some(now)) else rows[i];
      return Ok(());
    }

    /** SELECT session_token_hash: the rows in whatever order the database returns them. */
    method HashesFor(ids: set<string>) returns (hashes: seq<string>)
      requires ids <= rows.Keys
      ensures HashesOf(rows, ids, hashes) && |hashes| == |ids|
    {
      hashes := [];
      var todo := ids;
      assert HashesOf(rows, ids - todo, hashes);
      hide HashesOf;
      while todo != {}
        invariant todo <= ids && |hashes| == |ids| - |todo|
        invariant HashesOf(rows, ids - todo, hashes)
        decreases todo
      {
        var id :| id in todo;
        HashesOfNext(rows, ids - todo, hashes, id);
        assert ids - (todo - {id}) == (ids - todo) + {id};
        hashes := hashes + [rows[id].tokenHash];
        todo := todo - {id};
      }
      assert ids - todo == ids;
    }

    /** `committed` is what other transactions commit between the SELECT and the UPDATE: the
        UPDATE revokes the user's live sessions among that too, but the hashes returned are
        those of the SELECT. */
    method RevokeUserSessions(user: string, now: int, committed: Rows, down: bool)
      returns (r: Result<seq<string>, StoreError>)
      modifies this
      ensures r.Ok? <==> user != "" && !down
      ensures r.Err? ==> r.error == (if user == "" then FieldRequired else Unavailable) && rows == old(rows)
      ensures r.Ok? ==>
                var seen := old(rows) + committed;
                rows == Revoke(seen, LiveOf(seen, user, now), now)
      ensures r.Ok? ==> HashesOf(old(rows), LiveOf(old(rows), user, now), r.value)
      ensures r.Ok? ==> |r.value| == |LiveOf(old(rows), user, now)|
      ensures r.Ok? ==> RevokedFor(old(rows) + committed, rows, user, now)
    {
      if user == "" {
        return Err(FieldRequired);
      }
      if down {
        return Err(Unavailable);
      }
      var live := set id | id in rows && rows[id].userId == user && rows[id].Live(now);
      var hashes := HashesFor(live);
      rows := RevokeWhere(rows + committed, user, now);
      return Ok(hashes);
    }

    /** SELECT ... ORDER BY created_at, id LIMIT 1 */
    method SelectOldestOne(among: set<string>) returns (id: string)
      requires WellFormed(rows) && {} < among <= rows.Keys
      ensures IsOldest(rows, among, id)
    {
      ghost var oldest := OldestExists(rows, among);
      id :| id in among && forall q | q in among && q != id :: Older(rows[id], rows[q]);
    }

    /** SELECT ... ORDER BY created_at, id LIMIT k */
    method SelectOldest(among: set<string>, k: nat) returns (ids: set<string>, hashes: seq<string>)
      requires WellFormed(rows) && among <= rows.Keys && k <= |among|
      ensures ids == Oldest(rows, among, k) && |ids| == |hashes| == k
      ensures HashesOf(rows, ids, hashes)
    {
      ids, hashes := {}, [];
      for n := 0 to k
        invariant SelectedOldest(rows, among, ids, hashes, n)
      {
        var id := SelectOldestOne(among - ids);
        SelectNext(rows, among, ids, hashes, n, id);
        ids, hashes := ids + {id}, hashes + [rows[id].tokenHash];
      }
      OldestUnique(rows, among, ids);
    }

    method CreateSessionEnforcingCap(s: Session, cap: int, now: int, down: bool)
      returns (r: Result<Session, StoreError>, revokedHashes: seq<string>)
      requires WellFormed(rows)
      modifies this
      ensures WellFormed(rows)
      ensures !Required(s) ==> r == Err(FieldRequired)
      ensures Required(s) && down ==> r == Err(Unavailable)
      ensures Required(s) && !down ==>
        match CreateEnforcingCap(old(rows), s, cap, now)
        case CreateFailed(e) => r == Err(e)
        case Created(rows', saved, revoked) =>
          r == Ok(saved) && rows == rows' && HashesOf(old(rows), revoked, revokedHashes)
          && |revokedHashes| == |revoked|
      ensures r.Err? ==> rows == old(rows) && revokedHashes == []
      ensures r.Ok? ==> r.value == s.(createdAt := now, lastSeenAt := now, revokedAt := None)
    {
      if !Required(s) {
        return Err(FieldRequired), [];
      }
      if down {
        return Err(Unavailable), [];
      }
      if Collides(rows, s) {
        return Err(UniqueViolation), [];
      }
      CreateKeepsWellFormed(rows, s, cap, now);
      var others := set id | id in rows && rows[id].userId == s.userId && rows[id].Live(now);
      var excess := |others| + 1 - cap;
      var revoked: set<string> := {};
      revokedHashes := [];
      if cap > 0 && excess > 0 {
        revoked, revokedHashes := SelectOldest(others, excess);
      }
      assert others == LiveOf(rows, s.userId, now) && revoked == Excess(rows, s.userId, cap, now);
      var saved := Stamped(s, now);
      var updated := map i | i in rows ::
        if i in revoked && rows[i].revokedAt.None? then rows[i].(revokedAt := Some(now)) else rows[i];
      assert updated == Revoke(rows, revoked, now);
      hide WellFormed, Revoke, HashesOf, Oldest;
      rows := updated[s.id := saved];
      return Ok(saved), revokedHashes;
    }
  }
}
