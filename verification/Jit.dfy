/** Just-in-time memberships: which role a login's groups resolve to, and what
    provisioning it may touch, alone and in the middle of others' writes. */
module Jit {
  import opened Wrappers

  const VIEWER := "viewer"
  const MEMBER := "member"
  const ADMIN := "admin"
  const OWNER := "owner"

  /** rolePriority; zero for the roles that JIT does not assign. */
  function Priority(role: string): nat {
    if role == VIEWER then 1 else if role == MEMBER then 2 else if role == ADMIN then 3 else 0
  }

  // ----- resolving -----

  datatype Mapping = Mapping(groupId: string, role: string)

  predicate Matches(m: Mapping, groups: seq<string>) {
    m.groupId in groups && Priority(m.role) > 0
  }

  function MatchedRoles(mappings: seq<Mapping>, groups: seq<string>): set<string> {
    set m | m in mappings && Matches(m, groups) :: m.role
  }

  function DefaultOf(defaultRole: string): string {
    if defaultRole == "" then VIEWER else defaultRole
  }

  /** The highest of a default and a set of roles. */
  ghost predicate IsHighest(role: string, roles: set<string>, default: string) {
    && (role == default || role in roles)
    && (forall r | r in roles :: Priority(r) <= Priority(role))
    && Priority(default) <= Priority(role)
    && (role != default ==> Priority(role) > Priority(default))
  }

  /** Some group of the caller's is mapped to the role. */
  ghost predicate Maps(mappings: seq<Mapping>, groups: seq<string>, role: string) {
    exists m :: m in mappings && m.groupId in groups && m.role == role
  }

  lemma RoleByRole(mappings: seq<Mapping>, groups: seq<string>, default: string, best: string)
    requires IsHighest(best, MatchedRoles(mappings, groups), default)
    ensures best == if default == "admin" || Maps(mappings, groups, "admin") then "admin"
                    else if default == "member" || Maps(mappings, groups, "member") then "member"
                    else if Maps(mappings, groups, "viewer") then "viewer"
                    else default
  {
    forall role | role in ["viewer", "member", "admin"]
      ensures role in MatchedRoles(mappings, groups) <==> Maps(mappings, groups, role)
    {
      if m :| m in mappings && m.groupId in groups && m.role == role {
        assert Matches(m, groups);
      }
    }
    forall role | role in MatchedRoles(mappings, groups)
      ensures role in ["viewer", "member", "admin"]
    {
      MatchedAreKnown(mappings, groups, role);
    }
  }

  method JITResolveRole(mappings: seq<Mapping>, groups: seq<string>, defaultRole: string) returns (best: string)
    ensures IsHighest(best, MatchedRoles(mappings, groups), DefaultOf(defaultRole))
    ensures
      var default := if defaultRole == "" then "viewer" else defaultRole;
      best == if default == "admin" || Maps(mappings, groups, "admin") then "admin"
              else if default == "member" || Maps(mappings, groups, "member") then "member"
              else if Maps(mappings, groups, "viewer") then "viewer"
              else default
  {
    var default := DefaultOf(defaultRole);
    if |mappings| == 0 || |groups| == 0 {
      assert MatchedRoles(mappings, groups) == {};
      RoleByRole(mappings, groups, default, default);
      return default;
    }
    best := default;
    var bestPriority := Priority(default);
    for i := 0 to |mappings|
      invariant bestPriority == Priority(best)
      invariant IsHighest(best, MatchedRoles(mappings[..i], groups), default)
    {
      var m := mappings[i];
      assert mappings[..i + 1] == mappings[..i] + [m];
      assert MatchedRoles(mappings[..i + 1], groups)
          == MatchedRoles(mappings[..i], groups) + if Matches(m, groups) then {m.role} else {};
      if m.groupId !in groups {
        continue;
      }
      if Priority(m.role) == 0 {
        continue;
      }
      if Priority(m.role) > bestPriority {
        bestPriority := Priority(m.role);
        best := m.role;
      }
    }
    assert mappings[..|mappings|] == mappings;
    RoleByRole(mappings, groups, default, best);
  }

  lemma MatchedAreKnown(mappings: seq<Mapping>, groups: seq<string>, role: string)
    requires role in MatchedRoles(mappings, groups)
    ensures Priority(role) > 0 && role != OWNER
  {
  }

  /** Only one role is the highest. The mappings enter as a set, so neither their
      order nor that of the groups matters. */
  lemma HighestIsUnique(mappings: seq<Mapping>, groups: seq<string>, mappings': seq<Mapping>, groups': seq<string>,
                        default: string, a: string, b: string)
    requires (forall m :: m in mappings <==> m in mappings') && (forall g :: g in groups <==> g in groups')
    requires IsHighest(a, MatchedRoles(mappings, groups), default)
    requires IsHighest(b, MatchedRoles(mappings', groups'), default)
    ensures a == b
  {
    assert MatchedRoles(mappings, groups) == MatchedRoles(mappings', groups');
    if a != default {
      MatchedAreKnown(mappings, groups, a);
    }
    if b != default {
      MatchedAreKnown(mappings, groups, b);
    }
  }

  /** Resolving returns an assignable role exactly if the default is one or some
      mapping matches; so an owner comes out exactly if owner is the default and no
      mapping matches. */
  lemma WhenResolvedIsAssignable(mappings: seq<Mapping>, groups: seq<string>, default: string, role: string)
    requires IsHighest(role, MatchedRoles(mappings, groups), default)
    ensures Priority(role) > 0 <==> Priority(default) > 0 || MatchedRoles(mappings, groups) != {}
    ensures role == OWNER <==> default == OWNER && MatchedRoles(mappings, groups) == {}
  {
    if MatchedRoles(mappings, groups) != {} {
      var r :| r in MatchedRoles(mappings, groups);
      MatchedAreKnown(mappings, groups, r);
    }
    if role != default {
      MatchedAreKnown(mappings, groups, role);
    }
  }

  // ----- memberships -----

  const VIA_JIT := "jit"

  datatype Membership = Membership(organizationId: string, userId: string, role: string, provisionedVia: string)

  type Rows = map<string, Membership>

  predicate Belongs(m: Membership, org: string, user: string) {
    m.organizationId == org && m.userId == user
  }

  ghost predicate HasRow(rows: Rows, org: string, user: string) {
    exists id :: id in rows && Belongs(rows[id], org, user)
  }

  /** The table's unique indexes: one row for a user in an organization, and one
      owner for an organization. */
  ghost predicate Constrained(rows: Rows) {
    && (forall i, j | i in rows && j in rows && Belongs(rows[i], rows[j].organizationId, rows[j].userId) :: i == j)
    && (forall i, j | i in rows && j in rows && rows[i].organizationId == rows[j].organizationId
                      && rows[i].role == OWNER && rows[j].role == OWNER :: i == j)
  }

  datatype StorageError = MembershipExists | MembershipNotFound | LastOwner | Unavailable

  ghost predicate Collides(rows: Rows, id: string, m: Membership) {
    || id in rows
    || HasRow(rows, m.organizationId, m.userId)
    || (m.role == OWNER && exists i :: i in rows && rows[i].organizationId == m.organizationId && rows[i].role == OWNER)
  }

  predicate OwnsBeside(rows: Rows, i: string, id: string)
    requires i in rows && id in rows
  {
    i != id && rows[i].organizationId == rows[id].organizationId && rows[i].role == OWNER
  }

  /** Another row of the organization is the owner's. */
  ghost predicate HasOtherOwner(rows: Rows, id: string)
    requires id in rows
  {
    exists i :: i in rows && OwnsBeside(rows, i, id)
  }

  /** UpdateMembershipRole's answer; it refuses to demote the last owner and to make
      a second one. */
  ghost predicate RefusesRole(rows: Rows, id: string, newRole: string)
    requires id in rows
  {
    if newRole == OWNER
    then HasOtherOwner(rows, id)
    else rows[id].role == OWNER && !HasOtherOwner(rows, id)
  }

  /** A row without a provenance counts as placed by hand. */
  function Completed(m: Membership): Membership {
    if m.provisionedVia == "" then m.(provisionedVia := "manual") else m
  }

  class MembershipStore {
    var rows: Rows

    ghost predicate Valid()
      reads this
    {
      Constrained(rows)
    }

    /** `drawn` is the id that the store draws for a row that comes without one. */
    method SaveMembership(id: string, m: Membership, drawn: string, down: bool) returns (r: Option<StorageError>)
      requires Valid()
      modifies this
      ensures Valid()
      ensures
        var rowId, row := if id == "" then drawn else id, Completed(m);
        && r == (if down then Some(Unavailable)
                 else if Collides(old(rows), rowId, row) then Some(MembershipExists) else None)
        && rows == (if r.None? then old(rows)[rowId := row] else old(rows))
      ensures r == Some(MembershipExists) <==>
                !down
                && ((if id == "" then drawn else id) in old(rows)
                    || exists i :: i in old(rows) && old(rows)[i].organizationId == m.organizationId
                         && (old(rows)[i].userId == m.userId || (m.role == "owner" && old(rows)[i].role == "owner")))
      ensures r.None? ==>
                rows[if id == "" then drawn else id]
                == if m.provisionedVia == "" then m.(provisionedVia := "manual") else m
    {
      if down {
        return Some(Unavailable);
      }
      var rowId := id;
      if rowId == "" {
        rowId := drawn;
      }
      var row := m;
      if row.provisionedVia == "" {
        row := row.(provisionedVia := "manual");
      }
      if rowId in rows {
        return Some(MembershipExists);
      }
      var left := rows.Keys;
      while left != {}
        invariant left <= rows.Keys
        invariant forall i | i in rows && i !in left ::
            !Belongs(rows[i], row.organizationId, row.userId)
            && !(row.role == OWNER && rows[i].organizationId == row.organizationId && rows[i].role == OWNER)
        decreases |left|
      {
        var i :| i in left;
        if Belongs(rows[i], row.organizationId, row.userId) {
          return Some(MembershipExists);
        }
        if row.role == OWNER && rows[i].organizationId == row.organizationId && rows[i].role == OWNER {
          return Some(MembershipExists);
        }
        left := left - {i};
      }
      rows := rows[rowId := row];
      return None;
    }

    method GetMembershipByOrgUser(org: string, user: string, down: bool) returns (r: Result<string, StorageError>)
      requires Valid()
      ensures down ==> r == Err(Unavailable)
      ensures !down && !HasRow(rows, org, user) ==> r == Err(MembershipNotFound)
      ensures !down && HasRow(rows, org, user) ==> r.Ok? && r.value in rows && Belongs(rows[r.value], org, user)
    {
      if down {
        return Err(Unavailable);
      }
      var left := rows.Keys;
      while left != {}
        invariant left <= rows.Keys
        invariant forall i | i in rows && i !in left :: !Belongs(rows[i], org, user)
        decreases |left|
      {
        var i :| i in left;
        if Belongs(rows[i], org, user) {
          return Ok(i);
        }
        left := left - {i};
      }
      return Err(MembershipNotFound);
    }

    method UpdateMembershipRole(id: string, newRole: string, down: bool) returns (r: Option<StorageError>)
      requires Valid()
      modifies this
      ensures Valid()
      ensures r == if down then Some(Unavailable)
                   else if id !in old(rows) then Some(MembershipNotFound)
                   else if RefusesRole(old(rows), id, newRole) then Some(LastOwner)
                   else None
      ensures rows == if r.None? then old(rows)[id := old(rows)[id].(role := newRole)] else old(rows)
      ensures !down && id in old(rows) ==>
                var another := exists i :: i in old(rows) && i != id && old(rows)[i].role == "owner"
                                 && old(rows)[i].organizationId == old(rows)[id].organizationId;
                r.Some? <==> if newRole == "owner" then another else old(rows)[id].role == "owner" && !another
    {
      if down {
        return Some(Unavailable);
      }
      if id !in rows {
        return Some(MembershipNotFound);
      }
      var m := rows[id];
      var otherOwner := OtherOwner(id);
      if (newRole != OWNER && m.role == OWNER && !otherOwner) || (newRole == OWNER && otherOwner) {
        return Some(LastOwner);
      }
      rows := rows[id := m.(role := newRole)];
      return None;
    }

    /** The count of owners, as far as UpdateMembershipRole needs it. */
    method OtherOwner(id: string) returns (found: bool)
      requires id in rows
      ensures found <==> HasOtherOwner(rows, id)
    {
      var left := rows.Keys;
      while left != {}
        invariant left <= rows.Keys
        invariant forall i | i in rows && i !in left :: !OwnsBeside(rows, i, id)
        decreases |left|
      {
        var i :| i in left;
        if OwnsBeside(rows, i, id) {
          return true;
        }
        left := left - {i};
      }
      return false;
    }
  }

  // ----- provisioning -----

  datatype Outcome = Noop | Created | Updated

  datatype JITError = OwnerForbidden | UnknownRole | MissingId | Storage(cause: StorageError)

  datatype Provision = Provision(rows: Rows, result: Result<Outcome, JITError>)

  function Fresh(org: string, user: string, role: string): Membership {
    Membership(org, user, role, VIA_JIT)
  }

  /** JIT keeps its hands off a row that is an owner's, has the role already, or that
      it did not place itself. */
  predicate KeepsRow(existing: Membership, role: string) {
    existing.role == OWNER || existing.role == role || existing.provisionedVia != VIA_JIT
  }

  ghost function RowOf(rows: Rows, org: string, user: string): (id: string)
    requires HasRow(rows, org, user)
    ensures id in rows && Belongs(rows[id], org, user)
  {
    var id :| id in rows && Belongs(rows[id], org, user);
    id
  }

  /** A whole call of JITProvisionMembership with a working store. */
  ghost function Provisioned(rows: Rows, newId: string, org: string, user: string, role: string): Provision {
    if role == OWNER then Provision(rows, Err(OwnerForbidden))
    else if Priority(role) == 0 then Provision(rows, Err(UnknownRole))
    else if org == "" || user == "" then Provision(rows, Err(MissingId))
    else if HasRow(rows, org, user) then
      var id := RowOf(rows, org, user);
      if KeepsRow(rows[id], role) then Provision(rows, Ok(Noop))
      else Provision(rows[id := rows[id].(role := role)], Ok(Updated))
    else if newId in rows then Provision(rows, Err(Storage(MembershipNotFound)))
    else Provision(rows[newId := Fresh(org, user, role)], Ok(Created))
  }

  /** Which of its calls to the store fails. */
  datatype Failing = Nothing | Saving | Looking | Updating

  method JITProvisionMembership(store: MembershipStore, newId: string, org: string, user: string, role: string,
                                failing: Failing)
    returns (r: Result<Outcome, JITError>)
    requires store.Valid()
    modifies store
    ensures store.Valid()
    ensures failing.Nothing? ==> Provision(store.rows, r) == Provisioned(old(store.rows), newId, org, user, role)
    ensures !failing.Nothing? ==>
              || (r == Err(Storage(Unavailable)) && store.rows == old(store.rows))
              || Provision(store.rows, r) == Provisioned(old(store.rows), newId, org, user, role)
  {
    if role == OWNER {
      return Err(OwnerForbidden);
    }
    if Priority(role) == 0 {
      return Err(UnknownRole);
    }
    if org == "" || user == "" {
      return Err(MissingId);
    }
    var saved := store.SaveMembership(newId, Fresh(org, user, role), newId, failing.Saving?);
    if saved.None? {
      return Ok(Created);
    }
    if saved.value != MembershipExists {
      return Err(Storage(saved.value));
    }
    var found := store.GetMembershipByOrgUser(org, user, failing.Looking?);
    if found.Err? {
      return Err(Storage(found.error));
    }
    var existing := store.rows[found.value];
    assert found.value == RowOf(store.rows, org, user);
    if existing.role == OWNER || existing.role == role {
      return Ok(Noop);
    }
    if existing.provisionedVia != VIA_JIT {
      return Ok(Noop);
    }
    var updated := store.UpdateMembershipRole(found.value, role, failing.Updating?);
    if updated.Some? {
      return Err(Storage(updated.value));
    }
    return Ok(Updated);
  }

  /** What JIT may do to the table on behalf of a caller: nothing to a row that is
      another's, an owner's or placed by someone else, and nothing new but a
      non-owner row of the caller's, marked as JIT's. No row goes away. */
  ghost predicate Contained(before: Rows, after: Rows, org: string, user: string) {
    && before.Keys <= after.Keys
    && (forall id | id in before ::
          after[id] == before[id]
          || (Belongs(before[id], org, user) && before[id].role != OWNER && before[id].provisionedVia == VIA_JIT
              && after[id].role != OWNER && after[id] == before[id].(role := after[id].role)))
    && (forall id | id in after && id !in before ::
          Belongs(after[id], org, user) && after[id].role != OWNER && after[id].provisionedVia == VIA_JIT)
  }

  /** A provisioning in plain terms. The caller's row, if there is one, gets the role,
      unless it is an owner's, has the role already or was not placed by JIT; otherwise a row
      is made under the new id. */
  lemma ProvisionedIs(rows: Rows, newId: string, org: string, user: string, role: string, id: string)
    requires Constrained(rows) && newId !in rows
    ensures
      var p := Provisioned(rows, newId, org, user, role);
      if role == "owner" then p.rows == rows && p.result == Err(OwnerForbidden)
      else if role !in ["viewer", "member", "admin"] then p.rows == rows && p.result == Err(UnknownRole)
      else if org == "" || user == "" then p.rows == rows && p.result == Err(MissingId)
      else if id in rows && rows[id].organizationId == org && rows[id].userId == user then
        if rows[id].role == "owner" || rows[id].role == role || rows[id].provisionedVia != "jit"
        then p.rows == rows && p.result == Ok(Noop)
        else p.rows == rows[id := rows[id].(role := role)] && p.result == Ok(Updated)
      else
        (forall i | i in rows :: rows[i].organizationId != org || rows[i].userId != user) ==>
          p.rows == rows[newId := Membership(org, user, role, "jit")] && p.result == Ok(Created)
  {
    if id in rows && Belongs(rows[id], org, user) {
      assert RowOf(rows, org, user) == id;
    }
  }

  lemma InsertKeepsConstraints(rows: Rows, id: string, m: Membership)
    requires Constrained(rows) && !Collides(rows, id, m)
    ensures Constrained(rows[id := m])
  {
    assert forall i | i in rows :: !Belongs(rows[i], m.organizationId, m.userId);
  }

  lemma DemoteKeepsConstraints(rows: Rows, id: string, role: string)
    requires Constrained(rows) && id in rows && role != OWNER
    ensures Constrained(rows[id := rows[id].(role := role)])
  {
  }

  lemma ProvisioningIsContained(rows: Rows, newId: string, org: string, user: string, role: string)
    requires Constrained(rows)
    ensures
      var p := Provisioned(rows, newId, org, user, role);
      && Contained(rows, p.rows, org, user)
      && Constrained(p.rows)
      && (p.rows == rows <==> p.result.Err? || p.result.value.Noop?)
  {
    hide Constrained;
    var p := Provisioned(rows, newId, org, user, role);
    if p.rows != rows {
      if HasRow(rows, org, user) {
        DemoteKeepsConstraints(rows, RowOf(rows, org, user), role);
      } else {
        InsertKeepsConstraints(rows, newId, Fresh(org, user, role));
      }
    }
  }

  lemma OnlyRow(rows: Rows, org: string, user: string, id: string)
    requires Constrained(rows) && id in rows && Belongs(rows[id], org, user)
    ensures HasRow(rows, org, user) && RowOf(rows, org, user) == id
  {
  }

  /** Once a call has succeeded the caller has a row, and calling again with the same
      role does nothing, whatever new id it draws. */
  lemma RepeatIsNoop(rows: Rows, newId: string, newId': string, org: string, user: string, role: string)
    requires Constrained(rows)
    requires Provisioned(rows, newId, org, user, role).result.Ok?
    ensures
      var p := Provisioned(rows, newId, org, user, role);
      && HasRow(p.rows, org, user)
      && Provisioned(p.rows, newId', org, user, role) == Provision(p.rows, Ok(Noop))
  {
    var p := Provisioned(rows, newId, org, user, role);
    ProvisioningIsContained(rows, newId, org, user, role);
    hide Constrained, Contained;
    var id := if HasRow(rows, org, user) then RowOf(rows, org, user) else newId;
    OnlyRow(p.rows, org, user, id);
  }

  /** A row that JIT placed ends up with the resolved role; any other keeps its own. */
  lemma ProvisionedRole(rows: Rows, newId: string, org: string, user: string, role: string)
    requires Constrained(rows)
    requires Provisioned(rows, newId, org, user, role).result.Ok?
    ensures
      var p := Provisioned(rows, newId, org, user, role);
      HasRow(p.rows, org, user) &&
      var row := p.rows[RowOf(p.rows, org, user)];
      row.role == role || row.role == OWNER || row.provisionedVia != VIA_JIT
  {
    RepeatIsNoop(rows, newId, newId, org, user, role);
  }

  // ----- in the middle of others' writes -----

  /** What never changes about a membership id. */
  datatype Birth = Birth(organizationId: string, userId: string, provisionedVia: string)

  function BirthOf(m: Membership): Birth {
    Birth(m.organizationId, m.userId, m.provisionedVia)
  }

  /** What a call does next, or what it came to. */
  datatype Phase = ToSave | ToLook | ToUpdate(id: string) | Done(result: Result<Outcome, JITError>)

  datatype Call = Call(org: string, user: string, role: string, phase: Phase)

  datatype State = State(rows: Rows, births: map<string, Birth>, calls: map<nat, Call>)

  datatype Action =
    | Others(rows: Rows, births: map<string, Birth>) // any writes by anyone else
    | Begin(pid: nat, org: string, user: string, role: string)
    | Save(pid: nat, newId: string)
    | Look(pid: nat, id: string)
    | LookInVain(pid: nat)
    | Update(pid: nat)

  ghost predicate Coherent(rows: Rows, births: map<string, Birth>) {
    Constrained(rows) && forall id | id in rows :: id in births && births[id] == BirthOf(rows[id])
  }

  predicate Extends(births: map<string, Birth>, more: map<string, Birth>) {
    forall id | id in births :: id in more && more[id] == births[id]
  }

  /** Others keep the constraints, never reuse an id, and never change whose row it is
      or who placed it. They may change roles, add and delete. */
  ghost predicate Enabled(s: State, a: Action) {
    match a
    case Others(rows, births) => Coherent(rows, births) && Extends(s.births, births)
    case Begin(pid, _, _, _) => pid !in s.calls
    case Save(pid, newId) => pid in s.calls && s.calls[pid].phase.ToSave? && newId !in s.births
    case Look(pid, id) =>
      pid in s.calls && s.calls[pid].phase.ToLook? && id in s.rows
          && Belongs(s.rows[id], s.calls[pid].org, s.calls[pid].user)
    case LookInVain(pid) => pid in s.calls && s.calls[pid].phase.ToLook?
        && !HasRow(s.rows, s.calls[pid].org, s.calls[pid].user)
    case Update(pid) => pid in s.calls && s.calls[pid].phase.ToUpdate?
  }

  /** The checks before the first call to the store. */
  function Begun(org: string, user: string, role: string): Phase {
    if role == OWNER then Done(Err(OwnerForbidden))
    else if Priority(role) == 0 then Done(Err(UnknownRole))
    else if org == "" || user == "" then Done(Err(MissingId))
    else ToSave
  }

  ghost function Go(s: State, pid: nat, phase: Phase): State
    requires pid in s.calls
  {
    s.(calls := s.calls[pid := s.calls[pid].(phase := phase)])
  }

  ghost function Apply(s: State, a: Action): State
    requires Enabled(s, a)
  {
    match a
    case Others(rows, births) => s.(rows := rows, births := births)
    case Begin(pid, org, user, role) => s.(calls := s.calls[pid := Call(org, user, role, Begun(org, user, role))])
    case Save(pid, newId) =>
      var c := s.calls[pid];
      var m := Fresh(c.org, c.user, c.role);
      if Collides(s.rows, newId, m) then Go(s, pid, ToLook)
      else Go(s.(rows := s.rows[newId := m], births := s.births[newId := BirthOf(m)]), pid, Done(Ok(Created)))
    case Look(pid, id) =>
      Go(s, pid, if KeepsRow(s.rows[id], s.calls[pid].role) then Done(Ok(Noop)) else ToUpdate(id))
    case LookInVain(pid) => Go(s, pid, Done(Err(Storage(MembershipNotFound))))
    case Update(pid) =>
      var c := s.calls[pid];
      var id := c.phase.id;
      if id !in s.rows then Go(s, pid, Done(Err(Storage(MembershipNotFound))))
      else if RefusesRole(s.rows, id, c.role) then Go(s, pid, Done(Err(Storage(LastOwner))))
      else Go(s.(rows := s.rows[id := s.rows[id].(role := c.role)]), pid, Done(Ok(Updated)))
  }

  ghost predicate Inv(s: State) {
    && Coherent(s.rows, s.births)
    && forall pid | pid in s.calls ::
         var c := s.calls[pid];
         && (!c.phase.Done? ==> Priority(c.role) > 0)
         && (c.phase.ToUpdate? ==> c.phase.id in s.births && s.births[c.phase.id] == Birth(c.org, c.user, VIA_JIT))
  }

  lemma CoherentUpdate(rows: Rows, births: map<string, Birth>, id: string, role: string)
    requires Coherent(rows, births) && id in rows && !RefusesRole(rows, id, role) && role != OWNER
    ensures Coherent(rows[id := rows[id].(role := role)], births)
  {
  }

  lemma SaveKeepsInv(s: State, pid: nat, newId: string)
    requires Inv(s) && Enabled(s, Save(pid, newId))
    ensures Inv(Apply(s, Save(pid, newId)))
  {
    var c := s.calls[pid];
    if !Collides(s.rows, newId, Fresh(c.org, c.user, c.role)) {
      assert forall id | id in s.rows :: !Belongs(s.rows[id], c.org, c.user);
    }
  }

  lemma UpdateKeepsInv(s: State, pid: nat)
    requires Inv(s) && Enabled(s, Update(pid))
    ensures Inv(Apply(s, Update(pid)))
  {
    var c := s.calls[pid];
    if c.phase.id in s.rows && !RefusesRole(s.rows, c.phase.id, c.role) {
      CoherentUpdate(s.rows, s.births, c.phase.id, c.role);
      hide Coherent;
    }
  }

  lemma StepKeepsInv(s: State, a: Action)
    requires Inv(s) && Enabled(s, a)
    ensures Inv(Apply(s, a))
  {
    match a
    case Save(pid, newId) => SaveKeepsInv(s, pid, newId);
    case Update(pid) => UpdateKeepsInv(s, pid);
    case _ =>
  }

  ghost predicate Run(s: State, actions: seq<Action>)
    decreases |actions|
  {
    actions == [] || (Enabled(s, actions[0]) && Run(Apply(s, actions[0]), actions[1..]))
  }

  ghost function Exec(s: State, actions: seq<Action>): State
    requires Run(s, actions)
    decreases |actions|
  {
    if actions == [] then s else Exec(Apply(s, actions[0]), actions[1..])
  }

  lemma {:induction false} RunKeepsInv(s: State, actions: seq<Action>)
    requires Inv(s) && Run(s, actions)
    ensures Inv(Exec(s, actions))
    decreases |actions|
  {
    if actions != [] {
      hide Enabled, Apply, Inv;
      StepKeepsInv(s, actions[0]);
      RunKeepsInv(Apply(s, actions[0]), actions[1..]);
    }
  }

  ghost predicate Idle(s: State) {
    Coherent(s.rows, s.births) && s.calls == map[]
  }

  /** However the steps of any number of logins interleave with each other and with
      others' writes, each of JIT's own steps is contained. In particular no owner is
      ever demoted by it, not even one made after JIT looked. */
  lemma EveryStepIsContained(s0: State, actions: seq<Action>, a: Action)
    requires Idle(s0) && Run(s0, actions)
    requires Enabled(Exec(s0, actions), a) && !a.Others?
    ensures
      var s := Exec(s0, actions);
      if a.Begin? then Apply(s, a).rows == s.rows
      else Contained(s.rows, Apply(s, a).rows, s.calls[a.pid].org, s.calls[a.pid].user)
  {
    RunKeepsInv(s0, actions);
    StepIsContained(Exec(s0, actions), a);
  }

  lemma StepIsContained(s: State, a: Action)
    requires Inv(s) && Enabled(s, a) && !a.Others?
    ensures if a.Begin? then Apply(s, a).rows == s.rows
            else Contained(s.rows, Apply(s, a).rows, s.calls[a.pid].org, s.calls[a.pid].user)
  {
    if a.Update? {
      OwnersAreSafe(s, a.pid);
    }
  }

  lemma OwnersAreSafe(s: State, pid: nat)
    requires Inv(s) && Enabled(s, Update(pid))
    ensures
      var id := s.calls[pid].phase.id;
      id in s.rows && s.rows[id].role == OWNER ==> RefusesRole(s.rows, id, s.calls[pid].role)
  {
  }

  lemma RunOne(s: State, a: Action)
    requires Enabled(s, a)
    ensures Run(s, [a]) && Exec(s, [a]) == Apply(s, a)
  {
    hide Enabled, Apply;
    assert [a][1..] == [];
  }

  lemma {:induction false} RunMore(s: State, a: Action, rest: seq<Action>)
    requires Enabled(s, a) && Run(Apply(s, a), rest)
    ensures Run(s, [a] + rest) && Exec(s, [a] + rest) == Exec(Apply(s, a), rest)
  {
    hide Enabled, Apply;
    assert ([a] + rest)[1..] == rest;
  }

  /** The steps of one login, and nobody else's. */
  ghost predicate OwnSteps(steps: seq<Action>, pid: nat) {
    forall a | a in steps :: !a.Others? && a.pid == pid
  }

  /** From where the insert has met an existing row. */
  lemma {:induction false} UndisturbedReconcile(s: State, pid: nat) returns (steps: seq<Action>)
    requires Inv(s) && pid in s.calls && s.calls[pid].phase.ToLook?
    requires HasRow(s.rows, s.calls[pid].org, s.calls[pid].user)
    ensures OwnSteps(steps, pid)
    ensures
      var c := s.calls[pid];
      var id := RowOf(s.rows, c.org, c.user);
      var kept := KeepsRow(s.rows[id], c.role);
      && Run(s, steps)
      && Exec(s, steps) == Go(s, pid, Done(Ok(if kept then Noop else Updated))).(
                              rows := if kept then s.rows else s.rows[id := s.rows[id].(role := c.role)])
  {
    var c := s.calls[pid];
    var id := RowOf(s.rows, c.org, c.user);
    var look := Look(pid, id);
    var s1 := Apply(s, look);
    if KeepsRow(s.rows[id], c.role) {
      RunOne(s, look);
      steps := [look];
    } else {
      assert s1.calls[pid] == c.(phase := ToUpdate(id)) && !RefusesRole(s.rows, id, c.role);
      RunOne(s1, Update(pid));
      RunMore(s, look, [Update(pid)]);
      steps := [look] + [Update(pid)];
    }
  }

  /** From the insert on. */
  lemma {:induction false} UndisturbedSave(s: State, pid: nat, newId: string) returns (steps: seq<Action>)
    requires Inv(s) && pid in s.calls && s.calls[pid].phase.ToSave? && newId !in s.births
    requires Begun(s.calls[pid].org, s.calls[pid].user, s.calls[pid].role).ToSave?
    ensures OwnSteps(steps, pid)
    ensures
      var c := s.calls[pid];
      var p := Provisioned(s.rows, newId, c.org, c.user, c.role);
      && Run(s, steps) && Exec(s, steps).rows == p.rows
      && Exec(s, steps).calls == s.calls[pid := c.(phase := Done(p.result))]
  {
    var c := s.calls[pid];
    var save := Save(pid, newId);
    SaveKeepsInv(s, pid, newId);
    assert newId !in s.rows;
    hide Inv, Constrained, Coherent, RefusesRole, HasOtherOwner;
    if HasRow(s.rows, c.org, c.user) {
      assert Collides(s.rows, newId, Fresh(c.org, c.user, c.role));
      var rest := UndisturbedReconcile(Apply(s, save), pid);
      RunMore(s, save, rest);
      steps := [save] + rest;
    } else {
      assert !Collides(s.rows, newId, Fresh(c.org, c.user, c.role));
      RunOne(s, save);
      steps := [save];
    }
  }

  /** A login whom nobody disturbs does in the step machine what a whole call of
      JITProvisionMembership does, with the same result. */
  lemma {:induction false} UndisturbedProvision(s: State, pid: nat, newId: string, org: string, user: string,
                                                role: string)
    returns (steps: seq<Action>)
    requires Inv(s) && pid !in s.calls && newId !in s.births
    ensures OwnSteps(steps, pid)
    ensures
      var p := Provisioned(s.rows, newId, org, user, role);
      && Run(s, steps) && Exec(s, steps).rows == p.rows
      && Exec(s, steps).calls == s.calls[pid := Call(org, user, role, Done(p.result))]
  {
    var begin := Begin(pid, org, user, role);
    StepKeepsInv(s, begin);
    hide Inv, HasRow;
    if Begun(org, user, role).Done? {
      RunOne(s, begin);
      steps := [begin];
    } else {
      var rest := UndisturbedSave(Apply(s, begin), pid, newId);
      RunMore(s, begin, rest);
      steps := [begin] + rest;
    }
  }
}
