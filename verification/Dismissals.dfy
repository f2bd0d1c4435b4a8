/** Dismissed zombies, and why the two summary endpoints agree on the rest. */
module Dismissals {
  import opened Wrappers
  import opened Zombies
  import Accounts
  import Summaries
  import Text

  datatype DismissAction = DismissAction(
    id: int,
    accountId: string,
    provider: string,
    service: string,
    region: string,
    resourceId: string,
    action: string,
    reason: string,
    note: string,
    snoozedUntil: Option<int>,
    revokedAt: Option<int>)

  predicate Active(d: DismissAction, now: int) {
    d.revokedAt.None? && (d.action == "dismiss" || (d.snoozedUntil.Some? && d.snoozedUntil.value > now))
  }

  /** ListActiveDismissals; no account id means every account. */
  function ActiveDismissals(ds: seq<DismissAction>, accountId: string, now: int): seq<DismissAction> {
    if ds == [] then []
    else
      var d := ds[|ds| - 1];
      ActiveDismissals(ds[..|ds| - 1], accountId, now)
      + if Active(d, now) && (accountId == "" || d.accountId == accountId) then [d] else []
  }

  function Fingerprint(accountId: string, provider: string, service: string, region: string,
                       resourceId: string): string {
    accountId + "|" + provider + "|" + service + "|" + region + "|" + resourceId
  }

  function ZombieKey(z: Zombie): string {
    Fingerprint(z.internalAccountId, z.provider, z.service, z.region, z.resourceId)
  }

  function DismissalKey(d: DismissAction): string {
    Fingerprint(d.accountId, d.provider, d.service, d.region, d.resourceId)
  }

  /** One of the two account ids, with a '|' after it, starts the other. */
  predicate Clash(a: string, b: string) {
    a + "|" <= b || b + "|" <= a
  }

  /** Different accounts share a fingerprint only if they clash. */
  lemma FingerprintAccounts(a: string, x: string, b: string, y: string)
    requires a + ("|" + x) == b + ("|" + y) && a != b
    ensures Clash(a, b)
  {
    var key := a + ("|" + x);
    assert key[..|a|] == a && key[|a|] == '|' && key[..|b|] == b && key[|b|] == '|';
    if |a| < |b| {
      assert b[..|a| + 1] == key[..|a| + 1] == a + "|";
    } else if |b| < |a| {
      assert a[..|b| + 1] == key[..|b| + 1] == b + "|";
    }
  }

  lemma FingerprintIsJoin(a: string, p: string, s: string, r: string, i: string)
    ensures Fingerprint(a, p, s, r, i) == Text.Join([a, p, s, r, i], '|')
  {
    assert [a, p, s, r, i][1..] == [p, s, r, i] && [p, s, r, i][1..] == [s, r, i];
    assert [s, r, i][1..] == [r, i] && [r, i][1..] == [i];
    assert Text.Join([i], '|') == i;
    assert Text.Join([r, i], '|') == r + "|" + i;
    assert Text.Join([s, r, i], '|') == s + "|" + (r + "|" + i);
    assert Text.Join([p, s, r, i], '|') == p + "|" + (s + "|" + (r + "|" + i));
  }

  predicate NoBar(a: string, p: string, s: string, r: string, i: string) {
    '|' !in a && '|' !in p && '|' !in s && '|' !in r && '|' !in i
  }

  /** Fingerprints of fields without '|' are equal exactly if all five fields are. */
  lemma FingerprintIsFaithful(z: Zombie, d: DismissAction)
    requires NoBar(z.internalAccountId, z.provider, z.service, z.region, z.resourceId)
    requires NoBar(d.accountId, d.provider, d.service, d.region, d.resourceId)
    ensures ZombieKey(z) == DismissalKey(d) <==>
              z.internalAccountId == d.accountId && z.provider == d.provider && z.service == d.service
              && z.region == d.region && z.resourceId == d.resourceId
  {
    var zs := [z.internalAccountId, z.provider, z.service, z.region, z.resourceId];
    var ds := [d.accountId, d.provider, d.service, d.region, d.resourceId];
    FingerprintIsJoin(zs[0], zs[1], zs[2], zs[3], zs[4]);
    FingerprintIsJoin(ds[0], ds[1], ds[2], ds[3], ds[4]);
    hide Text.Join, Text.Split, Fingerprint;
    Text.SplitJoin(zs, '|');
    Text.SplitJoin(ds, '|');
    assert zs == ds ==> zs[0] == ds[0] && zs[1] == ds[1] && zs[2] == ds[2] && zs[3] == ds[3] && zs[4] == ds[4];
  }

  // ----- enrichment -----

  /** The last of the dismissals with this fingerprint. */
  function Matching(ds: seq<DismissAction>, key: string): Option<DismissAction> {
    if ds == [] then None
    else if DismissalKey(ds[|ds| - 1]) == key then Some(ds[|ds| - 1])
    else Matching(ds[..|ds| - 1], key)
  }

  lemma {:induction false} MatchingIs(ds: seq<DismissAction>, key: string)
    ensures Matching(ds, key).Some? <==> exists d | d in ds :: DismissalKey(d) == key
  {
    if ds != [] {
      MatchingIs(ds[..|ds| - 1], key);
      assert ds == ds[..|ds| - 1] + [ds[|ds| - 1]];
    }
  }

  function Annotated(z: Zombie, d: DismissAction): Zombie {
    z.(dismissal := Some(Annotation(d.id, d.action, d.reason, d.note, d.snoozedUntil)))
  }

  function Enriched(zs: seq<Zombie>, ds: seq<DismissAction>, includeDismissed: bool): seq<Zombie> {
    if zs == [] then []
    else
      var z := zs[|zs| - 1];
      Enriched(zs[..|zs| - 1], ds, includeDismissed)
      + match Matching(ds, ZombieKey(z))
        case None => [z]
        case Some(d) => if includeDismissed then [Annotated(z, d)] else []
  }

  lemma {:induction false} NothingDismissed(zs: seq<Zombie>, includeDismissed: bool)
    ensures Enriched(zs, [], includeDismissed) == zs
  {
    if zs != [] {
      NothingDismissed(zs[..|zs| - 1], includeDismissed);
    }
  }

  ghost predicate Indexed(lookup: map<string, DismissAction>, ds: seq<DismissAction>) {
    forall k :: if k in lookup then Matching(ds, k) == Some(lookup[k]) else Matching(ds, k) == None
  }

  method EnrichWithDismissals(zs: seq<Zombie>, ds: seq<DismissAction>, includeDismissed: bool)
    returns (out: seq<Zombie>)
    ensures out == Enriched(zs, ds, includeDismissed)
  {
    var lookup: map<string, DismissAction> := map[];
    hide Fingerprint;
    for i := 0 to |ds|
      invariant Indexed(lookup, ds[..i]) && (lookup == map[] ==> i == 0)
    {
      assert ds[..i + 1][..i] == ds[..i];
      lookup := lookup[DismissalKey(ds[i]) := ds[i]];
    }
    assert ds[..|ds|] == ds;
    if |lookup| == 0 {
      NothingDismissed(zs, includeDismissed);
      return zs;
    }
    out := [];
    for i := 0 to |zs|
      invariant out == Enriched(zs[..i], ds, includeDismissed)
    {
      assert zs[..i + 1][..i] == zs[..i];
      var z := zs[i];
      if ZombieKey(z) in lookup {
        var d := lookup[ZombieKey(z)];
        if !includeDismissed {
          continue;
        }
        z := z.(dismissal := Some(Annotation(d.id, d.action, d.reason, d.note, d.snoozedUntil)));
      }
      out := out + [z];
    }
    assert zs[..|zs|] == zs;
  }

  // ----- what dismissals do -----

  /** With the dismissed included, every zombie stays in its place, and all that changes is
      that it says by which dismissal: the last one with its fingerprint. */
  lemma {:induction false} LabelledInPlace(zs: seq<Zombie>, ds: seq<DismissAction>, i: nat, k: nat)
    requires i < |zs| && k < |ds|
    ensures |Enriched(zs, ds, true)| == |zs|
    ensures Enriched(zs, ds, true)[i].(dismissal := None) == zs[i].(dismissal := None)
    ensures (forall d | d in ds :: DismissalKey(d) != ZombieKey(zs[i])) ==> Enriched(zs, ds, true)[i] == zs[i]
    ensures DismissalKey(ds[k]) == ZombieKey(zs[i])
            && (forall j | k < j < |ds| :: DismissalKey(ds[j]) != ZombieKey(zs[i])) ==>
              var d := ds[k];
              Enriched(zs, ds, true)[i].dismissal
              == Some(Annotation(d.id, d.action, d.reason, d.note, d.snoozedUntil))
  {
    hide ZombieKey, DismissalKey;
    EnrichedAt(zs, ds, i);
    MatchingIs(ds, ZombieKey(zs[i]));
    if DismissalKey(ds[k]) == ZombieKey(zs[i])
       && (forall j | k < j < |ds| :: DismissalKey(ds[j]) != ZombieKey(zs[i])) {
      MatchingLast(ds, ZombieKey(zs[i]), k);
    }
    hide Enriched, Matching;
  }

  lemma {:induction false} EnrichedAt(zs: seq<Zombie>, ds: seq<DismissAction>, i: nat)
    requires i < |zs|
    ensures |Enriched(zs, ds, true)| == |zs|
    ensures
      var m := Matching(ds, ZombieKey(zs[i]));
      Enriched(zs, ds, true)[i] == if m.None? then zs[i] else Annotated(zs[i], m.value)
  {
    hide ZombieKey, Matching, Annotated;
    if i < |zs| - 1 {
      EnrichedAt(zs[..|zs| - 1], ds, i);
    } else if |zs| > 1 {
      EnrichedAt(zs[..|zs| - 1], ds, 0);
    } else {
      assert Enriched(zs[..0], ds, true) == [];
    }
  }

  lemma {:induction false} MatchingLast(ds: seq<DismissAction>, key: string, k: nat)
    requires k < |ds| && DismissalKey(ds[k]) == key && forall j | k < j < |ds| :: DismissalKey(ds[j]) != key
    ensures Matching(ds, key) == Some(ds[k])
  {
    hide DismissalKey;
    if k < |ds| - 1 {
      MatchingLast(ds[..|ds| - 1], key, k);
    }
  }

  lemma {:induction false} EnrichedMembers(zs: seq<Zombie>, ds: seq<DismissAction>, z: Zombie)
    ensures z in Enriched(zs, ds, false) <==> z in zs && Matching(ds, ZombieKey(z)).None?
  {
    if zs != [] {
      var init, last := zs[..|zs| - 1], zs[|zs| - 1];
      EnrichedMembers(init, ds, z);
      KeptGrows(init, last, ds);
      assert zs == init + [last];
      hide ZombieKey, Matching, Enriched;
    }
  }

  method OfAccount(zs: seq<Zombie>, accountId: string) returns (filtered: seq<Zombie>)
    ensures filtered == Group(AccountOf, accountId, zs)
  {
    filtered := [];
    for i := 0 to |zs|
      invariant filtered == Group(AccountOf, accountId, zs[..i])
    {
      assert zs[..i + 1][..i] == zs[..i];
      if zs[i].internalAccountId == accountId {
        filtered := filtered + [zs[i]];
      }
    }
    assert zs[..|zs|] == zs;
  }

  // ----- the endpoints -----

  /** The zombies that an account, or with "" the organization, still has to deal with. */
  function Outstanding(zs: seq<Zombie>, ds: seq<DismissAction>, accountId: string, now: int): seq<Zombie> {
    Enriched(if accountId == "" then zs else Group(AccountOf, accountId, zs), ActiveDismissals(ds, accountId, now),
             false)
  }

  /** What is outstanding, in plain terms: the account's zombies, or all, but for those that
      share their fingerprint with a dismissal of the account, or any, that
      nobody has revoked and that is for good or a snooze still running. */
  lemma StillOutstanding(zs: seq<Zombie>, ds: seq<DismissAction>, a: string, now: int, z: Zombie)
    ensures z in Outstanding(zs, ds, a, now) <==>
            && z in zs && (a == "" || z.internalAccountId == a)
            && !exists d ::
                 && d in ds && (a == "" || d.accountId == a) && DismissalKey(d) == ZombieKey(z)
                 && d.revokedAt.None?
                 && (d.action == "dismiss" || (d.snoozedUntil.Some? && d.snoozedUntil.value > now))
  {
    var active := ActiveDismissals(ds, a, now);
    EnrichedMembers(if a == "" then zs else Group(AccountOf, a, zs), active, z);
    GroupMembers(AccountOf, a, zs, z);
    MatchingIs(active, ZombieKey(z));
    forall d
      ensures d in active <==>
              && d in ds && (a == "" || d.accountId == a) && d.revokedAt.None?
              && (d.action == "dismiss" || (d.snoozedUntil.Some? && d.snoozedUntil.value > now))
    {
      ActiveIs(ds, a, now, d);
    }
    hide ZombieKey, DismissalKey, ActiveDismissals, Matching, Enriched, Group, Active;
  }

  lemma {:induction false} ActiveConcat(a: seq<DismissAction>, b: seq<DismissAction>, account: string, now: int)
    ensures ActiveDismissals(a + b, account, now)
            == ActiveDismissals(a, account, now) + ActiveDismissals(b, account, now)
  {
    hide Active;
    if b == [] {
      assert a + b == a;
    } else {
      assert (a + b)[..|a + b| - 1] == a + b[..|b| - 1];
      ActiveConcat(a, b[..|b| - 1], account, now);
    }
  }

  /** A dismissal that was revoked, or a snooze that is over, changes nothing. */
  lemma {:induction false} SpentDismissal(zs: seq<Zombie>, before: seq<DismissAction>, d: DismissAction,
                                          after: seq<DismissAction>, a: string, now: int)
    requires || d.revokedAt.Some?
             || (d.action != "dismiss" && (d.snoozedUntil.None? || d.snoozedUntil.value <= now))
    ensures Outstanding(zs, before + [d] + after, a, now) == Outstanding(zs, before + after, a, now)
  {
    assert [d][..0] == [] && ActiveDismissals([d], a, now) == [];
    ActiveConcat(before + [d], after, a, now);
    ActiveConcat(before, [d], a, now);
    ActiveConcat(before, after, a, now);
    hide ActiveDismissals, Enriched;
    assert ActiveDismissals(before, a, now) + [] == ActiveDismissals(before, a, now);
    assert ActiveDismissals(before + [d] + after, a, now) == ActiveDismissals(before + after, a, now);
  }

  lemma {:induction false} EnrichedConcat(xs: seq<Zombie>, ys: seq<Zombie>, ds: seq<DismissAction>)
    ensures Enriched(xs + ys, ds, false) == Enriched(xs, ds, false) + Enriched(ys, ds, false)
  {
    if ys == [] {
      assert xs + ys == xs;
    } else {
      var init, z := ys[..|ys| - 1], ys[|ys| - 1];
      assert xs + ys == xs + init + [z] && ys == init + [z];
      EnrichedConcat(xs, init, ds);
      KeptGrows(xs + init, z, ds);
      KeptGrows(init, z, ds);
      hide Enriched, Matching, ZombieKey;
    }
  }

  lemma {:induction false} AccountConcat(xs: seq<Zombie>, ys: seq<Zombie>, a: string)
    ensures Group(AccountOf, a, xs + ys) == Group(AccountOf, a, xs) + Group(AccountOf, a, ys)
  {
    if ys == [] {
      assert xs + ys == xs;
    } else {
      var init, z := ys[..|ys| - 1], ys[|ys| - 1];
      assert xs + ys == xs + init + [z] && ys == init + [z];
      AccountConcat(xs, init, a);
      AccountGrows(a, xs + init, z);
      AccountGrows(a, init, z);
      hide Group;
    }
  }

  /** And it comes in the order of the zombies. */
  lemma OutstandingInOrder(xs: seq<Zombie>, ys: seq<Zombie>, ds: seq<DismissAction>, a: string, now: int)
    ensures Outstanding(xs + ys, ds, a, now) == Outstanding(xs, ds, a, now) + Outstanding(ys, ds, a, now)
  {
    AccountConcat(xs, ys, a);
    var active := ActiveDismissals(ds, a, now);
    EnrichedConcat(xs, ys, active);
    EnrichedConcat(Group(AccountOf, a, xs), Group(AccountOf, a, ys), active);
    hide Enriched, Group, ActiveDismissals;
  }

  method GetSummary(zs: seq<Zombie>, ds: seq<DismissAction>, accountId: string, now: int) returns (s: Summaries.Summary)
    ensures s == Summaries.SummaryOf(Outstanding(zs, ds, accountId, now))
  {
    var zombies := zs;
    if accountId != "" {
      zombies := OfAccount(zombies, accountId);
    }
    zombies := EnrichWithDismissals(zombies, ActiveDismissals(ds, accountId, now), false);
    s := Summaries.Summarize(zombies);
  }

  method GetSummaryByAccount(zs: seq<Zombie>, ds: seq<DismissAction>, now: int)
    returns (rows: seq<Accounts.AccountSummary>, currency: string)
    ensures Accounts.IsByAccount(rows, Outstanding(zs, ds, "", now))
  {
    var zombies := EnrichWithDismissals(zs, ActiveDismissals(ds, "", now), false);
    rows, currency := Accounts.SummarizeByAccount(zombies);
  }

  /** No dismissal in force is of an account that clashes with this one. */
  ghost predicate NoClash(ds: seq<DismissAction>, a: string, now: int) {
    forall d | d in ds && Active(d, now) :: !Clash(a, d.accountId)
  }

  lemma {:induction false} ActiveIs(ds: seq<DismissAction>, accountId: string, now: int, d: DismissAction)
    ensures d in ActiveDismissals(ds, accountId, now) <==>
            d in ds && Active(d, now) && (accountId == "" || d.accountId == accountId)
  {
    if ds != [] {
      ActiveIs(ds[..|ds| - 1], accountId, now, d);
      assert ds == ds[..|ds| - 1] + [ds[|ds| - 1]];
    }
  }

  lemma SameKeySameAccount(z: Zombie, d: DismissAction)
    requires ZombieKey(z) == DismissalKey(d) && !Clash(z.internalAccountId, d.accountId)
    ensures z.internalAccountId == d.accountId
  {
    var a, b := z.internalAccountId, d.accountId;
    var x := z.provider + "|" + z.service + "|" + z.region + "|" + z.resourceId;
    var y := d.provider + "|" + d.service + "|" + d.region + "|" + d.resourceId;
    assert ZombieKey(z) == a + ("|" + x) && DismissalKey(d) == b + ("|" + y);
    if a != b {
      FingerprintAccounts(a, x, b, y);
    }
  }

  /** Then no other account's dismissal touches a zombie. */
  lemma OnlyOwnDismissals(z: Zombie, ds: seq<DismissAction>, now: int)
    requires NoClash(ds, z.internalAccountId, now)
    ensures Matching(ActiveDismissals(ds, "", now), ZombieKey(z)).Some?
            <==> Matching(ActiveDismissals(ds, z.internalAccountId, now), ZombieKey(z)).Some?
  {
    var a := z.internalAccountId;
    MatchingIs(ActiveDismissals(ds, "", now), ZombieKey(z));
    MatchingIs(ActiveDismissals(ds, a, now), ZombieKey(z));
    hide ZombieKey, DismissalKey, Active, ActiveDismissals, Matching, Clash;
    forall d | d in ds && Active(d, now) && DismissalKey(d) == ZombieKey(z)
      ensures d.accountId == a
    {
      SameKeySameAccount(z, d);
    }
    forall d
      ensures d in ActiveDismissals(ds, "", now) && DismissalKey(d) == ZombieKey(z)
              <==> d in ActiveDismissals(ds, a, now) && DismissalKey(d) == ZombieKey(z)
    {
      ActiveIs(ds, "", now, d);
      ActiveIs(ds, a, now, d);
    }
  }

  lemma KeptGrows(zs: seq<Zombie>, z: Zombie, ds: seq<DismissAction>)
    ensures Enriched(zs + [z], ds, false)
            == if Matching(ds, ZombieKey(z)).None? then Enriched(zs, ds, false) + [z] else Enriched(zs, ds, false)
  {
    assert (zs + [z])[..|zs|] == zs;
    assert Enriched(zs, ds, false) + [] == Enriched(zs, ds, false);
  }

  lemma AccountGrows(a: string, zs: seq<Zombie>, z: Zombie)
    ensures Group(AccountOf, a, zs + [z])
            == if z.internalAccountId == a then Group(AccountOf, a, zs) + [z] else Group(AccountOf, a, zs)
  {
    assert (zs + [z])[..|zs|] == zs;
    assert Group(AccountOf, a, zs) + [] == Group(AccountOf, a, zs);
  }

  /** Filtering to an account and then applying its dismissals leaves the same zombies,
      in the same order, as applying all dismissals and then looking at the account. */
  lemma {:induction false} FiltersCommute(zs: seq<Zombie>, ds: seq<DismissAction>, a: string, now: int)
    requires NoClash(ds, a, now) && a != ""
    ensures Group(AccountOf, a, Outstanding(zs, ds, "", now)) == Outstanding(zs, ds, a, now)
  {
    if zs != [] {
      hide ActiveDismissals, ZombieKey, Matching, Enriched, Group, NoClash;
      var init, z := zs[..|zs| - 1], zs[|zs| - 1];
      assert zs == init + [z];
      FiltersCommute(init, ds, a, now);
      var all, own := ActiveDismissals(ds, "", now), ActiveDismissals(ds, a, now);
      if z.internalAccountId == a {
        OnlyOwnDismissals(z, ds, now);
      }
      KeptGrows(init, z, all);
      AccountGrows(a, Enriched(init, all, false), z);
      AccountGrows(a, init, z);
      KeptGrows(Group(AccountOf, a, init), z, own);
    } else {
      assert Outstanding(zs, ds, a, now) == [];
    }
  }

  /** The organization's table has for the account the very count and savings that the
      account's own summary shows, and no row exactly if that count is zero. */
  ghost predicate Agree(zs: seq<Zombie>, ds: seq<DismissAction>, a: string, now: int) {
    forall rows: seq<Accounts.AccountSummary> | Accounts.IsByAccount(rows, Outstanding(zs, ds, "", now)) ::
      var s := Summaries.SummaryOf(Outstanding(zs, ds, a, now));
      && (forall row | row in rows && row.internalAccountId == a ::
            row.tally == Tally(s.totalZombies, s.potentialMonthlySave))
      && (s.totalZombies == 0 <==> forall row | row in rows :: row.internalAccountId != a)
  }

  /** The two summary endpoints agree on every account that no dismissal in force
      clashes with. */
  lemma EndpointsAgree(zs: seq<Zombie>, ds: seq<DismissAction>, a: string, now: int)
    requires NoClash(ds, a, now) && a != ""
    ensures Agree(zs, ds, a, now)
  {
    var kept := Outstanding(zs, ds, "", now);
    FiltersCommute(zs, ds, a, now);
    Summaries.SummaryParts(Outstanding(zs, ds, a, now));
    hide Outstanding, Summaries.SummaryOf, NoClash;
    forall rows: seq<Accounts.AccountSummary> | Accounts.IsByAccount(rows, kept)
      ensures
        var s := Summaries.SummaryOf(Outstanding(zs, ds, a, now));
        && (forall row | row in rows && row.internalAccountId == a ::
              row.tally == Tally(s.totalZombies, s.potentialMonthlySave))
        && (s.totalZombies == 0 <==> forall row | row in rows :: row.internalAccountId != a)
    {
      AccountRows(kept, a, rows);
    }
  }

  lemma AccountRows(zs: seq<Zombie>, a: string, rows: seq<Accounts.AccountSummary>)
    requires Accounts.IsByAccount(rows, zs)
    ensures
      var g := Group(AccountOf, a, zs);
      && (forall row | row in rows && row.internalAccountId == a :: row.tally == Tally(|g|, Round2(Total(g))))
      && (|g| == 0 <==> forall row | row in rows :: row.internalAccountId != a)
  {
    var order := FirstAppearances(AccountOf, zs);
    FirstAppearancesEnumerate(AccountOf, zs);
    GroupIsEmpty(AccountOf, a, zs);
    hide Keys, Group, Round2, Total, FirstAppearances, Accounts.MayBeTop, Accounts.FirstAccountId,
        Accounts.SavingsByService;
    if a in order {
      var i :| 0 <= i < |order| && order[i] == a;
      assert Accounts.IsAccountRow(rows[i], order[i], zs) && rows[i] in rows;
    }
    forall row | row in rows && row.internalAccountId == a
      ensures a in order && row.tally == RoundedTally(AccountOf, a, zs)
    {
      var i :| 0 <= i < |rows| && rows[i] == row;
      assert Accounts.IsAccountRow(rows[i], order[i], zs);
    }
  }

  /** An account's id, which is a UUID. The table of dismissals refers to accounts by a
      foreign key, and so does the one of zombies: no other ids are found there. */
  predicate AccountId(a: string) {
    a != "" && '|' !in a
  }

  /** So the two endpoints never diverge, whatever the zombies and the dismissals hold in
      their other fields. */
  lemma EndpointsNeverDiverge(zs: seq<Zombie>, ds: seq<DismissAction>, a: string, now: int)
    requires AccountId(a) && forall d | d in ds :: AccountId(d.accountId)
    ensures Agree(zs, ds, a, now)
  {
    forall d | d in ds && Active(d, now)
      ensures !Clash(a, d.accountId)
    {
      NoBarNoClash(a, d.accountId);
    }
    EndpointsAgree(zs, ds, a, now);
  }

  lemma NoBarNoClash(a: string, b: string)
    requires '|' !in a && '|' !in b
    ensures !Clash(a, b)
  {
    assert (a + "|")[|a|] == '|' && (b + "|")[|b|] == '|';
  }

  lemma {:induction false} ActiveOne(d: DismissAction, account: string, now: int)
    requires Active(d, now)
    ensures ActiveDismissals([d], account, now) == if account == "" || d.accountId == account then [d] else []
  {
    hide Active;
    assert [d][..0] == [];
  }

  lemma {:induction false} EnrichOne(z: Zombie, d: DismissAction)
    requires ZombieKey(z) == DismissalKey(d)
    ensures Enriched([z], [d], false) == [] && Group(AccountOf, z.internalAccountId, [z]) == [z]
  {
    hide ZombieKey, DismissalKey;
    assert [z][..0] == [];
    assert Matching([d], ZombieKey(z)) == Some(d);
  }

  /** A zombie that one dismissal of another account hides from the organization's
      table, but not from its own account's summary. */
  lemma {:induction false} ForeignDismissalDiverges(z: Zombie, d: DismissAction, now: int)
    requires ZombieKey(z) == DismissalKey(d) && Active(d, now)
    requires z.internalAccountId != "" && z.internalAccountId != d.accountId
    ensures Outstanding([z], [d], "", now) == [] && Outstanding([z], [d], z.internalAccountId, now) == [z]
    ensures !Agree([z], [d], z.internalAccountId, now)
  {
    hide Active, ZombieKey, DismissalKey, Group, ActiveDismissals, Enriched, Matching;
    var a := z.internalAccountId;
    ActiveOne(d, "", now);
    ActiveOne(d, a, now);
    EnrichOne(z, d);
    NothingDismissed([z], false);
    var none: seq<Accounts.AccountSummary> := [];
    assert Accounts.IsByAccount(none, []);
    Summaries.SummaryParts([z]);
    hide Summaries.SummaryOf, Accounts.IsByAccount;
    assert Summaries.SummaryOf(Outstanding([z], [d], a, now)).totalZombies == 1;
  }

  const SOME_ZOMBIE := Zombie("", "", "", "", "", "", "", "", map[], 0.0, "", "", 0, 0, "", 0.0, "", "", "", None)

  /** A zombie and a dismissal of clashing accounts that share a fingerprint: the rest of
      the longer id moves into the provider, and every other field one further. */
  lemma Clashing(a: string, b: string) returns (z: Zombie, d: DismissAction)
    requires Clash(a, b)
    ensures z.internalAccountId == a && d.accountId == b && ZombieKey(z) == DismissalKey(d)
    ensures d.action == "dismiss" && d.revokedAt == None
  {
    if a + "|" <= b {
      var rest := b[|a| + 1..];
      assert b == a + "|" + rest;
      z := SOME_ZOMBIE.(internalAccountId := a, provider := rest, service := "p", region := "s", resourceId := "r|i");
      d := DismissAction(0, b, "p", "s", "r", "i", "dismiss", "", "", None, None);
      assert ZombieKey(z) == a + "|" + rest + "|p|s|r|i" == DismissalKey(d);
    } else {
      var rest := a[|b| + 1..];
      assert a == b + "|" + rest;
      z := SOME_ZOMBIE.(internalAccountId := a, provider := "p", service := "s", region := "r", resourceId := "i");
      d := DismissAction(0, b, rest, "p", "s", "r|i", "dismiss", "", "", None, None);
      assert ZombieKey(z) == b + "|" + rest + "|p|s|r|i" == DismissalKey(d);
    }
  }

  /** Whatever the zombies, and whatever dismissals of these accounts are in force. */
  ghost predicate AlwaysAgree(a: string, accounts: set<string>) {
    forall zs, ds, now | (forall d: DismissAction | d in ds :: d.accountId in accounts) :: Agree(zs, ds, a, now)
  }

  /** What the fingerprint, with its bars, takes for granted of account ids: the endpoints
      agree on an account, whatever the zombies and the dismissals, exactly if none of the
      accounts that dismissals name clashes with it. Ids of accounts never do. */
  lemma {:induction false} AgreeIffNoClash(a: string, accounts: set<string>)
    requires a != ""
    ensures AlwaysAgree(a, accounts) <==> forall b | b in accounts :: !Clash(a, b)
  {
    hide Agree, Clash, Active;
    if forall b | b in accounts :: !Clash(a, b) {
      forall zs, ds, now | (forall d: DismissAction | d in ds :: d.accountId in accounts)
        ensures Agree(zs, ds, a, now)
      {
        EndpointsAgree(zs, ds, a, now);
      }
    } else {
      var b :| b in accounts && Clash(a, b);
      var z, d := Clashing(a, b);
      ClashIsForeign(a, b);
      DismissIsActive(d);
      ForeignDismissalDiverges(z, d, 0);
      assert forall e | e in [d] :: e.accountId in accounts;
    }
  }

  lemma ClashIsForeign(a: string, b: string)
    requires Clash(a, b)
    ensures a != b
  {
  }

  lemma DismissIsActive(d: DismissAction)
    requires d.action == "dismiss" && d.revokedAt == None
    ensures Active(d, 0)
  {
  }
}
