/** The digest's top services: the same for every order in which Go walks the map,
    and nothing better is left out. */
module Digest {
  import opened Zombies
  import Lexicographic
  import Sorting
  import Summaries

  datatype ServiceRow = ServiceRow(service: string, count: nat, savings: real)

  datatype Snapshot = Snapshot(id: string, organizationId: string, accountId: string, currency: string)

  datatype Payload = Payload(
    organizationId: string,
    accountId: string,
    zombieCount: nat,
    monthlySavings: real,
    currency: string,
    topServices: seq<ServiceRow>,
    dashboardUrl: string,
    snapshotId: string)

  /** Larger savings first, and among equals the smaller name. */
  predicate RowLess(a: ServiceRow, b: ServiceRow) {
    if a.savings != b.savings then a.savings > b.savings else Lexicographic.StringLess(a.service, b.service)
  }

  lemma RowOrder()
    ensures Sorting.StrictWeakOrder(RowLess)
    ensures forall a, b :: RowLess(a, b) || RowLess(b, a) || a.service == b.service
  {
    forall a, b, c
      ensures RowLess(a, b) ==> !RowLess(b, a)
      ensures RowLess(a, c) ==> RowLess(a, b) || RowLess(b, c)
      ensures RowLess(a, b) || RowLess(b, a) || a.service == b.service
    {
      Summaries.StringsWeaklyOrdered(a.service, b.service, c.service);
      hide Lexicographic.StringLess;
    }
  }

  function RowOf(groups: map<string, Tally>, service: string): ServiceRow
    requires service in groups
  {
    ServiceRow(service, groups[service].zombies, groups[service].savings)
  }

  ghost predicate AllRows(groups: map<string, Tally>, left: set<string>, rows: seq<ServiceRow>) {
    forall r :: r in rows <==> r.service in groups && r.service !in left && r == RowOf(groups, r.service)
  }

  /** A row for each service, in the digest's order. */
  ghost predicate IsRanking(groups: map<string, Tally>, rows: seq<ServiceRow>) {
    Sorting.StrictlySorted(RowLess, rows) && AllRows(groups, {}, rows)
  }

  function Trimmed(rows: seq<ServiceRow>, topN: int): seq<ServiceRow> {
    if topN > 0 && |rows| > topN then rows[..topN] else rows
  }

  ghost predicate IsDigest(groups: map<string, Tally>, topN: int, rows: seq<ServiceRow>) {
    exists ranking :: IsRanking(groups, ranking) && rows == Trimmed(ranking, topN)
  }

  method CollectRows(groups: map<string, Tally>) returns (rows: seq<ServiceRow>)
    ensures Sorting.Distinct(rows) && AllRows(groups, {}, rows)
  {
    rows := [];
    var left := groups.Keys;
    while left != {}
      invariant left <= groups.Keys
      invariant Sorting.Distinct(rows) && AllRows(groups, left, rows)
      decreases |left|
    {
      var service :| service in left;
      assert RowOf(groups, service) !in rows;
      rows := rows + [ServiceRow(service, groups[service].zombies, groups[service].savings)];
      left := left - {service};
    }
  }

  lemma CollectedAreRanked(groups: map<string, Tally>, rows: seq<ServiceRow>)
    requires AllRows(groups, {}, rows)
    ensures Sorting.Ranked(RowLess, rows)
  {
    RowOrder();
    hide RowLess;
  }

  method TopServices(groups: map<string, Tally>, topN: int) returns (rows: seq<ServiceRow>)
    ensures IsDigest(groups, topN, rows)
  {
    rows := CollectRows(groups);
    RowOrder();
    CollectedAreRanked(groups, rows);
    Sorting.SortDistinct(RowLess, rows);
    hide Sorting.StrictWeakOrder, Sorting.StrictlySorted, Sorting.Distinct, Sorting.Ranked, RowLess;
    rows := Sorting.Sort(RowLess, rows);
    assert IsRanking(groups, rows);
    if topN > 0 && |rows| > topN {
      rows := rows[..topN];
    }
  }

  function TrimSlash(origin: string): string {
    if origin != "" && origin[|origin| - 1] == '/' then origin[..|origin| - 1] else origin
  }

  lemma Slash(origin: string)
    ensures if exists rest :: origin == rest + "/" then TrimSlash(origin) + "/" == origin
            else TrimSlash(origin) == origin
  {
    if origin != "" && origin[|origin| - 1] == '/' {
      assert origin == origin[..|origin| - 1] + "/";
    }
  }

  method BuildPayload(snap: Snapshot, summary: Summaries.Summary, topN: int, dashboardOrigin: string)
    returns (p: Payload)
    ensures IsDigest(summary.byService, topN, p.topServices)
    ensures p.zombieCount == summary.totalZombies && p.monthlySavings == summary.potentialMonthlySave
    ensures p.currency == if summary.currency == "" then snap.currency else summary.currency
    ensures p.organizationId == snap.organizationId && p.accountId == snap.accountId && p.snapshotId == snap.id
    ensures p.dashboardUrl == TrimSlash(dashboardOrigin)
    ensures if exists rest :: dashboardOrigin == rest + "/" then p.dashboardUrl + "/" == dashboardOrigin
            else p.dashboardUrl == dashboardOrigin
  {
    var rows := TopServices(summary.byService, topN);
    var currency := summary.currency;
    if currency == "" {
      currency := snap.currency;
    }
    Slash(dashboardOrigin);
    p := Payload(snap.organizationId, snap.accountId, summary.totalZombies, summary.potentialMonthlySave, currency,
                 rows, TrimSlash(dashboardOrigin), snap.id);
  }

  lemma RankingUnique(groups: map<string, Tally>, a: seq<ServiceRow>, b: seq<ServiceRow>)
    requires IsRanking(groups, a) && IsRanking(groups, b)
    ensures a == b
  {
    RowOrder();
    hide Sorting.StrictWeakOrder, Sorting.StrictlySorted, RowLess;
    Sorting.StrictlySortedUnique(RowLess, a, b);
  }

  /** The order of the map does not show in the digest. */
  lemma DigestUnique(groups: map<string, Tally>, topN: int, a: seq<ServiceRow>, b: seq<ServiceRow>)
    requires IsDigest(groups, topN, a) && IsDigest(groups, topN, b)
    ensures a == b
  {
    var ra :| IsRanking(groups, ra) && a == Trimmed(ra, topN);
    var rb :| IsRanking(groups, rb) && b == Trimmed(rb, topN);
    RankingUnique(groups, ra, rb);
  }

  function Names(rows: seq<ServiceRow>): (names: seq<string>)
    ensures |names| == |rows| && forall i | 0 <= i < |rows| :: names[i] == rows[i].service
  {
    seq(|rows|, i requires 0 <= i < |rows| => rows[i].service)
  }

  lemma NamesDiffer(groups: map<string, Tally>, rows: seq<ServiceRow>, i: nat, j: nat)
    requires IsRanking(groups, rows) && i < j < |rows|
    ensures rows[i].service != rows[j].service
  {
    assert RowLess(rows[i], rows[j]) && rows[i] in rows && rows[j] in rows;
    Lexicographic.Irreflexive(Lexicographic.Codes(rows[i].service));
    hide Lexicographic.StringLess, Lexicographic.Less;
  }

  lemma {:induction false} RankingSize(groups: map<string, Tally>, rows: seq<ServiceRow>)
    requires IsRanking(groups, rows)
    ensures |rows| == |groups|
  {
    var names := Names(rows);
    forall i, j | 0 <= i < j < |names|
      ensures names[i] != names[j]
    {
      NamesDiffer(groups, rows, i, j);
    }
    hide RowLess, Sorting.StrictlySorted;
    forall s
      ensures s in names <==> s in groups.Keys
    {
      if s in names {
        var i :| 0 <= i < |names| && names[i] == s;
        assert rows[i] in rows;
      }
      if s in groups {
        assert RowOf(groups, s) in rows;
        var i :| 0 <= i < |rows| && rows[i] == RowOf(groups, s);
        assert names[i] == s;
      }
    }
    EnumerationSize(names, groups.Keys);
  }

  lemma KeptAboveDropped(ranking: seq<ServiceRow>, n: nat, kept: ServiceRow, dropped: ServiceRow)
    requires Sorting.StrictlySorted(RowLess, ranking) && n <= |ranking|
    requires kept in ranking[..n] && dropped in ranking && dropped !in ranking[..n]
    ensures RowLess(kept, dropped)
  {
    hide RowLess;
    var i :| 0 <= i < n && ranking[i] == kept;
    var j :| 0 <= j < |ranking| && ranking[j] == dropped;
    assert forall k | 0 <= k < n :: ranking[k] in ranking[..n];
  }

  /** The digest shows topN services, or all of them; what it shows is strictly
      ordered, true to the summary, and ranked above everything it leaves out. */
  lemma DigestShowsTheBest(groups: map<string, Tally>, topN: int, rows: seq<ServiceRow>, service: string)
    requires IsDigest(groups, topN, rows)
    ensures |rows| == if topN > 0 && |groups| > topN then topN else |groups|
    ensures Sorting.StrictlySorted(RowLess, rows)
    ensures forall r | r in rows ::
              r.service in groups && r.count == groups[r.service].zombies && r.savings == groups[r.service].savings
    ensures forall i, j | 0 <= i < j < |rows| ::
              || rows[i].savings > rows[j].savings
              || (rows[i].savings == rows[j].savings && Lexicographic.StringLess(rows[i].service, rows[j].service))
    ensures service in groups && (forall r | r in rows :: r.service != service) ==>
          forall r | r in rows ::
            || r.savings > groups[service].savings
            || (r.savings == groups[service].savings && Lexicographic.StringLess(r.service, service))
  {
    var ranking :| IsRanking(groups, ranking) && rows == Trimmed(ranking, topN);
    RankingSize(groups, ranking);
    assert rows == ranking[..|rows|];
    assert forall r | r in rows :: r in ranking;
    forall i, j | 0 <= i < j < |rows|
      ensures RowLess(rows[i], rows[j])
    {
    }
    hide Lexicographic.StringLess;
    if service in groups && RowOf(groups, service) !in rows {
      assert RowOf(groups, service) in ranking;
      forall r | r in rows
        ensures RowLess(r, RowOf(groups, service))
      {
        KeptAboveDropped(ranking, |rows|, r, RowOf(groups, service));
      }
    }
  }
}
