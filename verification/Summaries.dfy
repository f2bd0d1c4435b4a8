/** The three summaries of a list of zombies, and the service that tops one. */
module Summaries {
  import opened Zombies
  import Lexicographic
  import Sorting

  function FirstCurrency(zs: seq<Zombie>): string {
    if zs == [] then ""
    else
      var c := FirstCurrency(zs[..|zs| - 1]);
      if c == "" then zs[|zs| - 1].currency else c
  }

  /** The first currency that any of them has. */
  lemma {:induction false} FirstCurrencyIs(zs: seq<Zombie>)
    ensures FirstCurrency(zs) == "" <==> forall z | z in zs :: z.currency == ""
    ensures FirstCurrency(zs) != "" ==>
              exists i :: 0 <= i < |zs| && zs[i].currency == FirstCurrency(zs)
                && forall j | 0 <= j < i :: zs[j].currency == ""
  {
    if zs != [] {
      var init := zs[..|zs| - 1];
      FirstCurrencyIs(init);
      assert zs == init + [zs[|zs| - 1]];
      if FirstCurrency(init) == "" {
        assert forall j | 0 <= j < |init| :: zs[j] in init;
      }
    }
  }

  lemma {:induction false} RawGroupGrows<K(!new)>(key: Zombie -> K, k: K, zs: seq<Zombie>, i: nat)
    requires i < |zs|
    ensures ExactTally(key, k, zs[..i + 1]) ==
              if key(zs[i]) == k
              then Tally(ExactTally(key, k, zs[..i]).zombies + 1,
                         ExactTally(key, k, zs[..i]).savings + zs[i].monthlyCost)
              else ExactTally(key, k, zs[..i])
    ensures Keys(key, zs[..i + 1]) == Keys(key, zs[..i]) + {key(zs[i])}
    ensures k !in Keys(key, zs[..i]) ==> ExactTally(key, k, zs[..i]) == Tally(0, 0.0)
    ensures Total(zs[..i + 1]) == Total(zs[..i]) + zs[i].monthlyCost
  {
    assert zs[..i + 1][..i] == zs[..i];
    var g := Group(key, k, zs[..i]);
    assert (g + [zs[i]])[..|g|] == g && g + [] == g;
    GroupIsEmpty(key, k, zs[..i]);
  }

  // ----- per service -----

  datatype Summary = Summary(
    totalZombies: nat,
    potentialMonthlySave: real,
    currency: string,
    byService: map<string, Tally>)

  function SummaryOf(zs: seq<Zombie>): Summary {
    Summary(|zs|, Round2(Total(zs)), FirstCurrency(zs),
            map s | s in Keys(ServiceOf, zs) :: RoundedTally(ServiceOf, s, zs))
  }

  /** The map of running tallies that the loops keep. */
  ghost predicate Tallied<K(!new)>(groups: map<K, Tally>, key: Zombie -> K, zs: seq<Zombie>) {
    && groups.Keys == Keys(key, zs)
    && forall k | k in groups :: groups[k] == ExactTally(key, k, zs)
  }

  function Bumped<K>(groups: map<K, Tally>, k: K, cost: real): map<K, Tally> {
    var t := if k in groups then groups[k] else Tally(0, 0.0);
    groups[k := Tally(t.zombies + 1, t.savings + cost)]
  }

  lemma NothingTallied<K(!new)>(key: Zombie -> K, zs: seq<Zombie>)
    ensures Tallied(map[], key, zs[..0]) && Total(zs[..0]) == 0.0 && FirstCurrency(zs[..0]) == ""
  {
    assert zs[..0] == [];
  }

  lemma TalliedGrows<K(!new)>(groups: map<K, Tally>, key: Zombie -> K, zs: seq<Zombie>, i: nat)
    requires i < |zs| && Tallied(groups, key, zs[..i])
    ensures Tallied(Bumped(groups, key(zs[i]), zs[i].monthlyCost), key, zs[..i + 1])
  {
    hide ExactTally, Group, Keys;
    forall k
      ensures ExactTally(key, k, zs[..i + 1]) ==
                if key(zs[i]) == k
                then Tally(ExactTally(key, k, zs[..i]).zombies + 1,
                           ExactTally(key, k, zs[..i]).savings + zs[i].monthlyCost)
                else ExactTally(key, k, zs[..i])
    {
      RawGroupGrows(key, k, zs, i);
    }
    RawGroupGrows(key, key(zs[i]), zs, i);
  }

  method SumByService(zs: seq<Zombie>) returns (groups: map<string, Tally>, total: real, currency: string)
    ensures Tallied(groups, ServiceOf, zs)
    ensures total == Total(zs) && currency == FirstCurrency(zs)
  {
    groups, total, currency := map[], 0.0, "";
    NothingTallied(ServiceOf, zs);
    hide Tallied;
    for i := 0 to |zs|
      invariant Tallied(groups, ServiceOf, zs[..i])
      invariant total == Total(zs[..i]) && currency == FirstCurrency(zs[..i])
    {
      var z := zs[i];
      TalliedGrows(groups, ServiceOf, zs, i);
      assert zs[..i + 1][..i] == zs[..i];
      total := total + z.monthlyCost;
      if currency == "" {
        currency := z.currency;
      }
      var t := if z.service in groups then groups[z.service] else Tally(0, 0.0);
      groups := groups[z.service := Tally(t.zombies + 1, t.savings + z.monthlyCost)];
    }
    assert zs[..|zs|] == zs;
  }

  /** Every group's savings are rounded, in whatever order Go visits the map. */
  method RoundAll(groups: map<string, Tally>) returns (rounded: map<string, Tally>)
    ensures rounded.Keys == groups.Keys
    ensures forall k | k in groups :: rounded[k] == Tally(groups[k].zombies, Round2(groups[k].savings))
  {
    rounded := groups;
    var left := groups.Keys;
    hide Round2;
    while left != {}
      invariant left <= rounded.Keys == groups.Keys
      invariant forall k | k in groups ::
          rounded[k] == if k in left then groups[k] else Tally(groups[k].zombies, Round2(groups[k].savings))
      decreases |left|
    {
      var k :| k in left;
      rounded := rounded[k := Tally(rounded[k].zombies, Round2(rounded[k].savings))];
      left := left - {k};
    }
  }

  method Summarize(zs: seq<Zombie>) returns (s: Summary)
    ensures s == SummaryOf(zs)
  {
    var groups, total, currency := SumByService(zs);
    var rounded := RoundAll(groups);
    hide Round2, Group, Total;
    assert rounded == SummaryOf(zs).byService;
    return Summary(|zs|, Round2(total), currency, rounded);
  }

  function TalliesAt<K(!new)>(groups: map<K, Tally>, ks: seq<K>): seq<Tally>
    requires forall k | k in ks :: k in groups
  {
    if ks == [] then [] else [groups[ks[0]]] + TalliesAt(groups, ks[1..])
  }

  lemma {:induction false} TalliesAtAreRounded(zs: seq<Zombie>, ks: seq<string>)
    requires forall k | k in ks :: k in Keys(ServiceOf, zs)
    ensures TalliesAt(SummaryOf(zs).byService, ks) == RoundedTallies(ServiceOf, ks, zs)
  {
    if ks != [] {
      TalliesAtAreRounded(zs, ks[1..]);
    }
  }

  lemma SummaryParts(zs: seq<Zombie>)
    ensures SummaryOf(zs).byService.Keys == Keys(ServiceOf, zs)
    ensures SummaryOf(zs).totalZombies == |zs| && SummaryOf(zs).potentialMonthlySave == Round2(Total(zs))
  {
  }

  /** A summary in plain terms: the number of zombies, the sum of their costs, and for every
      service that occurs the number and the sum of its own, in whatever order they are
      taken; sums are rounded. */
  lemma SummaryIs(zs: seq<Zombie>, service: string, g: seq<Zombie>)
    requires forall z :: multiset(g)[z] == if z.service == service then multiset(zs)[z] else 0
    ensures
      var s := SummaryOf(zs);
      && s.totalZombies == |zs| && s.potentialMonthlySave == Round2(Total(zs)) && s.currency == FirstCurrency(zs)
      && (service in s.byService <==> exists z :: z in zs && z.service == service)
      && (service in s.byService ==> s.byService[service] == Tally(|g|, Round2(Total(g))))
  {
    assert Picks(g, z => ServiceOf(z) == service, zs);
    PickedTally(ServiceOf, service, zs, g);
    KeysAre(ServiceOf, zs, service);
    hide Round2, ExactTally, Total, Keys;
  }

  lemma EnumeratesMembers<K(!new)>(ks: seq<K>, keys: set<K>)
    requires Enumerates(ks, keys)
    ensures forall k | k in ks :: k in keys
  {
  }

  /** The services of a summary, added up in any order, are the summary's totals. */
  lemma SummaryAddsUp(zs: seq<Zombie>, ks: seq<string>)
    requires forall z | z in zs :: z.monthlyCost >= 0.0
    requires Enumerates(ks, SummaryOf(zs).byService.Keys)
    ensures
      var ts := TalliesAt(SummaryOf(zs).byService, ks);
      && ZombiesIn(ts) == SummaryOf(zs).totalZombies
      && Abs(SavingsIn(ts) - SummaryOf(zs).potentialMonthlySave) <= HalfCents(|ks| + 1)
  {
    hide *;
    SummaryParts(zs);
    EnumeratesMembers(ks, Keys(ServiceOf, zs));
    TalliesAtAreRounded(zs, ks);
    RoundedGroupsConserve(ServiceOf, ks, zs);
  }

  // ----- per service and resource type -----

  datatype Breakdown = Breakdown(service: string, resourceType: string, tally: Tally, currency: string)

  predicate BreakdownLess(a: Breakdown, b: Breakdown) {
    if a.service != b.service then Lexicographic.StringLess(a.service, b.service)
    else Lexicographic.StringLess(a.resourceType, b.resourceType)
  }

  function BucketCurrency(k: (string, string), zs: seq<Zombie>): string {
    var g := Group(ServiceTypeOf, k, zs);
    if g == [] then "" else g[0].currency
  }

  function BreakdownRow(k: (string, string), zs: seq<Zombie>): Breakdown {
    Breakdown(k.0, k.1, RoundedTally(ServiceTypeOf, k, zs), BucketCurrency(k, zs))
  }

  /** The rows of the breakdown: one for each pair, in strictly increasing order. */
  ghost predicate IsBreakdown(zs: seq<Zombie>, rows: seq<Breakdown>) {
    && Sorting.StrictlySorted(BreakdownLess, rows)
    && forall r :: r in rows <==>
         (r.service, r.resourceType) in Keys(ServiceTypeOf, zs) && r == BreakdownRow((r.service, r.resourceType), zs)
  }

  lemma StringsWeaklyOrdered(a: string, b: string, c: string)
    ensures Lexicographic.StringLess(a, b) || Lexicographic.StringLess(b, a) || a == b
    ensures Lexicographic.StringLess(a, b) ==> !Lexicographic.StringLess(b, a)
    ensures Lexicographic.StringLess(a, c) ==> Lexicographic.StringLess(a, b) || Lexicographic.StringLess(b, c)
  {
    Lexicographic.StringOrder();
  }

  lemma BreakdownOrder()
    ensures Sorting.StrictWeakOrder(BreakdownLess)
    ensures forall a, b ::
              BreakdownLess(a, b) || BreakdownLess(b, a) || (a.service == b.service && a.resourceType == b.resourceType)
  {
    forall a, b, c
      ensures BreakdownLess(a, b) ==> !BreakdownLess(b, a)
      ensures BreakdownLess(a, c) ==> BreakdownLess(a, b) || BreakdownLess(b, c)
      ensures BreakdownLess(a, b) || BreakdownLess(b, a) || (a.service == b.service && a.resourceType == b.resourceType)
    {
      StringsWeaklyOrdered(a.service, b.service, c.service);
      StringsWeaklyOrdered(b.service, a.service, c.service);
      StringsWeaklyOrdered(a.resourceType, b.resourceType, c.resourceType);
      hide Lexicographic.StringLess;
    }
  }

  /** There is only one such list, whatever order the buckets were collected in. */
  lemma BreakdownUnique(zs: seq<Zombie>, a: seq<Breakdown>, b: seq<Breakdown>)
    requires IsBreakdown(zs, a) && IsBreakdown(zs, b)
    ensures a == b
  {
    BreakdownOrder();
    hide Sorting.StrictlySorted, Sorting.StrictWeakOrder, BreakdownLess;
    Sorting.StrictlySortedUnique(BreakdownLess, a, b);
  }

  ghost predicate Bucketed(buckets: map<(string, string), Breakdown>, zs: seq<Zombie>) {
    && buckets.Keys == Keys(ServiceTypeOf, zs)
    && forall k | k in buckets ::
         buckets[k] == Breakdown(k.0, k.1, ExactTally(ServiceTypeOf, k, zs), BucketCurrency(k, zs))
  }

  function InBucket(buckets: map<(string, string), Breakdown>, z: Zombie): map<(string, string), Breakdown> {
    var k := (z.service, z.resourceType);
    var b := if k in buckets then buckets[k] else Breakdown(z.service, z.resourceType, Tally(0, 0.0), z.currency);
    buckets[k := b.(tally := Tally(b.tally.zombies + 1, b.tally.savings + z.monthlyCost))]
  }

  lemma BucketCurrencyGrows(k: (string, string), zs: seq<Zombie>, i: nat)
    requires i < |zs|
    ensures BucketCurrency(k, zs[..i + 1]) ==
              if ServiceTypeOf(zs[i]) == k && k !in Keys(ServiceTypeOf, zs[..i]) then zs[i].currency
              else BucketCurrency(k, zs[..i])
  {
    assert zs[..i + 1][..i] == zs[..i];
    GroupIsEmpty(ServiceTypeOf, k, zs[..i]);
    assert Group(ServiceTypeOf, k, zs[..i]) + [] == Group(ServiceTypeOf, k, zs[..i]);
  }

  lemma BucketedGrows(buckets: map<(string, string), Breakdown>, zs: seq<Zombie>, i: nat)
    requires i < |zs| && Bucketed(buckets, zs[..i])
    ensures Bucketed(InBucket(buckets, zs[i]), zs[..i + 1])
  {
    hide ExactTally, Keys, BucketCurrency;
    forall k
      ensures ExactTally(ServiceTypeOf, k, zs[..i + 1]) ==
                if ServiceTypeOf(zs[i]) == k
                then Tally(ExactTally(ServiceTypeOf, k, zs[..i]).zombies + 1,
                           ExactTally(ServiceTypeOf, k, zs[..i]).savings + zs[i].monthlyCost)
                else ExactTally(ServiceTypeOf, k, zs[..i])
      ensures BucketCurrency(k, zs[..i + 1]) ==
                if ServiceTypeOf(zs[i]) == k && k !in Keys(ServiceTypeOf, zs[..i]) then zs[i].currency
                else BucketCurrency(k, zs[..i])
    {
      RawGroupGrows(ServiceTypeOf, k, zs, i);
      BucketCurrencyGrows(k, zs, i);
    }
    RawGroupGrows(ServiceTypeOf, ServiceTypeOf(zs[i]), zs, i);
  }

  lemma NothingBucketed(zs: seq<Zombie>)
    ensures Bucketed(map[], zs[..0])
  {
    assert zs[..0] == [];
  }

  method FillBuckets(zs: seq<Zombie>) returns (buckets: map<(string, string), Breakdown>)
    ensures Bucketed(buckets, zs)
  {
    buckets := map[];
    NothingBucketed(zs);
    hide Bucketed;
    for i := 0 to |zs|
      invariant Bucketed(buckets, zs[..i])
    {
      var z := zs[i];
      BucketedGrows(buckets, zs, i);
      var k := (z.service, z.resourceType);
      var b := if k in buckets then buckets[k] else Breakdown(z.service, z.resourceType, Tally(0, 0.0), z.currency);
      buckets := buckets[k := b.(tally := Tally(b.tally.zombies + 1, b.tally.savings + z.monthlyCost))];
    }
    assert zs[..|zs|] == zs;
  }

  function KeyOf(r: Breakdown): (string, string) {
    (r.service, r.resourceType)
  }

  function RoundedRow(b: Breakdown): Breakdown {
    b.(tally := Tally(b.tally.zombies, Round2(b.tally.savings)))
  }

  /** `rows` are the rounded rows of the buckets that are not left over. */
  ghost predicate Collected(buckets: map<(string, string), Breakdown>, left: set<(string, string)>,
                            rows: seq<Breakdown>) {
    forall r :: r in rows <==> KeyOf(r) in buckets && KeyOf(r) !in left && r == RoundedRow(buckets[KeyOf(r)])
  }

  /** The buckets are visited in whatever order Go visits the map. */
  method CollectRows(buckets: map<(string, string), Breakdown>) returns (rows: seq<Breakdown>)
    requires forall k | k in buckets :: KeyOf(buckets[k]) == k
    ensures Sorting.Distinct(rows) && Collected(buckets, {}, rows)
  {
    hide Round2;
    rows := [];
    var left := buckets.Keys;
    while left != {}
      invariant left <= buckets.Keys
      invariant Sorting.Distinct(rows) && Collected(buckets, left, rows)
      decreases |left|
    {
      var k :| k in left;
      var row := RoundedRow(buckets[k]);
      assert KeyOf(row) == k && row !in rows;
      rows := rows + [row];
      left := left - {k};
    }
  }

  lemma CollectedRows(buckets: map<(string, string), Breakdown>, zs: seq<Zombie>, rows: seq<Breakdown>)
    requires Bucketed(buckets, zs) && Collected(buckets, {}, rows)
    ensures forall r :: r in rows <==> KeyOf(r) in Keys(ServiceTypeOf, zs) && r == BreakdownRow(KeyOf(r), zs)
    ensures Sorting.Ranked(BreakdownLess, rows)
  {
    BreakdownOrder();
    hide BreakdownLess, Round2, BucketCurrency, Group, Total, Keys;
    forall r
      ensures r in rows <==> KeyOf(r) in Keys(ServiceTypeOf, zs) && r == BreakdownRow(KeyOf(r), zs)
    {
    }
  }

  method SummarizeByServiceResourceType(zs: seq<Zombie>) returns (rows: seq<Breakdown>)
    ensures IsBreakdown(zs, rows)
  {
    var buckets := FillBuckets(zs);
    assert forall k | k in buckets :: KeyOf(buckets[k]) == k;
    var collected := CollectRows(buckets);
    CollectedRows(buckets, zs, collected);
    BreakdownOrder();
    hide BreakdownLess, Bucketed, Collected, Sorting.StrictWeakOrder, Sorting.StrictlySorted, Sorting.Ranked,
        Sorting.Distinct, BreakdownRow;
    Sorting.SortDistinct(BreakdownLess, collected);
    rows := Sorting.Sort(BreakdownLess, collected);
  }

  function BreakdownTallies(rows: seq<Breakdown>): seq<Tally> {
    if rows == [] then [] else [rows[0].tally] + BreakdownTallies(rows[1..])
  }

  function KeysOf(rows: seq<Breakdown>): (ks: seq<(string, string)>)
    ensures |ks| == |rows| && forall i | 0 <= i < |ks| :: ks[i] == KeyOf(rows[i])
  {
    if rows == [] then [] else [KeyOf(rows[0])] + KeysOf(rows[1..])
  }

  lemma {:induction false} BreakdownTalliesAreRounded(zs: seq<Zombie>, rows: seq<Breakdown>)
    requires forall r | r in rows :: r == BreakdownRow(KeyOf(r), zs)
    ensures BreakdownTallies(rows) == RoundedTallies(ServiceTypeOf, KeysOf(rows), zs)
  {
    hide RoundedTally, BucketCurrency;
    if rows != [] {
      assert rows[0] in rows;
      assert KeysOf(rows)[1..] == KeysOf(rows[1..]);
      BreakdownTalliesAreRounded(zs, rows[1..]);
    }
  }

  lemma BreakdownKeysDiffer(rows: seq<Breakdown>, i: nat, j: nat)
    requires Sorting.StrictlySorted(BreakdownLess, rows) && i < j < |rows|
    ensures KeyOf(rows[i]) != KeyOf(rows[j])
  {
    assert BreakdownLess(rows[i], rows[j]);
    StringsWeaklyOrdered(rows[i].service, rows[j].service, rows[i].service);
    StringsWeaklyOrdered(rows[i].resourceType, rows[j].resourceType, rows[i].resourceType);
  }

  lemma BreakdownHasKey(zs: seq<Zombie>, rows: seq<Breakdown>, k: (string, string))
    requires IsBreakdown(zs, rows)
    ensures k in KeysOf(rows) <==> k in Keys(ServiceTypeOf, zs)
  {
    hide BreakdownRow, Keys, Sorting.StrictlySorted;
    var ks := KeysOf(rows);
    if k in ks {
      var i :| 0 <= i < |ks| && ks[i] == k;
      assert rows[i] in rows;
    }
    if k in Keys(ServiceTypeOf, zs) {
      RowKey(k, zs);
      assert BreakdownRow(k, zs) in rows;
      var i :| 0 <= i < |rows| && rows[i] == BreakdownRow(k, zs);
      assert ks[i] == k;
    }
  }

  lemma BreakdownEnumerates(zs: seq<Zombie>, rows: seq<Breakdown>)
    requires IsBreakdown(zs, rows)
    ensures Enumerates(KeysOf(rows), Keys(ServiceTypeOf, zs))
  {
    assert Sorting.StrictlySorted(BreakdownLess, rows);
    hide IsBreakdown, Keys, Sorting.StrictlySorted, BreakdownLess;
    var ks := KeysOf(rows);
    forall i, j | 0 <= i < j < |ks|
      ensures ks[i] != ks[j]
    {
      BreakdownKeysDiffer(rows, i, j);
    }
    forall k
      ensures k in ks <==> k in Keys(ServiceTypeOf, zs)
    {
      BreakdownHasKey(zs, rows, k);
    }
  }

  lemma RowKey(k: (string, string), zs: seq<Zombie>)
    ensures KeyOf(BreakdownRow(k, zs)) == k
  {
  }

  lemma BreakdownRows(zs: seq<Zombie>, rows: seq<Breakdown>)
    requires IsBreakdown(zs, rows)
    ensures forall r | r in rows :: r == BreakdownRow(KeyOf(r), zs)
  {
    hide BreakdownRow, Keys, Sorting.StrictlySorted;
  }

  /** The breakdown accounts for every zombie and, but for rounding, every dollar. */
  lemma BreakdownAddsUp(zs: seq<Zombie>, rows: seq<Breakdown>)
    requires forall z | z in zs :: z.monthlyCost >= 0.0
    requires IsBreakdown(zs, rows)
    ensures
      var ts := BreakdownTallies(rows);
      && ZombiesIn(ts) == |zs|
      && Abs(SavingsIn(ts) - Round2(Total(zs))) <= HalfCents(|rows| + 1)
  {
    hide *;
    BreakdownEnumerates(zs, rows);
    BreakdownRows(zs, rows);
    BreakdownTalliesAreRounded(zs, rows);
    RoundedGroupsConserve(ServiceTypeOf, KeysOf(rows), zs);
  }

  /** The breakdown in plain terms. */
  lemma BreakdownIs(zs: seq<Zombie>, rows: seq<Breakdown>, r: Breakdown, g: seq<Zombie>)
    requires IsBreakdown(zs, rows)
    requires forall z :: multiset(g)[z] ==
                           if z.service == r.service && z.resourceType == r.resourceType then multiset(zs)[z] else 0
    ensures r in rows ==>
              && r.tally == Tally(|g|, Round2(Total(g)))
              && exists i :: 0 <= i < |zs| && zs[i].service == r.service && zs[i].resourceType == r.resourceType
                   && r.currency == zs[i].currency
                   && forall j | 0 <= j < i :: zs[j].service != r.service || zs[j].resourceType != r.resourceType
    ensures (exists z :: z in zs && z.service == r.service && z.resourceType == r.resourceType) ==>
              exists row :: row in rows && row.service == r.service && row.resourceType == r.resourceType
  {
    var k := (r.service, r.resourceType);
    assert Picks(g, z => ServiceTypeOf(z) == k, zs);
    PickedTally(ServiceTypeOf, k, zs, g);
    KeysAre(ServiceTypeOf, zs, k);
    FirstOfGroup(k, zs);
    hide Round2, ExactTally, Total, Keys, Group, Sorting.StrictlySorted;
    if k in Keys(ServiceTypeOf, zs) {
      assert BreakdownRow(k, zs) in rows;
    }
  }

  lemma {:induction false} FirstOfGroup(k: (string, string), zs: seq<Zombie>)
    ensures k in Keys(ServiceTypeOf, zs) ==>
              exists i :: 0 <= i < |zs| && (zs[i].service, zs[i].resourceType) == k
                && BucketCurrency(k, zs) == zs[i].currency
                && forall j | 0 <= j < i :: (zs[j].service, zs[j].resourceType) != k
  {
    if zs != [] {
      var n := |zs| - 1;
      FirstOfGroup(k, zs[..n]);
      assert zs[..n + 1] == zs;
      BucketCurrencyGrows(k, zs, n);
      hide BucketCurrency;
      if k in Keys(ServiceTypeOf, zs[..n]) {
        var i :| 0 <= i < n && (zs[i].service, zs[i].resourceType) == k
                 && BucketCurrency(k, zs[..n]) == zs[i].currency
                 && forall j | 0 <= j < i :: (zs[j].service, zs[j].resourceType) != k;
        assert BucketCurrency(k, zs) == zs[i].currency;
      } else {
        forall j | 0 <= j < n
          ensures (zs[j].service, zs[j].resourceType) != k
        {
          KeysAre(ServiceTypeOf, zs[..n], k);
          assert zs[j] in zs[..n];
        }
      }
    }
  }
}
