/** Zombie resources, and grouping them: no zombie and no dollar is lost or counted
    twice, and rounding each group costs at most half a cent. */
module Zombies {
  import opened Wrappers

  datatype Annotation = Annotation(id: int, action: string, reason: string, note: string, snoozedUntil: Option<int>)

  /** Money is real, so that sums are exact and only Round2 rounds. */
  datatype Zombie = Zombie(
    provider: string,
    accountId: string,
    internalAccountId: string,
    service: string,
    resourceType: string,
    region: string,
    resourceId: string,
    arn: string,
    tags: map<string, string>,
    monthlyCost: real,
    costBasis: string,
    currency: string,
    periodStart: int,
    periodEnd: int,
    usageMetric: string,
    usageAvg: real,
    usageUnit: string,
    reason: string,
    owner: string,
    dismissal: Option<Annotation>)

  const BILLED := "billed"
  const LIST_PRICE := "list_price"

  datatype CostRecord = CostRecord(
    provider: string,
    accountId: string,
    service: string,
    region: string,
    resourceId: string,
    amount: real,
    currency: string,
    periodStart: int,
    periodEnd: int,
    tags: map<string, string>,
    costBasis: string)

  function ServiceOf(z: Zombie): string { z.service }

  function ServiceTypeOf(z: Zombie): (string, string) { (z.service, z.resourceType) }

  function AccountOf(z: Zombie): string { z.internalAccountId }

  // ----- rounding -----

  /** Go's conversion of a float to int drops the fraction. */
  function Truncate(x: real): int {
    if x >= 0.0 then x.Floor else -((-x).Floor)
  }

  function Round2(f: real): real {
    (Truncate(f * 100.0 + 0.5) as real) / 100.0
  }

  /** Half a cent for each of `n` roundings. */
  function HalfCents(n: nat): real {
    0.005 * n as real
  }

  function Abs(x: real): real {
    if x < 0.0 then -x else x
  }

  /** Rounding stays within half a cent exactly for amounts of at least minus half a
      cent, and for those further below that it happens to round up by just half. */
  lemma RoundingError(f: real)
    ensures Abs(Round2(f) - f) <= 0.005 <==>
              f >= -0.005 || Truncate(f * 100.0 + 0.5) as real == f * 100.0 + 0.5
  {
    var x := f * 100.0 + 0.5;
    var t := Truncate(x) as real;
    assert Round2(f) == t / 100.0;
    assert Round2(f) - f == (t - x + 0.5) / 100.0;
    assert x >= 0.0 ==> x - 1.0 < t <= x;
    assert x < 0.0 ==> x <= t < x + 1.0;
  }

  /** The result is a whole number of cents: the amount and half a cent, cut off
      towards zero. */
  lemma RoundedIsCents(f: real) returns (cents: int)
    ensures Round2(f) == cents as real / 100.0
    ensures if f >= -0.005 then cents as real <= f * 100.0 + 0.5 < cents as real + 1.0
            else cents as real - 1.0 < f * 100.0 + 0.5 <= cents as real
  {
    cents := Truncate(f * 100.0 + 0.5);
  }

  // ----- groups -----

  function Total(zs: seq<Zombie>): real {
    if zs == [] then 0.0 else Total(zs[..|zs| - 1]) + zs[|zs| - 1].monthlyCost
  }

  /** The zombies with key `k`, in order. */
  function Group<K(==)>(key: Zombie -> K, k: K, zs: seq<Zombie>): seq<Zombie> {
    if zs == [] then []
    else
      var z := zs[|zs| - 1];
      Group(key, k, zs[..|zs| - 1]) + if key(z) == k then [z] else []
  }

  function Keys<K(==)>(key: Zombie -> K, zs: seq<Zombie>): set<K> {
    if zs == [] then {} else Keys(key, zs[..|zs| - 1]) + {key(zs[|zs| - 1])}
  }

  /** Keys(zs), in the order in which they first appear. */
  function FirstAppearances<K(==)>(key: Zombie -> K, zs: seq<Zombie>): seq<K> {
    if zs == [] then []
    else
      var seen, k := FirstAppearances(key, zs[..|zs| - 1]), key(zs[|zs| - 1]);
      if k in seen then seen else seen + [k]
  }

  ghost predicate Enumerates<K(!new)>(ks: seq<K>, keys: set<K>) {
    && (forall i, j | 0 <= i < j < |ks| :: ks[i] != ks[j])
    && (forall k :: k in ks <==> k in keys)
  }

  lemma {:induction false} EnumerationSize<K(!new)>(order: seq<K>, keys: set<K>)
    requires Enumerates(order, keys)
    ensures |order| == |keys|
  {
    if order == [] {
      assert forall k :: k in keys ==> k in order;
      assert keys == {};
    } else {
      assert order[0] in order;
      assert forall k | k in order[1..] :: k in order;
      assert forall k | k in order && k != order[0] :: k in order[1..];
      EnumerationSize(order[1..], keys - {order[0]});
    }
  }

  lemma {:induction false} FirstAppearancesEnumerate<K(!new)>(key: Zombie -> K, zs: seq<Zombie>)
    ensures Enumerates(FirstAppearances(key, zs), Keys(key, zs))
  {
    if zs != [] {
      FirstAppearancesEnumerate(key, zs[..|zs| - 1]);
    }
  }

  lemma {:induction false} GroupIsEmpty<K(!new)>(key: Zombie -> K, k: K, zs: seq<Zombie>)
    ensures Group(key, k, zs) == [] <==> k !in Keys(key, zs)
  {
    if zs != [] {
      GroupIsEmpty(key, k, zs[..|zs| - 1]);
    }
  }

  datatype Tally = Tally(zombies: nat, savings: real)

  function ExactTally<K(==)>(key: Zombie -> K, k: K, zs: seq<Zombie>): Tally {
    var g := Group(key, k, zs);
    Tally(|g|, Total(g))
  }

  function RoundedTally<K(==)>(key: Zombie -> K, k: K, zs: seq<Zombie>): Tally {
    var t := ExactTally(key, k, zs);
    t.(savings := Round2(t.savings))
  }

  function ZombiesIn(ts: seq<Tally>): nat {
    if ts == [] then 0 else ts[0].zombies + ZombiesIn(ts[1..])
  }

  function SavingsIn(ts: seq<Tally>): real {
    if ts == [] then 0.0 else ts[0].savings + SavingsIn(ts[1..])
  }

  function ExactTallies<K(==)>(key: Zombie -> K, ks: seq<K>, zs: seq<Zombie>): seq<Tally> {
    if ks == [] then [] else [ExactTally(key, ks[0], zs)] + ExactTallies(key, ks[1..], zs)
  }

  function RoundedTallies<K(==)>(key: Zombie -> K, ks: seq<K>, zs: seq<Zombie>): seq<Tally> {
    if ks == [] then [] else [RoundedTally(key, ks[0], zs)] + RoundedTallies(key, ks[1..], zs)
  }

  /** One more zombie goes to one group only. */
  lemma {:induction false} OneMore<K(!new)>(key: Zombie -> K, ks: seq<K>, zs: seq<Zombie>, z: Zombie)
    requires forall i, j | 0 <= i < j < |ks| :: ks[i] != ks[j]
    ensures
      var before, after := ExactTallies(key, ks, zs), ExactTallies(key, ks, zs + [z]);
      && ZombiesIn(after) == ZombiesIn(before) + (if key(z) in ks then 1 else 0)
      && SavingsIn(after) == SavingsIn(before) + (if key(z) in ks then z.monthlyCost else 0.0)
  {
    if ks != [] {
      OneMore(key, ks[1..], zs, z);
      assert (zs + [z])[..|zs|] == zs;
      var g := Group(key, ks[0], zs);
      assert (g + [z])[..|g|] == g;
      assert g + [] == g;
      assert key(z) in ks <==> key(z) == ks[0] || key(z) in ks[1..];
      assert ks[0] !in ks[1..];
    }
  }

  /** Conservation: over any duplicate-free list of keys that covers them, the groups'
      counts and savings add up to those of the whole. */
  lemma {:induction false} GroupsConserve<K(!new)>(key: Zombie -> K, ks: seq<K>, zs: seq<Zombie>)
    requires forall i, j | 0 <= i < j < |ks| :: ks[i] != ks[j]
    requires forall z | z in zs :: key(z) in ks
    ensures ZombiesIn(ExactTallies(key, ks, zs)) == |zs|
    ensures SavingsIn(ExactTallies(key, ks, zs)) == Total(zs)
  {
    if zs == [] {
      NothingInNothing(key, ks);
    } else {
      var init, z := zs[..|zs| - 1], zs[|zs| - 1];
      assert init + [z] == zs;
      GroupsConserve(key, ks, init);
      OneMore(key, ks, init, z);
    }
  }

  lemma {:induction false} NothingInNothing<K(!new)>(key: Zombie -> K, ks: seq<K>)
    ensures ZombiesIn(ExactTallies(key, ks, [])) == 0 && SavingsIn(ExactTallies(key, ks, [])) == 0.0
  {
    if ks != [] {
      NothingInNothing(key, ks[1..]);
    }
  }

  lemma {:induction false} TotalIsNonNegative(zs: seq<Zombie>)
    requires forall z | z in zs :: z.monthlyCost >= 0.0
    ensures Total(zs) >= 0.0
  {
    if zs != [] {
      assert zs[|zs| - 1] in zs;
      TotalIsNonNegative(zs[..|zs| - 1]);
    }
  }

  lemma {:induction false} GroupMembers<K(!new)>(key: Zombie -> K, k: K, zs: seq<Zombie>, z: Zombie)
    ensures z in Group(key, k, zs) <==> z in zs && key(z) == k
  {
    if zs != [] {
      GroupMembers(key, k, zs[..|zs| - 1], z);
      assert zs == zs[..|zs| - 1] + [zs[|zs| - 1]];
    }
  }

  lemma RoundingTally<K(!new)>(key: Zombie -> K, k: K, zs: seq<Zombie>)
    requires forall z | z in zs :: z.monthlyCost >= 0.0
    ensures RoundedTally(key, k, zs).zombies == ExactTally(key, k, zs).zombies
    ensures Abs(RoundedTally(key, k, zs).savings - ExactTally(key, k, zs).savings) <= 0.005
  {
    var g := Group(key, k, zs);
    forall z | z in g
      ensures z.monthlyCost >= 0.0
    {
      GroupMembers(key, k, zs, z);
    }
    TotalIsNonNegative(g);
    RoundingError(Total(g));
  }

  lemma Triangle(a: real, b: real, c: real, x: real, y: real)
    requires Abs(a - b) <= x && Abs(b - c) <= y
    ensures Abs(a - c) <= x + y
  {
  }

  lemma HalfCentsGrow(n: nat)
    ensures HalfCents(0) == 0.0 && HalfCents(n + 1) == HalfCents(n) + 0.005
  {
  }

  lemma {:induction false} RoundingTallies<K(!new)>(key: Zombie -> K, ks: seq<K>, zs: seq<Zombie>)
    requires forall z | z in zs :: z.monthlyCost >= 0.0
    ensures ZombiesIn(RoundedTallies(key, ks, zs)) == ZombiesIn(ExactTallies(key, ks, zs))
    ensures Abs(SavingsIn(RoundedTallies(key, ks, zs)) - SavingsIn(ExactTallies(key, ks, zs))) <= HalfCents(|ks|)
  {
    hide Round2, HalfCents, Group, Total, ExactTally, RoundedTally;
    if ks == [] {
      HalfCentsGrow(0);
    } else {
      RoundingTallies(key, ks[1..], zs);
      RoundingTally(key, ks[0], zs);
      HalfCentsGrow(|ks[1..]|);
      var r, e := RoundedTally(key, ks[0], zs), ExactTally(key, ks[0], zs);
      var rs, es := RoundedTallies(key, ks[1..], zs), ExactTallies(key, ks[1..], zs);
      assert ([r] + rs)[1..] == rs && ([e] + es)[1..] == es;
      Triangle(r.savings + SavingsIn(rs), e.savings + SavingsIn(rs), e.savings + SavingsIn(es), 0.005,
               HalfCents(|ks[1..]|));
    }
  }

  lemma {:induction false} KeysCover<K(!new)>(key: Zombie -> K, ks: seq<K>, zs: seq<Zombie>)
    requires Enumerates(ks, Keys(key, zs))
    ensures forall z | z in zs :: key(z) in ks
  {
    forall z | z in zs
      ensures key(z) in ks
    {
      KeyIsThere(key, zs, z);
    }
  }

  lemma TotalRounds(zs: seq<Zombie>)
    requires forall z | z in zs :: z.monthlyCost >= 0.0
    ensures Abs(Total(zs) - Round2(Total(zs))) <= 0.005
  {
    TotalIsNonNegative(zs);
    RoundingError(Total(zs));
  }

  /** What the endpoints show: rounded groups whose counts add up to the total
      exactly, and whose savings add up to the rounded total within half a cent for
      each group and one more for the total. */
  lemma {:induction false} RoundedGroupsConserve<K(!new)>(key: Zombie -> K, ks: seq<K>, zs: seq<Zombie>)
    requires Enumerates(ks, Keys(key, zs))
    requires forall z | z in zs :: z.monthlyCost >= 0.0
    ensures ZombiesIn(RoundedTallies(key, ks, zs)) == |zs|
    ensures Abs(SavingsIn(RoundedTallies(key, ks, zs)) - Round2(Total(zs))) <= HalfCents(|ks| + 1)
  {
    hide Round2, HalfCents, Total, Abs, RoundedTallies, ExactTallies, SavingsIn, ZombiesIn, Keys;
    KeysCover(key, ks, zs);
    GroupsConserve(key, ks, zs);
    RoundingTallies(key, ks, zs);
    TotalRounds(zs);
    HalfCentsGrow(|ks|);
    Triangle(SavingsIn(RoundedTallies(key, ks, zs)), Total(zs), Round2(Total(zs)), HalfCents(|ks|), 0.005);
  }

  lemma {:induction false} KeyIsThere<K(!new)>(key: Zombie -> K, zs: seq<Zombie>, z: Zombie)
    requires z in zs
    ensures key(z) in Keys(key, zs)
  {
    if z != zs[|zs| - 1] {
      assert z in zs[..|zs| - 1];
      KeyIsThere(key, zs[..|zs| - 1], z);
    }
  }

  // ----- what a group is -----

  lemma {:induction false} GroupCounts<K(!new)>(key: Zombie -> K, k: K, zs: seq<Zombie>, z: Zombie)
    ensures multiset(Group(key, k, zs))[z] == if key(z) == k then multiset(zs)[z] else 0
  {
    if zs != [] {
      GroupCounts(key, k, zs[..|zs| - 1], z);
      assert zs == zs[..|zs| - 1] + [zs[|zs| - 1]];
    }
  }

  lemma {:induction false} TotalConcat(a: seq<Zombie>, b: seq<Zombie>)
    ensures Total(a + b) == Total(a) + Total(b)
  {
    if b == [] {
      assert a + b == a;
    } else {
      assert (a + b)[..|a + b| - 1] == a + b[..|b| - 1];
      TotalConcat(a, b[..|b| - 1]);
    }
  }

  /** A total is the sum of the costs: of one zombie it is its cost, of two lists the sum. */
  lemma TotalAdds(a: seq<Zombie>, b: seq<Zombie>, z: Zombie)
    ensures Total([]) == 0.0 && Total([z]) == z.monthlyCost && Total(a + b) == Total(a) + Total(b)
  {
    assert [z][..0] == [];
    TotalConcat(a, b);
  }

  lemma TakeOut(zs: seq<Zombie>, i: nat)
    requires i < |zs|
    ensures
      var rest := zs[..i] + zs[i + 1..];
      Total(zs) == Total(rest) + zs[i].monthlyCost && multiset(rest) == multiset(zs) - multiset{zs[i]}
  {
    var a, b := zs[..i], zs[i + 1..];
    assert zs == a + ([zs[i]] + b);
    TotalConcat(a, [zs[i]] + b);
    TotalAdds([zs[i]], b, zs[i]);
    TotalConcat(a, b);
    assert multiset(zs) == multiset(a) + multiset{zs[i]} + multiset(b);
    hide Total;
  }

  /** In whatever order. */
  lemma {:induction false} TotalOfMultiset(a: seq<Zombie>, b: seq<Zombie>)
    requires multiset(a) == multiset(b)
    ensures Total(a) == Total(b) && |a| == |b|
    decreases |a|
  {
    hide Total;
    assert |a| == |multiset(a)| == |multiset(b)| == |b|;
    if a == [] {
      assert b == [];
    } else {
      assert a[0] in multiset(a) && a[0] in multiset(b);
      var i :| 0 <= i < |b| && b[i] == a[0];
      TakeOut(a, 0);
      TakeOut(b, i);
      TotalOfMultiset(a[..0] + a[1..], b[..i] + b[i + 1..]);
    }
  }

  /** `g` is some arrangement of the zombies of `zs` that satisfy `pick`. */
  ghost predicate Picks(g: seq<Zombie>, pick: Zombie -> bool, zs: seq<Zombie>) {
    forall z :: multiset(g)[z] == if pick(z) then multiset(zs)[z] else 0
  }

  lemma PickedTally<K(!new)>(key: Zombie -> K, k: K, zs: seq<Zombie>, g: seq<Zombie>)
    requires Picks(g, z => key(z) == k, zs)
    ensures ExactTally(key, k, zs) == Tally(|g|, Total(g))
  {
    forall z
      ensures multiset(g)[z] == multiset(Group(key, k, zs))[z]
    {
      GroupCounts(key, k, zs, z);
    }
    assert multiset(g) == multiset(Group(key, k, zs));
    TotalOfMultiset(g, Group(key, k, zs));
  }

  lemma {:induction false} KeysAre<K(!new)>(key: Zombie -> K, zs: seq<Zombie>, k: K)
    ensures k in Keys(key, zs) <==> exists z | z in zs :: key(z) == k
  {
    if zs != [] {
      KeysAre(key, zs[..|zs| - 1], k);
      assert zs == zs[..|zs| - 1] + [zs[|zs| - 1]];
    }
  }

  /** Keys come in the order in which they first appear: where one does, no later one
      has appeared yet. */
  lemma {:induction false} InFirstAppearance<K(!new)>(key: Zombie -> K, zs: seq<Zombie>, i: nat, j: nat)
    requires i < j < |FirstAppearances(key, zs)|
    ensures
      var order := FirstAppearances(key, zs);
      exists p :: 0 <= p < |zs| && key(zs[p]) == order[i] && forall q | 0 <= q <= p :: key(zs[q]) != order[j]
  {
    var n := |zs| - 1;
    var order := FirstAppearances(key, zs[..n]);
    if j < |order| {
      InFirstAppearance(key, zs[..n], i, j);
      var p :| 0 <= p < n && key(zs[..n][p]) == order[i] && forall q | 0 <= q <= p :: key(zs[..n][q]) != order[j];
      assert key(zs[p]) == order[i];
    } else {
      FirstAppearancesEnumerate(key, zs[..n]);
      var seen, new_ := order[i], key(zs[n]);
      assert seen in order && new_ !in order;
      KeysAre(key, zs[..n], seen);
      KeysAre(key, zs[..n], new_);
      var z :| z in zs[..n] && key(z) == seen;
      var p :| 0 <= p < n && zs[p] == z;
      forall q | 0 <= q <= p
        ensures key(zs[q]) != new_
      {
        assert zs[q] in zs[..n];
      }
    }
  }
}
