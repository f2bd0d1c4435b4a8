/** The summary by account, and the top service of one, which Go finds while it
    walks a map in random order. */
module Accounts {
  import opened Zombies
  import L = Lexicographic
  import Summaries

  // ----- the top service -----

  type Savings = map<string, real>

  datatype Lead = Lead(top: string, max: real)

  predicate Beats(service: string, savings: real, lead: Lead) {
    lead.top == "" || savings > lead.max || (savings == lead.max && L.StringLess(service, lead.top))
  }

  /** The loop of topService over one particular order of the map. */
  function Visit(m: Savings, order: seq<string>): Lead
    requires forall s | s in order :: s in m
  {
    if order == [] then Lead("", 0.0)
    else
      var s := order[|order| - 1];
      assert s in order && forall k | k in order[..|order| - 1] :: k in order;
      var lead := Visit(m, order[..|order| - 1]);
      if Beats(s, m[s], lead) then Lead(s, m[s]) else lead
  }

  /** Largest savings, and among those the smallest name. */
  ghost predicate IsTop(m: Savings, top: string) {
    && top in m
    && forall s | s in m && s != top :: m[s] < m[top] || (m[s] == m[top] && L.StringLess(top, s))
  }

  /** The top service for some order in which Go may visit the map. */
  ghost predicate MayBeTop(m: Savings, top: string) {
    exists order :: Enumerates(order, m.Keys) && Visit(m, order).top == top
  }

  method TopService(m: Savings) returns (top: string)
    ensures MayBeTop(m, top)
  {
    top := "";
    var max := 0.0;
    var left := m.Keys;
    ghost var order: seq<string> := [];
    hide L.StringLess;
    while left != {}
      invariant left <= m.Keys
      invariant Enumerates(order, m.Keys - left)
      invariant Visit(m, order) == Lead(top, max)
      decreases |left|
    {
      var s :| s in left;
      if top == "" || m[s] > max || (m[s] == max && L.StringLess(s, top)) {
        top := s;
        max := m[s];
      }
      left := left - {s};
      assert (order + [s])[..|order|] == order;
      assert forall k :: k in order + [s] <==> k in order || k == s;
      order := order + [s];
    }
    assert m.Keys - left == m.Keys;
  }

  /** The lead holds the top, or something that the top still beats. */
  ghost predicate LeadOk(m: Savings, seen: bool, top: string, lead: Lead)
    requires top in m
  {
    if seen then lead == Lead(top, m[top])
    else lead.top == "" || (lead.top in m && lead.top != top && lead.max == m[lead.top])
  }

  lemma LeadStep(m: Savings, seen: bool, top: string, lead: Lead, s: string)
    requires IsTop(m, top) && top != "" && LeadOk(m, seen, top, lead) && s in m && (seen ==> s != top)
    ensures LeadOk(m, seen || s == top, top, if Beats(s, m[s], lead) then Lead(s, m[s]) else lead)
  {
    L.StringOrder();
    hide L.StringLess;
  }

  lemma {:induction false} VisitFindsTop(m: Savings, order: seq<string>, top: string)
    requires IsTop(m, top) && top != ""
    requires (forall s | s in order :: s in m) && forall i, j | 0 <= i < j < |order| :: order[i] != order[j]
    ensures LeadOk(m, top in order, top, Visit(m, order))
  {
    if order != [] {
      var init, s := order[..|order| - 1], order[|order| - 1];
      assert order == init + [s];
      assert s in order && forall k | k in init :: k in order;
      VisitFindsTop(m, init, top);
      LeadStep(m, top in init, top, Visit(m, init), s);
      hide LeadOk, Beats;
    }
  }

  lemma {:induction false} TopExists(m: Savings, keys: set<string>) returns (top: string)
    requires keys != {} && keys <= m.Keys
    ensures top in keys
    ensures forall s | s in keys && s != top :: m[s] < m[top] || (m[s] == m[top] && L.StringLess(top, s))
    decreases |keys|
  {
    var k :| k in keys;
    L.StringOrder();
    if keys == {k} {
      top := k;
    } else {
      var rest := TopExists(m, keys - {k});
      top := if m[k] < m[rest] || (m[k] == m[rest] && L.StringLess(rest, k)) then rest else k;
    }
  }

  /** The guard under which the order does not show: no service without a name, or
      no other service, or one that saves more than the nameless. */
  ghost predicate TopIsSafe(m: Savings) {
    "" in m && m.Keys != {""} ==> exists s | s in m :: m[s] > m[""]
  }

  lemma NamedTop(m: Savings) returns (top: string)
    requires TopIsSafe(m) && m.Keys != {""} && m.Keys != {}
    ensures IsTop(m, top) && top != ""
  {
    top := TopExists(m, m.Keys);
  }

  lemma OnlyNameless(m: Savings, order: seq<string>)
    requires "" in m && order == [""]
    ensures Visit(m, order) == Lead("", m[""])
  {
    assert order[..|order| - 1] == [];
  }

  /** Whatever the order, topService then returns the top one. */
  lemma TopServiceIsTop(m: Savings, top: string)
    requires TopIsSafe(m) && MayBeTop(m, top)
    ensures if m == map[] then top == "" else IsTop(m, top)
    ensures m != map[] ==>
              top in m && forall s | s in m && s != top :: m[s] < m[top] || (m[s] == m[top] && L.StringLess(top, s))
  {
    var order :| Enumerates(order, m.Keys) && Visit(m, order).top == top;
    EnumerationSize(order, m.Keys);
    if m.Keys == {} {
      assert order == [];
    } else if m.Keys == {""} {
      assert order[0] in order;
      OnlyNameless(m, order);
    } else {
      var named := NamedTop(m);
      VisitFindsTop(m, order, named);
    }
  }

  lemma {:induction false} AnyOrder<K(!new)>(keys: set<K>) returns (order: seq<K>)
    ensures Enumerates(order, keys)
    decreases |keys|
  {
    if keys == {} {
      order := [];
    } else {
      var k :| k in keys;
      var rest := AnyOrder(keys - {k});
      order := rest + [k];
    }
  }

  lemma {:induction false} NamedLead(m: Savings, order: seq<string>, from: nat)
    requires from < |order| && (forall s | s in order :: s in m) && forall i | from <= i < |order| :: order[i] != ""
    requires from == 0 || (from == 1 && order[0] == "")
    ensures Visit(m, order).top in m && Visit(m, order).top != "" && Visit(m, order).max == m[Visit(m, order).top]
    decreases |order|
  {
    var init, s := order[..|order| - 1], order[|order| - 1];
    assert order == init + [s];
    assert s in order && forall k | k in init :: k in order;
    if |init| > from {
      NamedLead(m, init, from);
    } else if from == 1 {
      OnlyNameless(m, init);
    }
  }

  /** Exactly under that guard is the result the same for every order of the map. */
  lemma OrderDoesNotShow(m: Savings)
    ensures (forall a, b | MayBeTop(m, a) && MayBeTop(m, b) :: a == b) <==> TopIsSafe(m)
  {
    if TopIsSafe(m) {
      forall a, b | MayBeTop(m, a) && MayBeTop(m, b)
        ensures a == b
      {
        TopServiceIsTop(m, a);
        TopServiceIsTop(m, b);
        L.StringOrder();
      }
    } else {
      var top := NamelessFirstOrLast(m);
      assert MayBeTop(m, "") && MayBeTop(m, top);
    }
  }

  lemma NamelessLast(m: Savings, others: seq<string>)
    requires "" in m && Enumerates(others, m.Keys - {""}) && others != []
    requires forall s | s in m :: m[s] <= m[""]
    ensures MayBeTop(m, "")
  {
    var last := others + [""];
    assert forall k :: k in last <==> k in others || k == "";
    assert Enumerates(last, m.Keys);
    assert last[..|others|] == others;
    hide L.StringLess;
    NamedLead(m, others, 0);
    EmptyIsLeast(Visit(m, others).top);
    assert Visit(m, last).top == "";
  }

  lemma NamelessFirst(m: Savings, others: seq<string>) returns (top: string)
    requires "" in m && Enumerates(others, m.Keys - {""}) && others != []
    ensures MayBeTop(m, top) && top != ""
  {
    var first := [""] + others;
    assert forall k :: k in first <==> k in others || k == "";
    assert Enumerates(first, m.Keys);
    hide L.StringLess;
    forall i | 1 <= i < |first|
      ensures first[i] != ""
    {
      assert first[i] in others;
    }
    NamedLead(m, first, 1);
    top := Visit(m, first).top;
  }

  lemma NamelessFirstOrLast(m: Savings) returns (top: string)
    requires !TopIsSafe(m)
    ensures MayBeTop(m, "") && top != "" && MayBeTop(m, top)
  {
    var others := AnyOrder(m.Keys - {""});
    var k :| k in m && k != "";
    assert k in others;
    NamelessLast(m, others);
    top := NamelessFirst(m, others);
  }

  lemma EmptyIsLeast(s: string)
    requires s != ""
    ensures L.StringLess("", s)
  {
    assert |L.Codes(s)| == |s|;
  }

  // ----- accounts -----

  function FirstAccountId(g: seq<Zombie>): string {
    if g == [] then ""
    else
      var id := FirstAccountId(g[..|g| - 1]);
      if id == "" then g[|g| - 1].accountId else id
  }

  function SavingsByService(g: seq<Zombie>): Savings {
    if g == [] then map[]
    else
      var m, z := SavingsByService(g[..|g| - 1]), g[|g| - 1];
      m[z.service := (if z.service in m then m[z.service] else 0.0) + z.monthlyCost]
  }

  /** What the map holds for a service is what the account's zombies of it cost. */
  lemma {:induction false} SavingsByServiceIs(g: seq<Zombie>, s: string)
    ensures s in SavingsByService(g) <==> s in Keys(ServiceOf, g)
    ensures s in SavingsByService(g) ==> SavingsByService(g)[s] == Total(Group(ServiceOf, s, g))
  {
    if g != [] {
      SavingsByServiceIs(g[..|g| - 1], s);
      GroupIsEmpty(ServiceOf, s, g[..|g| - 1]);
      var h := Group(ServiceOf, s, g[..|g| - 1]);
      assert (h + [g[|g| - 1]])[..|h|] == h && h + [] == h;
    }
  }

  datatype Agg = Agg(accountId: string, tally: Tally, byService: Savings)

  const NO_AGG := Agg("", Tally(0, 0.0), map[])

  function AggOf(g: seq<Zombie>): Agg {
    Agg(FirstAccountId(g), Tally(|g|, Total(g)), SavingsByService(g))
  }

  function AddTo(a: Agg, z: Zombie): Agg {
    Agg(if a.accountId == "" then z.accountId else a.accountId,
        Tally(a.tally.zombies + 1, a.tally.savings + z.monthlyCost),
        a.byService[z.service := (if z.service in a.byService then a.byService[z.service] else 0.0) + z.monthlyCost])
  }

  lemma AggGrows(g: seq<Zombie>, z: Zombie)
    ensures AggOf(g + [z]) == AddTo(AggOf(g), z)
  {
    assert (g + [z])[..|g|] == g;
  }

  ghost predicate Aggregated(aggs: map<string, Agg>, order: seq<string>, zs: seq<Zombie>) {
    && order == FirstAppearances(AccountOf, zs)
    && aggs.Keys == Keys(AccountOf, zs)
    && forall a | a in aggs :: aggs[a] == AggOf(Group(AccountOf, a, zs))
  }

  lemma AccountGroupGrows(zs: seq<Zombie>, i: nat, a: string)
    requires i < |zs|
    ensures Group(AccountOf, a, zs[..i + 1]) ==
              if zs[i].internalAccountId == a then Group(AccountOf, a, zs[..i]) + [zs[i]]
                  else Group(AccountOf, a, zs[..i])
    ensures a !in Keys(AccountOf, zs[..i]) ==> AggOf(Group(AccountOf, a, zs[..i])) == NO_AGG
  {
    assert zs[..i + 1][..i] == zs[..i];
    GroupIsEmpty(AccountOf, a, zs[..i]);
    assert Group(AccountOf, a, zs[..i]) + [] == Group(AccountOf, a, zs[..i]);
  }

  lemma NewAgg(aggs: map<string, Agg>, order: seq<string>, zs: seq<Zombie>, i: nat, a: string)
    requires i < |zs| && Aggregated(aggs, order, zs[..i])
    ensures
      var z := zs[i];
      AggOf(Group(AccountOf, a, zs[..i + 1])) ==
        if a == z.internalAccountId then AddTo(if a in aggs then aggs[a] else NO_AGG, z)
        else AggOf(Group(AccountOf, a, zs[..i]))
  {
    AccountGroupGrows(zs, i, a);
    AggGrows(Group(AccountOf, a, zs[..i]), zs[i]);
    hide AggOf, AddTo, Group;
  }

  lemma NewOrder(order: seq<string>, zs: seq<Zombie>, i: nat)
    requires i < |zs| && order == FirstAppearances(AccountOf, zs[..i])
    ensures
      var a := zs[i].internalAccountId;
      && FirstAppearances(AccountOf, zs[..i + 1]) == (if a in Keys(AccountOf, zs[..i]) then order else order + [a])
      && Keys(AccountOf, zs[..i + 1]) == Keys(AccountOf, zs[..i]) + {a}
  {
    assert zs[..i + 1][..i] == zs[..i];
    FirstAppearancesEnumerate(AccountOf, zs[..i]);
  }

  lemma AggregatedGrows(aggs: map<string, Agg>, order: seq<string>, zs: seq<Zombie>, i: nat)
    requires i < |zs| && Aggregated(aggs, order, zs[..i])
    ensures
      var z := zs[i];
      var a := z.internalAccountId;
      Aggregated(aggs[a := AddTo(if a in aggs then aggs[a] else NO_AGG, z)], if a in aggs then order else order + [a],
                 zs[..i + 1])
  {
    hide AggOf, AddTo, Group, Keys, FirstAppearances;
    NewOrder(order, zs, i);
    forall a
      ensures
        AggOf(Group(AccountOf, a, zs[..i + 1])) ==
          if a == zs[i].internalAccountId then AddTo(if a in aggs then aggs[a] else NO_AGG, zs[i])
          else AggOf(Group(AccountOf, a, zs[..i]))
    {
      NewAgg(aggs, order, zs, i, a);
    }
  }

  datatype AccountSummary = AccountSummary(internalAccountId: string, accountId: string, tally: Tally,
                                           topService: string)

  ghost predicate IsAccountRow(row: AccountSummary, a: string, zs: seq<Zombie>) {
    var g := Group(AccountOf, a, zs);
    && row.internalAccountId == a
    && row.accountId == FirstAccountId(g)
    && row.tally == RoundedTally(AccountOf, a, zs)
    && MayBeTop(SavingsByService(g), row.topService)
  }

  /** One row for each account that has zombies, in order of first appearance. */
  ghost predicate IsByAccount(rows: seq<AccountSummary>, zs: seq<Zombie>) {
    var order := FirstAppearances(AccountOf, zs);
    |rows| == |order| && forall i | 0 <= i < |rows| :: IsAccountRow(rows[i], order[i], zs)
  }

  method Aggregate(zs: seq<Zombie>) returns (aggs: map<string, Agg>, order: seq<string>, currency: string)
    ensures Aggregated(aggs, order, zs) && currency == Summaries.FirstCurrency(zs)
  {
    aggs, order, currency := map[], [], "";
    assert zs[..0] == [];
    assert Aggregated(aggs, order, zs[..0]);
    hide Aggregated;
    for i := 0 to |zs|
      invariant Aggregated(aggs, order, zs[..i]) && currency == Summaries.FirstCurrency(zs[..i])
    {
      var z := zs[i];
      assert zs[..i + 1][..i] == zs[..i];
      if currency == "" {
        currency := z.currency;
      }
      AggregatedGrows(aggs, order, zs, i);
      var a := NO_AGG;
      if z.internalAccountId in aggs {
        a := aggs[z.internalAccountId];
      } else {
        order := order + [z.internalAccountId];
      }
      aggs := aggs[z.internalAccountId := AddTo(a, z)];
    }
    assert zs[..|zs|] == zs;
  }

  lemma AggregatedRow(aggs: map<string, Agg>, order: seq<string>, zs: seq<Zombie>, i: nat, top: string)
    requires Aggregated(aggs, order, zs) && i < |order|
    ensures order[i] in aggs
    ensures MayBeTop(aggs[order[i]].byService, top) ==>
              var a := aggs[order[i]];
              IsAccountRow(AccountSummary(order[i], a.accountId, Tally(a.tally.zombies, Round2(a.tally.savings)), top),
                           order[i], zs)
  {
    FirstAppearancesEnumerate(AccountOf, zs);
    assert order[i] in order;
    hide MayBeTop, Round2;
  }

  method SummarizeByAccount(zs: seq<Zombie>) returns (rows: seq<AccountSummary>, currency: string)
    ensures IsByAccount(rows, zs) && currency == Summaries.FirstCurrency(zs)
  {
    var aggs, order;
    aggs, order, currency := Aggregate(zs);
    assert order == FirstAppearances(AccountOf, zs);
    hide Aggregated, IsAccountRow, MayBeTop, FirstAppearances;
    rows := [];
    for i := 0 to |order|
      invariant |rows| == i && forall j | 0 <= j < i :: IsAccountRow(rows[j], order[j], zs)
    {
      AggregatedRow(aggs, order, zs, i, "");
      var a := aggs[order[i]];
      var top := TopService(a.byService);
      AggregatedRow(aggs, order, zs, i, top);
      rows := rows + [AccountSummary(order[i], a.accountId, Tally(a.tally.zombies, Round2(a.tally.savings)), top)];
    }
  }

  function AccountTallies(rows: seq<AccountSummary>): seq<Tally> {
    if rows == [] then [] else [rows[0].tally] + AccountTallies(rows[1..])
  }

  lemma {:induction false} AccountTalliesAreRounded(rows: seq<AccountSummary>, order: seq<string>, zs: seq<Zombie>)
    requires |rows| == |order| && forall i | 0 <= i < |rows| :: rows[i].tally == RoundedTally(AccountOf, order[i], zs)
    ensures AccountTallies(rows) == RoundedTallies(AccountOf, order, zs)
  {
    hide RoundedTally;
    if rows != [] {
      AccountTalliesAreRounded(rows[1..], order[1..], zs);
    }
  }

  lemma ByAccountTallies(rows: seq<AccountSummary>, zs: seq<Zombie>)
    requires IsByAccount(rows, zs)
    ensures |rows| == |FirstAppearances(AccountOf, zs)|
    ensures AccountTallies(rows) == RoundedTallies(AccountOf, FirstAppearances(AccountOf, zs), zs)
  {
    hide RoundedTally, FirstAppearances, MayBeTop;
    AccountTalliesAreRounded(rows, FirstAppearances(AccountOf, zs), zs);
  }

  /** The accounts account for every zombie and, but for rounding, every dollar. */
  lemma AccountsAddUp(rows: seq<AccountSummary>, zs: seq<Zombie>)
    requires forall z | z in zs :: z.monthlyCost >= 0.0
    requires IsByAccount(rows, zs)
    ensures
      var ts := AccountTallies(rows);
      && ZombiesIn(ts) == |zs|
      && Abs(SavingsIn(ts) - Round2(Total(zs))) <= HalfCents(|rows| + 1)
  {
    hide *;
    ByAccountTallies(rows, zs);
    FirstAppearancesEnumerate(AccountOf, zs);
    RoundedGroupsConserve(AccountOf, FirstAppearances(AccountOf, zs), zs);
  }

  lemma {:induction false} NamelessInKeys(zs: seq<Zombie>)
    ensures "" in Keys(ServiceOf, zs) ==> exists z :: z in zs && z.service == ""
  {
    if zs != [] && "" in Keys(ServiceOf, zs) {
      var last := zs[|zs| - 1];
      if last.service == "" {
        assert last in zs;
      } else {
        NamelessInKeys(zs[..|zs| - 1]);
      }
    }
  }

  lemma OneTop(zs: seq<Zombie>, account: string, s: string, t: string)
    requires forall z | z in zs :: z.service != ""
    requires
      var m := SavingsByService(Group(AccountOf, account, zs));
      MayBeTop(m, s) && MayBeTop(m, t)
    ensures s == t
  {
    hide MayBeTop, Group, SavingsByService;
    var g := Group(AccountOf, account, zs);
    forall z | z in g
      ensures z.service != ""
    {
      GroupMembers(AccountOf, account, zs, z);
    }
    NamelessInKeys(g);
    SavingsByServiceIs(g, "");
    OrderDoesNotShow(SavingsByService(g));
  }

  /** Detection and discovery name the service of every zombie they store. The whole table
      is then the same for every order of the maps. */
  lemma AccountsUnique(zs: seq<Zombie>, rows: seq<AccountSummary>, others: seq<AccountSummary>)
    requires forall z | z in zs :: z.service != ""
    requires IsByAccount(rows, zs) && IsByAccount(others, zs)
    ensures rows == others
  {
    var order := FirstAppearances(AccountOf, zs);
    hide FirstAppearances, Group, MayBeTop, SavingsByService, FirstAccountId, RoundedTally;
    forall i | 0 <= i < |rows|
      ensures rows[i] == others[i]
    {
      OneTop(zs, order[i], rows[i].topService, others[i].topService);
    }
  }

  // ----- the table in plain terms -----

  lemma FirstAccountIdGrows(g: seq<Zombie>, z: Zombie)
    ensures FirstAccountId(g + [z]) == if FirstAccountId(g) == "" then z.accountId else FirstAccountId(g)
  {
    assert (g + [z])[..|g|] == g;
  }

  /** No zombie of the account among the first `n` has an account number. */
  predicate NoIdYet(zs: seq<Zombie>, a: string, n: nat)
    requires n <= |zs|
  {
    forall j | 0 <= j < n && zs[j].internalAccountId == a :: zs[j].accountId == ""
  }

  lemma {:induction false} FirstIdOfAccount(zs: seq<Zombie>, a: string, n: nat) returns (i: nat)
    requires n <= |zs|
    ensures i <= n && NoIdYet(zs, a, i)
    ensures
      var id := FirstAccountId(Group(AccountOf, a, zs[..n]));
      && (id == "" ==> i == n)
      && (id != "" ==> i < n && zs[i].internalAccountId == a && zs[i].accountId == id)
  {
    hide FirstAccountId, Group;
    if n == 0 {
      i := 0;
      NobodysId(zs, a);
    } else {
      var z := zs[n - 1];
      NextId(zs, a, n - 1);
      i := FirstIdOfAccount(zs, a, n - 1);
      if i == n - 1 && (z.internalAccountId != a || z.accountId == "") {
        i := n;
      }
    }
  }

  lemma NobodysId(zs: seq<Zombie>, a: string)
    ensures FirstAccountId(Group(AccountOf, a, zs[..0])) == ""
  {
    assert zs[..0] == [];
  }

  lemma NextId(zs: seq<Zombie>, a: string, n: nat)
    requires n < |zs|
    ensures
      var id := FirstAccountId(Group(AccountOf, a, zs[..n]));
      FirstAccountId(Group(AccountOf, a, zs[..n + 1]))
      == if id == "" && zs[n].internalAccountId == a then zs[n].accountId else id
  {
    AccountGroupGrows(zs, n, a);
    FirstAccountIdGrows(Group(AccountOf, a, zs[..n]), zs[n]);
    hide FirstAccountId, Group;
  }

  /** A row of the table: the number and the rounded sum of the zombies of its account, in
      whatever order they are taken, and the first account number that one of them has. */
  lemma AccountIs(zs: seq<Zombie>, rows: seq<AccountSummary>, row: AccountSummary, g: seq<Zombie>)
    requires IsByAccount(rows, zs) && row in rows
    requires forall z :: multiset(g)[z] == if z.internalAccountId == row.internalAccountId then multiset(zs)[z] else 0
    ensures row.tally == Tally(|g|, Round2(Total(g)))
    ensures if row.accountId == ""
            then forall z | z in zs && z.internalAccountId == row.internalAccountId :: z.accountId == ""
            else exists i :: 0 <= i < |zs| && zs[i].internalAccountId == row.internalAccountId
                   && zs[i].accountId == row.accountId
                   && forall j | 0 <= j < i && zs[j].internalAccountId == row.internalAccountId :: zs[j].accountId == ""
  {
    hide Round2, ExactTally, Total, Group, MayBeTop, FirstAccountId, FirstAppearances;
    var a := row.internalAccountId;
    var i :| 0 <= i < |rows| && rows[i] == row;
    assert IsAccountRow(row, FirstAppearances(AccountOf, zs)[i], zs);
    hide IsByAccount;
    assert Picks(g, z => AccountOf(z) == a, zs);
    PickedTally(AccountOf, a, zs, g);
    var first := FirstIdOfAccount(zs, a, |zs|);
    assert zs[..|zs|] == zs;
    if row.accountId == "" {
      forall z | z in zs && z.internalAccountId == a
        ensures z.accountId == ""
      {
        var j :| 0 <= j < |zs| && zs[j] == z;
      }
    }
  }

  /** Exactly the accounts that have zombies get a row. */
  lemma AccountsListed(zs: seq<Zombie>, rows: seq<AccountSummary>, a: string)
    requires IsByAccount(rows, zs)
    ensures (exists row :: row in rows && row.internalAccountId == a)
            <==> exists z :: z in zs && z.internalAccountId == a
    ensures forall i, j | 0 <= i < j < |rows| :: rows[i].internalAccountId != rows[j].internalAccountId
  {
    var order := FirstAppearances(AccountOf, zs);
    FirstAppearancesEnumerate(AccountOf, zs);
    KeysAre(AccountOf, zs, a);
    hide FirstAppearances, Keys, MayBeTop, Group, RoundedTally, FirstAccountId;
    assert forall i | 0 <= i < |rows| :: rows[i].internalAccountId == order[i];
    if a in order {
      var i :| 0 <= i < |order| && order[i] == a;
      assert rows[i] in rows;
    }
    if row :| row in rows && row.internalAccountId == a {
      var i :| 0 <= i < |rows| && rows[i] == row;
      assert order[i] in order;
    }
  }

  lemma ServiceInAccount(zs: seq<Zombie>, a: string, s: string, h: seq<Zombie>)
    requires forall z :: multiset(h)[z] == if z.internalAccountId == a && z.service == s then multiset(zs)[z] else 0
    ensures Total(Group(ServiceOf, s, Group(AccountOf, a, zs))) == Total(h)
  {
    var g := Group(ServiceOf, s, Group(AccountOf, a, zs));
    forall z
      ensures multiset(g)[z] == multiset(h)[z]
    {
      GroupCounts(AccountOf, a, zs, z);
      GroupCounts(ServiceOf, s, Group(AccountOf, a, zs), z);
    }
    assert multiset(g) == multiset(h);
    TotalOfMultiset(g, h);
  }

  /** The top service of a row: no other service costs more in that account, and of those that
      cost as much it has the least name. */
  lemma TopServiceIs(zs: seq<Zombie>, rows: seq<AccountSummary>, row: AccountSummary, s: string, h: seq<Zombie>,
                     top: seq<Zombie>)
    requires IsByAccount(rows, zs) && row in rows && forall z | z in zs :: z.service != ""
    requires forall z :: multiset(h)[z] ==
               if z.internalAccountId == row.internalAccountId && z.service == s then multiset(zs)[z] else 0
    requires forall z :: multiset(top)[z] ==
               if z.internalAccountId == row.internalAccountId && z.service == row.topService then multiset(zs)[z]
               else 0
    requires h != [] && s != row.topService
    ensures top != []
    ensures Total(h) < Total(top) || (Total(h) == Total(top) && L.StringLess(row.topService, s))
  {
    var a := row.internalAccountId;
    var i :| 0 <= i < |rows| && rows[i] == row;
    assert IsAccountRow(row, FirstAppearances(AccountOf, zs)[i], zs);
    var g := Group(AccountOf, a, zs);
    var m := SavingsByService(g);
    hide FirstAppearances, Group, MayBeTop, SavingsByService, FirstAccountId, RoundedTally, IsByAccount, L.StringLess;
    forall z
      ensures z in g <==> z in zs && z.internalAccountId == a
    {
      GroupMembers(AccountOf, a, zs, z);
    }
    NamelessInKeys(g);
    SavingsByServiceIs(g, "");
    SavingsByServiceIs(g, s);
    SavingsByServiceIs(g, row.topService);
    KeysAre(ServiceOf, g, s);
    KeysAre(ServiceOf, g, row.topService);
    assert h[0] in h && h[0] in multiset(h);
    TopServiceIsTop(m, row.topService);
    ServiceInAccount(zs, a, s, h);
    ServiceInAccount(zs, a, row.topService, top);
    var z :| z in g && z.service == row.topService;
    assert z in multiset(top);
  }
}
