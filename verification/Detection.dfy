/** Finding zombies among the costs, and the inventory that marks them. */
module Detection {
  import opened Wrappers
  import opened Zombies

  datatype UsageRecord = UsageRecord(resourceId: string, metric: string, unit: string, avg: real, periodDays: int)

  const NO_USAGE := UsageRecord("", "", "", 0.0, 0)

  datatype Rule = Rule(threshold: real, reason: string)

  /** The tables that detection consults: threshold rules, the classification of
      resource types, and the way to write a resource's name. */
  datatype Catalog = Catalog(
    rules: map<string, Rule>,
    typeOf: (string, string) -> string,
    arnOf: (string, string, string, string, string) -> string)

  datatype ResourceRecord = ResourceRecord(
    provider: string,
    accountId: string,
    internalAccountId: string,
    service: string,
    resourceType: string,
    region: string,
    resourceId: string,
    arn: string,
    tags: map<string, string>,
    monthlyCost: real,
    currency: string,
    periodStart: int,
    periodEnd: int,
    usageMetric: string,
    usageAvg: real,
    usageUnit: string,
    isZombie: bool,
    reason: string,
    owner: string)

  function OwnerOf(tags: map<string, string>): string {
    if "team" in tags && tags["team"] != "" then tags["team"] else "unknown"
  }

  /** What a scan from the end of the list finds. */
  function LastUsage(usage: seq<UsageRecord>, id: string): Option<UsageRecord> {
    if usage == [] then None
    else if usage[|usage| - 1].resourceId == id then Some(usage[|usage| - 1])
    else LastUsage(usage[..|usage| - 1], id)
  }

  function LastZombie(zombies: seq<Zombie>, id: string): Option<Zombie> {
    if zombies == [] then None
    else if zombies[|zombies| - 1].resourceId == id then Some(zombies[|zombies| - 1])
    else LastZombie(zombies[..|zombies| - 1], id)
  }

  lemma {:induction false} LastZombieIs(zombies: seq<Zombie>, id: string)
    ensures LastZombie(zombies, id).Some? <==> exists z | z in zombies :: z.resourceId == id
    ensures LastZombie(zombies, id).Some? ==>
              LastZombie(zombies, id).value in zombies && LastZombie(zombies, id).value.resourceId == id
  {
    if zombies != [] {
      LastZombieIs(zombies[..|zombies| - 1], id);
      assert zombies == zombies[..|zombies| - 1] + [zombies[|zombies| - 1]];
    }
  }

  // ----- indexes -----

  ghost predicate IndexesUsage(index: map<string, UsageRecord>, usage: seq<UsageRecord>) {
    forall id :: LastUsage(usage, id) == if id in index then Some(index[id]) else None
  }

  method IndexUsage(usage: seq<UsageRecord>) returns (index: map<string, UsageRecord>)
    ensures IndexesUsage(index, usage)
  {
    index := map[];
    for i := 0 to |usage|
      invariant IndexesUsage(index, usage[..i])
    {
      assert usage[..i + 1][..i] == usage[..i];
      index := index[usage[i].resourceId := usage[i]];
    }
    assert usage[..|usage|] == usage;
  }

  datatype ZombieInfo = ZombieInfo(reason: string, owner: string, resourceType: string)

  function InfoOf(z: Option<Zombie>): ZombieInfo {
    if z.Some? then ZombieInfo(z.value.reason, z.value.owner, z.value.resourceType) else ZombieInfo("", "", "")
  }

  ghost predicate IndexesZombies(index: map<string, ZombieInfo>, zombies: seq<Zombie>) {
    forall id :: (id in index <==> LastZombie(zombies, id).Some?)
        && (id in index ==> index[id] == InfoOf(LastZombie(zombies, id)))
  }

  method IndexZombies(zombies: seq<Zombie>) returns (index: map<string, ZombieInfo>)
    ensures IndexesZombies(index, zombies)
  {
    index := map[];
    for i := 0 to |zombies|
      invariant IndexesZombies(index, zombies[..i])
    {
      assert zombies[..i + 1][..i] == zombies[..i];
      var z := zombies[i];
      index := index[z.resourceId := ZombieInfo(z.reason, z.owner, z.resourceType)];
    }
    assert zombies[..|zombies|] == zombies;
  }

  // ----- detection -----

  predicate IsIdle(cat: Catalog, c: CostRecord, u: Option<UsageRecord>) {
    c.service in cat.rules && u.Some? && u.value.avg <= cat.rules[c.service].threshold
  }

  function ZombieFrom(cat: Catalog, c: CostRecord, u: UsageRecord, account: string): Zombie
    requires c.service in cat.rules
  {
    Zombie(c.provider, c.accountId, account, c.service, cat.typeOf(c.service, u.metric), c.region, c.resourceId,
           cat.arnOf(c.provider, c.accountId, c.region, c.service, c.resourceId), c.tags,
           c.amount, "", c.currency, c.periodStart, c.periodEnd, u.metric, u.avg, u.unit,
           cat.rules[c.service].reason, OwnerOf(c.tags), None)
  }

  function Detected(cat: Catalog, costs: seq<CostRecord>, usage: seq<UsageRecord>, account: string): seq<Zombie> {
    if costs == [] then []
    else
      var c := costs[|costs| - 1];
      var u := LastUsage(usage, c.resourceId);
      Detected(cat, costs[..|costs| - 1], usage, account)
      + if IsIdle(cat, c, u) then [ZombieFrom(cat, c, u.value, account)] else []
  }

  method Detect(cat: Catalog, costs: seq<CostRecord>, usage: seq<UsageRecord>, account: string)
    returns (zombies: seq<Zombie>)
    ensures zombies == Detected(cat, costs, usage, account)
  {
    var usageById := IndexUsage(usage);
    zombies := [];
    for i := 0 to |costs|
      invariant zombies == Detected(cat, costs[..i], usage, account)
    {
      assert costs[..i + 1][..i] == costs[..i];
      var c := costs[i];
      if c.service !in cat.rules {
        continue;
      }
      if c.resourceId !in usageById {
        continue;
      }
      var u := usageById[c.resourceId];
      if u.avg <= cat.rules[c.service].threshold {
        zombies := zombies + [ZombieFrom(cat, c, u, account)];
      }
    }
    assert costs[..|costs|] == costs;
  }

  /** Detection flags an id exactly if some cost under that id belongs to a service
      with a rule and the id's last usage is at or below the rule's threshold. */
  lemma {:induction false} DetectedIff(cat: Catalog, costs: seq<CostRecord>, usage: seq<UsageRecord>, account: string,
                                       id: string)
    ensures (exists z | z in Detected(cat, costs, usage, account) :: z.resourceId == id)
            <==> exists c | c in costs :: c.resourceId == id && IsIdle(cat, c, LastUsage(usage, id))
  {
    if costs != [] {
      var init, c := costs[..|costs| - 1], costs[|costs| - 1];
      assert costs == init + [c];
      DetectedIff(cat, init, usage, account, id);
      var u := LastUsage(usage, c.resourceId);
      var rest := Detected(cat, init, usage, account);
      if IsIdle(cat, c, u) {
        var z := ZombieFrom(cat, c, u.value, account);
        assert Detected(cat, costs, usage, account) == rest + [z] && z in rest + [z];
      } else {
        assert Detected(cat, costs, usage, account) == rest + [] == rest;
      }
      hide IsIdle, LastUsage, Detected;
    }
  }

  // ----- inventory -----

  function FromCost(cat: Catalog, c: CostRecord, usage: Option<UsageRecord>, zombie: Option<Zombie>): ResourceRecord {
    var u := if usage.Some? then usage.value else NO_USAGE;
    var info := InfoOf(zombie);
    ResourceRecord(
      c.provider, c.accountId, "", c.service,
      if info.resourceType == "" then cat.typeOf(c.service, u.metric) else info.resourceType,
      c.region, c.resourceId, cat.arnOf(c.provider, c.accountId, c.region, c.service, c.resourceId), c.tags,
      c.amount, c.currency, c.periodStart, c.periodEnd, u.metric, u.avg, u.unit,
      zombie.Some?, info.reason, if info.owner == "" then OwnerOf(c.tags) else info.owner)
  }

  function FromZombie(z: Zombie): ResourceRecord {
    ResourceRecord(
      z.provider, z.accountId, z.internalAccountId, z.service, z.resourceType, z.region, z.resourceId, z.arn, z.tags,
      z.monthlyCost, z.currency, z.periodStart, z.periodEnd, z.usageMetric, z.usageAvg, z.usageUnit,
      true, z.reason, z.owner)
  }

  function FromCosts(cat: Catalog, costs: seq<CostRecord>, usage: seq<UsageRecord>,
                     zombies: seq<Zombie>): seq<ResourceRecord> {
    if costs == [] then []
    else
      var c := costs[|costs| - 1];
      FromCosts(cat, costs[..|costs| - 1], usage, zombies)
      + if c.resourceId == "" then []
        else [FromCost(cat, c, LastUsage(usage, c.resourceId), LastZombie(zombies, c.resourceId))]
  }

  function CostIds(costs: seq<CostRecord>): set<string> {
    if costs == [] then {}
    else
      var id := costs[|costs| - 1].resourceId;
      CostIds(costs[..|costs| - 1]) + if id == "" then {} else {id}
  }

  function FromZombies(zombies: seq<Zombie>, costIds: set<string>): seq<ResourceRecord> {
    if zombies == [] then []
    else
      var z := zombies[|zombies| - 1];
      FromZombies(zombies[..|zombies| - 1], costIds) + if z.resourceId in costIds then [] else [FromZombie(z)]
  }

  function Inventory(cat: Catalog, costs: seq<CostRecord>, usage: seq<UsageRecord>,
                     zombies: seq<Zombie>): seq<ResourceRecord> {
    FromCosts(cat, costs, usage, zombies) + FromZombies(zombies, CostIds(costs))
  }

  method AnnotateCosts(cat: Catalog, costs: seq<CostRecord>, usage: seq<UsageRecord>, zombies: seq<Zombie>)
    returns (resources: seq<ResourceRecord>, costIds: set<string>)
    ensures resources == FromCosts(cat, costs, usage, zombies) && costIds == CostIds(costs)
  {
    var usageById := IndexUsage(usage);
    var zombieById := IndexZombies(zombies);
    resources, costIds := [], {};
    hide LastUsage, LastZombie, OwnerOf;
    for i := 0 to |costs|
      invariant resources == FromCosts(cat, costs[..i], usage, zombies) && costIds == CostIds(costs[..i])
    {
      assert costs[..i + 1][..i] == costs[..i];
      var c := costs[i];
      if c.resourceId == "" {
        continue;
      }
      costIds := costIds + {c.resourceId};
      var u := if c.resourceId in usageById then usageById[c.resourceId] else NO_USAGE;
      var isZombie := c.resourceId in zombieById;
      var info := if isZombie then zombieById[c.resourceId] else ZombieInfo("", "", "");
      var owner := info.owner;
      if owner == "" {
        owner := OwnerOf(c.tags);
      }
      var resourceType := info.resourceType;
      if resourceType == "" {
        resourceType := cat.typeOf(c.service, u.metric);
      }
      var r := ResourceRecord(
        c.provider, c.accountId, "", c.service, resourceType, c.region, c.resourceId,
        cat.arnOf(c.provider, c.accountId, c.region, c.service, c.resourceId), c.tags,
        c.amount, c.currency, c.periodStart, c.periodEnd, u.metric, u.avg, u.unit, isZombie, info.reason, owner);
      assert r == FromCost(cat, c, LastUsage(usage, c.resourceId), LastZombie(zombies, c.resourceId));
      resources := resources + [r];
    }
    assert costs[..|costs|] == costs;
  }

  method AnnotateAll(cat: Catalog, costs: seq<CostRecord>, usage: seq<UsageRecord>, zombies: seq<Zombie>)
    returns (resources: seq<ResourceRecord>)
    ensures resources == Inventory(cat, costs, usage, zombies)
  {
    var costIds;
    resources, costIds := AnnotateCosts(cat, costs, usage, zombies);
    var known := resources;
    for i := 0 to |zombies|
      invariant resources == known + FromZombies(zombies[..i], costIds)
    {
      assert zombies[..i + 1][..i] == zombies[..i];
      if zombies[i].resourceId in costIds {
        continue;
      }
      resources := resources + [FromZombie(zombies[i])];
    }
    assert zombies[..|zombies|] == zombies;
  }

  // ----- what the inventory says -----

  function IdsOf(rs: seq<ResourceRecord>): seq<string> {
    if rs == [] then [] else IdsOf(rs[..|rs| - 1]) + [rs[|rs| - 1].resourceId]
  }

  function NamedIds(costs: seq<CostRecord>): seq<string> {
    if costs == [] then []
    else
      var id := costs[|costs| - 1].resourceId;
      NamedIds(costs[..|costs| - 1]) + if id == "" then [] else [id]
  }

  function UncostedIds(zombies: seq<Zombie>, costs: seq<CostRecord>): seq<string> {
    if zombies == [] then []
    else
      var id := zombies[|zombies| - 1].resourceId;
      UncostedIds(zombies[..|zombies| - 1], costs) + if id in NamedIds(costs) then [] else [id]
  }

  lemma {:induction false} CostIdsAreNamed(costs: seq<CostRecord>, id: string)
    ensures id in CostIds(costs) <==> id in NamedIds(costs)
    ensures id in CostIds(costs) <==> id != "" && exists c | c in costs :: c.resourceId == id
  {
    if costs != [] {
      CostIdsAreNamed(costs[..|costs| - 1], id);
      assert costs == costs[..|costs| - 1] + [costs[|costs| - 1]];
    }
  }

  lemma IdsGrow(rs: seq<ResourceRecord>, r: ResourceRecord)
    ensures IdsOf(rs + [r]) == IdsOf(rs) + [r.resourceId]
  {
    assert (rs + [r])[..|rs|] == rs;
  }

  lemma {:induction false} IdsConcat(a: seq<ResourceRecord>, b: seq<ResourceRecord>)
    ensures IdsOf(a + b) == IdsOf(a) + IdsOf(b)
  {
    if b == [] {
      assert a + b == a;
    } else {
      assert (a + b)[..|a + b| - 1] == a + b[..|b| - 1];
      IdsConcat(a, b[..|b| - 1]);
    }
  }

  lemma {:induction false} FromCostsIds(cat: Catalog, costs: seq<CostRecord>, usage: seq<UsageRecord>,
                                        zombies: seq<Zombie>)
    ensures IdsOf(FromCosts(cat, costs, usage, zombies)) == NamedIds(costs)
  {
    if costs != [] {
      var init, c := costs[..|costs| - 1], costs[|costs| - 1];
      FromCostsIds(cat, init, usage, zombies);
      var rs := FromCosts(cat, init, usage, zombies);
      assert rs + [] == rs && NamedIds(init) + [] == NamedIds(init);
      IdsGrow(rs, FromCost(cat, c, LastUsage(usage, c.resourceId), LastZombie(zombies, c.resourceId)));
    }
  }

  lemma {:induction false} FromZombiesIds(zombies: seq<Zombie>, costs: seq<CostRecord>)
    ensures IdsOf(FromZombies(zombies, CostIds(costs))) == UncostedIds(zombies, costs)
  {
    if zombies != [] {
      var init, z := zombies[..|zombies| - 1], zombies[|zombies| - 1];
      FromZombiesIds(init, costs);
      CostIdsAreNamed(costs, z.resourceId);
      var rs := FromZombies(init, CostIds(costs));
      assert rs + [] == rs && UncostedIds(init, costs) + [] == UncostedIds(init, costs);
      IdsGrow(rs, FromZombie(z));
    }
  }

  /** One record for each cost with an id, in order, and then one for each zombie
      whose id no cost has. */
  lemma InventoryIds(cat: Catalog, costs: seq<CostRecord>, usage: seq<UsageRecord>, zombies: seq<Zombie>)
    ensures IdsOf(Inventory(cat, costs, usage, zombies)) == NamedIds(costs) + UncostedIds(zombies, costs)
  {
    FromCostsIds(cat, costs, usage, zombies);
    FromZombiesIds(zombies, costs);
    IdsConcat(FromCosts(cat, costs, usage, zombies), FromZombies(zombies, CostIds(costs)));
  }

  lemma {:induction false} FromCostsMembers(cat: Catalog, costs: seq<CostRecord>, usage: seq<UsageRecord>,
                                            zombies: seq<Zombie>, r: ResourceRecord)
    ensures r in FromCosts(cat, costs, usage, zombies) <==>
              exists c | c in costs :: c.resourceId != ""
                && r == FromCost(cat, c, LastUsage(usage, c.resourceId), LastZombie(zombies, c.resourceId))
  {
    if costs != [] {
      var init, c := costs[..|costs| - 1], costs[|costs| - 1];
      assert costs == init + [c];
      FromCostsMembers(cat, init, usage, zombies, r);
      hide FromCost, LastUsage, LastZombie;
    }
  }

  lemma {:induction false} FromZombiesMembers(zombies: seq<Zombie>, ids: set<string>, r: ResourceRecord)
    ensures r in FromZombies(zombies, ids) <==> exists z | z in zombies :: z.resourceId !in ids && r == FromZombie(z)
  {
    if zombies != [] {
      var init, z := zombies[..|zombies| - 1], zombies[|zombies| - 1];
      assert zombies == init + [z];
      FromZombiesMembers(init, ids, r);
      hide FromZombie;
    }
  }

  /** A record is marked, and may carry a reason, exactly if its id is a zombie's. */
  lemma MarkedIffZombie(cat: Catalog, costs: seq<CostRecord>, usage: seq<UsageRecord>, zombies: seq<Zombie>,
                        r: ResourceRecord)
    requires r in Inventory(cat, costs, usage, zombies)
    ensures r.isZombie <==> exists z | z in zombies :: z.resourceId == r.resourceId
    ensures !r.isZombie ==> r.reason == ""
  {
    FromCostsMembers(cat, costs, usage, zombies, r);
    FromZombiesMembers(zombies, CostIds(costs), r);
    LastZombieIs(zombies, r.resourceId);
    hide LastUsage, LastZombie, CostIds, FromCosts, FromZombies;
    if r in FromCosts(cat, costs, usage, zombies) {
      var c :| c in costs && c.resourceId != ""
          && r == FromCost(cat, c, LastUsage(usage, c.resourceId), LastZombie(zombies, c.resourceId));
    } else {
      var z :| z in zombies && z.resourceId !in CostIds(costs) && r == FromZombie(z);
    }
  }

  /** Every zombie's id appears, marked. */
  lemma EveryZombieAppears(cat: Catalog, costs: seq<CostRecord>, usage: seq<UsageRecord>, zombies: seq<Zombie>,
                           z: Zombie)
    requires z in zombies
    ensures exists r | r in Inventory(cat, costs, usage, zombies) :: r.resourceId == z.resourceId && r.isZombie
  {
    var id := z.resourceId;
    CostIdsAreNamed(costs, id);
    LastZombieIs(zombies, id);
    hide LastUsage, LastZombie, CostIds, FromCosts, FromZombies;
    if id in CostIds(costs) {
      var c :| c in costs && c.resourceId == id;
      var r := FromCost(cat, c, LastUsage(usage, id), LastZombie(zombies, id));
      FromCostsMembers(cat, costs, usage, zombies, r);
      assert r in Inventory(cat, costs, usage, zombies);
    } else {
      FromZombiesMembers(zombies, CostIds(costs), FromZombie(z));
      assert FromZombie(z) in Inventory(cat, costs, usage, zombies);
    }
  }

  /** Detection and inventory together: a record is marked exactly if some cost under
      its id is idle by its service's rule. */
  lemma DetectedAreMarked(cat: Catalog, costs: seq<CostRecord>, usage: seq<UsageRecord>, account: string,
                          r: ResourceRecord)
    requires r in Inventory(cat, costs, usage, Detected(cat, costs, usage, account))
    ensures r.isZombie <==>
            exists c | c in costs :: c.resourceId == r.resourceId && IsIdle(cat, c, LastUsage(usage, r.resourceId))
  {
    hide *;
    MarkedIffZombie(cat, costs, usage, Detected(cat, costs, usage, account), r);
    DetectedIff(cat, costs, usage, account, r.resourceId);
  }

  // ----- zombies and records field by field -----

  /** The last usage record with the id. */
  lemma {:induction false} LastUsageIs(usage: seq<UsageRecord>, id: string)
    ensures LastUsage(usage, id).None? <==> forall u | u in usage :: u.resourceId != id
    ensures LastUsage(usage, id).Some? ==>
              exists i :: 0 <= i < |usage| && usage[i] == LastUsage(usage, id).value && usage[i].resourceId == id
                && forall j | i < j < |usage| :: usage[j].resourceId != id
  {
    if usage != [] {
      var init := usage[..|usage| - 1];
      LastUsageIs(init, id);
      assert usage == init + [usage[|usage| - 1]];
    }
  }

  /** The last zombie with the id. */
  lemma {:induction false} LastZombieIsLast(zombies: seq<Zombie>, id: string)
    ensures LastZombie(zombies, id).None? <==> forall z | z in zombies :: z.resourceId != id
    ensures LastZombie(zombies, id).Some? ==>
              exists i :: 0 <= i < |zombies| && zombies[i] == LastZombie(zombies, id).value
                && zombies[i].resourceId == id && forall j | i < j < |zombies| :: zombies[j].resourceId != id
  {
    if zombies != [] {
      var init := zombies[..|zombies| - 1];
      LastZombieIsLast(init, id);
      assert zombies == init + [zombies[|zombies| - 1]];
    }
  }

  lemma {:induction false} DetectedMembers(cat: Catalog, costs: seq<CostRecord>, usage: seq<UsageRecord>,
                                           account: string, z: Zombie)
    ensures z in Detected(cat, costs, usage, account) <==>
            exists c | c in costs ::
              var u := LastUsage(usage, c.resourceId);
              IsIdle(cat, c, u) && z == ZombieFrom(cat, c, u.value, account)
  {
    if costs != [] {
      var init, c := costs[..|costs| - 1], costs[|costs| - 1];
      assert costs == init + [c];
      DetectedMembers(cat, init, usage, account, z);
      var rest := Detected(cat, init, usage, account);
      assert Detected(cat, costs, usage, account)
          == rest + if IsIdle(cat, c, LastUsage(usage, c.resourceId))
                    then [ZombieFrom(cat, c, LastUsage(usage, c.resourceId).value, account)] else [];
      hide IsIdle, ZombieFrom, LastUsage, Detected;
    }
  }

  /** What detection makes of a cost: a zombie if the service has a rule and the id's last
      usage is at or below the rule's threshold, with the cost's and the usage's own fields,
      the rule's reason and the team that the tags name. */
  lemma DetectedAre(cat: Catalog, costs: seq<CostRecord>, usage: seq<UsageRecord>, account: string, z: Zombie)
    ensures z in Detected(cat, costs, usage, account) <==>
            exists c | c in costs ::
              var u := LastUsage(usage, c.resourceId);
              && c.service in cat.rules && u.Some? && u.value.avg <= cat.rules[c.service].threshold
              && z == Zombie(
                   c.provider, c.accountId, account, c.service, cat.typeOf(c.service, u.value.metric), c.region,
                   c.resourceId, cat.arnOf(c.provider, c.accountId, c.region, c.service, c.resourceId), c.tags,
                   c.amount, "", c.currency, c.periodStart, c.periodEnd, u.value.metric, u.value.avg, u.value.unit,
                   cat.rules[c.service].reason,
                   if "team" in c.tags && c.tags["team"] != "" then c.tags["team"] else "unknown", None)
  {
    DetectedMembers(cat, costs, usage, account, z);
    hide LastUsage, Detected;
  }

  /** The record of a cost. */
  lemma CostRecords(cat: Catalog, costs: seq<CostRecord>, usage: seq<UsageRecord>, zombies: seq<Zombie>, c: CostRecord)
    requires c in costs && c.resourceId != ""
    ensures
      var u := LastUsage(usage, c.resourceId);
      var z := LastZombie(zombies, c.resourceId);
      var metric := if u.Some? then u.value.metric else "";
      ResourceRecord(
        c.provider, c.accountId, "", c.service,
        if z.Some? && z.value.resourceType != "" then z.value.resourceType else cat.typeOf(c.service, metric),
        c.region, c.resourceId, cat.arnOf(c.provider, c.accountId, c.region, c.service, c.resourceId), c.tags,
        c.amount, c.currency, c.periodStart, c.periodEnd, metric, if u.Some? then u.value.avg else 0.0,
        if u.Some? then u.value.unit else "", z.Some?, if z.Some? then z.value.reason else "",
        if z.Some? && z.value.owner != "" then z.value.owner
        else if "team" in c.tags && c.tags["team"] != "" then c.tags["team"] else "unknown")
      in Inventory(cat, costs, usage, zombies)
  {
    var r := FromCost(cat, c, LastUsage(usage, c.resourceId), LastZombie(zombies, c.resourceId));
    FromCostsMembers(cat, costs, usage, zombies, r);
    hide LastUsage, LastZombie, FromCosts;
  }

  /** The record of a zombie whose id no cost has. */
  lemma ZombieRecords(cat: Catalog, costs: seq<CostRecord>, usage: seq<UsageRecord>, zombies: seq<Zombie>, z: Zombie)
    requires z in zombies && (z.resourceId == "" || forall c | c in costs :: c.resourceId != z.resourceId)
    ensures
      ResourceRecord(
        z.provider, z.accountId, z.internalAccountId, z.service, z.resourceType, z.region, z.resourceId, z.arn, z.tags,
        z.monthlyCost, z.currency, z.periodStart, z.periodEnd, z.usageMetric, z.usageAvg, z.usageUnit, true, z.reason,
        z.owner)
      in Inventory(cat, costs, usage, zombies)
  {
    CostIdsAreNamed(costs, z.resourceId);
    FromZombiesMembers(zombies, CostIds(costs), FromZombie(z));
    hide FromZombies, FromCosts, CostIds;
  }
}
