/** Replacing list prices by what was really billed, in place. */
module BilledCosts {
  import opened Zombies

  /** The record bills the resource with this id. */
  predicate Bills(c: CostRecord, id: string) {
    c.resourceId != "" && c.costBasis == BILLED && c.resourceId == id
  }

  predicate HasBill(costs: seq<CostRecord>, id: string) {
    exists c | c in costs :: Bills(c, id)
  }

  function BilledFor(costs: seq<CostRecord>, id: string): real {
    if costs == [] then 0.0
    else
      var c := costs[|costs| - 1];
      BilledFor(costs[..|costs| - 1], id) + if Bills(c, id) then c.amount else 0.0
  }

  function Rebilled(z: Zombie, costs: seq<CostRecord>): Zombie {
    if HasBill(costs, z.resourceId) then z.(monthlyCost := BilledFor(costs, z.resourceId), costBasis := BILLED)
    else z.(costBasis := LIST_PRICE)
  }

  function RebilledAll(zs: seq<Zombie>, costs: seq<CostRecord>): (r: seq<Zombie>)
    ensures |r| == |zs|
  {
    if zs == [] then [] else RebilledAll(zs[..|zs| - 1], costs) + [Rebilled(zs[|zs| - 1], costs)]
  }

  lemma {:induction false} RebilledAt(zs: seq<Zombie>, costs: seq<CostRecord>, i: nat)
    requires i < |zs|
    ensures RebilledAll(zs, costs)[i] == Rebilled(zs[i], costs)
  {
    if i < |zs| - 1 {
      RebilledAt(zs[..|zs| - 1], costs, i);
    }
  }

  lemma BillIs(costs: seq<CostRecord>, id: string)
    ensures HasBill(costs, id) <==>
            exists c | c in costs :: c.resourceId == id && id != "" && c.costBasis == "billed"
  {
    if c :| c in costs && c.resourceId == id && id != "" && c.costBasis == "billed" {
      assert Bills(c, id);
    }
  }

  /** The sum that an id is billed for is the sum over the parts of the bill, and of a
      single record it is its amount, or nothing if that bills something else. */
  lemma {:induction false} BilledForAdds(a: seq<CostRecord>, b: seq<CostRecord>, id: string)
    ensures BilledFor([], id) == 0.0 && BilledFor(a + b, id) == BilledFor(a, id) + BilledFor(b, id)
    ensures forall c :: BilledFor([c], id)
                        == if c.resourceId == id && id != "" && c.costBasis == "billed" then c.amount else 0.0
  {
    forall c
      ensures BilledFor([c], id) == if c.resourceId == id && id != "" && c.costBasis == "billed" then c.amount else 0.0
    {
      assert [c][..0] == [] && BilledFor([], id) == 0.0;
    }
    if b == [] {
      assert a + b == a;
    } else {
      assert (a + b)[..|a + b| - 1] == a + b[..|b| - 1];
      BilledForAdds(a, b[..|b| - 1], id);
    }
  }

  ghost predicate Sums(billed: map<string, real>, costs: seq<CostRecord>) {
    forall id :: (id in billed <==> HasBill(costs, id)) && (id in billed ==> billed[id] == BilledFor(costs, id))
  }

  lemma BillsGrow(costs: seq<CostRecord>, i: nat, id: string)
    requires i < |costs|
    ensures HasBill(costs[..i + 1], id) <==> HasBill(costs[..i], id) || Bills(costs[i], id)
    ensures BilledFor(costs[..i + 1], id)
            == BilledFor(costs[..i], id) + if Bills(costs[i], id) then costs[i].amount else 0.0
  {
    assert costs[..i + 1][..i] == costs[..i];
    assert costs[..i + 1] == costs[..i] + [costs[i]];
  }

  lemma {:induction false} NoBillIsZero(costs: seq<CostRecord>, id: string)
    requires !HasBill(costs, id)
    ensures BilledFor(costs, id) == 0.0
  {
    if costs != [] {
      assert costs[|costs| - 1] in costs;
      assert forall c | c in costs[..|costs| - 1] :: c in costs;
      NoBillIsZero(costs[..|costs| - 1], id);
    }
  }

  method SumBills(costs: seq<CostRecord>) returns (billed: map<string, real>)
    ensures Sums(billed, costs)
  {
    billed := map[];
    for i := 0 to |costs|
      invariant Sums(billed, costs[..i])
    {
      var c := costs[i];
      forall id
        ensures HasBill(costs[..i + 1], id) <==> HasBill(costs[..i], id) || Bills(c, id)
        ensures BilledFor(costs[..i + 1], id) == BilledFor(costs[..i], id) + if Bills(c, id) then c.amount else 0.0
      {
        BillsGrow(costs, i, id);
      }
      if c.resourceId !in billed {
        NoBillIsZero(costs[..i], c.resourceId);
      }
      hide HasBill, BilledFor;
      if c.resourceId != "" && c.costBasis == BILLED {
        billed := billed[c.resourceId := (if c.resourceId in billed then billed[c.resourceId] else 0.0) + c.amount];
      }
    }
    assert costs[..|costs|] == costs;
  }

  method ApplyBilledCosts(zombies: array<Zombie>, costs: seq<CostRecord>)
    modifies zombies
    ensures zombies[..] == RebilledAll(old(zombies[..]), costs)
    ensures forall i | 0 <= i < zombies.Length ::
              var z := old(zombies[i]);
              if exists c | c in costs :: c.resourceId == z.resourceId && z.resourceId != "" && c.costBasis == "billed"
              then zombies[i] == z.(monthlyCost := BilledFor(costs, z.resourceId), costBasis := "billed")
              else zombies[i] == z.(costBasis := "list_price")
  {
    var billed := SumBills(costs);
    ghost var was := zombies[..];
    hide HasBill, BilledFor;
    for i := 0 to zombies.Length
      invariant zombies[..i] == RebilledAll(was[..i], costs)
      invariant forall k | i <= k < zombies.Length :: zombies[k] == was[k]
    {
      assert zombies[i] == was[i] && was[..i + 1][..i] == was[..i];
      if zombies[i].resourceId in billed {
        zombies[i] := zombies[i].(monthlyCost := billed[zombies[i].resourceId], costBasis := BILLED);
      } else {
        zombies[i] := zombies[i].(costBasis := LIST_PRICE);
      }
      assert zombies[..i + 1] == zombies[..i] + [zombies[i]];
    }
    assert zombies[..] == zombies[..zombies.Length] && was[..|was|] == was;
    forall i | 0 <= i < zombies.Length
      ensures zombies[i] == Rebilled(was[i], costs)
    {
      RebilledAt(was, costs, i);
    }
    forall i | 0 <= i < zombies.Length
      ensures HasBill(costs, was[i].resourceId) <==>
              exists c | c in costs ::
                c.resourceId == was[i].resourceId && was[i].resourceId != "" && c.costBasis == "billed"
    {
      BillIs(costs, was[i].resourceId);
    }
  }

  /** Running it again changes nothing. */
  lemma {:induction false} RebillingIsIdempotent(zs: seq<Zombie>, costs: seq<CostRecord>)
    ensures RebilledAll(RebilledAll(zs, costs), costs) == RebilledAll(zs, costs)
  {
    if zs != [] {
      RebillingIsIdempotent(zs[..|zs| - 1], costs);
      var r := RebilledAll(zs, costs);
      assert r[..|r| - 1] == RebilledAll(zs[..|zs| - 1], costs);
    }
  }

  // ----- nothing is billed twice -----

  function BilledTotal(zs: seq<Zombie>): real {
    if zs == [] then 0.0
    else
      var z := zs[|zs| - 1];
      BilledTotal(zs[..|zs| - 1]) + if z.costBasis == BILLED then z.monthlyCost else 0.0
  }

  function Ids(zs: seq<Zombie>): set<string> {
    if zs == [] then {} else Ids(zs[..|zs| - 1]) + {zs[|zs| - 1].resourceId}
  }

  lemma {:induction false} IdsIs(zs: seq<Zombie>, id: string)
    ensures id in Ids(zs) <==> exists z | z in zs :: z.resourceId == id
  {
    if zs != [] {
      IdsIs(zs[..|zs| - 1], id);
      assert zs == zs[..|zs| - 1] + [zs[|zs| - 1]];
    }
  }

  /** What was billed for these resources. */
  function Charged(costs: seq<CostRecord>, ids: set<string>): real {
    if costs == [] then 0.0
    else
      var c := costs[|costs| - 1];
      Charged(costs[..|costs| - 1], ids) + if Bills(c, c.resourceId) && c.resourceId in ids then c.amount else 0.0
  }

  lemma {:induction false} ChargedNothing(costs: seq<CostRecord>)
    ensures Charged(costs, {}) == 0.0
  {
    if costs != [] {
      ChargedNothing(costs[..|costs| - 1]);
    }
  }

  lemma {:induction false} ChargedOneMore(costs: seq<CostRecord>, ids: set<string>, id: string)
    ensures Charged(costs, ids + {id}) == Charged(costs, ids) + if id in ids then 0.0 else BilledFor(costs, id)
  {
    if costs != [] {
      ChargedOneMore(costs[..|costs| - 1], ids, id);
    }
  }

  lemma {:induction false} NamelessIsNotBilled(costs: seq<CostRecord>)
    ensures BilledFor(costs, "") == 0.0 && !HasBill(costs, "")
  {
    if costs != [] {
      NamelessIsNotBilled(costs[..|costs| - 1]);
    }
  }

  /** No two zombies share an id, unless it is empty. */
  ghost predicate NamedOnce(zs: seq<Zombie>) {
    forall i, j | 0 <= i < j < |zs| :: zs[i].resourceId != zs[j].resourceId || zs[i].resourceId == ""
  }

  lemma NewIdOrNone(zs: seq<Zombie>)
    requires NamedOnce(zs) && zs != []
    ensures NamedOnce(zs[..|zs| - 1])
    ensures zs[|zs| - 1].resourceId in Ids(zs[..|zs| - 1]) ==> zs[|zs| - 1].resourceId == ""
  {
    var init, z := zs[..|zs| - 1], zs[|zs| - 1];
    IdsIs(init, z.resourceId);
    hide Ids;
    if z.resourceId in Ids(init) {
      var y :| y in init && y.resourceId == z.resourceId;
      var i :| 0 <= i < |init| && init[i] == y;
      assert zs[i] == y;
    }
  }

  lemma BilledOneMore(zs: seq<Zombie>, z: Zombie, costs: seq<CostRecord>)
    ensures BilledTotal(RebilledAll(zs + [z], costs))
        == BilledTotal(RebilledAll(zs, costs)) + BilledFor(costs, z.resourceId)
  {
    assert (zs + [z])[..|zs|] == zs;
    var r := RebilledAll(zs + [z], costs);
    assert r[..|zs|] == RebilledAll(zs, costs) && r[|zs|] == Rebilled(z, costs);
    if !HasBill(costs, z.resourceId) {
      NoBillIsZero(costs, z.resourceId);
    }
    hide HasBill, BilledFor;
  }

  lemma {:induction false} BilledOnce(zs: seq<Zombie>, costs: seq<CostRecord>)
    requires NamedOnce(zs)
    ensures BilledTotal(RebilledAll(zs, costs)) == Charged(costs, Ids(zs))
  {
    if zs == [] {
      ChargedNothing(costs);
    } else {
      hide NamedOnce, BilledTotal, RebilledAll, BilledFor, Charged;
      var init, z := zs[..|zs| - 1], zs[|zs| - 1];
      assert zs == init + [z];
      NewIdOrNone(zs);
      BilledOnce(init, costs);
      BilledOneMore(init, z, costs);
      ChargedOneMore(costs, Ids(init), z.resourceId);
      NamelessIsNotBilled(costs);
    }
  }

  function Occurrences(zs: seq<Zombie>, id: string): nat {
    if zs == [] then 0 else Occurrences(zs[..|zs| - 1], id) + if zs[|zs| - 1].resourceId == id then 1 else 0
  }

  lemma {:induction false} OccursTwice(zs: seq<Zombie>, i: nat, j: nat)
    requires i < j < |zs| && zs[i].resourceId == zs[j].resourceId
    ensures Occurrences(zs, zs[i].resourceId) >= 2
  {
    if j < |zs| - 1 {
      OccursTwice(zs[..|zs| - 1], i, j);
    } else {
      OccursOnce(zs[..j], i);
    }
  }

  lemma {:induction false} OccursOnce(zs: seq<Zombie>, i: nat)
    requires i < |zs|
    ensures Occurrences(zs, zs[i].resourceId) >= 1
  {
    if i < |zs| - 1 {
      OccursOnce(zs[..|zs| - 1], i);
    }
  }

  function OneDollar(id: string): CostRecord {
    CostRecord("", "", "", "", id, 1.0, "", 0, 0, map[], BILLED)
  }

  lemma {:induction false} OneDollarEach(zs: seq<Zombie>, id: string)
    requires id != ""
    ensures BilledTotal(RebilledAll(zs, [OneDollar(id)])) == Occurrences(zs, id) as real
  {
    if zs != [] {
      OneDollarEach(zs[..|zs| - 1], id);
      var r := RebilledAll(zs, [OneDollar(id)]);
      assert r[..|r| - 1] == RebilledAll(zs[..|zs| - 1], [OneDollar(id)]);
      OneDollarBills(id, zs[|zs| - 1].resourceId);
    }
  }

  lemma {:induction false} OneDollarBills(id: string, other: string)
    requires id != ""
    ensures HasBill([OneDollar(id)], other) <==> other == id
    ensures BilledFor([OneDollar(id)], id) == 1.0
  {
    assert OneDollar(id) in [OneDollar(id)];
    assert [OneDollar(id)][..0] == [];
  }

  /** The billed zombies cost exactly what was billed for them, whatever the bills,
      if and only if no id is listed twice. */
  lemma NothingIsBilledTwice(zs: seq<Zombie>)
    ensures (forall costs :: BilledTotal(RebilledAll(zs, costs)) == Charged(costs, Ids(zs))) <==> NamedOnce(zs)
  {
    if NamedOnce(zs) {
      forall costs
        ensures BilledTotal(RebilledAll(zs, costs)) == Charged(costs, Ids(zs))
      {
        BilledOnce(zs, costs);
      }
    } else {
      var i, j :| 0 <= i < j < |zs| && zs[i].resourceId == zs[j].resourceId && zs[i].resourceId != "";
      BilledTwice(zs, i, j);
    }
  }

  lemma {:induction false} BilledTwice(zs: seq<Zombie>, i: nat, j: nat)
    requires i < j < |zs| && zs[i].resourceId == zs[j].resourceId && zs[i].resourceId != ""
    ensures BilledTotal(RebilledAll(zs, [OneDollar(zs[i].resourceId)]))
            != Charged([OneDollar(zs[i].resourceId)], Ids(zs))
  {
    var id := zs[i].resourceId;
    OccursTwice(zs, i, j);
    OneDollarEach(zs, id);
    var costs := [OneDollar(id)];
    assert costs[..0] == [];
    assert Charged(costs, Ids(zs)) <= 1.0;
  }
}
