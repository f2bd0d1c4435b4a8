/** The in-memory counter cache. Its Incr takes two locks one after the other, first
    to fetch or make the counter and then to count on it; a sweep may come between. */
module MemoryCounters {
  import opened Wrappers
  import opened RateLog
  import RateLimit

  /** Go's zero time, in nanoseconds since 1970. */
  const ZERO_TIME: int := -62_135_596_800 * SECOND

  /** A counter object; `madeFor` only records the key it was made for. */
  datatype Cell = Cell(madeFor: string, val: nat, expires: int)

  function Newborn(key: string): Cell {
    Cell(key, 0, ZERO_TIME)
  }

  function Counted(c: Cell, now: nat): Cell {
    Cell(c.madeFor, 1 + (if now > c.expires then 0 else c.val), now + COUNTER_TTL)
  }

  // ----- one Incr, undisturbed -----

  class Cache {
    var slots: map<string, nat>
    var cells: seq<Cell>

    constructor ()
      ensures Valid() && slots == map[]
    {
      slots, cells := map[], [];
    }

    ghost predicate Valid()
      reads this
    {
      forall key | key in slots :: slots[key] < |cells| && cells[slots[key]].madeFor == key
    }

    /** What the map of counters amounts to. */
    ghost function View(): RateLimit.Counters
      reads this
      requires Valid()
    {
      map key | key in slots :: RateLimit.Counter(cells[slots[key]].val, Some(cells[slots[key]].expires))
    }

    /** Under the lock of the map. */
    method Fetch(key: string) returns (cell: nat)
      requires Valid()
      modifies this
      ensures Valid() && key in slots && cell == slots[key]
      ensures if key in old(slots) then slots == old(slots) && cells == old(cells)
              else slots == old(slots)[key := |old(cells)|] && cells == old(cells) + [Newborn(key)]
    {
      if key !in slots {
        slots := slots[key := |cells|];
        cells := cells + [Cell(key, 0, ZERO_TIME)];
      }
      return slots[key];
    }

    /** Under the lock of the counter. */
    method Count(cell: nat, now: nat) returns (n: nat)
      requires Valid() && cell < |cells|
      modifies this`cells
      ensures Valid() && cells == old(cells)[cell := Counted(old(cells)[cell], now)] && n == cells[cell].val
    {
      var c := cells[cell];
      if now > c.expires {
        c := c.(val := 0);
      }
      c := c.(val := c.val + 1, expires := now + COUNTER_TTL);
      cells := cells[cell := c];
      return c.val;
    }

    /** With nothing in between, the two are the one fault-free Incr of the limiters, with
        a TTL that is not rounded to milliseconds. */
    method Incr(key: string, now: nat) returns (n: nat)
      requires Valid()
      modifies this
      ensures Valid() && n == RateLimit.Bumped(old(View()), key, now)
      ensures View() == old(View())[key := RateLimit.Counter(n, Some(now + COUNTER_TTL))]
    {
      var cell := Fetch(key);
      n := Count(cell, now);
    }
  }

  // ----- runs -----

  /** `doomed` is the key that a sweep has found expired and is about to delete. While
      it holds the lock of the map for that, nobody fetches. */
  datatype State = State(now: nat, slots: map<string, nat>, cells: seq<Cell>, doomed: Option<string>, desk: Desk)

  datatype Action =
    | Tick(dt: nat)
    | Arrive(limits: seq<Limit>)
    | Fetch(i: nat)
    | Count(i: nat)
    | Look(key: string, clock: int) // the sweep, with the clock it read when it began
    | Drop
    | Vanish(i: nat)                // a request is given up between two increments

  predicate CanFetch(s: State, i: nat) {
    CanTry(s.desk, i) && s.desk.pending[i].cell.None? && s.doomed.None?
  }

  predicate CanCount(s: State, i: nat) {
    CanTry(s.desk, i) && s.desk.pending[i].cell.Some? && s.desk.pending[i].cell.value < |s.cells|
  }

  function Fetched(s: State, i: nat): State
    requires CanFetch(s, i)
  {
    var key := KeyOf(s.desk, i);
    var made := if key in s.slots then s else s.(slots := s.slots[key := |s.cells|], cells := s.cells + [Newborn(key)]);
    var r := s.desk.pending[i].(cell := Some(made.slots[key]));
    made.(desk := s.desk.(pending := s.desk.pending[i := r]))
  }

  function Lets(s: State, i: nat): bool
    requires CanCount(s, i)
  {
    Counted(s.cells[s.desk.pending[i].cell.value], s.now).val <= LimitOf(s.desk, i).cap
  }

  function Settled(s: State, i: nat): State
    requires CanCount(s, i)
  {
    var cell := s.desk.pending[i].cell.value;
    s.(cells := s.cells[cell := Counted(s.cells[cell], s.now)], desk := Settle(s.desk, i, Fine, Lets(s, i)))
  }

  predicate Dooms(s: State, key: string, clock: int) {
    s.doomed.None? && key in s.slots && s.slots[key] < |s.cells| && clock <= s.now
        && clock > s.cells[s.slots[key]].expires
  }

  function Apply(s: State, a: Action): State {
    match a
    case Tick(dt) => s.(now := s.now + dt)
    case Arrive(limits) => s.(desk := Enter(s.desk, Arrived(s.now, limits)))
    case Fetch(i) => if CanFetch(s, i) then Fetched(s, i) else s
    case Count(i) => if CanCount(s, i) then Settled(s, i) else s
    case Look(key, clock) => if Dooms(s, key, clock) then s.(doomed := Some(key)) else s
    case Drop => if s.doomed.Some? then s.(slots := s.slots - {s.doomed.value}, doomed := None) else s
    case Vanish(i) =>
      if i < |s.desk.pending| && s.desk.pending[i].cell.None? then s.(desk := Leave(s.desk, i)) else s
  }

  /** The sweep takes a counter that has been made and not yet been counted on. */
  predicate Tears(s: State, a: Action) {
    a.Look? && Dooms(s, a.key, a.clock) && s.cells[s.slots[a.key]].val == 0
  }

  /** As with Redis, but a counter that expires is gone a nanosecond later. */
  const MAX_DELAY := MINUTE + 1

  predicate Prompt(s: State, a: Action) {
    a.Count? && CanCount(s, a.i) ==> s.now - s.desk.pending[a.i].read <= MAX_DELAY
  }

  /** A run of prompt requests; `tears` admits sweeps that take newborn counters. */
  predicate Run(s: State, actions: seq<Action>, tears: bool)
    decreases |actions|
  {
    actions == []
    || (Prompt(s, actions[0]) && (Tears(s, actions[0]) ==> tears) && Run(Apply(s, actions[0]), actions[1..], tears))
  }

  function Exec(s: State, actions: seq<Action>): State
    decreases |actions|
  {
    if actions == [] then s else Exec(Apply(s, actions[0]), actions[1..])
  }

  function Start(now: nat): State {
    State(now, map[], [], None, EMPTY_DESK)
  }

  // ----- the invariant -----

  predicate HoldsOwn(s: State, r: Request) {
    r.read <= s.now
    && (r.cell.Some? ==> r.next < |r.limits| && r.cell.value < |s.cells|
                         && s.cells[r.cell.value].madeFor == Key(r.limits[r.next].base, Bucket(r.read)))
  }

  ghost predicate WellFormed(s: State) {
    && (forall key | key in s.slots :: s.slots[key] < |s.cells| && s.cells[s.slots[key]].madeFor == key)
    && (forall r | r in s.desk.pending :: HoldsOwn(s, r))
  }

  /** While requests of the minute may still arrive: its counter is the number of
      increments, it will outlive them, and whoever has fetched it holds the one that
      the map holds. */
  ghost predicate Counts(s: State, base: string, bucket: nat)
    requires WellFormed(s)
  {
    var n := Applied(s.desk.hits, base, bucket);
    var key := Key(base, bucket);
    s.now <= (bucket + 2) * MINUTE ==>
      && s.doomed != Some(key)
      && (key !in s.slots ==> n == 0)
      && (key in s.slots ==>
            var c := s.cells[s.slots[key]];
            c.val == n && (if n == 0 then c.expires == ZERO_TIME else c.expires >= (bucket + 2) * MINUTE))
      && forall r | r in s.desk.pending && r.cell.Some? && s.cells[r.cell.value].madeFor == key ::
           key in s.slots && r.cell.value == s.slots[key]
  }

  lemma FetchKeepsWellFormed(s: State, i: nat)
    requires WellFormed(s) && CanFetch(s, i)
    ensures WellFormed(Fetched(s, i))
  {
    hide Key;
    var t := Fetched(s, i);
    assert s.desk.pending[i] in s.desk.pending;
    forall r | r in t.desk.pending
      ensures HoldsOwn(t, r)
    {
      assert r in s.desk.pending || r == t.desk.pending[i];
    }
  }

  lemma SettlePending(d: Desk, i: nat, passed: bool, r: Request)
    requires CanTry(d, i) && r in Settle(d, i, Fine, passed).pending
    ensures r in d.pending || (r.cell.None? && r.read == d.pending[i].read)
  {
  }

  lemma CountKeepsWellFormed(s: State, i: nat)
    requires WellFormed(s) && CanCount(s, i)
    ensures WellFormed(Settled(s, i))
  {
    hide Key;
    var t := Settled(s, i);
    assert s.desk.pending[i] in s.desk.pending;
    forall r | r in t.desk.pending
      ensures HoldsOwn(t, r)
    {
      SettlePending(s.desk, i, Lets(s, i), r);
      hide Settle;
    }
  }

  lemma ApplyKeepsWellFormed(s: State, a: Action)
    requires WellFormed(s)
    ensures WellFormed(Apply(s, a))
  {
    hide Key;
    match a
    case Fetch(i) =>
      if CanFetch(s, i) {
        FetchKeepsWellFormed(s, i);
      }
    case Count(i) =>
      if CanCount(s, i) {
        CountKeepsWellFormed(s, i);
      }
    case Vanish(i) =>
      forall r | r in Apply(s, a).desk.pending
        ensures r in s.desk.pending
      {
      }
    case _ =>
  }

  lemma FetchKeepsCounts(s: State, i: nat, base: string, bucket: nat)
    requires WellFormed(s) && CanFetch(s, i) && Counts(s, base, bucket)
    ensures WellFormed(Fetched(s, i)) && Counts(Fetched(s, i), base, bucket)
  {
    hide Key, Applied;
    FetchKeepsWellFormed(s, i);
    var t := Fetched(s, i);
    var key := Key(base, bucket);
    forall r | r in t.desk.pending && r.cell.Some? && t.cells[r.cell.value].madeFor == key
        && s.now <= (bucket + 2) * MINUTE
      ensures key in t.slots && r.cell.value == t.slots[key]
    {
      if r != t.desk.pending[i] {
        assert r in s.desk.pending && HoldsOwn(s, r);
      }
    }
  }

  lemma CountIs(s: State, i: nat)
    requires WellFormed(s) && CanCount(s, i)
    ensures
      var t := Settled(s, i);
      var cell := s.desk.pending[i].cell.value;
      var h := HitOf(s.desk, i, Fine, Lets(s, i));
      && t.now == s.now && t.slots == s.slots && t.doomed == s.doomed && t.desk.hits == s.desk.hits + [h]
      && h.fault.Fine? && t.cells == s.cells[cell := Counted(s.cells[cell], s.now)]
      && s.cells[cell].madeFor == Key(h.limit.base, h.bucket)
      && h.bucket * MINUTE <= s.now
      && forall q | q in t.desk.pending && q.cell.Some? :: q in s.desk.pending
  {
    var r := s.desk.pending[i];
    assert r in s.desk.pending && HoldsOwn(s, r);
    BucketBounds(r.read);
    hide Key, Bucket;
    forall q | q in Settled(s, i).desk.pending
      ensures q in s.desk.pending || q.cell.None?
    {
      SettlePending(s.desk, i, Lets(s, i), q);
    }
  }

  lemma HeldBelow(s: State)
    requires WellFormed(s)
    ensures forall r | r in s.desk.pending && r.cell.Some? :: r.cell.value < |s.cells|
  {
    hide Key;
    forall r | r in s.desk.pending && r.cell.Some?
      ensures r.cell.value < |s.cells|
    {
      assert HoldsOwn(s, r);
    }
  }

  lemma CountKeepsCounts(s: State, i: nat, base: string, bucket: nat)
    requires WellFormed(s) && CanCount(s, i) && Prompt(s, Count(i)) && Counts(s, base, bucket)
    ensures WellFormed(Settled(s, i)) && Counts(Settled(s, i), base, bucket)
  {
    hide Key, Applied, Bucket, Settle, Settled, Lets, Prompt, HoldsOwn;
    var h := HitOf(s.desk, i, Fine, Lets(s, i));
    CountKeepsWellFormed(s, i);
    CountIs(s, i);
    HeldBelow(s);
    AppliedGrows(s.desk.hits, h, base, bucket);
    if Key(h.limit.base, h.bucket) == Key(base, bucket) {
      KeyInjective(h.limit.base, h.bucket, base, bucket);
      assert s.desk.pending[i] in s.desk.pending;
    }
  }

  lemma LookKeepsCounts(s: State, a: Action, base: string, bucket: nat)
    requires WellFormed(s) && a.Look? && !Tears(s, a) && Counts(s, base, bucket)
    ensures WellFormed(Apply(s, a)) && Counts(Apply(s, a), base, bucket)
  {
    hide Key, Applied;
    ApplyKeepsWellFormed(s, a);
  }

  lemma ApplyKeepsCounts(s: State, a: Action, base: string, bucket: nat)
    requires WellFormed(s) && Prompt(s, a) && !Tears(s, a) && Counts(s, base, bucket)
    ensures WellFormed(Apply(s, a)) && Counts(Apply(s, a), base, bucket)
  {
    hide Key, Applied;
    ApplyKeepsWellFormed(s, a);
    match a
    case Fetch(i) =>
      if CanFetch(s, i) {
        FetchKeepsCounts(s, i, base, bucket);
      }
    case Count(i) =>
      if CanCount(s, i) {
        CountKeepsCounts(s, i, base, bucket);
      }
    case Look(_, _) => LookKeepsCounts(s, a, base, bucket);
    case _ =>
  }

  lemma CountIsJustified(s: State, i: nat)
    requires WellFormed(s) && CanCount(s, i) && Prompt(s, Count(i))
    requires Counts(s, LimitOf(s.desk, i).base, Bucket(s.desk.pending[i].read))
    ensures Justified(s.desk.hits, HitOf(s.desk, i, Fine, Lets(s, i)))
  {
    var r := s.desk.pending[i];
    assert r in s.desk.pending && HoldsOwn(s, r);
    BucketBounds(r.read);
    hide Key, Applied, Bucket;
  }

  lemma {:induction false} RunCounts(s: State, actions: seq<Action>, base: string, bucket: nat)
    requires Run(s, actions, false) && WellFormed(s) && Counts(s, base, bucket)
    ensures WellFormed(Exec(s, actions)) && Counts(Exec(s, actions), base, bucket)
    decreases |actions|
  {
    if actions != [] {
      hide Apply, Counts, WellFormed, Prompt, Tears;
      ApplyKeepsCounts(s, actions[0], base, bucket);
      RunCounts(Apply(s, actions[0]), actions[1..], base, bucket);
    }
  }

  lemma StartCounts(now: nat, base: string, bucket: nat)
    ensures WellFormed(Start(now)) && Counts(Start(now), base, bucket)
  {
  }

  lemma {:induction false} ExecConcat(s: State, a: seq<Action>, b: seq<Action>, tears: bool)
    ensures Exec(s, a + b) == Exec(Exec(s, a), b)
    ensures Run(s, a + b, tears) <==> Run(s, a, tears) && Run(Exec(s, a), b, tears)
    decreases |a|
  {
    hide Apply, Prompt, Tears;
    if a == [] {
      assert a + b == b;
    } else {
      assert (a + b)[1..] == a[1..] + b;
      ExecConcat(Apply(s, a[0]), a[1..], b, tears);
    }
  }

  lemma {:induction false} ExecOne(s: State, a: Action, tears: bool)
    ensures Exec(s, [a]) == Apply(s, a)
    ensures Run(s, [a], tears) <==> Prompt(s, a) && (Tears(s, a) ==> tears)
  {
    hide Apply, Prompt, Tears;
    assert [a][1..] == [];
  }

  lemma {:induction false} ExecTwo(s: State, a: Action, b: Action, tears: bool)
    ensures Exec(s, [a, b]) == Apply(Apply(s, a), b)
    ensures Run(s, [a, b], tears) <==> Run(s, [a], tears) && Run(Apply(s, a), [b], tears)
  {
    hide Apply, Run;
    assert [a] + [b] == [a, b];
    ExecConcat(s, [a], [b], tears);
    ExecOne(s, a, tears);
    ExecOne(Apply(s, a), b, tears);
  }

  /** As long as no sweep takes a newborn counter, the counters decide as a log of all
      increments would. */
  lemma {:induction false} DecisionsAreExact(now: nat, actions: seq<Action>)
    requires Run(Start(now), actions, false)
    ensures Exact(Exec(Start(now), actions).desk.hits)
    decreases |actions|
  {
    if actions != [] {
      hide Exact, Counts, WellFormed, Prompt, Tears, Lets;
      var init, a := actions[..|actions| - 1], actions[|actions| - 1];
      assert actions == init + [a];
      ExecConcat(Start(now), init, [a], false);
      DecisionsAreExact(now, init);
      var s := Exec(Start(now), init);
      ExecOne(s, a, false);
      if a.Count? && CanCount(s, a.i) {
        var l, bucket := LimitOf(s.desk, a.i), Bucket(s.desk.pending[a.i].read);
        StartCounts(now, l.base, bucket);
        RunCounts(Start(now), init, l.base, bucket);
        CountIsJustified(s, a.i);
        ExactGrows(s.desk.hits, HitOf(s.desk, a.i, Fine, Lets(s, a.i)));
      }
    } else {
      assert Exec(Start(now), actions).desk.hits == [];
    }
  }

  lemma ApplyKeepsAccounts(s: State, a: Action, limit: Limit, bucket: nat)
    requires Accounted(s.desk, limit, bucket)
    ensures Accounted(Apply(s, a).desk, limit, bucket)
  {
    match a
    case Fetch(i) =>
      if CanFetch(s, i) {
        FetchKeepsAccounts(s.desk, i, Fetched(s, i).desk.pending[i].cell, limit, bucket);
      }
    case Count(i) =>
      if CanCount(s, i) {
        SettleKeepsAccounts(s.desk, i, Fine, Lets(s, i), limit, bucket);
      }
    case Arrive(limits) => EnterKeepsAccounts(s.desk, s.now, limits, limit, bucket);
    case Vanish(i) =>
      if i < |s.desk.pending| {
        LeaveKeepsAccounts(s.desk, i, limit, bucket);
      }
    case _ =>
  }

  lemma ApplyKeepsFinished(s: State, a: Action)
    requires AllFinished(s.desk)
    ensures AllFinished(Apply(s, a).desk)
  {
  }

  lemma {:induction false} RunAccounts(s: State, actions: seq<Action>, limit: Limit, bucket: nat)
    requires Accounted(s.desk, limit, bucket) && AllFinished(s.desk)
    ensures Accounted(Exec(s, actions).desk, limit, bucket) && AllFinished(Exec(s, actions).desk)
    decreases |actions|
  {
    if actions != [] {
      hide Apply, Accounted, AllFinished;
      ApplyKeepsAccounts(s, actions[0], limit, bucket);
      ApplyKeepsFinished(s, actions[0]);
      RunAccounts(Apply(s, actions[0]), actions[1..], limit, bucket);
    }
  }

  lemma AdmittedWithinCap(now: nat, actions: seq<Action>, limit: Limit, bucket: nat)
    requires Run(Start(now), actions, false)
    ensures
      var d := Exec(Start(now), actions).desk;
      Admitted(d.admitted, limit, bucket * MINUTE, (bucket + 1) * MINUTE)
      <= AtLeastZero(limit.cap) + Errors(d.hits, limit, bucket)
  {
    DecisionsAreExact(now, actions);
    assert Accounted(EMPTY_DESK, limit, bucket);
    RunAccounts(Start(now), actions, limit, bucket);
    DeskWithinCap(Exec(Start(now), actions).desk, limit, bucket);
  }

  // ----- a torn Incr -----

  /** A request with a single limit that arrives behind `p` others and is served at once. */
  function Visit(limit: Limit, p: nat): seq<Action> {
    [Arrive([limit])] + [Fetch(p), Count(p)]
  }

  function Burst(limit: Limit, p: nat, k: nat): seq<Action> {
    if k == 0 then [] else Burst(limit, p, k - 1) + Visit(limit, p)
  }

  /** Nobody is sweeping, and the counter of this minute stands at `k`. */
  ghost predicate Spent(s: State, key: string, k: nat) {
    && s.doomed.None?
    && (k == 0 ==> key !in s.slots)
    && (k > 0 ==> key in s.slots && s.slots[key] < |s.cells|
                  && s.cells[s.slots[key]].val == k && s.cells[s.slots[key]].expires >= s.now)
  }

  lemma SettleLast(d: Desk, r: Request, limit: Limit)
    requires r.limits == [limit] && r.next == 0
    ensures
      var p := |d.pending|;
      var e := Enter(d, r);
      && CanTry(e, p) && LimitOf(e, p) == limit && KeyOf(e, p) == Key(limit.base, Bucket(r.read))
      && Settle(e, p, Fine, true) == Desk(d.pending, d.admitted + [Request(r.read, [limit], 1, None)],
                                          d.hits + [Hit(limit, Bucket(r.read), Fine, true)])
  {
    assert Without(Enter(d, r).pending, |d.pending|) == d.pending;
  }

  lemma {:induction false} VisitIs(s: State, limit: Limit, k: nat)
    requires Spent(s, Key(limit.base, Bucket(s.now)), k) && k < limit.cap
    ensures
      var t := Exec(s, Visit(limit, |s.desk.pending|));
      && Run(s, Visit(limit, |s.desk.pending|), false)
      && Spent(t, Key(limit.base, Bucket(s.now)), k + 1) && t.now == s.now
      && t.desk == Desk(s.desk.pending, s.desk.admitted + [Request(s.now, [limit], 1, None)],
                        s.desk.hits + [Hit(limit, Bucket(s.now), Fine, true)])
  {
    var p := |s.desk.pending|;
    var s1 := Apply(s, Arrive([limit]));
    SettleLast(s.desk, Arrived(s.now, [limit]), limit);
    assert CanFetch(s1, p);
    var s2 := Fetched(s1, p);
    var r := Arrived(s.now, [limit]).(cell := s2.desk.pending[p].cell);
    assert s2.desk == Enter(s.desk, r);
    SettleLast(s.desk, r, limit);
    assert CanCount(s2, p) && Lets(s2, p);
    hide Key, Bucket, Settle;
    ExecConcat(s, [Arrive([limit])], [Fetch(p), Count(p)], false);
    ExecOne(s, Arrive([limit]), false);
    ExecTwo(s1, Fetch(p), Count(p), false);
    ExecOne(s1, Fetch(p), false);
    ExecOne(s2, Count(p), false);
  }

  /** The counter is `lag` increments behind the log: each of `k` visits passes. */
  lemma {:induction false} BurstIs(s: State, limit: Limit, k: nat, tears: bool)
    requires Spent(s, Key(limit.base, Bucket(s.now)), 0) && k <= limit.cap
    ensures
      var bucket := Bucket(s.now);
      var t := Exec(s, Burst(limit, |s.desk.pending|, k));
      && Run(s, Burst(limit, |s.desk.pending|, k), tears)
      && Spent(t, Key(limit.base, bucket), k) && t.now == s.now && t.desk.pending == s.desk.pending
      && Applied(t.desk.hits, limit.base, bucket) == Applied(s.desk.hits, limit.base, bucket) + k
      && Errors(t.desk.hits, limit, bucket) == Errors(s.desk.hits, limit, bucket)
      && Admitted(t.desk.admitted, limit, bucket * MINUTE, (bucket + 1) * MINUTE)
         == Admitted(s.desk.admitted, limit, bucket * MINUTE, (bucket + 1) * MINUTE) + k
  {
    if k > 0 {
      BurstIs(s, limit, k - 1, tears);
      var p, bucket := |s.desk.pending|, Bucket(s.now);
      var t := Exec(s, Burst(limit, p, k - 1));
      VisitIs(t, limit, k - 1);
      MoreTears(t, Visit(limit, p), tears);
      ExecConcat(s, Burst(limit, p, k - 1), Visit(limit, p), tears);
      BucketBounds(s.now);
      AppliedGrows(t.desk.hits, Hit(limit, bucket, Fine, true), limit.base, bucket);
      RateLimit.ErrorsGrow(t.desk.hits, Hit(limit, bucket, Fine, true), limit, bucket);
      AdmittedGrows(t.desk.admitted, Request(s.now, [limit], 1, None), limit, bucket * MINUTE, (bucket + 1) * MINUTE);
      hide Exec, Run, Visit, Key, Bucket, Applied, Errors, Admitted;
    }
  }

  lemma {:induction false} MoreTears(s: State, actions: seq<Action>, tears: bool)
    requires Run(s, actions, false)
    ensures Run(s, actions, tears)
    decreases |actions|
  {
    if actions != [] {
      hide Apply, Prompt, Tears;
      MoreTears(Apply(s, actions[0]), actions[1..], tears);
    }
  }

  /** The sweep takes the newborn counter that request `i` has fetched; the request then
      counts on the orphan. */
  function Torn(key: string, clock: int, i: nat): seq<Action> {
    [Look(key, clock)] + [Drop, Count(i)]
  }

  lemma {:induction false} TornIs(s: State, i: nat)
    requires WellFormed(s) && s.doomed.None? && CanCount(s, i)
    requires Bucket(s.desk.pending[i].read) == Bucket(s.now) && LimitOf(s.desk, i).cap >= 1
    requires
      var key := KeyOf(s.desk, i);
      key in s.slots && s.slots[key] == s.desk.pending[i].cell.value && s.cells[s.slots[key]] == Newborn(key)
    ensures
      var t := Exec(s, Torn(KeyOf(s.desk, i), s.now, i));
      && Run(s, Torn(KeyOf(s.desk, i), s.now, i), true)
      && Spent(t, KeyOf(s.desk, i), 0) && t.now == s.now
      && t.desk == Settle(s.desk, i, Fine, true)
  {
    var key := KeyOf(s.desk, i);
    var s1 := Apply(s, Look(key, s.now));
    var s2 := Apply(s1, Drop);
    assert HoldsOwn(s, s.desk.pending[i]) by {
      assert s.desk.pending[i] in s.desk.pending;
    }
    BucketBounds(s.now);
    BucketBounds(s.desk.pending[i].read);
    assert CanCount(s2, i) && Lets(s2, i);
    hide Key, Bucket, Settle;
    ExecConcat(s, [Look(key, s.now)], [Drop, Count(i)], true);
    ExecOne(s, Look(key, s.now), true);
    ExecTwo(s1, Drop, Count(i), true);
    ExecOne(s1, Drop, true);
    ExecOne(s2, Count(i), true);
  }

  /** A tear is fatal: from every reachable state in which a request is about to count on
      a newborn counter of the current minute, the run in which a sweep takes the counter
      and `cap` more requests arrive lets the last of them past an exhausted limit. */
  lemma {:induction false} TearIsFatal(now: nat, actions: seq<Action>, i: nat)
    requires Run(Start(now), actions, false)
    requires
      var s := Exec(Start(now), actions);
      && s.doomed.None? && CanCount(s, i) && s.cells[s.desk.pending[i].cell.value].val == 0
      && Bucket(s.desk.pending[i].read) == Bucket(s.now) && LimitOf(s.desk, i).cap >= 1
    ensures
      var s := Exec(Start(now), actions);
      var limit := LimitOf(s.desk, i);
      var t := Exec(s, Torn(KeyOf(s.desk, i), s.now, i));
      var more := Torn(KeyOf(s.desk, i), s.now, i) + Burst(limit, |t.desk.pending|, limit.cap);
      Run(s, more, true) && !Exact(Exec(s, more).desk.hits)
  {
    hide Exec, Run, Visit, Torn, Key, Bucket, Applied, Exact, Spent, WellFormed, Counts, Apply, Errors, Admitted,
        Justified;
    var s := Exec(Start(now), actions);
    var limit, bucket, key := LimitOf(s.desk, i), Bucket(s.now), KeyOf(s.desk, i);
    StartCounts(now, limit.base, bucket);
    RunCounts(Start(now), actions, limit.base, bucket);
    HolderHoldsNewborn(s, i);
    TornIs(s, i);
    var torn := Torn(key, s.now, i);
    var t := Exec(s, torn);
    var p := |t.desk.pending|;
    AppliedGrows(s.desk.hits, HitOf(s.desk, i, Fine, true), limit.base, bucket);
    BurstIs(t, limit, limit.cap - 1, true);
    var u := Exec(t, Burst(limit, p, limit.cap - 1));
    VisitIs(u, limit, limit.cap - 1);
    MoreTears(u, Visit(limit, p), true);
    ExecConcat(t, Burst(limit, p, limit.cap - 1), Visit(limit, p), true);
    ExecConcat(s, torn, Burst(limit, p, limit.cap), true);
    OverCap(u.desk.hits, limit, bucket);
  }

  lemma OverCap(hits: seq<Hit>, limit: Limit, bucket: nat)
    requires Applied(hits, limit.base, bucket) >= limit.cap
    ensures !Exact(hits + [Hit(limit, bucket, Fine, true)])
  {
    hide Applied;
    var h := Hit(limit, bucket, Fine, true);
    assert (hits + [h])[..|hits|] == hits;
    assert !Justified((hits + [h])[..|hits|], (hits + [h])[|hits|]);
  }

  lemma HolderHoldsNewborn(s: State, i: nat)
    requires WellFormed(s) && CanCount(s, i) && s.cells[s.desk.pending[i].cell.value].val == 0
    requires Bucket(s.desk.pending[i].read) == Bucket(s.now)
    requires Counts(s, LimitOf(s.desk, i).base, Bucket(s.now))
    ensures
      var key := KeyOf(s.desk, i);
      && key in s.slots && s.slots[key] == s.desk.pending[i].cell.value && s.cells[s.slots[key]] == Newborn(key)
      && Applied(s.desk.hits, LimitOf(s.desk, i).base, Bucket(s.now)) == 0
  {
    assert s.desk.pending[i] in s.desk.pending && HoldsOwn(s, s.desk.pending[i]);
    BucketBounds(s.now);
    hide Key, Bucket, Applied;
  }

  /** One torn Incr from the start, and `cap` further requests within the same instant. */
  function TornRun(limit: Limit): seq<Action> {
    ([Arrive([limit])] + [Fetch(0)]) + (Torn(Key(limit.base, 0), 0, 0) + Burst(limit, 0, AtLeastZero(limit.cap)))
  }

  lemma {:induction false} FirstFetches(limit: Limit)
    ensures
      var run := [Arrive([limit])] + [Fetch(0)];
      var key := Key(limit.base, 0);
      && Run(Start(0), run, true)
      && Exec(Start(0), run)
         == State(0, map[key := 0], [Newborn(key)], None, Enter(EMPTY_DESK, Request(0, [limit], 0, Some(0))))
  {
    var r := Arrived(0, [limit]);
    var s1 := Apply(Start(0), Arrive([limit]));
    assert s1.desk == Desk([r], [], []) && CanFetch(s1, 0) && KeyOf(s1.desk, 0) == Key(limit.base, 0);
    assert Prompt(Start(0), Arrive([limit])) && Prompt(s1, Fetch(0));
    ExecOne(Start(0), Arrive([limit]), true);
    ExecOne(s1, Fetch(0), true);
    ExecConcat(Start(0), [Arrive([limit])], [Fetch(0)], true);
    hide Exec, Run, Key;
  }

  lemma {:induction false} OneHit(limit: Limit)
    ensures Admitted([Request(0, [limit], 1, None)], limit, 0, MINUTE) == 1
    ensures Errors([Hit(limit, 0, Fine, true)], limit, 0) == 0
  {
    AdmittedGrows([], Request(0, [limit], 1, None), limit, 0, MINUTE);
    RateLimit.ErrorsGrow([], Hit(limit, 0, Fine, true), limit, 0);
    assert [] + [Request(0, [limit], 1, None)] == [Request(0, [limit], 1, None)];
    assert [] + [Hit(limit, 0, Fine, true)] == [Hit(limit, 0, Fine, true)];
  }

  lemma {:induction false} TornRunExceedsCap(limit: Limit)
    requires limit.cap >= 1
    ensures
      var d := Exec(Start(0), TornRun(limit)).desk;
      && Run(Start(0), TornRun(limit), true)
      && Admitted(d.admitted, limit, 0, MINUTE) == limit.cap + 1
      && Errors(d.hits, limit, 0) == 0
  {
    hide Exec, Run, Torn, Burst, Key, Applied, Settle, Apply, Admitted, Errors;
    var key, first := Key(limit.base, 0), [Arrive([limit])] + [Fetch(0)];
    FirstFetches(limit);
    var s := Exec(Start(0), first);
    SettleLast(EMPTY_DESK, Request(0, [limit], 0, Some(0)), limit);
    TornIs(s, 0);
    var torn := Torn(key, 0, 0);
    var t := Exec(s, torn);
    assert t.desk == Desk([], [Request(0, [limit], 1, None)], [Hit(limit, 0, Fine, true)]);
    BurstIs(t, limit, limit.cap, true);
    ExecConcat(s, torn, Burst(limit, 0, limit.cap), true);
    ExecConcat(Start(0), first, torn + Burst(limit, 0, limit.cap), true);
    OneHit(limit);
  }

  ghost predicate KeepsCap(limit: Limit, tears: bool) {
    forall now, actions, bucket: nat | Run(Start(now), actions, tears) ::
      var d := Exec(Start(now), actions).desk;
      Admitted(d.admitted, limit, bucket * MINUTE, (bucket + 1) * MINUTE)
      <= AtLeastZero(limit.cap) + Errors(d.hits, limit, bucket)
  }

  /** With the in-memory backend every run of prompt requests keeps the cap exactly if no
      sweep may take a newborn counter. */
  lemma {:induction false} CapHoldsIffUntorn(limit: Limit, tears: bool)
    requires limit.cap >= 1
    ensures KeepsCap(limit, tears) <==> !tears
  {
    hide Run, Exec, Admitted, Errors;
    if tears {
      TornRunExceedsCap(limit);
    } else {
      forall now, actions, bucket: nat | Run(Start(now), actions, tears)
        ensures
          var d := Exec(Start(now), actions).desk;
          Admitted(d.admitted, limit, bucket * MINUTE, (bucket + 1) * MINUTE)
          <= AtLeastZero(limit.cap) + Errors(d.hits, limit, bucket)
      {
        AdmittedWithinCap(now, actions, limit, bucket);
      }
    }
  }

  // ----- an undisturbed increment -----

  /** With nothing in between, the two steps of a request count as the class does: from zero
      if the counter is new or has expired, with a TTL of two minutes from now; and they let
      the request past its limit exactly if the count is within it. */
  lemma UndisturbedCount(s: State, i: nat)
    requires WellFormed(s) && CanFetch(s, i)
    ensures
      var key := KeyOf(s.desk, i);
      var fetched := Apply(s, Fetch(i));
      var t := Apply(fetched, Count(i));
      var live := key in s.slots && s.now <= s.cells[s.slots[key]].expires;
      var count := 1 + if live then s.cells[s.slots[key]].val else 0;
      && key in t.slots && t.slots[key] < |t.cells|
      && t.cells[t.slots[key]] == Cell(key, count, s.now + 120_000_000_000)
      && t.slots == s.slots[key := t.slots[key]]
      && (forall k | 0 <= k < |s.cells| && k != t.slots[key] :: t.cells[k] == s.cells[k])
      && t.desk.hits == s.desk.hits + [Hit(LimitOf(s.desk, i), Bucket(s.desk.pending[i].read), Fine,
                                           count <= LimitOf(s.desk, i).cap)]
  {
    hide Key, Bucket, Without;
    assert ZERO_TIME < s.now;
  }
}
