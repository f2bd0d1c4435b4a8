/** What a rate limiter promises, in terms of its increments: the log of them, the
    requests they were made for, and the caps that an exact log implies. */
module RateLog {
  import opened Wrappers
  import opened Decimal

  const SECOND: int := 1_000_000_000
  const MINUTE: int := 60_000_000_000
  const COUNTER_TTL: int := 2 * MINUTE

  /** How the backend may fail an Incr. The caller sees the same error in each case,
      but the two pipelined commands may both, or only the first, have been done. */
  datatype Fault = Fine | Refused | NoExpiry | AnswerLost

  /** At most `cap` increments of the counter a minute pass. */
  datatype Limit = Limit(base: string, cap: int)

  /** time.Now().Unix() / 60, for clocks after 1970 in nanoseconds */
  function Bucket(now: nat): nat {
    now / SECOND / 60
  }

  lemma BucketBounds(read: nat)
    ensures Bucket(read) * MINUTE <= read < (Bucket(read) + 1) * MINUTE
    ensures Bucket(read) * 60_000_000_000 <= read < (Bucket(read) + 1) * 60_000_000_000
  {
  }

  function Key(base: string, bucket: nat): string {
    base + ":" + Print(bucket)
  }

  /** A counter is named after its base and the number of its minute. */
  lemma KeyReads(base: string, bucket: nat)
    requires bucket <= MAX_INT64
    ensures base + ":" <= Key(base, bucket) && ParseInt(Key(base, bucket)[|base| + 1..]) == Some(bucket)
  {
    assert Key(base, bucket)[|base| + 1..] == Print(bucket);
    ParseFormat(bucket);
  }

  function TrailingDigits(s: string): nat {
    if s == "" || !IsDigit(s[|s| - 1]) then 0 else 1 + TrailingDigits(s[..|s| - 1])
  }

  lemma {:induction false} TrailingDigitsIs(head: string, digits: string)
    requires AllDigits(digits)
    ensures TrailingDigits(head + ":" + digits) == |digits|
  {
    if digits != "" {
      var s := head + ":" + digits;
      var init := digits[..|digits| - 1];
      assert forall c | c in init :: c in digits;
      assert s[..|s| - 1] == head + ":" + init;
      assert digits[|digits| - 1] in digits;
      TrailingDigitsIs(head, init);
    }
  }

  /** Counters of different bases or different minutes never share a key. */
  lemma KeyInjective(base: string, bucket: nat, base': string, bucket': nat)
    requires Key(base, bucket) == Key(base', bucket')
    ensures base == base' && bucket == bucket'
  {
    var p, p', key := Print(bucket), Print(bucket'), Key(base, bucket);
    TrailingDigitsIs(base, p);
    TrailingDigitsIs(base', p');
    assert |p| == |p'|;
    assert base == key[..|base|] && base' == key[..|base'|];
    assert p == key[|base| + 1..] && p' == key[|base'| + 1..];
    ValueOfPrint(bucket);
    ValueOfPrint(bucket');
  }

  // ----- requests and increments -----

  /** A request must pass its limits one after the other; `next` says how many it has,
      `cell` the in-memory counter it is about to count on, if it has fetched one. */
  datatype Request = Request(read: nat, limits: seq<Limit>, next: nat, cell: Option<nat>)

  /** One Incr on behalf of a request. */
  datatype Hit = Hit(limit: Limit, bucket: nat, fault: Fault, passed: bool)

  datatype Desk = Desk(pending: seq<Request>, admitted: seq<Request>, hits: seq<Hit>)

  const EMPTY_DESK := Desk([], [], [])

  function Without(rs: seq<Request>, i: nat): seq<Request>
    requires i < |rs|
  {
    rs[..i] + rs[i + 1..]
  }

  function Arrived(read: nat, limits: seq<Limit>): Request {
    Request(read, limits, 0, None)
  }

  function Enter(d: Desk, r: Request): Desk {
    d.(pending := d.pending + [r])
  }

  function Leave(d: Desk, i: nat): Desk
    requires i < |d.pending|
  {
    d.(pending := Without(d.pending, i))
  }

  /** The i-th pending request has a limit left to try. */
  predicate CanTry(d: Desk, i: nat) {
    i < |d.pending| && d.pending[i].next < |d.pending[i].limits|
  }

  function LimitOf(d: Desk, i: nat): Limit
    requires CanTry(d, i)
  {
    d.pending[i].limits[d.pending[i].next]
  }

  function KeyOf(d: Desk, i: nat): string
    requires CanTry(d, i)
  {
    Key(LimitOf(d, i).base, Bucket(d.pending[i].read))
  }

  function HitOf(d: Desk, i: nat, fault: Fault, passed: bool): Hit
    requires CanTry(d, i)
  {
    Hit(LimitOf(d, i), Bucket(d.pending[i].read), fault, passed)
  }

  /** The outcome of an Incr: on to the next limit, admitted, or turned away. */
  function Settle(d: Desk, i: nat, fault: Fault, passed: bool): Desk
    requires CanTry(d, i)
  {
    var d' := d.(hits := d.hits + [HitOf(d, i, fault, passed)]);
    var r := d.pending[i].(next := d.pending[i].next + 1, cell := None);
    if !passed then Leave(d', i)
    else if r.next == |r.limits| then Leave(d', i).(admitted := d.admitted + [r])
    else d'.(pending := d.pending[i := r])
  }

  // ----- what the increments say -----

  /** How often the counter of this base and minute was really incremented. */
  function Applied(hits: seq<Hit>, base: string, bucket: nat): nat {
    if hits == [] then 0
    else
      var h := hits[|hits| - 1];
      Applied(hits[..|hits| - 1], base, bucket)
      + if h.limit.base == base && h.bucket == bucket && !h.fault.Refused? then 1 else 0
  }

  /** How often this limit let a request past in this minute. */
  function Passed(hits: seq<Hit>, limit: Limit, bucket: nat): nat {
    if hits == [] then 0
    else
      var h := hits[|hits| - 1];
      Passed(hits[..|hits| - 1], limit, bucket) + if h.limit == limit && h.bucket == bucket && h.passed then 1 else 0
  }

  function Errors(hits: seq<Hit>, limit: Limit, bucket: nat): nat {
    if hits == [] then 0
    else
      var h := hits[|hits| - 1];
      Errors(hits[..|hits| - 1], limit, bucket)
      + if h.limit == limit && h.bucket == bucket && !h.fault.Fine? then 1 else 0
  }

  /** The sliding log that the counters stand for. */
  predicate Justified(before: seq<Hit>, h: Hit) {
    h.passed <==> !h.fault.Fine? || Applied(before, h.limit.base, h.bucket) < h.limit.cap
  }

  ghost predicate Exact(hits: seq<Hit>) {
    forall i | 0 <= i < |hits| :: Justified(hits[..i], hits[i])
  }

  lemma ExactGrows(hits: seq<Hit>, h: Hit)
    requires Exact(hits)
    ensures Exact(hits + [h]) <==> Justified(hits, h)
  {
    assert (hits + [h])[..|hits|] == hits;
    forall i | 0 <= i < |hits|
      ensures Justified((hits + [h])[..i], (hits + [h])[i])
    {
      assert (hits + [h])[..i] == hits[..i];
    }
    if Justified(hits, h) {
      forall i | 0 <= i < |hits| + 1
        ensures Justified((hits + [h])[..i], (hits + [h])[i])
      {
        assert i == |hits| ==> (hits + [h])[..i] == hits;
      }
    }
  }

  function AtLeastZero(cap: int): nat {
    if cap < 0 then 0 else cap
  }

  lemma {:induction false} PassedWithinCap(hits: seq<Hit>, limit: Limit, bucket: nat)
    requires Exact(hits)
    ensures Passed(hits, limit, bucket) <= AtLeastZero(limit.cap) + Errors(hits, limit, bucket)
    ensures Passed(hits, limit, bucket) <= Applied(hits, limit.base, bucket) + Errors(hits, limit, bucket)
  {
    if hits != [] {
      var init := hits[..|hits| - 1];
      forall i | 0 <= i < |init|
        ensures Justified(init[..i], init[i])
      {
        assert init[..i] == hits[..i];
      }
      PassedWithinCap(init, limit, bucket);
      assert Justified(init, hits[|hits| - 1]);
    }
  }

  // ----- admitted requests -----

  function Times(limits: seq<Limit>, limit: Limit): nat {
    if limits == [] then 0
    else Times(limits[..|limits| - 1], limit) + if limits[|limits| - 1] == limit then 1 else 0
  }

  lemma {:induction false} TimesIfIn(limits: seq<Limit>, limit: Limit)
    requires limit in limits
    ensures Times(limits, limit) >= 1
  {
    if limits[|limits| - 1] != limit {
      assert limit in limits[..|limits| - 1];
      TimesIfIn(limits[..|limits| - 1], limit);
    }
  }

  /** How often the request has passed the limit in this minute. */
  function Done(r: Request, limit: Limit, bucket: nat): nat {
    if Bucket(r.read) == bucket && r.next <= |r.limits| then Times(r.limits[..r.next], limit) else 0
  }

  function AllDone(rs: seq<Request>, limit: Limit, bucket: nat): nat {
    if rs == [] then 0 else Done(rs[0], limit, bucket) + AllDone(rs[1..], limit, bucket)
  }

  lemma {:induction false} AllDoneConcat(a: seq<Request>, b: seq<Request>, limit: Limit, bucket: nat)
    ensures AllDone(a + b, limit, bucket) == AllDone(a, limit, bucket) + AllDone(b, limit, bucket)
  {
    if a == [] {
      assert a + b == b;
    } else {
      hide Done;
      assert (a + b)[1..] == a[1..] + b;
      AllDoneConcat(a[1..], b, limit, bucket);
    }
  }

  lemma AllDoneOne(r: Request, limit: Limit, bucket: nat)
    ensures AllDone([r], limit, bucket) == Done(r, limit, bucket)
  {
    hide Done;
    assert [r][1..] == [];
  }

  lemma AllDoneAround(rs: seq<Request>, i: nat, r: Request, limit: Limit, bucket: nat)
    requires i < |rs|
    ensures AllDone(Without(rs, i), limit, bucket) + Done(rs[i], limit, bucket) == AllDone(rs, limit, bucket)
    ensures AllDone(rs[i := r], limit, bucket) == AllDone(Without(rs, i), limit, bucket) + Done(r, limit, bucket)
  {
    hide Done, AllDone;
    assert rs == rs[..i] + ([rs[i]] + rs[i + 1..]) && rs[i := r] == rs[..i] + ([r] + rs[i + 1..]);
    AllDoneConcat(rs[..i], rs[i + 1..], limit, bucket);
    AllDoneConcat(rs[..i], [rs[i]] + rs[i + 1..], limit, bucket);
    AllDoneConcat(rs[..i], [r] + rs[i + 1..], limit, bucket);
    AllDoneConcat([rs[i]], rs[i + 1..], limit, bucket);
    AllDoneConcat([r], rs[i + 1..], limit, bucket);
    AllDoneOne(rs[i], limit, bucket);
    AllDoneOne(r, limit, bucket);
  }

  /** Every limit a request has passed is a hit of its own. */
  predicate Accounted(d: Desk, limit: Limit, bucket: nat) {
    AllDone(d.pending, limit, bucket) + AllDone(d.admitted, limit, bucket) <= Passed(d.hits, limit, bucket)
  }

  ghost predicate AllFinished(d: Desk) {
    forall r | r in d.admitted :: r.next == |r.limits|
  }

  lemma EnterKeepsAccounts(d: Desk, read: nat, limits: seq<Limit>, limit: Limit, bucket: nat)
    requires Accounted(d, limit, bucket)
    ensures Accounted(Enter(d, Arrived(read, limits)), limit, bucket)
  {
    AllDoneConcat(d.pending, [Arrived(read, limits)], limit, bucket);
    AllDoneOne(Arrived(read, limits), limit, bucket);
  }

  lemma LeaveKeepsAccounts(d: Desk, i: nat, limit: Limit, bucket: nat)
    requires Accounted(d, limit, bucket) && i < |d.pending|
    ensures Accounted(Leave(d, i), limit, bucket)
  {
    AllDoneAround(d.pending, i, d.pending[i], limit, bucket);
  }

  /** Fetching a counter passes no limit. */
  lemma FetchKeepsAccounts(d: Desk, i: nat, cell: Option<nat>, limit: Limit, bucket: nat)
    requires Accounted(d, limit, bucket) && i < |d.pending|
    ensures Accounted(d.(pending := d.pending[i := d.pending[i].(cell := cell)]), limit, bucket)
  {
    AllDoneAround(d.pending, i, d.pending[i].(cell := cell), limit, bucket);
  }

  lemma OneMoreDone(r: Request, limit: Limit, bucket: nat)
    requires r.next < |r.limits|
    ensures
      var r' := r.(next := r.next + 1, cell := None);
      Done(r', limit, bucket)
      == Done(r, limit, bucket) + if r.limits[r.next] == limit && Bucket(r.read) == bucket then 1 else 0
  {
    assert r.limits[..r.next + 1][..r.next] == r.limits[..r.next];
  }

  lemma PassedGrows(hits: seq<Hit>, h: Hit, limit: Limit, bucket: nat)
    ensures Passed(hits + [h], limit, bucket)
            == Passed(hits, limit, bucket) + if h.limit == limit && h.bucket == bucket && h.passed then 1 else 0
  {
    assert (hits + [h])[..|hits|] == hits;
  }

  lemma AppliedGrows(hits: seq<Hit>, h: Hit, base: string, bucket: nat)
    ensures Applied(hits + [h], base, bucket)
            == Applied(hits, base, bucket)
               + if h.limit.base == base && h.bucket == bucket && !h.fault.Refused? then 1 else 0
  {
    assert (hits + [h])[..|hits|] == hits;
  }

  lemma SettleKeepsAccounts(d: Desk, i: nat, fault: Fault, passed: bool, limit: Limit, bucket: nat)
    requires CanTry(d, i) && Accounted(d, limit, bucket)
    ensures Accounted(Settle(d, i, fault, passed), limit, bucket)
  {
    hide Done, AllDone, Passed, Bucket, Without;
    var r := d.pending[i];
    var r' := r.(next := r.next + 1, cell := None);
    PassedGrows(d.hits, HitOf(d, i, fault, passed), limit, bucket);
    OneMoreDone(r, limit, bucket);
    AllDoneAround(d.pending, i, r', limit, bucket);
    AllDoneConcat(d.admitted, [r'], limit, bucket);
    AllDoneOne(r', limit, bucket);
  }

  /** Admitted requests that are under the limit and read their clocks in [from, to). */
  function Admitted(rs: seq<Request>, limit: Limit, from: int, to: int): nat {
    if rs == [] then 0
    else Admitted(rs[..|rs| - 1], limit, from, to)
         + if limit in rs[|rs| - 1].limits && from <= rs[|rs| - 1].read < to then 1 else 0
  }

  lemma AdmittedGrows(rs: seq<Request>, r: Request, limit: Limit, from: int, to: int)
    ensures Admitted(rs + [r], limit, from, to)
            == Admitted(rs, limit, from, to) + if limit in r.limits && from <= r.read < to then 1 else 0
  {
    assert (rs + [r])[..|rs|] == rs;
  }

  lemma {:induction false} AdmittedPassed(rs: seq<Request>, limit: Limit, bucket: nat)
    requires forall r | r in rs :: r.next == |r.limits|
    ensures Admitted(rs, limit, bucket * MINUTE, (bucket + 1) * MINUTE) <= AllDone(rs, limit, bucket)
  {
    if rs != [] {
      var init, r := rs[..|rs| - 1], rs[|rs| - 1];
      assert rs == init + [r] && r in rs && forall q | q in init :: q in rs;
      AdmittedPassed(init, limit, bucket);
      AllDoneConcat(init, [r], limit, bucket);
      AllDoneOne(r, limit, bucket);
      BucketBounds(r.read);
      if limit in r.limits && bucket * MINUTE <= r.read < (bucket + 1) * MINUTE {
        assert r.limits[..r.next] == r.limits;
        TimesIfIn(r.limits, limit);
      }
      hide AllDone;
    }
  }

  lemma {:induction false} AdmittedCovered(rs: seq<Request>, limit: Limit, from: int, to: int, bucket: nat)
    requires bucket * MINUTE <= from && to <= (bucket + 2) * MINUTE
    ensures Admitted(rs, limit, from, to)
            <= Admitted(rs, limit, bucket * MINUTE, (bucket + 1) * MINUTE)
             + Admitted(rs, limit, (bucket + 1) * MINUTE, (bucket + 2) * MINUTE)
  {
    if rs != [] {
      AdmittedCovered(rs[..|rs| - 1], limit, from, to, bucket);
    }
  }

  /** An exact log keeps the cap of every minute, plus one for every error. */
  lemma DeskWithinCap(d: Desk, limit: Limit, bucket: nat)
    requires Exact(d.hits) && Accounted(d, limit, bucket) && AllFinished(d)
    ensures Admitted(d.admitted, limit, bucket * MINUTE, (bucket + 1) * MINUTE)
            <= AtLeastZero(limit.cap) + Errors(d.hits, limit, bucket)
  {
    PassedWithinCap(d.hits, limit, bucket);
    AdmittedPassed(d.admitted, limit, bucket);
  }
}
