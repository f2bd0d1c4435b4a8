/** The per-minute rate limiters over one shared counter cache, and the caps they
    keep in every run against Redis. */
module RateLimit {
  import opened Wrappers
  import opened RateLog

  // ----- counters -----

  const MILLISECOND: int := 1_000_000

  /** A counter without an expiry lives on; one with it lives up to and including the
      instant `expires`. */
  datatype Counter = Counter(val: nat, expires: Option<int>)

  type Counters = map<string, Counter>

  predicate Live(counters: Counters, key: string, now: int) {
    key in counters && (counters[key].expires.None? || now <= counters[key].expires.value)
  }

  function Bumped(counters: Counters, key: string, now: int): nat {
    1 + if Live(counters, key, now) then counters[key].val else 0
  }

  /** Redis counts in milliseconds: what expires in one is still there throughout it. */
  function LastAlive(now: int): int {
    var end := now + COUNTER_TTL;
    end - end % MILLISECOND + MILLISECOND - 1
  }

  /** INCR and PEXPIRE in one pipeline. */
  function Incremented(counters: Counters, key: string, now: int, fault: Fault): Counters {
    match fault
    case Refused => counters
    case NoExpiry =>
      var expires := if Live(counters, key, now) then counters[key].expires else None;
      counters[key := Counter(Bumped(counters, key, now), expires)]
    case _ => counters[key := Counter(Bumped(counters, key, now), Some(LastAlive(now)))]
  }

  function Swept(counters: Counters, now: int): Counters {
    map key | key in counters && Live(counters, key, now) :: counters[key]
  }

  class CounterCache {
    var counters: Counters

    constructor ()
      ensures counters == map[]
    {
      counters := map[];
    }

    method Incr(key: string, now: int, fault: Fault) returns (n: Option<nat>)
      modifies this
      ensures counters == Incremented(old(counters), key, now, fault)
      ensures n == if fault.Fine? then Some(Bumped(old(counters), key, now)) else None
      ensures
        var live := key in old(counters)
                    && (old(counters)[key].expires.None? || now <= old(counters)[key].expires.value);
        var count := 1 + if live then old(counters)[key].val else 0;
        && (fault == Fine ==> n == Some(count))
        && (fault == Refused ==> counters == old(counters))
        && (fault != Refused ==> key in counters && counters == old(counters)[key := counters[key]]
                                 && counters[key].val == count)
        && (fault == NoExpiry ==> counters[key].expires == if live then old(counters)[key].expires else None)
        && (fault == Fine || fault == AnswerLost ==>
              && counters[key].expires.Some? && (counters[key].expires.value + 1) % 1_000_000 == 0
              && now + 120_000_000_000 <= counters[key].expires.value < now + 120_001_000_000)
    {
      if fault.Refused? {
        return None;
      }
      var c := if Live(counters, key, now) then counters[key] else Counter(0, None);
      c := Counter(c.val + 1, if fault.NoExpiry? then c.expires else Some(LastAlive(now)));
      counters := counters[key := c];
      return if fault.Fine? then Some(c.val) else None;
    }
  }

  /** A request that read its clock at `read` is let past the limit at `now`. */
  predicate Passes(counters: Counters, limit: Limit, read: nat, now: int, fault: Fault) {
    !fault.Fine? || Bumped(counters, Key(limit.base, Bucket(read)), now) <= limit.cap
  }

  function After(counters: Counters, limit: Limit, read: nat, now: int, fault: Fault): Counters {
    Incremented(counters, Key(limit.base, Bucket(read)), now, fault)
  }

  // ----- the limiters -----

  const DEFAULT_RATE_LIMIT_MAX := 1000

  datatype Decision = Decision(allowed: bool, remaining: int, resetAt: int)

  class RateLimiter {
    const cache: CounterCache
    const max: int

    constructor (cache: CounterCache, max: int)
      ensures this.cache == cache && this.max == (if max <= 0 then 1000 else max)
    {
      this.cache := cache;
      this.max := if max <= 0 then DEFAULT_RATE_LIMIT_MAX else max;
    }

    function LimitOf(subject: string): Limit {
      Limit("ratelimit:" + subject, max)
    }

    method Check(subject: string, read: nat, at: int, fault: Fault) returns (d: Decision)
      modifies cache
      ensures cache.counters == After(old(cache.counters), LimitOf(subject), read, at, fault)
      ensures d.allowed <==> Passes(old(cache.counters), LimitOf(subject), read, at, fault)
      ensures d.remaining == if !fault.Fine? then max
                             else if d.allowed then max - cache.counters[Key("ratelimit:" + subject, Bucket(read))].val
                             else 0
      ensures d.resetAt == 60 * (Bucket(read) + 1)
      ensures
        var key := Key("ratelimit:" + subject, Bucket(read));
        && (fault == Fine ==> key in cache.counters && (d.allowed <==> cache.counters[key].val <= max))
        && (fault != Fine ==> d.allowed)
    {
      var bucket := Bucket(read);
      var resetAt := (bucket + 1) * 60;
      var n := cache.Incr(Key("ratelimit:" + subject, bucket), at, fault);
      if n.None? {
        return Decision(true, max, resetAt);
      }
      var remaining := max - n.value;
      if remaining < 0 {
        remaining := 0;
      }
      return Decision(n.value <= max, remaining, resetAt);
    }
  }

  /** Undisturbed checks, one after the other, each at the instant it reads. */
  function Again(counters: Counters, limit: Limit, clocks: seq<nat>): Counters {
    if clocks == [] then counters
    else
      var read := clocks[|clocks| - 1];
      After(Again(counters, limit, clocks[..|clocks| - 1]), limit, read, read, Fine)
  }

  lemma {:induction false} AgainCounts(counters: Counters, limit: Limit, bucket: nat, clocks: seq<nat>)
    requires var key := Key(limit.base, bucket);
             key in counters && counters[key].expires.Some? && counters[key].expires.value >= (bucket + 2) * MINUTE
    requires forall read | read in clocks :: Bucket(read) == bucket
    ensures var key := Key(limit.base, bucket);
            var now := Again(counters, limit, clocks);
            && key in now && now[key].val == counters[key].val + |clocks|
            && now[key].expires.Some? && now[key].expires.value >= (bucket + 2) * MINUTE
  {
    if clocks != [] {
      assert clocks[|clocks| - 1] in clocks;
      assert forall read | read in clocks[..|clocks| - 1] :: read in clocks;
      BucketBounds(clocks[|clocks| - 1]);
      AgainCounts(counters, limit, bucket, clocks[..|clocks| - 1]);
    }
  }

  /** `Remaining` tells the truth: of the checks that follow in the same minute, just
      that many are allowed. */
  lemma RemainingIsExact(before: Counters, limit: Limit, first: nat, clocks: seq<nat>, next: nat)
    requires limit.cap >= 1 && Passes(before, limit, first, first, Fine)
    requires Bucket(next) == Bucket(first) && forall read | read in clocks :: Bucket(read) == Bucket(first)
    ensures
      var after := After(before, limit, first, first, Fine);
      var remaining := limit.cap - after[Key(limit.base, Bucket(first))].val;
      Passes(Again(after, limit, clocks), limit, next, next, Fine) <==> |clocks| < remaining
  {
    BucketBounds(first);
    BucketBounds(next);
    AgainCounts(After(before, limit, first, first, Fine), limit, Bucket(first), clocks);
  }

  datatype Outcome = Allowed | Blocked(reason: string, retryAfter: int)

  /** Whole seconds until the minute is over, and at least one. */
  function RetryAfter(bucket: nat, now: nat): int {
    var next := (bucket + 1) * 60;
    if next <= now / SECOND then 1 else next - now / SECOND
  }

  /** The advice is between one second and a minute, and whoever follows it finds
      another minute's counter, but nobody who comes a second earlier does. */
  lemma RetryAfterLeavesBucket(read: nat, now: nat)
    requires read <= now
    ensures 1 <= RetryAfter(Bucket(read), now) <= 60
    ensures Bucket(now + RetryAfter(Bucket(read), now) * SECOND) > Bucket(read)
    ensures RetryAfter(Bucket(read), now) > 1 ==>
              Bucket(now + (RetryAfter(Bucket(read), now) - 1) * SECOND) == Bucket(read)
  {
    var wait := RetryAfter(Bucket(read), now);
    assert (now + wait * SECOND) / SECOND == now / SECOND + wait;
    assert (now + (wait - 1) * SECOND) / SECOND == now / SECOND + wait - 1;
  }

  function IpId(ip: Option<string>): string {
    if ip.Some? then ip.value else "unknown"
  }

  /** A login against the counters: the address's counter first; the email's moves
      only when the address passes, and the address's counts even when the email is
      then refused. */
  function Login(counters: Counters, ip: Limit, email: Limit, read: nat, atIp: nat, atEmail: nat,
                 ipFault: Fault, emailFault: Fault): (Counters, Outcome) {
    var between := After(counters, ip, read, atIp, ipFault);
    if !Passes(counters, ip, read, atIp, ipFault) then (between, Blocked("ip", RetryAfter(Bucket(read), atIp)))
    else
      (After(between, email, read, atEmail, emailFault),
       if Passes(between, email, read, atEmail, emailFault) then Allowed
       else Blocked("email", RetryAfter(Bucket(read), atEmail)))
  }

  lemma IpIsNotEmail(id: string, tag: string)
    ensures "auth:login:ip:" + id != "auth:login:email:" + tag
  {
    assert ("auth:login:ip:" + id)[11] == 'i' && ("auth:login:email:" + tag)[11] == 'e';
  }

  lemma DifferentKeys(base: string, base': string, bucket: nat, bucket': nat)
    requires base != base'
    ensures Key(base, bucket) != Key(base', bucket')
  {
    if Key(base, bucket) == Key(base', bucket') {
      KeyInjective(base, bucket, base', bucket');
    }
  }

  class LoginRateLimiter {
    const cache: CounterCache
    const perIp: int
    const perEmail: int
    // hex of the first eight bytes of SHA-256 of the trimmed, lower-cased address
    const emailTag: string -> string

    constructor (cache: CounterCache, perIp: int, perEmail: int, emailTag: string -> string)
      ensures this.cache == cache && this.perIp == perIp && this.perEmail == perEmail && this.emailTag == emailTag
    {
      this.cache := cache;
      this.perIp := perIp;
      this.perEmail := perEmail;
      this.emailTag := emailTag;
    }

    function IpLimit(ip: Option<string>): Limit {
      Limit("auth:login:ip:" + IpId(ip), perIp)
    }

    function EmailLimit(email: string): Limit {
      Limit("auth:login:email:" + emailTag(email), perEmail)
    }

    method Allow(ip: Option<string>, email: string, read: nat, atIp: nat, atEmail: nat,
                 ipFault: Fault, emailFault: Fault)
      returns (outcome: Outcome)
      requires read <= atIp <= atEmail
      modifies cache
      ensures (cache.counters, outcome)
              == Login(old(cache.counters), IpLimit(ip), EmailLimit(email), read, atIp, atEmail, ipFault, emailFault)
      ensures
        var ipKey := Key("auth:login:ip:" + (if ip.Some? then ip.value else "unknown"), Bucket(read));
        var emailKey := Key("auth:login:email:" + emailTag(email), Bucket(read));
        var ipOver := ipFault == Fine && ipKey in cache.counters && cache.counters[ipKey].val > perIp;
        var emailOver := emailFault == Fine && emailKey in cache.counters && cache.counters[emailKey].val > perEmail;
        outcome == if ipOver then Blocked("ip", RetryAfter(Bucket(read), atIp))
                   else if emailOver then Blocked("email", RetryAfter(Bucket(read), atEmail))
                   else Allowed
    {
      var bucket := Bucket(read);
      IpIsNotEmail(IpId(ip), emailTag(email));
      DifferentKeys("auth:login:ip:" + IpId(ip), "auth:login:email:" + emailTag(email), bucket, bucket);
      var n := cache.Incr(Key("auth:login:ip:" + IpId(ip), bucket), atIp, ipFault);
      if n.Some? && n.value > perIp {
        return Blocked("ip", RetryAfter(bucket, atIp));
      }
      n := cache.Incr(Key("auth:login:email:" + emailTag(email), bucket), atEmail, emailFault);
      if n.Some? && n.value > perEmail {
        return Blocked("email", RetryAfter(bucket, atEmail));
      }
      return Allowed;
    }
  }

  const DEFAULT_PUBLIC_PER_IP := 30

  class IPRateLimiter {
    const cache: CounterCache
    const keyPrefix: string
    const perIp: int

    constructor (cache: CounterCache, keyPrefix: string, perIp: int)
      ensures this.cache == cache && this.keyPrefix == keyPrefix
      ensures this.perIp == (if perIp <= 0 then 30 else perIp)
    {
      this.cache := cache;
      this.keyPrefix := keyPrefix;
      this.perIp := if perIp <= 0 then DEFAULT_PUBLIC_PER_IP else perIp;
    }

    function LimitOf(ip: Option<string>): Limit {
      Limit(keyPrefix + ":ip:" + IpId(ip), perIp)
    }

    method Allow(ip: Option<string>, read: nat, at: nat, fault: Fault) returns (outcome: Outcome)
      requires read <= at
      modifies cache
      ensures cache.counters == After(old(cache.counters), LimitOf(ip), read, at, fault)
      ensures outcome == if Passes(old(cache.counters), LimitOf(ip), read, at, fault) then Allowed
                         else Blocked("ip", RetryAfter(Bucket(read), at))
      ensures
        var key := Key(keyPrefix + ":ip:" + (if ip.Some? then ip.value else "unknown"), Bucket(read));
        && (fault == Fine ==> key in cache.counters && (outcome.Blocked? <==> cache.counters[key].val > perIp))
        && (fault != Fine ==> outcome == Allowed)
    {
      var bucket := Bucket(read);
      var n := cache.Incr(Key(keyPrefix + ":ip:" + IpId(ip), bucket), at, fault);
      if n.Some? && n.value > perIp {
        return Blocked("ip", RetryAfter(bucket, at));
      }
      return Allowed;
    }
  }

  // ----- whose counter -----

  lemma SameAfterPrefix(prefix: string, a: string, b: string)
    ensures prefix + a == prefix + b <==> a == b
  {
    assert (prefix + a)[|prefix|..] == a && (prefix + b)[|prefix|..] == b;
  }

  /** Two addresses share a login counter only if they are the same; no address counts as
      the address "unknown". An address never shares one with an email, and
      emails do only under the same tag. */
  lemma LoginCountersApart(l: LoginRateLimiter, a: Option<string>, b: Option<string>, email: string, email': string)
    ensures l.IpLimit(a).base == l.IpLimit(b).base <==>
              a == b || (a == None && b == Some("unknown")) || (a == Some("unknown") && b == None)
    ensures l.IpLimit(a).base != l.EmailLimit(email).base
    ensures l.EmailLimit(email).base == l.EmailLimit(email').base <==> l.emailTag(email) == l.emailTag(email')
    ensures l.IpLimit(a).cap == l.perIp && l.EmailLimit(email).cap == l.perEmail
  {
    SameAfterPrefix("auth:login:ip:", if a.Some? then a.value else "unknown", if b.Some? then b.value else "unknown");
    SameAfterPrefix("auth:login:email:", l.emailTag(email), l.emailTag(email'));
    IpIsNotEmail(if a.Some? then a.value else "unknown", l.emailTag(email));
  }

  /** The same for the limiters by address alone. */
  lemma AddressCountersApart(l: IPRateLimiter, a: Option<string>, b: Option<string>)
    ensures l.LimitOf(a).base == l.LimitOf(b).base <==>
              a == b || (a == None && b == Some("unknown")) || (a == Some("unknown") && b == None)
    ensures l.LimitOf(a).cap == l.perIp
  {
    SameAfterPrefix(l.keyPrefix + ":ip:", if a.Some? then a.value else "unknown",
                    if b.Some? then b.value else "unknown");
  }

  /** And every subject has its own. */
  lemma SubjectCountersApart(r: RateLimiter, s: string, t: string)
    ensures r.LimitOf(s).base == r.LimitOf(t).base <==> s == t
    ensures r.LimitOf(s).cap == r.max
  {
    SameAfterPrefix("ratelimit:", s, t);
  }

  /** The two caches hold the same under the key. */
  predicate SameAt(c: Counters, d: Counters, key: string) {
    (key in c <==> key in d) && (key in c ==> c[key] == d[key])
  }

  lemma SameDecision(c: Counters, d: Counters, limit: Limit, read: nat, now: int, fault: Fault)
    requires SameAt(c, d, Key(limit.base, Bucket(read)))
    ensures Passes(c, limit, read, now, fault) <==> Passes(d, limit, read, now, fault)
  {
    hide Key, Bucket;
  }

  lemma AfterElsewhere(c: Counters, d: Counters, limit: Limit, read: nat, now: int, fault: Fault, key: string)
    requires SameAt(c, d, key) && Key(limit.base, Bucket(read)) != key
    ensures SameAt(After(c, limit, read, now, fault), d, key)
    ensures SameAt(After(c, limit, read, now, fault), After(d, limit, read, now, fault), key)
  {
    OtherKeysStay(c, Key(limit.base, Bucket(read)), now, fault, key);
    OtherKeysStay(d, Key(limit.base, Bucket(read)), now, fault, key);
    hide Key, Bucket, Incremented;
  }

  /** What one client does leaves another's counters and next decision alone: a login from
      one address for one email, and then one from another for another. */
  lemma OthersDoNotMatter(l: LoginRateLimiter, counters: Counters,
                          ip: Option<string>, email: string, read: nat, atIp: nat, atEmail: nat, f: Fault, g: Fault,
                          ip': Option<string>, email': string, read': nat, atIp': nat, atEmail': nat,
                          f': Fault, g': Fault, bucket: nat)
    requires ip != ip' && ip.Some? && ip'.Some? && l.emailTag(email) != l.emailTag(email')
    ensures
      var (after, _) := Login(counters, l.IpLimit(ip), l.EmailLimit(email), read, atIp, atEmail, f, g);
      && SameAt(after, counters, Key(l.IpLimit(ip').base, bucket))
      && SameAt(after, counters, Key(l.EmailLimit(email').base, bucket))
      && Login(after, l.IpLimit(ip'), l.EmailLimit(email'), read', atIp', atEmail', f', g').1
         == Login(counters, l.IpLimit(ip'), l.EmailLimit(email'), read', atIp', atEmail', f', g').1
  {
    var a, e, a', e' := l.IpLimit(ip), l.EmailLimit(email), l.IpLimit(ip'), l.EmailLimit(email');
    LoginCountersApart(l, ip, ip', email, email');
    LoginCountersApart(l, ip', ip, email', email);
    LoginCountersApart(l, ip, ip', email', email);
    LoginCountersApart(l, ip', ip, email, email');
    hide Bucket, Key;
    assert a.base != a'.base && e.base != e'.base && a.base != e'.base && e.base != a'.base && a'.base != e'.base;
    hide l.IpLimit, l.EmailLimit;
    LoginElsewhere(counters, a, e, read, atIp, atEmail, f, g, a'.base, bucket);
    LoginElsewhere(counters, a, e, read, atIp, atEmail, f, g, e'.base, bucket);
    LoginElsewhere(counters, a, e, read, atIp, atEmail, f, g, a'.base, Bucket(read'));
    LoginElsewhere(counters, a, e, read, atIp, atEmail, f, g, e'.base, Bucket(read'));
    var after := Login(counters, a, e, read, atIp, atEmail, f, g).0;
    SameLogin(after, counters, a', e', read', atIp', atEmail', f', g');
  }

  /** The same for a limiter by address alone. */
  lemma OtherAddressesDoNotMatter(l: IPRateLimiter, counters: Counters, ip: Option<string>, ip': Option<string>,
                                  read: nat, at: nat, f: Fault, read': nat, at': nat, f': Fault)
    requires ip != ip' && ip.Some? && ip'.Some?
    ensures
      var after := After(counters, l.LimitOf(ip), read, at, f);
      Passes(after, l.LimitOf(ip'), read', at', f') <==> Passes(counters, l.LimitOf(ip'), read', at', f')
  {
    AddressCountersApart(l, ip, ip');
    DifferentKeys(l.LimitOf(ip).base, l.LimitOf(ip').base, Bucket(read), Bucket(read'));
    hide Key, Bucket;
    AfterElsewhere(counters, counters, l.LimitOf(ip), read, at, f, Key(l.LimitOf(ip').base, Bucket(read')));
    SameDecision(After(counters, l.LimitOf(ip), read, at, f), counters, l.LimitOf(ip'), read', at', f');
  }

  lemma LoginElsewhere(counters: Counters, a: Limit, e: Limit, read: nat, atIp: nat, atEmail: nat, f: Fault, g: Fault,
                       base: string, bucket: nat)
    requires base != a.base && base != e.base
    ensures SameAt(Login(counters, a, e, read, atIp, atEmail, f, g).0, counters, Key(base, bucket))
  {
    DifferentKeys(a.base, base, Bucket(read), bucket);
    DifferentKeys(e.base, base, Bucket(read), bucket);
    hide Key, Bucket, After, Passes;
    AfterElsewhere(counters, counters, a, read, atIp, f, Key(base, bucket));
    AfterElsewhere(After(counters, a, read, atIp, f), counters, e, read, atEmail, g, Key(base, bucket));
  }

  lemma SameLogin(c: Counters, d: Counters, a: Limit, e: Limit, read: nat, atIp: nat, atEmail: nat, f: Fault, g: Fault)
    requires SameAt(c, d, Key(a.base, Bucket(read))) && SameAt(c, d, Key(e.base, Bucket(read))) && a.base != e.base
    ensures Login(c, a, e, read, atIp, atEmail, f, g).1 == Login(d, a, e, read, atIp, atEmail, f, g).1
  {
    DifferentKeys(a.base, e.base, Bucket(read), Bucket(read));
    SameDecision(c, d, a, read, atIp, f);
    AfterElsewhere(c, d, a, read, atIp, f, Key(e.base, Bucket(read)));
    SameDecision(After(c, a, read, atIp, f), After(d, a, read, atIp, f), e, read, atEmail, g);
    hide Key, Bucket, After, Passes;
  }

  // ----- runs -----

  datatype State = State(now: nat, counters: Counters, desk: Desk)

  datatype Action =
    | Tick(dt: nat)
    | Sweep
    | Arrive(limits: seq<Limit>)
    | Try(i: nat, fault: Fault) // the next limit of the i-th pending request
    | Vanish(i: nat)            // its replica dies

  predicate Lets(s: State, i: nat, fault: Fault)
    requires CanTry(s.desk, i)
  {
    Passes(s.counters, LimitOf(s.desk, i), s.desk.pending[i].read, s.now, fault)
  }

  function Apply(s: State, a: Action): State {
    match a
    case Tick(dt) => s.(now := s.now + dt)
    case Sweep => s.(counters := Swept(s.counters, s.now))
    case Arrive(limits) => s.(desk := Enter(s.desk, Arrived(s.now, limits)))
    case Vanish(i) => if i < |s.desk.pending| then s.(desk := Leave(s.desk, i)) else s
    case Try(i, fault) =>
      if !CanTry(s.desk, i) then s
      else
        s.(counters := Incremented(s.counters, KeyOf(s.desk, i), s.now, fault),
           desk := Settle(s.desk, i, fault, Lets(s, i, fault)))
  }

  /** No request takes longer than `delay` from reading its clock to an increment. */
  predicate Prompt(s: State, a: Action, delay: int) {
    a.Try? && CanTry(s.desk, a.i) ==> s.now - s.desk.pending[a.i].read <= delay
  }

  predicate Run(s: State, actions: seq<Action>, delay: int)
    decreases |actions|
  {
    actions == [] || (Prompt(s, actions[0], delay) && Run(Apply(s, actions[0]), actions[1..], delay))
  }

  function Exec(s: State, actions: seq<Action>): State
    decreases |actions|
  {
    if actions == [] then s else Exec(Apply(s, actions[0]), actions[1..])
  }

  function Start(now: nat): State {
    State(now, map[], EMPTY_DESK)
  }

  /** The longest delay for which a counter is sure to outlive its minute's requests. */
  const MAX_DELAY := MINUTE + MILLISECOND

  /** The last instant at which a prompt request of the minute may come. */
  function LastCall(bucket: nat): int {
    (bucket + 2) * MINUTE + MILLISECOND - 1
  }

  lemma LastAliveIsLate(bucket: nat, now: int)
    requires bucket * MINUTE <= now
    ensures LastCall(bucket) <= LastAlive(now)
  {
    var spare := now - bucket * MINUTE;
    var n := (bucket + 2) * 60_000;
    assert now + COUNTER_TTL == n * MILLISECOND + spare;
    assert (now + COUNTER_TTL) / MILLISECOND >= n;
  }

  /** While requests of the minute may still arrive, its counter is the number of
      increments applied, and will not expire before they have all come. */
  predicate Counts(s: State, base: string, bucket: nat) {
    var n := Applied(s.desk.hits, base, bucket);
    var key := Key(base, bucket);
    s.now <= LastCall(bucket) ==>
      if n == 0 then key !in s.counters
      else key in s.counters && s.counters[key].val == n
           && (s.counters[key].expires.Some? ==> s.counters[key].expires.value >= LastCall(bucket))
  }

  predicate ClocksRead(s: State) {
    forall r | r in s.desk.pending :: r.read <= s.now
  }

  lemma ApplyKeepsClocks(s: State, a: Action)
    requires ClocksRead(s)
    ensures ClocksRead(Apply(s, a))
  {
    forall r | r in Apply(s, a).desk.pending
      ensures r.read <= Apply(s, a).now
    {
      if a.Try? && CanTry(s.desk, a.i) {
        assert s.desk.pending[a.i] in s.desk.pending;
      }
    }
  }

  /** A prompt request comes while its counter lives. */
  lemma PromptIsInTime(s: State, a: Action)
    requires ClocksRead(s) && a.Try? && CanTry(s.desk, a.i) && Prompt(s, a, MAX_DELAY)
    ensures
      var bucket := Bucket(s.desk.pending[a.i].read);
      bucket * MINUTE <= s.now <= LastCall(bucket)
  {
    assert s.desk.pending[a.i] in s.desk.pending;
    BucketBounds(s.desk.pending[a.i].read);
  }

  lemma IncrementKeepsCounts(counters: Counters, key: string, n: nat, now: int, fault: Fault, until: int)
    requires now <= until <= LastAlive(now)
    requires if n == 0 then key !in counters
             else key in counters && counters[key].val == n
                  && (counters[key].expires.Some? ==> counters[key].expires.value >= until)
    ensures Bumped(counters, key, now) == n + 1
    ensures
      var after := Incremented(counters, key, now, fault);
      if fault.Refused? then after == counters
      else key in after && after[key].val == n + 1
           && (after[key].expires.Some? ==> after[key].expires.value >= until)
  {
  }

  lemma TryIs(s: State, a: Action)
    requires a.Try? && CanTry(s.desk, a.i)
    ensures
      var t := Apply(s, a);
      var h := HitOf(s.desk, a.i, a.fault, Lets(s, a.i, a.fault));
      && t.now == s.now && t.desk.hits == s.desk.hits + [h] && h.fault == a.fault
      && t.counters == Incremented(s.counters, Key(h.limit.base, h.bucket), s.now, a.fault)
  {
  }

  lemma TryKeepsCounts(s: State, a: Action, base: string, bucket: nat)
    requires ClocksRead(s) && a.Try? && CanTry(s.desk, a.i) && Prompt(s, a, MAX_DELAY) && Counts(s, base, bucket)
    ensures Counts(Apply(s, a), base, bucket)
  {
    hide Apply, Key, Incremented, Applied, Bumped, ClocksRead, Prompt, Lets;
    var key := Key(base, bucket);
    var h := HitOf(s.desk, a.i, a.fault, Lets(s, a.i, a.fault));
    TryIs(s, a);
    AppliedGrows(s.desk.hits, h, base, bucket);
    PromptIsInTime(s, a);
    if h.limit.base == base && h.bucket == bucket {
      LastAliveIsLate(bucket, s.now);
      IncrementKeepsCounts(s.counters, key, Applied(s.desk.hits, base, bucket), s.now, a.fault, LastCall(bucket));
    } else {
      if Key(h.limit.base, h.bucket) == key {
        KeyInjective(h.limit.base, h.bucket, base, bucket);
      }
      OtherKeysStay(s.counters, Key(h.limit.base, h.bucket), s.now, a.fault, key);
    }
  }

  lemma OtherKeysStay(counters: Counters, key: string, now: int, fault: Fault, other: string)
    requires key != other
    ensures
      var after := Incremented(counters, key, now, fault);
      (other in after <==> other in counters) && (other in after ==> after[other] == counters[other])
  {
  }

  lemma ApplyKeepsCounts(s: State, a: Action, base: string, bucket: nat)
    requires ClocksRead(s) && Prompt(s, a, MAX_DELAY) && Counts(s, base, bucket)
    ensures Counts(Apply(s, a), base, bucket)
  {
    hide Key;
    if a.Try? && CanTry(s.desk, a.i) {
      TryKeepsCounts(s, a, base, bucket);
    }
  }

  lemma TryIsJustified(s: State, a: Action)
    requires ClocksRead(s) && a.Try? && CanTry(s.desk, a.i) && Prompt(s, a, MAX_DELAY)
    requires Counts(s, LimitOf(s.desk, a.i).base, Bucket(s.desk.pending[a.i].read))
    ensures Justified(s.desk.hits, HitOf(s.desk, a.i, a.fault, Lets(s, a.i, a.fault)))
  {
    PromptIsInTime(s, a);
  }

  lemma {:induction false} RunCounts(s: State, actions: seq<Action>, delay: int, base: string, bucket: nat)
    requires Run(s, actions, delay) && delay <= MAX_DELAY && ClocksRead(s) && Counts(s, base, bucket)
    ensures ClocksRead(Exec(s, actions)) && Counts(Exec(s, actions), base, bucket)
    decreases |actions|
  {
    if actions != [] {
      hide Apply, Counts, ClocksRead;
      ApplyKeepsClocks(s, actions[0]);
      ApplyKeepsCounts(s, actions[0], base, bucket);
      RunCounts(Apply(s, actions[0]), actions[1..], delay, base, bucket);
    }
  }

  lemma {:induction false} RunSplits(s: State, actions: seq<Action>, delay: int)
    requires actions != []
    ensures Exec(s, actions) == Apply(Exec(s, actions[..|actions| - 1]), actions[|actions| - 1])
    ensures Run(s, actions, delay) ==>
              Run(s, actions[..|actions| - 1], delay)
              && Prompt(Exec(s, actions[..|actions| - 1]), actions[|actions| - 1], delay)
    decreases |actions|
  {
    hide Apply, Prompt;
    var last := |actions| - 1;
    if last == 0 {
      assert actions[1..] == [] && actions[..0] == [];
    } else {
      assert actions[..last][1..] == actions[1..][..last - 1];
      assert actions[1..][last - 1] == actions[last];
      RunSplits(Apply(s, actions[0]), actions[1..], delay);
    }
  }

  /** The counters decide as a log of all increments would: a request is refused
      exactly if the cache answered and at least `cap` increments had been applied
      to its base in its minute. No expiry, sweep or half-done command shows. */
  lemma {:induction false} DecisionsAreExact(now: nat, actions: seq<Action>, delay: int)
    requires Run(Start(now), actions, delay) && delay <= MAX_DELAY
    ensures Exact(Exec(Start(now), actions).desk.hits)
    decreases |actions|
  {
    if actions != [] {
      hide Exact, Counts, ClocksRead, Prompt;
      var init, a := actions[..|actions| - 1], actions[|actions| - 1];
      RunSplits(Start(now), actions, delay);
      DecisionsAreExact(now, init, delay);
      var s := Exec(Start(now), init);
      if a.Try? && CanTry(s.desk, a.i) {
        StartCounts(now, LimitOf(s.desk, a.i).base, Bucket(s.desk.pending[a.i].read));
        RunCounts(Start(now), init, delay, LimitOf(s.desk, a.i).base, Bucket(s.desk.pending[a.i].read));
        LessDelay(s, a, delay);
        TryIsJustified(s, a);
        ExactGrows(s.desk.hits, HitOf(s.desk, a.i, a.fault, Lets(s, a.i, a.fault)));
      }
    } else {
      assert Exec(Start(now), actions).desk.hits == [];
    }
  }

  lemma StartCounts(now: nat, base: string, bucket: nat)
    ensures ClocksRead(Start(now)) && Counts(Start(now), base, bucket)
  {
  }

  lemma LessDelay(s: State, a: Action, delay: int)
    requires Prompt(s, a, delay) && delay <= MAX_DELAY
    ensures Prompt(s, a, MAX_DELAY)
  {
  }

  lemma ApplyKeepsAccounts(s: State, a: Action, limit: Limit, bucket: nat)
    requires Accounted(s.desk, limit, bucket)
    ensures Accounted(Apply(s, a).desk, limit, bucket)
  {
    match a
    case Try(i, fault) =>
      if CanTry(s.desk, i) {
        SettleKeepsAccounts(s.desk, i, fault, Lets(s, i, fault), limit, bucket);
      }
    case Arrive(limits) => EnterKeepsAccounts(s.desk, s.now, limits, limit, bucket);
    case Vanish(i) =>
      if i < |s.desk.pending| {
        LeaveKeepsAccounts(s.desk, i, limit, bucket);
      }
    case _ =>
  }

  lemma {:induction false} RunAccounts(s: State, actions: seq<Action>, limit: Limit, bucket: nat)
    requires Accounted(s.desk, limit, bucket) && AllFinished(s.desk)
    ensures Accounted(Exec(s, actions).desk, limit, bucket) && AllFinished(Exec(s, actions).desk)
    decreases |actions|
  {
    if actions != [] {
      ApplyKeepsAccounts(s, actions[0], limit, bucket);
      assert AllFinished(Apply(s, actions[0]).desk);
      hide Apply, Accounted, AllFinished;
      RunAccounts(Apply(s, actions[0]), actions[1..], limit, bucket);
    }
  }

  /** In every run in which no request dawdles for more than a minute and a nanosecond,
      each limit admits at most `cap` requests a minute, plus one for every error of the
      cache. A login is under two limits and so is held by both. */
  lemma AdmittedWithinCap(now: nat, actions: seq<Action>, delay: int, limit: Limit, bucket: nat)
    requires Run(Start(now), actions, delay) && delay <= MAX_DELAY
    ensures
      var d := Exec(Start(now), actions).desk;
      Admitted(d.admitted, limit, bucket * MINUTE, (bucket + 1) * MINUTE)
      <= AtLeastZero(limit.cap) + Errors(d.hits, limit, bucket)
  {
    DecisionsAreExact(now, actions, delay);
    assert Accounted(EMPTY_DESK, limit, bucket);
    RunAccounts(Start(now), actions, limit, bucket);
    DeskWithinCap(Exec(Start(now), actions).desk, limit, bucket);
  }

  /** So any sixty seconds see at most twice the cap, plus the errors of the two
      minutes they touch. */
  lemma AdmittedInWindow(now: nat, actions: seq<Action>, delay: int, limit: Limit, from: nat)
    requires Run(Start(now), actions, delay) && delay <= MAX_DELAY
    ensures
      var d := Exec(Start(now), actions).desk;
      Admitted(d.admitted, limit, from, from + MINUTE)
      <= 2 * AtLeastZero(limit.cap) + Errors(d.hits, limit, Bucket(from)) + Errors(d.hits, limit, Bucket(from) + 1)
  {
    var d := Exec(Start(now), actions).desk;
    var bucket := Bucket(from);
    BucketBounds(from);
    AdmittedCovered(d.admitted, limit, from, from + MINUTE, bucket);
    AdmittedWithinCap(now, actions, delay, limit, bucket);
    AdmittedWithinCap(now, actions, delay, limit, bucket + 1);
  }

  // ----- how long a request may take -----

  lemma {:induction false} ExecConcat(s: State, a: seq<Action>, b: seq<Action>, delay: int)
    ensures Exec(s, a + b) == Exec(Exec(s, a), b)
    ensures Run(s, a, delay) && Run(Exec(s, a), b, delay) ==> Run(s, a + b, delay)
    decreases |a|
  {
    hide Apply, Prompt;
    if a == [] {
      assert a + b == b;
    } else {
      assert (a + b)[1..] == a[1..] + b;
      ExecConcat(Apply(s, a[0]), a[1..], b, delay);
    }
  }

  lemma {:induction false} ExecStep(s: State, a: Action, rest: seq<Action>, delay: int)
    ensures Exec(s, [a] + rest) == Exec(Apply(s, a), rest)
    ensures Prompt(s, a, delay) && Run(Apply(s, a), rest, delay) ==> Run(s, [a] + rest, delay)
  {
    hide Apply, Prompt;
    assert ([a] + rest)[1..] == rest;
  }

  lemma {:induction false} ExecNone(s: State, delay: int)
    ensures Exec(s, []) == s && Run(s, [], delay)
  {
  }

  /** A request with a single limit, when nobody else is about. */
  function Visit(limit: Limit, wait: nat): seq<Action> {
    [Arrive([limit]), Tick(wait), Try(0, Fine)]
  }

  lemma {:induction false} VisitIs(s: State, limit: Limit, wait: nat, delay: int)
    requires s.desk.pending == [] && wait <= delay
    ensures
      var pass := Passes(s.counters, limit, s.now, s.now + wait, Fine);
      var t := Exec(s, Visit(limit, wait));
      && Run(s, Visit(limit, wait), delay)
      && t.now == s.now + wait && t.counters == After(s.counters, limit, s.now, s.now + wait, Fine)
      && t.desk == Desk([], if pass then s.desk.admitted + [Request(s.now, [limit], 1, None)] else s.desk.admitted,
                        s.desk.hits + [Hit(limit, Bucket(s.now), Fine, pass)])
  {
    var s1 := Apply(s, Arrive([limit]));
    assert s1.desk.pending == [Arrived(s.now, [limit])];
    var s2 := Apply(s1, Tick(wait));
    assert CanTry(s2.desk, 0) && LimitOf(s2.desk, 0) == limit && Without(s2.desk.pending, 0) == [];
    var s3 := Apply(s2, Try(0, Fine));
    assert Prompt(s, Arrive([limit]), delay) && Prompt(s1, Tick(wait), delay) && Prompt(s2, Try(0, Fine), delay);
    ExecNone(s3, delay);
    ExecStep(s2, Try(0, Fine), [], delay);
    ExecStep(s1, Tick(wait), [Try(0, Fine)], delay);
    ExecStep(s, Arrive([limit]), [Tick(wait)] + [Try(0, Fine)], delay);
    assert [Arrive([limit])] + ([Tick(wait)] + [Try(0, Fine)]) == Visit(limit, wait);
    assert [Try(0, Fine)] + [] == [Try(0, Fine)];
  }

  /** `k` such requests at one instant. */
  function Burst(limit: Limit, k: nat): seq<Action> {
    if k == 0 then [] else Burst(limit, k - 1) + Visit(limit, 0)
  }

  ghost predicate Spent(s: State, limit: Limit, k: nat) {
    && s.now == 0 && s.desk.pending == []
    && s.counters == (if k == 0 then map[] else map[Key(limit.base, 0) := Counter(k, Some(LastAlive(0)))])
    && Admitted(s.desk.admitted, limit, 0, MINUTE) == k
    && Errors(s.desk.hits, limit, 0) == 0
  }

  lemma ErrorsGrow(hits: seq<Hit>, h: Hit, limit: Limit, bucket: nat)
    ensures Errors(hits + [h], limit, bucket)
            == Errors(hits, limit, bucket) + if h.limit == limit && h.bucket == bucket && !h.fault.Fine? then 1 else 0
  {
    assert (hits + [h])[..|hits|] == hits;
  }

  lemma {:induction false} BurstSpends(limit: Limit, k: nat, delay: int)
    requires k <= limit.cap && delay >= 0
    ensures Run(Start(0), Burst(limit, k), delay) && Spent(Exec(Start(0), Burst(limit, k)), limit, k)
  {
    if k == 0 {
      ExecNone(Start(0), delay);
    } else {
      BurstSpends(limit, k - 1, delay);
      var s := Exec(Start(0), Burst(limit, k - 1));
      SpendOne(s, limit, k - 1, delay);
      ExecConcat(Start(0), Burst(limit, k - 1), Visit(limit, 0), delay);
      hide Exec, Run, Visit, Spent;
    }
  }

  lemma {:induction false} SpendOne(s: State, limit: Limit, k: nat, delay: int)
    requires Spent(s, limit, k) && k < limit.cap && delay >= 0
    ensures Run(s, Visit(limit, 0), delay) && Spent(Exec(s, Visit(limit, 0)), limit, k + 1)
  {
    hide Visit, Exec, Run, Key;
    VisitIs(s, limit, 0, delay);
    AdmittedGrows(s.desk.admitted, Request(0, [limit], 1, None), limit, 0, MINUTE);
    ErrorsGrow(s.desk.hits, Hit(limit, 0, Fine, true), limit, 0);
    hide Admitted, Errors;
  }

  /** The last nanosecond of the minute, and an increment `delay` later. */
  function Dawdle(limit: Limit, delay: nat): seq<Action>
    requires limit.cap >= 1
  {
    Burst(limit, limit.cap) + ([Tick(MINUTE - 1)] + Visit(limit, delay))
  }

  lemma {:induction false} DawdlerExceedsCap(limit: Limit, delay: nat)
    requires limit.cap >= 1 && delay > MAX_DELAY
    ensures
      var d := Exec(Start(0), Dawdle(limit, delay)).desk;
      && Run(Start(0), Dawdle(limit, delay), delay)
      && Admitted(d.admitted, limit, 0, MINUTE) == limit.cap + 1
      && Errors(d.hits, limit, 0) == 0
  {
    BurstSpends(limit, limit.cap, delay);
    var s := Exec(Start(0), Burst(limit, limit.cap));
    var late := Apply(s, Tick(MINUTE - 1));
    assert Bucket(MINUTE - 1) == 0;
    assert Prompt(s, Tick(MINUTE - 1), delay);
    assert Passes(late.counters, limit, late.now, late.now + delay, Fine);
    VisitIs(late, limit, delay, delay);
    ExecStep(s, Tick(MINUTE - 1), Visit(limit, delay), delay);
    ExecConcat(Start(0), Burst(limit, limit.cap), [Tick(MINUTE - 1)] + Visit(limit, delay), delay);
    AdmittedGrows(s.desk.admitted, Request(MINUTE - 1, [limit], 1, None), limit, 0, MINUTE);
    ErrorsGrow(s.desk.hits, Hit(limit, 0, Fine, true), limit, 0);
    hide Exec, Run, Visit, Burst, Admitted, Errors, Key, Bucket;
  }

  /** Every run in which no request takes longer than `delay` keeps the cap. */
  ghost predicate KeepsCap(limit: Limit, delay: int) {
    forall now, actions, bucket: nat | Run(Start(now), actions, delay) ::
      var d := Exec(Start(now), actions).desk;
      Admitted(d.admitted, limit, bucket * MINUTE, (bucket + 1) * MINUTE)
      <= AtLeastZero(limit.cap) + Errors(d.hits, limit, bucket)
  }

  /** The delay that the two-minute TTL leaves is exactly a minute and a millisecond. */
  lemma {:induction false} CapHoldsIffPrompt(limit: Limit, delay: int)
    requires limit.cap >= 1
    ensures KeepsCap(limit, delay) <==> delay <= MAX_DELAY
  {
    hide Run, Exec, Admitted, Errors;
    if delay <= MAX_DELAY {
      forall now, actions, bucket: nat | Run(Start(now), actions, delay)
        ensures
          var d := Exec(Start(now), actions).desk;
          Admitted(d.admitted, limit, bucket * MINUTE, (bucket + 1) * MINUTE)
          <= AtLeastZero(limit.cap) + Errors(d.hits, limit, bucket)
      {
        AdmittedWithinCap(now, actions, delay, limit, bucket);
      }
    } else {
      DawdlerExceedsCap(limit, delay);
    }
  }

  // ----- an undisturbed login -----

  lemma SettleLast(d: Desk, r: Request, fault: Fault, passed: bool)
    requires r.next < |r.limits|
    ensures
      var p := |d.pending|;
      var e := Enter(d, r);
      var r' := r.(next := r.next + 1, cell := None);
      && CanTry(e, p) && LimitOf(e, p) == r.limits[r.next] && e.pending[p] == r
      && Settle(e, p, fault, passed).(hits := []) ==
           if !passed then d.(hits := [])
           else if r'.next == |r'.limits| then Desk(d.pending, d.admitted + [r'], [])
           else Enter(d, r').(hits := [])
  {
    var e := Enter(d, r);
    assert Without(e.pending, |d.pending|) == d.pending;
    var r' := r.(next := r.next + 1, cell := None);
    assert e.pending[|d.pending| := r'] == d.pending + [r'];
  }

  /** A login whom nobody disturbs does in the step machine what Allow does: the same
      counters, and admitted exactly if allowed. */
  lemma {:induction false} UndisturbedLogin(s: State, ip: Limit, email: Limit, wait: nat, more: nat, ipFault: Fault,
                                            emailFault: Fault)
    ensures
      var p := |s.desk.pending|;
      var atIp := s.now + wait;
      var t := Apply(Apply(Apply(s, Arrive([ip, email])), Tick(wait)), Try(p, ipFault));
      var u := Apply(Apply(t, Tick(more)), Try(p, emailFault));
      var (counters, outcome) := Login(s.counters, ip, email, s.now, atIp, atIp + more, ipFault, emailFault);
      && u.counters == counters && u.desk.pending == s.desk.pending
      && u.desk.admitted == if outcome.Allowed? then s.desk.admitted + [Request(s.now, [ip, email], 2, None)]
          else s.desk.admitted
  {
    hide Incremented, Bumped, Key, Bucket;
    var r := Arrived(s.now, [ip, email]);
    SettleLast(s.desk, r, ipFault, Passes(s.counters, ip, s.now, s.now + wait, ipFault));
    var t := Apply(Apply(Apply(s, Arrive([ip, email])), Tick(wait)), Try(|s.desk.pending|, ipFault));
    if Passes(s.counters, ip, s.now, s.now + wait, ipFault) {
      var r' := r.(next := 1);
      var d := s.desk.(hits := t.desk.hits);
      assert t.desk == Enter(d, r');
      SettleLast(d, r', emailFault, Passes(t.counters, email, s.now, s.now + wait + more, emailFault));
    }
  }
}
