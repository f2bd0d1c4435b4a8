/** The circuit breaker, and what its counters say about the results so far in
    every interleaving of its locked sections. */
module CircuitBreaker {
  datatype Mode = Closed | Open | HalfOpen

  datatype Config = Config(maxFailures: int, resetTimeout: int, successThreshold: int)

  datatype Breaker = Breaker(mode: Mode, failures: nat, successes: nat, lastFailTime: int)

  const NEW_BREAKER := Breaker(Closed, 0, 0, 0)

  predicate TimedOut(cfg: Config, b: Breaker, now: int) {
    now - b.lastFailTime > cfg.resetTimeout
  }

  /** The write section of canExecute: look again, then let the test requests through. */
  function HalfOpened(cfg: Config, b: Breaker, now: int): Breaker {
    if b.mode.Open? && TimedOut(cfg, b, now) then b.(mode := HalfOpen, successes := 0) else b
  }

  function Recorded(cfg: Config, b: Breaker, ok: bool, now: int): Breaker {
    if ok then
      var b := b.(failures := 0);
      if !b.mode.HalfOpen? then b
      else if b.successes + 1 >= cfg.successThreshold then b.(mode := Closed, successes := 0)
      else b.(successes := b.successes + 1)
    else
      var opens := (b.mode.Closed? && b.failures + 1 >= cfg.maxFailures) || b.mode.HalfOpen?;
      Breaker(if opens then Open else b.mode, b.failures + 1, 0, now)
  }

  class CircuitBreaker {
    const config: Config
    var mode: Mode
    var failures: nat
    var successes: nat
    var lastFailTime: int

    constructor (config: Config)
      ensures this.config == config && Stats() == NEW_BREAKER
      ensures mode == Closed && failures == successes == 0
    {
      this.config := config;
      mode, failures, successes, lastFailTime := Closed, 0, 0, 0;
    }

    function Stats(): Breaker
      reads this
    {
      Breaker(mode, failures, successes, lastFailTime)
    }

    /** Undisturbed by others; `seen` and `checked` are the clock at the two looks at it. */
    method CanExecute(seen: int, checked: int) returns (admitted: bool)
      requires seen <= checked
      modifies this
      ensures admitted <==> !old(mode).Open? || seen > old(lastFailTime) + config.resetTimeout
      ensures mode == if admitted && old(mode).Open? then HalfOpen else old(mode)
      ensures successes == if admitted && old(mode).Open? then 0 else old(successes)
      ensures failures == old(failures) && lastFailTime == old(lastFailTime)
    {
      match mode {
        case Closed => return true;
        case HalfOpen => return true;
        case Open =>
          if seen - lastFailTime > config.resetTimeout {
            if mode.Open? && checked - lastFailTime > config.resetTimeout {
              mode := HalfOpen;
              successes := 0;
            }
            return mode.HalfOpen?;
          }
          return false;
      }
    }

    method RecordResult(ok: bool, now: int)
      modifies this
      ensures Stats() == Recorded(config, old(Stats()), ok, now)
      ensures failures == (if ok then 0 else old(failures) + 1)
      ensures lastFailTime == (if ok then old(lastFailTime) else now)
      ensures ok && old(mode).HalfOpen? ==>
                if old(successes) + 1 < config.successThreshold then mode == HalfOpen && successes == old(successes) + 1
                else mode == Closed && successes == 0
      ensures ok && !old(mode).HalfOpen? ==> mode == old(mode) && successes == old(successes)
      ensures !ok ==>
                && successes == 0
                && mode == if old(mode).Closed? && old(failures) + 1 < config.maxFailures then Closed else Open
    {
      if ok {
        failures := 0;
        if mode.HalfOpen? {
          successes := successes + 1;
          if successes >= config.successThreshold {
            mode := Closed;
            successes := 0;
          }
        }
      } else {
        failures := failures + 1;
        lastFailTime := now;
        successes := 0;
        if mode.Closed? && failures >= config.maxFailures {
          mode := Open;
        } else if mode.HalfOpen? {
          mode := Open;
        }
      }
    }

    /** `ok` is the outcome of the protected function, known if it is run. */
    method Execute(seen: int, checked: int, ok: bool, done: int) returns (ran: bool)
      requires seen <= checked
      modifies this
      ensures ran <==> !old(mode).Open? || seen > old(lastFailTime) + config.resetTimeout
      ensures !ran ==> Stats() == old(Stats())
      ensures ran && ok ==>
                var probed := if old(mode).HalfOpen? then old(successes) + 1 else 1;
                && failures == 0 && lastFailTime == old(lastFailTime)
                && if old(mode).Closed? then mode == Closed && successes == old(successes)
                   else if probed < config.successThreshold then mode == HalfOpen && successes == probed
                   else mode == Closed && successes == 0
      ensures ran && !ok ==>
                && failures == old(failures) + 1 && lastFailTime == done && successes == 0
                && mode == if old(mode).Closed? && failures < config.maxFailures then Closed else Open
    {
      ran := CanExecute(seen, checked);
      if ran {
        RecordResult(ok, done);
      }
    }
  }

  // ----- every interleaving -----

  /** Where a caller stands between the locked sections of Execute. */
  datatype Caller = SawTimeout | Rechecking | Running

  datatype State = State(
    now: int,
    b: Breaker,
    callers: map<nat, Caller>,
    results: seq<bool>,    // every recorded result, oldest first
    halfOpenSince: nat,    // how many results there were when the breaker last became half-open
    openedAt: int)         // when it last opened

  datatype Action =
    | Tick(dt: nat)
    | Ask(pid: nat)              // canExecute's first read
    | Upgrade(pid: nat)          // its write section
    | Recheck(pid: nat)          // its last read
    | Finish(pid: nat, ok: bool) // recordResult
    | Abandon(pid: nat)          // the protected function never returns

  function Apply(cfg: Config, s: State, a: Action): State {
    match a
    case Tick(dt) => s.(now := s.now + dt)
    case Ask(pid) =>
      if pid in s.callers then s
      else if !s.b.mode.Open? then s.(callers := s.callers[pid := Running])
      else if TimedOut(cfg, s.b, s.now) then s.(callers := s.callers[pid := SawTimeout])
      else s
    case Upgrade(pid) =>
      if pid in s.callers && s.callers[pid].SawTimeout? then
        var b := HalfOpened(cfg, s.b, s.now);
        s.(b := b, callers := s.callers[pid := Rechecking],
           halfOpenSince := if b.mode.HalfOpen? && !s.b.mode.HalfOpen? then |s.results| else s.halfOpenSince)
      else s
    case Recheck(pid) =>
      if pid in s.callers && s.callers[pid].Rechecking? then
        s.(callers := if s.b.mode.HalfOpen? then s.callers[pid := Running] else s.callers - {pid})
      else s
    case Finish(pid, ok) =>
      if pid in s.callers && s.callers[pid].Running? then
        var b := Recorded(cfg, s.b, ok, s.now);
        s.(b := b, callers := s.callers - {pid}, results := s.results + [ok],
           openedAt := if b.mode.Open? && !s.b.mode.Open? then s.now else s.openedAt)
      else s
    case Abandon(pid) => s.(callers := s.callers - {pid})
  }

  /** The action is a deciding read of canExecute that lets its caller run. */
  predicate Admits(cfg: Config, s: State, a: Action) {
    (a.Ask? || a.Recheck?)
    && a.pid in Apply(cfg, s, a).callers && Apply(cfg, s, a).callers[a.pid].Running?
    && !(a.pid in s.callers && s.callers[a.pid].Running?)
  }

  function Exec(cfg: Config, s: State, actions: seq<Action>): State
    decreases |actions|
  {
    if actions == [] then s else Exec(cfg, Apply(cfg, s, actions[0]), actions[1..])
  }

  function Start(now: int): State {
    State(now, NEW_BREAKER, map[], [], 0, 0)
  }

  function TrailingFailures(results: seq<bool>): nat {
    if results == [] || results[|results| - 1] then 0 else 1 + TrailingFailures(results[..|results| - 1])
  }

  /** It counts the failures since the last success, all of them. */
  lemma {:induction false} TrailingFailuresAre(results: seq<bool>)
    ensures
      var n := TrailingFailures(results);
      && n <= |results| && (forall i | |results| - n <= i < |results| :: !results[i])
      && (n < |results| ==> results[|results| - n - 1])
  {
    if results != [] && !results[|results| - 1] {
      TrailingFailuresAre(results[..|results| - 1]);
    }
  }

  /** The counters against the history. */
  ghost predicate Inv(cfg: Config, s: State) {
    && s.b.failures == TrailingFailures(s.results)
    && (!s.b.mode.HalfOpen? ==> s.b.successes == 0)
    && (s.b.mode.HalfOpen? ==>
          && s.halfOpenSince + s.b.successes == |s.results|
          && (s.b.successes == 0 || s.b.successes < cfg.successThreshold)
          && forall i | s.halfOpenSince <= i < |s.results| :: s.results[i])
    && (s.b.mode.Closed? && cfg.maxFailures >= 1 ==> s.b.failures < cfg.maxFailures)
    && (s.b.mode.Open? ==> s.openedAt <= s.b.lastFailTime <= s.now)
  }

  lemma ApplyKeepsInv(cfg: Config, s: State, a: Action)
    requires Inv(cfg, s)
    ensures Inv(cfg, Apply(cfg, s, a))
  {
    if a.Finish? && a.pid in s.callers && s.callers[a.pid].Running? {
      var results := s.results + [a.ok];
      assert results[..|results| - 1] == s.results;
    }
  }

  lemma {:induction false} ExecKeepsInv(cfg: Config, s: State, actions: seq<Action>)
    requires Inv(cfg, s)
    ensures Inv(cfg, Exec(cfg, s, actions))
    decreases |actions|
  {
    if actions != [] {
      ApplyKeepsInv(cfg, s, actions[0]);
      ExecKeepsInv(cfg, Apply(cfg, s, actions[0]), actions[1..]);
    }
  }

  /** In every reachable state: failures is the length of the trailing run of
      failures; successes counts the results, all of them successes, since the
      breaker became half-open and is zero in the other modes; and a closed breaker
      has fewer failures than would open it. */
  lemma CountersMatchHistory(cfg: Config, start: int, actions: seq<Action>)
    ensures
      var s := Exec(cfg, Start(start), actions);
      && s.b.failures == TrailingFailures(s.results)
      && s.b.successes == (if s.b.mode.HalfOpen? then |s.results| - s.halfOpenSince else 0)
      && (s.b.mode.HalfOpen? ==> forall i | s.halfOpenSince <= i < |s.results| :: s.results[i])
      && (cfg.maxFailures >= 1 && s.b.mode.Closed? ==> s.b.failures < cfg.maxFailures)
  {
    ExecKeepsInv(cfg, Start(start), actions);
  }

  ghost predicate ClosedMeansFewFailures(cfg: Config, start: int) {
    forall actions: seq<Action> :: var b := Exec(cfg, Start(start), actions).b;
      b.mode.Closed? ==> b.failures < cfg.maxFailures
  }

  /** A limit below one is never kept: a fresh breaker is closed with as many
      failures as would open it. */
  lemma ClosedBoundNeedsLimit(cfg: Config, start: int)
    ensures ClosedMeansFewFailures(cfg, start) <==> cfg.maxFailures >= 1
  {
    if cfg.maxFailures >= 1 {
      forall actions: seq<Action>
        ensures var b := Exec(cfg, Start(start), actions).b; b.mode.Closed? ==> b.failures < cfg.maxFailures
      {
        CountersMatchHistory(cfg, start, actions);
      }
    } else {
      var none: seq<Action> := [];
      assert Exec(cfg, Start(start), none) == Start(start);
    }
  }

  predicate Finishes(s: State, a: Action) {
    a.Finish? && a.pid in s.callers && s.callers[a.pid].Running?
  }

  /** What each change of mode says about the history: a closed breaker opens exactly
      at a result that completes a run of maxFailures failures, a half-open one
      opens at the first failure and closes at the result that completes
      successThreshold successes, and an open one goes half-open only when the
      timeout has passed. */
  lemma TransitionsMatchHistory(cfg: Config, start: int, actions: seq<Action>, a: Action)
    ensures
      var s := Exec(cfg, Start(start), actions);
      var t := Apply(cfg, s, a);
      && (s.b.mode.Closed? ==>
            && !t.b.mode.HalfOpen?
            && (t.b.mode.Open? <==> Finishes(s, a) && !a.ok && TrailingFailures(t.results) >= cfg.maxFailures))
      && (s.b.mode.HalfOpen? ==>
            && (t.b.mode.Open? <==> Finishes(s, a) && !a.ok)
            && (t.b.mode.Closed? <==> Finishes(s, a) && a.ok && |t.results| - t.halfOpenSince >= cfg.successThreshold))
      && (s.b.mode.Open? && !t.b.mode.Open? ==>
            t.b.mode.HalfOpen? && a.Upgrade? && s.now > s.b.lastFailTime + cfg.resetTimeout)
  {
    var s := Exec(cfg, Start(start), actions);
    ExecKeepsInv(cfg, Start(start), actions);
    ApplyKeepsInv(cfg, s, a);
    if Finishes(s, a) {
      assert (s.results + [a.ok])[..|s.results|] == s.results;
    }
  }

  /** An open breaker stays open until the clock has passed its last failure by the
      timeout, however the callers interleave. */
  lemma {:induction false} StaysOpen(cfg: Config, s: State, t: int, actions: seq<Action>)
    requires s.b.mode.Open? && t <= s.b.lastFailTime <= s.now
    requires Exec(cfg, s, actions).now <= t + cfg.resetTimeout
    ensures Exec(cfg, s, actions).b.mode.Open? && t <= Exec(cfg, s, actions).b.lastFailTime
    decreases |actions|
  {
    if actions != [] {
      ClockGrows(cfg, Apply(cfg, s, actions[0]), actions[1..]);
      StaysOpen(cfg, Apply(cfg, s, actions[0]), t, actions[1..]);
    }
  }

  lemma {:induction false} ClockGrows(cfg: Config, s: State, actions: seq<Action>)
    ensures s.now <= Exec(cfg, s, actions).now
    decreases |actions|
  {
    if actions != [] {
      ClockGrows(cfg, Apply(cfg, s, actions[0]), actions[1..]);
    }
  }

  /** After the breaker opens at time T nothing is admitted before T + resetTimeout
      has passed: not by a first read, and not by the last read of a caller that
      saw an earlier timeout. */
  lemma NoAdmissionWhileOpen(cfg: Config, start: int, before: seq<Action>, opening: Action, after: seq<Action>,
                             a: Action)
    requires
      var s := Exec(cfg, Start(start), before);
      !s.b.mode.Open? && Apply(cfg, s, opening).b.mode.Open?
    ensures
      var tripped := Apply(cfg, Exec(cfg, Start(start), before), opening);
      var s := Exec(cfg, tripped, after);
      && tripped.openedAt == tripped.now
      && (s.now <= tripped.now + cfg.resetTimeout ==> s.b.mode.Open? && !Admits(cfg, s, a))
  {
    var s := Exec(cfg, Start(start), before);
    ExecKeepsInv(cfg, Start(start), before);
    var tripped := Apply(cfg, s, opening);
    ApplyKeepsInv(cfg, s, opening);
    if Exec(cfg, tripped, after).now <= tripped.now + cfg.resetTimeout {
      StaysOpen(cfg, tripped, tripped.now, after);
    }
  }

  /** A first read within the timeout refuses on the spot: the caller is not admitted later
      because others have tested the breaker meanwhile. */
  lemma RefusedAtOnce(cfg: Config, s: State, pid: nat)
    requires s.b.mode.Open? && s.now <= s.b.lastFailTime + cfg.resetTimeout
    ensures Apply(cfg, s, Ask(pid)) == s
  {
  }

  /** Once the timeout has passed, a caller whom nobody disturbs does get through. */
  lemma AdmissionAfterTimeout(cfg: Config, s: State, pid: nat)
    requires pid !in s.callers && s.b.mode.Open? && s.now > s.b.lastFailTime + cfg.resetTimeout
    ensures
      var s2 := Exec(cfg, s, [Ask(pid), Upgrade(pid)]);
      s2.b.mode.HalfOpen? && Admits(cfg, s2, Recheck(pid))
  {
    var s1 := Apply(cfg, s, Ask(pid));
    var s2 := Apply(cfg, s1, Upgrade(pid));
    assert Exec(cfg, s2, []) == s2;
    assert Exec(cfg, s1, [Upgrade(pid)]) == s2 by {
      assert [Upgrade(pid)][1..] == [];
    }
    assert [Ask(pid), Upgrade(pid)][1..] == [Upgrade(pid)];
  }

  /** The failure that tripped the breaker at `since` is still the last result. */
  predicate Waiting(cfg: Config, s: State, since: int, results: seq<bool>) {
    && s.results == results && s.b.lastFailTime == since
    && (s.b.mode.Open? || (s.b.mode.HalfOpen? && s.now > since + cfg.resetTimeout))
  }

  lemma ApplyKeepsWaiting(cfg: Config, s: State, a: Action, since: int)
    requires Waiting(cfg, s, since, s.results)
    ensures Waiting(cfg, Apply(cfg, s, a), since, s.results) || |Apply(cfg, s, a).results| > |s.results|
  {
  }

  lemma {:induction false} ResultsGrow(cfg: Config, s: State, actions: seq<Action>)
    ensures |s.results| <= |Exec(cfg, s, actions).results|
    decreases |actions|
  {
    if actions != [] {
      ResultsGrow(cfg, Apply(cfg, s, actions[0]), actions[1..]);
    }
  }

  lemma {:induction false} StaysWaiting(cfg: Config, s: State, actions: seq<Action>, since: int)
    requires Waiting(cfg, s, since, s.results) && |Exec(cfg, s, actions).results| == |s.results|
    ensures Waiting(cfg, Exec(cfg, s, actions), since, s.results)
    decreases |actions|
  {
    if actions != [] {
      hide Apply, Waiting;
      ApplyKeepsWaiting(cfg, s, actions[0], since);
      ResultsGrow(cfg, Apply(cfg, s, actions[0]), actions[1..]);
      SameResults(cfg, s, actions[0], since);
      StaysWaiting(cfg, Apply(cfg, s, actions[0]), actions[1..], since);
    }
  }

  lemma SameResults(cfg: Config, s: State, a: Action, since: int)
    ensures Waiting(cfg, Apply(cfg, s, a), since, s.results) ==> Apply(cfg, s, a).results == s.results
  {
    hide Apply;
  }

  lemma ThreeActions(cfg: Config, s: State, a: Action, b: Action, c: Action)
    ensures Exec(cfg, s, [a, b, c]) == Apply(cfg, Apply(cfg, Apply(cfg, s, a), b), c)
  {
    hide Apply;
    assert [a, b, c][1..] == [b, c] && [b, c][1..] == [c] && [c][1..] == [];
    var s1 := Apply(cfg, s, a);
    var s2 := Apply(cfg, s1, b);
    var s3 := Apply(cfg, s2, c);
    assert Exec(cfg, s3, []) == s3 == Exec(cfg, s2, [c]);
    assert Exec(cfg, s1, [b, c]) == Exec(cfg, s2, [c]);
  }

  /** The two bounds meet: after an opening with no later result, a caller whom nobody
      disturbs is let through at every clock past the timeout, and at no other. */
  lemma AdmittedIffTimeoutPassed(cfg: Config, start: int, before: seq<Action>, opening: Action, after: seq<Action>,
                                 pid: nat)
    requires
      var s := Exec(cfg, Start(start), before);
      var tripped := Apply(cfg, s, opening);
      var t := Exec(cfg, tripped, after);
      && !s.b.mode.Open? && tripped.b.mode.Open?
      && |t.results| == |tripped.results| && pid !in t.callers
    ensures
      var tripped := Apply(cfg, Exec(cfg, Start(start), before), opening);
      var t := Exec(cfg, tripped, after);
      var asked := Exec(cfg, t, [Ask(pid), Upgrade(pid), Recheck(pid)]);
      (pid in asked.callers && asked.callers[pid].Running?) <==> t.now > tripped.now + cfg.resetTimeout
  {
    var s := Exec(cfg, Start(start), before);
    var tripped := Apply(cfg, s, opening);
    assert Waiting(cfg, tripped, tripped.now, tripped.results);
    StaysWaiting(cfg, tripped, after, tripped.now);
    var t := Exec(cfg, tripped, after);
    ThreeActions(cfg, t, Ask(pid), Upgrade(pid), Recheck(pid));
    hide Exec;
  }

  /** A caller whom nobody disturbs does in the step machine what Execute does. */
  lemma UndisturbedExecute(cfg: Config, s: State, pid: nat, ok: bool)
    requires pid !in s.callers
    ensures
      var asked := Exec(cfg, s, [Ask(pid), Upgrade(pid), Recheck(pid)]);
      var t := Apply(cfg, asked, Finish(pid, ok));
      var ran := !s.b.mode.Open? || s.now > s.b.lastFailTime + cfg.resetTimeout;
      var probed := if s.b.mode.HalfOpen? then s.b.successes + 1 else 1;
      && ((pid in asked.callers && asked.callers[pid].Running?) <==> ran)
      && t.callers == s.callers && t.now == s.now
      && (!ran ==> t.b == s.b)
      && (ran && ok ==>
            t.b == if s.b.mode.Closed? then s.b.(failures := 0)
                   else if probed < cfg.successThreshold then Breaker(HalfOpen, 0, probed, s.b.lastFailTime)
                   else Breaker(Closed, 0, 0, s.b.lastFailTime))
      && (ran && !ok ==>
            t.b == Breaker(if s.b.mode.Closed? && s.b.failures + 1 < cfg.maxFailures then Closed else Open,
                           s.b.failures + 1, 0, s.now))
  {
    ThreeActions(cfg, s, Ask(pid), Upgrade(pid), Recheck(pid));
    hide Exec;
    var asked := Exec(cfg, s, [Ask(pid), Upgrade(pid), Recheck(pid)]);
    assert asked.callers - {pid} == s.callers;
  }
}
