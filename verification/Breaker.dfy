/**
 The ERP write circuit breaker (agents/forge/breaker.py): its value-level
 transitions, the class that performs them in place, a history characterisation
 of every answer it gives, and the bound on ERP calls during an outage.
 Clock readings are arguments: one per place where the source reads its clock to
 decide something.
 */
module Breaker {
  import opened Periods
  import opened Prelude

  datatype Config = Config(threshold: nat, cooldown: real)

  datatype BreakerState = BreakerState(failures: nat, openedAt: Option<real>, probing: bool)

  datatype Mode = Closed | Open | HalfOpen

  const FRESH: BreakerState := BreakerState(0, None, false)

  function ModeAt(cfg: Config, b: BreakerState, now: real): Mode {
    if b.openedAt.None? then Closed
    else if now - b.openedAt.value >= cfg.cooldown then HalfOpen
    else Open
  }

  /** The state after `check`, and whether the caller may touch the ERP. */
  function Checked(cfg: Config, b: BreakerState, now: real): (BreakerState, bool) {
    match ModeAt(cfg, b, now)
    case Closed => (b, true)
    case HalfOpen => if b.probing then (b, false) else (b.(probing := true), true)
    case Open => (b, false)
  }

  /** The state after `record_failure`, and whether this failure escalates. */
  function Failed(cfg: Config, b: BreakerState, now: real): (BreakerState, bool) {
    var n := b.failures + 1;
    if n >= cfg.threshold || b.openedAt.Some?
    then (BreakerState(n, Some(now), false), b.openedAt.None?)
    else (BreakerState(n, None, false), false)
  }

  class CircuitBreaker {
    const threshold: nat
    const cooldown: real
    var consecutiveFailures: nat
    var openedAt: Option<real>
    var probing: bool

    constructor (failureThreshold: nat, cooldownSeconds: real)
      requires failureThreshold >= 1
      ensures Value() == FRESH && Cfg() == Config(failureThreshold, cooldownSeconds)
    {
      threshold, cooldown := failureThreshold, cooldownSeconds;
      consecutiveFailures, openedAt, probing := 0, None, false;
    }

    function Cfg(): Config { Config(threshold, cooldown) }

    function Value(): BreakerState
      reads this
    {
      BreakerState(consecutiveFailures, openedAt, probing)
    }

    method Check(now: real) returns (admitted: bool)
      modifies this
      ensures (Value(), admitted) == Checked(Cfg(), old(Value()), now)
    {
      var mode := ModeAt(Cfg(), Value(), now);
      if mode == Closed { return true; }
      if mode == HalfOpen && !probing {
        probing := true;
        return true;
      }
      return false;
    }

    method RecordSuccess()
      modifies this
      ensures Value() == FRESH
    {
      consecutiveFailures, openedAt, probing := 0, None, false;
    }

    method RecordFailure(now: real) returns (escalate: bool)
      modifies this
      ensures (Value(), escalate) == Failed(Cfg(), old(Value()), now)
    {
      var wasOpen := openedAt.Some?;
      consecutiveFailures := consecutiveFailures + 1;
      probing := false;
      if consecutiveFailures >= threshold || wasOpen {
        openedAt := Some(now);
        return !wasOpen;
      }
      return false;
    }
  }

  // --- Every answer as a function of the call history -----------------------

  datatype Call = Check(at: real) | Success | Failure(at: real)

  /** The breaker after any sequence of calls on a new one. */
  function After(cfg: Config, calls: seq<Call>): BreakerState {
    if calls == [] then FRESH
    else
      var b := After(cfg, calls[..|calls| - 1]);
      match calls[|calls| - 1]
      case Check(at) => Checked(cfg, b, at).0
      case Success => FRESH
      case Failure(at) => Failed(cfg, b, at).0
  }

  /** How many failures have been reported since the last success. */
  function FailuresSinceSuccess(calls: seq<Call>): nat {
    if calls == [] then 0
    else
      match calls[|calls| - 1]
      case Success => 0
      case Failure(_) => 1 + FailuresSinceSuccess(calls[..|calls| - 1])
      case Check(_) => FailuresSinceSuccess(calls[..|calls| - 1])
  }

  predicate IsLastFailure(calls: seq<Call>, i: int) {
    0 <= i < |calls| && calls[i].Failure? && forall j :: i < j < |calls| ==> calls[j].Check?
  }

  /** The cooldown of a tripped breaker has passed at `now`. */
  ghost predicate Cooled(cfg: Config, calls: seq<Call>, now: real) {
    && FailuresSinceSuccess(calls) >= cfg.threshold
    && exists i :: IsLastFailure(calls, i) && now - calls[i].at >= cfg.cooldown
  }

  /** Some check made after the last report found the cooldown over. */
  ghost predicate ProbeOutstanding(cfg: Config, calls: seq<Call>) {
    exists k :: IsProbe(cfg, calls, k)
  }

  ghost predicate IsProbe(cfg: Config, calls: seq<Call>, k: int) {
    && 0 <= k < |calls| && calls[k].Check? && Cooled(cfg, calls[..k], calls[k].at)
    && forall j :: k < j < |calls| ==> calls[j].Check?
  }

  lemma {:induction false} ProbeStep(cfg: Config, calls: seq<Call>)
    requires calls != []
    ensures var last := calls[|calls| - 1]; var init := calls[..|calls| - 1];
            ProbeOutstanding(cfg, calls) <==>
            last.Check? && (ProbeOutstanding(cfg, init) || Cooled(cfg, init, last.at))
  {
    var n := |calls| - 1;
    var init := calls[..n];
    if k :| IsProbe(cfg, calls, k) {
      assert init[..k] == calls[..k] || k == n;
      assert k < n ==> IsProbe(cfg, init, k);
    }
    if k :| IsProbe(cfg, init, k) && calls[n].Check? {
      assert init[..k] == calls[..k];
      assert IsProbe(cfg, calls, k);
    }
    if calls[n].Check? && Cooled(cfg, init, calls[n].at) {
      assert IsProbe(cfg, calls, n);
    }
  }

  /** The breaker's three fields, read off the call history alone. */
  lemma {:induction false} StateFromHistory(cfg: Config, calls: seq<Call>)
    requires cfg.threshold >= 1
    ensures var b := After(cfg, calls);
            && b.failures == FailuresSinceSuccess(calls)
            && (b.openedAt.Some? <==> FailuresSinceSuccess(calls) >= cfg.threshold)
            && (b.probing <==> ProbeOutstanding(cfg, calls))
    ensures After(cfg, calls).openedAt.Some? ==>
            exists i :: IsLastFailure(calls, i) && calls[i].at == After(cfg, calls).openedAt.value
  {
    if calls != [] {
      var n := |calls| - 1;
      var init := calls[..n];
      StateFromHistory(cfg, init);
      ProbeStep(cfg, calls);
      var b := After(cfg, init);
      match calls[n]
      case Success =>
      case Failure(at) =>
        assert IsLastFailure(calls, n);
      case Check(at) =>
        if b.openedAt.Some? {
          var i :| IsLastFailure(init, i) && init[i].at == b.openedAt.value;
          assert IsLastFailure(calls, i);
          assert Cooled(cfg, init, at) <==> ModeAt(cfg, b, at) == HalfOpen by {
            assert forall j :: IsLastFailure(init, j) ==> j == i;
          }
        }
    }
  }

  lemma CooledMeansHalfOpen(cfg: Config, calls: seq<Call>, now: real)
    requires cfg.threshold >= 1
    ensures ModeAt(cfg, After(cfg, calls), now) == HalfOpen <==> Cooled(cfg, calls, now)
    ensures ModeAt(cfg, After(cfg, calls), now) == Closed <==> FailuresSinceSuccess(calls) < cfg.threshold
  {
    StateFromHistory(cfg, calls);
    var b := After(cfg, calls);
    if b.openedAt.Some? {
      var i :| IsLastFailure(calls, i) && calls[i].at == b.openedAt.value;
      assert forall j :: IsLastFailure(calls, j) ==> j == i;
    }
  }

  /** `check` lets the caller through exactly when the breaker is closed, or its
      cooldown is over and no probe is outstanding. */
  lemma AdmittedIff(cfg: Config, calls: seq<Call>, now: real)
    requires cfg.threshold >= 1
    ensures Checked(cfg, After(cfg, calls), now).1 <==>
            || FailuresSinceSuccess(calls) < cfg.threshold
            || (Cooled(cfg, calls, now) && !ProbeOutstanding(cfg, calls))
  {
    StateFromHistory(cfg, calls);
    CooledMeansHalfOpen(cfg, calls, now);
  }

  /** `record_failure` escalates exactly on the threshold-th failure since the last success. */
  lemma EscalatesIff(cfg: Config, calls: seq<Call>, now: real)
    requires cfg.threshold >= 1
    ensures Failed(cfg, After(cfg, calls), now).1 <==> FailuresSinceSuccess(calls) + 1 == cfg.threshold
  {
    StateFromHistory(cfg, calls);
  }

  lemma {:induction false} ChecksKeepTheCount(calls: seq<Call>, checks: seq<Call>)
    requires forall c :: c in checks ==> c.Check?
    ensures FailuresSinceSuccess(calls + checks) == FailuresSinceSuccess(calls)
  {
    if checks == [] {
      assert calls + checks == calls;
    } else {
      var n := |checks| - 1;
      assert (calls + checks)[..|calls| + n] == calls + checks[..n];
      assert (calls + checks)[|calls| + n] == checks[n];
      ChecksKeepTheCount(calls, checks[..n]);
    }
  }

  /** In half-open, every check after the first is refused until a report arrives,
      whatever the clock says. */
  lemma OneProbePerReport(cfg: Config, calls: seq<Call>, probeAt: real, checks: seq<Call>, now: real)
    requires cfg.threshold >= 1
    requires ModeAt(cfg, After(cfg, calls), probeAt) == HalfOpen
    requires forall c :: c in checks ==> c.Check?
    ensures !Checked(cfg, After(cfg, calls + [Check(probeAt)] + checks), now).1
  {
    var all := calls + [Check(probeAt)] + checks;
    CooledMeansHalfOpen(cfg, calls, probeAt);
    assert all[..|calls|] == calls;
    assert forall j :: |calls| < j < |all| ==> all[j] in checks;
    assert IsProbe(cfg, all, |calls|);
    assert all == calls + ([Check(probeAt)] + checks);
    ChecksKeepTheCount(calls, [Check(probeAt)] + checks);
    AdmittedIff(cfg, all, now);
  }

  // --- The check, call, report discipline -----------------------------------

  /** One handler's use of the breaker: the clock at `check`, and, if it is let
      through, whether the ERP call succeeded and the clock when it reports. */
  datatype Attempt = Attempt(checkedAt: real, reportedAt: real, ok: bool)

  /** The breaker after one attempt, and whether the ERP was called. */
  function Attempted(cfg: Config, b: BreakerState, a: Attempt): (BreakerState, bool) {
    var (c, admitted) := Checked(cfg, b, a.checkedAt);
    if !admitted then (c, false)
    else if a.ok then (FRESH, true)
    else (Failed(cfg, c, a.reportedAt).0, true)
  }

  function AfterAttempts(cfg: Config, b: BreakerState, attempts: seq<Attempt>): BreakerState {
    if attempts == [] then b
    else Attempted(cfg, AfterAttempts(cfg, b, attempts[..|attempts| - 1]), attempts[|attempts| - 1]).0
  }

  /** The attempts that reached the ERP. */
  function ErpCalls(cfg: Config, b: BreakerState, attempts: seq<Attempt>): seq<Attempt> {
    if attempts == [] then []
    else
      var n := |attempts| - 1;
      var before := ErpCalls(cfg, b, attempts[..n]);
      if Attempted(cfg, AfterAttempts(cfg, b, attempts[..n]), attempts[n]).1
      then before + [attempts[n]] else before
  }

  /** What holds of every breaker between handler calls. */
  predicate Settled(cfg: Config, b: BreakerState) {
    && !b.probing
    && (b.openedAt.Some? <==> b.failures >= cfg.threshold)
  }

  lemma AttemptStaysSettled(cfg: Config, b: BreakerState, a: Attempt)
    requires cfg.threshold >= 1 && Settled(cfg, b)
    ensures Settled(cfg, Attempted(cfg, b, a).0)
  {
  }

  /** A handler never leaves the breaker probing, over any run. */
  lemma {:induction false} AttemptsStaySettled(cfg: Config, b: BreakerState, attempts: seq<Attempt>)
    requires cfg.threshold >= 1 && Settled(cfg, b)
    ensures Settled(cfg, AfterAttempts(cfg, b, attempts))
  {
    if attempts != [] {
      AttemptsStaySettled(cfg, b, attempts[..|attempts| - 1]);
    }
  }

  /** The clock never goes back from `start` on. */
  predicate InOrder(start: real, attempts: seq<Attempt>) {
    && (forall i :: 0 <= i < |attempts| ==> start <= attempts[i].checkedAt <= attempts[i].reportedAt)
    && (forall i, j :: 0 <= i < j < |attempts| ==> attempts[i].reportedAt <= attempts[j].checkedAt)
  }

  function PastThreshold(n: nat, cfg: Config): nat {
    if n > cfg.threshold then n - cfg.threshold else 0
  }

  /** The calls so far have waited for their cooldowns, and the breaker remembers the last. */
  ghost predicate Paced(cfg: Config, start: real, after: BreakerState, calls: seq<Attempt>) {
    var wait := Span(PastThreshold(|calls|, cfg), cfg.cooldown);
    && (after.openedAt.None? ==> |calls| <= after.failures)
    && (after.openedAt.Some? && calls != [] ==> after.openedAt.value >= start + wait)
    && (calls != [] ==> calls[|calls| - 1].checkedAt >= start + wait)
  }

  lemma ClosedCallPaced(cfg: Config, start: real, b: BreakerState, calls: seq<Attempt>, a: Attempt)
    requires cfg.threshold >= 1 && Settled(cfg, b) && Paced(cfg, start, b, calls)
    requires b.openedAt.None? && !a.ok && start <= a.checkedAt <= a.reportedAt
    ensures Paced(cfg, start, Attempted(cfg, b, a).0, calls + [a])
  {
    assert PastThreshold(|calls + [a]|, cfg) == 0;
    assert Span(0, cfg.cooldown) == 0.0;
  }

  lemma ProbePaced(cfg: Config, start: real, b: BreakerState, calls: seq<Attempt>, a: Attempt)
    requires cfg.threshold >= 1 && cfg.cooldown > 0.0 && Settled(cfg, b) && Paced(cfg, start, b, calls)
    requires b.openedAt.Some? && Attempted(cfg, b, a).1 && !a.ok && start <= a.checkedAt <= a.reportedAt
    ensures Paced(cfg, start, Attempted(cfg, b, a).0, calls + [a])
  {
    var k := PastThreshold(|calls|, cfg);
    assert a.checkedAt >= b.openedAt.value + cfg.cooldown;
    assert Span(k + 1, cfg.cooldown) == Span(k, cfg.cooldown) + cfg.cooldown;
    assert PastThreshold(|calls + [a]|, cfg) == (if |calls| >= cfg.threshold then k + 1 else 0);
    assert Span(0, cfg.cooldown) == 0.0;
    assert a.checkedAt >= start + Span(PastThreshold(|calls + [a]|, cfg), cfg.cooldown);
  }

  /** A refused attempt changes nothing. */
  lemma RefusedPaced(cfg: Config, b: BreakerState, a: Attempt)
    requires !Attempted(cfg, b, a).1
    ensures Attempted(cfg, b, a).0 == b
  {
  }

  lemma LastAttempt(cfg: Config, b: BreakerState, attempts: seq<Attempt>)
    requires attempts != []
    ensures var m := |attempts| - 1;
            var (after, called) := Attempted(cfg, AfterAttempts(cfg, b, attempts[..m]), attempts[m]);
            && AfterAttempts(cfg, b, attempts) == after
            && ErpCalls(cfg, b, attempts) == ErpCalls(cfg, b, attempts[..m]) + if called then [attempts[m]] else []
  {
  }

  /** While nothing succeeds, the k-th ERP call past the threshold waits for k whole cooldowns. */
  lemma {:induction false} OutagePace(cfg: Config, b: BreakerState, attempts: seq<Attempt>, start: real)
    requires cfg.threshold >= 1 && cfg.cooldown > 0.0 && Settled(cfg, b)
    requires InOrder(start, attempts)
    requires forall c :: c in ErpCalls(cfg, b, attempts) ==> !c.ok
    ensures Paced(cfg, start, AfterAttempts(cfg, b, attempts), ErpCalls(cfg, b, attempts))
  {
    if attempts != [] {
      var m := |attempts| - 1;
      var before, calls := AfterAttempts(cfg, b, attempts[..m]), ErpCalls(cfg, b, attempts[..m]);
      LastAttempt(cfg, b, attempts);
      assert forall c :: c in calls ==> c in ErpCalls(cfg, b, attempts);
      OutagePace(cfg, b, attempts[..m], start);
      AttemptsStaySettled(cfg, b, attempts[..m]);
      if !Attempted(cfg, before, attempts[m]).1 {
        RefusedPaced(cfg, before, attempts[m]);
        assert calls + [] == calls;
      } else {
        assert attempts[m] in calls + [attempts[m]];
        if before.openedAt.None? {
          ClosedCallPaced(cfg, start, before, calls, attempts[m]);
        } else {
          ProbePaced(cfg, start, before, calls, attempts[m]);
        }
      }
    }
  }

  lemma {:induction false} CallsAreAttempts(cfg: Config, b: BreakerState, attempts: seq<Attempt>)
    ensures forall c :: c in ErpCalls(cfg, b, attempts) ==> c in attempts
  {
    if attempts != [] { CallsAreAttempts(cfg, b, attempts[..|attempts| - 1]); }
  }

  /** In any span without a success, a settled breaker lets through at most
      threshold + floor(length / cooldown) ERP calls. */
  lemma OutageBound(cfg: Config, b: BreakerState, attempts: seq<Attempt>, start: real, length: real)
    requires cfg.threshold >= 1 && cfg.cooldown > 0.0 && Settled(cfg, b)
    requires length >= 0.0 && InOrder(start, attempts)
    requires forall a :: a in attempts ==> a.checkedAt <= start + length
    requires forall c :: c in ErpCalls(cfg, b, attempts) ==> !c.ok
    ensures |ErpCalls(cfg, b, attempts)| <= cfg.threshold + (length / cfg.cooldown).Floor
  {
    OutagePace(cfg, b, attempts, start);
    CallsAreAttempts(cfg, b, attempts);
    var calls := ErpCalls(cfg, b, attempts);
    if calls == [] {
      SpanFits(0, cfg.cooldown, length);
    } else {
      assert calls[|calls| - 1] in attempts;
      SpanFits(PastThreshold(|calls|, cfg), cfg.cooldown, length);
    }
  }
}
