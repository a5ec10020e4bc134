/**
 The write agent as a user of its breakers: its handlers follow the check, call,
 report discipline, so an outage costs a bounded number of ERP calls per pair.
 */
module AgentOutage {
  import opened Prelude
  import opened Breaker
  import opened Writes
  import opened WriteProtocol
  import opened Lifecycle

  /** The uses of one pair's breaker recorded in a stretch of log. */
  function AttemptsIn(log: seq<Entry>, p: Pair): seq<Attempt> {
    if log == [] then []
    else
      var n := |log| - 1;
      AttemptsIn(log[..n], p) + if log[n].Tried? && log[n].op.PairOf() == p then [log[n].attempt] else []
  }

  /** The ERP calls made for one pair in a stretch of log. */
  function CallsIn(log: seq<Entry>, p: Pair): seq<Attempt> {
    if log == [] then []
    else
      var n := |log| - 1;
      CallsIn(log[..n], p) + if log[n].Tried? && log[n].called && log[n].op.PairOf() == p then [log[n].attempt] else []
  }

  lemma {:induction false} InConcat(a: seq<Entry>, b: seq<Entry>, p: Pair)
    ensures AttemptsIn(a + b, p) == AttemptsIn(a, p) + AttemptsIn(b, p)
    ensures CallsIn(a + b, p) == CallsIn(a, p) + CallsIn(b, p)
  {
    if b == [] {
      assert a + b == a;
    } else {
      var n := |b| - 1;
      assert (a + b)[..|a| + n] == a + b[..n];
      InConcat(a, b[..n], p);
    }
  }

  lemma CallsSplit(a: seq<Entry>, b: seq<Entry>, c: seq<Entry>, p: Pair)
    requires a <= b <= c
    ensures AttemptsIn(c[|a|..], p) == AttemptsIn(b[|a|..], p) + AttemptsIn(c[|b|..], p)
    ensures CallsIn(c[|a|..], p) == CallsIn(b[|a|..], p) + CallsIn(c[|b|..], p)
  {
    assert c[|a|..] == b[|a|..] + c[|b|..];
    InConcat(b[|a|..], c[|b|..], p);
  }

  lemma InOne(e: Entry, p: Pair)
    ensures AttemptsIn([e], p) == if e.Tried? && e.op.PairOf() == p then [e.attempt] else []
    ensures CallsIn([e], p) == if e.Tried? && e.called && e.op.PairOf() == p then [e.attempt] else []
  {
    assert [e][..0] == [];
  }

  lemma InTwo(e: Entry, f: Entry, p: Pair)
    requires !f.Tried?
    ensures AttemptsIn([e, f], p) == AttemptsIn([e], p)
    ensures CallsIn([e, f], p) == CallsIn([e], p)
  {
    InConcat([e], [f], p);
    InOne(f, p);
    assert [e, f] == [e] + [f];
  }

  /** From s to t, pair p's breaker saw at most the one attempt a, and the log says so. */
  ghost predicate Follows(cfg: Config, s: State, t: State, a: Attempt, p: Pair) {
    && s.log <= t.log
    && var more := t.log[|s.log|..];
       || (AttemptsIn(more, p) == [] && CallsIn(more, p) == [] && t.BreakerOf(p) == s.BreakerOf(p))
       || (var (b, called) := Attempted(cfg, s.BreakerOf(p), a);
           AttemptsIn(more, p) == [a] && t.BreakerOf(p) == b && CallsIn(more, p) == if called then [a] else [])
  }

  lemma QuietFollows(cfg: Config, s: State, t: State, e: Entry, a: Attempt, p: Pair)
    requires t.log == s.log + [e] && !e.Tried? && t.breakers == s.breakers
    ensures Follows(cfg, s, t, a, p)
  {
    assert t.log[|s.log|..] == [e];
    InOne(e, p);
  }

  lemma TryFollows(cfg: Config, s: State, t: State, op: WriteOperation, env: Env, more: seq<Entry>, p: Pair)
    requires t.log == s.log + ([TriedEntry(op, env, Attempted(cfg, s.BreakerOf(op.PairOf()), AttemptOf(env)).1)] + more)
    requires more == [] || (|more| == 1 && !more[0].Tried?)
    requires t.breakers == s.breakers[op.PairOf() := Attempted(cfg, s.BreakerOf(op.PairOf()), AttemptOf(env)).0]
    ensures Follows(cfg, s, t, AttemptOf(env), p)
  {
    var e := TriedEntry(op, env, Attempted(cfg, s.BreakerOf(op.PairOf()), AttemptOf(env)).1);
    InOne(e, p);
    if more == [] {
      assert [e] + more == [e];
    } else {
      assert [e] + more == [e, more[0]];
      InTwo(e, more[0], p);
    }
    assert t.log[|s.log|..] == [e] + more;
  }

  lemma RefusedFollows(cfg: Config, s: State, op: WriteOperation, cause: Trigger, env: Env, p: Pair)
    requires !Checked(cfg, s.BreakerOf(op.PairOf()), env.checkedAt).1
    ensures Follows(cfg, s, Executed(cfg, s, op, cause, env), AttemptOf(env), p)
  {
    var t := ExecutionRefused(s, op, Checked(cfg, s.BreakerOf(op.PairOf()), env.checkedAt).0, cause, env);
    var last := Quarantined(cause, Some(op.PairOf()));
    assert t.log == s.log + ([TriedEntry(op, env, false)] + [last]);
    TryFollows(cfg, s, t, op, env, [last], p);
  }

  lemma CompletedFollows(cfg: Config, s: State, op: WriteOperation, cause: Trigger, env: Env, p: Pair)
    requires Checked(cfg, s.BreakerOf(op.PairOf()), env.checkedAt).1 && env.answer.CommittedAnswered?
    ensures Follows(cfg, s, Executed(cfg, s, op, cause, env), AttemptOf(env), p)
  {
    var t, last := ExecutionCompleted(s, op, cause, env), Emitted(CompletedStep(op), cause);
    assert t.log == s.log + ([TriedEntry(op, env, true)] + [last]);
    TryFollows(cfg, s, t, op, env, [last], p);
  }

  lemma FailedFollows(cfg: Config, s: State, op: WriteOperation, cause: Trigger, env: Env, p: Pair)
    requires Checked(cfg, s.BreakerOf(op.PairOf()), env.checkedAt).1 && !env.answer.CommittedAnswered?
    ensures Follows(cfg, s, Executed(cfg, s, op, cause, env), AttemptOf(env), p)
  {
    var (c, escalate) := Failed(cfg, Checked(cfg, s.BreakerOf(op.PairOf()), env.checkedAt).0, env.reportedAt);
    var t := ExecutionFailed(s, op, c, escalate, cause, env);
    var more := if escalate then [Quarantined(cause, Some(op.PairOf()))] else [];
    assert t.log == s.log + ([TriedEntry(op, env, true)] + more);
    TryFollows(cfg, s, t, op, env, more, p);
  }

  lemma ExecutedFollows(cfg: Config, s: State, op: WriteOperation, cause: Trigger, env: Env, p: Pair)
    ensures Follows(cfg, s, Executed(cfg, s, op, cause, env), AttemptOf(env), p)
  {
    if !Checked(cfg, s.BreakerOf(op.PairOf()), env.checkedAt).1 {
      RefusedFollows(cfg, s, op, cause, env, p);
    } else if env.answer.CommittedAnswered? {
      CompletedFollows(cfg, s, op, cause, env, p);
    } else {
      FailedFollows(cfg, s, op, cause, env, p);
    }
  }

  lemma QuietHead(before: seq<Entry>, e: Entry, after: seq<Entry>, p: Pair)
    requires before + [e] <= after && !e.Tried?
    ensures before <= after
    ensures AttemptsIn(after[|before|..], p) == AttemptsIn(after[|before + [e]|..], p)
    ensures CallsIn(after[|before|..], p) == CallsIn(after[|before + [e]|..], p)
  {
    var rest := after[|before + [e]|..];
    InConcat([e], rest, p);
    InOne(e, p);
    assert after[|before|..] == [e] + rest;
  }

  lemma FollowsAfterQuiet(cfg: Config, s: State, mid: State, t: State, e: Entry, a: Attempt, p: Pair)
    requires mid.log == s.log + [e] && !e.Tried? && mid.breakers == s.breakers
    requires Follows(cfg, mid, t, a, p)
    ensures Follows(cfg, s, t, a, p)
  {
    QuietHead(s.log, e, t.log, p);
  }

  lemma ProposedFollows(cfg: Config, s: State, req: Proposal, t: Trigger, env: Env, p: Pair)
    ensures Follows(cfg, s, Proposed(s, req, t, env), AttemptOf(env), p)
  {
    RequestShape(req, env.freshId, env.reader, s.store);
    var u := Proposed(s, req, t, env);
    QuietFollows(cfg, s, u, u.log[|s.log|], AttemptOf(env), p);
  }

  lemma NothingFollows(cfg: Config, s: State, a: Attempt, p: Pair)
    ensures Follows(cfg, s, s, a, p)
  {
    assert s.log[|s.log|..] == [];
  }

  lemma DecidedFollows(cfg: Config, s: State, t: Trigger, env: Env, p: Pair)
    requires t.Decision?
    ensures Follows(cfg, s, Decided(cfg, s, t, env), AttemptOf(env), p)
  {
    var u, a := Decided(cfg, s, t, env), AttemptOf(env);
    NothingFollows(cfg, s, a, p);
    if t.writeId in s.pending {
      var op := s.pending[t.writeId];
      QuietFollows(cfg, s, Quarantine(s, t), Quarantined(t, Owner(s, t)), a, p);
      if t.verdict != "approve" {
        if op.state == Requested {
          var step := Reject(op, t.reviewer, t.reason).value;
          QuietFollows(cfg, s, RejectionRecorded(s, step, t), Emitted(step, t), a, p);
        }
      } else if op.state == Approved {
        ExecutedFollows(cfg, s, op, t, env, p);
      } else if op.state == Requested {
        var step := Approve(op, t.reviewer).value;
        var mid := ApprovalRecorded(s, step, t);
        ExecutedFollows(cfg, mid, step.op, t, env, p);
        FollowsAfterQuiet(cfg, s, mid, u, Emitted(step, t), a, p);
      }
    }
  }

  lemma StepFollows(cfg: Config, s: State, e: Event, p: Pair)
    ensures Follows(cfg, s, Step(cfg, s, e), AttemptOf(e.1), p)
  {
    NothingFollows(cfg, s, AttemptOf(e.1), p);
    match e.0
    case Propose(req) => ProposedFollows(cfg, s, req, e.0, e.1, p);
    case Decision(_, _, _, _) => DecidedFollows(cfg, s, e.0, e.1, p);
    case OtherSubject =>
    case Reverse(w, operation, payload, requester, preview) =>
      if w in s.completed {
        ProposedFollows(cfg, s, ReversalOf(s.completed[w], operation, payload, requester, preview), e.0, e.1, p);
      } else {
        QuietFollows(cfg, s, Quarantine(s, e.0), Quarantined(e.0, Owner(s, e.0)), AttemptOf(e.1), p);
      }
  }

  /** The log written by a run from s. */
  function Written(cfg: Config, s: State, events: seq<Event>): seq<Entry> {
    var log := Run(cfg, s, events).log;
    if s.log <= log then log[|s.log|..] else log
  }

  predicate ClocksInOrder(start: real, events: seq<Event>) {
    && (forall i :: 0 <= i < |events| ==> start <= events[i].1.checkedAt <= events[i].1.reportedAt)
    && (forall i, j :: 0 <= i < j < |events| ==> events[i].1.reportedAt <= events[j].1.checkedAt)
  }

  predicate ReportedBy(attempts: seq<Attempt>, events: seq<Event>) {
    forall a :: a in attempts ==> exists i :: 0 <= i < |events| && a == AttemptOf(events[i].1)
  }

  lemma AttemptAppended(cfg: Config, b: BreakerState, attempts: seq<Attempt>, last: seq<Attempt>, env: Env)
    requires last == [] || last == [AttemptOf(env)]
    ensures last == [] ==> attempts + last == attempts
    ensures last != [] ==>
              var (c, called) := Attempted(cfg, AfterAttempts(cfg, b, attempts), AttemptOf(env));
              && AfterAttempts(cfg, b, attempts + last) == c
              && ErpCalls(cfg, b, attempts + last) == ErpCalls(cfg, b, attempts) + if called then [AttemptOf(env)] else []
  {
    if last != [] { assert (attempts + last)[..|attempts|] == attempts; }
  }

  lemma OrderAppended(start: real, attempts: seq<Attempt>, last: seq<Attempt>, events: seq<Event>)
    requires events != [] && ClocksInOrder(start, events)
    requires var n := |events| - 1; InOrder(start, attempts) && ReportedBy(attempts, events[..n])
    requires last == [] || last == [AttemptOf(events[|events| - 1].1)]
    ensures InOrder(start, attempts + last) && ReportedBy(attempts + last, events)
  {
    var n := |events| - 1;
    forall a | a in attempts + last ensures exists i :: 0 <= i < |events| && a == AttemptOf(events[i].1) {
      if a in attempts {
        var i :| 0 <= i < |events[..n]| && a == AttemptOf(events[..n][i].1);
        assert a == AttemptOf(events[i].1);
      }
    }
    forall k | 0 <= k < |attempts| && last != [] ensures attempts[k].reportedAt <= last[0].checkedAt {
      assert attempts[k] in attempts;
      var i :| 0 <= i < |events[..n]| && attempts[k] == AttemptOf(events[..n][i].1);
      assert events[i].1.reportedAt <= events[n].1.checkedAt;
    }
  }

  /** From s to t, pair p's breaker moved by the attempts the log records, and no others. */
  ghost predicate Driven(cfg: Config, s: State, t: State, p: Pair) {
    && s.log <= t.log
    && var attempts := AttemptsIn(t.log[|s.log|..], p);
       && t.BreakerOf(p) == AfterAttempts(cfg, s.BreakerOf(p), attempts)
       && CallsIn(t.log[|s.log|..], p) == ErpCalls(cfg, s.BreakerOf(p), attempts)
  }

  lemma DrivenStep(cfg: Config, s: State, mid: State, t: State, env: Env, p: Pair) returns (last: seq<Attempt>)
    requires Driven(cfg, s, mid, p) && Follows(cfg, mid, t, AttemptOf(env), p)
    ensures Driven(cfg, s, t, p)
    ensures last == [] || last == [AttemptOf(env)]
    ensures AttemptsIn(t.log[|s.log|..], p) == AttemptsIn(mid.log[|s.log|..], p) + last
  {
    last := AttemptsIn(t.log[|mid.log|..], p);
    CallsSplit(s.log, mid.log, t.log, p);
    AttemptAppended(cfg, s.BreakerOf(p), AttemptsIn(mid.log[|s.log|..], p), last, env);
  }

  lemma {:induction false} RunIsDriven(cfg: Config, s: State, events: seq<Event>, p: Pair, start: real)
    requires ClocksInOrder(start, events)
    ensures Driven(cfg, s, Run(cfg, s, events), p)
    ensures var attempts := AttemptsIn(Run(cfg, s, events).log[|s.log|..], p);
            InOrder(start, attempts) && ReportedBy(attempts, events)
  {
    if events == [] {
      assert s.log[|s.log|..] == [];
    } else {
      var n := |events| - 1;
      var mid := Run(cfg, s, events[..n]);
      RunIsDriven(cfg, s, events[..n], p, start);
      StepFollows(cfg, mid, events[n], p);
      var last := DrivenStep(cfg, s, mid, Run(cfg, s, events), events[n].1, p);
      OrderAppended(start, AttemptsIn(mid.log[|s.log|..], p), last, events);
    }
  }

  /** A run drives a pair's breaker exactly by the attempts it logs for that pair. */
  lemma RunIsAttempts(cfg: Config, s: State, events: seq<Event>, p: Pair, start: real)
    requires ClocksInOrder(start, events)
    ensures s.log <= Run(cfg, s, events).log
    ensures var more := Written(cfg, s, events);
            var attempts := AttemptsIn(more, p);
            && Run(cfg, s, events).BreakerOf(p) == AfterAttempts(cfg, s.BreakerOf(p), attempts)
            && CallsIn(more, p) == ErpCalls(cfg, s.BreakerOf(p), attempts)
            && InOrder(start, attempts) && ReportedBy(attempts, events)
  {
    RunIsDriven(cfg, s, events, p, start);
  }

  /** A handler call never leaves a breaker probing, and a breaker is open exactly when
      the failures counted reach the threshold. */
  lemma {:induction false} RunStaysSettled(cfg: Config, s: State, events: seq<Event>, p: Pair)
    requires cfg.threshold >= 1 && Settled(cfg, s.BreakerOf(p))
    ensures Settled(cfg, Run(cfg, s, events).BreakerOf(p))
  {
    if events != [] {
      var n := |events| - 1;
      RunStaysSettled(cfg, s, events[..n], p);
      var mid := Run(cfg, s, events[..n]);
      StepFollows(cfg, mid, events[n], p);
      AttemptStaysSettled(cfg, mid.BreakerOf(p), AttemptOf(events[n].1));
    }
  }

  /** In any span of any run during which no call for the pair succeeds, the ERP gets at
      most threshold + floor(length / cooldown) calls for it, however many decisions
      are replayed and whatever happens to other pairs. */
  lemma OutageCallsAreBounded(cfg: Config, s: State, events: seq<Event>, p: Pair, start: real, length: real)
    requires cfg.threshold >= 1 && cfg.cooldown > 0.0 && length >= 0.0
    requires Reachable(cfg, s)
    requires ClocksInOrder(start, events)
    requires forall i :: 0 <= i < |events| ==> events[i].1.checkedAt <= start + length
    requires forall c :: c in CallsIn(Written(cfg, s, events), p) ==> !c.ok
    ensures |CallsIn(Written(cfg, s, events), p)| <= cfg.threshold + (length / cfg.cooldown).Floor
  {
    var st, past :| FreshRun(cfg, Start(st), past) && s == Run(cfg, Start(st), past);
    RunStaysSettled(cfg, Start(st), past, p);
    RunIsAttempts(cfg, s, events, p, start);
    var attempts := AttemptsIn(Written(cfg, s, events), p);
    forall a | a in attempts ensures a.checkedAt <= start + length {
      var i :| 0 <= i < |events| && a == AttemptOf(events[i].1);
    }
    OutageBound(cfg, s.BreakerOf(p), attempts, start, length);
  }

  // --- Escalations ------------------------------------------------------------------------

  /** What a handler call adds to the log shows an ERP call for the pair that tripped its
      breaker: the call, and then the decision sent to a human. */
  predicate Escalated(more: seq<Entry>, p: Pair) {
    var n := |more|;
    && n >= 2 && more[n - 1].Quarantined?
    && more[n - 2].Tried? && more[n - 2].called && more[n - 2].op.PairOf() == p
  }

  predicate Trips(s: State, t: State, p: Pair) {
    s.BreakerOf(p).openedAt.None? && t.BreakerOf(p).openedAt.Some?
  }

  lemma ExecutedEscalates(cfg: Config, s: State, op: WriteOperation, t: Trigger, env: Env, p: Pair)
    ensures var u := Executed(cfg, s, op, t, env);
            && s.log <= u.log && |u.log| > |s.log| && u.log[|s.log|].Tried?
            && (Escalated(u.log[|s.log|..], p) <==> Trips(s, u, p))
  {
    var more := ExecutedLog(cfg, s, op, t, env);
    assert Executed(cfg, s, op, t, env).log[|s.log|..] == more;
  }

  lemma OneEntryEscalatesNothing(s: State, t: State, e: Entry, p: Pair)
    requires t.log == s.log + [e] && t.breakers == s.breakers
    ensures !Escalated(t.log[|s.log|..], p) && !Trips(s, t, p)
  {
    assert t.log[|s.log|..] == [e];
  }

  lemma LaterEntriesEscalate(before: seq<Entry>, e: Entry, after: seq<Entry>, p: Pair)
    requires before + [e] <= after && |after| > |before| + 1 && !e.Tried?
    ensures before <= after && (Escalated(after[|before|..], p) <==> Escalated(after[|before + [e]|..], p))
  {
    assert after[|before|..] == [e] + after[|before + [e]|..];
  }

  lemma ApprovedEscalates(cfg: Config, s: State, op: WriteOperation, t: Trigger, env: Env, p: Pair)
    requires t.Decision? && op.state == Requested
    ensures var step := Approve(op, t.reviewer).value;
            var u := Executed(cfg, ApprovalRecorded(s, step, t), step.op, t, env);
            s.log <= u.log && (Escalated(u.log[|s.log|..], p) <==> Trips(s, u, p))
  {
    var step := Approve(op, t.reviewer).value;
    var mid := ApprovalRecorded(s, step, t);
    var u := Executed(cfg, mid, step.op, t, env);
    ExecutedEscalates(cfg, mid, step.op, t, env, p);
    LaterEntriesEscalate(s.log, Emitted(step, t), u.log, p);
  }

  lemma ProposedEscalatesNothing(s: State, req: Proposal, t: Trigger, env: Env, p: Pair)
    ensures var u := Proposed(s, req, t, env); s.log <= u.log && !Escalated(u.log[|s.log|..], p) && !Trips(s, u, p)
  {
    RequestShape(req, env.freshId, env.reader, s.store);
    var u := Proposed(s, req, t, env);
    OneEntryEscalatesNothing(s, u, u.log[|s.log|], p);
  }

  lemma DecidedEscalates(cfg: Config, s: State, t: Trigger, env: Env, p: Pair)
    requires t.Decision?
    ensures var u := Decided(cfg, s, t, env); s.log <= u.log && (Escalated(u.log[|s.log|..], p) <==> Trips(s, u, p))
  {
    if t.writeId in s.pending {
      var op := s.pending[t.writeId];
      if t.verdict == "approve" && op.state == Approved {
        ExecutedEscalates(cfg, s, op, t, env, p);
      } else if t.verdict == "approve" && op.state == Requested {
        ApprovedEscalates(cfg, s, op, t, env, p);
      } else {
        var u := Decided(cfg, s, t, env);
        OneEntryEscalatesNothing(s, u, u.log[|s.log|], p);
      }
    } else {
      assert s.log[|s.log|..] == [];
    }
  }

  /** A handler call escalates for a pair exactly when it opens the pair's closed breaker. */
  lemma EscalatesIffTrips(cfg: Config, s: State, e: Event, p: Pair)
    ensures var u := Step(cfg, s, e); s.log <= u.log && (Escalated(u.log[|s.log|..], p) <==> Trips(s, u, p))
  {
    match e.0
    case Propose(req) => ProposedEscalatesNothing(s, req, e.0, e.1, p);
    case Decision(_, _, _, _) => DecidedEscalates(cfg, s, e.0, e.1, p);
    case OtherSubject => assert s.log[|s.log|..] == [];
    case Reverse(w, operation, payload, requester, preview) =>
      if w !in s.completed {
        OneEntryEscalatesNothing(s, Quarantine(s, e.0), Quarantined(e.0, Owner(s, e.0)), p);
      } else {
        ProposedEscalatesNothing(s, ReversalOf(s.completed[w], operation, payload, requester, preview), e.0, e.1, p);
        assert s.log[|s.log|..] == [];
      }
  }

  /** Event k of a run escalates for the pair. */
  predicate EscalatesAt(cfg: Config, s: State, events: seq<Event>, k: nat, p: Pair)
    requires k < |events|
  {
    var before := Run(cfg, s, events[..k]);
    var after := Step(cfg, before, events[k]);
    before.log <= after.log && Escalated(after.log[|before.log|..], p)
  }

  ghost predicate NoSuccess(cfg: Config, s: State, events: seq<Event>, p: Pair) {
    forall c :: c in CallsIn(Written(cfg, s, events), p) ==> !c.ok
  }

  /** A pair's breaker and log along some states, one attempt at most from each to the next. */
  ghost predicate Chained(cfg: Config, states: seq<State>, attempts: seq<Attempt>, p: Pair) {
    && |states| == |attempts| + 1
    && forall k :: 0 <= k < |attempts| ==> Follows(cfg, states[k], states[k + 1], attempts[k], p)
  }

  predicate CallsFail(before: seq<Entry>, after: seq<Entry>, p: Pair) {
    before <= after && forall c :: c in CallsIn(after[|before|..], p) ==> !c.ok
  }

  /** No call along the states succeeded. */
  predicate AllFail(states: seq<State>, p: Pair) {
    forall k :: 0 <= k < |states| - 1 ==> CallsFail(states[k].log, states[k + 1].log, p)
  }

  lemma CallsFailInside(a: seq<Entry>, b: seq<Entry>, c: seq<Entry>, d: seq<Entry>, p: Pair)
    requires a <= b <= c <= d && CallsFail(a, d, p)
    ensures CallsFail(b, c, p)
  {
    CallsSplit(a, b, d, p);
    CallsSplit(b, c, d, p);
  }

  lemma OpenUntilSuccess(cfg: Config, s: State, t: State, a: Attempt, p: Pair)
    requires Follows(cfg, s, t, a, p) && s.BreakerOf(p).openedAt.Some? && CallsFail(s.log, t.log, p)
    ensures t.BreakerOf(p).openedAt.Some?
  {
    assert a in [a];
  }

  /** Without a success, nothing closes a breaker again. */
  lemma {:induction false} StaysOpen(cfg: Config, states: seq<State>, attempts: seq<Attempt>, p: Pair, i: nat, j: nat)
    requires Chained(cfg, states, attempts, p) && AllFail(states, p) && i <= j < |states|
    requires states[i].BreakerOf(p).openedAt.Some?
    ensures states[j].BreakerOf(p).openedAt.Some?
  {
    if i < j {
      StaysOpen(cfg, states, attempts, p, i, j - 1);
      OpenUntilSuccess(cfg, states[j - 1], states[j], attempts[j - 1], p);
    }
  }

  /** The states a run goes through, from before its first event to after its last. */
  function Trace(cfg: Config, s: State, events: seq<Event>): (states: seq<State>)
    ensures |states| == |events| + 1
  {
    seq(|events| + 1, k requires 0 <= k <= |events| => Run(cfg, s, events[..k]))
  }

  function AttemptsOf(events: seq<Event>): (attempts: seq<Attempt>)
    ensures |attempts| == |events|
  {
    seq(|events|, k requires 0 <= k < |events| => AttemptOf(events[k].1))
  }

  lemma TraceStep(cfg: Config, s: State, events: seq<Event>, k: nat)
    requires k < |events|
    ensures Trace(cfg, s, events)[k] == Run(cfg, s, events[..k])
    ensures Trace(cfg, s, events)[k + 1] == Step(cfg, Trace(cfg, s, events)[k], events[k])
  {
    RunLast(cfg, s, events[..k + 1]);
    assert events[..k + 1][..k] == events[..k];
  }

  lemma TraceFollows(cfg: Config, s: State, events: seq<Event>, p: Pair, k: nat)
    requires k < |events|
    ensures Follows(cfg, Trace(cfg, s, events)[k], Trace(cfg, s, events)[k + 1], AttemptsOf(events)[k], p)
  {
    TraceStep(cfg, s, events, k);
    StepFollows(cfg, Trace(cfg, s, events)[k], events[k], p);
  }

  lemma TraceChained(cfg: Config, s: State, events: seq<Event>, p: Pair)
    ensures Chained(cfg, Trace(cfg, s, events), AttemptsOf(events), p)
  {
    forall k | 0 <= k < |events|
      ensures Follows(cfg, Trace(cfg, s, events)[k], Trace(cfg, s, events)[k + 1], AttemptsOf(events)[k], p)
    {
      TraceFollows(cfg, s, events, p, k);
    }
  }

  lemma EventCallsFail(cfg: Config, s: State, events: seq<Event>, p: Pair, k: nat)
    requires k < |events| && NoSuccess(cfg, s, events, p)
    ensures CallsFail(Run(cfg, s, events[..k]).log, Run(cfg, s, events[..k + 1]).log, p)
  {
    assert events[..k][..0] == [] && events[..0] == [];
    RunAppends(cfg, s, events[..k], 0);
    EventAppends(cfg, s, events, k);
    RunAppends(cfg, s, events, k + 1);
    RunAppends(cfg, s, events, 0);
    CallsFailInside(s.log, Run(cfg, s, events[..k]).log, Run(cfg, s, events[..k + 1]).log, Run(cfg, s, events).log, p);
  }

  lemma TraceAllFails(cfg: Config, s: State, events: seq<Event>, p: Pair)
    requires NoSuccess(cfg, s, events, p)
    ensures AllFail(Trace(cfg, s, events), p)
  {
    var states := Trace(cfg, s, events);
    forall k | 0 <= k < |events| ensures CallsFail(states[k].log, states[k + 1].log, p) {
      EventCallsFail(cfg, s, events, p, k);
    }
  }

  lemma TraceTrips(cfg: Config, s: State, events: seq<Event>, k: nat, p: Pair)
    requires k < |events|
    ensures EscalatesAt(cfg, s, events, k, p) <==> Trips(Trace(cfg, s, events)[k], Trace(cfg, s, events)[k + 1], p)
  {
    TraceStep(cfg, s, events, k);
    EscalatesIffTrips(cfg, Trace(cfg, s, events)[k], events[k], p);
  }

  lemma NoSecondEscalation(cfg: Config, s: State, events: seq<Event>, i: nat, j: nat, p: Pair)
    requires i < j < |events| && NoSuccess(cfg, s, events, p)
    requires EscalatesAt(cfg, s, events, i, p)
    ensures !EscalatesAt(cfg, s, events, j, p)
  {
    TraceTrips(cfg, s, events, i, p);
    TraceTrips(cfg, s, events, j, p);
    TraceChained(cfg, s, events, p);
    TraceAllFails(cfg, s, events, p);
    StaysOpen(cfg, Trace(cfg, s, events), AttemptsOf(events), p, i + 1, j);
  }

  /** An outage escalates once: in any span of any run without a success for a pair, at most
      one handler call escalates for it, whatever happens to other pairs. */
  lemma OneEscalationPerOutage(cfg: Config, s: State, events: seq<Event>, i: nat, j: nat, p: Pair)
    requires i < |events| && j < |events| && NoSuccess(cfg, s, events, p)
    requires EscalatesAt(cfg, s, events, i, p) && EscalatesAt(cfg, s, events, j, p)
    ensures i == j
  {
    if i < j { NoSecondEscalation(cfg, s, events, i, j, p); }
    if j < i { NoSecondEscalation(cfg, s, events, j, i, p); }
  }
}
