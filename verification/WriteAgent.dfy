/**
 The write agent itself (agents/forge/write_agent.py): an object that updates its
 maps, its breakers and the ERP in place. Every handler is proved to perform the
 protocol's step, so every theorem about runs of the protocol is one about it.
 */
module WriteAgent {
  import opened Prelude
  import opened Breaker
  import opened Writes
  import opened WriteProtocol

  /** What remains of an execution once the breaker has let it through. */
  function Called(cfg: Config, s: State, op: WriteOperation, cause: Trigger, env: Env): State {
    if env.answer.CommittedAnswered? then ExecutionCompleted(s, op, cause, env)
    else
      var (b, escalate) := Failed(cfg, s.BreakerOf(op.PairOf()), env.reportedAt);
      ExecutionFailed(s, op, b, escalate, cause, env)
  }

  lemma CalledBehindGate(cfg: Config, s: State, op: WriteOperation, cause: Trigger, env: Env)
    requires Checked(cfg, s.BreakerOf(op.PairOf()), env.checkedAt).1
    ensures var asked := Checked(cfg, s.BreakerOf(op.PairOf()), env.checkedAt).0;
            Called(cfg, s.(breakers := s.breakers[op.PairOf() := asked]), op, cause, env) == Executed(cfg, s, op, cause, env)
  {
    var p := op.PairOf();
    var asked := Checked(cfg, s.BreakerOf(p), env.checkedAt).0;
    if env.answer.CommittedAnswered? {
      SetTwice(s.breakers, p, asked, FRESH);
    } else {
      SetTwice(s.breakers, p, asked, Failed(cfg, asked, env.reportedAt).0);
    }
  }

  lemma SetTwice(m: map<Pair, BreakerState>, p: Pair, a: BreakerState, b: BreakerState)
    ensures m[p := a][p := b] == m[p := b]
  {
  }

  class ForgeWriteAgent {
    const erp: Erp
    const threshold: nat
    const cooldown: real
    var pending: map<string, WriteOperation>
    var completed: map<string, WriteOperation>
    var breakers: map<Pair, CircuitBreaker>
    /** Rejected writes, which the agent forgets, and everything that has left it. */
    ghost var rejected: map<string, WriteOperation>
    ghost var log: seq<Entry>

    constructor (erp: Erp, threshold: nat, cooldown: real)
      requires threshold >= 1
      ensures Valid() && View() == Start(erp.store) && this.erp == erp && Cfg() == Config(threshold, cooldown)
    {
      this.erp, this.threshold, this.cooldown := erp, threshold, cooldown;
      pending, completed, breakers, rejected, log := map[], map[], map[], map[], [];
    }

    function Cfg(): Config { Config(threshold, cooldown) }

    /** Each pair has its own breaker object, built by the same factory. */
    ghost predicate Valid()
      reads this`breakers
    {
      && threshold >= 1
      && (forall p :: p in breakers ==> breakers[p].Cfg() == Cfg())
      && (forall p, q :: p in breakers && q in breakers && p != q ==> breakers[p] != breakers[q])
    }

    ghost function BreakerStates(): map<Pair, BreakerState>
      reads this`breakers, breakers.Values
    {
      map p | p in breakers :: breakers[p].Value()
    }

    ghost function View(): State
      reads this, erp, breakers.Values
    {
      State(pending, completed, rejected, BreakerStates(), erp.store, log)
    }

    method BreakerFor(p: Pair) returns (b: CircuitBreaker)
      requires Valid()
      modifies this`breakers
      ensures Valid() && p in breakers && breakers[p] == b
      ensures fresh(breakers.Values - old(breakers.Values))
      ensures BreakerStates() == old(BreakerStates()[p := View().BreakerOf(p)])
    {
      if p !in breakers {
        var made := new CircuitBreaker(threshold, cooldown);
        breakers := breakers[p := made];
      }
      b := breakers[p];
    }

    /** Look the pair's breaker up and ask it. */
    method Gate(p: Pair, now: real) returns (b: CircuitBreaker, admitted: bool)
      requires Valid()
      modifies this`breakers, breakers.Values
      ensures Valid() && p in breakers && breakers[p] == b
      ensures fresh(breakers.Values - old(breakers.Values))
      ensures var (after, yes) := old(Checked(Cfg(), View().BreakerOf(p), now));
              admitted == yes && BreakerStates() == old(BreakerStates())[p := after]
    {
      ghost var before, asked := BreakerStates(), View().BreakerOf(p);
      b := BreakerFor(p);
      SetTwice(before, p, asked, Checked(Cfg(), asked, now).0);
      assert BreakerStates()[p] == asked == b.Value();
      admitted := AskBreaker(p, now);
    }

    method AskBreaker(p: Pair, now: real) returns (admitted: bool)
      requires Valid() && p in breakers
      modifies breakers[p]
      ensures var (after, yes) := old(Checked(Cfg(), breakers[p].Value(), now));
              admitted == yes && BreakerStates() == old(BreakerStates())[p := after]
    {
      admitted := breakers[p].Check(now);
    }

    method ReportFailure(p: Pair, now: real) returns (escalate: bool)
      requires Valid() && p in breakers
      modifies breakers[p]
      ensures var (after, yes) := old(Failed(Cfg(), breakers[p].Value(), now));
              escalate == yes && BreakerStates() == old(BreakerStates())[p := after]
    {
      escalate := breakers[p].RecordFailure(now);
    }

    method ReportSuccess(p: Pair)
      requires Valid() && p in breakers
      modifies breakers[p]
      ensures BreakerStates() == old(BreakerStates())[p := FRESH]
    {
      breakers[p].RecordSuccess();
    }

    ghost method DeadLetter(t: Trigger, owner: Option<Pair>)
      modifies this`log
      ensures log == old(log) + [Quarantined(t, owner)]
    {
      log := log + [Quarantined(t, owner)];
    }

    method Propose(req: Proposal, t: Trigger, env: Env)
      requires Valid()
      modifies this`pending, this`log
      ensures Valid() && View() == Proposed(old(View()), req, t, env)
    {
      var step := Request(req, env.freshId, env.reader, erp.store);
      if step.Err? {
        DeadLetter(t, Owner(View(), t));
        return;
      }
      pending := pending[step.value.op.writeId := step.value.op];
      log := log + [Emitted(step.value, t)];
    }

    method ReverseWrite(t: Trigger, env: Env)
      requires Valid() && t.Reverse?
      modifies this`pending, this`log
      ensures Valid() && View() == Reversed(old(View()), t, env)
    {
      if t.writeId !in completed {
        DeadLetter(t, Owner(View(), t));
        return;
      }
      var original := completed[t.writeId];
      if original.state == Completed {
        Propose(ReversalOf(original, t.operation, t.payload, t.requestedBy, t.diffPreview), t, env);
      }
    }

    method FileFailure(op: WriteOperation, cause: Trigger, env: Env)
      requires Valid() && op.PairOf() in breakers
      modifies this`log, breakers[op.PairOf()]
      ensures var (b, escalate) := old(Failed(Cfg(), View().BreakerOf(op.PairOf()), env.reportedAt));
              View() == old(View()).(
                breakers := old(BreakerStates())[op.PairOf() := b],
                log := old(log) + if escalate then [TriedEntry(op, env, true), Quarantined(cause, Some(op.PairOf()))]
                                  else [TriedEntry(op, env, true)])
    {
      assert BreakerStates()[op.PairOf()] == breakers[op.PairOf()].Value();
      var escalate := ReportFailure(op.PairOf(), env.reportedAt);
      log := log + if escalate then [TriedEntry(op, env, true), Quarantined(cause, Some(op.PairOf()))]
                   else [TriedEntry(op, env, true)];
    }

    method FileCompletion(op: WriteOperation, step: WriteStep, cause: Trigger, env: Env)
      requires Valid() && op.PairOf() in breakers
      modifies this`pending, this`completed, this`log, breakers[op.PairOf()]
      ensures View() == old(View()).(
                breakers := old(BreakerStates())[op.PairOf() := FRESH],
                pending := old(pending) - {op.writeId},
                completed := old(completed)[op.writeId := step.op],
                log := old(log) + [TriedEntry(op, env, true), Emitted(step, cause)])
    {
      ReportSuccess(op.PairOf());
      pending := pending - {op.writeId};
      completed := completed[op.writeId := step.op];
      log := log + [TriedEntry(op, env, true), Emitted(step, cause)];
    }

    /** The part of `_execute` behind the gate: call the ERP, report, and file the outcome. */
    method CallErp(op: WriteOperation, cause: Trigger, env: Env)
      requires Valid() && op.state == Approved && op.PairOf() in breakers
      modifies this`pending, this`completed, this`log, erp, breakers[op.PairOf()]
      ensures View() == Called(Cfg(), old(View()), op, cause, env)
    {
      ghost var s := View();
      var step := Writes.Execute(erp, op, env.answer);
      assert View() == s.(store := Commit(s.store, op, env.answer));
      if step.Err? {
        FileFailure(op, cause, env);
      } else {
        FileCompletion(op, step.value, cause, env);
      }
    }

    method Execute(op: WriteOperation, cause: Trigger, env: Env)
      requires Valid() && op.state == Approved
      modifies this, erp, breakers.Values
      ensures Valid() && View() == Executed(Cfg(), old(View()), op, cause, env)
      ensures fresh(breakers.Values - old(breakers.Values))
    {
      var p := op.PairOf();
      ghost var s := View();
      ghost var asked := Checked(Cfg(), s.BreakerOf(p), env.checkedAt).0;
      var b, admitted := Gate(p, env.checkedAt);
      if !admitted {
        log := log + [TriedEntry(op, env, false), Quarantined(cause, Some(p))];
        assert View() == ExecutionRefused(s, op, asked, cause, env);
        return;
      }
      assert b in breakers.Values;
      assert View() == s.(breakers := s.breakers[p := asked]);
      CalledBehindGate(Cfg(), s, op, cause, env);
      CallErp(op, cause, env);
    }

    method Decide(t: Trigger, env: Env)
      requires Valid() && WellKeyed(View()) && t.Decision?
      modifies this, erp, breakers.Values
      ensures Valid() && View() == Decided(Cfg(), old(View()), t, env)
      ensures fresh(breakers.Values - old(breakers.Values))
    {
      if t.writeId !in pending {
        return;
      }
      var op := pending[t.writeId];
      if t.verdict == "approve" {
        if op.state == Approved {
          Execute(op, t, env);
          return;
        }
        ApproveWrite(op, t, env);
      } else {
        RejectWrite(op, t);
      }
    }

    /** A first approval: recorded and published before the ERP is called. */
    method ApproveWrite(op: WriteOperation, t: Trigger, env: Env)
      requires Valid() && t.Decision? && op.writeId == t.writeId && op.state == Requested
      modifies this, erp, breakers.Values
      ensures Valid() && fresh(breakers.Values - old(breakers.Values))
      ensures var step := Approve(op, t.reviewer).value;
              View() == Executed(Cfg(), ApprovalRecorded(old(View()), step, t), step.op, t, env)
    {
      var approved := Approve(op, t.reviewer);
      pending := pending[t.writeId := approved.value.op];
      log := log + [Emitted(approved.value, t)];
      assert View() == ApprovalRecorded(old(View()), approved.value, t);
      Execute(approved.value.op, t, env);
    }

    method RejectWrite(op: WriteOperation, t: Trigger)
      requires Valid() && t.Decision? && op.writeId == t.writeId
      modifies this`pending, this`rejected, this`log
      ensures View() == match Reject(op, t.reviewer, t.reason)
                        case Err(_) => Quarantine(old(View()), t)
                        case Ok(step) => RejectionRecorded(old(View()), step, t)
    {
      var step := Reject(op, t.reviewer, t.reason);
      if step.Err? {
        DeadLetter(t, Owner(View(), t));
        return;
      }
      pending := pending - {t.writeId};
      rejected := rejected[t.writeId := step.value.op];
      log := log + [Emitted(step.value, t)];
    }

    /** One call of `handle` is one step of the protocol. */
    method Handle(t: Trigger, env: Env)
      requires Valid() && WellKeyed(View())
      requires FreshFor(View(), (t, env))
      modifies this, erp, breakers.Values
      ensures Valid()
      ensures View() == Step(Cfg(), old(View()), (t, env))
      ensures fresh(breakers.Values - old(breakers.Values))
    {
      match t
      case Propose(req) => Propose(req, t, env);
      case Decision(_, _, _, _) => Decide(t, env);
      case Reverse(_, _, _, _, _) => ReverseWrite(t, env);
      case OtherSubject =>
    }
  }

  /** A whole run of the agent, event by event, over whatever the ERP holds: from any state
      whose maps are in order (those of a new agent are), it is the protocol's run. */
  method HandleAll(agent: ForgeWriteAgent, events: seq<Event>)
    requires agent.Valid() && WellKeyed(agent.View())
    requires FreshRun(agent.Cfg(), agent.View(), events)
    modifies agent, agent.erp, agent.breakers.Values
    ensures agent.Valid() && agent.View() == old(Run(agent.Cfg(), agent.View(), events))
  {
    ghost var cfg, start := agent.Cfg(), agent.View();
    for i := 0 to |events|
      invariant agent.Valid() && WellKeyed(agent.View())
      invariant agent.View() == Run(cfg, start, events[..i])
      invariant fresh(agent.breakers.Values - old(agent.breakers.Values))
    {
      assert FreshFor(Run(cfg, start, events[..i]), events[i]);
      assert events[..i + 1][..i] == events[..i];
      StepKeepsKeys(cfg, Run(cfg, start, events[..i]), events[i]);
      agent.Handle(events[i].0, events[i].1);
    }
    assert events[..|events|] == events;
  }
}
