/**
 Safety of the write lifecycle over whole runs of the write agent: the event log of
 each write, approval before every ERP call, no lost approved write, and reversals
 that only point back.
 */
module Lifecycle {
  import opened Prelude
  import opened Breaker
  import opened Writes
  import opened WriteProtocol

  function IdOf(e: Entry): string
    requires !e.Quarantined?
  {
    if e.Emitted? then e.step.op.writeId else e.op.writeId
  }

  predicate Publishes(e: Entry, w: string) { e.Emitted? && e.step.op.writeId == w }

  /** The lifecycle events published for one write, in order. */
  function Stages(log: seq<Entry>, w: string): seq<Stage> {
    if log == [] then []
    else
      var n := |log| - 1;
      Stages(log[..n], w) + if Publishes(log[n], w) then [log[n].step.stage] else []
  }

  /** What the log of a write must be, given where the agent holds the write. */
  function Expected(s: State, w: string): seq<Stage> {
    if w in s.pending then
      if s.pending[w].state == Requested then [SRequested] else [SRequested, SApproved]
    else if w in s.completed then [SRequested, SApproved, SCompleted]
    else if w in s.rejected then [SRequested, SRejected]
    else []
  }

  /** A write's content: everything but its lifecycle state. */
  function Content(op: WriteOperation): WriteOperation { op.(state := Requested) }

  function StateAt(stage: Stage): WriteState {
    match stage
    case SRequested => Requested
    case SApproved => Approved
    case SRejected => Rejected
    case SCompleted => Completed
  }

  /** An entry carries the content of a write the agent still accounts for. */
  predicate Agrees(s: State, e: Entry) {
    match e
    case Quarantined(_, _) => true
    case Emitted(step, _) =>
      s.Knows(step.op.writeId) && Content(step.op) == Content(s.Write(step.op.writeId)) && step.op.state == StateAt(step.stage)
    case Tried(op, _, _, _) =>
      s.Knows(op.writeId) && Content(op) == Content(s.Write(op.writeId)) && op.state == Approved
  }

  ghost predicate TriedWhenApproved(log: seq<Entry>) {
    forall i :: 0 <= i < |log| && log[i].Tried? ==> Stages(log[..i], log[i].op.writeId) == [SRequested, SApproved]
  }

  ghost predicate Traced(s: State) {
    && (forall w :: Stages(s.log, w) == Expected(s, w))
    && (forall i :: 0 <= i < |s.log| ==> Agrees(s, s.log[i]))
    && TriedWhenApproved(s.log)
  }

  ghost predicate Sound(s: State) { WellKeyed(s) && Traced(s) }

  // --- One more entry -----------------------------------------------------------

  predicate KeepsWrite(s: State, t: State, w: string) {
    s.Knows(w) ==> t.Knows(w) && Content(t.Write(w)) == Content(s.Write(w))
  }

  lemma Extend(s: State, t: State, e: Entry)
    requires Traced(s) && t.log == s.log + [e] && Agrees(t, e)
    requires forall w :: KeepsWrite(s, t, w)
    requires forall w :: Expected(t, w) == Expected(s, w) + if Publishes(e, w) then [e.step.stage] else []
    requires e.Tried? ==> Stages(s.log, e.op.writeId) == [SRequested, SApproved]
    ensures Traced(t)
  {
    var n := |s.log|;
    assert t.log[..n] == s.log;
    forall i | 0 <= i < |t.log| && t.log[i].Tried?
      ensures Stages(t.log[..i], t.log[i].op.writeId) == [SRequested, SApproved]
    {
      if i < n { assert t.log[..i] == s.log[..i]; }
    }
    forall i | 0 <= i < n ensures Agrees(t, t.log[i]) {
      assert Agrees(s, s.log[i]);
      if !s.log[i].Quarantined? { assert KeepsWrite(s, t, IdOf(s.log[i])); }
    }
  }

  lemma QuarantineSound(s: State, t: State, e: Entry)
    requires Sound(s) && e.Quarantined? && t.log == s.log + [e]
    requires t.pending == s.pending && t.completed == s.completed && t.rejected == s.rejected
    ensures Sound(t)
  {
    Extend(s, t, e);
  }

  lemma TrySound(s: State, t: State, op: WriteOperation, env: Env, called: bool)
    requires Sound(s) && op.writeId in s.pending && s.pending[op.writeId] == op && op.state == Approved
    requires t.log == s.log + [TriedEntry(op, env, called)]
    requires t.pending == s.pending && t.completed == s.completed && t.rejected == s.rejected
    ensures Sound(t)
  {
    assert Stages(s.log, op.writeId) == Expected(s, op.writeId);
    Extend(s, t, TriedEntry(op, env, called));
  }

  lemma ProposalSound(s: State, step: WriteStep, t: Trigger)
    requires Sound(s) && !s.Knows(step.op.writeId) && step.stage == SRequested && step.op.state == Requested
    ensures Sound(ApprovalRecorded(s, step, t))
  {
    Extend(s, ApprovalRecorded(s, step, t), Emitted(step, t));
  }

  lemma ApprovalSound(s: State, op: WriteOperation, reviewer: string, t: Trigger)
    requires Sound(s) && op.writeId in s.pending && s.pending[op.writeId] == op && op.state == Requested
    ensures Sound(ApprovalRecorded(s, Approve(op, reviewer).value, t))
  {
    var step := Approve(op, reviewer).value;
    Extend(s, ApprovalRecorded(s, step, t), Emitted(step, t));
  }

  lemma RejectionSound(s: State, op: WriteOperation, reviewer: string, reason: string, t: Trigger)
    requires Sound(s) && op.writeId in s.pending && s.pending[op.writeId] == op && op.state == Requested
    ensures Sound(RejectionRecorded(s, Reject(op, reviewer, reason).value, t))
  {
    var step := Reject(op, reviewer, reason).value;
    Extend(s, RejectionRecorded(s, step, t), Emitted(step, t));
  }

  lemma CompletionSound(s: State, t: State, op: WriteOperation, cause: Trigger)
    requires Sound(s) && op.writeId in s.pending && s.pending[op.writeId] == op && op.state == Approved
    requires t.log == s.log + [Emitted(CompletedStep(op), cause)]
    requires t.pending == s.pending - {op.writeId} && t.rejected == s.rejected
    requires t.completed == s.completed[op.writeId := op.(state := Completed)]
    ensures Sound(t)
  {
    Extend(s, t, Emitted(CompletedStep(op), cause));
  }

  lemma ExecutedSound(cfg: Config, s: State, op: WriteOperation, cause: Trigger, env: Env)
    requires Sound(s) && op.writeId in s.pending && s.pending[op.writeId] == op && op.state == Approved
    ensures Sound(Executed(cfg, s, op, cause, env))
  {
    var t := Executed(cfg, s, op, cause, env);
    var called := Checked(cfg, s.BreakerOf(op.PairOf()), env.checkedAt).1;
    var tried := s.(log := s.log + [TriedEntry(op, env, called)]);
    TrySound(s, tried, op, env, called);
    if |t.log| == |s.log| + 1 {
      TrySound(s, t, op, env, called);
    } else {
      var last := t.log[|s.log| + 1];
      assert t.log == tried.log + [last];
      if last.Quarantined? {
        QuarantineSound(tried, t, last);
      } else {
        CompletionSound(tried, t, op, cause);
      }
    }
  }

  lemma ProposedSound(s: State, req: Proposal, t: Trigger, env: Env)
    requires Sound(s) && !s.Knows(env.freshId)
    ensures Sound(Proposed(s, req, t, env))
  {
    RequestShape(req, env.freshId, env.reader, s.store);
    if env.reader == ReaderFails {
      QuarantineSound(s, Quarantine(s, t), Quarantined(t, Owner(s, t)));
    } else {
      ProposalSound(s, Request(req, env.freshId, env.reader, s.store).value, t);
    }
  }

  lemma DecidedSound(cfg: Config, s: State, t: Trigger, env: Env)
    requires Sound(s) && t.Decision?
    ensures Sound(Decided(cfg, s, t, env))
  {
    if t.writeId in s.pending {
      var op := s.pending[t.writeId];
      QuarantineSound(s, Quarantine(s, t), Quarantined(t, Owner(s, t)));
      if t.verdict != "approve" {
        if op.state == Requested { RejectionSound(s, op, t.reviewer, t.reason, t); }
      } else if op.state == Approved {
        ExecutedSound(cfg, s, op, t, env);
      } else {
        var step := Approve(op, t.reviewer).value;
        ApprovalSound(s, op, t.reviewer, t);
        ExecutedSound(cfg, ApprovalRecorded(s, step, t), step.op, t, env);
      }
    }
  }

  lemma StepSound(cfg: Config, s: State, e: Event)
    requires Sound(s) && FreshFor(s, e)
    ensures Sound(Step(cfg, s, e))
  {
    match e.0
    case Propose(req) => ProposedSound(s, req, e.0, e.1);
    case Decision(_, _, _, _) => DecidedSound(cfg, s, e.0, e.1);
    case OtherSubject =>
    case Reverse(w, operation, payload, requester, preview) =>
      QuarantineSound(s, Quarantine(s, e.0), Quarantined(e.0, Owner(s, e.0)));
      if w in s.completed {
        ProposedSound(s, ReversalOf(s.completed[w], operation, payload, requester, preview), e.0, e.1);
      }
  }

  lemma {:induction false} RunSound(cfg: Config, s: State, events: seq<Event>)
    requires Sound(s) && FreshRun(cfg, s, events)
    ensures Sound(Run(cfg, s, events))
  {
    if events != [] {
      var n := |events| - 1;
      FreshRunInit(cfg, s, events);
      RunSound(cfg, s, events[..n]);
      StepSound(cfg, Run(cfg, s, events[..n]), events[n]);
    }
  }

  /** s is reached by some run over an ERP that held some records. */
  ghost predicate Reachable(cfg: Config, s: State) {
    exists st, events :: FreshRun(cfg, Start(st), events) && s == Run(cfg, Start(st), events)
  }

  lemma ReachableSound(cfg: Config, s: State)
    requires Reachable(cfg, s)
    ensures Sound(s)
  {
    var st, events :| FreshRun(cfg, Start(st), events) && s == Run(cfg, Start(st), events);
    RunSound(cfg, Start(st), events);
  }

  // --- The theorems ---------------------------------------------------------------

  /** The log of every write is a prefix of requested, approved, completed or of
      requested, rejected; and it tells exactly where the agent holds the write. */
  lemma LogsFollowTheLifecycle(cfg: Config, s: State, w: string)
    requires Reachable(cfg, s)
    ensures Stages(s.log, w) <= [SRequested, SApproved, SCompleted] || Stages(s.log, w) <= [SRequested, SRejected]
    ensures w in s.pending <==> Stages(s.log, w) == [SRequested] || Stages(s.log, w) == [SRequested, SApproved]
    ensures w in s.completed <==> Stages(s.log, w) == [SRequested, SApproved, SCompleted]
    ensures w in s.rejected <==> Stages(s.log, w) == [SRequested, SRejected]
  {
    ReachableSound(cfg, s);
    assert Stages(s.log, w) == Expected(s, w);
  }

  lemma {:induction false} StageFound(log: seq<Entry>, w: string, k: nat) returns (i: nat)
    requires k < |Stages(log, w)|
    ensures i < |log| && Publishes(log[i], w) && log[i].step.stage == Stages(log, w)[k]
    ensures Stages(log[..i], w) == Stages(log, w)[..k]
  {
    var n := |log| - 1;
    var before := Stages(log[..n], w);
    if k < |before| {
      i := StageFound(log[..n], w, k);
      assert log[..n][..i] == log[..i];
      assert Stages(log, w)[..k] == before[..k];
    } else {
      i := n;
      assert Stages(log, w)[..k] == before;
    }
  }

  /** Whenever the ERP is called for a write, that very operation was published as
      approved before, and it has not completed. */
  lemma ErpCallsFollowApproval(cfg: Config, s: State, i: nat) returns (j: nat)
    requires Reachable(cfg, s)
    requires i < |s.log| && s.log[i].Tried? && s.log[i].called
    ensures j < i && s.log[j].Emitted? && s.log[j].step.stage == SApproved && s.log[j].step.op == s.log[i].op
    ensures Stages(s.log[..i], s.log[i].op.writeId) == [SRequested, SApproved]
  {
    ReachableSound(cfg, s);
    j := StageFound(s.log[..i], s.log[i].op.writeId, 1);
    assert Agrees(s, s.log[i]) && Agrees(s, s.log[j]);
    SameContentSameState(s.log[j].step.op, s.log[i].op);
  }

  lemma SameContentSameState(a: WriteOperation, b: WriteOperation)
    requires Content(a) == Content(b) && a.state == b.state
    ensures a == b
  {
    assert a == Content(a).(state := a.state);
  }

  /** What is proposed, approved and completed is one and the same operation. */
  lemma ContentNeverChanges(cfg: Config, s: State, i: nat, j: nat)
    requires Reachable(cfg, s)
    requires i < |s.log| && j < |s.log| && s.log[i].Emitted? && s.log[j].Emitted?
    requires s.log[i].step.op.writeId == s.log[j].step.op.writeId
    ensures Content(s.log[i].step.op) == Content(s.log[j].step.op)
  {
    ReachableSound(cfg, s);
    assert Agrees(s, s.log[i]) && Agrees(s, s.log[j]);
  }

  predicate ApprovedOrDone(s: State, op: WriteOperation) {
    || (op.writeId in s.pending && s.pending[op.writeId] == op)
    || (op.writeId in s.completed && s.completed[op.writeId] == op.(state := Completed))
  }

  lemma ProposedKeepsApproved(s: State, req: Proposal, t: Trigger, env: Env, op: WriteOperation)
    requires WellKeyed(s) && !s.Knows(env.freshId) && ApprovedOrDone(s, op)
    ensures ApprovedOrDone(Proposed(s, req, t, env), op)
  {
    RequestShape(req, env.freshId, env.reader, s.store);
  }

  lemma ExecutedKeepsApproved(cfg: Config, s: State, exec: WriteOperation, t: Trigger, env: Env, op: WriteOperation)
    requires WellKeyed(s) && ApprovedOrDone(s, op)
    requires exec.writeId in s.pending && s.pending[exec.writeId] == exec
    ensures ApprovedOrDone(Executed(cfg, s, exec, t, env), op)
  {
    if Checked(cfg, s.BreakerOf(exec.PairOf()), env.checkedAt).1 && env.answer.CommittedAnswered? {
      CompletionKeepsApproved(s, exec, t, env, op);
    }
  }

  lemma CompletionKeepsApproved(s: State, exec: WriteOperation, t: Trigger, env: Env, op: WriteOperation)
    requires WellKeyed(s) && ApprovedOrDone(s, op)
    requires exec.writeId in s.pending && s.pending[exec.writeId] == exec
    ensures ApprovedOrDone(ExecutionCompleted(s, exec, t, env), op)
  {
  }

  lemma DecidedKeepsApproved(cfg: Config, s: State, t: Trigger, env: Env, op: WriteOperation)
    requires WellKeyed(s) && t.Decision? && op.state == Approved && ApprovedOrDone(s, op)
    ensures ApprovedOrDone(Decided(cfg, s, t, env), op)
  {
    if t.writeId in s.pending && t.verdict == "approve" {
      var exec := s.pending[t.writeId];
      if exec.state == Approved {
        ExecutedKeepsApproved(cfg, s, exec, t, env, op);
      } else {
        var step := Approve(exec, t.reviewer).value;
        ApprovalKeepsKeys(s, step, t);
        ExecutedKeepsApproved(cfg, ApprovalRecorded(s, step, t), step.op, t, env, op);
      }
    }
  }

  lemma StepKeepsApproved(cfg: Config, s: State, e: Event, op: WriteOperation)
    requires WellKeyed(s) && FreshFor(s, e) && op.state == Approved && ApprovedOrDone(s, op)
    ensures ApprovedOrDone(Step(cfg, s, e), op)
  {
    match e.0
    case Propose(req) => ProposedKeepsApproved(s, req, e.0, e.1, op);
    case Decision(_, _, _, _) => DecidedKeepsApproved(cfg, s, e.0, e.1, op);
    case OtherSubject =>
    case Reverse(w, operation, payload, requester, preview) =>
      if w in s.completed {
        ProposedKeepsApproved(s, ReversalOf(s.completed[w], operation, payload, requester, preview), e.0, e.1, op);
      }
  }

  /** No approved write ever disappears: from approval on it is pending and approved,
      unchanged, or completed, whatever events, failures and replays follow. */
  lemma {:induction false} ApprovedNeverLost(cfg: Config, s: State, events: seq<Event>, op: WriteOperation)
    requires WellKeyed(s) && FreshRun(cfg, s, events)
    requires op.state == Approved && ApprovedOrDone(s, op)
    ensures ApprovedOrDone(Run(cfg, s, events), op)
  {
    if events != [] {
      var n := |events| - 1;
      FreshRunInit(cfg, s, events);
      ApprovedNeverLost(cfg, s, events[..n], op);
      RunKeepsKeys(cfg, s, events[..n]);
      StepKeepsApproved(cfg, Run(cfg, s, events[..n]), events[n], op);
    }
  }

  // --- Reversals --------------------------------------------------------------------

  predicate IsReversal(e: Entry) { e.Emitted? && e.step.stage == SRequested && e.trigger.Reverse? }

  predicate CompletedAt(log: seq<Entry>, j: int, w: string) {
    0 <= j < |log| && Publishes(log[j], w) && log[j].step.stage == SCompleted
  }

  /** Request i names, as the write it reverses, one of its own pair completed earlier. */
  ghost predicate PointsToCompleted(log: seq<Entry>, i: int) {
    && 0 <= i < |log| && log[i].Emitted?
    && log[i].step.op.reverses.Some?
    && exists j :: j < i && CompletedAt(log, j, log[i].step.op.reverses.value)
                   && log[j].step.op.PairOf() == log[i].step.op.PairOf()
  }

  /** Request e compensates for write w: it names w, and entry j is w's completion, of the same
      tenant, ERP and module. */
  predicate Compensates(log: seq<Entry>, e: Entry, w: string, j: int) {
    && CompletedAt(log, j, w) && e.Emitted? && e.step.op.reverses == Some(w)
    && log[j].step.op.PairOf() == e.step.op.PairOf() && log[j].step.op.targetModule == e.step.op.targetModule
  }

  ghost predicate PointsBack(log: seq<Entry>, i: int) {
    0 <= i < |log| && IsReversal(log[i]) ==>
      exists j :: j < i && Compensates(log, log[i], log[i].trigger.writeId, j)
  }

  lemma PointsBackExtends(log: seq<Entry>, e: Entry)
    requires forall i :: PointsBack(log, i)
    requires IsReversal(e) ==> exists j :: Compensates(log, e, e.trigger.writeId, j)
    ensures forall i :: PointsBack(log + [e], i)
  {
    var all := log + [e];
    forall i | 0 <= i < |all| && IsReversal(all[i]) ensures PointsBack(all, i) {
      assert PointsBack(log, i);
      var j :| j < i && Compensates(log, all[i], all[i].trigger.writeId, j);
      assert Compensates(all, all[i], all[i].trigger.writeId, j);
    }
  }

  lemma ProposedPointsBack(s: State, req: Proposal, t: Trigger, env: Env)
    requires forall i :: PointsBack(s.log, i)
    requires t.Reverse? ==>
               && req.reverses == Some(t.writeId)
               && exists j :: CompletedAt(s.log, j, t.writeId)
                              && s.log[j].step.op.PairOf() == Pair(req.tenantId, req.erpPlatform)
                              && s.log[j].step.op.targetModule == req.targetModule
    ensures forall i :: PointsBack(Proposed(s, req, t, env).log, i)
  {
    RequestShape(req, env.freshId, env.reader, s.store);
    if env.reader == ReaderFails {
      PointsBackExtends(s.log, Quarantined(t, Owner(s, t)));
    } else {
      var e := Emitted(Request(req, env.freshId, env.reader, s.store).value, t);
      if t.Reverse? {
        var j :| CompletedAt(s.log, j, t.writeId)
                 && s.log[j].step.op.PairOf() == Pair(req.tenantId, req.erpPlatform)
                 && s.log[j].step.op.targetModule == req.targetModule;
        assert Compensates(s.log, e, t.writeId, j);
      }
      PointsBackExtends(s.log, e);
    }
  }

  lemma ExecutedPointsBack(cfg: Config, s: State, op: WriteOperation, t: Trigger, env: Env)
    requires (forall i :: PointsBack(s.log, i)) && t.Decision?
    ensures forall i :: PointsBack(Executed(cfg, s, op, t, env).log, i)
  {
    var log := Executed(cfg, s, op, t, env).log;
    var n := |s.log|;
    PointsBackExtends(s.log, log[n]);
    if |log| == n + 1 {
      assert log == s.log + [log[n]];
    } else {
      PointsBackExtends(s.log + [log[n]], log[n + 1]);
      assert log == s.log + [log[n]] + [log[n + 1]];
    }
  }

  lemma DecidedPointsBack(cfg: Config, s: State, t: Trigger, env: Env)
    requires WellKeyed(s) && t.Decision? && forall i :: PointsBack(s.log, i)
    ensures forall i :: PointsBack(Decided(cfg, s, t, env).log, i)
  {
    if t.writeId in s.pending {
      var op := s.pending[t.writeId];
      PointsBackExtends(s.log, Quarantined(t, Owner(s, t)));
      if t.verdict != "approve" {
        if op.state == Requested { PointsBackExtends(s.log, Emitted(Reject(op, t.reviewer, t.reason).value, t)); }
      } else if op.state == Approved {
        ExecutedPointsBack(cfg, s, op, t, env);
      } else {
        var step := Approve(op, t.reviewer).value;
        PointsBackExtends(s.log, Emitted(step, t));
        ExecutedPointsBack(cfg, ApprovalRecorded(s, step, t), step.op, t, env);
      }
    }
  }

  lemma ReversedPointsBack(s: State, t: Trigger, env: Env)
    requires Sound(s) && t.Reverse? && forall i :: PointsBack(s.log, i)
    ensures forall i :: PointsBack(Reversed(s, t, env).log, i)
  {
    if t.writeId !in s.completed {
      PointsBackExtends(s.log, Quarantined(t, Owner(s, t)));
    } else {
      var original := s.completed[t.writeId];
      assert Stages(s.log, t.writeId) == Expected(s, t.writeId);
      var j := StageFound(s.log, t.writeId, 2);
      assert Agrees(s, s.log[j]);
      assert Content(s.log[j].step.op).PairOf() == Content(original).PairOf();
      assert Content(s.log[j].step.op).targetModule == Content(original).targetModule;
      assert CompletedAt(s.log, j, t.writeId);
      ProposedPointsBack(s, ReversalOf(original, t.operation, t.payload, t.requestedBy, t.diffPreview), t, env);
    }
  }

  lemma StepPointsBack(cfg: Config, s: State, e: Event)
    requires Sound(s) && FreshFor(s, e) && forall i :: PointsBack(s.log, i)
    ensures forall i :: PointsBack(Step(cfg, s, e).log, i)
  {
    match e.0
    case Propose(req) => ProposedPointsBack(s, req, e.0, e.1);
    case Decision(_, _, _, _) => DecidedPointsBack(cfg, s, e.0, e.1);
    case Reverse(_, _, _, _, _) => ReversedPointsBack(s, e.0, e.1);
    case OtherSubject =>
  }

  /** A reversal made by the agent names the write its trigger named, whose completed event
      came earlier, of the same tenant, ERP and module. */
  lemma {:induction false} ReversalsPointBack(cfg: Config, st: Store, events: seq<Event>)
    requires FreshRun(cfg, Start(st), events)
    ensures forall i :: PointsBack(Run(cfg, Start(st), events).log, i)
  {
    if events != [] {
      var n := |events| - 1;
      FreshRunInit(cfg, Start(st), events);
      ReversalsPointBack(cfg, st, events[..n]);
      RunSound(cfg, Start(st), events[..n]);
      StepPointsBack(cfg, Run(cfg, Start(st), events[..n]), events[n]);
    }
  }

  /** Such a request points to a completed write. */
  lemma PointsBackPoints(log: seq<Entry>, i: int)
    requires 0 <= i < |log| && IsReversal(log[i]) && PointsBack(log, i)
    ensures PointsToCompleted(log, i)
  {
    var j :| j < i && Compensates(log, log[i], log[i].trigger.writeId, j);
    assert CompletedAt(log, j, log[i].step.op.reverses.value);
  }

  predicate RequestedAt(log: seq<Entry>, i: int, w: string) {
    0 <= i < |log| && Publishes(log[i], w) && log[i].step.stage == SRequested
  }

  lemma {:induction false} StagesPrefix(log: seq<Entry>, i: nat, w: string)
    requires i <= |log|
    ensures Stages(log[..i], w) <= Stages(log, w)
  {
    if i < |log| {
      assert log[..|log| - 1][..i] == log[..i];
      StagesPrefix(log[..|log| - 1], i, w);
    } else {
      assert log[..i] == log;
    }
  }

  lemma StagesAt(log: seq<Entry>, i: int, w: string)
    requires 0 <= i < |log| && Publishes(log[i], w)
    ensures Stages(log[..i], w) + [log[i].step.stage] <= Stages(log, w)
  {
    assert log[..i + 1][..i] == log[..i];
    StagesPrefix(log, i + 1, w);
  }

  /** A write is requested at one place of the log only, before anything else of it. */
  lemma RequestIsFirst(s: State, i: int, w: string)
    requires Sound(s) && RequestedAt(s.log, i, w)
    ensures Stages(s.log[..i], w) == []
  {
    StagesAt(s.log, i, w);
    var k := |Stages(s.log[..i], w)|;
    assert Expected(s, w) == Stages(s.log, w);
    assert Expected(s, w)[k] == SRequested;
  }

  lemma OneRequest(s: State, i: int, j: int, w: string)
    requires Sound(s) && RequestedAt(s.log, i, w) && RequestedAt(s.log, j, w)
    ensures i == j
  {
    RequestIsFirst(s, i, w);
    RequestIsFirst(s, j, w);
    var lo, hi := if i < j then i else j, if i < j then j else i;
    if lo < hi {
      assert s.log[..hi][..lo + 1] == s.log[..lo + 1];
      StagesPrefix(s.log[..hi], lo + 1, w);
    }
  }

  lemma RequestedOnce(cfg: Config, s: State, i: int, j: int, w: string)
    requires Reachable(cfg, s) && RequestedAt(s.log, i, w) && RequestedAt(s.log, j, w)
    ensures i == j
  {
    ReachableSound(cfg, s);
    OneRequest(s, i, j, w);
  }

  /** w was requested as a reversal of v, by whatever trigger, and v had been completed. */
  ghost predicate Reverses(log: seq<Entry>, w: string, v: string) {
    exists i :: RequestedAt(log, i, w) && PointsToCompleted(log, i) && log[i].step.op.reverses == Some(v)
  }

  lemma CompletedAfterRequested(s: State, j: int, v: string) returns (k: int)
    requires Sound(s) && CompletedAt(s.log, j, v)
    ensures RequestedAt(s.log, k, v) && k < j
  {
    StagesAt(s.log, j, v);
    var before := Stages(s.log[..j], v);
    assert Expected(s, v) == Stages(s.log, v);
    assert Expected(s, v)[|before|] == SCompleted;
    assert before[0] == Expected(s, v)[0];
    k := StageFound(s.log[..j], v, 0);
  }

  lemma ReversalIsLater(s: State, w: string, v: string) returns (i: int, k: int)
    requires Sound(s) && Reverses(s.log, w, v)
    ensures RequestedAt(s.log, i, w) && RequestedAt(s.log, k, v) && k < i
  {
    i :| RequestedAt(s.log, i, w) && PointsToCompleted(s.log, i) && s.log[i].step.op.reverses == Some(v);
    var j :| j < i && CompletedAt(s.log, j, v) && s.log[j].step.op.PairOf() == s.log[i].step.op.PairOf();
    k := CompletedAfterRequested(s, j, v);
  }

  ghost predicate Linked(log: seq<Entry>, chain: seq<string>, n: int) {
    0 <= n < |chain| - 1 ==> Reverses(log, chain[n], chain[n + 1])
  }

  ghost predicate ReversalChain(log: seq<Entry>, chain: seq<string>) {
    forall n :: Linked(log, chain, n)
  }

  lemma {:induction false} ChainGoesBack(s: State, chain: seq<string>) returns (i: int, k: int)
    requires Sound(s) && |chain| >= 2 && ReversalChain(s.log, chain)
    ensures RequestedAt(s.log, i, chain[0]) && RequestedAt(s.log, k, chain[|chain| - 1]) && k < i
  {
    assert Linked(s.log, chain, 0);
    i, k := ReversalIsLater(s, chain[0], chain[1]);
    if |chain| > 2 {
      forall n ensures Linked(s.log, chain[1..], n) {
        assert Linked(s.log, chain, n + 1);
      }
      var i1, k1 := ChainGoesBack(s, chain[1..]);
      OneRequest(s, k, i1, chain[1]);
      k := k1;
    }
  }

  /** Links to completed writes are acyclic, whichever triggers made them; all those the
      reverse trigger makes are such links (ReversalsPointBack). */
  lemma ReversalsAreAcyclic(cfg: Config, s: State, chain: seq<string>)
    requires Reachable(cfg, s) && |chain| >= 2 && ReversalChain(s.log, chain)
    ensures chain[0] != chain[|chain| - 1]
  {
    ReachableSound(cfg, s);
    var i, k := ChainGoesBack(s, chain);
    if chain[0] == chain[|chain| - 1] { OneRequest(s, i, k, chain[0]); }
  }

  // --- What a plain proposal may claim to reverse -----------------------------------------

  lemma CompletedInLogIff(s: State, v: string, p: Pair)
    requires Sound(s)
    ensures (exists j :: CompletedAt(s.log, j, v) && s.log[j].step.op.PairOf() == p) <==>
            v in s.completed && s.completed[v].PairOf() == p
  {
    assert Stages(s.log, v) == Expected(s, v);
    if j :| CompletedAt(s.log, j, v) && s.log[j].step.op.PairOf() == p {
      StagesAt(s.log, j, v);
      assert Expected(s, v)[|Stages(s.log[..j], v)|] == SCompleted;
      CompletedPair(s, j, v);
    }
    if v in s.completed && s.completed[v].PairOf() == p {
      var j := StageFound(s.log, v, 2);
      CompletedPair(s, j, v);
      assert CompletedAt(s.log, j, v);
    }
  }

  lemma CompletedPair(s: State, j: int, v: string)
    requires Sound(s) && 0 <= j < |s.log| && Publishes(s.log[j], v) && v in s.completed
    ensures s.log[j].step.op.PairOf() == s.completed[v].PairOf()
  {
    assert Agrees(s, s.log[j]);
    assert Content(s.log[j].step.op).PairOf() == Content(s.Write(v)).PairOf();
  }

  lemma RefusedLog(cfg: Config, s: State, op: WriteOperation, t: Trigger, env: Env)
    requires !Checked(cfg, s.BreakerOf(op.PairOf()), env.checkedAt).1
    ensures Executed(cfg, s, op, t, env).log == s.log + [TriedEntry(op, env, false), Quarantined(t, Some(op.PairOf()))]
  {
  }

  lemma AnsweredLog(cfg: Config, s: State, op: WriteOperation, t: Trigger, env: Env)
    requires Checked(cfg, s.BreakerOf(op.PairOf()), env.checkedAt).1 && env.answer.CommittedAnswered?
    ensures Executed(cfg, s, op, t, env).log == s.log + [TriedEntry(op, env, true), Emitted(CompletedStep(op), t)]
  {
  }

  lemma FailedLog(cfg: Config, s: State, op: WriteOperation, t: Trigger, env: Env)
    requires Checked(cfg, s.BreakerOf(op.PairOf()), env.checkedAt).1 && !env.answer.CommittedAnswered?
    ensures Executed(cfg, s, op, t, env).log == s.log +
              if Failed(cfg, Checked(cfg, s.BreakerOf(op.PairOf()), env.checkedAt).0, env.reportedAt).1
              then [TriedEntry(op, env, true), Quarantined(t, Some(op.PairOf()))] else [TriedEntry(op, env, true)]
  {
  }

  /** What an execution adds to the log: one use of the gate, and after it the completion, the
      decision quarantined, or nothing. */
  lemma ExecutedLog(cfg: Config, s: State, op: WriteOperation, t: Trigger, env: Env) returns (more: seq<Entry>)
    ensures Executed(cfg, s, op, t, env).log == s.log + more
    ensures var (b, admitted) := Checked(cfg, s.BreakerOf(op.PairOf()), env.checkedAt);
            more == [TriedEntry(op, env, admitted)] +
              if admitted && env.answer.CommittedAnswered? then [Emitted(CompletedStep(op), t)]
              else if !admitted || Failed(cfg, b, env.reportedAt).1 then [Quarantined(t, Some(op.PairOf()))]
              else []
  {
    var (b, admitted) := Checked(cfg, s.BreakerOf(op.PairOf()), env.checkedAt);
    if !admitted {
      RefusedLog(cfg, s, op, t, env);
      more := [TriedEntry(op, env, false), Quarantined(t, Some(op.PairOf()))];
    } else if env.answer.CommittedAnswered? {
      AnsweredLog(cfg, s, op, t, env);
      more := [TriedEntry(op, env, true), Emitted(CompletedStep(op), t)];
    } else {
      FailedLog(cfg, s, op, t, env);
      more := [TriedEntry(op, env, true)] +
        if Failed(cfg, b, env.reportedAt).1 then [Quarantined(t, Some(op.PairOf()))] else [];
    }
  }

  lemma ExecutedAppends(cfg: Config, s: State, op: WriteOperation, t: Trigger, env: Env)
    ensures s.log <= Executed(cfg, s, op, t, env).log
  {
    var more := ExecutedLog(cfg, s, op, t, env);
  }

  lemma DecidedAppends(cfg: Config, s: State, t: Trigger, env: Env)
    requires t.Decision?
    ensures s.log <= Decided(cfg, s, t, env).log
  {
    if t.writeId in s.pending && t.verdict == "approve" {
      var op := s.pending[t.writeId];
      if op.state == Approved {
        ExecutedAppends(cfg, s, op, t, env);
      } else if op.state == Requested {
        var step := Approve(op, t.reviewer).value;
        ExecutedAppends(cfg, ApprovalRecorded(s, step, t), step.op, t, env);
      }
    }
  }

  lemma ProposedAppends(s: State, req: Proposal, t: Trigger, env: Env)
    ensures s.log <= Proposed(s, req, t, env).log
  {
  }

  lemma StepAppends(cfg: Config, s: State, e: Event)
    ensures s.log <= Step(cfg, s, e).log
  {
    match e.0
    case Propose(req) => ProposedAppends(s, req, e.0, e.1);
    case Decision(_, _, _, _) => DecidedAppends(cfg, s, e.0, e.1);
    case OtherSubject =>
    case Reverse(w, operation, payload, requester, preview) =>
      if w in s.completed {
        ProposedAppends(s, ReversalOf(s.completed[w], operation, payload, requester, preview), e.0, e.1);
      }
  }

  lemma LastAppends(cfg: Config, s: State, events: seq<Event>)
    requires events != []
    ensures Run(cfg, s, events[..|events| - 1]).log <= Run(cfg, s, events).log
  {
    RunLast(cfg, s, events);
    StepAppends(cfg, Run(cfg, s, events[..|events| - 1]), events[|events| - 1]);
  }

  lemma EventAppends(cfg: Config, s: State, events: seq<Event>, j: nat)
    requires j < |events|
    ensures Run(cfg, s, events[..j]).log <= Run(cfg, s, events[..j + 1]).log
  {
    assert events[..j + 1][..j] == events[..j];
    LastAppends(cfg, s, events[..j + 1]);
  }

  lemma {:induction false} Growing(logs: seq<seq<Entry>>, k: nat, j: nat)
    requires k <= j < |logs| && forall i :: 0 <= i < |logs| - 1 ==> logs[i] <= logs[i + 1]
    ensures logs[k] <= logs[j]
  {
    if k < j { Growing(logs, k, j - 1); }
  }

  lemma RunAppends(cfg: Config, s: State, events: seq<Event>, k: nat)
    requires k <= |events|
    ensures Run(cfg, s, events[..k]).log <= Run(cfg, s, events).log
  {
    var logs := seq(|events| + 1, i requires 0 <= i <= |events| => Run(cfg, s, events[..i]).log);
    forall i | 0 <= i < |events| ensures logs[i] <= logs[i + 1] { EventAppends(cfg, s, events, i); }
    Growing(logs, k, |events|);
    assert events[..|events|] == events;
  }

  lemma FreshRunPrefix(cfg: Config, s: State, events: seq<Event>, k: nat)
    requires k <= |events| && FreshRun(cfg, s, events)
    ensures FreshRun(cfg, s, events[..k])
  {
    forall i | 0 <= i < k ensures FreshFor(Run(cfg, s, events[..k][..i]), events[..k][i]) {
      assert events[..k][..i] == events[..i];
    }
  }

  lemma PointsIntoPrefix(log: seq<Entry>, i: nat)
    requires i < |log| && log[i].Emitted? && log[i].step.op.reverses.Some?
    ensures PointsToCompleted(log, i) <==>
            exists j :: CompletedAt(log[..i], j, log[i].step.op.reverses.value)
                        && log[..i][j].step.op.PairOf() == log[i].step.op.PairOf()
  {
    var v := log[i].step.op.reverses.value;
    forall j | CompletedAt(log[..i], j, v) ensures CompletedAt(log, j, v) && log[..i][j] == log[j] {}
    forall j | CompletedAt(log, j, v) && j < i ensures CompletedAt(log[..i], j, v) && log[..i][j] == log[j] {}
  }

  /** Over any run: the request an event publishes points to a write of its pair completed
      earlier exactly when that write was among the completed ones, for that pair, when the
      event was handled. `_reverse` checks the first half and copies the pair; a plain
      proposal is not checked. */
  lemma RequestPointsBackIff(cfg: Config, st: Store, events: seq<Event>, k: nat, v: string)
    requires FreshRun(cfg, Start(st), events) && k < |events|
    requires var s, log := Run(cfg, Start(st), events[..k]), Run(cfg, Start(st), events).log;
             |s.log| < |log| && log[|s.log|].Emitted? && log[|s.log|].step.op.reverses == Some(v)
    ensures var s, log := Run(cfg, Start(st), events[..k]), Run(cfg, Start(st), events).log;
            PointsToCompleted(log, |s.log|) <==>
            v in s.completed && s.completed[v].PairOf() == log[|s.log|].step.op.PairOf()
  {
    var s, log := Run(cfg, Start(st), events[..k]), Run(cfg, Start(st), events).log;
    RunAppends(cfg, Start(st), events, k);
    FreshRunPrefix(cfg, Start(st), events, k);
    RunSound(cfg, Start(st), events[..k]);
    assert log[..|s.log|] == s.log;
    PointsIntoPrefix(log, |s.log|);
    CompletedInLogIff(s, v, log[|s.log|].step.op.PairOf());
  }

  /** The first proposal an agent ever gets may claim to reverse anything, even itself: it
      is published and pending all the same. */
  lemma ProposalMayReverseNothing(cfg: Config, st: Store, req: Proposal, env: Env, v: string)
    requires req.reverses == Some(v) && env.reader != ReaderFails
    ensures FreshRun(cfg, Start(st), [(Propose(req), env)])
    ensures var s := Run(cfg, Start(st), [(Propose(req), env)]);
            && env.freshId in s.pending && RequestedAt(s.log, 0, env.freshId)
            && s.log[0].step.op.reverses == Some(v) && !PointsToCompleted(s.log, 0)
  {
    var events := [(Propose(req), env)];
    assert events[..0] == [];
    RequestShape(req, env.freshId, env.reader, st);
    assert Run(cfg, Start(st), events) == Proposed(Start(st), req, Propose(req), env);
  }
}
