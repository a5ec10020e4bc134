/**
 What each event may cause, over whole runs of the write agent: an approval or a rejection
 is published for the verdict that was given and by whom, a request carries what was asked
 for, and no event is dropped without a trace.
 */
module Decisions {
  import opened Prelude
  import opened Breaker
  import opened Writes
  import opened WriteProtocol
  import opened Lifecycle

  // --- Every published event answers to its trigger -------------------------------------

  /** A preview that is not derived is the text the caller gave, or says that there is none. */
  predicate PreviewFrom(preview: Preview, given: Option<string>) {
    && (preview.Asserted? ==> given == Some(preview.text))
    && (preview.Unavailable? ==> given == None)
  }

  /** The request carries the proposal, field by field. */
  predicate CarriesProposal(op: WriteOperation, req: Proposal) {
    && op.tenantId == req.tenantId && op.erpPlatform == req.erpPlatform
    && op.operation == req.operation && op.targetModule == req.targetModule
    && op.payload == req.payload && op.requestedBy == req.requestedBy
    && op.reverses == req.reverses && op.targetExternalId == req.targetExternalId
    && PreviewFrom(op.diffPreview, req.diffPreview)
  }

  /** A compensating request carries what the caller asked for, and makes a record of its own. */
  predicate CarriesReversal(op: WriteOperation, t: Trigger)
    requires t.Reverse?
  {
    && op.operation == t.operation && op.payload == t.payload && op.requestedBy == t.requestedBy
    && op.reverses == Some(t.writeId) && op.targetExternalId == None
    && PreviewFrom(op.diffPreview, t.diffPreview)
  }

  predicate DecidedFor(step: WriteStep, t: Trigger) {
    t.Decision? && t.writeId == step.op.writeId
  }

  /** The published step is one its trigger asked for. */
  predicate Answers(step: WriteStep, t: Trigger) {
    match step.stage
    case SRequested =>
      && step.actor == step.op.requestedBy
      && (match t
          case Propose(req) => CarriesProposal(step.op, req)
          case Reverse(_, _, _, _, _) => CarriesReversal(step.op, t)
          case _ => false)
    case SApproved => DecidedFor(step, t) && t.verdict == "approve" && step.actor == t.reviewer
    case SRejected => DecidedFor(step, t) && t.verdict != "approve" && step.actor == t.reviewer && step.reason == t.reason
    case SCompleted => DecidedFor(step, t) && t.verdict == "approve"
  }

  predicate Lawful(e: Entry) { e.Emitted? ==> Answers(e.step, e.trigger) }

  predicate LawfulSince(before: seq<Entry>, after: seq<Entry>) {
    before <= after && forall i :: |before| <= i < |after| ==> Lawful(after[i])
  }

  ghost predicate AllLawful(log: seq<Entry>) { forall i :: 0 <= i < |log| ==> Lawful(log[i]) }

  lemma LawfulExtends(before: seq<Entry>, after: seq<Entry>)
    requires AllLawful(before) && LawfulSince(before, after)
    ensures AllLawful(after)
  {
  }

  lemma LawfulMore(before: seq<Entry>, more: seq<Entry>)
    requires forall e :: e in more ==> Lawful(e)
    ensures LawfulSince(before, before + more)
  {
    forall i | |before| <= i < |before + more| ensures Lawful((before + more)[i]) { assert (before + more)[i] in more; }
  }

  lemma RequestCarries(req: Proposal, env: Env, store: Store)
    requires env.reader != ReaderFails
    ensures var step := Request(req, env.freshId, env.reader, store).value;
            && step.stage == SRequested && CarriesProposal(step.op, req) && step.actor == step.op.requestedBy
            && step.op.writeId == env.freshId && step.op.state == Requested
  {
  }

  lemma ProposedLawful(s: State, req: Proposal, env: Env)
    ensures LawfulSince(s.log, Proposed(s, req, Propose(req), env).log)
  {
    RequestShape(req, env.freshId, env.reader, s.store);
    if env.reader != ReaderFails { RequestCarries(req, env, s.store); }
  }

  lemma ReversedLawful(s: State, t: Trigger, env: Env)
    requires t.Reverse? && WellKeyed(s)
    ensures LawfulSince(s.log, Reversed(s, t, env).log)
  {
    if t.writeId in s.completed {
      var req := ReversalOf(s.completed[t.writeId], t.operation, t.payload, t.requestedBy, t.diffPreview);
      RequestShape(req, env.freshId, env.reader, s.store);
      if env.reader != ReaderFails { RequestCarries(req, env, s.store); }
    }
  }

  lemma ExecutedLawful(cfg: Config, s: State, op: WriteOperation, t: Trigger, env: Env)
    requires t.Decision? && t.verdict == "approve" && t.writeId == op.writeId
    ensures LawfulSince(s.log, Executed(cfg, s, op, t, env).log)
  {
    var more := ExecutedLog(cfg, s, op, t, env);
    LawfulMore(s.log, more);
  }

  lemma ApprovedLawful(cfg: Config, s: State, op: WriteOperation, t: Trigger, env: Env)
    requires t.Decision? && t.verdict == "approve" && t.writeId == op.writeId && op.state == Requested
    ensures var step := Approve(op, t.reviewer).value;
            LawfulSince(s.log, Executed(cfg, ApprovalRecorded(s, step, t), step.op, t, env).log)
  {
    var step := Approve(op, t.reviewer).value;
    ExecutedLawful(cfg, ApprovalRecorded(s, step, t), step.op, t, env);
  }

  lemma DecidedLawful(cfg: Config, s: State, t: Trigger, env: Env)
    requires t.Decision? && WellKeyed(s)
    ensures LawfulSince(s.log, Decided(cfg, s, t, env).log)
  {
    if t.writeId in s.pending && t.verdict == "approve" {
      var op := s.pending[t.writeId];
      if op.state == Approved { ExecutedLawful(cfg, s, op, t, env); } else { ApprovedLawful(cfg, s, op, t, env); }
    }
  }

  lemma StepLawful(cfg: Config, s: State, e: Event)
    requires WellKeyed(s)
    ensures LawfulSince(s.log, Step(cfg, s, e).log)
  {
    match e.0
    case Propose(req) => ProposedLawful(s, req, e.1);
    case Decision(_, _, _, _) => DecidedLawful(cfg, s, e.0, e.1);
    case Reverse(_, _, _, _, _) => ReversedLawful(s, e.0, e.1);
    case OtherSubject =>
  }

  /** Over any run, every published event answers to the trigger it was published for:
      requests carry exactly what was proposed, or what the caller of a reversal gave; a write
      is approved only by a decision on it with the verdict "approve", rejected only by one
      with another verdict, and both name that decision's reviewer. */
  lemma {:induction false} EventsAnswerTriggers(cfg: Config, st: Store, events: seq<Event>)
    requires FreshRun(cfg, Start(st), events)
    ensures AllLawful(Run(cfg, Start(st), events).log)
  {
    if events != [] {
      var n := |events| - 1;
      FreshRunInit(cfg, Start(st), events);
      EventsAnswerTriggers(cfg, st, events[..n]);
      RunKeepsKeys(cfg, Start(st), events[..n]);
      StepLawful(cfg, Run(cfg, Start(st), events[..n]), events[n]);
      RunLast(cfg, Start(st), events);
      LawfulExtends(Run(cfg, Start(st), events[..n]).log, Run(cfg, Start(st), events).log);
    }
  }

  /** Every ERP call follows a reviewer's own "approve" on that very operation. */
  lemma CallsWereApproved(cfg: Config, st: Store, events: seq<Event>, i: nat) returns (j: nat)
    requires FreshRun(cfg, Start(st), events)
    requires var log := Run(cfg, Start(st), events).log; i < |log| && log[i].Tried? && log[i].called
    ensures var log := Run(cfg, Start(st), events).log;
            && j < i && log[j].Emitted? && log[j].step.stage == SApproved && log[j].step.op == log[i].op
            && log[j].trigger.Decision? && log[j].trigger.verdict == "approve"
            && log[j].trigger.writeId == log[i].op.writeId && log[j].trigger.reviewer == log[j].step.actor
  {
    EventsAnswerTriggers(cfg, st, events);
    j := ErpCallsFollowApproval(cfg, Run(cfg, Start(st), events), i);
    assert Lawful(Run(cfg, Start(st), events).log[j]);
  }

  /** A compensating request: the caller's operation and payload, in the module, for the tenant
      and the ERP of the write it compensates for, which completed earlier. */
  lemma ReversalsCompensate(cfg: Config, st: Store, events: seq<Event>, i: nat) returns (j: nat)
    requires FreshRun(cfg, Start(st), events)
    requires var log := Run(cfg, Start(st), events).log; i < |log| && IsReversal(log[i])
    ensures var log := Run(cfg, Start(st), events).log;
            && CarriesReversal(log[i].step.op, log[i].trigger) && PointsToCompleted(log, i)
            && j < i && CompletedAt(log, j, log[i].trigger.writeId)
            && log[i].step.op.targetModule == log[j].step.op.targetModule
            && log[i].step.op.PairOf() == log[j].step.op.PairOf()
  {
    var log := Run(cfg, Start(st), events).log;
    EventsAnswerTriggers(cfg, st, events);
    assert Lawful(log[i]);
    ReversalsPointBack(cfg, st, events);
    assert PointsBack(log, i);
    PointsBackPoints(log, i);
    j :| 0 <= j < i && Compensates(log, log[i], log[i].trigger.writeId, j);
  }

  // --- What one decision does -------------------------------------------------------------

  /** Any verdict but "approve" leaves the ERP and the breakers alone and calls nothing. It
      rejects a write that awaits review, for good; on one already approved it is quarantined
      and changes nothing else; on an unknown one it does nothing. */
  lemma OtherVerdictsReject(cfg: Config, s: State, t: Trigger, env: Env)
    requires WellKeyed(s) && t.Decision? && t.verdict != "approve"
    ensures var u := Step(cfg, s, (t, env));
            && u.store == s.store && u.breakers == s.breakers && u.completed == s.completed
            && s.log <= u.log && (forall i :: |s.log| <= i < |u.log| ==> !u.log[i].Tried?)
            && (t.writeId !in s.pending ==> u == s)
            && (t.writeId in s.pending && s.pending[t.writeId].state == Requested ==>
                  && t.writeId in u.rejected && t.writeId !in u.pending
                  && u.rejected[t.writeId] == s.pending[t.writeId].(state := Rejected)
                  && |u.log| == |s.log| + 1 && u.log[|s.log|].Emitted? && u.log[|s.log|].step.stage == SRejected
                  && u.log[|s.log|].step.op == u.rejected[t.writeId])
            && (t.writeId in s.pending && s.pending[t.writeId].state == Approved ==>
                  u.pending == s.pending && u.rejected == s.rejected
                  && |u.log| == |s.log| + 1 && u.log[|s.log|].Quarantined? && u.log[|s.log|].trigger == t)
  {
  }

  /** The verdict "approve" on a write that awaits review publishes the approval first; then
      the breaker is asked, once. The write is approved or completed, and nothing else. */
  lemma ApprovalComesFirst(cfg: Config, s: State, t: Trigger, env: Env)
    requires WellKeyed(s) && t.Decision? && t.verdict == "approve"
    requires t.writeId in s.pending && s.pending[t.writeId].state == Requested
    ensures var u := Step(cfg, s, (t, env));
            var op := s.pending[t.writeId].(state := Approved);
            && ApprovedOrDone(u, op) && u.rejected == s.rejected
            && |u.log| >= |s.log| + 2 && s.log <= u.log
            && u.log[|s.log|].Emitted? && u.log[|s.log|].step.stage == SApproved && u.log[|s.log|].step.op == op
            && u.log[|s.log| + 1].Tried? && u.log[|s.log| + 1].op == op
            && forall i :: |s.log| + 1 < i < |u.log| ==> !u.log[i].Tried?
  {
    var step := Approve(s.pending[t.writeId], t.reviewer).value;
    TriesOnce(cfg, ApprovalRecorded(s, step, t), step.op, t, env);
  }

  /** Since `before`, the log tells one use of the gate, for op, and no other. */
  predicate TriedOnce(before: seq<Entry>, after: seq<Entry>, op: WriteOperation) {
    && before <= after && |after| > |before|
    && after[|before|].Tried? && after[|before|].op == op
    && forall i :: |before| < i < |after| ==> !after[i].Tried?
  }

  lemma OneTry(before: seq<Entry>, more: seq<Entry>, op: WriteOperation)
    requires 1 <= |more| <= 2 && more[0].Tried? && more[0].op == op && (|more| == 2 ==> !more[1].Tried?)
    ensures TriedOnce(before, before + more, op)
  {
  }

  lemma LogTriesOnce(cfg: Config, s: State, op: WriteOperation, t: Trigger, env: Env)
    ensures TriedOnce(s.log, Executed(cfg, s, op, t, env).log, op)
  {
    var more := ExecutedLog(cfg, s, op, t, env);
    OneTry(s.log, more, op);
  }

  lemma TriesOnce(cfg: Config, s: State, op: WriteOperation, t: Trigger, env: Env)
    requires op.state == Approved && op.writeId in s.pending && s.pending[op.writeId] == op
    ensures var u := Executed(cfg, s, op, t, env);
            ApprovedOrDone(u, op) && u.rejected == s.rejected && TriedOnce(s.log, u.log, op)
  {
    LogTriesOnce(cfg, s, op, t, env);
  }

  // --- Nothing is dropped silently -----------------------------------------------------------

  /** The events that are quarantined, for a human to see and to drive again: a proposal or a
      reversal whose dry run fails, a reversal of a write not completed, a verdict against an
      approved write, and an approval that the breaker refuses or whose failure trips it. */
  predicate MustQuarantine(cfg: Config, s: State, e: Event) {
    match e.0
    case Propose(_) => e.1.reader == ReaderFails
    case Reverse(w, _, _, _, _) => w !in s.completed || e.1.reader == ReaderFails
    case Decision(w, verdict, _, _) =>
      w in s.pending &&
      if verdict != "approve" then s.pending[w].state == Approved
      else
        var (b, admitted) := Checked(cfg, s.BreakerOf(s.pending[w].PairOf()), e.1.checkedAt);
        !admitted || (!e.1.answer.CommittedAnswered? && Failed(cfg, b, e.1.reportedAt).1)
    case OtherSubject => false
  }

  predicate QuarantinesSince(before: seq<Entry>, after: seq<Entry>, t: Trigger) {
    exists i :: |before| <= i < |after| && after[i].Quarantined? && after[i].trigger == t
  }

  lemma LastQuarantined(before: seq<Entry>, after: seq<Entry>, t: Trigger)
    requires before < after && after[|after| - 1].Quarantined? && after[|after| - 1].trigger == t
    ensures QuarantinesSince(before, after, t)
  {
  }

  lemma ExecutedQuarantinesIff(cfg: Config, s: State, op: WriteOperation, t: Trigger, env: Env)
    ensures var (b, admitted) := Checked(cfg, s.BreakerOf(op.PairOf()), env.checkedAt);
            var u := Executed(cfg, s, op, t, env);
            && s.log < u.log
            && (QuarantinesSince(s.log, u.log, t) <==>
                !admitted || (!env.answer.CommittedAnswered? && Failed(cfg, b, env.reportedAt).1))
  {
    var (b, admitted) := Checked(cfg, s.BreakerOf(op.PairOf()), env.checkedAt);
    var u := Executed(cfg, s, op, t, env);
    var more := ExecutedLog(cfg, s, op, t, env);
    if !admitted || (!env.answer.CommittedAnswered? && Failed(cfg, b, env.reportedAt).1) {
      LastQuarantined(s.log, u.log, t);
    }
  }

  lemma QuarantinedLater(before: seq<Entry>, e: Entry, after: seq<Entry>, t: Trigger)
    requires before + [e] < after && !e.Quarantined?
    ensures before < after && (QuarantinesSince(before, after, t) <==> QuarantinesSince(before + [e], after, t))
  {
  }

  lemma DecidedQuarantinesIff(cfg: Config, s: State, t: Trigger, env: Env)
    requires WellKeyed(s) && t.Decision?
    ensures var u := Decided(cfg, s, t, env);
            && s.log <= u.log && (u.log == s.log <==> t.writeId !in s.pending)
            && (QuarantinesSince(s.log, u.log, t) <==> MustQuarantine(cfg, s, (t, env)))
  {
    if t.writeId in s.pending {
      var op, u := s.pending[t.writeId], Decided(cfg, s, t, env);
      if t.verdict != "approve" {
        if op.state == Approved { LastQuarantined(s.log, u.log, t); }
      } else if op.state == Approved {
        ExecutedQuarantinesIff(cfg, s, op, t, env);
      } else {
        var step := Approve(op, t.reviewer).value;
        ExecutedQuarantinesIff(cfg, ApprovalRecorded(s, step, t), step.op, t, env);
        QuarantinedLater(s.log, Emitted(step, t), u.log, t);
      }
    }
  }

  lemma ProposedQuarantinesIff(s: State, req: Proposal, t: Trigger, env: Env)
    ensures var u := Proposed(s, req, t, env);
            s.log < u.log && (QuarantinesSince(s.log, u.log, t) <==> env.reader == ReaderFails)
  {
    RequestShape(req, env.freshId, env.reader, s.store);
    if env.reader == ReaderFails { LastQuarantined(s.log, Proposed(s, req, t, env).log, t); }
  }

  /** Every event handled leaves a trace, except one on another subject and a decision on a
      write that does not await one; and it is quarantined exactly when it must be. */
  lemma NothingIsDroppedSilently(cfg: Config, s: State, e: Event)
    requires WellKeyed(s)
    ensures var u := Step(cfg, s, e);
            && s.log <= u.log
            && (u.log == s.log <==> e.0.OtherSubject? || (e.0.Decision? && e.0.writeId !in s.pending))
            && (QuarantinesSince(s.log, u.log, e.0) <==> MustQuarantine(cfg, s, e))
  {
    match e.0
    case Propose(req) => ProposedQuarantinesIff(s, req, e.0, e.1);
    case Decision(_, _, _, _) => DecidedQuarantinesIff(cfg, s, e.0, e.1);
    case OtherSubject =>
    case Reverse(w, operation, payload, requester, preview) =>
      if w in s.completed {
        ProposedQuarantinesIff(s, ReversalOf(s.completed[w], operation, payload, requester, preview), e.0, e.1);
      } else {
        LastQuarantined(s.log, Step(cfg, s, e).log, e.0);
      }
  }

  /** The preview a proposal gets: what the caller asserts is used only without a reader. */
  lemma PreviewIsDerived(req: Proposal, id: string, reader: Reader, store: Store)
    requires reader != ReaderFails
    ensures var preview := Request(req, id, reader, store).value.op.diffPreview;
            && (reader == ReaderReads <==> preview.Derived?)
            && (reader == NoReader && req.diffPreview.Some? ==> preview == Asserted(req.diffPreview.value))
            && (reader == NoReader && req.diffPreview.None? ==> preview == Unavailable)
  {
  }
}
