/**
 The gated write-back protocol (agents/forge/write_agent.py) as a step function on
 values. One step is one call of `handle`. Everything the agent does not decide is
 in `Env`: the id minted for a new write, what the dry-run reader does, the two
 clock readings of the breaker, and how the ERP answers.
 */
module WriteProtocol {
  import opened Prelude
  import opened Breaker
  import opened Writes

  datatype Trigger =
    | Propose(req: Proposal)
    | Decision(writeId: string, verdict: string, reviewer: string, reason: string)
    | Reverse(writeId: string, operation: string, payload: Record, requestedBy: string, diffPreview: Option<string>)
    | OtherSubject

  datatype Env = Env(freshId: string, reader: Reader, checkedAt: real, reportedAt: real, answer: Answer)

  type Event = (Trigger, Env)

  /** What leaves the agent, in order: published lifecycle events, quarantined
      triggers, and uses of the breaker gate with the ERP call behind it. */
  datatype Entry =
    | Emitted(step: WriteStep, trigger: Trigger)
    | Quarantined(trigger: Trigger, owner: Option<Pair>)
    | Tried(op: WriteOperation, attempt: Attempt, answer: Answer, called: bool)

  /** `rejected` is not kept by the agent, which forgets rejected writes; it records
      them so that every proposed write stays accounted for. */
  datatype State = State(
    pending: map<string, WriteOperation>,
    completed: map<string, WriteOperation>,
    rejected: map<string, WriteOperation>,
    breakers: map<Pair, BreakerState>,
    store: Store,
    log: seq<Entry>)
  {
    predicate Knows(w: string) { w in pending || w in completed || w in rejected }

    function Write(w: string): WriteOperation
      requires Knows(w)
    {
      if w in pending then pending[w] else if w in completed then completed[w] else rejected[w]
    }

    function BreakerOf(p: Pair): BreakerState { if p in breakers then breakers[p] else FRESH }
  }

  /** A new agent over an ERP that holds what it holds. */
  function Start(st: Store): State { State(map[], map[], map[], map[], st, []) }

  /** The (tenant, ERP) pair of the write an event names. */
  function Owner(s: State, t: Trigger): Option<Pair> {
    match t
    case Propose(req) => Some(Pair(req.tenantId, req.erpPlatform))
    case Decision(w, _, _, _) => if s.Knows(w) then Some(s.Write(w).PairOf()) else None
    case Reverse(w, _, _, _, _) => if s.Knows(w) then Some(s.Write(w).PairOf()) else None
    case OtherSubject => None
  }

  function Quarantine(s: State, t: Trigger): State {
    s.(log := s.log + [Quarantined(t, Owner(s, t))])
  }

  function Proposed(s: State, req: Proposal, t: Trigger, env: Env): State {
    match Request(req, env.freshId, env.reader, s.store)
    case Err(_) => Quarantine(s, t)
    case Ok(step) => s.(pending := s.pending[step.op.writeId := step.op], log := s.log + [Emitted(step, t)])
  }

  function Reversed(s: State, t: Trigger, env: Env): State
    requires t.Reverse?
  {
    if t.writeId !in s.completed then Quarantine(s, t)
    else
      var original := s.completed[t.writeId];
      if original.state != Completed then s  // InvalidTransition escapes the handler before anything is recorded
      else Proposed(s, ReversalOf(original, t.operation, t.payload, t.requestedBy, t.diffPreview), t, env)
  }

  function AttemptOf(env: Env): Attempt {
    Attempt(env.checkedAt, env.reportedAt, env.answer.CommittedAnswered?)
  }

  function TriedEntry(op: WriteOperation, env: Env, called: bool): Entry {
    Tried(op, AttemptOf(env), env.answer, called)
  }

  /** The breaker refused: the write stays approved and the decision is quarantined. */
  function ExecutionRefused(s: State, op: WriteOperation, b: BreakerState, cause: Trigger, env: Env): State {
    s.(breakers := s.breakers[op.PairOf() := b],
       log := s.log + [TriedEntry(op, env, false), Quarantined(cause, Some(op.PairOf()))])
  }

  function ExecutionCompleted(s: State, op: WriteOperation, cause: Trigger, env: Env): State {
    s.(breakers := s.breakers[op.PairOf() := FRESH],
       pending := s.pending - {op.writeId},
       completed := s.completed[op.writeId := op.(state := Completed)],
       store := Commit(s.store, op, env.answer),
       log := s.log + [TriedEntry(op, env, true), Emitted(CompletedStep(op), cause)])
  }

  /** The ERP call raised: the write stays approved; a trip of the breaker escalates. */
  function ExecutionFailed(s: State, op: WriteOperation, b: BreakerState, escalate: bool, cause: Trigger, env: Env): State {
    s.(breakers := s.breakers[op.PairOf() := b],
       store := Commit(s.store, op, env.answer),
       log := s.log + if escalate then [TriedEntry(op, env, true), Quarantined(cause, Some(op.PairOf()))]
                      else [TriedEntry(op, env, true)])
  }

  function Executed(cfg: Config, s: State, op: WriteOperation, cause: Trigger, env: Env): State {
    var (b, admitted) := Checked(cfg, s.BreakerOf(op.PairOf()), env.checkedAt);
    if !admitted then ExecutionRefused(s, op, b, cause, env)
    else if env.answer.CommittedAnswered? then ExecutionCompleted(s, op, cause, env)
    else var (c, escalate) := Failed(cfg, b, env.reportedAt); ExecutionFailed(s, op, c, escalate, cause, env)
  }

  function ApprovalRecorded(s: State, step: WriteStep, t: Trigger): State {
    s.(pending := s.pending[step.op.writeId := step.op], log := s.log + [Emitted(step, t)])
  }

  function RejectionRecorded(s: State, step: WriteStep, t: Trigger): State {
    s.(pending := s.pending - {step.op.writeId},
       rejected := s.rejected[step.op.writeId := step.op],
       log := s.log + [Emitted(step, t)])
  }

  function Decided(cfg: Config, s: State, t: Trigger, env: Env): State
    requires t.Decision?
  {
    if t.writeId !in s.pending then s
    else
      var op := s.pending[t.writeId];
      if t.verdict == "approve" then
        if op.state == Approved then Executed(cfg, s, op, t, env)
        else
          match Approve(op, t.reviewer)
          case Err(_) => Quarantine(s, t)
          case Ok(step) => Executed(cfg, ApprovalRecorded(s, step, t), step.op, t, env)
      else
        match Reject(op, t.reviewer, t.reason)
        case Err(_) => Quarantine(s, t)
        case Ok(step) => RejectionRecorded(s, step, t)
  }

  function Step(cfg: Config, s: State, e: Event): State {
    match e.0
    case Propose(req) => Proposed(s, req, e.0, e.1)
    case Decision(_, _, _, _) => Decided(cfg, s, e.0, e.1)
    case Reverse(_, _, _, _, _) => Reversed(s, e.0, e.1)
    case OtherSubject => s
  }

  function Run(cfg: Config, s: State, events: seq<Event>): State {
    if events == [] then s
    else Step(cfg, Run(cfg, s, events[..|events| - 1]), events[|events| - 1])
  }

  lemma RunLast(cfg: Config, s: State, events: seq<Event>)
    requires events != []
    ensures var n := |events| - 1; Run(cfg, s, events) == Step(cfg, Run(cfg, s, events[..n]), events[n])
  {
  }

  /** A minted id is new whenever a write may be created. */
  predicate FreshFor(s: State, e: Event) {
    e.0.Propose? || e.0.Reverse? ==> !s.Knows(e.1.freshId)
  }

  ghost predicate FreshRun(cfg: Config, s: State, events: seq<Event>) {
    forall i :: 0 <= i < |events| ==> FreshFor(Run(cfg, s, events[..i]), events[i])
  }

  lemma FreshRunInit(cfg: Config, s: State, events: seq<Event>)
    requires events != [] && FreshRun(cfg, s, events)
    ensures var n := |events| - 1;
            FreshRun(cfg, s, events[..n]) && FreshFor(Run(cfg, s, events[..n]), events[n])
  {
    var n := |events| - 1;
    forall i | 0 <= i < n ensures FreshFor(Run(cfg, s, events[..n][..i]), events[..n][i]) {
      assert events[..n][..i] == events[..i];
    }
  }

  // --- The shape of every reachable state --------------------------------------

  /** The maps are keyed by write id, disjoint, and hold writes in the right states. */
  predicate WellKeyed(s: State) {
    && (forall w :: w in s.pending ==> s.pending[w].writeId == w && (s.pending[w].state == Requested || s.pending[w].state == Approved))
    && (forall w :: w in s.completed ==> s.completed[w].writeId == w && s.completed[w].state == Completed)
    && (forall w :: w in s.rejected ==> s.rejected[w].writeId == w && s.rejected[w].state == Rejected)
    && (forall w :: w in s.pending ==> w !in s.completed && w !in s.rejected)
    && (forall w :: w in s.completed ==> w !in s.rejected)
  }

  lemma ProposalKeepsKeys(s: State, op: WriteOperation, entry: Entry)
    requires WellKeyed(s) && !s.Knows(op.writeId) && op.state == Requested
    ensures WellKeyed(s.(pending := s.pending[op.writeId := op], log := s.log + [entry]))
  {
  }

  lemma ProposedKeepsKeys(s: State, req: Proposal, t: Trigger, env: Env)
    requires WellKeyed(s) && !s.Knows(env.freshId)
    ensures WellKeyed(Proposed(s, req, t, env))
  {
    RequestShape(req, env.freshId, env.reader, s.store);
    if env.reader != ReaderFails {
      var step := Request(req, env.freshId, env.reader, s.store).value;
      ProposalKeepsKeys(s, step.op, Emitted(step, t));
    }
  }

  lemma CompletionKeepsKeys(s: State, op: WriteOperation, cause: Trigger, env: Env)
    requires WellKeyed(s) && op.state == Approved && op.writeId in s.pending && s.pending[op.writeId] == op
    ensures WellKeyed(ExecutionCompleted(s, op, cause, env))
  {
  }

  lemma SameMapsKeepKeys(s: State, t: State)
    requires WellKeyed(s) && t.pending == s.pending && t.completed == s.completed && t.rejected == s.rejected
    ensures WellKeyed(t)
  {
  }

  lemma ExecutedKeepsKeys(cfg: Config, s: State, op: WriteOperation, cause: Trigger, env: Env)
    requires WellKeyed(s) && op.state == Approved && op.writeId in s.pending && s.pending[op.writeId] == op
    ensures WellKeyed(Executed(cfg, s, op, cause, env))
  {
    if Checked(cfg, s.BreakerOf(op.PairOf()), env.checkedAt).1 && env.answer.CommittedAnswered? {
      CompletionKeepsKeys(s, op, cause, env);
    } else {
      SameMapsKeepKeys(s, Executed(cfg, s, op, cause, env));
    }
  }

  lemma ApprovalKeepsKeys(s: State, step: WriteStep, t: Trigger)
    requires WellKeyed(s) && step.op.writeId in s.pending && step.op.state == Approved
    ensures WellKeyed(ApprovalRecorded(s, step, t))
  {
  }

  lemma DecidedKeepsKeys(cfg: Config, s: State, t: Trigger, env: Env)
    requires WellKeyed(s) && t.Decision?
    ensures WellKeyed(Decided(cfg, s, t, env))
  {
    if t.writeId in s.pending && t.verdict == "approve" {
      var op := s.pending[t.writeId];
      if op.state == Approved {
        ExecutedKeepsKeys(cfg, s, op, t, env);
      } else {
        var step := Approve(op, t.reviewer).value;
        ApprovalKeepsKeys(s, step, t);
        ExecutedKeepsKeys(cfg, ApprovalRecorded(s, step, t), step.op, t, env);
      }
    }
  }

  lemma StepKeepsKeys(cfg: Config, s: State, e: Event)
    requires WellKeyed(s) && FreshFor(s, e)
    ensures WellKeyed(Step(cfg, s, e))
  {
    match e.0
    case Propose(req) => ProposedKeepsKeys(s, req, e.0, e.1);
    case Decision(_, _, _, _) => DecidedKeepsKeys(cfg, s, e.0, e.1);
    case OtherSubject =>
    case Reverse(w, operation, payload, requester, preview) =>
      if w in s.completed {
        ProposedKeepsKeys(s, ReversalOf(s.completed[w], operation, payload, requester, preview), e.0, e.1);
      }
  }

  lemma {:induction false} RunKeepsKeys(cfg: Config, s: State, events: seq<Event>)
    requires WellKeyed(s) && FreshRun(cfg, s, events)
    ensures WellKeyed(Run(cfg, s, events))
  {
    if events != [] {
      var n := |events| - 1;
      FreshRunInit(cfg, s, events);
      RunKeepsKeys(cfg, s, events[..n]);
      StepKeepsKeys(cfg, Run(cfg, s, events[..n]), events[n]);
    }
  }
}
