/**
 Approvals driven again: that one replay completes a write, what it does to a record that
 others have changed since, and when a failed one leaves no trace.
 */
module Replays {
  import opened Prelude
  import opened Breaker
  import opened Writes
  import opened WriteProtocol
  import opened Lifecycle
  import opened ExactlyOnce
  import opened AgentOutage

  // --- Progress -------------------------------------------------------------------------

  lemma AttemptOpens(cfg: Config, b: BreakerState, a: Attempt)
    ensures var (after, called) := Attempted(cfg, b, a);
            after.openedAt == b.openedAt || after.openedAt == None || (called && !a.ok && after.openedAt == Some(a.reportedAt))
  {
  }

  /** A breaker has been open since some failed ERP call of its own pair. */
  lemma {:induction false} OpenedByOwnFailure(cfg: Config, st: Store, events: seq<Event>, p: Pair) returns (c: Attempt)
    requires Run(cfg, Start(st), events).BreakerOf(p).openedAt.Some?
    ensures var s := Run(cfg, Start(st), events);
            c in CallsIn(s.log, p) && !c.ok && s.BreakerOf(p).openedAt.value == c.reportedAt
  {
    var n := |events| - 1;
    assert n >= 0;
    var mid, t, a := Run(cfg, Start(st), events[..n]), Run(cfg, Start(st), events), AttemptOf(events[n].1);
    StepFollows(cfg, mid, events[n], p);
    AttemptOpens(cfg, mid.BreakerOf(p), a);
    InConcat(mid.log, t.log[|mid.log|..], p);
    assert t.log == mid.log + t.log[|mid.log|..];
    if t.BreakerOf(p).openedAt == mid.BreakerOf(p).openedAt {
      c := OpenedByOwnFailure(cfg, st, events[..n], p);
    } else {
      c := a;
      assert a in [a];
    }
  }

  /** One cooldown after every failed ERP call of its own pair, whatever other pairs did, a
      breaker lets the next write through. */
  lemma GateReopens(cfg: Config, st: Store, events: seq<Event>, p: Pair, now: real)
    requires cfg.threshold >= 1
    requires forall c :: c in CallsIn(Run(cfg, Start(st), events).log, p) && !c.ok ==> now >= c.reportedAt + cfg.cooldown
    ensures Checked(cfg, Run(cfg, Start(st), events).BreakerOf(p), now).1
  {
    RunStaysSettled(cfg, Start(st), events, p);
    if Run(cfg, Start(st), events).BreakerOf(p).openedAt.Some? {
      var c := OpenedByOwnFailure(cfg, st, events, p);
    }
  }

  lemma AdmittedReplay(cfg: Config, s: State, t: Trigger, env: Env)
    requires t.Decision? && t.verdict == "approve" && env.answer.CommittedAnswered?
    requires t.writeId in s.pending && s.pending[t.writeId].state == Approved
    requires s.pending[t.writeId].writeId == t.writeId
    requires Checked(cfg, s.BreakerOf(s.pending[t.writeId].PairOf()), env.checkedAt).1
    ensures var op := s.pending[t.writeId];
            Step(cfg, s, (t, env)) == ExecutionCompleted(s, op, t, env)
  {
  }

  lemma ConcatLast(a: seq<Event>, b: seq<Event>)
    requires b != []
    ensures var n, m := |a + b| - 1, |b| - 1; a + b != [] && (a + b)[..n] == a + b[..m] && (a + b)[n] == b[m]
  {
  }

  lemma {:induction false} RunConcat(cfg: Config, s: State, a: seq<Event>, b: seq<Event>)
    ensures Run(cfg, s, a + b) == Run(cfg, Run(cfg, s, a), b)
  {
    if b == [] {
      assert a + b == a;
    } else {
      RunConcat(cfg, s, a, b[..|b| - 1]);
      ConcatLast(a, b);
      RunLast(cfg, s, a + b);
      RunLast(cfg, Run(cfg, s, a), b);
    }
  }

  lemma FreshRest(cfg: Config, s: State, events: seq<Event>, k: nat)
    requires FreshRun(cfg, s, events) && k <= |events|
    ensures FreshRun(cfg, Run(cfg, s, events[..k]), events[k..])
  {
    var rest := events[k..];
    forall i | 0 <= i < |rest| ensures FreshFor(Run(cfg, Run(cfg, s, events[..k]), rest[..i]), rest[i]) {
      assert events[..k] + rest[..i] == events[..k + i];
      RunConcat(cfg, s, events[..k], rest[..i]);
    }
  }

  predicate ApprovedAfter(cfg: Config, st: Store, events: seq<Event>, i: nat, op: WriteOperation)
    requires i <= |events|
  {
    ApprovedOrDone(Run(cfg, Start(st), events[..i]), op)
  }

  /** Approved at some point of a run, a write is approved or completed at its end. */
  lemma ApprovedLater(cfg: Config, st: Store, events: seq<Event>, k: nat, op: WriteOperation)
    requires FreshRun(cfg, Start(st), events) && k <= |events|
    requires op.state == Approved && ApprovedAfter(cfg, st, events, k, op)
    ensures ApprovedOrDone(Run(cfg, Start(st), events), op)
  {
    FreshRunPrefix(cfg, Start(st), events, k);
    RunKeepsKeys(cfg, Start(st), events[..k]);
    FreshRest(cfg, Start(st), events, k);
    ApprovedNeverLost(cfg, Run(cfg, Start(st), events[..k]), events[k..], op);
    RunConcat(cfg, Start(st), events[..k], events[k..]);
    assert events[..k] + events[k..] == events;
  }

  /** Progress: whatever failures, lost answers, replays and other tenants' events follow an
      approval, one replay of it completes the write, unchanged, if it comes a cooldown
      after every failed ERP call of the write's own pair and the ERP answers. It publishes the completion and no
      second approval, or nothing if the write had completed already. */
  lemma ReplayCompletes(cfg: Config, st: Store, events: seq<Event>, k: nat, op: WriteOperation, t: Trigger, env: Env)
    requires cfg.threshold >= 1 && FreshRun(cfg, Start(st), events) && k <= |events|
    requires op.state == Approved && ApprovedAfter(cfg, st, events, k, op)
    requires t.Decision? && t.verdict == "approve" && t.writeId == op.writeId
    requires env.answer.CommittedAnswered?
    requires forall c :: c in CallsIn(Run(cfg, Start(st), events).log, op.PairOf()) && !c.ok ==>
               env.checkedAt >= c.reportedAt + cfg.cooldown
    ensures var s := Run(cfg, Start(st), events);
            var u := Step(cfg, s, (t, env));
            && op.writeId in u.completed && u.completed[op.writeId] == op.(state := Completed)
            && op.writeId !in u.pending
            && u.log == s.log + if op.writeId in s.pending then [TriedEntry(op, env, true), Emitted(CompletedStep(op), t)] else []
  {
    var s := Run(cfg, Start(st), events);
    ApprovedLater(cfg, st, events, k, op);
    RunKeepsKeys(cfg, Start(st), events);
    if op.writeId in s.pending {
      GateReopens(cfg, st, events, op.PairOf(), env.checkedAt);
      AdmittedReplay(cfg, s, t, env);
    }
  }

  // --- A late replay ------------------------------------------------------------------------

  lemma OneMoreEvent(cfg: Config, st: Store, events: seq<Event>, e: Event)
    requires FreshRun(cfg, Start(st), events) && FreshFor(Run(cfg, Start(st), events), e)
    ensures FreshRun(cfg, Start(st), events + [e])
    ensures Run(cfg, Start(st), events + [e]) == Step(cfg, Run(cfg, Start(st), events), e)
  {
    var all, n := events + [e], |events|;
    assert all[..n] == events;
    forall i | 0 <= i < |all| ensures FreshFor(Run(cfg, Start(st), all[..i]), all[i]) {
      assert i < n ==> all[..i] == events[..i];
    }
  }

  function Quiet(id: string, answer: Answer): Env { Env(id, NoReader, 0.0, 0.0, answer) }

  function Approval(w: string): Trigger { Decision(w, "approve", "reviewer", "") }

  lemma ProposalStep(cfg: Config, s: State, req: Proposal, w: string)
    ensures var u := Step(cfg, s, (Propose(req), Quiet(w, Refused)));
            && u.store == s.store && u.breakers == s.breakers && u.completed == s.completed && u.rejected == s.rejected
            && u.pending.Keys == s.pending.Keys + {w} && (forall v :: v in s.pending && v != w ==> u.pending[v] == s.pending[v])
            && var op := u.pending[w];
               op == Draft(req, w).(diffPreview := op.diffPreview)
  {
  }

  lemma ApprovalStep(cfg: Config, s: State, w: string, answer: Answer)
    requires w in s.pending && s.pending[w].writeId == w && !answer.Refused?
    requires s.pending[w].state == Requested || s.pending[w].state == Approved
    requires s.BreakerOf(s.pending[w].PairOf()).openedAt.None?
    ensures var op := s.pending[w].(state := Approved);
            var u := Step(cfg, s, (Approval(w), Quiet("", answer)));
            && u.store == Commit(s.store, op, answer) && u.rejected == s.rejected
            && (forall v :: v != w && v in s.pending ==> v in u.pending && u.pending[v] == s.pending[v])
            && (forall v :: v != w && v in s.completed ==> v in u.completed && u.completed[v] == s.completed[v])
            && if answer.CommittedAnswered?
               then w in u.completed && u.BreakerOf(op.PairOf()) == FRESH
               else w in u.pending && u.pending[w] == op && u.completed == s.completed
                    && u.BreakerOf(op.PairOf()) == Failed(cfg, s.BreakerOf(op.PairOf()), 0.0).0
  {
  }

  /** A create committed but its answer was lost: the write is approved and to be retried. */
  predicate AnswerLost(st: Store, s: State, create: Proposal, w: string) {
    var a := Draft(create, w).AddressOf();
    && s.pending.Keys == {w} && s.completed == map[] && s.rejected == map[]
    && s.pending[w].writeId == w && s.pending[w].state == Approved
    && s.pending[w].AddressOf() == a && s.pending[w].payload == create.payload
    && Lookup(s.store, a) == Some(Current(Lookup(st, a)) + create.payload)
    && s.BreakerOf(a.pair).openedAt.None?
  }

  /** A new agent that has been sent one proposal. */
  predicate OneProposal(st: Store, s: State, req: Proposal, w: string) {
    && s.pending.Keys == {w} && s.completed == map[] && s.rejected == map[] && s.store == st && s.breakers == map[]
    && s.pending[w] == Draft(req, w).(diffPreview := s.pending[w].diffPreview)
    && |s.log| == 1 && s.log[0].Emitted?
  }

  lemma OneProposalStep(cfg: Config, st: Store, req: Proposal, w: string)
    ensures OneProposal(st, Step(cfg, Start(st), (Propose(req), Quiet(w, Refused))), req, w)
  {
    ProposalStep(cfg, Start(st), req, w);
  }

  lemma OneProposalRun(cfg: Config, st: Store, req: Proposal, w: string) returns (events: seq<Event>)
    ensures FreshRun(cfg, Start(st), events) && OneProposal(st, Run(cfg, Start(st), events), req, w)
  {
    var e := (Propose(req), Quiet(w, Refused));
    OneProposalStep(cfg, st, req, w);
    OneMoreEvent(cfg, st, [], e);
    events := [] + [e];
  }

  lemma LostAnswerRun(cfg: Config, st: Store, create: Proposal, w: string) returns (events: seq<Event>)
    requires cfg.threshold >= 2
    ensures FreshRun(cfg, Start(st), events) && AnswerLost(st, Run(cfg, Start(st), events), create, w)
  {
    var e := (Approval(w), Quiet("", CommittedLost));
    events := OneProposalRun(cfg, st, create, w);
    LostAnswerStep(cfg, st, Run(cfg, Start(st), events), create, w);
    OneMoreEvent(cfg, st, events, e);
    events := events + [e];
  }

  lemma LostAnswerStep(cfg: Config, st: Store, s: State, create: Proposal, w: string)
    requires cfg.threshold >= 2
    requires OneProposal(st, s, create, w)
    ensures AnswerLost(st, Step(cfg, s, (Approval(w), Quiet("", CommittedLost))), create, w)
  {
    ApprovalStep(cfg, s, w, CommittedLost);
    assert s.pending[w].AddressOf() == Draft(create, w).AddressOf();
  }

  /** Then an update of the record completed. */
  predicate UpdatedSince(st: Store, s: State, create: Proposal, update: Proposal, w: string, v: string) {
    var a := Draft(create, w).AddressOf();
    && w in s.pending && v in s.completed && v != w
    && s.pending[w].writeId == w && s.pending[w].state == Approved
    && s.pending[w].AddressOf() == a && s.pending[w].payload == create.payload
    && Lookup(s.store, a) == Some(Current(Lookup(st, a)) + create.payload + update.payload)
    && s.BreakerOf(a.pair).openedAt.None?
  }

  predicate Updates(update: Proposal, create: Proposal, w: string) {
    && create.targetExternalId == None && update.targetExternalId == Some("cavi-" + w)
    && (create.tenantId, create.erpPlatform, create.targetModule) == (update.tenantId, update.erpPlatform, update.targetModule)
  }

  lemma UpdateAddress(update: Proposal, create: Proposal, w: string, v: string)
    requires Updates(update, create, w)
    ensures Draft(update, v).AddressOf() == Draft(create, w).AddressOf()
  {
  }

  lemma UpdateStep(cfg: Config, st: Store, s: State, create: Proposal, update: Proposal, w: string, v: string)
    requires AnswerLost(st, s, create, w) && v != w && Updates(update, create, w)
    ensures var mid := Step(cfg, s, (Propose(update), Quiet(v, Refused)));
            UpdatedSince(st, Step(cfg, mid, (Approval(v), Quiet("", CommittedAnswered))), create, update, w, v)
  {
    var mid := Step(cfg, s, (Propose(update), Quiet(v, Refused)));
    ProposalStep(cfg, s, update, v);
    UpdateAddress(update, create, w, v);
    assert mid.pending[v].AddressOf() == Draft(update, v).AddressOf();
    assert s.BreakerOf(Draft(create, w).AddressOf().pair) == mid.BreakerOf(Draft(create, w).AddressOf().pair);
    ApprovalStep(cfg, mid, v, CommittedAnswered);
  }

  lemma UndoStep(cfg: Config, st: Store, s: State, create: Proposal, update: Proposal, w: string, v: string)
    requires UpdatedSince(st, s, create, update, w, v)
    ensures var u := Step(cfg, s, (Approval(w), Quiet("", CommittedAnswered)));
            && w in u.completed && v in u.completed
            && var a := Draft(create, w).AddressOf();
               Lookup(u.store, a) == Some(Current(Lookup(st, a)) + create.payload + update.payload + create.payload)
  {
    ApprovalStep(cfg, s, w, CommittedAnswered);
  }

  /** Retrying a create is safe for the number of records, not for their contents: its lost
      answer, a completed update of the new record, then the replay, and the update is undone
      in every field that the create sent. */
  lemma ReplayUndoesUpdate(cfg: Config, st: Store, create: Proposal, update: Proposal, w: string, v: string) returns (events: seq<Event>)
    requires cfg.threshold >= 2 && v != w && Updates(update, create, w)
    ensures FreshRun(cfg, Start(st), events)
    ensures var s := Run(cfg, Start(st), events);
            && w in s.completed && v in s.completed
            && var a := Draft(create, w).AddressOf();
               Lookup(s.store, a) == Some(Current(Lookup(st, a)) + create.payload + update.payload + create.payload)
  {
    var e3, e4 := (Propose(update), Quiet(v, Refused)), (Approval(v), Quiet("", CommittedAnswered));
    var e5 := (Approval(w), Quiet("", CommittedAnswered));
    events := LostAnswerRun(cfg, st, create, w);
    UpdateStep(cfg, st, Run(cfg, Start(st), events), create, update, w, v);
    OneMoreEvent(cfg, st, events, e3);
    OneMoreEvent(cfg, st, events + [e3], e4);
    UndoStep(cfg, st, Run(cfg, Start(st), events + [e3] + [e4]), create, update, w, v);
    OneMoreEvent(cfg, st, events + [e3] + [e4], e5);
    events := events + [e3] + [e4] + [e5];
  }

  // --- When a replay is harmless ------------------------------------------------------------

  /** The decision approves an approved write again, and the breaker lets it through. */
  predicate Redrives(cfg: Config, s: State, t: Trigger, env: Env) {
    && t.Decision? && t.verdict == "approve"
    && t.writeId in s.pending && s.pending[t.writeId].state == Approved
    && Checked(cfg, s.BreakerOf(s.pending[t.writeId].PairOf()), env.checkedAt).1
  }

  lemma RedriveCommits(cfg: Config, s: State, t: Trigger, env: Env)
    requires Redrives(cfg, s, t, env)
    ensures Step(cfg, s, (t, env)).store == Commit(s.store, s.pending[t.writeId], env.answer)
  {
  }

  lemma CommitField(store: Store, op: WriteOperation, answer: Answer, k: string)
    requires !answer.Refused?
    ensures var a := op.AddressOf();
            FieldOf(Lookup(Commit(store, op, answer), a), k) ==
            if k in op.payload then Some(op.payload[k]) else FieldOf(Lookup(store, a), k)
  {
  }

  /** Known before the re-drive: a replay whose call commits leaves field k of its record as it
      is exactly when the write does not send k, or the last sender of k so far (or, without
      one, the ERP before the run) put the very value there that the write sends. */
  lemma ReplayKeepsFieldIff(cfg: Config, st: Store, events: seq<Event>, t: Trigger, env: Env, k: string)
    requires FreshRun(cfg, Start(st), events)
    requires Redrives(cfg, Run(cfg, Start(st), events), t, env) && !env.answer.Refused?
    ensures var s := Run(cfg, Start(st), events);
            var op := s.pending[t.writeId];
            var a := op.AddressOf();
            FieldOf(Lookup(Step(cfg, s, (t, env)).store, a), k) == FieldOf(Lookup(s.store, a), k) <==>
            k !in op.payload || Tells(st, s.log, a, k, Some(op.payload[k]))
  {
    var s := Run(cfg, Start(st), events);
    var op := s.pending[t.writeId];
    RedriveCommits(cfg, s, t, env);
    CommitField(s.store, op, env.answer, k);
    FieldsAreTold(cfg, st, events, op.AddressOf(), k);
  }

  lemma CommitChangesNothingIff(store: Store, op: WriteOperation, answer: Answer)
    requires !answer.Refused?
    ensures Commit(store, op, answer) == store <==>
            op.AddressOf() in store && Upserted(Lookup(store, op.AddressOf()), op.payload) == store[op.AddressOf()]
  {
    var a := op.AddressOf();
    assert Commit(store, op, answer)[a] == Upserted(Lookup(store, a), op.payload);
  }

  lemma UpsertKeepsIff(current: Record, payload: Record)
    ensures Upserted(Some(current), payload) == current <==> Diff(Some(current), payload) == [] && !Retypes(current, payload)
  {
    DiffMeansTheWrite(Some(current), payload);
    SameAsItself(Obj(current));
    assert Diff(Some(current), payload) == [] ==> ApplyLines(current, Diff(Some(current), payload)) == current;
  }

  /** A caller can check it by a fresh dry run: a replay whose call commits leaves the ERP as it
      is exactly when the record exists, its diff against the write is empty, and the write
      retypes none of its fields. */
  lemma ReplayIsHarmlessIff(cfg: Config, s: State, t: Trigger, env: Env)
    requires Redrives(cfg, s, t, env) && !env.answer.Refused?
    ensures var op := s.pending[t.writeId];
            var before := Lookup(s.store, op.AddressOf());
            Step(cfg, s, (t, env)).store == s.store <==>
            before.Some? && Diff(before, op.payload) == [] && !Retypes(before.value, op.payload)
  {
    var op := s.pending[t.writeId];
    RedriveCommits(cfg, s, t, env);
    CommitChangesNothingIff(s.store, op, env.answer);
    if op.AddressOf() in s.store { UpsertKeepsIff(s.store[op.AddressOf()], op.payload); }
  }

  // --- Failures without a trace -------------------------------------------------------------

  /** How many ERP calls have failed in a row. */
  function FailedInARow(calls: seq<Attempt>): nat {
    if calls == [] || calls[|calls| - 1].ok then 0 else 1 + FailedInARow(calls[..|calls| - 1])
  }

  lemma AttemptCounts(cfg: Config, b: BreakerState, a: Attempt, calls: seq<Attempt>)
    requires b.failures == FailedInARow(calls)
    ensures var (after, called) := Attempted(cfg, b, a);
            after.failures == FailedInARow(calls + if called then [a] else [])
  {
    assert (calls + [a])[..|calls|] == calls;
    assert calls + [] == calls;
  }

  lemma FollowsCounts(cfg: Config, s: State, t: State, a: Attempt, p: Pair)
    requires Follows(cfg, s, t, a, p) && s.BreakerOf(p).failures == FailedInARow(CallsIn(s.log, p))
    ensures t.BreakerOf(p).failures == FailedInARow(CallsIn(t.log, p))
  {
    AttemptCounts(cfg, s.BreakerOf(p), a, CallsIn(s.log, p));
    InConcat(s.log, t.log[|s.log|..], p);
    assert t.log == s.log + t.log[|s.log|..];
    assert CallsIn(s.log, p) + [] == CallsIn(s.log, p);
  }

  lemma StepCounts(cfg: Config, s: State, e: Event, p: Pair)
    requires s.BreakerOf(p).failures == FailedInARow(CallsIn(s.log, p))
    ensures var t := Step(cfg, s, e); t.BreakerOf(p).failures == FailedInARow(CallsIn(t.log, p))
  {
    StepFollows(cfg, s, e, p);
    FollowsCounts(cfg, s, Step(cfg, s, e), AttemptOf(e.1), p);
  }

  /** A breaker's count is the number of its pair's calls that failed in a row. */
  lemma {:induction false} RunCounts(cfg: Config, st: Store, events: seq<Event>, p: Pair)
    ensures var s := Run(cfg, Start(st), events); s.BreakerOf(p).failures == FailedInARow(CallsIn(s.log, p))
  {
    if events != [] {
      var n := |events| - 1;
      RunCounts(cfg, st, events[..n], p);
      StepCounts(cfg, Run(cfg, Start(st), events[..n]), events[n], p);
      RunLast(cfg, Start(st), events);
    }
  }

  lemma RedriveLeaves(cfg: Config, s: State, t: Trigger, env: Env)
    requires t.Decision? && t.verdict == "approve"
    requires t.writeId in s.pending && s.pending[t.writeId].state == Approved
    ensures var op := s.pending[t.writeId];
            var (b, admitted) := Checked(cfg, s.BreakerOf(op.PairOf()), env.checkedAt);
            Step(cfg, s, (t, env)).log == s.log + [TriedEntry(op, env, true)] <==>
            admitted && !env.answer.CommittedAnswered? && !Failed(cfg, b, env.reportedAt).1
  {
    var op := s.pending[t.writeId];
    var (b, admitted) := Checked(cfg, s.BreakerOf(op.PairOf()), env.checkedAt);
    if !admitted {
      assert ExecutionRefused(s, op, b, t, env).log[|s.log|] == TriedEntry(op, env, false);
    }
  }

  lemma EscalatesAtThreshold(cfg: Config, b: BreakerState, now: real, later: real)
    requires cfg.threshold >= 1 && Settled(cfg, b)
    ensures Failed(cfg, Checked(cfg, b, now).0, later).1 <==> b.failures + 1 == cfg.threshold
  {
  }

  /** After any run, driving an approval again is followed by no event at all, neither a
      completion nor a quarantine, exactly when the breaker lets it through, the ERP does not
      answer, and this is not the threshold-th call of its pair to fail in a row. */
  lemma FailsSilentlyIff(cfg: Config, st: Store, events: seq<Event>, t: Trigger, env: Env)
    requires cfg.threshold >= 1 && FreshRun(cfg, Start(st), events)
    requires var s := Run(cfg, Start(st), events);
             t.Decision? && t.verdict == "approve" && t.writeId in s.pending && s.pending[t.writeId].state == Approved
    ensures var s := Run(cfg, Start(st), events);
            var op := s.pending[t.writeId];
            Step(cfg, s, (t, env)).log == s.log + [TriedEntry(op, env, true)] <==>
            && Checked(cfg, s.BreakerOf(op.PairOf()), env.checkedAt).1
            && !env.answer.CommittedAnswered?
            && FailedInARow(CallsIn(s.log, op.PairOf())) + 1 != cfg.threshold
  {
    var s := Run(cfg, Start(st), events);
    var op := s.pending[t.writeId];
    RedriveLeaves(cfg, s, t, env);
    RunStaysSettled(cfg, Start(st), events, op.PairOf());
    RunCounts(cfg, st, events, op.PairOf());
    EscalatesAtThreshold(cfg, s.BreakerOf(op.PairOf()), env.checkedAt, env.reportedAt);
  }

  /** For example, the first failure of all, unless the threshold is one: the write is left
      approved, and nothing is quarantined that could be driven again. */
  lemma FirstFailureIsSilent(cfg: Config, st: Store, req: Proposal, w: string) returns (events: seq<Event>)
    requires cfg.threshold >= 2
    ensures FreshRun(cfg, Start(st), events)
    ensures var s := Run(cfg, Start(st), events);
            && w in s.pending && s.pending[w].state == Approved
            && forall e :: e in s.log ==> !e.Quarantined?
  {
    var e := (Approval(w), Quiet("", Refused));
    events := OneProposalRun(cfg, st, req, w);
    FirstCallFails(cfg, st, Run(cfg, Start(st), events), req, w);
    OneMoreEvent(cfg, st, events, e);
    events := events + [e];
  }

  lemma FirstCallFails(cfg: Config, st: Store, s: State, req: Proposal, w: string)
    requires cfg.threshold >= 2 && OneProposal(st, s, req, w)
    ensures var u := Step(cfg, s, (Approval(w), Quiet("", Refused)));
            && w in u.pending && u.pending[w].state == Approved
            && forall e :: e in u.log ==> !e.Quarantined?
  {
    var op := Approve(s.pending[w], "reviewer").value.op;
    assert s.BreakerOf(op.PairOf()) == FRESH;
    var u := Step(cfg, s, (Approval(w), Quiet("", Refused)));
    assert |u.log| == 3 && u.log[0] == s.log[0] && u.log[1].Emitted? && u.log[2].Tried?;
  }
}
