/**
 Tenant independence: what happens to one (tenant, ERP) pair in any interleaved run
 of the write agent is exactly what happens when that pair's events run alone.
 */
module TenantIndependence {
  import opened Prelude
  import opened Breaker
  import opened Writes
  import opened WriteProtocol

  function OnlyWrites(m: map<string, WriteOperation>, p: Pair): map<string, WriteOperation> {
    map w | w in m && m[w].PairOf() == p :: m[w]
  }

  function OnlyRecords(store: Store, p: Pair): Store {
    map a | a in store && a.pair == p :: store[a]
  }

  function OnlyBreaker(breakers: map<Pair, BreakerState>, p: Pair): map<Pair, BreakerState> {
    if p in breakers then map[p := breakers[p]] else map[]
  }

  function EntryOwner(e: Entry): Option<Pair> {
    match e
    case Emitted(step, _) => Some(step.op.PairOf())
    case Quarantined(_, owner) => owner
    case Tried(op, _, _, _) => Some(op.PairOf())
  }

  function OnlyEntries(log: seq<Entry>, p: Pair): seq<Entry> {
    if log == [] then []
    else
      var n := |log| - 1;
      OnlyEntries(log[..n], p) + if EntryOwner(log[n]) == Some(p) then [log[n]] else []
  }

  /** Everything of a state that belongs to one pair. */
  function Project(s: State, p: Pair): State {
    State(OnlyWrites(s.pending, p), OnlyWrites(s.completed, p), OnlyWrites(s.rejected, p),
          OnlyBreaker(s.breakers, p), OnlyRecords(s.store, p), OnlyEntries(s.log, p))
  }

  /** The events of a run that name a write of the pair, each judged where it occurs. */
  function OwnEvents(cfg: Config, s: State, events: seq<Event>, p: Pair): seq<Event> {
    if events == [] then []
    else
      var n := |events| - 1;
      OwnEvents(cfg, s, events[..n], p)
      + if Owner(Run(cfg, s, events[..n]), events[n].0) == Some(p) then [events[n]] else []
  }

  // --- Projections of the pieces ------------------------------------------------

  lemma EntriesAppend(log: seq<Entry>, e: Entry, p: Pair)
    ensures OnlyEntries(log + [e], p) == OnlyEntries(log, p) + if EntryOwner(e) == Some(p) then [e] else []
  {
    assert (log + [e])[..|log|] == log;
  }

  lemma EntriesAppend2(log: seq<Entry>, e: Entry, f: Entry, p: Pair)
    requires EntryOwner(e) == EntryOwner(f)
    ensures OnlyEntries(log + [e, f], p) == OnlyEntries(log, p) + if EntryOwner(e) == Some(p) then [e, f] else []
  {
    EntriesAppend(log, e, p);
    EntriesAppend(log + [e], f, p);
    assert log + [e, f] == log + [e] + [f];
  }

  lemma WritesSet(m: map<string, WriteOperation>, w: string, op: WriteOperation, p: Pair)
    ensures op.PairOf() == p ==> OnlyWrites(m[w := op], p) == OnlyWrites(m, p)[w := op]
    ensures op.PairOf() != p && (w in m ==> m[w].PairOf() != p) ==> OnlyWrites(m[w := op], p) == OnlyWrites(m, p)
  {
  }

  lemma WritesDrop(m: map<string, WriteOperation>, w: string, p: Pair)
    ensures OnlyWrites(m - {w}, p) == OnlyWrites(m, p) - {w}
    ensures w in m && m[w].PairOf() != p ==> OnlyWrites(m - {w}, p) == OnlyWrites(m, p)
  {
  }

  lemma CommitProjects(store: Store, op: WriteOperation, answer: Answer, p: Pair)
    ensures op.PairOf() == p ==> OnlyRecords(Commit(store, op, answer), p) == Commit(OnlyRecords(store, p), op, answer)
    ensures op.PairOf() != p ==> OnlyRecords(Commit(store, op, answer), p) == OnlyRecords(store, p)
  {
    assert op.PairOf() == p ==> Lookup(OnlyRecords(store, p), op.AddressOf()) == Lookup(store, op.AddressOf());
  }

  lemma OwnerProjects(s: State, t: Trigger, p: Pair)
    requires WellKeyed(s) && Owner(s, t) == Some(p)
    ensures Owner(Project(s, p), t) == Some(p)
  {
  }

  lemma QuarantineProjects(s: State, t: Trigger, p: Pair)
    requires WellKeyed(s)
    ensures Owner(s, t) == Some(p) ==> Project(Quarantine(s, t), p) == Quarantine(Project(s, p), t)
    ensures Owner(s, t) != Some(p) ==> Project(Quarantine(s, t), p) == Project(s, p)
  {
    EntriesAppend(s.log, Quarantined(t, Owner(s, t)), p);
    if Owner(s, t) == Some(p) { OwnerProjects(s, t, p); }
  }

  /** Any record of one more write: set in the pending map, one entry emitted. */
  lemma RecordedProjects(s: State, step: WriteStep, t: Trigger, p: Pair)
    requires WellKeyed(s)
    requires var w := step.op.writeId; s.Knows(w) ==> s.Write(w).PairOf() == step.op.PairOf()
    ensures step.op.PairOf() == p ==> Project(ApprovalRecorded(s, step, t), p) == ApprovalRecorded(Project(s, p), step, t)
    ensures step.op.PairOf() != p ==> Project(ApprovalRecorded(s, step, t), p) == Project(s, p)
  {
    EntriesAppend(s.log, Emitted(step, t), p);
    WritesSet(s.pending, step.op.writeId, step.op, p);
  }

  lemma RequestProjects(s: State, req: Proposal, env: Env)
    ensures var p := Pair(req.tenantId, req.erpPlatform);
            Request(req, env.freshId, env.reader, OnlyRecords(s.store, p)) == Request(req, env.freshId, env.reader, s.store)
  {
    var p := Pair(req.tenantId, req.erpPlatform);
    var a := Draft(req, env.freshId).AddressOf();
    assert Lookup(OnlyRecords(s.store, p), a) == Lookup(s.store, a);
  }

  lemma ProposedProjects(s: State, req: Proposal, t: Trigger, env: Env, p: Pair)
    requires WellKeyed(s) && !s.Knows(env.freshId)
    requires Owner(s, t) == Some(Pair(req.tenantId, req.erpPlatform))
    ensures Owner(s, t) == Some(p) ==> Project(Proposed(s, req, t, env), p) == Proposed(Project(s, p), req, t, env)
    ensures Owner(s, t) != Some(p) ==> Project(Proposed(s, req, t, env), p) == Project(s, p)
  {
    RequestShape(req, env.freshId, env.reader, s.store);
    RequestProjects(s, req, env);
    QuarantineProjects(s, t, p);
    if env.reader != ReaderFails {
      RecordedProjects(s, Request(req, env.freshId, env.reader, s.store).value, t, p);
    }
  }

  lemma BreakerProjects(breakers: map<Pair, BreakerState>, q: Pair, b: BreakerState, p: Pair)
    ensures OnlyBreaker(breakers[q := b], p) == if q == p then OnlyBreaker(breakers, p)[q := b] else OnlyBreaker(breakers, p)
  {
  }

  lemma RefusedProjects(s: State, op: WriteOperation, b: BreakerState, cause: Trigger, env: Env, p: Pair)
    ensures op.PairOf() == p ==>
              Project(ExecutionRefused(s, op, b, cause, env), p) == ExecutionRefused(Project(s, p), op, b, cause, env)
    ensures op.PairOf() != p ==> Project(ExecutionRefused(s, op, b, cause, env), p) == Project(s, p)
  {
    BreakerProjects(s.breakers, op.PairOf(), b, p);
    EntriesAppend2(s.log, TriedEntry(op, env, false), Quarantined(cause, Some(op.PairOf())), p);
  }

  lemma CompletedProjects(s: State, op: WriteOperation, cause: Trigger, env: Env, p: Pair)
    requires WellKeyed(s) && op.writeId in s.pending && s.pending[op.writeId] == op
    ensures op.PairOf() == p ==>
              Project(ExecutionCompleted(s, op, cause, env), p) == ExecutionCompleted(Project(s, p), op, cause, env)
    ensures op.PairOf() != p ==> Project(ExecutionCompleted(s, op, cause, env), p) == Project(s, p)
  {
    BreakerProjects(s.breakers, op.PairOf(), FRESH, p);
    CommitProjects(s.store, op, env.answer, p);
    WritesDrop(s.pending, op.writeId, p);
    WritesSet(s.completed, op.writeId, op.(state := Completed), p);
    EntriesAppend2(s.log, TriedEntry(op, env, true), Emitted(CompletedStep(op), cause), p);
  }

  lemma FailedProjects(s: State, op: WriteOperation, b: BreakerState, escalate: bool, cause: Trigger, env: Env, p: Pair)
    ensures op.PairOf() == p ==>
              Project(ExecutionFailed(s, op, b, escalate, cause, env), p)
                == ExecutionFailed(Project(s, p), op, b, escalate, cause, env)
    ensures op.PairOf() != p ==> Project(ExecutionFailed(s, op, b, escalate, cause, env), p) == Project(s, p)
  {
    BreakerProjects(s.breakers, op.PairOf(), b, p);
    CommitProjects(s.store, op, env.answer, p);
    EntriesAppend(s.log, TriedEntry(op, env, true), p);
    EntriesAppend2(s.log, TriedEntry(op, env, true), Quarantined(cause, Some(op.PairOf())), p);
  }

  lemma ExecutedProjects(cfg: Config, s: State, op: WriteOperation, cause: Trigger, env: Env, p: Pair)
    requires WellKeyed(s) && op.writeId in s.pending && s.pending[op.writeId] == op
    ensures op.PairOf() == p ==> Project(Executed(cfg, s, op, cause, env), p) == Executed(cfg, Project(s, p), op, cause, env)
    ensures op.PairOf() != p ==> Project(Executed(cfg, s, op, cause, env), p) == Project(s, p)
  {
    var (b, admitted) := Checked(cfg, s.BreakerOf(op.PairOf()), env.checkedAt);
    assert op.PairOf() == p ==> Project(s, p).BreakerOf(p) == s.BreakerOf(p);
    RefusedProjects(s, op, b, cause, env, p);
    CompletedProjects(s, op, cause, env, p);
    var (c, escalate) := Failed(cfg, b, env.reportedAt);
    FailedProjects(s, op, c, escalate, cause, env, p);
  }

  lemma RejectedProjects(s: State, step: WriteStep, t: Trigger, p: Pair)
    requires WellKeyed(s)
    requires var w := step.op.writeId; w in s.pending && s.pending[w].PairOf() == step.op.PairOf()
    ensures step.op.PairOf() == p ==> Project(RejectionRecorded(s, step, t), p) == RejectionRecorded(Project(s, p), step, t)
    ensures step.op.PairOf() != p ==> Project(RejectionRecorded(s, step, t), p) == Project(s, p)
  {
    EntriesAppend(s.log, Emitted(step, t), p);
    WritesDrop(s.pending, step.op.writeId, p);
    WritesSet(s.rejected, step.op.writeId, step.op, p);
  }

  lemma RefusalProjects(s: State, t: Trigger, op: WriteOperation, p: Pair)
    requires WellKeyed(s) && t.Decision? && t.verdict != "approve"
    requires t.writeId in s.pending && s.pending[t.writeId] == op && op.state == Requested
    ensures var step := Reject(op, t.reviewer, t.reason).value;
            && (op.PairOf() == p ==> Project(RejectionRecorded(s, step, t), p) == RejectionRecorded(Project(s, p), step, t))
            && (op.PairOf() != p ==> Project(RejectionRecorded(s, step, t), p) == Project(s, p))
  {
    RejectedProjects(s, Reject(op, t.reviewer, t.reason).value, t, p);
  }

  /** An approval recorded and carried out. */
  lemma ApprovalProjects(cfg: Config, s: State, t: Trigger, env: Env, op: WriteOperation, p: Pair)
    requires WellKeyed(s) && t.Decision?
    requires op.writeId in s.pending && s.pending[op.writeId] == op && op.state == Requested
    ensures var step := Approve(op, t.reviewer).value;
            && (op.PairOf() == p ==> Project(Executed(cfg, ApprovalRecorded(s, step, t), step.op, t, env), p)
                                       == Executed(cfg, ApprovalRecorded(Project(s, p), step, t), step.op, t, env))
            && (op.PairOf() != p ==> Project(Executed(cfg, ApprovalRecorded(s, step, t), step.op, t, env), p) == Project(s, p))
  {
    var step := Approve(op, t.reviewer).value;
    ApprovalKeepsKeys(s, step, t);
    RecordedProjects(s, step, t, p);
    ExecutedProjects(cfg, ApprovalRecorded(s, step, t), step.op, t, env, p);
  }

  lemma PendingProjects(s: State, w: string, p: Pair)
    requires WellKeyed(s) && w in s.pending
    ensures w in Project(s, p).pending <==> s.pending[w].PairOf() == p
    ensures w in Project(s, p).pending ==> Project(s, p).pending[w] == s.pending[w]
  {
  }

  lemma DecidedProjects(cfg: Config, s: State, t: Trigger, env: Env, p: Pair)
    requires WellKeyed(s) && t.Decision?
    ensures Owner(s, t) == Some(p) ==> Project(Decided(cfg, s, t, env), p) == Decided(cfg, Project(s, p), t, env)
    ensures Owner(s, t) != Some(p) ==> Project(Decided(cfg, s, t, env), p) == Project(s, p)
  {
    if t.writeId in s.pending {
      var op := s.pending[t.writeId];
      PendingProjects(s, t.writeId, p);
      if t.verdict != "approve" {
        if op.state == Requested { RefusalProjects(s, t, op, p); } else { QuarantineProjects(s, t, p); }
      } else if op.state == Approved {
        ExecutedProjects(cfg, s, op, t, env, p);
      } else {
        ApprovalProjects(cfg, s, t, env, op, p);
      }
    }
  }

  lemma ReversedProjects(s: State, t: Trigger, env: Env, p: Pair)
    requires WellKeyed(s) && t.Reverse? && !s.Knows(env.freshId)
    ensures Owner(s, t) == Some(p) ==> Project(Reversed(s, t, env), p) == Reversed(Project(s, p), t, env)
    ensures Owner(s, t) != Some(p) ==> Project(Reversed(s, t, env), p) == Project(s, p)
  {
    QuarantineProjects(s, t, p);
    if t.writeId in s.completed {
      var req := ReversalOf(s.completed[t.writeId], t.operation, t.payload, t.requestedBy, t.diffPreview);
      ProposedProjects(s, req, t, env, p);
    }
  }

  /** One step: a pair's own event acts on its projection as on the whole, and any
      other event leaves the projection alone. */
  lemma StepProjects(cfg: Config, s: State, e: Event, p: Pair)
    requires WellKeyed(s) && FreshFor(s, e)
    ensures Owner(s, e.0) == Some(p) ==> Project(Step(cfg, s, e), p) == Step(cfg, Project(s, p), e)
    ensures Owner(s, e.0) != Some(p) ==> Project(Step(cfg, s, e), p) == Project(s, p)
  {
    match e.0
    case Propose(req) => ProposedProjects(s, req, e.0, e.1, p);
    case Decision(_, _, _, _) => DecidedProjects(cfg, s, e.0, e.1, p);
    case Reverse(_, _, _, _, _) => ReversedProjects(s, e.0, e.1, p);
    case OtherSubject =>
  }

  lemma {:induction false} RunProjects(cfg: Config, s: State, events: seq<Event>, p: Pair)
    requires WellKeyed(s) && FreshRun(cfg, s, events)
    ensures Project(Run(cfg, s, events), p) == Run(cfg, Project(s, p), OwnEvents(cfg, s, events, p))
  {
    if events != [] {
      var n := |events| - 1;
      var own := OwnEvents(cfg, s, events[..n], p);
      FreshRunInit(cfg, s, events);
      RunProjects(cfg, s, events[..n], p);
      RunKeepsKeys(cfg, s, events[..n]);
      StepProjects(cfg, Run(cfg, s, events[..n]), events[n], p);
      assert (own + [events[n]])[..|own|] == own;
      assert own + [] == own;
    }
  }

  /** For every interleaved run, over whatever the ERP holds, one pair's breaker, writes, ERP
      records and log are those of its own events run alone over its own records, with the
      same clocks and answers; and the events run alone are themselves a legitimate run. */
  lemma TenantsAreIndependent(cfg: Config, st: Store, events: seq<Event>, p: Pair)
    requires FreshRun(cfg, Start(st), events)
    ensures var own, alone := OwnEvents(cfg, Start(st), events, p), Start(OnlyRecords(st, p));
            && Project(Run(cfg, Start(st), events), p) == Run(cfg, alone, own)
            && FreshRun(cfg, alone, own)
  {
    RunProjects(cfg, Start(st), events, p);
    StartProjects(st, p);
    OwnRunIsFresh(cfg, st, events, p);
  }

  lemma StartProjects(st: Store, p: Pair)
    ensures Project(Start(st), p) == Start(OnlyRecords(st, p))
  {
  }

  lemma {:induction false} OwnRunIsFresh(cfg: Config, st: Store, events: seq<Event>, p: Pair)
    requires FreshRun(cfg, Start(st), events)
    ensures FreshRun(cfg, Start(OnlyRecords(st, p)), OwnEvents(cfg, Start(st), events, p))
  {
    if events != [] {
      var n := |events| - 1;
      var own, all := OwnEvents(cfg, Start(st), events[..n], p), OwnEvents(cfg, Start(st), events, p);
      FreshRunInit(cfg, Start(st), events);
      OwnRunIsFresh(cfg, st, events[..n], p);
      RunProjects(cfg, Start(st), events[..n], p);
      StartProjects(st, p);
      forall i | 0 <= i < |all| ensures FreshFor(Run(cfg, Start(OnlyRecords(st, p)), all[..i]), all[i]) {
        assert i < |own| ==> all[..i] == own[..i];
        assert i == |own| ==> all[..i] == own;
      }
    }
  }

  /** Two runs that agree on a pair's records at the start and on its own events agree on
      everything of that pair, whatever the other tenants have and do. */
  lemma OthersCannotMatter(cfg: Config, st: Store, other: Store, a: seq<Event>, b: seq<Event>, p: Pair)
    requires FreshRun(cfg, Start(st), a) && FreshRun(cfg, Start(other), b)
    requires OnlyRecords(st, p) == OnlyRecords(other, p)
    requires OwnEvents(cfg, Start(st), a, p) == OwnEvents(cfg, Start(other), b, p)
    ensures Project(Run(cfg, Start(st), a), p) == Project(Run(cfg, Start(other), b), p)
  {
    TenantsAreIndependent(cfg, st, a, p);
    TenantsAreIndependent(cfg, other, b, p);
  }
}
