/**
 What a reviewer was shown and what lands, over whole runs.
 */
module Previews {
  import opened Prelude
  import opened Breaker
  import opened Writes
  import opened WriteProtocol
  import opened Lifecycle
  import opened ExactlyOnce

  predicate Requests(e: Entry) { e.Emitted? && e.step.stage == SRequested }

  /** A derived preview shows the record as the log leaves it at the time of the request. */
  predicate PreviewTold(st: Store, log: seq<Entry>, i: int) {
    0 <= i < |log| && Requests(log[i]) && log[i].step.op.diffPreview.Derived? ==>
      var op := log[i].step.op;
      var before := Held(st, log[..i], op.AddressOf());
      op.diffPreview == Derived(before.Some?, Diff(before, op.payload))
  }

  ghost predicate PreviewsTold(st: Store, log: seq<Entry>) { forall i :: PreviewTold(st, log, i) }

  /** Nothing requested since. */
  predicate QuietSince(before: seq<Entry>, after: seq<Entry>) {
    before <= after && forall i :: |before| <= i < |after| ==> !Requests(after[i])
  }

  lemma QuietLog(st: Store, before: seq<Entry>, after: seq<Entry>)
    requires PreviewsTold(st, before) && QuietSince(before, after)
    ensures PreviewsTold(st, after)
  {
    forall i ensures PreviewTold(st, after, i) {
      assert PreviewTold(st, before, i);
      if 0 <= i < |before| { assert after[..i] == before[..i]; }
    }
  }

  lemma RequestTold(st: Store, s: State, req: Proposal, env: Env)
    requires StoreTold(st, s.store, s.log) && env.reader != ReaderFails
    ensures var op := Request(req, env.freshId, env.reader, s.store).value.op;
            op.diffPreview.Derived? ==>
              var before := Held(st, s.log, op.AddressOf()); op.diffPreview == Derived(before.Some?, Diff(before, op.payload))
  {
    if env.reader == ReaderReads {
      RequestReads(req, env.freshId, s.store);
      assert Lookup(s.store, Draft(req, env.freshId).AddressOf()) == Held(st, s.log, Draft(req, env.freshId).AddressOf());
    }
  }

  lemma ProposedPreviews(st: Store, s: State, req: Proposal, t: Trigger, env: Env)
    requires StoreTold(st, s.store, s.log) && PreviewsTold(st, s.log)
    ensures PreviewsTold(st, Proposed(s, req, t, env).log)
  {
    RequestShape(req, env.freshId, env.reader, s.store);
    if env.reader == ReaderFails {
      QuietLog(st, s.log, s.log + [Quarantined(t, Owner(s, t))]);
    } else {
      RequestTold(st, s, req, env);
      RequestAppended(st, s.log, Emitted(Request(req, env.freshId, env.reader, s.store).value, t));
    }
  }

  lemma RequestAppended(st: Store, log: seq<Entry>, e: Entry)
    requires PreviewsTold(st, log) && Requests(e)
    requires e.step.op.diffPreview.Derived? ==>
               var before := Held(st, log, e.step.op.AddressOf());
               e.step.op.diffPreview == Derived(before.Some?, Diff(before, e.step.op.payload))
    ensures PreviewsTold(st, log + [e])
  {
    forall i ensures PreviewTold(st, log + [e], i) {
      assert PreviewTold(st, log, i);
      if 0 <= i <= |log| { assert (log + [e])[..i] == log[..i]; }
      assert log[..|log|] == log;
    }
  }

  lemma ExecutedIsQuiet(cfg: Config, s: State, op: WriteOperation, t: Trigger, env: Env)
    ensures QuietSince(s.log, Executed(cfg, s, op, t, env).log)
  {
    var more := ExecutedLog(cfg, s, op, t, env);
    QuietMore(s.log, more);
  }

  lemma QuietMore(before: seq<Entry>, more: seq<Entry>)
    requires forall e :: e in more ==> !Requests(e)
    ensures QuietSince(before, before + more)
  {
    forall i | |before| <= i < |before + more| ensures !Requests((before + more)[i]) { assert (before + more)[i] in more; }
  }

  lemma ApprovedIsQuiet(cfg: Config, s: State, op: WriteOperation, t: Trigger, env: Env)
    requires t.Decision? && op.state == Requested
    ensures var step := Approve(op, t.reviewer).value;
            QuietSince(s.log, Executed(cfg, ApprovalRecorded(s, step, t), step.op, t, env).log)
  {
    var step := Approve(op, t.reviewer).value;
    ExecutedIsQuiet(cfg, ApprovalRecorded(s, step, t), step.op, t, env);
  }

  lemma DecidedIsQuiet(cfg: Config, s: State, t: Trigger, env: Env)
    requires t.Decision?
    ensures QuietSince(s.log, Decided(cfg, s, t, env).log)
  {
    if t.writeId in s.pending && t.verdict == "approve" {
      var op := s.pending[t.writeId];
      if op.state == Approved { ExecutedIsQuiet(cfg, s, op, t, env); }
      if op.state == Requested { ApprovedIsQuiet(cfg, s, op, t, env); }
    }
  }

  lemma ReversedPreviews(st: Store, s: State, t: Trigger, env: Env)
    requires t.Reverse? && StoreTold(st, s.store, s.log) && PreviewsTold(st, s.log)
    ensures PreviewsTold(st, Reversed(s, t, env).log)
  {
    if t.writeId !in s.completed {
      QuietLog(st, s.log, Quarantine(s, t).log);
    } else {
      ProposedPreviews(st, s, ReversalOf(s.completed[t.writeId], t.operation, t.payload, t.requestedBy, t.diffPreview), t, env);
    }
  }

  lemma DecidedPreviews(st: Store, cfg: Config, s: State, t: Trigger, env: Env)
    requires t.Decision? && PreviewsTold(st, s.log)
    ensures PreviewsTold(st, Decided(cfg, s, t, env).log)
  {
    DecidedIsQuiet(cfg, s, t, env);
    QuietLog(st, s.log, Decided(cfg, s, t, env).log);
  }

  lemma StepPreviews(st: Store, cfg: Config, s: State, e: Event)
    requires StoreTold(st, s.store, s.log) && PreviewsTold(st, s.log)
    ensures PreviewsTold(st, Step(cfg, s, e).log)
  {
    match e.0
    case Propose(req) => ProposedPreviews(st, s, req, e.0, e.1);
    case Decision(_, _, _, _) => DecidedPreviews(st, cfg, s, e.0, e.1);
    case OtherSubject =>
    case Reverse(_, _, _, _, _) => ReversedPreviews(st, s, e.0, e.1);
  }

  /** Over any run, every derived preview shows the record as it was when it was requested. */
  lemma {:induction false} RunPreviews(cfg: Config, st: Store, events: seq<Event>)
    requires FreshRun(cfg, Start(st), events)
    ensures PreviewsTold(st, Run(cfg, Start(st), events).log)
  {
    if events != [] {
      var n := |events| - 1;
      FreshRunInit(cfg, Start(st), events);
      RunPreviews(cfg, st, events[..n]);
      RunTold(cfg, st, events[..n]);
      StepPreviews(st, cfg, Run(cfg, Start(st), events[..n]), events[n]);
    }
  }

  // --- From the preview to the commit ---------------------------------------------------

  ghost predicate OnlyPayload(log: seq<Entry>, i: int, j: int, a: Address, payload: Record) {
    forall k :: i <= k < j && CommitsAt(log, k, a) ==> log[k].op.payload == payload
  }

  /** While only one payload is committed to a record, it holds what it held, or one upsert. */
  lemma {:induction false} HeldBetween(st: Store, log: seq<Entry>, i: nat, j: nat, a: Address, payload: Record)
    requires i <= j <= |log| && OnlyPayload(log, i, j, a, payload)
    ensures var before := Held(st, log[..i], a);
            Held(st, log[..j], a) == before || Held(st, log[..j], a) == Some(Upserted(before, payload))
  {
    if i < j {
      HeldBetween(st, log, i, j - 1, a, payload);
      assert log[..j] == log[..j - 1] + [log[j - 1]];
      HeldStep(st, log[..j - 1], log[j - 1], a);
      CommitsInPrefix(log, j, a);
      UpsertAgain(Held(st, log[..i], a), payload);
    }
  }

  lemma CommitLands(st: Store, log: seq<Entry>, i: nat, j: nat, a: Address, payload: Record)
    requires i <= j < |log| && CommitsAt(log, j, a) && OnlyPayload(log, i, j + 1, a, payload)
    ensures Held(st, log[..j + 1], a) == Some(Upserted(Held(st, log[..i], a), payload))
  {
    HeldBetween(st, log, i, j, a, payload);
    assert log[..j + 1] == log[..j] + [log[j]];
    HeldStep(st, log[..j], log[j], a);
    CommitsInPrefix(log, j + 1, a);
    UpsertAgain(Held(st, log[..i], a), payload);
  }

  lemma CommitFollowsRequest(st: Store, s: State, i: int, j: int, a: Address, w: string)
    requires Told(st, s) && RequestedAt(s.log, i, w) && CommitsAt(s.log, j, a) && s.log[j].op.writeId == w
    ensures i < j && a == s.log[i].step.op.AddressOf() && s.log[j].op.payload == s.log[i].step.op.payload
  {
    CommitBelongs(st, s, j, a, w);
    assert Agrees(s, s.log[i]);
    assert Content(s.log[i].step.op).AddressOf() == Content(s.Write(w)).AddressOf();
    assert Content(s.log[i].step.op).payload == Content(s.Write(w)).payload;
    RequestIsFirst(s, i, w);
    if j < i {
      assert s.log[..i][..j] == s.log[..j];
      StagesPrefix(s.log[..i], j, w);
    }
  }

  /** Between the request i and the commit j of one write, no other write committed to the
      record. */
  ghost predicate Undisturbed(log: seq<Entry>, i: int, j: int, a: Address, w: string) {
    forall k :: i < k < j && CommitsAt(log, k, a) ==> log[k].op.writeId == w
  }

  lemma UndisturbedSendsOne(st: Store, s: State, i: int, j: int, a: Address, w: string)
    requires Told(st, s) && RequestedAt(s.log, i, w)
    requires CommitsAt(s.log, j, a) && s.log[j].op.writeId == w && Undisturbed(s.log, i, j, a, w)
    ensures OnlyPayload(s.log, i, j + 1, a, s.log[i].step.op.payload)
  {
    forall k | i <= k < j + 1 && CommitsAt(s.log, k, a) ensures s.log[k].op.payload == s.log[i].step.op.payload {
      CommitFollowsRequest(st, s, i, k, a, w);
    }
  }

  lemma LinesLand(st: Store, s: State, i: int, j: int, a: Address, w: string)
    requires Told(st, s) && PreviewsTold(st, s.log)
    requires RequestedAt(s.log, i, w) && s.log[i].step.op.diffPreview.Derived?
    requires CommitsAt(s.log, j, a) && s.log[j].op.writeId == w && Undisturbed(s.log, i, j, a, w)
    ensures var before := Held(st, s.log[..i], a);
            && Held(st, s.log[..j + 1], a) == Some(Upserted(before, s.log[i].step.op.payload))
            && SameRecord(ApplyLines(Current(before), s.log[i].step.op.diffPreview.lines), Held(st, s.log[..j + 1], a).value)
  {
    var payload := s.log[i].step.op.payload;
    CommitFollowsRequest(st, s, i, j, a, w);
    UndisturbedSendsOne(st, s, i, j, a, w);
    CommitLands(st, s.log, i, j, a, payload);
    assert PreviewTold(st, s.log, i);
    DiffMeansTheWrite(Held(st, s.log[..i], a), payload);
  }

  /** Over any run: if no other write reached the record since the preview was made, then
      right after each commit of the write, its retries included, the record is what
      carrying out the reviewed lines on the record of that time gives. */
  lemma ReviewedDiffLands(cfg: Config, st: Store, events: seq<Event>, i: int, j: int, a: Address, w: string)
    requires FreshRun(cfg, Start(st), events)
    requires var log := Run(cfg, Start(st), events).log;
             && RequestedAt(log, i, w) && log[i].step.op.diffPreview.Derived?
             && CommitsAt(log, j, a) && log[j].op.writeId == w && Undisturbed(log, i, j, a, w)
    ensures var log := Run(cfg, Start(st), events).log;
            var before := Held(st, log[..i], a);
            && Held(st, log[..j + 1], a) == Some(Upserted(before, log[i].step.op.payload))
            && SameRecord(ApplyLines(Current(before), log[i].step.op.diffPreview.lines), Held(st, log[..j + 1], a).value)
  {
    RunTold(cfg, st, events);
    RunPreviews(cfg, st, events);
    LinesLand(st, Run(cfg, Start(st), events), i, j, a, w);
  }
}
