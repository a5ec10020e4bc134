/**
 What lost answers, failures and replays do to the ERP: every record holds the upserts
 of the calls that committed to it, in order; every write touches one record; a
 completed create has made exactly one, whose contents are one upsert of the payload
 unless another write also reached that record.
 */
module ExactlyOnce {
  import opened Prelude
  import opened Breaker
  import opened Writes
  import opened WriteProtocol
  import opened Lifecycle

  /** Entry i is an ERP call that committed to record a, answered or not. */
  predicate CommitsAt(log: seq<Entry>, i: int, a: Address) {
    && 0 <= i < |log| && log[i].Tried? && log[i].called
    && !log[i].answer.Refused? && log[i].op.AddressOf() == a
  }

  ghost predicate SoleWriter(log: seq<Entry>, a: Address, w: string) {
    forall i :: CommitsAt(log, i, a) ==> log[i].op.writeId == w
  }

  ghost predicate WrittenBy(log: seq<Entry>, a: Address, w: string) {
    exists i :: CommitsAt(log, i, a) && log[i].op.writeId == w
  }

  /** What the commits in a log leave in record a, over what the ERP held before: their
      upserts, in log order. */
  function Held(st: Store, log: seq<Entry>, a: Address): Option<Record> {
    if log == [] then Lookup(st, a)
    else
      var n := |log| - 1;
      var before := Held(st, log[..n], a);
      if CommitsAt(log, n, a) then Some(Upserted(before, log[n].op.payload)) else before
  }

  /** The ERP holds exactly what the log says. */
  ghost predicate StoreTold(st: Store, store: Store, log: seq<Entry>) {
    forall a :: Lookup(store, a) == Held(st, log, a)
  }

  ghost predicate CompletedWereWritten(s: State) {
    forall w :: w in s.completed ==> WrittenBy(s.log, s.completed[w].AddressOf(), w)
  }

  lemma HeldStep(st: Store, log: seq<Entry>, e: Entry, a: Address)
    ensures Held(st, log + [e], a) ==
            if CommitsAt(log + [e], |log|, a) then Some(Upserted(Held(st, log, a), e.op.payload)) else Held(st, log, a)
  {
    assert (log + [e])[..|log|] == log;
  }

  lemma OtherEntry(st: Store, store: Store, log: seq<Entry>, e: Entry)
    requires StoreTold(st, store, log)
    requires e.Tried? && e.called ==> e.answer.Refused?
    ensures StoreTold(st, store, log + [e])
  {
    forall a ensures Lookup(store, a) == Held(st, log + [e], a) { HeldStep(st, log, e, a); }
  }

  lemma CommitEntry(st: Store, store: Store, log: seq<Entry>, e: Entry)
    requires StoreTold(st, store, log)
    requires e.Tried? && e.called && !e.answer.Refused?
    ensures StoreTold(st, Commit(store, e.op, e.answer), log + [e])
  {
    forall a ensures Lookup(Commit(store, e.op, e.answer), a) == Held(st, log + [e], a) { HeldStep(st, log, e, a); }
  }

  lemma CommitsInPrefix(log: seq<Entry>, n: nat, a: Address)
    requires n <= |log|
    ensures forall i :: CommitsAt(log[..n], i, a) <==> i < n && CommitsAt(log, i, a)
  {
  }

  lemma UpsertAgain(before: Option<Record>, payload: Record)
    ensures Upserted(Some(Upserted(before, payload)), payload) == Upserted(before, payload)
  {
  }

  /** A record exists exactly when it did before or some call committed to it; if all such
      calls sent one payload, it holds one upsert of it. */
  lemma {:induction false} HeldBy(st: Store, log: seq<Entry>, a: Address, payload: Record)
    ensures Held(st, log, a).Some? <==> a in st || exists i :: CommitsAt(log, i, a)
    ensures (forall i :: CommitsAt(log, i, a) ==> log[i].op.payload == payload) ==>
              Held(st, log, a) ==
                if exists i :: CommitsAt(log, i, a) then Some(Upserted(Lookup(st, a), payload)) else Lookup(st, a)
  {
    if log != [] {
      var n := |log| - 1;
      HeldBy(st, log[..n], a, payload);
      CommitsInPrefix(log, n, a);
      UpsertAgain(Lookup(st, a), payload);
      if i :| CommitsAt(log[..n], i, a) { assert CommitsAt(log, i, a); }
    }
  }

  lemma WrittenByExtends(log: seq<Entry>, more: seq<Entry>, a: Address, w: string)
    requires WrittenBy(log, a, w)
    ensures WrittenBy(log + more, a, w)
  {
    var i :| CommitsAt(log, i, a) && log[i].op.writeId == w;
    assert CommitsAt(log + more, i, a);
  }

  ghost predicate Told(st: Store, s: State) { Sound(s) && StoreTold(st, s.store, s.log) && CompletedWereWritten(s) }

  lemma QuietEntry(st: Store, s: State, t: State, e: Entry)
    requires Told(st, s) && t.log == s.log + [e] && t.store == s.store && t.completed == s.completed
    requires e.Tried? && e.called ==> e.answer.Refused?
    ensures StoreTold(st, t.store, t.log) && CompletedWereWritten(t)
  {
    OtherEntry(st, s.store, s.log, e);
    forall w | w in t.completed ensures WrittenBy(t.log, t.completed[w].AddressOf(), w) {
      WrittenByExtends(s.log, [e], s.completed[w].AddressOf(), w);
    }
  }

  /** The state between the ERP call and its report. */
  function AfterCall(s: State, op: WriteOperation, env: Env): State {
    s.(log := s.log + [TriedEntry(op, env, true)], store := Commit(s.store, op, env.answer))
  }

  lemma CalledEntry(st: Store, s: State, op: WriteOperation, env: Env)
    requires Told(st, s) && op.writeId in s.pending && s.pending[op.writeId] == op && op.state == Approved
    ensures Told(st, AfterCall(s, op, env))
    ensures !env.answer.Refused? ==> WrittenBy(AfterCall(s, op, env).log, op.AddressOf(), op.writeId)
  {
    var t := AfterCall(s, op, env);
    var e := TriedEntry(op, env, true);
    TrySound(s, t, op, env, true);
    var n := |s.log|;
    if env.answer.Refused? {
      QuietEntry(st, s, t, e);
    } else {
      assert t.log[n] == e;
      CommitEntry(st, s.store, s.log, e);
      assert CommitsAt(t.log, n, op.AddressOf());
      forall w | w in t.completed ensures WrittenBy(t.log, t.completed[w].AddressOf(), w) {
        WrittenByExtends(s.log, [e], s.completed[w].AddressOf(), w);
      }
    }
  }

  lemma CompletionTold(st: Store, s: State, t: State, op: WriteOperation, cause: Trigger)
    requires Told(st, s) && WrittenBy(s.log, op.AddressOf(), op.writeId)
    requires t.log == s.log + [Emitted(CompletedStep(op), cause)]
    requires t.store == s.store && t.completed == s.completed[op.writeId := op.(state := Completed)]
    ensures StoreTold(st, t.store, t.log) && CompletedWereWritten(t)
  {
    var last := Emitted(CompletedStep(op), cause);
    OtherEntry(st, s.store, s.log, last);
    WrittenByExtends(s.log, [last], op.AddressOf(), op.writeId);
    forall w | w in t.completed && w != op.writeId ensures WrittenBy(t.log, t.completed[w].AddressOf(), w) {
      WrittenByExtends(s.log, [last], s.completed[w].AddressOf(), w);
    }
  }

  lemma RefusedTold(st: Store, s: State, op: WriteOperation, b: BreakerState, cause: Trigger, env: Env)
    requires Told(st, s) && op.writeId in s.pending && s.pending[op.writeId] == op && op.state == Approved
    ensures var t := ExecutionRefused(s, op, b, cause, env); StoreTold(st, t.store, t.log) && CompletedWereWritten(t)
  {
    var mid := s.(log := s.log + [TriedEntry(op, env, false)]);
    TrySound(s, mid, op, env, false);
    QuietEntry(st, s, mid, TriedEntry(op, env, false));
    var last := Quarantined(cause, Some(op.PairOf()));
    assert ExecutionRefused(s, op, b, cause, env).log == mid.log + [last];
    QuietEntry(st, mid, ExecutionRefused(s, op, b, cause, env), last);
  }

  lemma CompletedTold(st: Store, s: State, op: WriteOperation, cause: Trigger, env: Env)
    requires Told(st, s) && op.writeId in s.pending && s.pending[op.writeId] == op && op.state == Approved
    requires env.answer.CommittedAnswered?
    ensures var t := ExecutionCompleted(s, op, cause, env); StoreTold(st, t.store, t.log) && CompletedWereWritten(t)
  {
    var mid := AfterCall(s, op, env);
    var t := ExecutionCompleted(s, op, cause, env);
    CalledEntry(st, s, op, env);
    assert t.log == mid.log + [Emitted(CompletedStep(op), cause)];
    assert t.store == mid.store && t.completed == mid.completed[op.writeId := op.(state := Completed)];
    CompletionTold(st, mid, t, op, cause);
  }

  lemma FailedTold(st: Store, s: State, op: WriteOperation, b: BreakerState, escalate: bool, cause: Trigger, env: Env)
    requires Told(st, s) && op.writeId in s.pending && s.pending[op.writeId] == op && op.state == Approved
    ensures var t := ExecutionFailed(s, op, b, escalate, cause, env); StoreTold(st, t.store, t.log) && CompletedWereWritten(t)
  {
    var mid := AfterCall(s, op, env);
    var t := ExecutionFailed(s, op, b, escalate, cause, env);
    CalledEntry(st, s, op, env);
    if escalate {
      var last := Quarantined(cause, Some(op.PairOf()));
      assert t.log == mid.log + [last];
      QuietEntry(st, mid, t, last);
    }
  }

  lemma ExecutedTold(st: Store, cfg: Config, s: State, op: WriteOperation, cause: Trigger, env: Env)
    requires Told(st, s) && op.writeId in s.pending && s.pending[op.writeId] == op && op.state == Approved
    ensures Told(st, Executed(cfg, s, op, cause, env))
  {
    ExecutedSound(cfg, s, op, cause, env);
    var (b, admitted) := Checked(cfg, s.BreakerOf(op.PairOf()), env.checkedAt);
    if !admitted {
      RefusedTold(st, s, op, b, cause, env);
    } else if env.answer.CommittedAnswered? {
      CompletedTold(st, s, op, cause, env);
    } else {
      var (c, escalate) := Failed(cfg, b, env.reportedAt);
      FailedTold(st, s, op, c, escalate, cause, env);
    }
  }

  lemma QuarantineTold(st: Store, s: State, t: Trigger)
    requires Told(st, s)
    ensures StoreTold(st, Quarantine(s, t).store, Quarantine(s, t).log) && CompletedWereWritten(Quarantine(s, t))
  {
    QuietEntry(st, s, Quarantine(s, t), Quarantined(t, Owner(s, t)));
  }

  lemma RecordedTold(st: Store, s: State, step: WriteStep, t: Trigger)
    requires Told(st, s)
    ensures var u := ApprovalRecorded(s, step, t); StoreTold(st, u.store, u.log) && CompletedWereWritten(u)
  {
    QuietEntry(st, s, ApprovalRecorded(s, step, t), Emitted(step, t));
  }

  lemma ProposedTold(st: Store, s: State, req: Proposal, t: Trigger, env: Env)
    requires Told(st, s) && !s.Knows(env.freshId)
    ensures Told(st, Proposed(s, req, t, env))
  {
    ProposedSound(s, req, t, env);
    match Request(req, env.freshId, env.reader, s.store)
    case Err(_) => QuarantineTold(st, s, t);
    case Ok(step) => RecordedTold(st, s, step, t);
  }

  lemma DecidedTold(st: Store, cfg: Config, s: State, t: Trigger, env: Env)
    requires Told(st, s) && t.Decision?
    ensures Told(st, Decided(cfg, s, t, env))
  {
    DecidedSound(cfg, s, t, env);
    if t.writeId in s.pending {
      var op := s.pending[t.writeId];
      QuietEntry(st, s, Quarantine(s, t), Quarantined(t, Owner(s, t)));
      if t.verdict != "approve" {
        if op.state == Requested {
          var step := Reject(op, t.reviewer, t.reason).value;
          QuietEntry(st, s, RejectionRecorded(s, step, t), Emitted(step, t));
        }
      } else if op.state == Approved {
        ExecutedTold(st, cfg, s, op, t, env);
      } else {
        var step := Approve(op, t.reviewer).value;
        ApprovalSound(s, op, t.reviewer, t);
        QuietEntry(st, s, ApprovalRecorded(s, step, t), Emitted(step, t));
        ExecutedTold(st, cfg, ApprovalRecorded(s, step, t), step.op, t, env);
      }
    }
  }

  lemma StepTold(st: Store, cfg: Config, s: State, e: Event)
    requires Told(st, s) && FreshFor(s, e)
    ensures Told(st, Step(cfg, s, e))
  {
    match e.0
    case Propose(req) => ProposedTold(st, s, req, e.0, e.1);
    case Decision(_, _, _, _) => DecidedTold(st, cfg, s, e.0, e.1);
    case OtherSubject =>
    case Reverse(w, operation, payload, requester, preview) =>
      StepSound(cfg, s, e);
      if w in s.completed {
        ProposedTold(st, s, ReversalOf(s.completed[w], operation, payload, requester, preview), e.0, e.1);
      } else {
        QuietEntry(st, s, Quarantine(s, e.0), Quarantined(e.0, Owner(s, e.0)));
      }
  }

  lemma {:induction false} RunTold(cfg: Config, st: Store, events: seq<Event>)
    requires FreshRun(cfg, Start(st), events)
    ensures Told(st, Run(cfg, Start(st), events))
  {
    if events != [] {
      var n := |events| - 1;
      FreshRunInit(cfg, Start(st), events);
      RunTold(cfg, st, events[..n]);
      StepTold(st, cfg, Run(cfg, Start(st), events[..n]), events[n]);
    }
  }

  // --- The theorems ---------------------------------------------------------------

  /** The ERP records that calls made for one write have reached. */
  ghost function RecordsOf(s: State, w: string): set<Address> {
    set a | a in s.store && WrittenBy(s.log, a, w)
  }

  lemma CommitBelongs(st: Store, s: State, i: int, a: Address, w: string)
    requires Told(st, s) && CommitsAt(s.log, i, a) && s.log[i].op.writeId == w
    ensures w in s.completed || (w in s.pending && s.pending[w].state == Approved)
    ensures a == s.Write(w).AddressOf() && s.log[i].op.payload == s.Write(w).payload
  {
    assert Agrees(s, s.log[i]);
    assert Content(s.log[i].op).AddressOf() == Content(s.Write(w)).AddressOf();
    assert Content(s.log[i].op).payload == Content(s.Write(w)).payload;
    StagesPrefix(s.log, i, w);
    assert Expected(s, w) == Stages(s.log, w);
    assert Expected(s, w)[1] == SApproved;
  }

  /** However often a write is retried, it reaches one record at most, the one the
      reviewer was shown; none at all unless it was approved. */
  lemma OneRecordPerWrite(cfg: Config, st: Store, events: seq<Event>, w: string)
    requires FreshRun(cfg, Start(st), events)
    ensures var s := Run(cfg, Start(st), events);
            && (s.Knows(w) ==> RecordsOf(s, w) <= {s.Write(w).AddressOf()})
            && (RecordsOf(s, w) != {} ==> w in s.completed || (w in s.pending && s.pending[w].state == Approved))
            && (w in s.completed ==> RecordsOf(s, w) == {s.completed[w].AddressOf()})
  {
    var s := Run(cfg, Start(st), events);
    RunTold(cfg, st, events);
    WriteReachesOne(st, s, w);
  }

  lemma WriteReachesOne(st: Store, s: State, w: string)
    requires Told(st, s)
    ensures s.Knows(w) ==> RecordsOf(s, w) <= {s.Write(w).AddressOf()}
    ensures RecordsOf(s, w) != {} ==> w in s.completed || (w in s.pending && s.pending[w].state == Approved)
    ensures w in s.completed ==> RecordsOf(s, w) == {s.completed[w].AddressOf()}
  {
    forall a | a in RecordsOf(s, w)
      ensures w in s.completed || (w in s.pending && s.pending[w].state == Approved)
      ensures a == s.Write(w).AddressOf()
    {
      var i :| CommitsAt(s.log, i, a) && s.log[i].op.writeId == w;
      CommitBelongs(st, s, i, a, w);
    }
    if w in s.completed {
      var a := s.completed[w].AddressOf();
      assert WrittenBy(s.log, a, w);
      HeldBy(st, s.log, a, s.completed[w].payload);
      assert Lookup(s.store, a) == Held(st, s.log, a);
      assert a in RecordsOf(s, w);
    }
  }

  /** A completed create has reached exactly one record, under its own key. If no other
      write reached that key, it holds one upsert of the payload over what was there before
      the run, so the payload itself if nothing was, whatever mix of failures, lost answers
      and replays led there. */
  lemma ExactlyOnceCreate(cfg: Config, st: Store, events: seq<Event>, w: string)
    requires FreshRun(cfg, Start(st), events)
    requires w in Run(cfg, Start(st), events).completed && Run(cfg, Start(st), events).completed[w].IsCreate()
    ensures var s := Run(cfg, Start(st), events);
            var op := s.completed[w];
            var a := Address(op.PairOf(), op.targetModule, "cavi-" + w);
            && RecordsOf(s, w) == {a} && a in s.store
            && (SoleWriter(s.log, a, w) ==> s.store[a] == Current(Lookup(st, a)) + op.payload)
            && (SoleWriter(s.log, a, w) && a !in st ==> s.store[a] == op.payload)
  {
    var s := Run(cfg, Start(st), events);
    RunTold(cfg, st, events);
    WriteReachesOne(st, s, w);
    CreatedRecord(st, s, w);
    assert map[] + s.completed[w].payload == s.completed[w].payload;
  }

  lemma CreatedRecord(st: Store, s: State, w: string)
    requires Told(st, s) && w in s.completed
    ensures var a := s.completed[w].AddressOf();
            && a in s.store
            && (SoleWriter(s.log, a, w) ==> s.store[a] == Upserted(Lookup(st, a), s.completed[w].payload))
  {
    var a, payload := s.completed[w].AddressOf(), s.completed[w].payload;
    assert WrittenBy(s.log, a, w);
    HeldBy(st, s.log, a, payload);
    assert Lookup(s.store, a) == Held(st, s.log, a);
    if SoleWriter(s.log, a, w) {
      forall i | CommitsAt(s.log, i, a) ensures s.log[i].op.payload == payload { CommitBelongs(st, s, i, a, w); }
    }
  }

  /** Two creates never meet in one record. */
  lemma CreatesAreSeparate(cfg: Config, st: Store, events: seq<Event>, v: string, w: string)
    requires FreshRun(cfg, Start(st), events) && v != w
    requires var s := Run(cfg, Start(st), events);
             s.Knows(v) && s.Knows(w) && s.Write(v).IsCreate() && s.Write(w).IsCreate()
    ensures RecordsOf(Run(cfg, Start(st), events), v) !! RecordsOf(Run(cfg, Start(st), events), w)
  {
    var s := Run(cfg, Start(st), events);
    OneRecordPerWrite(cfg, st, events, v);
    OneRecordPerWrite(cfg, st, events, w);
    RunTold(cfg, st, events);
    CreatesNeverShareAnAddress(s.Write(v), s.Write(w));
  }

  /** The contents of every record, whoever wrote it: what it was before the run, and on top
      the upserts of the calls that committed to it, answered or not, in log order. */
  lemma RecordsAreTold(cfg: Config, st: Store, events: seq<Event>, a: Address)
    requires FreshRun(cfg, Start(st), events)
    ensures var s := Run(cfg, Start(st), events);
            && Lookup(s.store, a) == Held(st, s.log, a)
            && (a in s.store <==> a in st || exists i :: CommitsAt(s.log, i, a))
  {
    RunTold(cfg, st, events);
    HeldBy(st, Run(cfg, Start(st), events).log, a, map[]);
  }

  /** Entry i is a commit to record a that sent field k. */
  predicate SendsAt(log: seq<Entry>, i: int, a: Address, k: string) {
    CommitsAt(log, i, a) && k in log[i].op.payload
  }

  ghost predicate LastSender(log: seq<Entry>, i: int, a: Address, k: string) {
    SendsAt(log, i, a, k) && forall j :: j > i ==> !SendsAt(log, j, a, k)
  }

  function FieldOf(held: Option<Record>, k: string): Option<Json> {
    if held.Some? && k in held.value then Some(held.value[k]) else None
  }

  lemma FieldStep(st: Store, log: seq<Entry>, a: Address, k: string)
    requires log != []
    ensures var n := |log| - 1;
            FieldOf(Held(st, log, a), k) ==
            if SendsAt(log, n, a, k) then Some(log[n].op.payload[k]) else FieldOf(Held(st, log[..n], a), k)
  {
  }

  lemma {:induction false} UnsentStays(st: Store, log: seq<Entry>, a: Address, k: string)
    requires forall i :: !SendsAt(log, i, a, k)
    ensures FieldOf(Held(st, log, a), k) == FieldOf(Lookup(st, a), k)
  {
    if log != [] {
      var n := |log| - 1;
      FieldStep(st, log, a, k);
      CommitsInPrefix(log, n, a);
      forall i ensures !SendsAt(log[..n], i, a, k) { assert !SendsAt(log, i, a, k); }
      UnsentStays(st, log[..n], a, k);
    }
  }

  lemma {:induction false} LastSenderExists(log: seq<Entry>, a: Address, k: string, i: int) returns (j: int)
    requires SendsAt(log, i, a, k)
    ensures LastSender(log, j, a, k)
    decreases |log| - i
  {
    if n :| n > i && SendsAt(log, n, a, k) {
      j := LastSenderExists(log, a, k, n);
    } else {
      j := i;
    }
  }

  lemma {:induction false} LastSenderWins(st: Store, log: seq<Entry>, a: Address, k: string, i: int)
    requires LastSender(log, i, a, k)
    ensures FieldOf(Held(st, log, a), k) == Some(log[i].op.payload[k])
  {
    var n := |log| - 1;
    FieldStep(st, log, a, k);
    if i < n {
      assert !SendsAt(log, n, a, k);
      CommitsInPrefix(log, n, a);
      assert SendsAt(log[..n], i, a, k);
      forall j | j > i ensures !SendsAt(log[..n], j, a, k) { assert !SendsAt(log, j, a, k); }
      LastSenderWins(st, log[..n], a, k, i);
    }
  }

  /** The value field k of record a must have: the last one sent, else the one before the run. */
  ghost predicate Tells(st: Store, log: seq<Entry>, a: Address, k: string, v: Option<Json>) {
    if exists i :: SendsAt(log, i, a, k)
    then exists i :: LastSender(log, i, a, k) && v == Some(log[i].op.payload[k])
    else v == FieldOf(Lookup(st, a), k)
  }

  lemma FieldTold(st: Store, log: seq<Entry>, a: Address, k: string)
    ensures forall v :: Tells(st, log, a, k, v) <==> FieldOf(Held(st, log, a), k) == v
  {
    if i :| SendsAt(log, i, a, k) {
      var j := LastSenderExists(log, a, k, i);
      forall i | LastSender(log, i, a, k) ensures FieldOf(Held(st, log, a), k) == Some(log[i].op.payload[k]) {
        LastSenderWins(st, log, a, k, i);
      }
    } else {
      UnsentStays(st, log, a, k);
    }
  }

  /** Field by field, the last sender wins, over any run: a field of a record is what the last
      call that committed to the record and sent the field sent, and what it was before the
      run if there is none. */
  lemma FieldsAreTold(cfg: Config, st: Store, events: seq<Event>, a: Address, k: string)
    requires FreshRun(cfg, Start(st), events)
    ensures var s := Run(cfg, Start(st), events);
            forall v :: Tells(st, s.log, a, k, v) <==> FieldOf(Lookup(s.store, a), k) == v
  {
    RecordsAreTold(cfg, st, events, a);
    FieldTold(st, Run(cfg, Start(st), events).log, a, k);
  }
}
