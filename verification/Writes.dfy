/**
 One ERP write and its lifecycle (agents/forge/write.py): the state machine, the
 dry-run diff, the coordinator's steps and the batch loop, over an ERP that
 upserts the fields it is sent.
 */
module Writes {
  import opened Prelude

  datatype WriteState = Requested | Approved | Rejected | Completed

  /** The allowed forward transitions; Rejected and Completed are terminal. */
  predicate Allowed(from: WriteState, to: WriteState) {
    match from
    case Requested => to == Approved || to == Rejected
    case Approved => to == Completed
    case Rejected => false
    case Completed => false
  }

  datatype Error = InvalidTransition | ErpWriteError

  datatype Pair = Pair(tenant: string, erp: string)

  /** Where a record lives in the ERPs: a tenant's account, a module, an external id. */
  datatype Address = Address(pair: Pair, targetModule: string, externalId: string)

  /** What a reviewer sees. Lines stay structured; their text rendering is not modelled. */
  datatype Preview =
    | Unavailable
    | Asserted(text: string)
    | Derived(recordExists: bool, lines: seq<DiffLine>)

  datatype DiffLine = Minus(key: string, value: Json) | Plus(key: string, value: Json)

  datatype WriteOperation = WriteOperation(
    writeId: string,
    tenantId: string,
    erpPlatform: string,
    operation: string,
    targetModule: string,
    payload: Record,
    requestedBy: string,
    diffPreview: Preview,
    state: WriteState,
    reverses: Option<string>,
    targetExternalId: Option<string>)
  {
    function PairOf(): Pair { Pair(tenantId, erpPlatform) }

    function IdempotencyKey(): string { "cavi-" + writeId }

    /** An empty target counts as no target: the source tests it with `or`. */
    function ErpAddress(): string {
      if targetExternalId.Some? && targetExternalId.value != "" then targetExternalId.value
      else IdempotencyKey()
    }

    function AddressOf(): Address { Address(PairOf(), targetModule, ErpAddress()) }

    predicate IsCreate() { operation == "create" && targetExternalId.None? }

    function TransitionTo(to: WriteState): Result<WriteOperation, Error> {
      if Allowed(state, to) then Ok(this.(state := to)) else Err(InvalidTransition)
    }
  }

  /** Decide once: a write awaiting review can be approved or rejected, an approved one
      completed, and a rejected or completed one nothing; nothing but its state changes. */
  lemma TransitionsIff(op: WriteOperation, to: WriteState)
    ensures op.TransitionTo(to).Ok? <==>
            || (op.state == Requested && (to == Approved || to == Rejected))
            || (op.state == Approved && to == Completed)
    ensures op.TransitionTo(to).Ok? ==> op.TransitionTo(to).value == op.(state := to)
    ensures op.TransitionTo(to).Err? ==> op.TransitionTo(to) == Err(InvalidTransition)
  {
  }

  /** An update goes to the record it names, in its own tenant's ERP and module; without a name,
      or with an empty one, a write goes to its own key. */
  lemma AddressRules(op: WriteOperation)
    ensures var a := op.AddressOf();
            && a.pair == Pair(op.tenantId, op.erpPlatform) && a.targetModule == op.targetModule
            && (op.targetExternalId == None || op.targetExternalId == Some("") ==> a.externalId == "cavi-" + op.writeId)
            && (op.targetExternalId != None && op.targetExternalId != Some("") ==> Some(a.externalId) == op.targetExternalId)
  {
  }

  /** Fresh ids give creates addresses that nothing else's idempotency key can name. */
  lemma CreatesNeverShareAnAddress(a: WriteOperation, b: WriteOperation)
    requires a.IsCreate() && b.IsCreate()
    ensures a.AddressOf() == b.AddressOf() ==> a.writeId == b.writeId
  {
    assert a.writeId == a.IdempotencyKey()[5..];
    assert b.writeId == b.IdempotencyKey()[5..];
  }

  // --- The dry-run diff -------------------------------------------------------

  function LinesFor(current: Record, key: string, value: Json): seq<DiffLine> {
    if key !in current then [Plus(key, value)]
    else if !Same(current[key], value) then [Minus(key, current[key]), Plus(key, value)]
    else []
  }

  function DiffLines(current: Record, payload: Record, keys: seq<string>): seq<DiffLine>
    requires forall k :: k in keys ==> k in payload
  {
    if keys == [] then []
    else
      var n := |keys| - 1;
      DiffLines(current, payload, keys[..n]) + LinesFor(current, keys[n], payload[keys[n]])
  }

  function Current(before: Option<Record>): Record {
    match before case None => map[] case Some(r) => r
  }

  function Diff(before: Option<Record>, payload: Record): seq<DiffLine> {
    DiffLines(Current(before), payload, SortedKeys(payload.Keys))
  }

  lemma DiffLinesStep(current: Record, payload: Record, keys: seq<string>, i: nat)
    requires i < |keys| && forall k :: k in keys ==> k in payload
    ensures DiffLines(current, payload, keys[..i + 1])
            == DiffLines(current, payload, keys[..i]) + LinesFor(current, keys[i], payload[keys[i]])
  {
    assert keys[..i + 1][..i] == keys[..i];
  }

  method RenderDiff(before: Option<Record>, payload: Record) returns (preview: Preview)
    ensures preview == Derived(before.Some?, Diff(before, payload))
  {
    var current := Current(before);
    var keys := SortedKeys(payload.Keys);
    var lines: seq<DiffLine> := [];
    for i := 0 to |keys|
      invariant lines == DiffLines(current, payload, keys[..i])
    {
      DiffLinesStep(current, payload, keys, i);
      var key := keys[i];
      assert key in keys;
      var value := payload[key];
      if key !in current {
        lines := lines + [Plus(key, value)];
      } else if !Same(current[key], value) {
        lines := lines + [Minus(key, current[key]), Plus(key, value)];
      }
    }
    assert keys[..|keys|] == keys;
    preview := Derived(before.Some?, lines);
  }

  /** How a reader of the diff carries it out by hand. */
  function ApplyLine(r: Record, line: DiffLine): Record {
    match line
    case Minus(k, _) => r - {k}
    case Plus(k, v) => r[k := v]
  }

  function ApplyLines(r: Record, lines: seq<DiffLine>): Record {
    if lines == [] then r else ApplyLine(ApplyLines(r, lines[..|lines| - 1]), lines[|lines| - 1])
  }

  lemma {:induction false} ApplyLinesConcat(r: Record, a: seq<DiffLine>, b: seq<DiffLine>)
    ensures ApplyLines(r, a + b) == ApplyLines(ApplyLines(r, a), b)
  {
    if b == [] {
      assert a + b == a;
    } else {
      var n := |b| - 1;
      assert (a + b)[..|a| + n] == a + b[..n];
      ApplyLinesConcat(r, a, b[..n]);
    }
  }

  lemma ApplyLinesFor(r: Record, current: Record, key: string, value: Json)
    requires (key in r <==> key in current) && (key in current ==> r[key] == current[key])
    ensures ApplyLines(r, LinesFor(current, key, value)) == r[key := Shown(current, key, value)]
  {
    var lines := LinesFor(current, key, value);
    if |lines| == 0 {
      assert r[key := r[key]] == r;
    } else if |lines| == 1 {
      assert lines[..0] == [];
    } else if |lines| == 2 {
      assert lines[..1] == [Minus(key, current[key])];
      assert lines[..1][..0] == [];
      assert ApplyLines(r, lines[..1]) == r - {key};
    }
  }

  /** What the diff lets a reader expect of one field: a value equal to the old one is
      not shown, so the old one stays. */
  function Shown(current: Record, key: string, value: Json): Json {
    if key in current && Same(current[key], value) then current[key] else value
  }

  function AllShown(current: Record, payload: Record): Record {
    map k | k in payload :: Shown(current, k, payload[k])
  }

  function Restrict(r: Record, keys: seq<string>): Record {
    map k | k in r && k in keys :: r[k]
  }

  lemma RestrictStep(r: Record, keys: seq<string>)
    requires keys != [] && keys[|keys| - 1] in r
    ensures var n := |keys| - 1; Restrict(r, keys) == Restrict(r, keys[..n])[keys[n] := r[keys[n]]]
  {
    var n := |keys| - 1;
    assert keys == keys[..n] + [keys[n]];
    assert forall k :: k in keys <==> k in keys[..n] || k == keys[n];
  }

  lemma LastIsNew(keys: seq<string>)
    requires keys != [] && StrictlySorted(keys)
    ensures keys[|keys| - 1] !in keys[..|keys| - 1]
  {
    var n := |keys| - 1;
    forall i | 0 <= i < n ensures keys[i] != keys[n] {
      LessTotal(keys[i], keys[n]);
    }
  }

  lemma MergeUpdate(r: Record, changes: Record, key: string, value: Json)
    ensures (r + changes)[key := value] == r + changes[key := value]
  {
  }

  lemma {:induction false} ApplyDiffLines(current: Record, payload: Record, keys: seq<string>)
    requires forall k :: k in keys ==> k in payload
    requires StrictlySorted(keys)
    ensures ApplyLines(current, DiffLines(current, payload, keys)) == current + Restrict(AllShown(current, payload), keys)
  {
    var shown := AllShown(current, payload);
    if keys == [] {
      assert Restrict(shown, keys) == map[];
    } else {
      var n := |keys| - 1;
      var init, key := keys[..n], keys[n];
      assert key in keys;
      var done := Restrict(shown, init);
      var rest := LinesFor(current, key, payload[key]);
      ApplyDiffLines(current, payload, init);
      LastIsNew(keys);
      RestrictStep(shown, keys);
      MergeUpdate(current, done, key, shown[key]);
      ApplyLinesFor(current + done, current, key, payload[key]);
      ApplyLinesConcat(current, DiffLines(current, payload, init), rest);
    }
  }

  lemma {:induction false} NoLinesIff(current: Record, payload: Record, keys: seq<string>)
    requires forall k :: k in keys ==> k in payload
    ensures DiffLines(current, payload, keys) == [] <==>
            forall k :: k in keys ==> k in current && Same(current[k], payload[k])
  {
    if keys != [] {
      var n := |keys| - 1;
      NoLinesIff(current, payload, keys[..n]);
      assert keys == keys[..n] + [keys[n]];
      assert forall k :: k in keys <==> k in keys[..n] || k == keys[n];
    }
  }

  /** The ERP's upsert: fields sent are set, fields not sent are left alone. */
  function Upserted(before: Option<Record>, payload: Record): Record {
    Current(before) + payload
  }

  lemma RestrictToAll(r: Record, keys: seq<string>)
    requires forall k :: k in keys <==> k in r
    ensures Restrict(r, keys) == r
  {
  }

  /** The payload puts a value where an equal one of another type stands: True for 1, say. */
  ghost predicate Retypes(current: Record, payload: Record) {
    exists k :: k in payload && k in current && Same(current[k], payload[k]) && current[k] != payload[k]
  }

  lemma MergeChangesNothingIff(current: Record, payload: Record)
    ensures SameRecord(current + payload, current) <==>
            forall k :: k in payload ==> k in current && Same(current[k], payload[k])
  {
    var merged := current + payload;
    forall k | k in current && k !in payload ensures Same(merged[k], current[k]) { SameAsItself(current[k]); }
    assert forall k :: k in payload ==> k in merged && merged[k] == payload[k];
    forall k | k in payload && k in current ensures Same(current[k], payload[k]) <==> Same(payload[k], current[k]) {
      SameSymmetric(current[k], payload[k]);
    }
  }

  lemma ShownIsTheWrite(current: Record, payload: Record)
    ensures SameRecord(current + AllShown(current, payload), current + payload)
    ensures current + AllShown(current, payload) == current + payload <==> !Retypes(current, payload)
  {
    var a, b := current + AllShown(current, payload), current + payload;
    forall k | k in b ensures k in a && Same(a[k], b[k]) { SameAsItself(b[k]); }
    assert forall k :: k in payload && k in current ==> a[k] == Shown(current, k, payload[k]) && b[k] == payload[k];
  }

  /** The diff a reviewer approves is the write: carrying out its lines on the record
      gives a record equal, as Python compares, to what the ERP will hold, and the same
      one to the last type unless a field is retyped, which the diff does not show; it is
      empty exactly when the write leaves a record equal to the one there. */
  lemma DiffMeansTheWrite(before: Option<Record>, payload: Record)
    ensures var carriedOut := ApplyLines(Current(before), Diff(before, payload));
            && SameRecord(carriedOut, Upserted(before, payload))
            && (carriedOut == Upserted(before, payload) <==> !Retypes(Current(before), payload))
    ensures Diff(before, payload) == [] <==> SameRecord(Upserted(before, payload), Current(before))
  {
    var keys := SortedKeys(payload.Keys);
    var current := Current(before);
    ApplyDiffLines(current, payload, keys);
    NoLinesIff(current, payload, keys);
    RestrictToAll(AllShown(current, payload), keys);
    ShownIsTheWrite(current, payload);
    MergeChangesNothingIff(current, payload);
  }

  /** True stored, 1 approved: the preview says that nothing changes, but the record does. */
  lemma RetypeIsNotShown()
    ensures var before, payload: Record := map["active" := Bool(true)], map["active" := Int(1)];
            Diff(Some(before), payload) == [] && Upserted(Some(before), payload) != before
  {
    var before, payload: Record := map["active" := Bool(true)], map["active" := Int(1)];
    assert Upserted(Some(before), payload)["active"] == Int(1) && before["active"] == Bool(true);
    assert SameRecord(Upserted(Some(before), payload), before);
    DiffMeansTheWrite(Some(before), payload);
  }

  /** Every `-` line shows the value the record holds now, of a field the payload
      changes; a field merely absent from the payload is never shown as removed. */
  lemma {:induction false} MinusLinesAreTrue(current: Record, payload: Record, keys: seq<string>, i: nat)
    requires forall k :: k in keys ==> k in payload
    requires i < |DiffLines(current, payload, keys)|
    ensures var line := DiffLines(current, payload, keys)[i];
            && line.key in keys
            && (line.Minus? ==> line.key in current && current[line.key] == line.value && !Same(line.value, payload[line.key]))
            && (line.Plus? ==> payload[line.key] == line.value)
  {
    var n := |keys| - 1;
    var init := DiffLines(current, payload, keys[..n]);
    if i < |init| {
      MinusLinesAreTrue(current, payload, keys[..n], i);
    } else {
      assert DiffLines(current, payload, keys)[i] == LinesFor(current, keys[n], payload[keys[n]])[i - |init|];
    }
  }

  // --- The ERP ----------------------------------------------------------------

  /** One ERP call may fail before committing, commit and lose the answer, or
      commit and answer; the caller only sees whether it was answered. */
  datatype Answer = Refused | CommittedLost | CommittedAnswered

  type Store = map<Address, Record>

  function Lookup(store: Store, a: Address): Option<Record> {
    if a in store then Some(store[a]) else None
  }

  function Commit(store: Store, op: WriteOperation, answer: Answer): Store {
    if answer.Refused? then store
    else store[op.AddressOf() := Upserted(Lookup(store, op.AddressOf()), op.payload)]
  }

  class Erp {
    var store: Store
    var calls: seq<(WriteOperation, Answer)>

    constructor ()
      ensures store == map[] && calls == []
    {
      store, calls := map[], [];
    }

    method Apply(op: WriteOperation, answer: Answer) returns (confirmed: bool)
      modifies this
      ensures store == Commit(old(store), op, answer)
      ensures calls == old(calls) + [(op, answer)]
      ensures confirmed == answer.CommittedAnswered?
    {
      if !answer.Refused? {
        store := store[op.AddressOf() := Upserted(Lookup(store, op.AddressOf()), op.payload)];
      }
      calls := calls + [(op, answer)];
      confirmed := answer.CommittedAnswered?;
    }
  }

  // --- The coordinator ----------------------------------------------------------

  datatype Stage = SRequested | SApproved | SRejected | SCompleted

  /** The new operation and the event to publish for it. The published payload is
      built from the operation, who acted and why; timestamps are not modelled. */
  datatype WriteStep = WriteStep(op: WriteOperation, stage: Stage, actor: string, reason: string)

  datatype Proposal = Proposal(
    tenantId: string,
    erpPlatform: string,
    operation: string,
    targetModule: string,
    payload: Record,
    requestedBy: string,
    diffPreview: Option<string>,
    reverses: Option<string>,
    targetExternalId: Option<string>)

  /** The dry-run reader: none configured, failing, or reading the ERP. */
  datatype Reader = NoReader | ReaderFails | ReaderReads

  function Draft(req: Proposal, id: string): WriteOperation {
    WriteOperation(id, req.tenantId, req.erpPlatform, req.operation, req.targetModule, req.payload,
                   req.requestedBy, Asserted(""), Requested, req.reverses, req.targetExternalId)
  }

  function Request(req: Proposal, id: string, reader: Reader, store: Store): Result<WriteStep, Error> {
    var op := Draft(req, id);
    match reader
    case ReaderFails => Err(ErpWriteError)
    case ReaderReads =>
      var before := Lookup(store, op.AddressOf());
      Ok(WriteStep(op.(diffPreview := Derived(before.Some?, Diff(before, op.payload))), SRequested, req.requestedBy, ""))
    case NoReader =>
      var preview := if req.diffPreview.Some? then Asserted(req.diffPreview.value) else Unavailable;
      Ok(WriteStep(op.(diffPreview := preview), SRequested, req.requestedBy, ""))
  }

  lemma RequestShape(req: Proposal, id: string, reader: Reader, store: Store)
    ensures var r := Request(req, id, reader, store);
            && (r.Err? <==> reader == ReaderFails)
            && (r.Ok? ==> r.value.stage == SRequested && r.value.op == Draft(req, id).(diffPreview := r.value.op.diffPreview))
  {
  }

  function ReversalOf(original: WriteOperation, operation: string, payload: Record,
                      requestedBy: string, diffPreview: Option<string>): Proposal {
    Proposal(original.tenantId, original.erpPlatform, operation, original.targetModule, payload,
             requestedBy, diffPreview, Some(original.writeId), None)
  }

  function Approve(op: WriteOperation, reviewer: string): Result<WriteStep, Error> {
    match op.TransitionTo(Approved)
    case Err(e) => Err(e)
    case Ok(o) => Ok(WriteStep(o, SApproved, reviewer, ""))
  }

  function Reject(op: WriteOperation, reviewer: string, reason: string): Result<WriteStep, Error> {
    match op.TransitionTo(Rejected)
    case Err(e) => Err(e)
    case Ok(o) => Ok(WriteStep(o, SRejected, reviewer, reason))
  }

  function CompletedStep(op: WriteOperation): WriteStep {
    WriteStep(op.(state := Completed), SCompleted, "", "")
  }

  lemma RequestReads(req: Proposal, id: string, store: Store)
    ensures var op := Request(req, id, ReaderReads, store).value.op;
            var before := Lookup(store, Draft(req, id).AddressOf());
            && op.diffPreview == Derived(before.Some?, Diff(before, req.payload))
            && op.AddressOf() == Draft(req, id).AddressOf() && op.payload == req.payload
  {
  }

  /** What a reviewer approves under a working reader is what the ERP will hold, whatever
      else is written between the preview and the commit, if the record itself is not. */
  lemma ReviewedDiffIsTheCommit(req: Proposal, id: string, atPreview: Store, atCommit: Store, answer: Answer)
    requires !answer.Refused?
    requires Lookup(atCommit, Draft(req, id).AddressOf()) == Lookup(atPreview, Draft(req, id).AddressOf())
    ensures var op := Request(req, id, ReaderReads, atPreview).value.op;
            && op.diffPreview.Derived?
            && SameRecord(ApplyLines(Current(Lookup(atPreview, op.AddressOf())), op.diffPreview.lines),
                          Commit(atCommit, op, answer)[op.AddressOf()])
  {
    RequestReads(req, id, atPreview);
    DiffMeansTheWrite(Lookup(atPreview, Draft(req, id).AddressOf()), req.payload);
  }

  method Execute(erp: Erp, op: WriteOperation, answer: Answer) returns (r: Result<WriteStep, Error>)
    modifies erp
    ensures op.state != Approved ==>
              r == Err(InvalidTransition) && erp.calls == old(erp.calls) && erp.store == old(erp.store)
    ensures op.state == Approved ==>
              && erp.calls == old(erp.calls) + [(op, answer)]
              && erp.store == Commit(old(erp.store), op, answer)
              && r == if answer.CommittedAnswered? then Ok(CompletedStep(op)) else Err(ErpWriteError)
  {
    if op.state != Approved {
      return Err(InvalidTransition);
    }
    var confirmed := erp.Apply(op, answer);
    if !confirmed {
      return Err(ErpWriteError);
    }
    return Ok(CompletedStep(op));
  }

  // --- Batches ------------------------------------------------------------------

  datatype BatchExecution = BatchExecution(
    steps: seq<WriteStep>,
    failed: Option<WriteOperation>,
    notAttempted: seq<WriteOperation>)
  {
    predicate Halted() { failed.Some? }
    predicate Partial() { Halted() && steps != [] }

    /** The writes the ERP was called for. */
    function Tried(): nat { |steps| + if failed.Some? then 1 else 0 }
  }

  function CommitAll(store: Store, calls: seq<(WriteOperation, Answer)>): Store {
    if calls == [] then store
    else var n := |calls| - 1; Commit(CommitAll(store, calls[..n]), calls[n].0, calls[n].1)
  }

  /** The report accounts for every write of the batch, in order. */
  ghost predicate Accounts(b: BatchExecution, ops: seq<WriteOperation>, answers: seq<Answer>)
    requires |answers| == |ops|
  {
    && b.Tried() + |b.notAttempted| == |ops|
    && (forall i :: 0 <= i < |b.steps| ==> answers[i].CommittedAnswered? && b.steps[i] == CompletedStep(ops[i]))
    && (b.failed.Some? ==> b.failed.value == ops[|b.steps|] && !answers[|b.steps|].CommittedAnswered?)
    && b.notAttempted == ops[b.Tried()..]
    && (b.failed.None? ==> b.notAttempted == [])
  }

  function Calls(ops: seq<WriteOperation>, answers: seq<Answer>, n: nat): seq<(WriteOperation, Answer)>
    requires n <= |ops| == |answers|
  {
    seq(n, i requires 0 <= i < n => (ops[i], answers[i]))
  }

  lemma OneMoreCall(store: Store, ops: seq<WriteOperation>, answers: seq<Answer>, i: nat)
    requires i < |ops| == |answers|
    ensures Calls(ops, answers, i + 1) == Calls(ops, answers, i) + [(ops[i], answers[i])]
    ensures CommitAll(store, Calls(ops, answers, i + 1))
            == Commit(CommitAll(store, Calls(ops, answers, i)), ops[i], answers[i])
  {
    assert Calls(ops, answers, i + 1)[..i] == Calls(ops, answers, i);
  }

  /** The guard over the whole batch, before any ERP call. */
  method AllApproved(ops: seq<WriteOperation>) returns (yes: bool)
    ensures yes <==> forall op :: op in ops ==> op.state == Approved
  {
    for i := 0 to |ops|
      invariant forall j :: 0 <= j < i ==> ops[j].state == Approved
    {
      if ops[i].state != Approved {
        assert ops[i] in ops;
        return false;
      }
    }
    return true;
  }

  /** The first i writes of the batch have committed and been answered. */
  ghost predicate Done(completed: seq<WriteStep>, ops: seq<WriteOperation>, answers: seq<Answer>, i: nat)
    requires i <= |ops| == |answers|
  {
    && |completed| == i
    && forall j :: 0 <= j < i ==> answers[j].CommittedAnswered? && completed[j] == CompletedStep(ops[j])
  }

  lemma HaltAccounts(completed: seq<WriteStep>, ops: seq<WriteOperation>, answers: seq<Answer>, i: nat)
    requires i < |ops| == |answers| && Done(completed, ops, answers, i) && !answers[i].CommittedAnswered?
    ensures Accounts(BatchExecution(completed, Some(ops[i]), ops[i + 1..]), ops, answers)
  {
  }

  lemma EndAccounts(completed: seq<WriteStep>, ops: seq<WriteOperation>, answers: seq<Answer>)
    requires |ops| == |answers| && Done(completed, ops, answers, |ops|)
    ensures Accounts(BatchExecution(completed, None, []), ops, answers)
  {
  }

  method ExecuteBatch(erp: Erp, ops: seq<WriteOperation>, answers: seq<Answer>)
    returns (r: Result<BatchExecution, Error>)
    requires |answers| == |ops|
    modifies erp
    ensures (exists op :: op in ops && op.state != Approved) ==>
              r == Err(InvalidTransition) && erp.calls == old(erp.calls) && erp.store == old(erp.store)
    ensures (forall op :: op in ops ==> op.state == Approved) ==>
              && r.Ok? && Accounts(r.value, ops, answers)
              && erp.calls == old(erp.calls) + Calls(ops, answers, r.value.Tried())
              && erp.store == CommitAll(old(erp.store), Calls(ops, answers, r.value.Tried()))
  {
    var approved := AllApproved(ops);
    if !approved {
      return Err(InvalidTransition);
    }
    ghost var store0 := erp.store;
    var completed: seq<WriteStep> := [];
    for i := 0 to |ops|
      invariant Done(completed, ops, answers, i)
      invariant erp.calls == old(erp.calls) + Calls(ops, answers, i)
      invariant erp.store == CommitAll(old(erp.store), Calls(ops, answers, i))
    {
      assert ops[i] in ops;
      var step := Execute(erp, ops[i], answers[i]);
      OneMoreCall(store0, ops, answers, i);
      if step.Err? {
        HaltAccounts(completed, ops, answers, i);
        return Ok(BatchExecution(completed, Some(ops[i]), ops[i + 1..]));
      }
      completed := completed + [step.value];
    }
    EndAccounts(completed, ops, answers);
    return Ok(BatchExecution(completed, None, []));
  }

  /** The three parts of a report concatenate to the batch, and the report is
      determined by the answers: no write is lost, repeated or reordered. */
  lemma BatchAccounting(b: BatchExecution, c: BatchExecution, ops: seq<WriteOperation>, answers: seq<Answer>)
    requires |answers| == |ops| && (forall op :: op in ops ==> op.state == Approved)
    requires Accounts(b, ops, answers)
    ensures (seq(|b.steps|, i requires 0 <= i < |b.steps| => b.steps[i].op.(state := Approved)))
              + (if b.failed.Some? then [b.failed.value] else []) + b.notAttempted == ops
    ensures b.Partial() <==> b.Halted() && |answers| > 0 && answers[0].CommittedAnswered?
    ensures b.Halted() <==> exists i :: 0 <= i < |answers| && !answers[i].CommittedAnswered?
    ensures Accounts(c, ops, answers) ==> b == c
  {
    var committed := seq(|b.steps|, i requires 0 <= i < |b.steps| => b.steps[i].op.(state := Approved));
    assert forall i :: 0 <= i < |b.steps| ==> ops[i] in ops && committed[i] == ops[i];
    assert committed == ops[..|b.steps|];
    if Accounts(c, ops, answers) {
      assert |b.steps| == |c.steps|;
      assert b.steps == c.steps;
    }
  }
}
