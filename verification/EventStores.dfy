/**
 The audit stores (shared/events.py): the sequential in-memory store, and the Postgres
 store as interleaved transactions of many writers around one advisory lock.
 */
module EventStores {
  import opened Prelude
  import opened Audit

  /** Parsing a UUID: None for text that is not one, else its canonical text. */
  type UuidParser = string -> Option<string>

  ghost predicate Canonicalises(uuid: UuidParser) {
    && uuid("") == None
    && forall s :: uuid(s).Some? ==> uuid(uuid(s).value) == uuid(s)
  }

  predicate IsCanonical(uuid: UuidParser, id: string) { uuid(id) == Some(id) }

  function AsUuid(uuid: UuidParser, v: Option<string>): Option<string> {
    if v.None? || v.value == "" then None else uuid(v.value)
  }

  /** The envelope the chain covers: the correlation id as the UUID column keeps it,
      and the id as the event carries it. */
  function ChainEnvelope(uuid: UuidParser, event: Envelope): Envelope {
    event.(correlationId := AsUuid(uuid, event.correlationId))
  }

  /** The hashed envelope is the event, but for its correlation id: in canonical form if it is a
      UUID, else null, as the column keeps it. */
  lemma EnvelopeNormalises(uuid: UuidParser, event: Envelope)
    requires Canonicalises(uuid)
    ensures var e := ChainEnvelope(uuid, event);
            && e == event.(correlationId := e.correlationId)
            && (event.correlationId == None ==> e.correlationId == None)
            && (event.correlationId != None ==> e.correlationId == uuid(event.correlationId.value))
  {
  }

  // --- The in-memory store --------------------------------------------------------

  function IdsOf(events: seq<Envelope>): set<string> {
    set e | e in events :: e.id
  }

  /** The log kept by the sequential store: events with their chain hashes. */
  predicate HasId(log: Log, id: string) {
    exists i :: 0 <= i < |log| && log[i].0.id == id
  }

  function Recorded(n: Notary, uuid: UuidParser, log: Log, event: Envelope): Log {
    if HasId(log, event.id) then log
    else log + [(event, ChainHash(n, PrevHash(log, |log|), ChainEnvelope(uuid, event)))]
  }

  function RecordedAll(n: Notary, uuid: UuidParser, events: seq<Envelope>): Log {
    if events == [] then []
    else Recorded(n, uuid, RecordedAll(n, uuid, events[..|events| - 1]), events[|events| - 1])
  }

  function Zip(events: seq<Envelope>, hashes: seq<Hash>): Log
    requires |events| == |hashes|
  {
    seq(|events|, i requires 0 <= i < |events| => (events[i], hashes[i]))
  }

  lemma ZipHasId(events: seq<Envelope>, hashes: seq<Hash>, id: string)
    requires |events| == |hashes|
    ensures id in IdsOf(events) <==> HasId(Zip(events, hashes), id)
  {
    if e :| e in events && e.id == id {
      var i :| 0 <= i < |events| && events[i] == e;
      assert Zip(events, hashes)[i].0.id == id;
    }
    if i :| 0 <= i < |events| && Zip(events, hashes)[i].0.id == id { assert events[i] in events; }
  }

  lemma ZipAppend(events: seq<Envelope>, hashes: seq<Hash>, e: Envelope, h: Hash)
    requires |events| == |hashes|
    ensures Zip(events + [e], hashes + [h]) == Zip(events, hashes) + [(e, h)]
    ensures IdsOf(events + [e]) == IdsOf(events) + {e.id}
    ensures PrevHash(Zip(events, hashes), |events|) == if hashes != [] then hashes[|hashes| - 1] else GENESIS
  {
    forall id ensures id in IdsOf(events + [e]) <==> id in IdsOf(events) + {e.id} {
      assert forall x :: x in events + [e] <==> x in events || x == e;
    }
  }

  class InMemoryEventStore {
    var events: seq<Envelope>
    var chainHashes: seq<Hash>
    var eventIds: set<string>

    constructor ()
      ensures Valid() && Rows() == []
    {
      events, chainHashes, eventIds := [], [], {};
    }

    predicate Valid()
      reads this
    {
      |events| == |chainHashes| && eventIds == IdsOf(events)
    }

    function Rows(): Log
      requires Valid()
      reads this
    {
      Zip(events, chainHashes)
    }

    method RecordEvent(n: Notary, uuid: UuidParser, event: Envelope)
      requires Valid()
      modifies this
      ensures Valid() && Rows() == Recorded(n, uuid, old(Rows()), event)
    {
      ZipHasId(events, chainHashes, event.id);
      if event.id in eventIds {
        return;
      }
      eventIds := eventIds + {event.id};
      var prev := if chainHashes != [] then chainHashes[|chainHashes| - 1] else GENESIS;
      var hash := ChainHash(n, prev, ChainEnvelope(uuid, event));
      ZipAppend(events, chainHashes, event, hash);
      chainHashes := chainHashes + [hash];
      events := events + [event];
    }
  }

  /** The rows of a log as the verifier reads them: the hashed envelope with its hash. */
  function Hashed(uuid: UuidParser, log: Log): Log {
    seq(|log|, i requires 0 <= i < |log| => (ChainEnvelope(uuid, log[i].0), log[i].1))
  }

  ghost predicate DistinctIds(log: Log) {
    forall i, j :: 0 <= i < j < |log| ==> log[i].0.id != log[j].0.id
  }

  lemma RecordedIsClean(n: Notary, uuid: UuidParser, log: Log, event: Envelope)
    requires Clean(n, Hashed(uuid, log)) && DistinctIds(log)
    ensures Clean(n, Hashed(uuid, Recorded(n, uuid, log, event))) && DistinctIds(Recorded(n, uuid, log, event))
  {
    if !HasId(log, event.id) {
      var added := (event, ChainHash(n, PrevHash(log, |log|), ChainEnvelope(uuid, event)));
      forall i | 0 <= i < |log + [added]| ensures Intact(n, Hashed(uuid, log + [added]), i) {
        HashedPrev(uuid, log + [added], i);
        if i < |log| {
          HashedPrev(uuid, log, i);
          assert Intact(n, Hashed(uuid, log), i);
        }
      }
    }
  }

  lemma HashedPrev(uuid: UuidParser, log: Log, i: nat)
    requires i <= |log|
    ensures PrevHash(Hashed(uuid, log), i) == PrevHash(log, i)
  {
  }

  /** The sequential store always holds a clean chain with distinct ids. */
  lemma {:induction false} MemoryIsClean(n: Notary, uuid: UuidParser, events: seq<Envelope>)
    ensures Clean(n, Hashed(uuid, RecordedAll(n, uuid, events))) && DistinctIds(RecordedAll(n, uuid, events))
  {
    if events != [] {
      var last := |events| - 1;
      MemoryIsClean(n, uuid, events[..last]);
      RecordedIsClean(n, uuid, RecordedAll(n, uuid, events[..last]), events[last]);
    }
  }

  lemma RecordedHasId(n: Notary, uuid: UuidParser, log: Log, event: Envelope, id: string)
    ensures HasId(Recorded(n, uuid, log, event), id) <==> HasId(log, id) || id == event.id
  {
    var after := Recorded(n, uuid, log, event);
    if i :| 0 <= i < |log| && log[i].0.id == id { assert after[i] == log[i]; }
    if !HasId(log, event.id) { assert after[|log|].0.id == event.id; }
  }

  /** It holds each id recorded, and no other. */
  lemma {:induction false} MemoryHasId(n: Notary, uuid: UuidParser, events: seq<Envelope>, id: string)
    ensures HasId(RecordedAll(n, uuid, events), id) <==> exists e :: e in events && e.id == id
  {
    if events != [] {
      var last := |events| - 1;
      MemoryHasId(n, uuid, events[..last], id);
      RecordedHasId(n, uuid, RecordedAll(n, uuid, events[..last]), events[last], id);
      assert events == events[..last] + [events[last]];
    }
  }

  // --- The Postgres store -----------------------------------------------------------

  datatype Row = Row(
    seqNo: nat,
    id: string,
    subject: string,
    schemaVersion: int,
    source: string,
    correlationId: Option<string>,
    tenantId: Option<string>,
    payload: Record,
    chainHash: Hash)

  /** One writer's transaction in `record_event`, statement by statement. */
  datatype Txn =
    | Idle
    | Locked(event: Envelope)
    | TipRead(event: Envelope, prev: Hash)
    | Inserted(event: Envelope, row: Option<Row>)

  type Writer = nat

  /** `rows` are the committed rows in commit order. `kept` and `committed` record the
      events behind them and every event whose transaction committed. */
  datatype Db = Db(
    rows: seq<Row>,
    nextSeq: nat,
    lock: Option<Writer>,
    txns: map<Writer, Txn>,
    kept: seq<Envelope>,
    committed: seq<Envelope>)

  const EMPTY_DB: Db := Db([], 0, None, map[], [], [])

  function TxnOf(d: Db, w: Writer): Txn { if w in d.txns then d.txns[w] else Idle }

  datatype Action =
    | TakeLock(w: Writer, event: Envelope)
    | ReadTip(w: Writer)
    | Insert(w: Writer)
    | Commit(w: Writer)
    | Rollback(w: Writer)

  predicate IsGreatest(rows: seq<Row>, r: Row) {
    r in rows && forall i :: 0 <= i < |rows| ==> rows[i].seqNo <= r.seqNo
  }

  /** `ORDER BY seq DESC LIMIT 1` over the committed rows. */
  function Greatest(rows: seq<Row>): (r: Row)
    requires rows != []
    ensures IsGreatest(rows, r)
  {
    var last := |rows| - 1;
    if last == 0 then rows[0]
    else
      var g := Greatest(rows[..last]);
      if g.seqNo < rows[last].seqNo then rows[last] else g
  }

  function TipHash(rows: seq<Row>): Hash {
    if rows == [] then GENESIS else Greatest(rows).chainHash
  }

  predicate TableHasId(rows: seq<Row>, id: string) {
    exists i :: 0 <= i < |rows| && rows[i].id == id
  }

  function MakeRow(n: Notary, uuid: UuidParser, seqNo: nat, prev: Hash, event: Envelope): Row
    requires uuid(event.id).Some?
  {
    Row(seqNo, uuid(event.id).value, event.subject, event.schemaVersion, event.source,
        AsUuid(uuid, event.correlationId), event.tenantId, event.payload,
        ChainHash(n, prev, ChainEnvelope(uuid, event)))
  }

  /** What a step needs: the lock is held by one writer at a time, statements run in
      order, and an id that is no UUID cannot be inserted, only rolled back. */
  predicate Enabled(uuid: UuidParser, d: Db, a: Action) {
    match a
    case TakeLock(w, _) => d.lock.None? && TxnOf(d, w).Idle?
    case ReadTip(w) => TxnOf(d, w).Locked?
    case Insert(w) => TxnOf(d, w).TipRead? && uuid(TxnOf(d, w).event.id).Some?
    case Commit(w) => TxnOf(d, w).Inserted?
    case Rollback(w) => !TxnOf(d, w).Idle?
  }

  function Act(n: Notary, uuid: UuidParser, d: Db, a: Action): Db
    requires Enabled(uuid, d, a)
  {
    match a
    case TakeLock(w, event) => d.(lock := Some(w), txns := d.txns[w := Locked(event)])
    case ReadTip(w) => d.(txns := d.txns[w := TipRead(TxnOf(d, w).event, TipHash(d.rows))])
    case Insert(w) =>
      var t := TxnOf(d, w);
      var row := MakeRow(n, uuid, d.nextSeq, t.prev, t.event);
      d.(nextSeq := d.nextSeq + 1,
         txns := d.txns[w := Inserted(t.event, if TableHasId(d.rows, row.id) then None else Some(row))])
    case Commit(w) =>
      var t := TxnOf(d, w);
      var done := d.(lock := None, txns := d.txns[w := Idle], committed := d.committed + [t.event]);
      if t.row.Some? then done.(rows := d.rows + [t.row.value], kept := d.kept + [t.event]) else done
    case Rollback(w) => d.(lock := None, txns := d.txns[w := Idle])
  }

  /** d is reachable from the empty table by some interleaving of writers' steps. */
  ghost predicate Reaches(n: Notary, uuid: UuidParser, actions: seq<Action>, d: Db)
    decreases |actions|
  {
    if actions == [] then d == EMPTY_DB
    else
      var last := |actions| - 1;
      exists before :: Reaches(n, uuid, actions[..last], before)
                       && Enabled(uuid, before, actions[last]) && d == Act(n, uuid, before, actions[last])
  }

  lemma ReachesStep(n: Notary, uuid: UuidParser, actions: seq<Action>, d: Db, a: Action)
    requires Reaches(n, uuid, actions, d) && Enabled(uuid, d, a)
    ensures Reaches(n, uuid, actions + [a], Act(n, uuid, d, a))
  {
    assert (actions + [a])[..|actions|] == actions;
  }

  function PrevRowHash(rows: seq<Row>, i: nat): Hash
    requires i <= |rows|
  {
    if i == 0 then GENESIS else rows[i - 1].chainHash
  }

  predicate Ascending(rows: seq<Row>) {
    forall i, j :: 0 <= i < j < |rows| ==> rows[i].seqNo < rows[j].seqNo
  }

  predicate Distinct(rows: seq<Row>) {
    forall i, j :: 0 <= i < j < |rows| ==> rows[i].id != rows[j].id
  }

  /** Row i was made from its event on top of the row before it. */
  predicate RowMade(n: Notary, uuid: UuidParser, rows: seq<Row>, kept: seq<Envelope>, i: nat)
    requires i < |rows| == |kept|
  {
    uuid(kept[i].id).Some? && rows[i] == MakeRow(n, uuid, rows[i].seqNo, PrevRowHash(rows, i), kept[i])
  }

  ghost predicate RowsLinked(n: Notary, uuid: UuidParser, d: Db) {
    && |d.kept| == |d.rows|
    && (forall i :: 0 <= i < |d.rows| ==> RowMade(n, uuid, d.rows, d.kept, i))
    && Ascending(d.rows) && Distinct(d.rows)
    && Below(d.rows, d.nextSeq)
  }

  /** The rows' sequence numbers are below m (looking at the last suffices, ascending). */
  predicate Below(rows: seq<Row>, m: nat) {
    rows != [] ==> rows[|rows| - 1].seqNo < m
  }

  /** A row ready to be committed extends the tip. */
  predicate RowReady(n: Notary, uuid: UuidParser, d: Db, event: Envelope, r: Row)
    requires uuid(event.id).Some?
  {
    && r == MakeRow(n, uuid, r.seqNo, PrevRowHash(d.rows, |d.rows|), event)
    && Below(d.rows, r.seqNo) && r.seqNo < d.nextSeq
    && !TableHasId(d.rows, r.id)
  }

  /** A transaction past the lock belongs to the lock's holder and is about to extend the tip. */
  predicate TxnInStep(n: Notary, uuid: UuidParser, d: Db, w: Writer) {
    match TxnOf(d, w)
    case Idle => true
    case Locked(_) => d.lock == Some(w)
    case TipRead(_, prev) => d.lock == Some(w) && prev == PrevRowHash(d.rows, |d.rows|)
    case Inserted(event, row) =>
      && d.lock == Some(w) && uuid(event.id).Some?
      && (if row.None? then TableHasId(d.rows, uuid(event.id).value) else RowReady(n, uuid, d, event, row.value))
  }

  ghost predicate DbSound(n: Notary, uuid: UuidParser, d: Db) {
    RowsLinked(n, uuid, d) && forall w :: TxnInStep(n, uuid, d, w)
  }

  lemma {:induction false} TipIsLast(rows: seq<Row>)
    requires Ascending(rows)
    ensures TipHash(rows) == PrevRowHash(rows, |rows|)
  {
    if |rows| > 1 {
      var g := Greatest(rows[..|rows| - 1]);
      var i :| 0 <= i < |rows| - 1 && rows[i] == g;
    }
  }

  lemma RowAppended(n: Notary, uuid: UuidParser, d: Db, event: Envelope, r: Row)
    requires RowsLinked(n, uuid, d) && uuid(event.id).Some? && RowReady(n, uuid, d, event, r)
    ensures var rows, kept := d.rows + [r], d.kept + [event];
            && |kept| == |rows| && (forall i :: 0 <= i < |rows| ==> RowMade(n, uuid, rows, kept, i))
            && Ascending(rows) && Distinct(rows) && Below(rows, d.nextSeq)
  {
    var rows, kept := d.rows + [r], d.kept + [event];
    forall i | 0 <= i < |rows| ensures RowMade(n, uuid, rows, kept, i) {
      assert PrevRowHash(rows, i) == PrevRowHash(d.rows, i);
      if i < |d.rows| { assert RowMade(n, uuid, d.rows, d.kept, i); }
    }
  }

  /** Only the writer that acts changes its transaction; the others hold no lock. */
  lemma OthersInStep(n: Notary, uuid: UuidParser, d: Db, e: Db, w: Writer)
    requires DbSound(n, uuid, d) && !TxnOf(d, w).Idle?
    requires forall v :: v != w ==> TxnOf(e, v) == TxnOf(d, v)
    requires TxnInStep(n, uuid, e, w)
    ensures forall v :: TxnInStep(n, uuid, e, v)
  {
    assert TxnInStep(n, uuid, d, w);
    forall v ensures TxnInStep(n, uuid, e, v) {
      assert TxnInStep(n, uuid, d, v);
    }
  }

  lemma InsertSound(n: Notary, uuid: UuidParser, d: Db, w: Writer)
    requires DbSound(n, uuid, d) && Enabled(uuid, d, Insert(w))
    ensures DbSound(n, uuid, Act(n, uuid, d, Insert(w)))
  {
    assert TxnInStep(n, uuid, d, w);
    OthersInStep(n, uuid, d, Act(n, uuid, d, Insert(w)), w);
  }

  lemma CommitSound(n: Notary, uuid: UuidParser, d: Db, w: Writer)
    requires DbSound(n, uuid, d) && Enabled(uuid, d, Commit(w))
    ensures DbSound(n, uuid, Act(n, uuid, d, Commit(w)))
  {
    assert TxnInStep(n, uuid, d, w);
    var t := TxnOf(d, w);
    if t.row.Some? { RowAppended(n, uuid, d, t.event, t.row.value); }
    OthersInStep(n, uuid, d, Act(n, uuid, d, Commit(w)), w);
  }

  lemma ReadTipSound(n: Notary, uuid: UuidParser, d: Db, w: Writer)
    requires DbSound(n, uuid, d) && Enabled(uuid, d, ReadTip(w))
    ensures DbSound(n, uuid, Act(n, uuid, d, ReadTip(w)))
  {
    assert TxnInStep(n, uuid, d, w);
    TipIsLast(d.rows);
    OthersInStep(n, uuid, d, Act(n, uuid, d, ReadTip(w)), w);
  }

  lemma TakeLockSound(n: Notary, uuid: UuidParser, d: Db, w: Writer, event: Envelope)
    requires DbSound(n, uuid, d) && Enabled(uuid, d, TakeLock(w, event))
    ensures DbSound(n, uuid, Act(n, uuid, d, TakeLock(w, event)))
  {
    var e := Act(n, uuid, d, TakeLock(w, event));
    forall v ensures TxnInStep(n, uuid, e, v) {
      assert TxnInStep(n, uuid, d, v);
    }
  }

  lemma ActSound(n: Notary, uuid: UuidParser, d: Db, a: Action)
    requires DbSound(n, uuid, d) && Enabled(uuid, d, a)
    ensures DbSound(n, uuid, Act(n, uuid, d, a))
  {
    match a
    case TakeLock(w, event) => TakeLockSound(n, uuid, d, w, event);
    case ReadTip(w) => ReadTipSound(n, uuid, d, w);
    case Insert(w) => InsertSound(n, uuid, d, w);
    case Commit(w) => CommitSound(n, uuid, d, w);
    case Rollback(w) => OthersInStep(n, uuid, d, Act(n, uuid, d, a), w);
  }

  lemma {:induction false} ReachableDbSound(n: Notary, uuid: UuidParser, actions: seq<Action>, d: Db)
    requires Reaches(n, uuid, actions, d)
    ensures DbSound(n, uuid, d)
    decreases |actions|
  {
    if actions != [] {
      var last := |actions| - 1;
      var before :| Reaches(n, uuid, actions[..last], before)
                    && Enabled(uuid, before, actions[last]) && d == Act(n, uuid, before, actions[last]);
      ReachableDbSound(n, uuid, actions[..last], before);
      ActSound(n, uuid, before, actions[last]);
    }
  }

  /** The rows as the chain was computed over them. */
  function HashedRows(uuid: UuidParser, d: Db): Log
    requires |d.kept| == |d.rows|
  {
    seq(|d.rows|, i requires 0 <= i < |d.rows| => (ChainEnvelope(uuid, d.kept[i]), d.rows[i].chainHash))
  }

  lemma RowIsIntact(n: Notary, uuid: UuidParser, d: Db, i: nat)
    requires |d.kept| == |d.rows| && i < |d.rows| && RowMade(n, uuid, d.rows, d.kept, i)
    ensures Intact(n, HashedRows(uuid, d), i)
  {
    assert PrevHash(HashedRows(uuid, d), i) == PrevRowHash(d.rows, i);
  }

  lemma LinkedIsClean(n: Notary, uuid: UuidParser, d: Db)
    requires RowsLinked(n, uuid, d)
    ensures Problems(n, HashedRows(uuid, d)) == []
  {
    var log := HashedRows(uuid, d);
    forall i | 0 <= i < |log| ensures Intact(n, log, i) { RowIsIntact(n, uuid, d, i); }
    CleanIffNoProblems(n, log);
  }

  /** Under any interleaving, crash or rollback, the committed rows in sequence order are
      one unforked chain from genesis with distinct ids. */
  lemma ChainNeverForks(n: Notary, uuid: UuidParser, actions: seq<Action>, d: Db)
    requires Reaches(n, uuid, actions, d)
    ensures |d.kept| == |d.rows| && Problems(n, HashedRows(uuid, d)) == []
    ensures Ascending(d.rows) && Distinct(d.rows)
  {
    ReachableDbSound(n, uuid, actions, d);
    LinkedIsClean(n, uuid, d);
  }

  /** Each row holds its event, column by column, the ids in canonical form. */
  lemma RowsHoldTheEvents(n: Notary, uuid: UuidParser, actions: seq<Action>, d: Db, i: nat)
    requires Canonicalises(uuid) && Reaches(n, uuid, actions, d) && i < |d.rows|
    ensures |d.kept| == |d.rows|
    ensures var row, event := d.rows[i], d.kept[i];
            && uuid(event.id) == Some(row.id)
            && row.correlationId == (if event.correlationId == None then None else uuid(event.correlationId.value))
            && (row.subject, row.schemaVersion, row.source, row.tenantId, row.payload)
                 == (event.subject, event.schemaVersion, event.source, event.tenantId, event.payload)
  {
    ReachableDbSound(n, uuid, actions, d);
    assert RowMade(n, uuid, d.rows, d.kept, i);
    EnvelopeNormalises(uuid, d.kept[i]);
  }

  // --- Refinement ---------------------------------------------------------------------

  /** The committed table is the in-memory log. */
  ghost predicate SameLog(d: Db, log: Log) {
    && |log| == |d.rows| == |d.kept|
    && forall i :: 0 <= i < |log| ==> log[i] == (d.kept[i], d.rows[i].chainHash) && d.rows[i].id == d.kept[i].id
  }

  predicate AllCanonical(uuid: UuidParser, events: seq<Envelope>) {
    forall i :: 0 <= i < |events| ==> IsCanonical(uuid, events[i].id)
  }

  lemma CommitRefines(n: Notary, uuid: UuidParser, d: Db, w: Writer, log: Log)
    requires DbSound(n, uuid, d) && Enabled(uuid, d, Commit(w)) && SameLog(d, log)
    requires IsCanonical(uuid, TxnOf(d, w).event.id)
    ensures SameLog(Act(n, uuid, d, Commit(w)), Recorded(n, uuid, log, TxnOf(d, w).event))
  {
    assert TxnInStep(n, uuid, d, w);
    assert PrevHash(log, |log|) == PrevRowHash(d.rows, |d.rows|);
    SameIds(d, log, TxnOf(d, w).event.id);
  }

  lemma SameIds(d: Db, log: Log, id: string)
    requires SameLog(d, log)
    ensures TableHasId(d.rows, id) <==> HasId(log, id)
  {
    if i :| 0 <= i < |log| && log[i].0.id == id { assert d.rows[i].id == id; }
    if i :| 0 <= i < |d.rows| && d.rows[i].id == id { assert log[i].0.id == id; }
  }

  /** One statement of one writer: only a commit changes what the table and the memory hold. */
  lemma ActRefines(n: Notary, uuid: UuidParser, d: Db, a: Action)
    requires DbSound(n, uuid, d) && Enabled(uuid, d, a)
    requires SameLog(d, RecordedAll(n, uuid, d.committed)) && AllCanonical(uuid, Act(n, uuid, d, a).committed)
    ensures var e := Act(n, uuid, d, a); SameLog(e, RecordedAll(n, uuid, e.committed))
  {
    if a.Commit? {
      var event := TxnOf(d, a.w).event;
      var e := Act(n, uuid, d, a);
      assert e.committed == d.committed + [event] && e.committed[|d.committed|] == event;
      CommitRefines(n, uuid, d, a.w, RecordedAll(n, uuid, d.committed));
      assert e.committed[..|d.committed|] == d.committed;
    }
  }

  lemma CommittedGrows(n: Notary, uuid: UuidParser, d: Db, a: Action)
    requires Enabled(uuid, d, a)
    ensures d.committed <= Act(n, uuid, d, a).committed
  {
  }

  lemma {:induction false} RefinesMemory(n: Notary, uuid: UuidParser, actions: seq<Action>, d: Db)
    requires Reaches(n, uuid, actions, d) && AllCanonical(uuid, d.committed)
    ensures SameLog(d, RecordedAll(n, uuid, d.committed))
    decreases |actions|
  {
    if actions != [] {
      var last := |actions| - 1;
      var before :| Reaches(n, uuid, actions[..last], before)
                    && Enabled(uuid, before, actions[last]) && d == Act(n, uuid, before, actions[last]);
      CommittedGrows(n, uuid, before, actions[last]);
      assert AllCanonical(uuid, before.committed);
      RefinesMemory(n, uuid, actions[..last], before);
      ReachableDbSound(n, uuid, actions[..last], before);
      ActRefines(n, uuid, before, actions[last]);
    }
  }

  /** However concurrent writers interleave, crash and roll back, the table equals what
      the in-memory store holds after recording the committed events in commit order,
      exactly when every committed id is canonical UUID text: any other spelling of a
      UUID is one row to Postgres and another event to the in-memory store. */
  lemma RefinesMemoryIffCanonical(n: Notary, uuid: UuidParser, actions: seq<Action>, d: Db)
    requires Reaches(n, uuid, actions, d)
    ensures SameLog(d, RecordedAll(n, uuid, d.committed)) <==> AllCanonical(uuid, d.committed)
  {
    var log := RecordedAll(n, uuid, d.committed);
    if AllCanonical(uuid, d.committed) {
      RefinesMemory(n, uuid, actions, d);
    } else if SameLog(d, log) {
      ReachableDbSound(n, uuid, actions, d);
      forall k | 0 <= k < |d.committed| ensures IsCanonical(uuid, d.committed[k].id) {
        MemoryHasId(n, uuid, d.committed, d.committed[k].id);
        assert d.committed[k] in d.committed;
        var i :| 0 <= i < |log| && log[i].0.id == d.committed[k].id;
        assert RowMade(n, uuid, d.rows, d.kept, i);
      }
    }
  }

  /** One writer alone: lock, read, insert or skip, commit. */
  lemma RecordOnce(n: Notary, uuid: UuidParser, actions: seq<Action>, d: Db, w: Writer, event: Envelope)
    returns (all: seq<Action>, after: Db)
    requires Reaches(n, uuid, actions, d) && d.lock.None? && TxnOf(d, w).Idle? && uuid(event.id).Some?
    ensures Reaches(n, uuid, all, after) && after.lock.None? && TxnOf(after, w).Idle?
    ensures after.committed == d.committed + [event]
    ensures if TableHasId(d.rows, uuid(event.id).value) then after.rows == d.rows && after.kept == d.kept
            else after.rows == d.rows + [MakeRow(n, uuid, d.nextSeq, TipHash(d.rows), event)] && after.kept == d.kept + [event]
  {
    ReachesStep(n, uuid, actions, d, TakeLock(w, event));
    var d1 := Act(n, uuid, d, TakeLock(w, event));
    ReachesStep(n, uuid, actions + [TakeLock(w, event)], d1, ReadTip(w));
    var d2 := Act(n, uuid, d1, ReadTip(w));
    ReachesStep(n, uuid, actions + [TakeLock(w, event)] + [ReadTip(w)], d2, Insert(w));
    var d3 := Act(n, uuid, d2, Insert(w));
    ReachesStep(n, uuid, actions + [TakeLock(w, event)] + [ReadTip(w)] + [Insert(w)], d3, Commit(w));
    all, after := actions + [TakeLock(w, event)] + [ReadTip(w)] + [Insert(w)] + [Commit(w)], Act(n, uuid, d3, Commit(w));
  }

  lemma FirstInMemory(n: Notary, uuid: UuidParser, e: Envelope)
    ensures |RecordedAll(n, uuid, [e])| == 1 && RecordedAll(n, uuid, [e])[0].0 == e
  {
    assert [e][..0] == [] && RecordedAll(n, uuid, []) == [];
    assert RecordedAll(n, uuid, [e]) == Recorded(n, uuid, RecordedAll(n, uuid, [e][..0]), [e][0]);
  }

  lemma TwoSpellingsInMemory(n: Notary, uuid: UuidParser, e: Envelope, f: Envelope)
    requires e.id != f.id
    ensures |RecordedAll(n, uuid, [e, f])| == 2
  {
    FirstInMemory(n, uuid, e);
    assert [e, f][..1] == [e];
    assert RecordedAll(n, uuid, [e, f]) == Recorded(n, uuid, RecordedAll(n, uuid, [e]), f);
  }

  /** Two events under two spellings of one UUID: one row in the table, two entries in memory. */
  lemma SpellingsSplitTheStores(n: Notary, uuid: UuidParser, e: Envelope, f: Envelope) returns (actions: seq<Action>, d: Db)
    requires uuid(e.id).Some? && uuid(e.id) == uuid(f.id) && e.id != f.id
    ensures Reaches(n, uuid, actions, d) && d.committed == [e, f]
    ensures |d.rows| == 1 && |RecordedAll(n, uuid, d.committed)| == 2
  {
    assert Reaches(n, uuid, [], EMPTY_DB);
    actions, d := RecordOnce(n, uuid, [], EMPTY_DB, 0, e);
    assert d.rows[0].id == uuid(f.id).value;
    actions, d := RecordOnce(n, uuid, actions, d, 0, f);
    TwoSpellingsInMemory(n, uuid, e, f);
  }
}
