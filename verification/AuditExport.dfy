/**
 The self-verifying export (scripts/audit_export.py): rebuilding from each stored row
 the envelope that was hashed, and checking the chain over the result.
 */
module AuditExport {
  import opened Prelude
  import opened Audit
  import opened EventStores

  datatype Line = Line(seqNo: nat, event: Envelope, chainHash: Hash)

  /** One export line. The columns come back as they were stored. */
  function ExportRow(row: Row): Line {
    Line(row.seqNo,
         Envelope(row.id, row.subject, row.schemaVersion, row.source,
                  if row.correlationId.Some? && row.correlationId.value != "" then row.correlationId else None,
                  row.tenantId, row.payload),
         row.chainHash)
  }

  function ExportAll(rows: seq<Row>): seq<Line> {
    seq(|rows|, i requires 0 <= i < |rows| => ExportRow(rows[i]))
  }

  function Entries(lines: seq<Line>): Log {
    seq(|lines|, i requires 0 <= i < |lines| => (lines[i].event, lines[i].chainHash))
  }

  function VerifyExport(n: Notary, lines: seq<Line>): seq<nat> {
    Problems(n, Entries(lines))
  }

  /** The positions of events whose id is not in canonical UUID text. */
  function Spelled(uuid: UuidParser, events: seq<Envelope>): seq<nat> {
    if events == [] then []
    else
      var last := |events| - 1;
      Spelled(uuid, events[..last]) + if IsCanonical(uuid, events[last].id) then [] else [last]
  }

  /** An export line carries the envelope that was hashed, correlation id included,
      exactly when the event's id was in canonical form. */
  lemma LineIsEnvelope(n: Notary, uuid: UuidParser, seqNo: nat, prev: Hash, event: Envelope)
    requires Canonicalises(uuid) && uuid(event.id).Some?
    ensures ExportRow(MakeRow(n, uuid, seqNo, prev, event)).event == ChainEnvelope(uuid, event)
            <==> IsCanonical(uuid, event.id)
    ensures var row := MakeRow(n, uuid, seqNo, prev, event);
            ExportRow(row).seqNo == seqNo && ExportRow(row).chainHash == row.chainHash
  {
    var c := AsUuid(uuid, event.correlationId);
    if c.Some? { assert uuid(c.value) == c; }
  }

  lemma LineIntactIff(n: Notary, uuid: UuidParser, d: Db, i: nat)
    requires Ideal(n) && Canonicalises(uuid) && RowsLinked(n, uuid, d) && i < |d.rows|
    ensures Intact(n, Entries(ExportAll(d.rows)), i) <==> IsCanonical(uuid, d.kept[i].id)
  {
    var log := Entries(ExportAll(d.rows));
    assert RowMade(n, uuid, d.rows, d.kept, i);
    assert PrevHash(log, i) == PrevRowHash(d.rows, i);
    LineIsEnvelope(n, uuid, d.rows[i].seqNo, PrevRowHash(d.rows, i), d.kept[i]);
    if Intact(n, log, i) {
      LinkedIsClean(n, uuid, d);
      CleanIffNoProblems(n, HashedRows(uuid, d));
      PrevWellFormed(n, HashedRows(uuid, d), i);
      assert PrevHash(HashedRows(uuid, d), i) == PrevRowHash(d.rows, i);
      ChainHashInjective(n, PrevRowHash(d.rows, i), log[i].0, PrevRowHash(d.rows, i), ChainEnvelope(uuid, d.kept[i]));
    }
  }

  lemma {:induction false} ProblemsAreSpelled(n: Notary, uuid: UuidParser, log: Log, events: seq<Envelope>)
    requires |log| == |events|
    requires forall i :: 0 <= i < |log| ==> (Intact(n, log, i) <==> IsCanonical(uuid, events[i].id))
    ensures Problems(n, log) == Spelled(uuid, events)
  {
    if log != [] {
      var last := |log| - 1;
      var init := log[..last];
      forall i | 0 <= i < last ensures Intact(n, init, i) <==> IsCanonical(uuid, events[..last][i].id) {
        assert Intact(n, init, i) <==> Intact(n, log, i);
      }
      ProblemsAreSpelled(n, uuid, init, events[..last]);
    }
  }

  lemma {:induction false} NoneSpelledIff(uuid: UuidParser, events: seq<Envelope>)
    ensures Spelled(uuid, events) == [] <==> AllCanonical(uuid, events)
  {
    if events != [] {
      var last := |events| - 1;
      NoneSpelledIff(uuid, events[..last]);
      assert forall i :: 0 <= i < last ==> events[..last][i] == events[i];
    }
  }

  /** Exporting the table left by any interleaving of writers and verifying the export
      reports exactly the rows whose event id was not canonical UUID text, although the
      database was never touched; it is empty exactly when every kept id was canonical. */
  lemma ExportVerifiesIffCanonical(n: Notary, uuid: UuidParser, actions: seq<Action>, d: Db)
    requires Ideal(n) && Canonicalises(uuid)
    requires Reaches(n, uuid, actions, d)
    ensures VerifyExport(n, ExportAll(d.rows)) == Spelled(uuid, d.kept)
    ensures VerifyExport(n, ExportAll(d.rows)) == [] <==> AllCanonical(uuid, d.kept)
  {
    ReachableDbSound(n, uuid, actions, d);
    var log := Entries(ExportAll(d.rows));
    forall i | 0 <= i < |log| ensures Intact(n, log, i) <==> IsCanonical(uuid, d.kept[i].id) {
      LineIntactIff(n, uuid, d, i);
    }
    ProblemsAreSpelled(n, uuid, log, d.kept);
    NoneSpelledIff(uuid, d.kept);
  }

  /** Anyone holding an intact export notices every deletion, repetition and reordering
      of its lines except a cut tail, without the database. */
  lemma ExportIsTamperEvident(n: Notary, lines: seq<Line>, forged: seq<Line>)
    requires Ideal(n) && VerifyExport(n, lines) == [] && VerifyExport(n, forged) == []
    requires forall i :: 0 <= i < |forged| ==> forged[i] in lines
    ensures |forged| <= |lines| && Entries(forged) == Entries(lines)[..|forged|]
  {
    var all, some := Entries(lines), Entries(forged);
    forall i | 0 <= i < |some| ensures some[i] in all {
      assert forged[i] in lines;
      var j :| 0 <= j < |lines| && lines[j] == forged[i];
      assert all[j] == some[i];
    }
    TamperEvidence(n, all, some);
  }

  /** One event recorded under an uppercase UUID, say: an untouched table, exported, fails. */
  lemma SpelledIdFailsExport(n: Notary, uuid: UuidParser, event: Envelope) returns (actions: seq<Action>, d: Db)
    requires Ideal(n) && Canonicalises(uuid)
    requires uuid(event.id).Some? && !IsCanonical(uuid, event.id)
    ensures Reaches(n, uuid, actions, d) && VerifyExport(n, ExportAll(d.rows)) == [0]
  {
    assert Reaches(n, uuid, [], EMPTY_DB);
    actions, d := RecordOnce(n, uuid, [], EMPTY_DB, 0, event);
    ExportVerifiesIffCanonical(n, uuid, actions, d);
    assert d.kept == [event] && [event][..0] == [];
    assert Spelled(uuid, [event]) == Spelled(uuid, []) + [0];
  }
}
