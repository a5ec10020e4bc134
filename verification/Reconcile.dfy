/**
 Cavi against ERP reconciliation (agents/ledger/reconcile.py): the comparator, that
 it is exact, and that it agrees with the dry-run diff about one and the same upsert.
 */
module Reconcile {
  import opened Prelude
  import opened Writes

  datatype Mismatch = Mismatch(name: string, expected: Json, actual: Json)

  datatype Discrepancy =
    | MissingInErp(externalId: string)
    | UnexpectedInErp(externalId: string)
    | FieldMismatch(externalId: string, fields: seq<Mismatch>)

  type Records = map<string, Record>

  /** `record.get(name)`: an absent field reads as null. */
  function Get(r: Record, name: string): Json {
    if name in r then r[name] else Null
  }

  function MismatchesOf(record: Record, current: Record, names: seq<string>): seq<Mismatch>
    requires forall n :: n in names ==> n in record
  {
    if names == [] then []
    else
      var last := |names| - 1;
      var name := names[last];
      MismatchesOf(record, current, names[..last])
      + if !Same(record[name], Get(current, name)) then [Mismatch(name, record[name], Get(current, name))] else []
  }

  function Mismatches(record: Record, current: Record): seq<Mismatch> {
    MismatchesOf(record, current, SortedKeys(record.Keys))
  }

  /** What one external id contributes. */
  function Judged(expected: Records, actual: Records, id: string): seq<Discrepancy>
    requires id in expected || id in actual
  {
    if id !in expected then [UnexpectedInErp(id)]
    else if id !in actual then [MissingInErp(id)]
    else
      var m := Mismatches(expected[id], actual[id]);
      if m == [] then [] else [FieldMismatch(id, m)]
  }

  function JudgedAll(expected: Records, actual: Records, ids: seq<string>): seq<Discrepancy>
    requires forall id :: id in ids ==> id in expected || id in actual
  {
    if ids == [] then []
    else
      var last := |ids| - 1;
      JudgedAll(expected, actual, ids[..last]) + Judged(expected, actual, ids[last])
  }

  function ExpectedIds(expected: Records): (ids: seq<string>)
    ensures StrictlySorted(ids) && forall id :: id in ids <==> id in expected
  {
    SortedKeys(expected.Keys)
  }

  /** `sorted(set(actual) - set(expected))` */
  function OtherIds(expected: Records, actual: Records): (ids: seq<string>)
    ensures StrictlySorted(ids) && forall id :: id in ids <==> id in actual && id !in expected
  {
    SortedKeys(actual.Keys - expected.Keys)
  }

  function Compared(expected: Records, actual: Records): seq<Discrepancy> {
    JudgedAll(expected, actual, ExpectedIds(expected)) + JudgedAll(expected, actual, OtherIds(expected, actual))
  }

  lemma JudgedStep(expected: Records, actual: Records, ids: seq<string>, i: nat)
    requires i < |ids| && forall id :: id in ids ==> id in expected || id in actual
    ensures ids[i] in ids
    ensures JudgedAll(expected, actual, ids[..i + 1])
            == JudgedAll(expected, actual, ids[..i]) + Judged(expected, actual, ids[i])
  {
    assert ids[..i + 1][..i] == ids[..i];
  }

  lemma MismatchesStep(record: Record, current: Record, names: seq<string>, i: nat)
    requires i < |names| && forall n :: n in names ==> n in record
    ensures names[i] in record
    ensures MismatchesOf(record, current, names[..i + 1])
            == MismatchesOf(record, current, names[..i])
               + if !Same(record[names[i]], Get(current, names[i])) then [Mismatch(names[i], record[names[i]], Get(current, names[i]))] else []
  {
    assert names[..i + 1][..i] == names[..i];
  }

  method FieldLoop(record: Record, current: Record) returns (mismatches: seq<Mismatch>)
    ensures mismatches == Mismatches(record, current)
  {
    var names := SortedKeys(record.Keys);
    mismatches := [];
    for i := 0 to |names|
      invariant mismatches == MismatchesOf(record, current, names[..i])
    {
      MismatchesStep(record, current, names, i);
      var name := names[i];
      if !Same(record[name], Get(current, name)) {
        mismatches := mismatches + [Mismatch(name, record[name], Get(current, name))];
      }
    }
    assert names[..|names|] == names;
  }

  method ExpectedLoop(expected: Records, actual: Records, ids: seq<string>) returns (discrepancies: seq<Discrepancy>)
    requires forall id :: id in ids ==> id in expected
    ensures discrepancies == JudgedAll(expected, actual, ids)
  {
    discrepancies := [];
    for i := 0 to |ids|
      invariant discrepancies == JudgedAll(expected, actual, ids[..i])
    {
      JudgedStep(expected, actual, ids, i);
      var id := ids[i];
      if id !in actual {
        discrepancies := discrepancies + [MissingInErp(id)];
      } else {
        var mismatches := FieldLoop(expected[id], actual[id]);
        if mismatches != [] {
          discrepancies := discrepancies + [FieldMismatch(id, mismatches)];
        }
      }
    }
    assert ids[..|ids|] == ids;
  }

  method OthersLoop(expected: Records, actual: Records, ids: seq<string>) returns (discrepancies: seq<Discrepancy>)
    requires forall id :: id in ids ==> id in actual && id !in expected
    ensures discrepancies == JudgedAll(expected, actual, ids)
  {
    discrepancies := [];
    for i := 0 to |ids|
      invariant discrepancies == JudgedAll(expected, actual, ids[..i])
    {
      JudgedStep(expected, actual, ids, i);
      discrepancies := discrepancies + [UnexpectedInErp(ids[i])];
    }
    assert ids[..|ids|] == ids;
  }

  method Compare(expected: Records, actual: Records) returns (discrepancies: seq<Discrepancy>)
    ensures discrepancies == Compared(expected, actual)
  {
    discrepancies := ExpectedLoop(expected, actual, ExpectedIds(expected));
    var others := OthersLoop(expected, actual, OtherIds(expected, actual));
    discrepancies := discrepancies + others;
  }

  // --- Exactness --------------------------------------------------------------------

  lemma {:induction false} MismatchesMembers(record: Record, current: Record, names: seq<string>, x: Mismatch)
    requires forall n :: n in names ==> n in record
    ensures x in MismatchesOf(record, current, names) <==>
            && x.name in names && !Same(record[x.name], Get(current, x.name))
            && x == Mismatch(x.name, record[x.name], Get(current, x.name))
  {
    if names != [] {
      var last := |names| - 1;
      MismatchesMembers(record, current, names[..last], x);
      assert x.name in names <==> x.name in names[..last] || x.name == names[last] by {
        assert names == names[..last] + [names[last]];
      }
    }
  }

  lemma {:induction false} MismatchesOrdered(record: Record, current: Record, names: seq<string>)
    requires StrictlySorted(names) && forall n :: n in names ==> n in record
    ensures var m := MismatchesOf(record, current, names); forall i, j :: 0 <= i < j < |m| ==> Less(m[i].name, m[j].name)
  {
    if names != [] {
      var last := |names| - 1;
      var before := MismatchesOf(record, current, names[..last]);
      MismatchesOrdered(record, current, names[..last]);
      MismatchesStep(record, current, names, last);
      assert names[..last + 1] == names;
      forall i | 0 <= i < |before| ensures Less(before[i].name, names[last]) {
        assert before[i] in before;
        MismatchesMembers(record, current, names[..last], before[i]);
        var k :| 0 <= k < last && names[k] == before[i].name;
        assert Less(names[k], names[last]);
      }
    }
  }

  /** The fields reported are exactly the managed fields that disagree, in name order. */
  lemma MismatchesExact(record: Record, current: Record, x: Mismatch)
    ensures var m := Mismatches(record, current);
            && (x in m <==> x.name in record && !Same(record[x.name], Get(current, x.name))
                            && x == Mismatch(x.name, record[x.name], Get(current, x.name)))
            && (forall i, j :: 0 <= i < j < |m| ==> Less(m[i].name, m[j].name))
  {
    MismatchesMembers(record, current, SortedKeys(record.Keys), x);
    MismatchesOrdered(record, current, SortedKeys(record.Keys));
  }

  /** Every managed field of the record reads the same in the ERP. */
  ghost predicate Agrees(record: Record, current: Record) {
    forall n :: n in record ==> Same(record[n], Get(current, n))
  }

  lemma NoMismatchIff(record: Record, current: Record)
    ensures Mismatches(record, current) == [] <==> Agrees(record, current)
  {
    var m := Mismatches(record, current);
    if m != [] { MismatchesExact(record, current, m[0]); }
    if !Agrees(record, current) {
      var n :| n in record && !Same(record[n], Get(current, n));
      MismatchesExact(record, current, Mismatch(n, record[n], Get(current, n)));
    }
  }

  /** The one discrepancy an id deserves, if any. */
  ghost predicate Deserved(expected: Records, actual: Records, d: Discrepancy) {
    var id := d.externalId;
    match d
    case MissingInErp(_) => id in expected && id !in actual
    case UnexpectedInErp(_) => id !in expected && id in actual
    case FieldMismatch(_, m) =>
      id in expected && id in actual && !Agrees(expected[id], actual[id]) && m == Mismatches(expected[id], actual[id])
  }

  lemma JudgedDeserved(expected: Records, actual: Records, id: string)
    requires id in expected || id in actual
    ensures forall d :: d in Judged(expected, actual, id) <==> d.externalId == id && Deserved(expected, actual, d)
    ensures |Judged(expected, actual, id)| <= 1
    ensures Judged(expected, actual, id) == [] <==> id in expected && id in actual && Agrees(expected[id], actual[id])
  {
    if id in expected && id in actual { NoMismatchIff(expected[id], actual[id]); }
  }

  lemma JudgedMember(expected: Records, actual: Records, id: string, d: Discrepancy)
    requires id in expected || id in actual
    ensures d in Judged(expected, actual, id) <==> d.externalId == id && Deserved(expected, actual, d)
  {
    JudgedDeserved(expected, actual, id);
  }

  lemma JudgedAllLast(expected: Records, actual: Records, ids: seq<string>, d: Discrepancy)
    requires ids != [] && forall id :: id in ids ==> id in expected || id in actual
    ensures var last := |ids| - 1;
            d in JudgedAll(expected, actual, ids) <==>
            d in JudgedAll(expected, actual, ids[..last]) || d in Judged(expected, actual, ids[last])
  {
  }

  lemma {:induction false} JudgedAllMembers(expected: Records, actual: Records, ids: seq<string>, d: Discrepancy)
    requires forall id :: id in ids ==> id in expected || id in actual
    ensures d in JudgedAll(expected, actual, ids) <==> d.externalId in ids && Deserved(expected, actual, d)
  {
    if ids != [] {
      var last := |ids| - 1;
      JudgedAllMembers(expected, actual, ids[..last], d);
      JudgedAllLast(expected, actual, ids, d);
      JudgedMember(expected, actual, ids[last], d);
      assert d.externalId in ids <==> d.externalId in ids[..last] || d.externalId == ids[last] by {
        assert ids == ids[..last] + [ids[last]];
      }
    }
  }

  predicate Ordered(r: seq<Discrepancy>) {
    forall i, j :: 0 <= i < j < |r| ==> Less(r[i].externalId, r[j].externalId)
  }

  lemma {:induction false} JudgedAllOrdered(expected: Records, actual: Records, ids: seq<string>)
    requires forall id :: id in ids ==> id in expected || id in actual
    requires StrictlySorted(ids)
    ensures Ordered(JudgedAll(expected, actual, ids))
  {
    if ids != [] {
      var last := |ids| - 1;
      var init := ids[..last];
      JudgedAllOrdered(expected, actual, init);
      JudgedDeserved(expected, actual, ids[last]);
      var before, after := JudgedAll(expected, actual, init), Judged(expected, actual, ids[last]);
      forall i | 0 <= i < |before| && after != [] ensures Less(before[i].externalId, after[0].externalId) {
        assert before[i] in before && after[0] in after;
        JudgedAllMembers(expected, actual, init, before[i]);
        var k :| 0 <= k < last && init[k] == before[i].externalId;
        assert Less(ids[k], ids[last]);
      }
    }
  }

  /** No id twice; expected ids before unexpected ones, each group in id order. */
  ghost predicate InGroups(r: seq<Discrepancy>) {
    forall i, j :: 0 <= i < j < |r| ==>
      && r[i].externalId != r[j].externalId
      && if r[i].UnexpectedInErp? == r[j].UnexpectedInErp? then Less(r[i].externalId, r[j].externalId)
         else r[j].UnexpectedInErp?
  }

  lemma GroupsConcat(a: seq<Discrepancy>, b: seq<Discrepancy>, known: set<string>)
    requires Ordered(a) && Ordered(b)
    requires forall d :: d in a ==> !d.UnexpectedInErp? && d.externalId in known
    requires forall d :: d in b ==> d.UnexpectedInErp? && d.externalId !in known
    ensures InGroups(a + b)
  {
    var r := a + b;
    forall i, j | 0 <= i < j < |r|
      ensures r[i].externalId != r[j].externalId
      ensures if r[i].UnexpectedInErp? == r[j].UnexpectedInErp? then Less(r[i].externalId, r[j].externalId)
              else r[j].UnexpectedInErp?
    {
      LessTotal(r[i].externalId, r[j].externalId);
      assert i < |a| ==> a[i] in a;
      assert j < |a| ==> a[j] in a;
      assert i >= |a| ==> b[i - |a|] in b;
      assert j >= |a| ==> b[j - |a|] in b;
    }
  }

  lemma ReportMembers(expected: Records, actual: Records, d: Discrepancy)
    ensures d in Compared(expected, actual) <==> Deserved(expected, actual, d)
  {
    JudgedAllMembers(expected, actual, ExpectedIds(expected), d);
    JudgedAllMembers(expected, actual, OtherIds(expected, actual), d);
  }

  lemma ReportInGroups(expected: Records, actual: Records)
    ensures InGroups(Compared(expected, actual))
  {
    var ids, others := ExpectedIds(expected), OtherIds(expected, actual);
    var a, b := JudgedAll(expected, actual, ids), JudgedAll(expected, actual, others);
    JudgedAllOrdered(expected, actual, ids);
    JudgedAllOrdered(expected, actual, others);
    forall d | d in a ensures !d.UnexpectedInErp? && d.externalId in expected.Keys {
      JudgedAllMembers(expected, actual, ids, d);
    }
    forall d | d in b ensures d.UnexpectedInErp? && d.externalId !in expected.Keys {
      JudgedAllMembers(expected, actual, others, d);
    }
    GroupsConcat(a, b, expected.Keys);
  }

  /** Each id yields at most one discrepancy, of the kind its state requires, and the
      report lists them in its two sorted groups. */
  lemma ReconciliationIsExact(expected: Records, actual: Records)
    ensures forall d :: d in Compared(expected, actual) <==> Deserved(expected, actual, d)
    ensures InGroups(Compared(expected, actual))
  {
    forall d ensures d in Compared(expected, actual) <==> Deserved(expected, actual, d) {
      ReportMembers(expected, actual, d);
    }
    ReportInGroups(expected, actual);
  }

  // --- The counts -------------------------------------------------------------------

  ghost function AgreeingIds(expected: Records, actual: Records): set<string> {
    set id | id in expected && id in actual && Agrees(expected[id], actual[id])
  }

  lemma {:induction false} DistinctCount(r: seq<Discrepancy>, ids: set<string>)
    requires forall i, j :: 0 <= i < j < |r| ==> r[i].externalId != r[j].externalId
    requires forall id :: id in ids <==> Reported(r, id)
    ensures |r| == |ids|
  {
    if r == [] {
      assert ids == {};
    } else {
      var last := |r| - 1;
      var id := r[last].externalId;
      assert Reported(r, id);
      forall x ensures x in ids - {id} <==> Reported(r[..last], x) {
        if x in ids - {id} {
          var i :| 0 <= i < |r| && r[i].externalId == x;
          assert r[..last][i] == r[i];
        }
        if i :| 0 <= i < last && r[..last][i].externalId == x { assert r[i].externalId == x; }
      }
      DistinctCount(r[..last], ids - {id});
    }
  }

  /** One pass; its tenant, scope, run id and timestamp are not modelled. */
  datatype ReconciliationResult = ReconciliationResult(checked: nat, discrepancies: seq<Discrepancy>) {
    function DriftCount(): nat { |discrepancies| }
    function Matched(): int { checked - DriftCount() }
  }

  function Run(expected: Records, actual: Records): ReconciliationResult {
    ReconciliationResult(|expected.Keys + actual.Keys|, Compared(expected, actual))
  }

  ghost predicate Reported(r: seq<Discrepancy>, id: string) {
    exists i :: 0 <= i < |r| && r[i].externalId == id
  }

  lemma ReportedIff(expected: Records, actual: Records, id: string)
    requires id in expected || id in actual
    ensures Reported(Compared(expected, actual), id) <==> id !in AgreeingIds(expected, actual)
  {
    var r := Compared(expected, actual);
    JudgedDeserved(expected, actual, id);
    if id !in AgreeingIds(expected, actual) {
      var d := Judged(expected, actual, id)[0];
      assert d in Judged(expected, actual, id);
      ReportMembers(expected, actual, d);
    }
    if i :| 0 <= i < |r| && r[i].externalId == id {
      assert r[i] in r;
      ReportMembers(expected, actual, r[i]);
    }
  }

  lemma ReportedKnown(expected: Records, actual: Records, id: string)
    requires Reported(Compared(expected, actual), id)
    ensures id in expected || id in actual
  {
    var r := Compared(expected, actual);
    var i :| 0 <= i < |r| && r[i].externalId == id;
    assert r[i] in r;
    ReportMembers(expected, actual, r[i]);
  }

  lemma SplitCount(all: set<string>, part: set<string>, n: nat)
    requires part <= all && n == |all - part|
    ensures |all| - n == |part| && (n == 0 <==> part == all)
  {
    if n == 0 { assert all - part == {}; } else { assert all - part != {}; }
  }

  /** `matched`, computed as checked minus drift, counts the ids on both sides whose
      managed fields all agree; so it is never negative. */
  lemma MatchedCountsAgreement(expected: Records, actual: Records)
    ensures Run(expected, actual).Matched() == |AgreeingIds(expected, actual)| >= 0
    ensures Run(expected, actual).discrepancies == [] <==> AgreeingIds(expected, actual) == expected.Keys + actual.Keys
  {
    var r, all, agree := Compared(expected, actual), expected.Keys + actual.Keys, AgreeingIds(expected, actual);
    ReportInGroups(expected, actual);
    forall id ensures id in all - agree <==> Reported(r, id) {
      if id in all { ReportedIff(expected, actual, id); }
      if Reported(r, id) { ReportedKnown(expected, actual, id); }
    }
    DistinctCount(r, all - agree);
    SplitCount(all, agree, |r|);
  }

  // --- Agreement with the dry-run diff ------------------------------------------------

  lemma UpsertAgrees(before: Option<Record>, payload: Record)
    ensures Agrees(payload, Upserted(before, payload))
  {
    forall n | n in payload ensures Same(payload[n], Upserted(before, payload)[n]) { SameAsItself(payload[n]); }
  }

  lemma NothingToReportIf(expected: Records, actual: Records)
    requires expected.Keys == actual.Keys
    requires forall id :: id in expected ==> Agrees(expected[id], actual[id])
    ensures Compared(expected, actual) == []
  {
    MatchedCountsAgreement(expected, actual);
    assert AgreeingIds(expected, actual) == expected.Keys;
    assert expected.Keys + actual.Keys == expected.Keys;
  }

  /** What the ERP holds once every payload has been upserted over what was there. */
  function AllUpserted(before: Records, payloads: Records): Records {
    map id | id in payloads :: Upserted(if id in before then Some(before[id]) else None, payloads[id])
  }

  /** After the upserts reviewers approved, reconciling the payloads reports nothing. */
  lemma NothingToReportAfterTheWrites(before: Records, payloads: Records)
    ensures Compared(payloads, AllUpserted(before, payloads)) == []
  {
    forall id | id in payloads ensures Agrees(payloads[id], AllUpserted(before, payloads)[id]) {
      UpsertAgrees(if id in before then Some(before[id]) else None, payloads[id]);
    }
    NothingToReportIf(payloads, AllUpserted(before, payloads));
  }

  lemma {:induction false} InDiffLines(current: Record, payload: Record, keys: seq<string>, line: DiffLine)
    requires forall k :: k in keys ==> k in payload
    ensures line in DiffLines(current, payload, keys) <==>
            line.key in keys && line in LinesFor(current, line.key, payload[line.key])
  {
    if keys != [] {
      var n := |keys| - 1;
      InDiffLines(current, payload, keys[..n], line);
      assert keys == keys[..n] + [keys[n]];
    }
  }

  /** Only a null put into an absent field: the one change reconciliation cannot see. */
  predicate PutsNull(line: DiffLine) { line.Plus? && line.value == Null }

  predicate Unseen(current: Record, line: DiffLine) { PutsNull(line) && line.key !in current }

  lemma SameNull(v: Json)
    ensures Same(v, Null) <==> v == Null
  {
  }

  lemma FieldAgrees(current: Record, key: string, value: Json)
    ensures Same(value, Get(current, key)) <==> forall line :: line in LinesFor(current, key, value) ==> Unseen(current, line)
  {
    SameNull(value);
    if key in current {
      SameSymmetric(value, current[key]);
      if !Same(current[key], value) { assert Minus(key, current[key]) in LinesFor(current, key, value); }
    } else {
      assert Plus(key, value) in LinesFor(current, key, value);
    }
  }

  lemma LinesNameTheirField(current: Record, key: string, value: Json)
    ensures forall line :: line in LinesFor(current, key, value) ==> line.key == key
  {
  }

  /** The diff and the comparator agree except on nulls: reconciling the payload against
      the record reports nothing exactly when the diff adds nulls to absent fields only. */
  lemma DiffAndCompareAgree(current: Record, payload: Record)
    ensures Mismatches(payload, current) == [] <==>
            forall line :: line in Diff(Some(current), payload) ==> Unseen(current, line)
  {
    var keys := SortedKeys(payload.Keys);
    NoMismatchIff(payload, current);
    if Agrees(payload, current) {
      forall line | line in Diff(Some(current), payload) ensures Unseen(current, line) {
        InDiffLines(current, payload, keys, line);
        FieldAgrees(current, line.key, payload[line.key]);
      }
    } else {
      var k :| k in payload && !Same(payload[k], Get(current, k));
      FieldAgrees(current, k, payload[k]);
      LinesNameTheirField(current, k, payload[k]);
      var line :| line in LinesFor(current, k, payload[k]) && !Unseen(current, line);
      InDiffLines(current, payload, keys, line);
    }
  }

  /** A null approved for a field the record lacks: a change to the diff, nothing to the comparator. */
  lemma NullIsNotReconciled()
    ensures Mismatches(map["memo" := Null], map[]) == [] && Diff(Some(map[]), map["memo" := Null]) != []
  {
    var payload: Record := map["memo" := Null];
    NoMismatchIff(payload, map[]);
    NoLinesIff(map[], payload, SortedKeys(payload.Keys));
    assert "memo" in payload;
  }
}
