/**
 The hash-chained audit log (shared/audit.py): the chain hash, the verifier, and
 what a log that passes it can and cannot be.
 */
module Audit {
  import opened Prelude

  type Hash = string

  datatype Envelope = Envelope(
    id: string,
    subject: string,
    schemaVersion: int,
    source: string,
    correlationId: Option<string>,
    tenantId: Option<string>,
    payload: Record)

  /** The two functions the chain is built on: canonical JSON and hexadecimal SHA-256. */
  datatype Notary = Notary(canonical: Envelope -> string, digest: string -> string)

  function Zeros(k: nat): (z: string)
    ensures |z| == k && forall i :: 0 <= i < k ==> z[i] == '0'
  {
    if k == 0 then [] else ['0'] + Zeros(k - 1)
  }

  const ZEROS: string := Zeros(64)
  const PREFIX: string := "sha256:"
  const GENESIS: Hash := PREFIX + ZEROS

  /** What is assumed of them: distinct envelopes and texts stay distinct, a digest is
      one line, and no text digests to the genesis anchor. */
  ghost predicate Ideal(n: Notary) {
    && Distinguishes(n.canonical)
    && (forall s, t :: n.digest(s) == n.digest(t) ==> s == t)
    && (forall s :: '\n' !in n.digest(s) && n.digest(s) != ZEROS)
  }

  ghost predicate Distinguishes(canonical: Envelope -> string) {
    forall e, f :: canonical(e) == canonical(f) ==> e == f
  }

  /** Text on one line: line breaks become "n", any other character is marked "c". */
  function OneLine(s: string): string {
    if s == [] then []
    else (if s[0] == '\n' then "n" else ['c', s[0]]) + OneLine(s[1..])
  }

  lemma {:induction false} OneLineInjective(s: string, t: string)
    ensures '\n' !in OneLine(s)
    ensures OneLine(s) == OneLine(t) ==> s == t
  {
    if s != [] {
      OneLineInjective(s[1..], s[1..]);
      var u, v := OneLine(s), OneLine(t);
      assert s == [s[0]] + s[1..];
      if u == v && t != [] {
        assert t == [t[0]] + t[1..];
        assert u[0] == (if s[0] == '\n' then 'n' else 'c') && v[0] == (if t[0] == '\n' then 'n' else 'c');
        if s[0] == '\n' {
          assert u[1..] == OneLine(s[1..]) && v[1..] == OneLine(t[1..]);
        } else {
          assert u[1] == s[0] && v[1] == t[0];
          assert u[2..] == OneLine(s[1..]) && v[2..] == OneLine(t[1..]);
        }
        OneLineInjective(s[1..], t[1..]);
      }
    }
  }

  /** The assumptions can be met: any canonical text that tells envelopes apart has a digest. */
  lemma IdealIsPossible(canonical: Envelope -> string) returns (n: Notary)
    requires Distinguishes(canonical)
    ensures n.canonical == canonical && Ideal(n)
  {
    n := Notary(canonical, (s: string) => "d" + OneLine(s));
    forall s, t | n.digest(s) == n.digest(t) ensures s == t {
      assert n.digest(s)[1..] == OneLine(s) && n.digest(t)[1..] == OneLine(t);
      OneLineInjective(s, t);
    }
    forall s ensures '\n' !in n.digest(s) && n.digest(s) != ZEROS {
      OneLineInjective(s, s);
      assert n.digest(s)[0] == 'd' && ZEROS[0] == '0';
    }
  }

  function ChainHash(n: Notary, prev: Hash, event: Envelope): Hash {
    PREFIX + n.digest(prev + "\n" + n.canonical(event))
  }

  /** The text before the first line break, and the text after it. */
  function FirstLine(s: string): Option<(string, string)> {
    if s == [] then None
    else if s[0] == '\n' then Some(([], s[1..]))
    else match FirstLine(s[1..]) case None => None case Some(p) => Some(([s[0]] + p.0, p.1))
  }

  lemma {:induction false} FirstLineBack(a: string, b: string)
    requires '\n' !in a
    ensures FirstLine(a + "\n" + b) == Some((a, b))
  {
    var s := a + "\n" + b;
    if a == [] {
      assert s[1..] == b;
    } else {
      assert s[1..] == a[1..] + "\n" + b;
      FirstLineBack(a[1..], b);
      assert a == [a[0]] + a[1..];
    }
  }

  /** What is hashed: one text, whose first line is the previous hash and whose rest is the
      event; the hash is its digest behind the name of the algorithm. */
  lemma MaterialReadsBack(n: Notary, prev: Hash, event: Envelope) returns (material: string)
    requires WellFormed(prev)
    ensures ChainHash(n, prev, event) == "sha256:" + n.digest(material)
    ensures FirstLine(material) == Some((prev, n.canonical(event)))
  {
    material := prev + "\n" + n.canonical(event);
    FirstLineBack(prev, n.canonical(event));
  }

  /** The anchor is the algorithm's name and 64 zeros. */
  lemma GenesisIsFixed()
    ensures |GENESIS| == 71 && GENESIS[..7] == "sha256:" && forall i :: 7 <= i < 71 ==> GENESIS[i] == '0'
  {
    assert |PREFIX| == 7;
  }

  predicate WellFormed(h: Hash) { '\n' !in h }

  lemma PrefixKeepsLines(h: string)
    requires '\n' !in h
    ensures '\n' !in PREFIX + h && (PREFIX + h)[7..] == h
  {
  }

  lemma ChainHashShape(n: Notary, prev: Hash, event: Envelope)
    requires Ideal(n)
    ensures WellFormed(ChainHash(n, prev, event)) && WellFormed(GENESIS)
    ensures ChainHash(n, prev, event) != GENESIS
  {
    PrefixKeepsLines(n.digest(prev + "\n" + n.canonical(event)));
    PrefixKeepsLines(ZEROS);
  }

  /** The material hashed splits back into the previous hash and the event. */
  lemma ChainHashInjective(n: Notary, p: Hash, e: Envelope, q: Hash, f: Envelope)
    requires Ideal(n) && WellFormed(p) && WellFormed(q)
    requires ChainHash(n, p, e) == ChainHash(n, q, f)
    ensures p == q && e == f
  {
    var s, t := p + "\n" + n.canonical(e), q + "\n" + n.canonical(f);
    assert ChainHash(n, p, e)[7..] == n.digest(s) && ChainHash(n, q, f)[7..] == n.digest(t);
    NoSeparatorNoClash(p, q, '\n');
    CutWithoutClash(p, n.canonical(e), q, n.canonical(f), '\n');
  }

  type Log = seq<(Envelope, Hash)>

  function PrevHash(log: Log, i: nat): Hash
    requires i <= |log|
  {
    if i == 0 then GENESIS else log[i - 1].1
  }

  predicate Intact(n: Notary, log: Log, i: nat)
    requires i < |log|
  {
    log[i].1 == ChainHash(n, PrevHash(log, i), log[i].0)
  }

  /** The positions at which the chain breaks, in order. */
  function Problems(n: Notary, log: Log): seq<nat> {
    if log == [] then []
    else
      var last := |log| - 1;
      Problems(n, log[..last]) + if Intact(n, log, last) then [] else [last]
  }

  method VerifyChain(n: Notary, entries: Log) returns (problems: seq<nat>)
    ensures problems == Problems(n, entries)
  {
    problems := [];
    var prev := GENESIS;
    for i := 0 to |entries|
      invariant prev == PrevHash(entries, i)
      invariant problems == Problems(n, entries[..i])
    {
      ProblemsStep(n, entries, i);
      var (event, recorded) := entries[i];
      var expected := ChainHash(n, prev, event);
      if recorded != expected {
        problems := problems + [i];
      }
      prev := recorded;
    }
    assert entries[..|entries|] == entries;
  }

  predicate Broken(n: Notary, log: Log, i: int) { 0 <= i < |log| && !Intact(n, log, i) }

  lemma LastBroken(n: Notary, log: Log, i: int)
    requires log != []
    ensures var last := |log| - 1; Broken(n, log, i) <==> Broken(n, log[..last], i) || (i == last && !Intact(n, log, last))
  {
    var last := |log| - 1;
    if 0 <= i < last { assert Intact(n, log[..last], i) <==> Intact(n, log, i); }
  }

  lemma {:induction false} ReportedMeansBroken(n: Notary, log: Log, i: int)
    ensures i in Problems(n, log) <==> Broken(n, log, i)
  {
    if log != [] {
      ReportedMeansBroken(n, log[..|log| - 1], i);
      LastBroken(n, log, i);
    }
  }

  /** A position is reported exactly when its row does not follow from the row before it;
      each once, in log order. */
  lemma {:induction false} ReportedIffBroken(n: Notary, log: Log)
    ensures forall i :: i in Problems(n, log) <==> 0 <= i < |log| && !Intact(n, log, i)
    ensures forall a, b :: 0 <= a < b < |Problems(n, log)| ==> Problems(n, log)[a] < Problems(n, log)[b]
  {
    forall i ensures i in Problems(n, log) <==> 0 <= i < |log| && !Intact(n, log, i) { ReportedMeansBroken(n, log, i); }
    if log != [] {
      var before := Problems(n, log[..|log| - 1]);
      ReportedIffBroken(n, log[..|log| - 1]);
      assert forall a :: 0 <= a < |before| ==> before[a] in before;
    }
  }

  ghost predicate Clean(n: Notary, log: Log) {
    forall i :: 0 <= i < |log| ==> Intact(n, log, i)
  }

  lemma CleanIffNoProblems(n: Notary, log: Log)
    ensures Clean(n, log) <==> Problems(n, log) == []
  {
    ReportedIffBroken(n, log);
    if Problems(n, log) != [] { assert Problems(n, log)[0] in Problems(n, log); }
  }

  // --- What a clean log can be ------------------------------------------------

  lemma PrevWellFormed(n: Notary, log: Log, i: nat)
    requires Ideal(n) && Clean(n, log) && i <= |log|
    ensures WellFormed(PrevHash(log, i)) && (PrevHash(log, i) == GENESIS <==> i == 0)
  {
    if i > 0 {
      assert Intact(n, log, i - 1);
      ChainHashShape(n, PrevHash(log, i - 1), log[i - 1].0);
    } else {
      PrefixKeepsLines(ZEROS);
    }
  }

  lemma SameHashSameRow(n: Notary, log: Log, other: Log, i: nat, j: nat)
    requires Ideal(n) && Clean(n, log) && Clean(n, other)
    requires 0 < i <= |log| && 0 < j <= |other| && log[i - 1].1 == other[j - 1].1
    ensures log[i - 1] == other[j - 1] && PrevHash(log, i - 1) == PrevHash(other, j - 1)
  {
    assert Intact(n, log, i - 1) && Intact(n, other, j - 1);
    PrevWellFormed(n, log, i - 1);
    PrevWellFormed(n, other, j - 1);
    ChainHashInjective(n, PrevHash(log, i - 1), log[i - 1].0, PrevHash(other, j - 1), other[j - 1].0);
  }

  /** Equal hashes of two clean logs stand at equal positions, after equal events. */
  lemma {:induction false} SameHashSamePast(n: Notary, log: Log, other: Log, i: nat, j: nat)
    requires Ideal(n) && Clean(n, log) && Clean(n, other)
    requires i <= |log| && j <= |other| && PrevHash(log, i) == PrevHash(other, j)
    ensures i == j && log[..i] == other[..j]
  {
    PrevWellFormed(n, log, i);
    PrevWellFormed(n, other, j);
    if i > 0 {
      SameHashSameRow(n, log, other, i, j);
      SameHashSamePast(n, log, other, i - 1, j - 1);
      assert log[..i] == log[..i - 1] + [log[i - 1]];
      assert other[..j] == other[..j - 1] + [other[j - 1]];
    }
  }

  /** Two clean logs with the same last hash hold the same events in the same order. */
  lemma SameTipSameLog(n: Notary, log: Log, other: Log)
    requires Ideal(n) && Clean(n, log) && Clean(n, other)
    requires PrevHash(log, |log|) == PrevHash(other, |other|)
    ensures log == other
  {
    SameHashSamePast(n, log, other, |log|, |other|);
    assert log[..|log|] == log && other[..|other|] == other;
  }

  lemma KnownTipMakesAPrefix(n: Notary, log: Log, forged: Log, j: nat)
    requires Ideal(n) && Clean(n, log) && Clean(n, forged)
    requires forged != [] && j < |log| && log[j] == forged[|forged| - 1]
    ensures forged == log[..j + 1]
  {
    SameHashSamePast(n, log, forged, j + 1, |forged|);
    assert forged[..|forged|] == forged;
  }

  /** Deleting, repeating and reordering rows of an intact log is always noticed, except
      cutting off its tail: whatever still passes the verifier is a prefix of the log. */
  lemma TamperEvidence(n: Notary, log: Log, forged: Log)
    requires Ideal(n)
    requires Problems(n, log) == [] && Problems(n, forged) == []
    requires forall i :: 0 <= i < |forged| ==> forged[i] in log
    ensures forged <= log
  {
    CleanIffNoProblems(n, log);
    CleanIffNoProblems(n, forged);
    if forged != [] {
      assert forged[|forged| - 1] in log;
      var j :| 0 <= j < |log| && log[j] == forged[|forged| - 1];
      KnownTipMakesAPrefix(n, log, forged, j);
    }
  }

  /** Every prefix of an intact log does pass: the tail can be cut off unnoticed. */
  lemma PrefixesPass(n: Notary, log: Log, k: nat)
    requires Problems(n, log) == [] && k <= |log|
    ensures Problems(n, log[..k]) == []
  {
    CleanIffNoProblems(n, log);
    CleanIffNoProblems(n, log[..k]);
    forall i | 0 <= i < k ensures Intact(n, log[..k], i) { assert Intact(n, log, i); }
  }

  lemma ProblemsStep(n: Notary, log: Log, m: nat)
    requires m < |log|
    ensures Problems(n, log[..m + 1]) == Problems(n, log[..m]) + if Intact(n, log, m) then [] else [m]
  {
    assert log[..m + 1][..m] == log[..m];
    assert Intact(n, log[..m + 1], m) <==> Intact(n, log, m);
  }

  lemma {:induction false} OnlyProblemUpTo(n: Notary, log: Log, i: nat, m: nat)
    requires m <= |log| && forall k :: 0 <= k < |log| ==> (Intact(n, log, k) <==> k != i)
    ensures Problems(n, log[..m]) == if i < m then [i] else []
  {
    if m > 0 {
      OnlyProblemUpTo(n, log, i, m - 1);
      ProblemsStep(n, log, m - 1);
    }
  }

  lemma OnlyProblem(n: Notary, log: Log, i: nat)
    requires forall k :: 0 <= k < |log| ==> (Intact(n, log, k) <==> k != i)
    ensures Problems(n, log) == if i < |log| then [i] else []
  {
    OnlyProblemUpTo(n, log, i, |log|);
    assert log[..|log|] == log;
  }

  /** Changing the event of one row of an intact log is reported at that row, once. */
  lemma EditIsLocated(n: Notary, log: Log, i: nat, event: Envelope)
    requires Ideal(n) && Problems(n, log) == [] && i < |log| && event != log[i].0
    ensures Problems(n, log[i := (event, log[i].1)]) == [i]
  {
    CleanIffNoProblems(n, log);
    var edited := log[i := (event, log[i].1)];
    PrevWellFormed(n, log, i);
    assert Intact(n, log, i);
    if Intact(n, edited, i) { ChainHashInjective(n, PrevHash(log, i), event, PrevHash(log, i), log[i].0); }
    forall k | 0 <= k < |edited| && k != i ensures Intact(n, edited, k) { assert Intact(n, log, k); }
    OnlyProblem(n, edited, i);
  }

  /** Deleting one row of an intact log is reported at the gap, once, unless it is the last. */
  lemma DeletionIsLocated(n: Notary, log: Log, i: nat)
    requires Ideal(n) && Problems(n, log) == [] && i < |log|
    ensures Problems(n, log[..i] + log[i + 1..]) == if i + 1 < |log| then [i] else []
  {
    CleanIffNoProblems(n, log);
    var cut := log[..i] + log[i + 1..];
    forall k | 0 <= k < |cut| ensures Intact(n, cut, k) <==> k != i {
      if k < i {
        assert Intact(n, log, k);
      } else {
        assert Intact(n, log, k + 1);
        if k == i && Intact(n, cut, k) {
          PrevWellFormed(n, log, i);
          PrevWellFormed(n, log, i + 1);
          ChainHashInjective(n, PrevHash(log, i), log[i + 1].0, PrevHash(log, i + 1), log[i + 1].0);
          SameHashSamePast(n, log, log, i, i + 1);
        }
      }
    }
    OnlyProblem(n, cut, i);
  }
}
