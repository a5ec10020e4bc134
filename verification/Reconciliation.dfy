/**
 Reconciling what the write agent completed with what the ERP holds, over whole runs.
 */
module Reconciliation {
  import opened Prelude
  import opened Breaker
  import opened Writes
  import opened WriteProtocol
  import opened ExactlyOnce
  import Reconcile

  /** The records of one module of one pair, by external id. */
  function Scope(store: Store, p: Pair, targetModule: string): Reconcile.Records {
    map a | a in store && a.pair == p && a.targetModule == targetModule :: a.externalId := store[a]
  }

  /** The payload is that of a completed write that alone reached the record. */
  predicate CompletedPayload(s: State, a: Address, payload: Record, w: string) {
    w in s.completed && s.completed[w].AddressOf() == a && s.completed[w].payload == payload
  }

  ghost predicate Completed(s: State, p: Pair, targetModule: string, expected: Reconcile.Records) {
    forall id :: id in expected ==>
      var a := Address(p, targetModule, id);
      exists w :: CompletedPayload(s, a, expected[id], w) && SoleWriter(s.log, a, w)
  }

  lemma CompletedAgrees(st: Store, s: State, p: Pair, targetModule: string, expected: Reconcile.Records, id: string)
    requires Told(st, s) && Completed(s, p, targetModule, expected) && id in expected
    ensures id in Scope(s.store, p, targetModule)
    ensures Reconcile.Agrees(expected[id], Scope(s.store, p, targetModule)[id])
  {
    var a := Address(p, targetModule, id);
    var w :| CompletedPayload(s, a, expected[id], w) && SoleWriter(s.log, a, w);
    CreatedRecord(st, s, w);
    assert a in s.store && a.externalId == id;
    Reconcile.UpsertAgrees(Lookup(st, a), expected[id]);
  }

  /** Every id expected is held and agrees. */
  ghost predicate AllHeld(expected: Reconcile.Records, actual: Reconcile.Records) {
    forall id :: id in expected ==> id in actual && Reconcile.Agrees(expected[id], actual[id])
  }

  /** Only records nobody expected are reported, and all of them are. */
  ghost predicate OnlyUnexpected(expected: Reconcile.Records, actual: Reconcile.Records) {
    forall d :: d in Reconcile.Compared(expected, actual) <==>
                d.UnexpectedInErp? && d.externalId in actual && d.externalId !in expected
  }

  lemma HeldMeansOnlyUnexpected(expected: Reconcile.Records, actual: Reconcile.Records)
    requires AllHeld(expected, actual)
    ensures OnlyUnexpected(expected, actual)
  {
    forall d ensures d in Reconcile.Compared(expected, actual) <==>
                     d.UnexpectedInErp? && d.externalId in actual && d.externalId !in expected
    {
      Reconcile.ReportMembers(expected, actual, d);
    }
  }

  function Only(actual: Reconcile.Records, ids: set<string>): Reconcile.Records {
    map id | id in actual && id in ids :: actual[id]
  }

  lemma HeldAloneIsClean(expected: Reconcile.Records, actual: Reconcile.Records)
    requires AllHeld(expected, actual)
    ensures Reconcile.Compared(expected, Only(actual, expected.Keys)) == []
  {
    Reconcile.NothingToReportIf(expected, Only(actual, expected.Keys));
  }

  lemma CompletedAreHeld(st: Store, s: State, p: Pair, targetModule: string, expected: Reconcile.Records)
    requires Told(st, s) && Completed(s, p, targetModule, expected)
    ensures AllHeld(expected, Scope(s.store, p, targetModule))
  {
    forall id | id in expected
      ensures id in Scope(s.store, p, targetModule) && Reconcile.Agrees(expected[id], Scope(s.store, p, targetModule)[id])
    {
      CompletedAgrees(st, s, p, targetModule, expected, id);
    }
  }

  /** After any run, over whatever the ERP held: reconciling completed payloads, each its
      record's only writer's, with the whole module reports exactly the records that are not
      among them, so never a missing record or a differing field; and with those records
      alone, nothing. */
  lemma CompletedWritesReconcile(cfg: Config, st: Store, events: seq<Event>, p: Pair, targetModule: string,
                                 expected: Reconcile.Records)
    requires FreshRun(cfg, Start(st), events)
    requires Completed(Run(cfg, Start(st), events), p, targetModule, expected)
    ensures var actual := Scope(Run(cfg, Start(st), events).store, p, targetModule);
            && AllHeld(expected, actual) && OnlyUnexpected(expected, actual)
            && Reconcile.Compared(expected, Only(actual, expected.Keys)) == []
  {
    var s := Run(cfg, Start(st), events);
    var actual := Scope(s.store, p, targetModule);
    RunTold(cfg, st, events);
    CompletedAreHeld(st, s, p, targetModule, expected);
    HeldMeansOnlyUnexpected(expected, actual);
    HeldAloneIsClean(expected, actual);
  }
}
