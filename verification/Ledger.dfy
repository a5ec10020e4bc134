/**
 The double-entry books (agents/ledger/ledger.py) and the sales that Forge posts to
 them (agents/forge/forge.py).
 */
module Ledger {
  import opened Prelude

  datatype Direction = Debit | Credit

  datatype JournalLine = JournalLine(account: string, direction: Direction, amountMinor: int)

  datatype JournalEntry = JournalEntry(
    entryId: string, tenantId: string, currency: string, lines: seq<JournalLine>, memo: Option<string>)

  function Total(lines: seq<JournalLine>, d: Direction): int {
    if lines == [] then 0
    else
      var last := |lines| - 1;
      Total(lines[..last], d) + if lines[last].direction == d then lines[last].amountMinor else 0
  }

  /** Debits equal credits, and money moved. */
  predicate IsBalanced(e: JournalEntry) {
    Total(e.lines, Debit) == Total(e.lines, Credit) && Total(e.lines, Debit) > 0
  }

  datatype Status = Posted | Duplicate

  datatype LedgerError = UnbalancedEntry

  datatype PostResult = PostResult(entryId: string, currency: string, status: Status, totalMinor: int, lineCount: nat)

  /** The books: the entries inserted, in order. */
  type Journal = seq<JournalEntry>

  predicate Holds(journal: Journal, id: string) {
    exists i :: 0 <= i < |journal| && journal[i].entryId == id
  }

  function Inserted(journal: Journal, e: JournalEntry): Journal {
    if Holds(journal, e.entryId) then journal else journal + [e]
  }

  /** One `post`: an unbalanced entry is refused, any other is inserted or skipped. */
  function PostedTo(journal: Journal, e: JournalEntry): Journal {
    if IsBalanced(e) then Inserted(journal, e) else journal
  }

  function Answer(journal: Journal, e: JournalEntry): Result<PostResult, LedgerError> {
    if !IsBalanced(e) then Err(UnbalancedEntry)
    else Ok(PostResult(e.entryId, e.currency, if Holds(journal, e.entryId) then Duplicate else Posted,
                       Total(e.lines, Debit), |e.lines|))
  }

  function Books(entries: seq<JournalEntry>): Journal {
    if entries == [] then []
    else PostedTo(Books(entries[..|entries| - 1]), entries[|entries| - 1])
  }

  class InMemoryLedgerStore {
    var entries: map<string, JournalEntry>
    ghost var journal: Journal

    constructor ()
      ensures Valid() && journal == []
    {
      entries, journal := map[], [];
    }

    ghost predicate Valid()
      reads this
    {
      && (forall i :: 0 <= i < |journal| ==> journal[i].entryId in entries && entries[journal[i].entryId] == journal[i])
      && (forall id :: id in entries ==> Holds(journal, id))
    }

    /** Tenant-scoped: an entry is visible to its owner only. */
    method Get(tenantId: string, entryId: string) returns (r: Option<JournalEntry>)
      requires Valid()
      ensures r == Visible(journal, tenantId, entryId)
    {
      if entryId !in entries || entries[entryId].tenantId != tenantId {
        VisibleIff(journal, tenantId, entryId);
        return None;
      }
      VisibleIff(journal, tenantId, entryId);
      return Some(entries[entryId]);
    }

    /** Atomic under the store's lock. */
    method InsertIfAbsent(e: JournalEntry) returns (inserted: bool)
      requires Valid()
      modifies this
      ensures Valid() && journal == Inserted(old(journal), e)
      ensures inserted <==> !Holds(old(journal), e.entryId)
    {
      if e.entryId in entries {
        return false;
      }
      forall id | id in entries ensures Holds(journal + [e], id) {
        var i :| 0 <= i < |journal| && journal[i].entryId == id;
        assert (journal + [e])[i].entryId == id;
      }
      assert (journal + [e])[|journal|].entryId == e.entryId;
      entries := entries[e.entryId := e];
      journal := journal + [e];
      return true;
    }
  }

  method Post(store: InMemoryLedgerStore, e: JournalEntry) returns (r: Result<PostResult, LedgerError>)
    requires store.Valid()
    modifies store
    ensures store.Valid() && store.journal == PostedTo(old(store.journal), e)
    ensures r == Answer(old(store.journal), e)
  {
    if !IsBalanced(e) {
      return Err(UnbalancedEntry);
    }
    var inserted := store.InsertIfAbsent(e);
    var status := if inserted then Posted else Duplicate;
    return Ok(PostResult(e.entryId, e.currency, status, Total(e.lines, Debit), |e.lines|));
  }

  function Visible(journal: Journal, tenantId: string, entryId: string): Option<JournalEntry> {
    if journal == [] then None
    else
      var last := journal[|journal| - 1];
      if last.entryId == entryId && last.tenantId == tenantId then Some(last)
      else Visible(journal[..|journal| - 1], tenantId, entryId)
  }

  lemma {:induction false} VisibleIff(journal: Journal, tenantId: string, entryId: string)
    ensures var r := Visible(journal, tenantId, entryId);
            if r.None? then forall i :: 0 <= i < |journal| && journal[i].entryId == entryId ==> journal[i].tenantId != tenantId
            else r.value in journal && r.value.entryId == entryId && r.value.tenantId == tenantId
  {
    if journal != [] { VisibleIff(journal[..|journal| - 1], tenantId, entryId); }
  }

  // --- Conservation -------------------------------------------------------------------

  /** One side of one tenant's books in one currency. */
  function Side(journal: Journal, tenantId: string, currency: string, d: Direction): int {
    if journal == [] then 0
    else
      var last := journal[|journal| - 1];
      Side(journal[..|journal| - 1], tenantId, currency, d)
      + if last.tenantId == tenantId && last.currency == currency then Total(last.lines, d) else 0
  }

  predicate DistinctEntries(journal: Journal) {
    forall i, j :: 0 <= i < j < |journal| ==> journal[i].entryId != journal[j].entryId
  }

  /** Over any sequence of posts, every tenant's books balance in every currency and no entry id is in them twice. */
  lemma {:induction false} BooksBalance(entries: seq<JournalEntry>, tenantId: string, currency: string)
    ensures Side(Books(entries), tenantId, currency, Debit) == Side(Books(entries), tenantId, currency, Credit)
    ensures DistinctEntries(Books(entries))
    ensures forall i :: 0 <= i < |Books(entries)| ==> IsBalanced(Books(entries)[i])
  {
    if entries != [] {
      var last := |entries| - 1;
      BooksBalance(entries[..last], tenantId, currency);
      var before := Books(entries[..last]);
      assert (before + [entries[last]])[..|before|] == before;
    }
  }

  lemma {:induction false} BooksHold(entries: seq<JournalEntry>, id: string)
    ensures Holds(Books(entries), id) <==> exists k :: 0 <= k < |entries| && IsBalanced(entries[k]) && entries[k].entryId == id
  {
    if entries != [] {
      var last := |entries| - 1;
      var before, after := Books(entries[..last]), Books(entries);
      BooksHold(entries[..last], id);
      if i :| 0 <= i < |before| && before[i].entryId == id { assert after[i].entryId == id; }
      if k :| 0 <= k < last && IsBalanced(entries[..last][k]) && entries[..last][k].entryId == id {
        assert IsBalanced(entries[k]) && entries[k].entryId == id;
      }
      if k :| 0 <= k < |entries| && IsBalanced(entries[k]) && entries[k].entryId == id {
        if k < last {
          assert IsBalanced(entries[..last][k]) && entries[..last][k].entryId == id;
        } else if !Holds(before, id) {
          assert after[|before|].entryId == id;
        }
      }
      if i :| 0 <= i < |after| && after[i].entryId == id {
        if i < |before| { assert before[i].entryId == id; }
      }
    }
  }

  /** The k-th post is answered `posted` exactly when its entry is balanced and no
      balanced entry with its id, of any tenant, was posted before; such an entry is
      answered `duplicate` otherwise. */
  lemma PostedExactlyOnce(entries: seq<JournalEntry>, k: nat)
    requires k < |entries|
    ensures var r := Answer(Books(entries[..k]), entries[k]);
            && (r.Ok? <==> IsBalanced(entries[k]))
            && (r.Ok? && r.value.status == Posted <==>
                  IsBalanced(entries[k]) &&
                  forall j :: 0 <= j < k && IsBalanced(entries[j]) ==> entries[j].entryId != entries[k].entryId)
            && (r.Err? ==> r == Err(UnbalancedEntry))
            && (r.Ok? ==>
                  && r.value.entryId == entries[k].entryId && r.value.currency == entries[k].currency
                  && r.value.totalMinor == Total(entries[k].lines, Debit) == Total(entries[k].lines, Credit) > 0
                  && r.value.lineCount == |entries[k].lines|)
  {
    var id := entries[k].entryId;
    BooksHold(entries[..k], id);
    if j :| 0 <= j < k && IsBalanced(entries[j]) && entries[j].entryId == id {
      assert IsBalanced(entries[..k][j]) && entries[..k][j].entryId == id;
    }
  }

  /** After a balanced post the entry's owner can see an entry under its id, unless
      another tenant holds the id: then the post is answered `duplicate` although the
      owner's own books have nothing. */
  lemma VisibleAfterPostIff(journal: Journal, e: JournalEntry)
    requires IsBalanced(e) && DistinctEntries(journal)
    ensures Visible(PostedTo(journal, e), e.tenantId, e.entryId).Some? <==>
            forall i :: 0 <= i < |journal| && journal[i].entryId == e.entryId ==> journal[i].tenantId == e.tenantId
  {
    var after := PostedTo(journal, e);
    VisibleIff(after, e.tenantId, e.entryId);
    if Holds(journal, e.entryId) {
      var i :| 0 <= i < |journal| && journal[i].entryId == e.entryId;
    } else {
      assert after[|journal|] == e;
    }
  }

  /** Two tenants, one entry id: the second is told `duplicate` and sees nothing. */
  lemma OtherTenantsIdIsTaken(first: JournalEntry, second: JournalEntry)
    requires IsBalanced(first) && IsBalanced(second)
    requires first.entryId == second.entryId && first.tenantId != second.tenantId
    ensures Answer([first], second).value.status == Duplicate
    ensures Visible(PostedTo([first], second), second.tenantId, second.entryId) == None
  {
    assert [first][0].entryId == second.entryId;
    VisibleAfterPostIff([first], second);
  }

  // --- Concurrent workers ----------------------------------------------------------------

  /** Where a worker is in `post`: past the balance check, or done. */
  datatype Worker = Ready | Checked(entry: JournalEntry)

  datatype Step = Begin(worker: nat, entry: JournalEntry) | Insert(worker: nat)

  /** `inserts` are the entries that reached the store, in that order; `answers` what
      the workers returned, in the order they did. */
  datatype Ledgers = Ledgers(
    journal: Journal, workers: map<nat, Worker>, inserts: seq<JournalEntry>,
    answers: seq<(JournalEntry, Result<PostResult, LedgerError>)>)

  const CLOSED_BOOKS: Ledgers := Ledgers([], map[], [], [])

  function WorkerOf(s: Ledgers, w: nat): Worker { if w in s.workers then s.workers[w] else Ready }

  /** A worker checks its entry on its own and inserts it under the store's lock; any
      number of other workers may act in between. A step a worker cannot take changes nothing. */
  function Worked(s: Ledgers, step: Step): Ledgers {
    match step
    case Begin(w, e) =>
      if !WorkerOf(s, w).Ready? then s
      else if !IsBalanced(e) then s.(answers := s.answers + [(e, Err(UnbalancedEntry))])
      else s.(workers := s.workers[w := Checked(e)])
    case Insert(w) =>
      if WorkerOf(s, w).Ready? then s
      else
        var e := WorkerOf(s, w).entry;
        s.(journal := Inserted(s.journal, e), workers := s.workers[w := Ready],
           inserts := s.inserts + [e], answers := s.answers + [(e, Answer(s.journal, e))])
  }

  function WorkedAll(steps: seq<Step>): Ledgers {
    if steps == [] then CLOSED_BOOKS
    else Worked(WorkedAll(steps[..|steps| - 1]), steps[|steps| - 1])
  }

  predicate Wins(a: (JournalEntry, Result<PostResult, LedgerError>), id: string) {
    a.0.entryId == id && a.1.Ok? && a.1.value.status == Posted
  }

  /** How many workers were told `posted` for an entry id. */
  function Winners(answers: seq<(JournalEntry, Result<PostResult, LedgerError>)>, id: string): nat {
    if answers == [] then 0
    else Winners(answers[..|answers| - 1], id) + if Wins(answers[|answers| - 1], id) then 1 else 0
  }

  lemma WinnersAppend(answers: seq<(JournalEntry, Result<PostResult, LedgerError>)>,
                      a: (JournalEntry, Result<PostResult, LedgerError>), id: string)
    ensures Winners(answers + [a], id) == Winners(answers, id) + if Wins(a, id) then 1 else 0
  {
    assert (answers + [a])[..|answers|] == answers;
  }

  lemma InsertedHolds(journal: Journal, e: JournalEntry, id: string)
    ensures Holds(Inserted(journal, e), id) <==> Holds(journal, id) || e.entryId == id
  {
    var after := Inserted(journal, e);
    if i :| 0 <= i < |journal| && journal[i].entryId == id { assert after[i].entryId == id; }
    if !Holds(journal, e.entryId) { assert after[|journal|].entryId == e.entryId; }
  }

  /** The books are those of the inserts so far, all of balanced entries, and the answers agree. */
  ghost predicate Settled(s: Ledgers, id: string) {
    && s.journal == Books(s.inserts)
    && (forall w :: w in s.workers && s.workers[w].Checked? ==> IsBalanced(s.workers[w].entry))
    && Winners(s.answers, id) == if Holds(s.journal, id) then 1 else 0
  }

  lemma BeginSettled(s: Ledgers, w: nat, e: JournalEntry, id: string)
    requires Settled(s, id)
    ensures Settled(Worked(s, Begin(w, e)), id)
  {
    WinnersAppend(s.answers, (e, Err(UnbalancedEntry)), id);
  }

  lemma InsertSettled(s: Ledgers, w: nat, id: string)
    requires Settled(s, id)
    ensures Settled(Worked(s, Insert(w)), id)
  {
    if WorkerOf(s, w).Checked? {
      var e := WorkerOf(s, w).entry;
      WinnersAppend(s.answers, (e, Answer(s.journal, e)), id);
      InsertedHolds(s.journal, e, id);
      assert (s.inserts + [e])[..|s.inserts|] == s.inserts;
    }
  }

  /** However workers interleave, the books are those of the inserts in order, of balanced
      entries only, and each entry id in them has exactly one winner, any other none. */
  lemma {:induction false} OneWinnerPerEntry(steps: seq<Step>, id: string)
    ensures Settled(WorkedAll(steps), id)
  {
    if steps != [] {
      var last := |steps| - 1;
      OneWinnerPerEntry(steps[..last], id);
      var s := WorkedAll(steps[..last]);
      if steps[last].Begin? {
        BeginSettled(s, steps[last].worker, steps[last].entry, id);
      } else {
        InsertSettled(s, steps[last].worker, id);
      }
    }
  }

  /** So concurrent posting conserves money: every tenant's books balance in every currency. */
  lemma ConcurrentBooksBalance(steps: seq<Step>, tenantId: string, currency: string)
    ensures var journal := WorkedAll(steps).journal;
            Side(journal, tenantId, currency, Debit) == Side(journal, tenantId, currency, Credit) && DistinctEntries(journal)
  {
    OneWinnerPerEntry(steps, "");
    BooksBalance(WorkedAll(steps).inserts, tenantId, currency);
  }

  // --- Sales ---------------------------------------------------------------------------

  datatype WorkOrderState = Created | InProgress | Completed | Cancelled

  predicate Allowed(from: WorkOrderState, to: WorkOrderState) {
    match from
    case Created => to == InProgress || to == Cancelled
    case InProgress => to == Completed || to == Cancelled
    case Completed => false
    case Cancelled => false
  }

  datatype ForgeError = InvalidTransition

  datatype WorkOrder = WorkOrder(
    workOrderId: string, tenantId: string, sku: string, quantity: int, unitPriceMinor: int,
    currency: string, taxRateBps: int, state: WorkOrderState)
  {
    function Net(): int { quantity * unitPriceMinor }

    /** Floor division, as in the source: Dafny's agrees with Python's for a positive divisor. */
    function Tax(): int { Net() * taxRateBps / 10000 }

    function Gross(): int { Net() + Tax() }

    function TransitionTo(to: WorkOrderState): Result<WorkOrder, ForgeError> {
      if Allowed(state, to) then Ok(this.(state := to)) else Err(InvalidTransition)
    }
  }

  function Begun(o: WorkOrder): Result<WorkOrder, ForgeError> { o.TransitionTo(InProgress) }

  function Cancel(o: WorkOrder): Result<WorkOrder, ForgeError> { o.TransitionTo(Cancelled) }

  /** An order starts once, is completed only when started, and can be cancelled until it is
      completed or cancelled; nothing but its state changes. */
  lemma OrderTransitionsIff(o: WorkOrder, to: WorkOrderState)
    ensures o.TransitionTo(to).Ok? <==>
            || (o.state == Created && (to == InProgress || to == Cancelled))
            || (o.state == InProgress && (to == Completed || to == Cancelled))
    ensures o.TransitionTo(to).Ok? ==> o.TransitionTo(to).value == o.(state := to)
    ensures Begun(o).Ok? <==> o.state == Created
    ensures Cancel(o).Ok? <==> o.state == Created || o.state == InProgress
  {
  }

  const RECEIVABLE: string := "1100-accounts-receivable"
  const REVENUE: string := "4000-revenue"
  const TAX_PAYABLE: string := "2200-tax-payable"

  function RevenueLines(o: WorkOrder): seq<JournalLine> {
    [JournalLine(RECEIVABLE, Debit, o.Gross()), JournalLine(REVENUE, Credit, o.Net())]
    + if o.Tax() != 0 then [JournalLine(TAX_PAYABLE, Credit, o.Tax())] else []
  }

  /** The name from which the entry id is derived. */
  function EntryName(o: WorkOrder): string { o.tenantId + ":" + o.workOrderId }

  predicate SharesName(a: WorkOrder, b: WorkOrder) {
    (a.tenantId, a.workOrderId) != (b.tenantId, b.workOrderId) && EntryName(a) == EntryName(b)
  }

  /** Complete an order; `uuid5` derives the entry id, `memo` renders the memo text. */
  function Complete(o: WorkOrder, uuid5: string -> string, memo: WorkOrder -> string): Result<(WorkOrder, JournalEntry), ForgeError> {
    match o.TransitionTo(Completed)
    case Err(e) => Err(e)
    case Ok(done) =>
      Ok((done, JournalEntry(uuid5(EntryName(done)), done.tenantId, done.currency, RevenueLines(done), Some(memo(done)))))
  }

  lemma RevenueTotals(o: WorkOrder)
    ensures Total(RevenueLines(o), Debit) == o.Gross() && Total(RevenueLines(o), Credit) == o.Net() + o.Tax()
  {
    var l := RevenueLines(o);
    assert l[..1][..0] == [] && l[..2][..1] == l[..1];
    assert |l| == 2 ==> l[..2] == l;
    assert |l| == 3 ==> l[..3] == l && l[..3][..2] == l[..2];
    assert Total(l[..1], Debit) == o.Gross() && Total(l[..1], Credit) == 0;
    assert Total(l[..2], Debit) == o.Gross() && Total(l[..2], Credit) == o.Net();
  }

  /** What an entry books to one account, on one side. */
  function Booked(lines: seq<JournalLine>, account: string, d: Direction): int {
    if lines == [] then 0
    else
      var last := |lines| - 1;
      Booked(lines[..last], account, d)
      + if lines[last].account == account && lines[last].direction == d then lines[last].amountMinor else 0
  }

  lemma BookedThree(a: JournalLine, b: JournalLine, c: JournalLine, account: string, d: Direction)
    ensures Booked([a, b], account, d) == AmountFor(a, account, d) + AmountFor(b, account, d)
    ensures Booked([a, b, c], account, d) == AmountFor(a, account, d) + AmountFor(b, account, d) + AmountFor(c, account, d)
  {
    assert [a, b, c][..2] == [a, b] && [a, b][..1] == [a] && [a][..0] == [];
    assert Booked([a], account, d) == AmountFor(a, account, d);
  }

  function AmountFor(line: JournalLine, account: string, d: Direction): int {
    if line.account == account && line.direction == d then line.amountMinor else 0
  }

  lemma AccountsDiffer()
    ensures "1100-accounts-receivable" != "4000-revenue" && "4000-revenue" != "2200-tax-payable"
    ensures "2200-tax-payable" != "1100-accounts-receivable"
  {
  }

  /** Who owes what after a sale: the customer the gross, revenue the net and the tax office the
      tax, and no other account anything; a tax line is there exactly when there is tax. */
  lemma SaleIsBooked(o: WorkOrder, account: string, d: Direction)
    ensures var net := o.quantity * o.unitPriceMinor;
            var tax := net * o.taxRateBps / 10000;
            Booked(RevenueLines(o), account, d) ==
            if account == "1100-accounts-receivable" && d == Debit then net + tax
            else if account == "4000-revenue" && d == Credit then net
            else if account == "2200-tax-payable" && d == Credit then tax
            else 0
    ensures (exists line :: line in RevenueLines(o) && line.account == "2200-tax-payable") <==> o.Tax() != 0
  {
    var receivable, revenue := JournalLine(RECEIVABLE, Debit, o.Gross()), JournalLine(REVENUE, Credit, o.Net());
    var tax := JournalLine(TAX_PAYABLE, Credit, o.Tax());
    AccountsDiffer();
    BookedThree(receivable, revenue, tax, account, d);
    if o.Tax() != 0 {
      assert RevenueLines(o) == [receivable, revenue, tax];
      assert tax in RevenueLines(o);
    } else {
      assert RevenueLines(o) == [receivable, revenue];
    }
  }

  /** An order is completed exactly from in progress, in nothing but its state; its entry is its
      tenant's, in its currency, under the id derived from tenant and order. */
  lemma CompletionIff(o: WorkOrder, uuid5: string -> string, memo: WorkOrder -> string)
    ensures Complete(o, uuid5, memo).Ok? <==> o.state == InProgress
    ensures Complete(o, uuid5, memo).Ok? ==>
              var (done, e) := Complete(o, uuid5, memo).value;
              && done == o.(state := Completed)
              && e.tenantId == o.tenantId && e.currency == o.currency
              && e.entryId == uuid5(o.tenantId + ":" + o.workOrderId)
              && e.lines == RevenueLines(o)
  {
  }

  /** Tax is the rate's share of the net, rounded down, for any sign of the amounts; the
      entry's two sides are always equal; and the books accept it exactly when the gross
      is positive, posting it exactly when its id is new. */
  lemma SalesAreBalanced(o: WorkOrder, uuid5: string -> string, memo: WorkOrder -> string, journal: Journal)
    requires o.state == InProgress
    ensures 0 <= o.Net() * o.taxRateBps - 10000 * o.Tax() < 10000
    ensures var e := Complete(o, uuid5, memo).value.1;
            && Total(e.lines, Debit) == Total(e.lines, Credit) == o.Gross()
            && (Answer(journal, e).Ok? <==> o.Gross() > 0)
            && (Answer(journal, e).Ok? && Answer(journal, e).value.status == Posted <==>
                  o.Gross() > 0 && !Holds(journal, e.entryId))
  {
    RevenueTotals(o.(state := Completed));
  }

  /** An order completes once; replaying its completion from the event posts nothing new. */
  lemma ReplayPostsNothing(o: WorkOrder, uuid5: string -> string, memo: WorkOrder -> string, journal: Journal)
    requires o.state == InProgress
    ensures var (done, e) := Complete(o, uuid5, memo).value;
            && Complete(done, uuid5, memo) == Err(InvalidTransition)
            && PostedTo(PostedTo(journal, e), e) == PostedTo(journal, e)
  {
    var e := Complete(o, uuid5, memo).value.1;
    if IsBalanced(e) && !Holds(journal, e.entryId) {
      assert PostedTo(journal, e)[|journal|].entryId == e.entryId;
    }
  }

  lemma SharesNameIff(a: WorkOrder, b: WorkOrder)
    ensures SharesName(a, b) <==> Collide(a.tenantId, a.workOrderId, b.tenantId, b.workOrderId, ':')
  {
  }

  lemma CanShareNameIf(a: string, c: string)
    requires Clash(a, c, ':')
    ensures exists x: WorkOrder, y: WorkOrder :: x.tenantId == a && y.tenantId == c && SharesName(x, y)
  {
    CollideIff(a, c, ':');
    var v, w :| Collide(a, v, c, w, ':');
    var x := WorkOrder(v, a, "", 0, 0, "", 0, Created);
    var y := x.(workOrderId := w, tenantId := c);
    SharesNameIff(x, y);
  }

  /** Two different sales of two tenants can share one entry name exactly when one tenant's
      id is the other's followed by a colon and more: a condition on the ids alone. */
  lemma NamesCollideIff(a: string, c: string)
    ensures (exists x: WorkOrder, y: WorkOrder :: x.tenantId == a && y.tenantId == c && SharesName(x, y)) <==> Clash(a, c, ':')
  {
    if x: WorkOrder, y: WorkOrder :| x.tenantId == a && y.tenantId == c && SharesName(x, y) {
      SharesNameIff(x, y);
      CollideIff(a, c, ':');
    }
    if Clash(a, c, ':') { CanShareNameIf(a, c); }
  }

  /** So names tell the sales of tenants that do not clash apart, colons or not. */
  lemma NamesAreDistinct(a: WorkOrder, b: WorkOrder)
    requires !Clash(a.tenantId, b.tenantId, ':') && EntryName(a) == EntryName(b)
    ensures a.tenantId == b.tenantId && a.workOrderId == b.workOrderId
  {
    if SharesName(a, b) { NamesCollideIff(a.tenantId, b.tenantId); }
  }

  /** Tenants that clash: two tenants' sales can share one entry id. */
  lemma NamesCanCollide(a: WorkOrder, b: WorkOrder)
    requires a.tenantId == "acme:eu" && a.workOrderId == "7"
    requires b.tenantId == "acme" && b.workOrderId == "eu:7"
    ensures EntryName(a) == EntryName(b)
  {
    assert EntryName(a) == "acme:eu:7" && EntryName(b) == "acme:eu:7";
  }
}
