# Cavi ERP: verified model

Cavi ERP moves events between agents, writes approved changes into customers' ERPs, keeps
double-entry books and keeps a hash-chained audit log. This project models its hardest parts
and proves what they promise over all inputs, all runs and all interleavings.

| file | what it models |
|---|---|
| `Prelude.dfy`, `Periods.dfy` | JSON values with Python's `==`, string order, `sorted`, counting periods of time |
| `Breaker.dfy` | the circuit breaker: object, value transitions, call histories, outage bound |
| `Writes.dfy` | one ERP write: state machine, dry-run diff, coordinator, batch loop, the ERP as an upsert |
| `WriteProtocol.dfy` | one call of the write agent's `handle` as a step of a state machine, and runs of it |
| `WriteAgent.dfy` | the agent itself, an object updating its maps and breakers, proved to perform those steps |
| `Lifecycle.dfy`, `ExactlyOnce.dfy`, `Previews.dfy`, `TenantIndependence.dfy`, `AgentOutage.dfy`, `Replays.dfy`, `Reconciliation.dfy`, `Decisions.dfy` | theorems about every run of the agent |
| `Audit.dfy`, `EventStores.dfy`, `AuditExport.dfy` | the hash chain and its verifier, the two stores, the export |
| `Mapper.dfy`, `RecordMappings.dfy` | the version-path search, and the NetSuite record mappings |
| `OAuth.dfy` | OAuth 1.0a base string and header, with parsers that read them back |
| `Reconcile.dfy`, `Ledger.dfy`, `Ticker.dfy` | reconciliation, the books with Forge's sales, the rate cache |

Code that changes things in place is a class or a method with loops, proved against a function
on values; the theorems are about that function, so they hold of the object. A whole run of the
agent object is the protocol's `Run` (`WriteAgent.HandleAll`).

## How the world is modelled

- A run of the write agent starts from a new agent over an ERP that may hold any records, and enters
  at `handle`. What the
  agent does not decide arrives with each event in `Env`: the id minted for a new write (never
  one already known), the dry-run reader (none, failing, or reading the ERP), the two clock
  readings of the breaker, and the ERP's answer. Publishing succeeds.
- The ERP may refuse a call before committing, commit and lose the answer, or commit and answer;
  the agent can only tell the last from the other two. A commit is a field-wise upsert at the
  address (tenant, ERP, module, external id).
- The log holds the published steps, the quarantined events, and each use of the breaker gate.
  Log entries carry the operation, since the published `requested` and `rejected` payloads carry
  no write id. `rejected` and `log` are ghost state: the agent does not keep them.
- The digest and the canonical JSON text are assumed injective, a digest is one line, and none is
  the genesis anchor (`Audit.IdealIsPossible`: these assumptions can be met). UUID parsing maps
  every spelling of a UUID to one canonical text, and does not accept the empty text.
- The Postgres append is a machine of atomic statements (take the lock, read the tip, insert or
  skip, commit, roll back) by any number of writers, in any order the advisory lock allows.

## Where the code does less than it says

Each is proved, with the exact condition and an example.

- **Export of an untouched log can fail.** `shared/events.py:45-49` says that verifying an export
  always reproduces the recorded hashes. The correlation id is normalised before hashing, but the
  event id is not, while its column stores a UUID. An event whose id is a UUID in another
  spelling is therefore reported as tampering; exactly these rows are
  (`AuditExport.ExportVerifiesIffCanonical`, `AuditExport.SpelledIdFailsExport`).
- **The two stores can disagree.** For the same reason the in-memory store keeps two spellings of
  one id as two events, Postgres as one row. They agree exactly when all committed ids are
  canonical (`EventStores.RefinesMemoryIffCanonical`, `EventStores.SpellingsSplitTheStores`).
- **Parameters can be signed out of order.** Section 3.4.1.3.2 of RFC 5849 sorts encoded names;
  the code sorts raw ones. The orders agree exactly when no two names first differ at an
  unreserved character that precedes a reserved one (`OAuth.RfcOrderIff`, `OAuth.RfcOrderCanFail`).
- **A retyped field is not shown.** The diff compares with Python's `==`, for which `True`
  equals `1` and `False` equals `0`, so a write that changes only a type reads as "no field changes"
  (`Writes.DiffMeansTheWrite`, `Writes.RetypeIsNotShown`).
- **Reconciliation cannot see a null put into an absent field**, which the diff does show
  (`Reconcile.DiffAndCompareAgree`, `Reconcile.NullIsNotReconciled`).
- **`duplicate` does not mean that the poster's books have the entry.** Entry ids are global, reads
  are per tenant (`Ledger.VisibleAfterPostIff`, `Ledger.OtherTenantsIdIsTaken`).
- **Colons collide.** Two tenants' sales can share the name their entry id is derived from exactly
  when one tenant's id is the other's followed by a colon and more (`Ledger.NamesCollideIff`, `Ledger.NamesCanCollide`). The
  rate cache can answer for the wrong pair exactly when that holds of two upper-cased base codes
  (`Ticker.PairsToldApartIff`, `Ticker.WrongRateServed`).
- **A plain proposal may claim to reverse anything**, even itself: `reverses` is taken as given
  (`agents/forge/write.py:307-330`). A request points to a write of its pair completed before
  exactly when that write is among the agent's completed ones, for that pair, at that moment;
  `_reverse` checks this, `_propose` does not (`Lifecycle.RequestPointsBackIff`,
  `Lifecycle.ProposalMayReverseNothing`).
- **A late replay can undo a completed write.** Retrying a create makes no second record, but it
  sends the old values again, over an update completed since (`Replays.ReplayUndoesUpdate`). A field
  of the record survives exactly when the write does not send it, or the last sender so far sent
  that very value (`Replays.ReplayKeepsFieldIff`); the whole record does exactly when a fresh dry run
  finds it, shows no field changes, and nothing is retyped (`Replays.ReplayIsHarmlessIff`).
- **A failed execution can leave no event to drive again.** `agents/forge/write_agent.py:149-153`
  speaks of a dead-lettered decision re-driven after an execute failure, but the decision is
  quarantined neither when the breaker stays closed nor after a failed probe. No event follows
  exactly when the breaker admits, the ERP does not answer, and the failure is not the threshold-th
  in a row of its pair (`Replays.FailsSilentlyIff`, `Replays.FirstFailureIsSilent`).

## Model

| member | source | states |
|---|---|---|
| `Breaker.CircuitBreaker.Check` | agents/forge/breaker.py:60-86 | the gate admits when closed or for the one half-open probe, and changes nothing but the probing flag |
| `Breaker.CircuitBreaker.RecordFailure` | agents/forge/breaker.py:93-103 | counts, restarts the cooldown on a trip or re-trip, and returns whether the breaker just opened |
| `Breaker.CircuitBreaker.RecordSuccess` | agents/forge/breaker.py:88-91 | a success makes the breaker as new |
| `Breaker.StateFromHistory` | agents/forge/breaker.py:56-103 | after any calls the three fields are what the history says: failures since the last success, open since the last failure if they reach the threshold, probing if a check found the cooldown over since the last report |
| `Breaker.AdmittedIff` | agents/forge/breaker.py:68-86 | over any history, a check is let through exactly when the threshold is not reached, or the cooldown is over and no probe is out |
| `Breaker.EscalatesIff` | agents/forge/breaker.py:93-103 | over any history, a failure escalates exactly when it is the threshold-th since the last success |
| `Breaker.OneProbePerReport` | agents/forge/breaker.py:69-77 | in half-open, every check after the first is refused until a report, whatever the clock says |
| `Breaker.AttemptsStaySettled` | agents/forge/write_agent.py:177-207 | check, call, report never leaves the breaker probing |
| `Breaker.OutagePace` | agents/forge/breaker.py:60-103 | with no success, the k-th ERP call past the threshold waits for k whole cooldowns |
| `Breaker.OutageBound` | agents/forge/breaker.py:60-103 | with no success, a span of length T lets at most threshold + floor(T / cooldown) ERP calls through |
| `Writes.CreatesNeverShareAnAddress` | agents/forge/write.py:89-109 | the addresses of two creates differ if their ids do |
| `Writes.TransitionsIff` | agents/forge/write.py:47-52 | decide once: the three transitions and no others, changing nothing but the state |
| `Writes.AddressRules` | agents/forge/write.py:103-109 | an update goes to the record it names, a write without a name, or with an empty one, to its own key |
| `Prelude.SameScalarsIff` | agents/forge/write.py:184 | among scalars Python's comparison equates True and 1, False and 0, and otherwise only a value with itself |
| `Prelude.SameTransitive` | agents/forge/write.py:184 | the comparison is transitive |
| `Prelude.LessIsLexicographic` | agents/forge/write.py:180 | keys are sorted lexicographically, a proper prefix first |
| `Writes.RenderDiff` | agents/forge/write.py:165-189 | the loop yields the diff of the sorted payload fields, and whether the record exists |
| `Writes.DiffMeansTheWrite` | agents/forge/write.py:165-189 | carrying out the diff's lines gives a record equal to the upsert, the very same one exactly when no field is retyped; the diff is empty exactly when the upsert leaves an equal record |
| `Writes.RetypeIsNotShown` | agents/forge/write.py:184-188 | a write of 1 over True has an empty diff and does change the record |
| `Writes.MinusLinesAreTrue` | agents/forge/write.py:168-186 | a minus line shows the current value of a field the payload changes; no field absent from the payload is shown |
| `Writes.ReviewedDiffIsTheCommit` | agents/forge/write.py:332-340 | what is previewed under a working reader is what a commit leaves, from any later store that holds the same record |
| `Previews.RunPreviews` | agents/forge/write.py:332-340 | in every run, over any ERP, each derived preview shows the record as the ERP held it when the write was requested |
| `Previews.ReviewedDiffLands` | agents/forge/write.py:332-340 | in every run, over any ERP, if no other write reached the record since the preview, each commit of the write, retries included, leaves what carrying out the reviewed lines gives |
| `Replays.ReplayUndoesUpdate` | agents/forge/write_agent.py:149-156 | a run in which a create's lost answer, a completed update of its record and the replayed create leave the create's values |
| `Replays.ReplayKeepsFieldIff` | agents/forge/write_agent.py:149-156 | after any run, a replay whose call commits keeps a field of its record exactly when the write does not send it, or the last sender so far, or the ERP before the run, put that very value there |
| `Replays.ReplayIsHarmlessIff` | agents/forge/write.py:165-189 | such a replay leaves the ERP as it is exactly when the record exists, its diff is empty and no field is retyped |
| `Replays.FailsSilentlyIff` | agents/forge/write_agent.py:190-206 | after any run, a re-driven approval is neither completed nor quarantined exactly when the breaker admits, the ERP does not answer and this is not the threshold-th failure in a row of its pair |
| `Replays.FirstFailureIsSilent` | agents/forge/write_agent.py:190-206 | a run whose one failure leaves the write approved and nothing quarantined |
| `Replays.RunCounts` | agents/forge/breaker.py:93-99 | over any run a breaker's count is the number of its pair's ERP calls failed in a row |
| `Writes.RequestShape` | agents/forge/write.py:307-346 | a request fails only with the reader, and otherwise records the proposal unchanged but for its preview |
| `Writes.Execute` | agents/forge/write.py:404-421 | an unapproved write never reaches the ERP; an approved one does once, and completes exactly when answered |
| `Writes.ExecuteBatch` | agents/forge/write.py:423-451 | an unapproved member stops the batch before any ERP call; otherwise the ERP sees exactly the tried prefix and the report accounts for every write |
| `Writes.BatchAccounting` | agents/forge/write.py:269-286 | committed, failed and untried concatenate to the batch in order; it halts exactly when some answer fails; the report is the only one possible; it is partial exactly when the first answer committed and some later one failed |
| `WriteProtocol.RunKeepsKeys` | agents/forge/write_agent.py:76-77 | over any run pending, completed and rejected are disjoint, keyed by write id, and hold writes in the right states |
| `WriteAgent.ForgeWriteAgent.BreakerFor` | agents/forge/write_agent.py:79-84 | each pair gets its own breaker, made on first use, and no other pair's changes |
| `WriteAgent.ForgeWriteAgent.Propose` | agents/forge/write_agent.py:99-110 | a proposal is pending and published, or quarantined when the dry run fails |
| `WriteAgent.ForgeWriteAgent.ReverseWrite` | agents/forge/write_agent.py:112-138 | only a completed write gets a reversal, which is an ordinary pending write; as one protocol step |
| `WriteAgent.ForgeWriteAgent.Decide` | agents/forge/write_agent.py:140-172 | approval, replayed approval, rejection, unknown write and illegal decision, as one protocol step |
| `WriteAgent.ForgeWriteAgent.Execute` | agents/forge/write_agent.py:174-213 | gate, call, report and filing, as the protocol's execution |
| `WriteAgent.ForgeWriteAgent.Handle` | agents/forge/write_agent.py:90-96 | one call of `handle` on the object is one step of the protocol |
| `WriteAgent.HandleAll` | agents/forge/write_agent.py:90-213 | over any ERP, a whole run of the object is the protocol's run, so all theorems about runs are about it |
| `Decisions.EventsAnswerTriggers` | agents/forge/write_agent.py:99-172 | over any run each published event answers to its trigger: a request carries the proposal, or the reversal's own operation and payload, field by field; approvals are for the verdict "approve" on that write, rejections for another, each with the decision's reviewer |
| `Decisions.CallsWereApproved` | agents/forge/write_agent.py:147-160 | every ERP call follows a reviewer's own "approve" on that very operation |
| `Decisions.ReversalsCompensate` | agents/forge/write.py:376-386 | a compensating request carries the caller's operation and payload, without a target, in the module, tenant and ERP of the earlier completed write it names |
| `Decisions.OtherVerdictsReject` | agents/forge/write_agent.py:161-172 | any verdict but "approve" calls nothing and leaves the ERP alone; it rejects a write awaiting review, is quarantined on an approved one, and does nothing on an unknown one |
| `Decisions.ApprovalComesFirst` | agents/forge/write_agent.py:157-160 | a first "approve" publishes the approval before the breaker is asked, once |
| `Decisions.NothingIsDroppedSilently` | agents/forge/write_agent.py:90-206 | every event leaves a trace except one on another subject or on a write not pending; it is quarantined exactly on a failed dry run, an uncompleted reversal target, an illegal verdict, a refusing breaker or a tripping failure |
| `Decisions.PreviewIsDerived` | agents/forge/write.py:332-340 | with a reader the preview is derived and the caller's text ignored; without one it is that text, or says there is none |
| `Lifecycle.LogsFollowTheLifecycle` | agents/forge/write_agent.py:99-213 | in every run the log of each write is a prefix of requested, approved, completed or of requested, rejected, and says in which of the three maps the write is |
| `Lifecycle.ErpCallsFollowApproval` | agents/forge/write.py:411-415 | every ERP call is for an operation published as approved before, identical in every field, and not yet completed |
| `Lifecycle.ContentNeverChanges` | agents/forge/write.py:111-116 | what is requested, approved and completed under one id is one operation |
| `Lifecycle.ApprovedNeverLost` | agents/forge/write_agent.py:147-213 | from approval on, whatever follows, a write is pending and approved, unchanged, or completed |
| `Lifecycle.ReversalsPointBack` | agents/forge/write_agent.py:112-138 | a request made by the reverse trigger names the write the trigger named, completed earlier in the log, of the same tenant, ERP and module |
| `Lifecycle.RequestPointsBackIff` | agents/forge/write_agent.py:99-138 | in every run, whichever trigger made a request, it points to an earlier completed write of its pair exactly when that write was completed, for that pair, when the event was handled |
| `Lifecycle.ProposalMayReverseNothing` | agents/forge/write_agent.py:99-110 | a first proposal that claims to reverse any write at all is published and pending |
| `Lifecycle.RequestedOnce` | agents/forge/write_agent.py:109-110 | a write is published as requested at one place only |
| `Lifecycle.ReversalsAreAcyclic` | agents/forge/write.py:360-386 | no chain of links to completed writes, of any length and whichever triggers made them, returns to where it began |
| `ExactlyOnce.RecordsAreTold` | agents/forge/write.py:168-172 | after every run each ERP record is what it was before, with the upserts of the calls that committed to it, answered or not, in log order; and no other record appears |
| `ExactlyOnce.FieldsAreTold` | agents/forge/write.py:168-172 | a field of a record is what the last commit that sent it sent, and what it was before the run if none did |
| `ExactlyOnce.OneRecordPerWrite` | agents/forge/write.py:89-109 | under any retries and lost answers a write reaches at most the record it was approved for, none unless approved, and exactly it once completed |
| `ExactlyOnce.ExactlyOnceCreate` | agents/forge/write.py:404-421 | a completed create has reached exactly one record, under its key; if no other write reached that key, it holds one upsert of the payload over what was there before the run |
| `ExactlyOnce.CreatesAreSeparate` | agents/forge/write.py:103-109 | two creates never write one record |
| `TenantIndependence.TenantsAreIndependent` | agents/forge/write_agent.py:71-84 | in any interleaved run over any ERP, one pair's breaker, writes, ERP records and log are those of its own events run alone over its own records, which is itself a legitimate run |
| `TenantIndependence.OthersCannotMatter` | agents/forge/write_agent.py:71-84 | runs that agree on a pair's events and on its records at the start agree on everything of that pair |
| `AgentOutage.RunIsAttempts` | agents/forge/write_agent.py:174-213 | a run drives each breaker by exactly the check, call, report attempts it logs |
| `AgentOutage.RunStaysSettled` | agents/forge/write_agent.py:177-207 | no handler call leaves a breaker probing |
| `Replays.GateReopens` | agents/forge/breaker.py:60-77 | after any run, a cooldown after every failed ERP call of a pair, its breaker lets the next write through, whatever other pairs did |
| `Replays.ReplayCompletes` | agents/forge/write_agent.py:149-156 | progress: whatever follows an approval, one replay of it a cooldown after its own pair's failed calls completes the write if the ERP answers, unchanged and without a second approval |
| `AgentOutage.EscalatesIffTrips` | agents/forge/write_agent.py:196-205 | a handler call escalates for a pair exactly when it opens the pair's closed breaker |
| `AgentOutage.OneEscalationPerOutage` | agents/forge/breaker.py:93-102 | in any span of any run without a success for a pair, at most one handler call escalates for it |
| `AgentOutage.OutageCallsAreBounded` | agents/forge/write_agent.py:174-213 | in any span of any run without a success for a pair, its ERP calls number at most threshold + floor(T / cooldown) |
| `Audit.ChainHashInjective` | shared/audit.py:37-44 | the hashed text splits back, so equal hashes have equal predecessors and events |
| `Audit.MaterialReadsBack` | shared/audit.py:37-44 | the hash is the digest, behind the algorithm's name, of a text whose first line is the previous hash and whose rest is the event |
| `Audit.GenesisIsFixed` | shared/audit.py:26-27 | the anchor is the algorithm's name and 64 zeros |
| `Audit.IdealIsPossible` | shared/audit.py:37-44 | the assumptions made of hashing are consistent: any canonical text that tells events apart has a digest that meets them |
| `Audit.VerifyChain` | shared/audit.py:47-69 | the loop reports the positions where the chain breaks |
| `Audit.ReportedIffBroken` | shared/audit.py:51-68 | a position is reported exactly when its row does not follow from the recorded row before, once, in order |
| `Audit.SameHashSamePast` | shared/audit.py:40-41 | equal hashes in two clean logs stand at equal positions after equal pasts |
| `Audit.SameTipSameLog` | shared/audit.py:47-69 | two clean logs with one last hash are the same log |
| `Audit.TamperEvidence` | shared/audit.py:47-69 | any rows of an intact log, deleted, repeated or reordered, that still verify are a prefix of it |
| `Audit.PrefixesPass` | shared/audit.py:56-69 | every prefix verifies: the tail can be cut unnoticed |
| `Audit.EditIsLocated` | shared/audit.py:66-68 | changing one event is reported once, at its row |
| `Audit.DeletionIsLocated` | shared/audit.py:66-68 | deleting one row is reported once, at the gap, unless it is the last |
| `EventStores.InMemoryEventStore.RecordEvent` | shared/events.py:68-74 | appends the event with its chained hash unless its id is known |
| `EventStores.EnvelopeNormalises` | shared/events.py:45-54 | the hashed envelope is the event but for its correlation id: canonical if a UUID, else null |
| `EventStores.RowsHoldTheEvents` | shared/events.py:115-130 | after any interleaving each row holds its event, column by column |
| `EventStores.MemoryIsClean` | shared/events.py:56-74 | the in-memory store always holds a clean chain with distinct ids |
| `EventStores.MemoryHasId` | shared/events.py:69-74 | it holds every id recorded and no other |
| `EventStores.ReachableDbSound` | shared/events.py:100-130 | under any interleaving each row was made on top of the row before it, and past the lock there is one writer, about to extend the tip |
| `EventStores.ChainNeverForks` | shared/events.py:106-130 | the committed rows in sequence order are one clean chain from genesis with distinct ids |
| `EventStores.SpellingsSplitTheStores` | shared/events.py:68-74 | two spellings of one id: one row in the table, two entries in memory |
| `EventStores.RefinesMemoryIffCanonical` | shared/events.py:56-58 | the table equals the in-memory store run in commit order exactly when all committed ids are canonical |
| `AuditExport.LineIsEnvelope` | scripts/audit_export.py:25-43 | an export line carries the hashed envelope, correlation id included, exactly when the id is canonical; and its row's number and hash |
| `AuditExport.ExportVerifiesIffCanonical` | scripts/audit_export.py:46-48 | exporting any reachable table reports exactly the rows with other spellings of their id |
| `AuditExport.SpelledIdFailsExport` | shared/events.py:119-129 | one such event, recorded and exported, is reported |
| `AuditExport.ExportIsTamperEvident` | scripts/audit_export.py:46-48 | lines of an intact export that still verify are a prefix of it |
| `Mapper.Mapper.Register` | agents/mapper/mapper.py:44-48 | sets one transform and keeps the others |
| `Mapper.Mapper.FindPath` | agents/mapper/mapper.py:81-101 | terminates on cyclic graphs, answers None exactly when the target is unreachable, and otherwise the least of the shortest paths |
| `Mapper.AnswerIsUnique` | agents/mapper/mapper.py:85-100 | the answer depends only on what is registered, never on the order |
| `Mapper.AnswerIsAShortestPath` | agents/mapper/mapper.py:81-84 | the path is a chain of registered edges from source to target, no longer than any walk |
| `Mapper.FrontIsLeast` | agents/mapper/mapper.py:92-100 | the path at the front of the queue comes before every walk to a version not yet taken |
| `Mapper.Mapper.Transform` | agents/mapper/mapper.py:59-79 | the payload goes through a chain of the functions registered along the least path; no path, a function that raises or a result the target schema refuses is the error it is; with validation on, what is returned is valid |
| `Mapper.RefusedIffCorrupt` | agents/mapper/mapper.py:74-79 | once carried along the whole path, a payload is refused exactly when validation is on and it is not valid, and otherwise returned |
| `Mapper.ChainsAgree` | agents/mapper/mapper.py:74-75 | what is carried is determined by the path and the payload |
| `OAuth.PercentEncoded` | agents/vault/vault.py:135-137 | only unreserved characters and the percent sign come out |
| `OAuth.PercentIsExact` | agents/vault/vault.py:135-137 | letters, digits and - . _ ~ stay; every other character becomes bytes of the form %XX in upper-case hexadecimal |
| `OAuth.DecodePercent` | agents/vault/vault.py:135-137 | encoding loses nothing, over all of Unicode |
| `OAuth.BaseStringParsesBack` | agents/vault/vault.py:165-169 | upper-cased method, URL and merged parameters can be read back from the base string |
| `OAuth.BaseStringIsUnambiguous` | agents/vault/vault.py:165-169 | distinct requests never share a base string |
| `OAuth.SigningKeyReadsBack` | agents/vault/vault.py:171 | cut at the ampersand and decoded, the key is the consumer secret and then the token secret |
| `OAuth.SigningKeyIsUnambiguous` | agents/vault/vault.py:171 | the signing key tells the two secrets apart |
| `OAuth.HeaderParsesBack` | agents/vault/vault.py:175-179 | any header splits back into its realm and fields |
| `OAuth.HeaderCarriesTheRequest` | agents/vault/vault.py:140-179 | the header's fields are the OAuth parameters and the signature over a base string that reads back as this request |
| `OAuth.HeaderNamesTheCaller` | agents/vault/vault.py:154-179 | realm, consumer key, token, nonce, timestamp, method and version can be read off the header, and a signature under a key that reads as the caller's two secrets over a base string that reads as this request |
| `OAuth.SignatureCoversTheQuery` | agents/vault/vault.py:163-169 | the base string holds every query parameter, and the OAuth value where a query parameter bears an OAuth name |
| `OAuth.EncodedOrderIff` | agents/vault/vault.py:166-168 | two names in raw order are in encoded order exactly when they do not first differ at an unreserved character before a reserved one |
| `OAuth.RfcOrderIff` | agents/vault/vault.py:166-168 | the parameters are in the order of RFC 5849, section 3.4.1.3.2, exactly when no two names do |
| `OAuth.RfcOrderCanFail` | agents/vault/vault.py:166-168 | every query with the names aB and a{ is signed in the wrong order |
| `Reconcile.Compare` | agents/ledger/reconcile.py:59-83 | the loops yield each id's discrepancy, expected ids first |
| `Reconcile.MismatchesExact` | agents/ledger/reconcile.py:74-78 | the fields listed are exactly those that disagree, in name order, with both values |
| `Reconcile.ReconciliationIsExact` | agents/ledger/reconcile.py:59-83 | a discrepancy is reported exactly when the id deserves it, once, in the two sorted groups |
| `Reconcile.MatchedCountsAgreement` | agents/ledger/reconcile.py:92-111 | checked minus drift counts the ids on both sides whose managed fields all agree |
| `Reconcile.NothingToReportAfterTheWrites` | agents/forge/write.py:168-172 | reconciling payloads after their upserts reports nothing |
| `Reconciliation.CompletedWritesReconcile` | agents/ledger/reconcile.py:59-83 | after any run, comparing completed payloads, each its record's only writer's, with the ERP's module reports exactly the records not among them, and with those records alone nothing |
| `Reconcile.DiffAndCompareAgree` | agents/ledger/reconcile.py:74-78 | the comparator reports nothing exactly when the diff only puts nulls into absent fields |
| `Reconcile.NullIsNotReconciled` | agents/ledger/reconcile.py:77 | such a null is in the diff and not in the report |
| `Ledger.InMemoryLedgerStore.Get` | agents/ledger/ledger.py:121-126 | an entry is visible to its own tenant only |
| `Ledger.InMemoryLedgerStore.InsertIfAbsent` | agents/ledger/ledger.py:128-134 | inserts exactly when the id is new, and says so |
| `Ledger.Post` | agents/ledger/ledger.py:202-225 | refuses what is unbalanced, inserts or skips the rest, and reports status, total and line count |
| `Ledger.BooksBalance` | agents/ledger/ledger.py:66-68 | over any posts, debits equal credits per tenant and currency, and no id occurs twice |
| `Ledger.PostedExactlyOnce` | agents/ledger/ledger.py:202-225 | a post is answered posted exactly when it is the first balanced one under its id, of any tenant; the receipt states id, currency, the equal totals and the number of lines |
| `Ledger.OneWinnerPerEntry` | agents/ledger/ledger.py:112-134 | under any interleaving of workers the books are those of the inserts in order, and each id in them has exactly one winner |
| `Ledger.ConcurrentBooksBalance` | agents/ledger/ledger.py:214-218 | under any interleaving the books balance and no id occurs twice |
| `Ledger.VisibleAfterPostIff` | agents/ledger/ledger.py:121-134 | after a balanced post its tenant sees an entry under the id exactly when no other tenant held the id |
| `Ledger.OtherTenantsIdIsTaken` | agents/ledger/ledger.py:121-134 | the second tenant with an id is told duplicate and sees nothing |
| `Ledger.SalesAreBalanced` | agents/forge/forge.py:68-79 | tax is the rate's share rounded down for any signs, the entry's sides are equal, and it is accepted exactly when gross is positive and posted exactly when its id is also new |
| `Ledger.SaleIsBooked` | agents/forge/forge.py:107-122 | per account and side: the receivable is debited gross, revenue credited net, tax payable credited tax, nothing else anything; a tax line is there exactly when there is tax |
| `Ledger.CompletionIff` | agents/forge/forge.py:139-163 | an order completes exactly from in progress; its entry is its tenant's, in its currency, under the id derived from tenant and order |
| `Ledger.OrderTransitionsIff` | agents/forge/forge.py:40-46 | an order starts once, completes only when started, and can be cancelled until then; nothing but the state changes |
| `Ledger.ReplayPostsNothing` | agents/forge/forge.py:139-163 | an order completes once, and posting its entry again changes nothing |
| `Ledger.NamesCollideIff` | agents/forge/forge.py:102-104 | two different sales of two tenants can share an entry name exactly when one tenant's id is the other's followed by a colon and more |
| `Ledger.NamesAreDistinct` | agents/forge/forge.py:102-104 | sales of tenants that do not clash so have distinct entry names |
| `Ledger.NamesCanCollide` | agents/forge/forge.py:102-104 | two sales of acme and acme:eu with one name |
| `Ticker.Ticker.CacheGet` | agents/ticker/ticker.py:102-110 | an expired entry is dropped and reads as none; any other is returned |
| `Ticker.Ticker.GetRate` | agents/ticker/ticker.py:168-179 | read-through: the cached rate, else the source's, cached for the TTL; a source without the rate is an error and caches nothing |
| `Ticker.ServedIff` | agents/ticker/ticker.py:168-179 | over any run no rate is served exactly when the source has none and no fetch under the key is younger than the TTL; while one is, the source is left alone, else its rate is served and dated now |
| `Ticker.ServedIsFresh` | agents/ticker/ticker.py:168-179 | for all codes, every rate served is what the source gave at its time for a pair with the key asked for, and is younger than the TTL |
| `Ticker.ServedIsFreshAndTrue` | agents/ticker/ticker.py:168-179 | if no two base codes of a run clash, it is also for the pair asked |
| `Ticker.PairsToldApartIff` | agents/ticker/ticker.py:168-175 | callers with given base codes always get the pair they ask for exactly when no upper-cased code is another followed by a colon and more |
| `Ticker.FetchesAreRare` | agents/ticker/ticker.py:168-179 | for all codes, any span T holds at most floor(T / ttl) + 1 successful fetches for a pair |
| `Ticker.KeysCollideIff` | agents/ticker/ticker.py:153-155 | different pairs with two given base codes can have one key exactly when the codes clash so |
| `Ticker.WrongRateServed` | agents/ticker/ticker.py:168-175 | a run in which A to B:C is answered with the rate of A:B to C |
| `Ticker.RoundHalfUp` | agents/ticker/ticker.py:45-54 | conversion rounds to the nearest integer, on a tie the one further from zero |
| `Ticker.ConversionIsNearest` | agents/ticker/ticker.py:45-54 | the converted amount is the nearest integer to amount times rate |
| `Ticker.ConversionIsOdd` | agents/ticker/ticker.py:45-54 | a debt converts to the debt of what the credit converts to |
| `RecordMappings.ApplyLines` | agents/mapper/netsuite_records.py:70-91 | the loop yields the mapped lines and every line's gaps, or a converter raised |
| `RecordMappings.Apply` | agents/mapper/netsuite_records.py:113-136 | a record is mapped only when complete, blocked with all gaps when not, or a converter raised |
| `RecordMappings.GapsAreTheFaults` | agents/mapper/netsuite_records.py:94-102 | a gap is listed exactly when it is a fault of the record or of one of its lines |
| `RecordMappings.SucceedsIffFaultless` | agents/mapper/netsuite_records.py:134-136 | there are no gaps exactly when the record has no fault |
| `RecordMappings.UnblockedIffComplete` | agents/mapper/netsuite_records.py:113-136 | there are no gaps exactly when every required field is there and not null, empty text or an empty list, every field is declared, and every list field is a non-empty list of objects that have all they require and nothing undeclared |
| `RecordMappings.RaisesIff` | agents/mapper/netsuite_records.py:86-89 | mapping raises exactly when a converter does, on a field or line field that is there and not null |
| `RecordMappings.NoSilentDrops` | agents/mapper/netsuite_records.py:98-132 | for a table whose targets all differ, with any number of list fields: on success the output holds every carried field, lines included, converted under its own target, and nothing else; every field of the record was declared |
| `RecordMappings.TablesDropNothing` | agents/mapper/netsuite_records.py:142-208 | this holds for the three tables, whose targets never clash |
| `RecordMappings.ItemMeans` | agents/mapper/netsuite_records.py:142-158 | an item's fields land under their NetSuite names, the price rendered; a price that is no integer raises |
| `RecordMappings.AdjustmentMeans` | agents/mapper/netsuite_records.py:160-183 | an adjustment's fields, and each line's in the line of the same place, land under their NetSuite names; what is required is there |
| `RecordMappings.TransferMeans` | agents/mapper/netsuite_records.py:185-208 | the same for a transfer |

## Left out

- Network, database, Redis, keyring, health server, logging, metrics, settings and workflow files: I/O.
- `agents/forge/netsuite.py`: its refusals of other verbs or of incoherent targets are failed answers here; only its upsert by external id is used.
- SHA-256, HMAC, base64, UUID parsing and `uuid5`, canonical JSON, JSON Schema validation: opaque functions with the assumptions named above.
- Ideal hashing is an idealisation of SHA-256, so tamper evidence is up to hash collisions.
- Storage of payloads as JSONB is taken to return the value stored; rows from before the chain (no hash) and non-default genesis hashes are not modelled.
- Event payload schemas and registration of trigger subjects, missing keys in trigger payloads, and exceptions of a writer other than `ErpWriteError`.
- A publish that fails after the agent's maps were updated.
- Timestamps in payloads, the ERP's confirmation record, error messages, and the text of diffs and gap lists: values stay structured.
- Floats in payloads and records (JSON numbers are integers here); cooldowns, TTLs and clock readings are exact reals.
- `Decimal` context precision and the printing of amounts: rates are reals, printing is a parameter.
- Upper-casing outside ASCII.
- `Writes.Reader`: a reader that reads does so truthfully from the same ERP the writer commits to.
- `WriteAgent.ForgeWriteAgent.CallErp`: the part of `_execute` behind the gate is its own method, as are the two ways to file its outcome.
- `Writes.ExecuteBatch`: its guard loop is the method `AllApproved`, and the two outcomes of `_decide` on a new write are methods of the agent; in the same way each loop of `compare`, of the two mapping `apply` methods and of `_find_path` is a method of its own.
- `RecordMappings.TablesDropNothing`: says nothing of a record for which the price converter raises, since then nothing is mapped.
- `Ticker.ServedIsFreshAndTrue`: the cache and the ticker share one clock that does not move during a call.
- `StaticRateSource`, the Redis caches, `PostgresLedgerStore` (its insert-or-skip is the same as the in-memory one), `JournalEntry.from_payload`, `WorkOrder.from_payload`.
- Section 3.4.1.2 of RFC 5849 (normalising the URL, and parameters in it): the code signs the URL it is given.
- Dead-letter stores, credential storage and token vending, webhooks, version transforms, the query path, Beacon: easy next to the above.
