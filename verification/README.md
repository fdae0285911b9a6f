# Business approval: a verified model

A durable set of approval requests, each of which is created pending and makes exactly one terminal
transition. The repository implements it twice under one service: in PostgreSQL with row locks and an
UPDATE that has no status guard, and in D1 with one compare-and-set batch whose refusals are explained
afterwards from the row read back. This project models both, gives one sequential specification, and
proves that each backend's histories are exactly the ones the specification allows.

`dafny verify dfyconfig.toml` checks everything.

## Files

- `Instants`, `Model`: timestamps in nanoseconds, statuses, intents, the evidence invariant, same-intent.
- `Spec`, `History`, `Conservation`: the sequential specification (a map from request id to approval) and
  what holds of every history of it.
- `Schema`: the table with its CHECKs in three-valued logic, and `decode_approval`.
- `Postgres`, `PostgresProof`, `PostgresEvents`, `PostgresTheorems`: the lock-based protocol as a state
  machine, one event a statement; its invariant, event by event; theorems over every run.
- `PostgresSteps`, `PostgresStore`, `PostgresHistories`: the storage functions as code on that machine, and
  the converse of refinement, that every allowed history happens.
- `D1`, `D1Proof`, `D1Theorems`, `D1Runs`, `D1Store`: the table with columns and documents, the batches and
  their receipts, the classification in Rust, runs with lost and malformed replies and their converse, and
  the code.
- `Backends`: the two compared.
- `Codec`, `Service`, `Fields`, `ServiceTheorems`, `ApprovalService`, `EndToEnd`: domain errors, admission
  and responses, the field rules spelled out, and the end-to-end theorems.

## Assumptions

- PostgreSQL runs at READ COMMITTED: a statement sees what was committed when it began, a row lock is held
  to the end of its transaction, whoever wants a locked row or a key another transaction is inserting
  waits, and `transaction_timestamp()` is fixed at begin. Keys never change, so a row that a waiting
  SELECT .. FOR UPDATE reads again still matches. Rows are never deleted, because no code deletes them.
- A D1 batch is atomic (docs/d1-profile.md:12) and passes or fails as a whole. What reaches the caller may
  have any shape and show any rows. Where the truth of an answer is stated, a change count that passes the
  receipt check is the real one; the state of the database is never made to depend on what callers are told.
- RFC 3339 text and JSON determine the values they encode; TIMESTAMPTZ holds whole microseconds.
- Clock readings are whole microseconds in the years 0 to 9999. Nothing is assumed about their order: the
  service clock, the database clock and the two readings D1 takes are unrelated.
- A call whose caller gave up may still take effect later: in the runs of both backends an effect happens at
  the moment the database has it, which the loss of the reply does not date.
- A transaction or call has a number of its own, which the code does not see; histories name calls by it.

## Where code and documentation differ

The model follows the code.

- docs/management-security.md:25 speaks of decision-time expiry. `decide` and `cancel` never look at the
  deadline: `Spec.DeadlineBindsOnlyExpiry`, `History.OverdueIsTerminated`,
  `ServiceTheorems.TransitionAccepted`.
- The repository's README.md:15-16 promises that an identical retry returns the existing approval. The service
  rejects it from the deadline on, before it asks the store: `ServiceTheorems.EndToEndReplay` has both sides.
- `terminal_at >= expires_at` holds of every expired row in PostgreSQL. D1 stamps one clock reading and
  compares another, so there it holds exactly when the stamp is not the earlier one:
  `EndToEnd.D1StampCoversDeadline`, with a run of two admitted calls where it fails.
- docs/d1-profile.md:26-28 promises that a malformed response is reported as unavailable, because a transition
  may have committed. A request whose row was inserted, and whose receipt comes back without that row or with
  others, is answered IdempotencyConflict, a domain refusal: `D1Theorems.CreationAnsweredAsConflict`. When the
  change count is true this is the only such gap: `D1Runs.ReceiptsAreSound`, `EndToEnd.D1AnswersAreTrue`.
- docs/management-security.md:25 speaks of requester isolation. Reads have it; a cancellation, and a request
  under an unused key, tell whether an id is held by another requester: `ServiceTheorems.CancelIsolation`,
  `ServiceTheorems.RequestIsolation`.
- Normalising a deadline does not always stay in range: `Instants.LocalDeadlineCanOverflow`.

## Model

| member | source | states |
|---|---|---|
| PostgresTheorems.Linearizable | crates/lenso-business-approval-postgres-plugin/src/storage.rs:27-232 | For every finite interleaving of any number of transactions, each running statement by statement and each able to fail at any statement or lose the reply of its commit: the answers form a legal history of the sequential specification, the committed rows are that history's store, every call is in it at most once, a call still running has had no effect, and no call ever fails through a CHECK, undecodable evidence or an empty lookup |
| PostgresTheorems.EndedIsOver | crates/lenso-business-approval-postgres-plugin/src/storage.rs:27-232 | A call that has ended, answered or told of an error, never changes and takes no effect afterwards |
| PostgresTheorems.RealTimeOrder | crates/lenso-business-approval-postgres-plugin/src/storage.rs:27-232 | Of two calls that took effect, one that ended before the other began, answered or told of an error, comes earlier in that history |
| PostgresTheorems.SnapshotIsCommittedRow | crates/lenso-business-approval-postgres-plugin/src/storage.rs:220-232 | In every reachable state a transaction that relies on the row it locked owns the row lock alone and its decoded snapshot is the committed row; an uncommitted UPDATE, which has no status guard, always replaces a row that is pending in the committed state, and leaves the specified terminal row |
| PostgresTheorems.ReceiptsAreSound | crates/lenso-business-approval-postgres-plugin/src/storage.rs:125-139 | An answered call is in the history exactly once: a success was committed by this very call, a refusal or replay changed nothing |
| PostgresTheorems.AnsweredIsSettled | crates/lenso-business-approval-postgres-plugin/src/storage.rs:125-139 | A call that was answered is settled: it took effect with that reply. A call can also be settled with its reply lost |
| PostgresTheorems.OneWinner | crates/lenso-business-approval-postgres-plugin/src/storage.rs:105-207 | Of any number of racing or retried transitions that took effect, their replies delivered or lost, no two are of the same request |
| PostgresTheorems.WinnerIsFinal | crates/lenso-business-approval-postgres-plugin/src/storage.rs:105-207 | Once a transition has taken effect, its reply delivered or lost, every call begun later is answered from the approval it left, and none is a second transition of that request |
| PostgresTheorems.OneCreation | crates/lenso-business-approval-postgres-plugin/src/storage.rs:36-86 | Under concurrent inserts on both unique keys, of all requests that share the request id or the (requester, idempotency key) pair and took effect, replies delivered or lost, in any order, one creates; those that differ from it in no field but requested_at are answered as replays of its row, and one that differs in any other field is answered with a conflict |
| PostgresTheorems.CommittedRowsEvolve | crates/lenso-business-approval-postgres-plugin/src/storage.rs:118-206 | Between any two moments of a run committed rows stay, their intent and requested_at stay, and a terminal row stays as it is |
| PostgresTheorems.CommittedRevisions | crates/lenso-business-approval-postgres-plugin/src/storage.rs:37-205 | The committed revisions add up to creations plus accepted transitions, of which there are no more than creations |
| PostgresTheorems.ExpiredRowsWereDue | crates/lenso-business-approval-postgres-plugin/src/storage.rs:174-206 | Every expired row has terminal_at >= expires_at > requested_at |
| PostgresEvents.NextKeepsInv | crates/lenso-business-approval-postgres-plugin/src/storage.rs:27-232 | Each single statement of any transaction keeps the whole invariant: CHECKs, unique keys, lock ownership, every transaction's snapshot or draft, and the history |
| PostgresEvents.NewRowHolds | crates/lenso-business-approval-postgres-plugin/src/storage.rs:36-54 | An INSERT of a request the service admits passes every CHECK, decodes, and reads back as exactly the requested intent, pending at revision 1 |
| PostgresEvents.UpdatedHolds | crates/lenso-business-approval-postgres-plugin/src/storage.rs:125-137 | The unguarded UPDATE of a pending row passes every CHECK, decodes, keeps both keys, and is the specified transition with all its evidence |
| PostgresEvents.ConflictIsTaken | crates/lenso-business-approval-postgres-plugin/migrations/001_create_business_approval.sql:2-20 | The two unique constraints are violated by a row exactly when its intent shares the id or the delivery key with a stored approval |
| PostgresEvents.ResolvedByCount | crates/lenso-business-approval-postgres-plugin/src/storage.rs:72-86 | No row from the locked lookup is an inconsistency, several are a conflict, and a single one is a replay if it decodes and differs from the request in no field but requested_at |
| PostgresEvents.ResolveIsApply | crates/lenso-business-approval-postgres-plugin/src/storage.rs:62-86 | Classifying the locked rows by their number and one same-intent comparison answers as the specification does, and never takes the zero-row or decode-failure exit |
| PostgresEvents.RefusalIsApply | crates/lenso-business-approval-postgres-plugin/src/storage.rs:119-195 | Every refusal given from a locked snapshot or a deadline query is the specification's refusal on the rows committed at that moment |
| PostgresEvents.ImageIsApply | crates/lenso-business-approval-postgres-plugin/src/storage.rs:125-139 | Committing an uncommitted UPDATE is the specification's transition applied to the rows committed at that moment |
| PostgresEvents.NeverGivesUp | crates/lenso-business-approval-postgres-plugin/src/storage.rs:72-75 | The InconsistentIdempotency exit is unreachable |
| PostgresSteps.CheckDueReady | crates/lenso-business-approval-postgres-plugin/src/storage.rs:186-192 | The deadline query runs on the row that is locked, and compares as the decoded snapshot would |
| PostgresSteps.UpdateReady | crates/lenso-business-approval-postgres-plugin/src/storage.rs:125-137 | A transaction that passed its checks never waits for its UPDATE, never fails a CHECK, and gets back the terminal approval it intended |
| PostgresSteps.NeverStuck | crates/lenso-business-approval-postgres-plugin/src/storage.rs:27-232 | A transaction in progress can always go on, unless another transaction holds the lock on the very row it addresses, or on a row with its id or delivery key, or has inserted such a row and not yet committed |
| PostgresHistories.ServedSerially | crates/lenso-business-approval-postgres-plugin/src/storage.rs:27-232 | From any reachable state with nobody else in progress, every call of the service can be run to its end and gets the specification's answer |
| PostgresHistories.EveryHistoryHappens | crates/lenso-business-approval-postgres-plugin/src/storage.rs:27-232 | Every legal history in which each call has one clock reading is the history of some run |
| PostgresHistories.HistoriesAreExact | crates/lenso-business-approval-postgres-plugin/src/storage.rs:27-232 | A history happens in some run if and only if it is legal and each call in it occurs once with one clock reading: the backend refines the specification and leaves out none of it |
| PostgresStore.PostgresStore.Begin | crates/lenso-business-approval-postgres-plugin/src/storage.rs:209-218 | A transaction is open with its clock reading fixed; exactly if the statement fails, the caller is told so and nothing happened |
| PostgresStore.PostgresStore.LockRequest | crates/lenso-business-approval-postgres-plugin/src/storage.rs:220-232 | Whatever else runs meanwhile: the row is absent and the call is answered so, or the call owns the row lock and holds the decoded committed row; it fails, without effect, only if the statement failed or another transaction holds the lock on this very row |
| PostgresStore.PostgresStore.CheckDeadline | crates/lenso-business-approval-postgres-plugin/src/storage.rs:186-195 | The deadline query says whether the locked row's deadline is at or before the transaction's begin time, and fails exactly if the statement fails |
| PostgresStore.PostgresStore.UpdateRow | crates/lenso-business-approval-postgres-plugin/src/storage.rs:125-137 | The UPDATE returns the specified terminal approval, uncommitted, and fails exactly if the statement fails |
| PostgresStore.PostgresStore.CommitWork | crates/lenso-business-approval-postgres-plugin/src/storage.rs:279-287 | A commit that succeeds makes the transaction's reply final; one that reports an error, exactly if the statement fails, leaves it unknown whether it took effect |
| PostgresStore.PostgresStore.InsertRow | crates/lenso-business-approval-postgres-plugin/src/storage.rs:36-60 | The INSERT leaves an uncommitted row of the intent or finds a committed row in the way; it fails, without effect, only if the statement failed or another transaction has inserted, uncommitted, a row with the id or the delivery key |
| PostgresStore.PostgresStore.LockMatching | crates/lenso-business-approval-postgres-plugin/src/storage.rs:62-70 | The lookup returns a non-empty list of rows, all of them locked; it fails, without effect, only if a statement failed or another transaction holds the lock on a row with the id or the delivery key |
| PostgresStore.PostgresStore.ResolveConflict | crates/lenso-business-approval-postgres-plugin/src/storage.rs:62-86 | The rows in the way are resolved to a replay with the same intent or to a conflict, never to a creation; it fails only for the reasons its statements do |
| PostgresStore.PostgresStore.Request | crates/lenso-business-approval-postgres-plugin/src/storage.rs:27-87 | With any transactions running between its statements and any statement failing: the database stays one that a run of the state machine leads to and no history is lost; an answer was the specification's, at a moment within the call and with the transaction's clock reading; an error, its effect unknown, is reported only if a statement failed or another transaction was in the way on the same id or delivery key; undisturbed, the call returns exactly what the specification says |
| PostgresStore.PostgresStore.Decide | crates/lenso-business-approval-postgres-plugin/src/storage.rs:105-140 | The same for a decision; an error is reported only if a statement failed or another transaction holds the lock on this very row |
| PostgresStore.PostgresStore.Cancel | crates/lenso-business-approval-postgres-plugin/src/storage.rs:142-172 | The same for a cancellation, requester check first; an error is reported only if a statement failed or another transaction holds the lock on this very row |
| PostgresStore.PostgresStore.Expire | crates/lenso-business-approval-postgres-plugin/src/storage.rs:174-207 | The same for an expiry, with its deadline query; an error is reported only if a statement failed or another transaction holds the lock on this very row |
| PostgresStore.PostgresStore.Read | crates/lenso-business-approval-postgres-plugin/src/storage.rs:89-103 | The same for a read; an error is reported only if a statement failed |
| Schema.EvidenceCheckMatchesValidation | crates/lenso-business-approval-postgres-plugin/migrations/001_create_business_approval.sql:22-57 | The per-status CHECK, evaluated in SQL's three-valued logic, is never NULL, and is true exactly when the status parses and validate_evidence accepts the row |
| Schema.AcceptedIffDecodable | crates/lenso-business-approval-postgres-plugin/src/storage.rs:234-264 | PostgreSQL accepts a row exactly when decode_approval accepts it, its deadline is later than its request and its digest, if any, is well formed |
| Schema.FailureIsExact | crates/lenso-business-approval-postgres-plugin/src/storage.rs:234-264 | Which rows decode_approval gives up and with which error: an unknown status first, then a revision below 1, then evidence the per-status CHECK turns down |
| Schema.DecodeEncode | crates/lenso-business-approval-postgres-plugin/src/storage.rs:234-264 | A stored approval survives the way to its row and back exactly when its evidence is valid and its instants are whole microseconds |
| Schema.CreatedRowMatchesIntent | crates/lenso-business-approval-core/src/model.rs:145-155 | A row just created passes same_intent exactly when the deadline was normalised to microseconds |
| Model.SameIntentIsExact | crates/lenso-business-approval-core/src/model.rs:145-155 | The same-intent comparison holds exactly when the stored intent and the requested one are equal in every field but requested_at |
| Model.StatusTextRoundTrip | crates/lenso-business-approval-core/src/model.rs:12-35 | Status texts parse back to their status, and nothing else parses |
| Instants.NormalizeIsFloor | crates/lenso-business-approval-core/src/lib.rs:393-398 | normalize_timestamp succeeds exactly on instants that are in range, and then gives the greatest whole microsecond that is not later |
| Instants.NormalizeIdempotentAndMonotone | crates/lenso-business-approval-core/src/lib.rs:393-398 | It is idempotent, monotone, and keeps instants RFC 3339 can write writable |
| Instants.RangeIsCalendar | crates/lenso-business-approval-core/src/lib.rs:396 | The instants in range are those of the years -9999 to 9999 of the Gregorian calendar, and those RFC 3339 can write of the years 0 to 9999 |
| Instants.LocalDeadlineCanOverflow | crates/lenso-business-approval-core/src/lib.rs:125-127 | A deadline that parses can still fail normalisation: 9999-12-31T23:59:59-01:00 |
| Instants.MicrosExact | crates/lenso-business-approval-d1-plugin/src/host_facilities.rs:156 | Rust's truncating division by 1000 is floor division exactly for instants that are non-negative or whole microseconds, and loses nothing exactly for whole microseconds |
| Instants.MicrosFitAndOrder | crates/lenso-business-approval-d1-plugin/src/host_facilities/store.mjs:19 | On normalised instants the microsecond count fits SQLite's 64-bit CAST and compares exactly as the instants |
| Spec.ApplyTakesEffect | crates/lenso-business-approval-postgres-plugin/src/storage.rs:27-207 | Each reply of the sequential specification states the change of the store: created adds one pending row, a success replaces one pending row by a terminal one with the same intent, anything else changes nothing |
| Spec.ApplyKeepsValid | crates/lenso-business-approval-core/src/model.rs:105-143 | validate_evidence, filing under the request id and uniqueness of both keys are kept by every operation |
| Spec.ApplyEvolves | crates/lenso-business-approval-postgres-plugin/src/storage.rs:118-206 | No operation removes a row, changes an intent, or touches a terminal row |
| Spec.LookupByCount | crates/lenso-business-approval-postgres-plugin/src/storage.rs:62-86 | At most two rows match the two-key lookup; a request is a replay exactly when one row matches and has the same intent, and then it is the row with its id; it is new exactly when none matches |
| Spec.CreatedMatchesIntent | crates/lenso-business-approval-postgres-plugin/src/storage.rs:53-60 | A created row is the only match of its own request and passes same_intent |
| Spec.DeadlineBindsOnlyExpiry | crates/lenso-business-approval-postgres-plugin/src/storage.rs:118-139 | Of the three transitions only an expiry can be answered differently for different clock readings; a decision, or a cancellation by the requester, of a pending row is accepted at every clock reading |
| History.OverdueIsTerminated | crates/lenso-business-approval-postgres-plugin/src/storage.rs:118-172 | For every decision and every cancellation there is a legal history in which it is accepted after the deadline of the request |
| History.HistoryEvolves | crates/lenso-business-approval-postgres-plugin/src/storage.rs:118-206 | Single durable outcome between any two points of a history |
| History.FirstTerminalWins | crates/lenso-business-approval-postgres-plugin/src/storage.rs:105-207 | After an accepted transition every later operation on that request is answered from the approval it returned, status, caller, actor, evidence, reason and time unchanged, and no second transition is accepted |
| History.CreatedOnce | crates/lenso-business-approval-postgres-plugin/src/storage.rs:36-86 | After a creation, a request sharing either key is a replay naming the row if it differs from the created intent in no field but requested_at, and a conflict if it differs in any other; it never creates |
| History.RefusedBeforeCreation | crates/lenso-business-approval-postgres-plugin/src/storage.rs:36-86 | A request that shares a key with a row created later was itself refused |
| History.CreationComesFirst | crates/lenso-business-approval-postgres-plugin/src/storage.rs:36-86 | No request that differs from a created intent in nothing but requested_at takes effect before the creation: whoever submits it first creates it |
| History.CreationIsUnique | crates/lenso-business-approval-postgres-plugin/src/storage.rs:36-86 | In a whole history one creation for each request id and each (requester, idempotency key) pair; in whatever order the requests ran, those that differ from it in no field but requested_at are replays and all others are conflicts |
| History.EveryRowHasAuthors | crates/lenso-business-approval-postgres-plugin/src/storage.rs:36-137 | Every row was created by a request with exactly its intent, and every terminal row was written, from a pending row with that intent, by the transition whose success returned it |
| History.ExpiredWasDue | crates/lenso-business-approval-postgres-plugin/src/storage.rs:186-205 | An expired row's deadline is later than its request and at or before the clock reading compared by the expiry that wrote it; where evidence is stamped with that same reading, terminal_at is not before the deadline |
| History.StampCoversDeadline | crates/lenso-business-approval-d1-plugin/src/host_facilities/store.mjs:15-19 | With two clock readings, a legal history can end in an expiry stamped before its deadline if and only if the stamp is the earlier reading |
| Conservation.EffectOnSums | crates/lenso-business-approval-postgres-plugin/src/storage.rs:37-205 | What one reply adds to the sum of revisions, the pending rows and the rows |
| Conservation.RevisionsAreConserved | crates/lenso-business-approval-postgres-plugin/src/storage.rs:37-205 | In every reachable state the revisions sum to creations plus accepted transitions and the pending rows are creations minus accepted transitions; so n creations admit at most n successes |
| D1.CheckedReceipts | crates/lenso-business-approval-d1-plugin/src/host_facilities/store.mjs:1 | A receipt passes the receipt check exactly when it is two successful statements with row lists, the first of which reports one change or none |
| D1.DecodingIsExact | crates/lenso-business-approval-core/src/model.rs:53-75 | A document decodes to an approval exactly when each member holds the approval's field; optional texts may be null or absent, the terminal time only null |
| D1Proof.ColumnsDecideAsDocument | crates/lenso-business-approval-d1-plugin/src/host_facilities/store.mjs:17-21 | The WHERE clause of the conditional update, on columns only, holds exactly when the row's document says pending, owned by the canceller and due |
| D1Proof.CollisionsOnColumns | crates/lenso-business-approval-d1-plugin/src/host_facilities/store.mjs:33 | ON CONFLICT DO NOTHING inserts exactly when no document shares the id or the delivery key |
| D1Proof.JsonSetDecodes | crates/lenso-business-approval-d1-plugin/src/host_facilities/store.mjs:21 | json_set leaves a document that decodes to the same intent with exactly the new status, revision, caller, actor, evidence, reason and time |
| D1Proof.InsertCoherent | crates/lenso-business-approval-d1-plugin/src/host_facilities/store.mjs:30-34 | An insert keeps columns and documents in agreement and is the specification's request |
| D1Proof.UpdateCoherent | crates/lenso-business-approval-d1-plugin/src/host_facilities/store.mjs:20-21 | A conditional update keeps columns and documents in agreement and is the specification's transition |
| D1Theorems.RequestClassified | crates/lenso-business-approval-d1-plugin/src/host_facilities.rs:157-173 | Counting the rows read back after the insert and comparing a single one gives the specification's reply, created flag included |
| D1Theorems.TransitionClassified | crates/lenso-business-approval-d1-plugin/src/host_facilities.rs:84-110 | The reason reconstructed from the row read back is the specification's reason, NotRequester before AlreadyTerminal before NotDue; the final Unavailable branch and the changed-without-row branch are never taken |
| D1Theorems.ReadClassified | crates/lenso-business-approval-d1-plugin/src/host_facilities.rs:181-196 | A read answers with the abstract row or with nothing, and never fails validation |
| D1Theorems.RejectionIsExact | crates/lenso-business-approval-d1-plugin/src/host_facilities.rs:84-196 | The code reports a storage error on a receipt if and only if the receipt fails the receipt check, or shows a row that does not decode (any row, for a request) or whose evidence is invalid (a single row, for a request), or, for a transition only, shows a change without a row or no change of an eligible row; invalid evidence is reported as such, everything else as unavailable |
| D1Theorems.ToldTruly | crates/lenso-business-approval-d1-plugin/src/host_facilities.rs:84-173 | If a receipt has any shape and any rows, and only its change count is true: a success is reported exactly by a call that wrote, and a refusal by one that wrote nothing, for every transition and read; for a request if and only if the receipt does not hide the creation, that is, unless the row was inserted and the rows shown are not just one row of the same intent |
| D1Theorems.CreationAnsweredAsConflict | crates/lenso-business-approval-d1-plugin/src/host_facilities.rs:157-160 | The failing input: every request that inserts its row is answered IdempotencyConflict when the receipt comes back with one change and no row, a receipt every transition rejects |
| D1Theorems.ServeRefines | crates/lenso-business-approval-d1-plugin/src/host_facilities.rs:62-110 | One call, whatever becomes of its reply: columns and documents stay coherent, the rows are the specification's unless the batch never ran, a reply delivered intact is the specification's, a lost or absent one is a storage error, and a garbled one is a storage error exactly when rejected |
| D1Proof.CoherentPassesChecks | crates/lenso-business-approval-d1-plugin/src/host_facilities/store.mjs:5 | The CHECKs of the D1 table turn down exactly an unknown status or a revision other than 1 and 2; every coherent row, so every row the code writes, passes them |
| D1Runs.TableAfter | crates/lenso-business-approval-d1-plugin/src/host_facilities/store.mjs:20-37 | In every reachable state, whatever the callers were told, the columns request_id, requester_instance, idempotency_key, status, revision and expires_us agree with record_json |
| D1Runs.RunRefines | crates/lenso-business-approval-d1-plugin/src/host_facilities.rs:84-196 | Over any run, whatever the callers were told, the calls whose batch ran form a legal history, and the documents are its store |
| D1Runs.EntryOfCall | crates/lenso-business-approval-d1-plugin/src/host_facilities/store.mjs:12-36 | Whatever a caller is told, the history grows by this call's entry if its batch ran and by nothing if not; the real receipt tells the entry's reply |
| D1Runs.EffectOfCall | crates/lenso-business-approval-d1-plugin/src/host_facilities/store.mjs:12-36 | Whatever a caller is told, the rows change exactly as the entry's reply states, and they change at all exactly when that reply claims a creation or transition |
| D1Runs.ReceiptsAreSound | crates/lenso-business-approval-d1-plugin/src/host_facilities/store.mjs:1-25 | In any run, whatever rows a receipt shows as long as its change count is true: a success was written by this call and a refusal wrote nothing, if and only if the receipt does not hide a creation; if it does, the call is answered with a conflict and did create its row |
| D1Runs.OneToldWinner | crates/lenso-business-approval-d1-plugin/src/host_facilities/store.mjs:12-26 | No two callers are told of a successful transition of one request, whatever rows their receipts showed |
| D1Runs.ConflictAfterCreation | crates/lenso-business-approval-d1-plugin/src/host_facilities.rs:157-160 | A run in which it happens, for every request the stores accept |
| D1Runs.OneWinner | crates/lenso-business-approval-d1-plugin/src/host_facilities/store.mjs:12-26 | However often callers retry after unknown outcomes, once a transition took effect, reply delivered or lost, every later call on that request is answered from it and no other takes effect |
| D1Runs.OneCreation | crates/lenso-business-approval-d1-plugin/src/host_facilities.rs:157-173 | One creation for each request id and each delivery key, reply delivered or lost; in any order, requests that differ from it in no field but requested_at are answered as replays of its row, and all others with a conflict |
| D1Runs.StoredRowsEvolve | crates/lenso-business-approval-d1-plugin/src/host_facilities/store.mjs:20-25 | Between any two moments of a run rows stay, intents stay, and terminal rows are final |
| D1Runs.ExpiredRowsWereDue | crates/lenso-business-approval-d1-plugin/src/host_facilities/store.mjs:19-21 | An expired row's deadline was at or before the clock reading compared by the expiry that wrote it |
| D1Runs.StoredRevisions | crates/lenso-business-approval-d1-plugin/src/host_facilities/store.mjs:20-33 | The stored revisions add up to creations plus accepted transitions |
| D1Runs.HistoriesAreExact | crates/lenso-business-approval-d1-plugin/src/host_facilities.rs:84-196 | A history happens in some D1 run if and only if it is legal |
| D1Runs.StampCoversDeadline | crates/lenso-business-approval-d1-plugin/src/host_facilities/store.mjs:15-19 | A run can leave a row in the table that expired before its deadline if and only if the expiry's stamp is the earlier of its two clock readings |
| D1Store.D1Store.Transition | crates/lenso-business-approval-d1-plugin/src/host_facilities/store.mjs:12-26 | The conditional update runs unless the call never reached the database; the caller gets the change flag and the row, or an exception for a receipt that fails the check |
| D1Store.D1Store.InsertAndSelect | crates/lenso-business-approval-d1-plugin/src/host_facilities/store.mjs:30-36 | The insert runs unless the call never reached the database; the caller gets the change flag and the matching rows, or an exception |
| D1Store.D1Store.Request | crates/lenso-business-approval-d1-plugin/src/host_facilities.rs:145-174 | The table stays coherent; the rows are the specification's, or unchanged if the batch never ran; a reply delivered intact is the specification's, a lost or absent one is a storage error, a garbled one is a storage error exactly when rejected and otherwise, if its change count is true, tells truly whether this call created a row, except for a hidden creation, which is answered as a conflict |
| D1Store.D1Store.Read | crates/lenso-business-approval-d1-plugin/src/host_facilities.rs:181-196 | As Request, for a read; nothing changes |
| D1Store.D1Store.Decide | crates/lenso-business-approval-d1-plugin/src/host_facilities.rs:202-216 | As Request, for a decision |
| D1Store.D1Store.Cancel | crates/lenso-business-approval-d1-plugin/src/host_facilities.rs:221-236 | As Request, for a cancellation |
| D1Store.D1Store.Expire | crates/lenso-business-approval-d1-plugin/src/host_facilities.rs:242-251 | As Request, for an expiry |
| D1Store.D1Store.Terminate | crates/lenso-business-approval-d1-plugin/src/host_facilities.rs:84-110 | As Request, for any transition: batch, receipt check and reconstruction of the reason |
| Backends.BackendsAgree | crates/lenso-business-approval-d1-plugin/src/host_facilities.rs:84-196 | For any PostgreSQL run and any D1 run whose calls took effect in the same order with the same clock readings, every answer is the same and the rows are the same |
| Backends.D1Mirrors | crates/lenso-business-approval-d1-plugin/src/host_facilities/store.mjs:12-37 | Whatever PostgreSQL does under any interleaving, D1 does when it serves the same calls one after another |
| Backends.PostgresMirrors | crates/lenso-business-approval-postgres-plugin/src/storage.rs:27-232 | Whatever D1 does with any losses, some PostgreSQL run does, provided each call is stamped with the reading it compares |
| Fields.IdentifiersAgree | crates/lenso-business-approval-core/src/lib.rs:521-527 | The identifier rule accepts exactly the texts spelled out by code points: 1 to the maximum of letters, digits, full stop, low line, hyphen and colon |
| Fields.ReferencesAgree | crates/lenso-business-approval-core/src/lib.rs:513-519 | The same for references, with the slash and at most 512 |
| Fields.KindsAgree | crates/lenso-business-approval-core/src/lib.rs:497-511 | The same for kinds: at most 128 lower-case letters, digits, full stops, low lines and hyphens, a letter or digit first and last |
| Fields.ReasonsAgree | crates/lenso-business-approval-core/src/lib.rs:529-536 | The same for reasons: not all blank, at most 1000 bytes in UTF-8, no control character |
| Fields.DigestsAgree | crates/lenso-business-approval-core/src/lib.rs:366-371 | The same for digests: 64 digits and letters a to f |
| Fields.RequestsAgree | crates/lenso-business-approval-core/src/lib.rs:128-139 | A request is admitted exactly if its fields follow these rules, a management operation has a digest, and its deadline is later |
| ServiceTheorems.AdmissionIsExact | crates/lenso-business-approval-core/src/lib.rs:116-285 | The operations that reach the store are exactly those with a listed caller, valid fields, normalised instants and a later deadline |
| ServiceTheorems.AdmittedIsReady | crates/lenso-business-approval-core/src/lib.rs:124-142 | What the service admits satisfies everything the stores rely on, so the CHECKs that only PostgreSQL has cannot distinguish the backends |
| ServiceTheorems.Authority | crates/lenso-business-approval-core/src/lib.rs:276-285 | The answer is Forbidden exactly when the caller is not on the operation's list or a human context may not decide, and then nothing changes |
| ServiceTheorems.Provenance | crates/lenso-business-approval-core/src/lib.rs:45-63 | Under a fixed policy every row of any history was requested by a listed requester with fields that follow the rules, carries a digest of 64 characters from 0-9 and a-f if its subject is a management operation, and was approved or rejected by a listed decider, cancelled by its own requester, expired by a listed executor |
| ServiceTheorems.RowsAreShowable | crates/lenso-business-approval-core/src/lib.rs:287-364 | Every row of any history has valid evidence and instants a response can print |
| ServiceTheorems.ResponsesAreTotal | crates/lenso-business-approval-core/src/lib.rs:287-462 | In any reachable state no response builder meets inconsistent evidence, a bad revision or an unprintable time, no refusal falls into a catch-all arm, and each refusal keeps its name and is one the operation's error type declares |
| ServiceTheorems.TransitionAccepted | crates/lenso-business-approval-core/src/lib.rs:168-274 | A decision, cancellation or expiry succeeds exactly when the caller may make it, its fields are valid, the row is pending and, for a cancellation, the caller's own or, for an expiry, due; then response and row carry the call's own evidence and no other row changes; otherwise nothing changes |
| ServiceTheorems.FirstSubmission | crates/lenso-business-approval-core/src/lib.rs:116-166 | An admitted request that meets no row creates the pending row the call describes, under the caller's name, with both instants cut to microseconds |
| ServiceTheorems.Resubmitted | crates/lenso-business-approval-core/src/lib.rs:124-142 | The same request is admitted again with the same intent while the microsecond of the clock is before the deadline, and is InvalidRequest from then on, before the store is asked |
| ServiceTheorems.CreationStays | crates/lenso-business-approval-postgres-plugin/src/storage.rs:53-60 | After a creation its row is there, with its intent, at the end of every longer history |
| ServiceTheorems.EndToEndReplay | crates/lenso-business-approval-core/src/lib.rs:116-166 | Submitting the same request again, after any further history, is answered created=false with the same id and the row's current status and revision before the deadline, InvalidRequest from the deadline on, and changes nothing |
| ServiceTheorems.ResubmissionReplays | crates/lenso-business-approval-core/src/lib.rs:116-166 | Two submissions of one call in one history, in any order: when one created, the other can only have been admitted before the deadline, and is answered created=false with the same id and the status and revision the row has at its moment |
| ServiceTheorems.ReadIsolation | crates/lenso-business-approval-core/src/lib.rs:234-254 | Stores that agree on the rows of a caller who is neither a listed decider nor a listed executor answer all reads of that caller alike |
| ServiceTheorems.CancelIsolation | crates/lenso-business-approval-core/src/lib.rs:206-232 | Stores that agree on a requester's rows answer its cancellation alike if and only if it is not admitted or its id is held by another requester in both or in neither: NotRequester tells that an id is taken |
| ServiceTheorems.RequestIsolation | crates/lenso-business-approval-core/src/lib.rs:116-166 | Stores that agree on a requester's rows answer its request alike if and only if it is not admitted, its id is held by another requester in both or in neither, or its own idempotency key is already used |
| ServiceTheorems.FaultsAreExact | crates/lenso-business-approval-core/src/lib.rs:116-285 | In any reachable state the service as a whole faults if and only if the call is a request by a listed requester and the clock failed, or the deadline parses but is out of range in UTC; which of the two it reports, clock first; and nothing changes |
| ServiceTheorems.InvalidIsExact | crates/lenso-business-approval-core/src/lib.rs:116-285 | In any reachable state a call of any of the five operations is answered InvalidRequest if and only if its caller is permitted, there is no such fault, and a field breaks a rule; and nothing changes |
| ServiceTheorems.ManagementNeedsDigest | crates/lenso-business-approval-core/src/lib.rs:138 | A listed requester's request for a management operation without a digest is answered InvalidRequest and leaves the store alone |
| ServiceTheorems.PrivilegedRead | crates/lenso-business-approval-core/src/lib.rs:245-253 | Listed deciders and executors see exactly the row there is |
| ServiceTheorems.OwnRead | crates/lenso-business-approval-core/src/lib.rs:245-253 | A listed requester who is neither sees exactly its own rows; a row of another requester is answered RequestNotFound |
| ApprovalService.ApprovalService.Request | crates/lenso-business-approval-core/src/lib.rs:116-166 | Driving a D1 store: a call that is not admitted leaves the store alone and is answered so; for an admitted one the rows are those of the sequential store, or unchanged if the batch never ran; the answer is that of the sequential store if the reply arrives and a storage fault if it is lost, absent or rejected; any other garbled reply with a true change count is answered truly about this call's own effect or with a fault, except for a hidden creation, which is answered IdempotencyConflict |
| ApprovalService.ApprovalService.Decide | crates/lenso-business-approval-core/src/lib.rs:168-204 | The same for decide |
| ApprovalService.ApprovalService.Cancel | crates/lenso-business-approval-core/src/lib.rs:206-232 | The same for cancel |
| ApprovalService.ApprovalService.Read | crates/lenso-business-approval-core/src/lib.rs:234-254 | The same for read |
| ApprovalService.ApprovalService.Expire | crates/lenso-business-approval-core/src/lib.rs:256-274 | The same for expire |
| EndToEnd.PostgresProvenance | crates/lenso-business-approval-core/src/lib.rs:45-63 | Provenance of every committed row of every PostgreSQL run whose transactions the service began |
| EndToEnd.D1Provenance | crates/lenso-business-approval-core/src/lib.rs:45-63 | Provenance of every row of every D1 run |
| EndToEnd.PostgresResponses | crates/lenso-business-approval-core/src/lib.rs:287-462 | No answer of any PostgreSQL run makes the service fail or lose the reason of a refusal |
| EndToEnd.D1Responses | crates/lenso-business-approval-core/src/lib.rs:287-462 | No answer of any D1 run does either, when its reply arrives intact |
| EndToEnd.D1AnswersAreTrue | crates/lenso-business-approval-core/src/lib.rs:116-274 | In any D1 run, whatever rows a receipt shows as long as its change count is true, the service faults or answers truly whether this call created or terminated a row, if and only if the receipt does not hide a creation; if it does, the answer is IdempotencyConflict |
| EndToEnd.ConflictThenReplay | crates/lenso-business-approval-core/src/lib.rs:116-166 | A requester answered IdempotencyConflict for a hidden creation, submitting the call again before the deadline, is answered created=false with the row its first call created |
| EndToEnd.D1StampCoversDeadline | crates/lenso-business-approval-d1-plugin/src/host_facilities/store.mjs:15-19 | Under any policy with a requester and an executor, a run of calls the service admits, all clocks read in whole milliseconds, can leave a row that expired before its deadline if and only if the expiry's stamp is the earlier of its two readings |
| EndToEnd.PostgresReplay | crates/lenso-business-approval-core/src/lib.rs:116-166 | End-to-end replay on the committed rows of any PostgreSQL run in which the creation took effect, its reply delivered or lost |
| EndToEnd.PostgresResubmission | crates/lenso-business-approval-core/src/lib.rs:116-166 | Two PostgreSQL transactions begun for the same call, whatever else interleaves: when one created, its reply delivered or lost, the answer of the other is created=false with the status and revision of the row committed at its moment |
| EndToEnd.D1Replay | crates/lenso-business-approval-core/src/lib.rs:116-166 | End-to-end replay on the rows of any D1 run in which the creation took effect, its reply delivered or lost |
| EndToEnd.D1Resubmission | crates/lenso-business-approval-core/src/lib.rs:116-166 | Two D1 calls made for the same service call, in any order: when one created, its reply delivered or lost, the other, if answered, is answered created=false with the status and revision of the row in the table when it runs |
| EndToEnd.SelectAnswers | crates/lenso-business-approval-postgres-plugin/src/storage.rs:89-103 | In any reachable state a read answers with exactly the visible row and never fails to decode it |
| EndToEnd.PostgresReadIsolation | crates/lenso-business-approval-postgres-plugin/src/storage.rs:89-103 | Two databases reached by whatever runs, agreeing on one requester's rows, answer that requester's read alike |
| EndToEnd.D1ReadIsolation | crates/lenso-business-approval-d1-plugin/src/host_facilities/store.mjs:37 | The same for two D1 tables |
| Codec.Serialize | crates/lenso-capability-business-approval/src/generated.rs:564-590 | A known error is its code; any other is a map whose announced length is the number of its entries: code, then payload if any, then each extra member once in key order |
| Codec.BeforeIsLexicographic | crates/lenso-capability-business-approval/src/generated.rs:583-585 | The key order of the extra members: a proper beginning first, or else the smaller character where two keys first differ |
| Codec.WireIsUnique | crates/lenso-capability-business-approval/src/generated.rs:564-590 | That determines the wire form of every error |
| Codec.DeclaredCodes | crates/lenso-capability-business-approval/src/generated.rs:564-827 | The codes of the errors each of the five types declares |
| Codec.LookupIsExact | crates/lenso-capability-business-approval/src/generated.rs:599-605 | A code is found as a variant exactly if the type declares that variant with that code |
| Codec.Deserialize | crates/lenso-capability-business-approval/src/generated.rs:592-617 | A bare string is the declared variant with that code, or else an unknown error that keeps the code; an object with a string code is an unknown error that keeps the code, the payload and all other members; anything else is rejected |
| Codec.RoundTrip | crates/lenso-capability-business-approval/src/generated.rs:564-617 | Decoding what was encoded gives the error back exactly when its extra members avoid the names code and payload; known variants always come back |
| Codec.DecodeEncodeDecode | crates/lenso-capability-business-approval/src/generated.rs:564-827 | Every decoded error satisfies that condition, so decoding, encoding and decoding again changes nothing, for each of the five error types |
| Codec.AcceptedValues | crates/lenso-capability-business-approval/src/generated.rs:592-617 | Exactly strings and objects with a string code are accepted |

## Left out

- PostgresStore.PostgresStore.Request: a call that would wait for ever (a deadlock or a lock timeout) is reported as a failed statement; that no deadlock occurs is not claimed, and the locked lookup may take two rows in either order.
- ApprovalService.ApprovalService.Request: the service class drives the D1 store; over PostgreSQL the same statements are the `EndToEnd` lemmas about runs, because the generic store trait is not modelled.
- D1Store.D1Store.Request: what is answered to a receipt with a false change count is not described; nothing else tells the code whether it wrote.
- PostgresStore.PostgresStore.CommitWork: when a commit reports an error, whether it took effect is settled by the time the method returns; a server that commits only afterwards is covered by the runs of the state machine, not by the class.
- D1Runs.ExpiredRowsWereDue: does not bound `terminal_at` by the deadline, because the two clock readings of D1 allow it to be earlier.
- The JSON text and the UnknownDomainError library type.
- Storage errors carry no cause: the PostgreSQL plugin turns all of them into Unavailable before the service sees them.
- The stored approval keeps the ten intent fields in one nested record; in the source they are flat.
- Revision text in responses is kept as the number it prints; timestamps as the instants they print.
- `record_json` members the code never names are not represented, and the two rows of a D1 lookup come in a fixed order, since only their number and whether they decode matter.
- `denies_human_context` is a flag of the context; the library that computes it is not part of this model.
- Policy validation (caller lists of 1 to 64 distinct Instance keys) is not required by any theorem.
- Connection pools, secrets, operator actions, activation, D1 `setup` and `readiness`, and migrations as an upgrade: plumbing around libraries whose code is not here.
- Endpoint dispatch, client handles and wasm marshalling: generated wiring; a call that fails there is a lost or absent reply.
- The two secondary indexes of the table and the `lenso_approval_schema` table: they decide nothing the five operations return.
- Liveness, fairness and elapsed time: the code does not determine them.
