# Verified model of the Parallax kernel

Parallax is an event-sourced knowledge store with caches, a canary rollback controller and a
concurrent idempotency layer. This Dafny project models the parts of it whose correctness spans
several functions, several threads or a whole history, and proves what the source and its
documentation promise about them. Where a promise is false of the code, the code is kept as it is, a
lemma gives the input that breaks it, and another says exactly when the promise holds.

Verify everything with `dafny verify dfyconfig.toml`.

## How the model is laid out

Code that changes state step by step is a class with methods, each proved against a function of its
old state; what the source promises is then proved about those functions. Threads and crashes are a
state machine over values: one atomic action per lock operation, database statement or file access,
and invariants that hold along every run.

- **Idempotency** (`Idempotency.dfy`, `IdempotencyAnswers.dfy`, `IdempotencyOnce.dfy`,
  `IdempotencyFaults.dfy`, `IdempotencyProgress.dfy`, `IdempotencyRefusals.dfy`,
  `IdempotencyHandler.dfy`). Any number of `handle` calls over a lock table and an audit table;
  audit statements and workers may fail. Fast lookup, acquire, wait, re-check (two separate reads),
  worker, record, release are separate actions. The handler is also a class, and one undisturbed
  call of it is shown to be a run of the machine.
- **Event sourcing** (`EventLog.dfy`, `Replay.dfy`, `Backfill.dfy`, `LiveStore.dfy`, `Database.dfy`,
  `StoreProtocol.dfy`, `StoreRuns.dfy`, `StoreRaces.dfy`, `StoreReplay.dfy`, `Hashing.dfy`,
  `JoinedText.dfy`, `Contents.dfy`). Tables are one map from row reference to row, with the unique
  indexes written out; the log is a sequence. `Database` runs the writers one call at a time;
  `StoreProtocol` interleaves their statements, with crashes.
- **Subject index** (`SubjectIndex.dfy`, `PackageDirectory.dfy`, `SubjectIndexProtocol.dfy`,
  `SubjectIndexRuns.dfy`) and the **router** (`Router.dfy`). What a package file contains is a
  parameter, a function of its identity.
- **Rollback controller** (`SlidingWindow.dfy`, `Triggers.dfy`, `Rollback.dfy`,
  `RollbackHistory.dfy`, `RollbackTrips.dfy`): evicting windows against a specification that keeps
  every observation and recomputes, and against counts over the operations themselves.
- **Canonical JSON** (`JsonText.dfy`, `JsonPrinter.dfy`, `CanonicalJson.dfy`, `Utf8.dfy`,
  `JsonReader.dfy`, `CanonicalText.dfy`): the printer against a reader of its own.
- **File search** (`TextMatch.dfy`, `FileSearch.dfy`, `RecordedPaths.dfy`). NFC and case folding are
  parameters.
- **Offline queue** (`Wal.dfy`, `WalQueue.dfy`, `WalReplies.dfy`, `WalRuns.dfy`). Replies are an
  arbitrary sequence; an abort anywhere stands for a crash between a reply and its statement.
- `Ordering.dfy` and `Wrappers.dfy`: sorting, filtering, options and results.

## What turned out different from the documentation

- `handle` promises that the worker runs at most once per event id. One failed statement is enough to
  run it twice: the recording write, or one read inside the lock (`IdempotencyFaults.OneFaultRepeatsWorker`).
  Which statements may fail without that is `IdempotencyFaults.WorkerOnceIff`; body-less rows do no harm here.
- The audit row and its body are read by two statements, so a row left without a body by `record_ack`
  lets one caller see a status no worker produced (`IdempotencyFaults.StubTearsAnswer`). Callers agree
  for sure exactly when the table starts without such a row for the event and the worker is sure to
  finish at most once (`IdempotencyFaults.OneAnswerIff`).
- The log is said to rebuild the tables. Because the row and its creation event are two statements, a
  transition can log itself first; replay then gives the claim back in its first state
  (`StoreReplay.LateCreationMisleads`). `StoreReplay.RunReplaysIff` says exactly when replay is right.
  Backfill repairs a creation that was never logged, but not one that was logged late
  (`StoreReplay.RunRepairsIff`).
- `normalize` is not injective on its parts: two different memories can share one content hash
  (`Hashing.BarsCollide`). The cleaned parts can be read back exactly when no double bar stands inside
  one of them or comes about where it meets a separator, bars beside blanks not counting
  (`Hashing.JoinReadsBackIff`). A missing part is told from a text only as long as no text is the
  sentinel itself, which nothing in `normalize` checks (`Hashing.SentinelReadsBackIff`).
- `LIKE` folds only ASCII case, the trigram tokenizer more. The two plans of `by_file` select the same
  rows exactly when the path has no character the two fold differently (`FileSearch.BranchesAgreeIff`).
- Ingest indexes claims under their manifest ids, the scan under the ids in their own frontmatter
  (`SubjectIndexes.IngestScansAlikeIff`); one ingest of one package is enough for the index to
  disagree with the scan it caches (`SubjectIndexRuns.IngestMisleads`). A claim without its own
  id is not found by a scoped read when no claim of its package on that subject has one
  (`Router.ScopedReadIsFullRead`).
- An index is said to be as fresh as the file identities it records. It is not when a file is replaced
  between an ingest's unpack and its stat (`SubjectIndexRuns.ReplacementMisleads`), or when a file comes
  back that was replaced while a rebuild was between listing and reading it, even after that rebuild
  has ended (`SubjectIndexRuns.ReturnMisleads`). Without these two, reads agree with scans
  exactly when the ingested packages name their claims alike (`SubjectIndexRuns.ReadsAgreeIff`).
- Payloads are JSON text and paths are looked up as typed: a path with a backslash or quote inside, or a
  character outside printable ASCII, is not sure to be found in the events that record it
  (`RecordedPaths.FoundIffUnescaped`).
- A hundred dead queue rows below the age limit stop the queue until they expire (`OfflineQueue.SilentIff`).
- The specification of T4 says it trips at once; the gate downgrades it like the others, and the model
  follows the code.

## Model

| member | source | states |
|---|---|---|
| Idempotency.LockInvAlongRun | parallax/canary/idempotency.py:178-208 | in every reachable state refs counts exactly the calls between acquire and release, all on one lock object, and a held lock has one holder |
| Idempotency.LockDiscipline | parallax/canary/idempotency.py:178-208 | an entry exists exactly while some call refers to it, with that many refs, even with raising workers and failing writes |
| Idempotency.MutualExclusion | parallax/canary/idempotency.py:164-173 | never two calls of one event id inside the critical section |
| IdempotencyAnswers.OneAnswer | parallax/canary/idempotency.py:135-173 | with working reads inside the lock, a working recording write and no body-less row: all callers get one status and body, from the one worker that finishes, or from before; other statements, and those of other events, may fail |
| IdempotencyOnce.WorkerOnce | parallax/canary/idempotency.py:135-173 | from any table, body-less rows included, with working reads inside the lock and a working recording write: the worker finishes at most once, at most one hit=False, exactly one once all have ended unless a response was stored before |
| IdempotencyFaults.StubTearsAnswer | parallax/canary/idempotency.py:210-220 | a body-less row is enough for two callers to get different statuses with no fault at all |
| IdempotencyFaults.AnswerUniqueIffNoStub | parallax/canary/audit_log.py:182-207 | with no fault for the event callers always agree if and only if the starting table has no body-less row for it |
| IdempotencyFaults.OneFaultRepeatsWorker | parallax/canary/idempotency.py:210-263 | from any table without a response, for the recording write and for either read inside the lock: a run in which that one statement fails, once, and nothing else, and the worker finishes twice |
| IdempotencyFaults.TwoFaultsPerRun | parallax/canary/idempotency.py:153-173 | over a stored response: a run in which each of two calls loses one fast read and one read inside the lock, and both run the worker |
| IdempotencyFaults.WorkerOnceIff | parallax/canary/idempotency.py:135-173 | for any set of statements that may fail: at most once in every run if and only if the set spares both reads inside the lock and the recording write, or, with a stored response, spares one of the two lookups |
| IdempotencyFaults.OneAnswerIff | parallax/canary/idempotency.py:135-173 | for any set of statements that may fail: callers agree in every run if and only if the table has no body-less row for the event and the worker is sure to finish at most once |
| IdempotencyProgress.EffortFalls | parallax/canary/idempotency.py:135-173 | every action uses up remaining effort, so no call runs forever |
| IdempotencyProgress.SomeCallCanStep | parallax/canary/idempotency.py:163-173 | no deadlock: while a call has not ended, some call can act |
| IdempotencyProgress.NothingLeftBehind | parallax/canary/idempotency.py:194-208 | once all calls have ended the lock map is empty and nothing is held |
| IdempotencyRefusals.RefusedIff | parallax/canary/idempotency.py:149-150 | over every run a call ends refused if and only if it was begun with a malformed event id, and then no worker has finished for it |
| IdempotencyRefusals.MalformedTouchesNothing | parallax/canary/idempotency.py:149-150 | such a call is refused at once, whatever others do before and after, and leaves rows, locks and references alone |
| IdempotencyHandlers.IdempotencyHandler.AcquireLock | parallax/canary/idempotency.py:178-192 | hands out the entry's lock, the same object to every referent, with the count raised |
| IdempotencyHandlers.IdempotencyHandler.ReleaseLock | parallax/canary/idempotency.py:194-208 | lowers the count and drops the entry at zero |
| IdempotencyHandlers.IdempotencyHandler.LookupCached | parallax/canary/idempotency.py:210-220 | the stored response if row and body can both be read, otherwise a miss |
| IdempotencyHandlers.IdempotencyHandler.Handle | parallax/canary/idempotency.py:135-173 | an undisturbed request: a malformed event id is refused and touches nothing, and only that is refused; otherwise a readable stored response is answered as it is and the worker is not run, or the worker runs, its answer is returned and recorded, and its exception passed on; the lock map is as before on every exit path |
| IdempotencyHandlers.HandleAloneIsRun | parallax/canary/idempotency.py:135-173 | what `Handle` does, refusals included, is one of the interleavings the protocol allows |
| Replay.ReplayIsPerRow | parallax/replay.py:157-223 | replaying the whole log acts on each row separately as long as each unique key belongs to one row |
| Replay.CreationIsReplayed | parallax/replay.py:101-117 | a creation inserts the row it carries unless its id or its key is taken |
| Replay.ChangeIsReplayed | parallax/replay.py:119-154 | a change of either table moves the row it targets, if it is there, to its new state and time |
| Replay.RestIsIgnored | parallax/replay.py:168-223 | nothing else changes anything |
| Backfill.ReadInOrder | parallax/replay.py:157-166 | the whole log is read by time, events of one time by id, both by code point |
| Replay.RowFromLastEvent | parallax/replay.py:101-154 | with one creation logged, a row comes back as that creation's row in the state and time of the last event touching it, wherever the creation sorts |
| Replay.RebuildsExactlyIff | parallax/replay.py:157-233 | replay into empty tables gives exactly the live rows if and only if each row's creation is logged and the last event touching it shows it |
| Replay.InPlaceChangesNothingIff | parallax/replay.py:167-185 | replay over the live tables changes nothing if and only if each row's last change shows its state |
| Backfill.BackfillRepairs | parallax/replay.py:262-329 | backfill then replay rebuilds every row, wherever the synthesized events sort; a second backfill adds nothing |
| Backfill.BackfillRepairsIff | parallax/replay.py:262-329 | it does so if and only if the rows that already had a logged creation replay exactly; in place nothing changes |
| Backfill.BackfilledRow | parallax/replay.py:284-324 | row by row: at most one creation, dated changes untouched, and the last event shows the row exactly when its creation was missing or it did so before |
| Backfill.BackfilledEvents | parallax/replay.py:284-324 | the events added are exactly one per row without a creation, each of that row's user, type and target, carrying it whole and dated by its own creation time |
| LiveStore.LiveGoesOn | parallax/events/__init__.py:48-122 | a writer that appends one event and brings the tables to where it takes them keeps the log sufficient |
| LiveStore.LiveAfterCreation | parallax/ingest.py:199-227 | a first insert with its creation event keeps it |
| LiveStore.LiveAfterChange | parallax/events/__init__.py:247-268 | a transition with its event keeps it |
| LiveStore.LiveReplays | parallax/replay.py:157-233 | from such a store replay rebuilds the tables, and again or in place changes nothing |
| LiveStore.EveryRunReplays | parallax/replay.py:1-32 | every run of ingests, re-ingests, reaffirmations and transitions from an empty store replays exactly, twice over and in place |
| Databases.EveryEventCounted | parallax/replay.py:168-233 | every consumed event is counted under exactly one heading, or is a reaffirmation |
| Databases.CountersAre | parallax/replay.py:186-233 | each counter is the number of events of its kind that carry what replay needs |
| Databases.Database.RecordEvent | parallax/events/__init__.py:48-122 | half a target and orphans are refused without a trace, anything else is appended |
| Databases.Database.IngestMemory | parallax/ingest.py:152-242 | returns the id of the row that holds the content; deduped exactly when it was there before; logs the whole row or one reaffirmation |
| Databases.Database.IngestClaim | parallax/ingest.py:275-369 | as for memories, keyed by hash, source and user; refuses unknown states and other users' direct sources; a repeat logs nothing |
| Databases.Database.TransitionClaimState | parallax/events/__init__.py:180-268 | the row and its event together if and only if the claim is there, is the expected user's, both states are claim states, the present one is not rejected and the new one stands no lower in auto, pending, confirmed, rejected; otherwise the documented error without a trace |
| Databases.Database.Apply | parallax/replay.py:186-223 | one event's effect on the tables and on the counters |
| Databases.Database.ReplayEvents | parallax/replay.py:157-233 | the target becomes the replay of the ordered log, and the summary counts it |
| Databases.Database.BackfillCreationEvents | parallax/replay.py:262-329 | appends one synthesized creation for exactly the rows that lack one and reports how many |
| JoinedText.SeparableReadsBack | parallax/hashing.py:39-54 | separable parts are the only trimmed parts of their number with their joined text |
| Hashing.JoinReadsBackIff | parallax/hashing.py:39-54 | cleaned parts can be read back from the joined text if and only if they are separable: no double bar inside a part, or across a part and a separator |
| Hashing.NormalizeReadsBackIff | parallax/hashing.py:39-54 | with no text equal to the sentinel: equal texts come from equally cleaned parts, missing ones included, if and only if the cleaned parts are separable |
| Hashing.SentinelReadsBackIff | parallax/hashing.py:12-26 | with any texts: if and only if besides no part is missing or cleaned to the sentinel |
| Hashing.DigestOfThree | parallax/ingest.py:184 | the hash of a memory is of its title, summary and path, cleaned or missing, with double bars between |
| Hashing.DigestOfFive | parallax/ingest.py:308-311 | that of a claim of subject, predicate, object, source and user |
| Contents.SameMemoryIff | parallax/ingest.py:184-199 | two memories compete for one row if and only if they are of one user and agree, up to cleaning, in title, summary and path - when digests do not collide, no text is the sentinel and the parts are separable |
| Contents.SameClaimIff | parallax/ingest.py:308-336 | two claims: of one user and source, and agreeing in subject, predicate and object |
| Hashing.BarsCollide | parallax/hashing.py:48-59 | parts with bars can collide: one hash for two memories with different titles and summaries |
| StoreProtocol.NextKeeps | parallax/ingest.py:199-227 | every single statement of any call, and every crash, keeps the protocol's invariant |
| StoreProtocol.SwapKeeps | parallax/events/__init__.py:247-268 | the compare-and-set keeps it, and refuses a caller whose read is out of date |
| StoreProtocol.InvAlongRun | parallax/events/__init__.py:221-268 | so it holds along every interleaving |
| StoreRuns.ClaimChain | parallax/events/__init__.py:180-268 | each claim's state changes form a chain of allowed moves, each from where the last one ended, from its creation state to the row's state and time |
| StoreRuns.ClaimsMoveOnward | parallax/transitions.py:33-38 | over every interleaving a claim never moves back in auto, pending, confirmed, rejected, and never leaves rejected |
| LiveStore.AllowedIsOnward | parallax/transitions.py:33-38 | the table of allowed moves is exactly that order, on claim states alone |
| LiveStore.VerdictIs | parallax/events/__init__.py:221-241 | which error a transition gets, and when it gets none, in those terms |
| StoreRuns.NoOrphans | parallax/events/__init__.py:76-93 | over every interleaving with any crashes, each event names a row that is there and that row's user |
| StoreRuns.RejectedIsFinal | parallax/transitions.py:33-38 | nothing follows rejected |
| StoreRuns.OneRowPerContent | parallax/ingest.py:152-237 | concurrent ingests: one row per content, all callers get its id, exactly one is not deduped and its candidate is logged whole, once |
| StoreRuns.OneReaffirmationPerDuplicate | parallax/ingest.py:208-213 | every other memory ingest appends one reaffirmation and no row changes |
| StoreRaces.OneWinner | parallax/events/__init__.py:221-268 | of two transitions that have read one claim in the same state and want it elsewhere at most one is ever applied, whatever else runs; the other is told that the claim changed, and it has |
| StoreRaces.SwapIs | parallax/events/__init__.py:247-268 | the write goes through if and only if the claim still stands as it was read; then row and event change together, otherwise nothing does |
| StoreRaces.NothingBreaks | parallax/ingest.py:199-237 | over every interleaving an ingest finds the row it re-selects and logs; it returns that row's id and whether it is another's |
| StoreReplay.RunReplaysIff | parallax/replay.py:157-233 | after any interleaving, with the log read in append order, replay is exact if and only if every row's creation was logged in time; in place it always changes nothing |
| StoreReplay.AnyOrderReplaysIff | parallax/replay.py:157-166 | whatever the timestamps and ids: replay is exact if and only if each row's creation is logged and the event read last shows the row, and changes nothing in place if and only if the change read last does |
| StoreReplay.RunRepairsIff | parallax/replay.py:262-329 | after any interleaving with any crashes, backfill then replay is exact if and only if every creation that was logged was logged in time |
| StoreReplay.LateCreationMisleads | parallax/ingest.py:199-227 | a transition between an insert and its creation event: both calls succeed and replay restores the wrong state |
| SubjectIndexes.IngestScansAlikeIff | parallax/apex/aphelion_ingest.py:559-578 | ingest and scan give a package the same entries if and only if each subject-bearing claim has one name |
| SubjectIndexes.ScanIsExact | parallax/apex/router.py:790-815 | a full scan lists for each file exactly that file's entries |
| SubjectIndexes.ScanEntryIs | parallax/apex/router.py:790-815 | a scan's entries are the claims with a subject and an own id: under that subject, with the file, the package id and the own id each in its place |
| SubjectIndexes.IngestEntryIs | parallax/apex/aphelion_ingest.py:559-578 | an ingest's are the claims with a subject, with their manifest ids |
| SubjectIndexes.FreshIsExact | parallax/apex/subject_index.py:393-398 | a sound index whose identities are the live listing agrees with a scan of every package |
| SubjectIndexes.UpdateFreshIff | parallax/apex/subject_index.py:328-373 | after an update the index is fresh if and only if every other package on disk was recorded as it is now |
| SubjectIndexes.UpdatedPackages | parallax/apex/subject_index.py:339-373 | a changed, new or unrecorded other package is never certified by an update |
| SubjectIndexes.UpdateStaysSound | parallax/apex/subject_index.py:347-378 | an update keeps the index sound even when the directory has moved on since it was listed |
| SubjectIndexes.UpdateEqualsRebuild | parallax/apex/subject_index.py:307-379 | with the others recorded, same identities and same packages per subject as a full rebuild |
| SubjectIndexes.UpdateExactIff | parallax/apex/subject_index.py:341-378 | the ingested package's entries are right if and only if they are what its file holds at the stat |
| SubjectIndexes.ReturningIdentity | parallax/apex/subject_index.py:410-425 | a rebuild that lists one directory and scans another pairs identities with other files' entries: exact for a file only if both give it the same entries |
| PackageDirectories.PackageDirectory.CurrentPackages | parallax/apex/subject_index.py:206-220 | the identities on disk, by name |
| PackageDirectories.PackageDirectory.ScanIndexEntries | parallax/apex/router.py:790-815 | the full scan, or nothing when a package does not verify |
| PackageDirectories.PackageDirectory.UpdateIndexForPackage | parallax/apex/subject_index.py:307-379 | the stored index becomes the incremental update |
| PackageDirectories.PackageDirectory.LoadOrRebuild | parallax/apex/subject_index.py:387-433 | a fresh index is served as it is, otherwise a rebuild; from a sound store the result agrees with a scan |
| SubjectIndexProtocol.NextKeeps | parallax/apex/subject_index.py:307-433 | every file access, careful package change, ingest of an alike-named package, index loss and crash keeps every index in play sound |
| SubjectIndexProtocol.ReadAgreesWithScan | parallax/apex/subject_index.py:387-433 | an index a read returns agrees with a scan of every package on disk while the directory has not changed since the read began; packages may come, be replaced, go and return |
| SubjectIndexProtocol.StoredIsSound | parallax/apex/subject_index.py:328-337 | the stored index never certifies a wrong entry, whoever wrote it last |
| SubjectIndexProtocol.FailsIff | parallax/apex/router.py:790-815 | a rebuild fails at a file if and only if it has gone or does not verify |
| SubjectIndexRuns.ReadsAgreeIff | parallax/apex/subject_index.py:387-433 | reads agree with scans in every careful run if and only if each ingested package that verifies has one name for each subject-bearing claim |
| SubjectIndexRuns.IngestMisleads | parallax/apex/aphelion_ingest.py:559-578 | one ingest and one read of an unchanging directory: what the read serves agrees with a scan if and only if the claims are named alike |
| SubjectIndexRuns.ReplacementMisleads | parallax/apex/subject_index.py:328-378 | a file put in place between an ingest's unpack and its stat is served with the entries of the file it replaced |
| SubjectIndexRuns.ReturnMisleads | parallax/apex/subject_index.py:410-425 | a file replaced between a rebuild's listing and its scan, and restored before the save or after: the next read serves the replacement's entries for it |
| SlidingWindows.EvictionExactIff | parallax/canary/triggers.py:103-106 | popping stale samples from the front keeps exactly the fresh ones if and only if no stale sample stands behind a fresh one |
| SlidingWindows.ReadIsExact | parallax/canary/triggers.py:86-117 | for rising times, values and count are those of all samples since the reset inside the window |
| SlidingWindows.LateSampleIsKept | parallax/canary/triggers.py:103-106 | an out-of-order sample outstays its window |
| SlidingWindows.SlidingWindow.Values | parallax/canary/triggers.py:108-110 | evicts, then returns what is left in order |
| Triggers.RateBreachIff | parallax/canary/triggers.py:155-169 | a rate breaches if and only if there are samples and at least one in two hundred is marked |
| Triggers.P99BreachIff | parallax/canary/triggers.py:234-258 | p99 breaches if and only if at least floor(n/100) + 1 samples reach the threshold |
| Triggers.P99Reaches | parallax/canary/triggers.py:234-258 | the reported p99 reaches a level, any level, if and only if floor(n/100) + 1 samples do |
| Triggers.RateReported | parallax/canary/triggers.py:155-169 | the reported rate times the number of samples is the number marked |
| Triggers.P99OrderIrrelevant | parallax/canary/triggers.py:234-258 | whatever order the samples arrived in |
| RollbackHistory.ControllerRefinesHistory | parallax/canary/rollback.py:166-225 | the controller with evicting windows has the state, verdicts and row that filtering the whole history gives |
| RollbackHistory.TripNeedsHitsAndNamesFirst | parallax/canary/rollback.py:190-253 | a trip from running happens exactly with fifty hits in 300 s and a breaching evaluation, and names the first that breaches |
| RollbackTrips.TripsIff | parallax/canary/rollback.py:190-253 | in numbers of the operations since the last acknowledgement: from running it trips if and only if 50 requests fall within 300 s and one in 200 of them failed within 300 s, or one in 200 differed within 180 s, or floor(n/100) + 1 took 100 ms within 300 s, or a loss was reported; it is named after the first of these that holds |
| RollbackTrips.VerdictsShown | parallax/canary/rollback.py:190-225 | each evaluation leaves the verdicts of T1 to T4 of that moment, in those numbers, and the gate's; below 50 requests all say insufficient data |
| RollbackTrips.WaitsIff | parallax/canary/rollback.py:210-215 | once tripped it awaits acknowledgement from 1800 s, or the set cooldown, after the trip on, and evaluations change nothing else |
| RollbackTrips.AcknowledgesIff | parallax/canary/rollback.py:291-338 | only a named operator on a waiting controller brings it back to running; the gate's hits stay; anything else changes nothing |
| RollbackHistory.TrippedFieldsExact | parallax/canary/rollback.py:273-276 | tripped_at and tripped_by are set exactly when not running |
| RollbackHistory.OnlyTheCycle | parallax/canary/rollback.py:206-215 | the only moves are running, tripped, awaiting_ack, running, the last by a named operator |
| RollbackHistory.TripsAreSpaced | parallax/canary/rollback.py:210-213 | successive trips are at least the cooldown apart |
| RollbackHistory.RowMirrorsState | parallax/canary/rollback.py:255-265 | with working writes the durable row shows the state and what tripped it |
| Rollback.RollbackController.ObserveRequest | parallax/canary/rollback.py:166-180 | one request feeds T1, T2, T3 and T5 |
| Rollback.RollbackController.ObserveDataLoss | parallax/canary/rollback.py:182-184 | a negative count is refused, any other added to T4 |
| Rollback.RollbackController.Evaluate | parallax/canary/rollback.py:190-225 | the object's fields become those of the evaluated controller, about which `RollbackTrips.TripsIff` and `RollbackHistory.ControllerRefinesHistory` are |
| Rollback.RollbackController.Acknowledge | parallax/canary/rollback.py:291-338 | only from awaiting_ack with a nonempty operator; T1 to T4 reset, T5 not |
| Rollback.RollbackController.FindBreach | parallax/canary/rollback.py:267-271 | the first breaching evaluation |
| CanonicalJson.NfcValue | parallax/apex/canonical_json.py:28-50 | the recursive normalizer with its loops computes the specified form or the colliding key |
| CanonicalJson.NormalizeExact | parallax/apex/canonical_json.py:28-50 | every string and key normalized in place, or refused, exactly when two keys of a dict collide |
| CanonicalJson.RefusedIffCollision | parallax/apex/canonical_json.py:36-48 | the serializer refuses a value if and only if two keys of one of its dicts normalize alike |
| CanonicalJson.SameBytesIffSameMeaning | parallax/apex/canonical_json.py:53-71 | equal bytes if and only if the normalized values are equal up to key order |
| CanonicalText.BytesReadBack | parallax/apex/canonical_json.py:53-71 | the bytes decode and read back, by a decoder and a reader of their own, to a value of the same meaning whose keys ascend by code point in every dict, at every depth |
| JsonReader.ReadsIffPrinted | parallax/apex/canonical_json.py:65-71 | a text is read as a value if and only if it is what the printer prints for it |
| CanonicalJson.InsertionOrderIrrelevant | parallax/apex/canonical_json.py:53-71 | equal dicts get equal bytes, whatever their insertion order, or are refused together |
| JsonPrinter.PrintPrefixFree | parallax/apex/canonical_json.py:65-71 | a printed value ends where it ends: injective through nesting |
| JsonText.QuotePrefixFree | parallax/apex/canonical_json.py:65-71 | string literals with their escapes (section 7 of RFC 8259) determine the string and where it ends |
| Utf8.EncodeInjective | parallax/apex/canonical_json.py:71 | the byte encoding loses nothing |
| Utf8.DecodesBack | parallax/apex/canonical_json.py:71 | every text is decoded from its bytes (section 3 of RFC 3629) |
| TextMatch.LikeEscapeIsPerCharacter | parallax/retrieve.py:323-332 | the three successive replaces equal one per-character escape |
| TextMatch.LikeIsSubstring | parallax/retrieve.py:628-636 | the escaped pattern is substring search, whatever wildcards the path has |
| TextMatch.ScopedMatchRoundTrip | parallax/retrieve.py:360-402 | the composed MATCH expression is read back as exactly the user's tag and the text |
| TextMatch.PhraseIsSubstring | parallax/retrieve.py:342-372 | from three characters on, consecutive trigrams are a substring |
| FileSearch.LikeSelectsExactly | parallax/retrieve.py:628-636 | the LIKE plan selects the user's file events whose payload contains the path |
| FileSearch.FtsSelectsExactly | parallax/retrieve.py:619-627 | so does the indexed plan, for every user id but the empty one |
| FileSearch.ByFileExact | parallax/retrieve.py:592-636 | either plan, when both engines fold alike |
| FileSearch.ByFileIs | parallax/retrieve.py:316 | selected are the given user's tool edits, tool writes and file edits whose payload reads like the path at some position |
| FileSearch.PlanIs | parallax/retrieve.py:592-636 | from three characters on and with the index there, by its folding, otherwise by that of `LIKE` |
| FileSearch.BranchesAgreeIff | parallax/retrieve.py:617-636 | the plans agree on all rows if and only if no character of the path is folded differently |
| FileSearch.AsciiRowsAgree | parallax/events/__init__.py:95 | on ASCII payloads, which recording writes, and ASCII paths they agree |
| RecordedPaths.FoundIff | parallax/events/__init__.py:95 | a path is found in whatever payload it is recorded if and only if its own JSON literal contains it |
| RecordedPaths.FoundIffUnescaped | parallax/retrieve.py:592-636 | which, for a path without a quote or backslash at its ends, holds if and only if JSON escaping leaves it unchanged |
| RecordedPaths.UnprintableIsMissed | parallax/retrieve.py:617-636 | a path with a character that folds like no printable one is found in no payload |
| RecordedPaths.FindableIff | parallax/retrieve.py:617-636 | for any folding: a path is found in some payload if and only if each of its characters folds like a printable one |
| FileSearch.TagScopesToUser | parallax/retrieve.py:374-386 | for row ids free of the sentinel the tag matches exactly when the ids fold alike |
| FileSearch.TagScopesIff | parallax/retrieve.py:374-386 | a given row matches every tag exactly when the ids fold alike, if and only if its id is free of the sentinel, or one character long |
| FileSearch.SentinelLeaks | parallax/retrieve.py:374-386 | an id with the sentinel inside would match another user's tag |
| OfflineQueue.BatchCounts | parallax/wal.py:166-227 | a drain completes exactly when sent + failed + skipped is the size of its batch |
| OfflineQueue.DrainCounts | parallax/wal.py:143-227 | a whole drain has sent + failed + skipped equal to the smaller of a hundred and the rows left by eviction exactly when it completes, and less when aborted |
| OfflineQueue.RequestsAreLiveRows | parallax/wal.py:166-206 | requests are the batch's live rows, each once, answered in turn |
| OfflineQueue.LiveKeysGrow | parallax/wal.py:166-170 | and go out in the order of the queue's keys |
| OfflineQueue.DrainLosesWeight | parallax/wal.py:172-222 | a completed drain whose batch holds a live row lowers the sum of 6 - attempts |
| OfflineQueue.SilentIff | parallax/wal.py:166-178 | no request if and only if none of the hundred oldest rows is live; then only eviction has happened |
| WalQueues.LoopMeetsFunction | parallax/wal.py:172-222 | handling rows one after the other is the specified function of the batch, also when aborted half-way |
| WalQueues.WalQueue.Enqueue | parallax/wal.py:98-117 | a new row with the next key |
| WalQueues.WalQueue.Drain | parallax/wal.py:128-227 | nothing for a foreign scheme; otherwise evict, post the oldest hundred, settle each reply before the next; what becomes of each row is `WalReplies.DrainedRow` |
| WalReplies.DrainedRow | parallax/wal.py:128-227 | each row by itself: gone when it failed five times and is past the age limit; untouched outside the batch, when given up or never posted; posted at most once, and then deleted by 200-299 or 400-499, one attempt up by any other status or a network error, untouched by an abort |
| WalReplies.DrainedOrder | parallax/wal.py:128-227 | what is left stands in the queue's order, and is nothing but what was there |
| WalReplies.DrainCounters | parallax/wal.py:172-227 | sent counts the 200-299, failed every other reply and network error, skipped the rows given up |
| WalRuns.NothingIsLost | parallax/wal.py:98-227 | over every run each key is queued, settled by one reply of 200-299 or 400-499, or evicted after five failures past the age limit: exactly one; attempts counts failures and never exceeds 5; what is queued or evicted under a key is what was enqueued under it |
| Router.LoadSucceedsIff | parallax/apex/router.py:570-578 | a load succeeds exactly when every file it names is there and verifies |
| Router.ScopedReadIsFullRead | parallax/apex/router.py:529-578 | with an exact index the scoped load gives the same claims of a subject in the same order as the full load, if and only if every package carrying it has a claim about it with its own id |
| Router.MergedIs | parallax/apex/router.py:758-771 | the merge is the hits at their first appearances, in candidate order, and nothing else |
| Router.EachIdOnce | parallax/apex/router.py:766-771 | each nonempty id of the hits exactly once |
| Router.HitsFailIff | parallax/apex/router.py:758-771 | the query fails if and only if the read of some candidate that leads to packages does |
| Router.HitsAt | parallax/apex/router.py:758-771 | otherwise each candidate's hits stand whole, one candidate after the other in rank order |
| Router.LoadedAt | parallax/apex/router.py:570-578 | a load that succeeds holds every claim of every named file under its package's id, file after file and in order |
| Router.ApexRouter.LoadCandidateClaims | parallax/apex/router.py:529-578 | the loop loads the listing or its scoped part and notes an empty corpus |
| Router.ApexRouter.MergeCandidates | parallax/apex/router.py:758-771 | the merge loop with its seen set computes that merge, or fails with a failing read |

## Left out

- SQLite itself: PRAGMAs, WAL files, foreign keys, the `sources` rows, NOT NULL and type affinity. A
  statement is one atomic update of a map.
- SHA-256, ULID minting, NFC tables, the set of blanks and the clock: parameters. Ids passed to the writers are fresh.
- UUID v7 parsing: a flag says whether an id is well formed; two spellings of one UUID are two ids.
- Aphelion unpack, verification, signatures, R4 detection and token-overlap resolution: what a package
  holds, what a per-subject read returns and which subjects are candidates are inputs.
- HTTP, relays, the CLI, the server, metrics, logging and traces: input and output.
- `force_running`, and the audit row that `acknowledge` writes: a test helper, and a best-effort write
  that no decision reads.
- Floating-point rounding of rates and percentiles: exact reals.
- Floats, tuples and lone surrogates in canonical JSON: the printer refuses or never meets them.
- ORDER BY and LIMIT of `by_file`, its scores and its trace: selection only.
- The other `by_*` reads: the same matchers again.
- Replay.RebuildsExactlyIff: state changes without `updated_at`, as old events have them, are replayed
  by the model but excluded from its exactness theorems.
- Databases.Database.ReplayEvents: the skipped event types are a set; the source sorts their names.
- StoreProtocol.InvAlongRun: other writers of the same tables (extraction, review, migrations) are not
  actions; a reaffirmation outside ingest is an event that creates and changes nothing.
- SubjectIndexProtocol.ReadAgreesWithScan: for runs of careful changes (no other file is put in place
  between an ingest's unpack and its stat, and an identity that went away while a rebuild had listed and
  not read it stays away while the index file or a call still records it) and alike-named ingests; the
  lemmas of `SubjectIndexRuns` show a run against each. Opening a package is one access.
- RecordedPaths.FoundIffUnescaped: for foldings under which printable characters stay printable, marks
  stay marks, and no other character becomes one that escapes are spelled with, as holds for `LIKE` and
  for the trigram tokenizer; and for paths without a mark at an end. `FoundIff` holds for all. The rest
  of a payload is any printable text.
- Hashing.NormalizeReadsBackIff: lists of one length, as each of the two callers has. Of NFC it is used
  that it changes no part of a text that it keeps, nor two such texts with a separator between them.
- WalRuns.NothingIsLost: one process drains at a time. Settled means by a reply the queue has seen: the
  server may have accepted an event more than once when a 2xx was lost to a crash.
- PackageDirectories.PackageDirectory.LoadOrRebuild: `built_at` and the staleness gauge.
- Router.ApexRouter.MergeCandidates: notes and stages of the evidence, and the empty-corpus early return.
