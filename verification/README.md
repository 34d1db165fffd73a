# Trade Trace: a verified model of the journal

Trade Trace is an append-only journal for trading decisions: an idempotent event log, projections
rebuilt from it, an outbox exporter, and read models over both.  This project models its stateful
and arithmetic core in Dafny and proves what the design promises - over every schedule, every
crash point, every input and every later history - or, where the code does not keep a promise,
exactly when it does.

`dafny verify dfyconfig.toml` checks everything.

## Layout

| file | what it models |
|---|---|
| `semantic_keys.dfy` | payload equivalence per event type, derived idempotency keys |
| `event_log.dfy`, `outbox.dfy` | `EventWriter`: replay, conflict, append; the rows of the outbox |
| `unit_of_work.dfy` | the transaction state machine: begin, commit, rollback, dry run |
| `dispatch.dfy` | one tool call: admission, the single lock retry, its trace records |
| `write_protocol.dfy`, `ownership.dfy` | any number of calls contending for the writer lock, as a step system; whose rows end up in the log |
| `replies.dfy`, `retries.dfy` | what a successful reply names, and when a retry's reply is right |
| `lock_recovery.dfy` | the trace checker, against every trace that dispatching can emit |
| `projections.dfy`, `live_positions.dfy` | the position fold and its rebuild; the rebuild read as one event at a time (the source has no incremental updater) |
| `pnl.dfy`, `remark.dfy` | the cash ledger behind P&L; the live re-mark against a fresh rebuild |
| `export_paths.dfy`, `exporter.dfy`, `export_safety.dfy` | file names, the drain with a fault at any step, runs of drains, commits and restores |
| `calibration.dfy` | binning, expected calibration error, Brier inequalities |
| `pagination.dfy` | keyset pages over tables that change between pages; the in-memory lifecycle pages |
| `replay.dfy`, `selection.dfy`, `case_context.dfy` | point-in-time cases; which rows a request selects and what a case shows, column by column |
| `look_ahead.dfy` | the proof that later rows cannot influence them |
| `civil_time.dfy`, `timestamps.dfy`, `readiness_windows.dfy` | the calendar, canonical timestamp text, trend windows decided on text |
| `trace_rotation.dfy`, `opportunity.dfy`, `filter_support.dfy`, `tool_registry.dfy`, `cli_args.dfy` | the rotating log, excursions and coverage, filter trees, the registry, command-line arguments |
| `orders.dfy`, `arithmetic.dfy`, `decimals.dfy`, `text.dfy` | sorting, division, numerals and splitting |

Objects whose methods update their fields in the source (`EventWriter`, `UnitOfWork`, the
dispatcher, the projection store, the exporter, the trace log, the tool registry) are classes whose
methods are proved against a specification function; loops are loops with invariants.  Expressions
and recursion are functions and lemmas.  What such a function computes is also said without it, from the
columns of the rows alone, so that a wrong function would be noticed.

## What the code does not keep

The model follows the code, also where its own documentation says otherwise.

Each entry names the exact condition and, where there is one, a lemma at a failing input.

- The average entry price is never reset when a position re-opens, although the docstring of
  `rebuild_positions` says a re-open starts a new accumulation: `ProfitAndLoss.AddAfterRoundIff`,
  `ProfitAndLoss.AddAfterExitIff`, `ProfitAndLoss.AddAfterExitFails`.
- Realized P&L is not aware of the `no` side's complement while the mark is:
  `ProfitAndLoss.ComplementLedgerIff`, `ProfitAndLoss.ComplementLedgerFails`.
- A conflict may name no differing field, because it is decided on JSON text and reported by
  Python's `==`: a missing field against null, 1 against 1.0, or reordered items that tie and read
  equal.  `SemanticKeys.ConflictWithoutDiffIff`, `SemanticKeys.NumberConflictWithoutDiff`,
  `SemanticKeys.NullConflictWithoutDiff`.
- Reordering a sorted array shows when two different items tie: `SemanticKeys.ReorderIgnoredIff`,
  `SemanticKeys.SwapTiedChangesSort`.
- A failed call need not leave the log unchanged: what its earlier units of work committed stays,
  as when the handler then returns something that is not a dict (src/trade_trace/core.py:701-711).
  `Ownership.OwnsRowIff`, `Ownership.FailedCallMayCommit`.
- The `event_id` of a reply can be left over from a first attempt that was rolled back:
  `Retries.SuccessNamesWhatWasKept`, `Retries.RetryNamesIff`,
  `Replies.StaleHintNamesAnotherCallsEvent`.
- Trend windows compare ISO text in which `.` sorts below `Z`, so a resolution within the second of
  a boundary can be counted in the neighbouring window, or fall out of the oldest one:
  `ReadinessWindows.CountedWhere`, `ReadinessWindows.CountedOnceIff`,
  `ReadinessWindows.AResolutionIsLost`.
- A legacy scalar cursor drops rows that share the last timestamp: `Pagination.LegacyCursorLoses`,
  `Pagination.LegacyCursorSkips`.
- A replay case echoes `valid_to` and `invalidated_at` as they are on record now, and the reason an
  as-of reference is rejected depends on later rows: `LookAhead.AnswerInViewIff`,
  `LookAhead.SameRejectionIff`, `LookAhead.LaterEndIsEchoed`, `LookAhead.RejectionTellsTheFuture`.
- A repeated flag whose first value is itself a list extends that list:
  `CliArgs.RepeatedFlagIff`, `CliArgs.RepeatedFlagExtends`.

## Model

| member | source | states |
|---|---|---|
| SemanticKeys.StripPayload | src/trade_trace/events/semantic_keys.py:378-395 | the loop keeps the structural fields present, sorting arrays that have a sort key, and fails exactly when some such array cannot be sorted |
| SemanticKeys.CanonicalIs | src/trade_trace/events/semantic_keys.py:378-407 | the canonical form keeps exactly the structural fields present, unchanged, but for the arrays with a sort key, which hold the same items ascending by that key: numbers by value, text by code point |
| SemanticKeys.SameSortIff | src/trade_trace/events/semantic_keys.py:386-393 | two arrays sort alike exactly when, tie class by tie class, they list the same items in the same order |
| SemanticKeys.EquivalentIff | src/trade_trace/events/semantic_keys.py:398-407 | two payloads are equivalent exactly when they have the same structural fields present, equal where unsorted and equal class by class where sorted: free text and other fields do not matter |
| SemanticKeys.ReorderIgnoredIff | src/trade_trace/events/semantic_keys.py:386-393 | every reordering of a sorted array is ignored if and only if no two different items tie |
| SemanticKeys.SwapTiedChangesSort | src/trade_trace/events/semantic_keys.py:386-393 | swapping two different tied items always shows in the canonical form |
| SemanticKeys.PayloadsEquivalent | src/trade_trace/events/semantic_keys.py:490-517 | the comparison says equivalent exactly for equal canonical forms, and otherwise lists the structural fields that do not read equal under Python's `==`, a missing one reading as null |
| SemanticKeys.ConflictWithoutDiffIff | src/trade_trace/events/semantic_keys.py:505-517 | a structural field is listed exactly when it reads differently; so a conflict lists none exactly when every field reads the same: present in both and equal under `==` (sorted arrays tie class by tie class), or missing against null |
| SemanticKeys.SortsReadEqualIff | src/trade_trace/events/semantic_keys.py:386-393 | two arrays sort to lists that read equal exactly when, tie class by tie class, they list items that read equal in the same order |
| SemanticKeys.NumberConflictWithoutDiff | src/trade_trace/events/semantic_keys.py:503-517 | 1 against 1.0 is a conflict that lists no field |
| SemanticKeys.NullConflictWithoutDiff | src/trade_trace/events/semantic_keys.py:503-517 | a missing field against a null one is a conflict that lists no field |
| SemanticKeys.EquivalentReportsNothing | src/trade_trace/events/semantic_keys.py:503-513 | equivalent payloads have no field that reads differently |
| EventLog.WriteKeepsWellFormed | src/trade_trace/events/log.py:243-313 | a write keeps ids consecutive, at most one event per (type, actor, key), and one outbox row for exactly the events written while export was on |
| EventLog.WriteOutcome | src/trade_trace/events/log.py:219-331 | a write changes nothing unless it appends one row (with one outbox row exactly when export is on); a success returns a stored row that answers the request; a conflict names a stored row with the same key that is not equivalent |
| EventLog.FreshRowIs | src/trade_trace/events/log.py:266-331 | a fresh row has, column by column, what was asked: id one more than the rows, type, subject, the whole payload, actor, cleaned key, the given time, request id and origin, and a pending JSONL outbox row exactly when export is on |
| EventLog.WritesFreshIff | src/trade_trace/events/log.py:221-264 | a write appends exactly when the type is registered, the actor and key are well formed, a key is given or waived, no row has that type, actor and key, and the payload compares; otherwise which error comes first |
| EventLog.ReplayOrConflict | src/trade_trace/events/log.py:243-264 | after a keyed success, any later write under that key in any longer log returns that very row or conflicts with it, and never appends |
| EventLog.DerivedKeyReplays | src/trade_trace/events/semantic_keys.py:467-487 | payloads that are equivalent derive the same automatic key, so the second write is a replay and never a conflict |
| EventLog.EventWriter.FindExisting | src/trade_trace/events/log.py:177-194 | finds the first row with this type, actor and key, or nothing |
| EventLog.EventWriter.Write | src/trade_trace/events/log.py:196-331 | the method leaves the tables and returns the record exactly as the write specification says, error order included; a fresh record has every column as asked |
| UnitsOfWork.UnitOfWork.Enter | src/trade_trace/events/unit_of_work.py:87-93 | takes the writer lock on the committed tables, or fails and changes nothing while another holds it |
| UnitsOfWork.UnitOfWork.RegisterProjection | src/trade_trace/events/unit_of_work.py:69-74 | queues the updater last |
| UnitsOfWork.UnitOfWork.Rollback | src/trade_trace/events/unit_of_work.py:84-85 | returns to the committed tables and releases the lock |
| UnitsOfWork.UnitOfWork.Commit | src/trade_trace/events/unit_of_work.py:76-82 | runs the projections in order; commits all or, on a dry run, nothing; raises, committing nothing, exactly when a projection or the COMMIT statement does |
| UnitsOfWork.UnitOfWork.Exit | src/trade_trace/events/unit_of_work.py:95-103 | whatever raised - the block, a projection or COMMIT itself - the tables end committed as a whole or as they were, with the lock released |
| UnitsOfWork.UpdatersRunInOrder | src/trade_trace/events/unit_of_work.py:76-79 | the projections run in order of registration, each on the tables as the ones before it left them, up to the first that raises |
| UnitsOfWork.ExitIs | src/trade_trace/events/unit_of_work.py:95-103 | leaving the block frees the lock; the working log, outbox and updated tables are committed exactly when nothing raised and it was no dry run |
| Dispatching.TraceTellsAttempts | src/trade_trace/core.py:716-735 | the records of a call are one for each attempt that did not escape, in order: the k-th attempt numbered k, with its outcome, and naming the request as retried exactly when k is not the first |
| Dispatching.AdmissionIs | src/trade_trace/core.py:529-598 | when a call is refused, with which code, when it escapes, and with which arguments it is run otherwise: its own, but for the derived key of a retryable write whose key is missing or falsy |
| Dispatching.ResultsAre | src/trade_trace/core.py:604-738 | an admitted call runs its handler under the dry-run flag it asks for (`_dry_run` is true) or that was set before: once, and once more exactly after the lock was hit |
| Dispatching.OnlyTheDryRunIsSeen | src/trade_trace/core.py:604-610 | two handlers that agree on dry runs give a call that asks for one the same results |
| Dispatching.RefusalTells | src/trade_trace/core.py:507-526 | a refusal leaves one record, with its code and of no attempt |
| Dispatching.Dispatcher.RunAttempts | src/trade_trace/core.py:716-735 | runs the handler once, and once more exactly after a lock failure |
| Dispatching.Dispatcher.Dispatch | src/trade_trace/core.py:491-738 | refuses, derives a key, or returns what the handler returns under the dry-run flag the call asks for, retried exactly after a lock failure; the flag is restored and the trace gains exactly this call's records |
| WriteProtocol.StepKeepsLog | src/trade_trace/events/unit_of_work.py:76-103 | every step of every call keeps: only the lock holder is in a transaction, the committed log is well formed and only grows, every committed row belongs to a call that is not a dry run |
| WriteProtocol.Safety | src/trade_trace/core.py:716-738 | in every schedule of calls, lock failures, retries, dry runs, errors and kills: one writer at a time, an append-only log, unique keys, one outbox row for exactly the events written with export on |
| WriteProtocol.OnlyCommitsChangeTheLog | src/trade_trace/events/unit_of_work.py:76-103 | the log changes only when a call that is not a dry run leaves its unit of work normally |
| WriteProtocol.DryRunsOwnNothing | src/trade_trace/core.py:604-610 | in every schedule no row in the log belongs to a call whose arguments ask for a dry run |
| WriteProtocol.ConflictEndsCall | src/trade_trace/core.py:660-674 | a write under a stored key with a payload that is not equivalent ends the call as an idempotency conflict and leaves the log as it was |
| WriteProtocol.BeginAgainstLock | src/trade_trace/core.py:716-735 | an attempt that meets the held lock is a lock failure: the call goes on to its second attempt, or ends after it |
| WriteProtocol.RefusedWriteEndsCall | src/trade_trace/core.py:640-699 | a refused write ends the call as a conflict, a validation error or uncaught, with nothing of it stored |
| Ownership.OwnsRowIff | src/trade_trace/core.py:641-714 | in every schedule a call, whether it then fails or succeeds, owns committed rows exactly when one of its units of work that had appended rows was left normally outside a dry run |
| Ownership.FailedCallMayCommit | src/trade_trace/core.py:701-711 | a call that commits and then returns no dict ends as an invariant violation with its row in the log |
| Replies.RunKeepsHints | src/trade_trace/tools/_helpers.py:427-493 | in every schedule each call's event hint names a row it wrote or replayed, unless that row was rolled back |
| Replies.SuccessNamesCommittedEvent | src/trade_trace/tools/_helpers.py:427-493 | a success that is not a dry run names a committed event equivalent to the request, at a first attempt always, and at a retry whenever the named row was not rolled back |
| Replies.StaleHintNamesAnotherCallsEvent | src/trade_trace/core.py:619-638 | a schedule in which a retried call succeeds and its reply names another call's event |
| Retries.SuccessNamesWhatWasKept | src/trade_trace/core.py:716-735 | a success names a committed event equivalent to the request if none of the call's units of work ended with appended rows uncommitted: the lock was hit before the first row or after a commit |
| Retries.RetryNamesIff | src/trade_trace/core.py:619-638 | a retry that repeats the keyed first write that was rolled back: once it commits, the reply names its event exactly when, at the retry, nobody had committed a row with the named id or that row is under the same key; the hint itself never changes |
| LockRecovery.CollectSuccesses | tools/tracelab/substrate_invariants.py:71-80 | the set of lineages that have a successful record |
| LockRecovery.CheckLockRecovery | tools/tracelab/substrate_invariants.py:58-137 | PASS, FAIL or LIMITATION from the records; the other storage errors and the names of the unpaired lock errors, in order, and the lock errors counted as paired, keyless or unpaired |
| LockRecovery.PairKeyIs | tools/tracelab/substrate_invariants.py:44-55 | a record is paired by its request, else by the request it retries, else by actor, tool and fingerprint |
| LockRecovery.CheckerDecidesRecovery | tools/tracelab/substrate_invariants.py:58-137 | on every trace that dispatching can emit with distinct request ids: PASS exactly when no other storage error occurred and every call whose first attempt hit the lock ended in success; never LIMITATION |
| Positions.ApplyRow | src/trade_trace/projections.py:275-349 | one event updates the running quantities as the step function says, or is rejected with its id |
| Positions.AccumulatePosition | src/trade_trace/projections.py:247-376 | the loop over a position's events is the fold, stopping at the first rejected exit |
| Positions.RowColumns | src/trade_trace/projections.py:256-376 | id, instrument, opening and update times come from the first and last event; the mirrored risk and R columns carry the last value an event gave |
| Positions.KindAndSideAre | src/trade_trace/projections.py:178-244 | kind and side are those of the first event whose decision is on record, else simulation and long |
| Positions.LatestPriceIff | src/trade_trace/projections.py:500-510 | there is a mark exactly when some snapshot of the instrument has a price, and it is the price of one than which none is newer by (captured_at, id) |
| Positions.ClosedIff | src/trade_trace/projections.py:347-372 | a row is closed exactly when its quantities sum to within 1e-9 of zero; then and only then it has a closing time, which is its last update |
| Positions.ExitStopsAtZero | src/trade_trace/projections.py:296-331 | no accepted exit carries exposure past zero by more than 1e-9 |
| Positions.RefusedIff | src/trade_trace/projections.py:296-331 | an exit is rejected exactly when its size is at least 1e-9 and it does not face the exposure or exceeds it by more than 1e-9; the rejection names the event and which of the two it was |
| Positions.EventsOfLocal | src/trade_trace/projections.py:106-133 | a row depends only on its own position's events |
| Positions.ReplayOrder | src/trade_trace/projections.py:106-134 | a position is replayed from exactly its own events, in ascending (created_at, id) |
| Positions.OpenedFirstUpdatedLast | src/trade_trace/projections.py:256-258 | the opening time of a rebuilt row is the least and its update time the greatest of its events' times |
| Positions.RebuildIgnoresRowOrder | src/trade_trace/projections.py:106-133 | rebuilding is independent of the physical order of the event rows |
| Positions.ProjectionStore.GroupEvents | src/trade_trace/projections.py:129-134 | buckets the sorted events by position, keeping their order |
| Positions.ProjectionStore.BuildTable | src/trade_trace/projections.py:141-175 | builds every bucket's row, or reports a rejected exit |
| Positions.ProjectionStore.RebuildPositions | src/trade_trace/projections.py:60-175 | the table afterwards is the fold of every position's events, whatever was there before; on a rejected exit it is as it was |
| LivePositions.LiveMatchesRebuild | src/trade_trace/projections.py:247-376 | the rebuild is what carrying each position forward one arriving event at a time would give, when a position's events arrive in ascending (created_at, id), positions interleaved in any way; it rejects the same journals |
| ProfitAndLoss.StepKeepsAverage | src/trade_trace/projections.py:291-295 | the average entry price is the volume-weighted price of all priced entries so far |
| ProfitAndLoss.StepLedger | src/trade_trace/projections.py:275-347 | every accepted event changes realized P&L less carrying value by its cash, less exit costs, plus a defect given in closed form |
| ProfitAndLoss.LedgerIdentity | src/trade_trace/projections.py:275-359 | for any accepted events and any mark: realized P&L plus the marked remainder is cash flow less exit costs plus the remainder's value plus the defects |
| ProfitAndLoss.LedgerHoldsIff | src/trade_trace/projections.py:275-359 | P&L is conserved exactly when the defects cancel |
| ProfitAndLoss.EntryKeepsLedgerIff | src/trade_trace/projections.py:291-295 | a priced entry conserves P&L exactly at the running average price or while nothing has been exited |
| ProfitAndLoss.ExitKeepsLedgerIff | src/trade_trace/projections.py:296-347 | a priced exit conserves P&L unless it is below the tolerance, off the average and not facing the exposure |
| ProfitAndLoss.RoundKeepsLedger | src/trade_trace/projections.py:275-359 | entries in one direction, then priced exits - one below the tolerance has to face the exposure - conserve P&L at every mark |
| ProfitAndLoss.Conservation | src/trade_trace/projections.py:355-374 | the stored row of such a position: realized plus unrealized P&L is cash flow less exit costs plus the mark times the remaining quantity; once flat, realized P&L is cash flow less costs |
| ProfitAndLoss.ComplementLedgerIff | src/trade_trace/projections.py:432-435 | a `no` position's books agree with its cash exactly when its exits' shortfall is zero: the sum of (average - price) times quantity over the exits, the average being the volume-weighted price of its entries |
| ProfitAndLoss.AverageIsEntries | src/trade_trace/projections.py:291-295 | the stored average is the volume-weighted price of all priced entries, computed from the events alone |
| ProfitAndLoss.FiguresAre | src/trade_trace/projections.py:349-359 | when a stored row has an average, a mark and realized P&L, and which: the complement of the price for a `no` position |
| ProfitAndLoss.ComplementLedgerFails | src/trade_trace/projections.py:432-435 | one NO contract bought at 1/4 and sold at 1/2: the books disagree with the cash |
| ProfitAndLoss.AddAfterExitIff | src/trade_trace/projections.py:265-295 | once something was exited, a further entry in the same direction, long or short, conserves P&L exactly when it is at the stale average |
| ProfitAndLoss.AddAfterRoundIff | src/trade_trace/projections.py:265-295 | after one round any further priced entry is accepted and conserves P&L exactly when it is at the entries' average, or when the quantity held is the whole entry volume in its direction |
| ProfitAndLoss.AddAfterExitFails | src/trade_trace/projections.py:265-295 | two bought at 1, one sold at 3, one bought at 3: P&L is not conserved |
| Remarking.NetQuantityIsFolded | src/trade_trace/projections.py:469-482 | the query's net quantity, summed in physical order, is the quantity the fold ends with |
| Remarking.RemarkOpenPositions | src/trade_trace/projections.py:469-497 | marks exactly the open positions with an average, a quantity and a price, each with its live mark |
| Remarking.ApplyOpenRemark | src/trade_trace/reports/pnl.py:24-42 | replaces the unrealized column of exactly the re-marked open rows |
| Remarking.LiveMarkIsFresh | src/trade_trace/projections.py:355-359 | the live mark of a stored row is the mark a fresh rebuild computes |
| Remarking.RemarkIsRebuildIff | src/trade_trace/reports/pnl.py:24-42 | patching the stored table gives the freshly rebuilt one exactly when no marked position has lost its price |
| Remarking.RemarkIsRebuild | src/trade_trace/projections.py:469-497 | so it always does when snapshots are only added |
| Remarking.RemarkIsStable | src/trade_trace/projections.py:469-497 | straight after a rebuild the re-mark changes nothing |
| ExportPaths.SafeEventType | src/trade_trace/exporter.py:42-61 | the sanitised type is not empty, has safe characters only, and leaves a safe type unchanged |
| ExportPaths.FileNameStaysInDirectory | src/trade_trace/exporter.py:64-82 | no event type can put a separator or NUL into a file name |
| ExportPaths.NameNamesTheEvent | src/trade_trace/exporter.py:60-82 | two events with one file name have one id, however lossy the sanitising |
| ExportPaths.FileNameReads | src/trade_trace/exporter.py:64-84 | a name is the sanitised type, a dash, the decimal digits of the id, and `.jsonl` |
| Exporting.FilesAreDistinct | src/trade_trace/exporter.py:64-82 | distinct events never share a path, and the orphan sweep never takes a committed file for a temporary |
| Exporting.LineTells | src/trade_trace/events/log.py:114-137 | an event has a line exactly when its payload is an object: the payload without the keys that start with an underscore, the tool, and the event's id, type, actor and time |
| Exporting.MappedToolWritesTheType | src/trade_trace/exporter.py:107-137 | the tool of a mapped event type has that type as its primary event, so replaying the line writes it again (anchored forecasts have no primary event) |
| Exporting.ToolsAreDistinct | src/trade_trace/exporter.py:107-137 | no two mapped event types share a tool |
| Exporting.ToolResolvesToItself | src/trade_trace/tools/imports.py:196-204 | resolving the tool of a line again, as the importer does, changes nothing |
| Exporting.SweepTakes | src/trade_trace/exporter.py:253-272 | the sweep takes exactly the old files whose names end in `.jsonl.tmp` |
| Exporting.QueueIs | src/trade_trace/exporter.py:333-356 | the queue is exactly the JSONL rows not yet exported, in ascending (event id, id) |
| Exporting.RowUpdate | src/trade_trace/exporter.py:409-513 | what a row says afterwards: exported with the event's own time and no error, failed with the reason, one more attempt either way, or untouched when the process died; other rows stay |
| Exporting.FailsIff | src/trade_trace/exporter.py:409-470 | without a fault a row fails exactly for a missing event, text that is not JSON, a payload that is no object, or a time without a day |
| Exporting.Exporter.WriteJsonlLineAtomic | src/trade_trace/exporter.py:184-232 | open, write, rename: whatever fails, the final path holds what it held or the whole line |
| Exporting.Exporter.ExportRow | src/trade_trace/exporter.py:409-513 | one row: exported with its file, failed with its reason, or untouched if the process dies |
| Exporting.Exporter.DrainOutbox | src/trade_trace/exporter.py:377-522 | sweeps old temporaries and drains the pending and failed rows in (event id, id) order |
| ExportSafety.CommittedFileIsOneEvent | src/trade_trace/exporter.py:60-82 | each committed file is the whole line of exactly one event |
| ExportSafety.CommittedFileTells | src/trade_trace/exporter.py:184-232 | each committed file lies in the directory of a recorded event's day, under its name, and its one line tells that event, column by column |
| ExportSafety.DoneCommits | src/trade_trace/exporter.py:455-513 | a row that is done has committed the file that tells its event |
| ExportSafety.DrainIsSafe | src/trade_trace/exporter.py:377-522 | a drain that fails or crashes anywhere keeps the invariant, all committed files and all rows, and files only queued events |
| ExportSafety.RunIsSafe | src/trade_trace/exporter.py:377-522 | over every run of crashing drains, commits and restores: committed files are whole and unique, never lost or changed, and every exported row has its file |
| ExportSafety.CleanDrainCompletes | src/trade_trace/exporter.py:403-513 | without faults every exportable row ends exported and exactly the others failed |
| ExportSafety.CleanDrainPays | src/trade_trace/exporter.py:403-513 | then exactly the events that had a file or were exportable and queued have one |
| ExportSafety.CleanDrainCommits | src/trade_trace/exporter.py:403-513 | the same for the file that tells the event: it is there exactly if it was, or the event can be exported and is queued |
| ExportSafety.CleanDrainReports | src/trade_trace/exporter.py:403-513 | a drain without faults reports exactly the exportable events of its queue, in queue order |
| ExportSafety.ReportedIsOnDisk | src/trade_trace/exporter.py:403-513 | what a drain reports as exported is on disk, whatever else went wrong |
| ExportSafety.CrashIsInvisible | src/trade_trace/exporter.py:377-394 | a drain that crashed anywhere followed by a clean one commits exactly the files of one clean drain |
| ExportSafety.SecondDrainExportsNothing | src/trade_trace/exporter.py:348-356 | a drain after a clean one exports nothing |
| Calibration.EceBounds | src/trade_trace/reports/calibration.py:607-637 | for every partition into bins: bias <= ECE <= 1 and ECE squared <= Brier |
| Calibration.EceBoundsAre | src/trade_trace/reports/calibration.py:607-637 | the same bounds from the rows' own probabilities, outcomes and squared errors |
| Calibration.EceIsExcess | src/trade_trace/reports/calibration.py:607-637 | the error is the sum over bins of |total probability - number that came true|, divided by the number of rows |
| Calibration.EqualMassRuns | src/trade_trace/reports/calibration.py:643-650 | equal-mass bins are min(10, n) consecutive non-empty runs of the sorted rows, sizes differing by at most one, that partition the rows |
| Calibration.RunsAre | src/trade_trace/reports/calibration.py:643-650 | the rows ascending by (probability, forecast, score); run k of min(10, n) starts at k * n / min(10, n), rounded down |
| Calibration.BinIndexIff | src/trade_trace/reports/calibration.py:585-603 | a lower edge belongs to the upper bin and the top bin is closed |
| Calibration.EqualWidthBins | src/trade_trace/reports/calibration.py:600-603 | each bin gets exactly its rows in order, and together they are all rows |
| Calibration.EqualWidthIs | src/trade_trace/reports/calibration.py:600-603 | bin k holds exactly the rows from k / 10 up to, but for the last, the next edge |
| Calibration.EntryTells | src/trade_trace/reports/calibration.py:607-637 | a panel entry gives its bin's index, size, mean probability, observed frequency and their difference, and nothing for an empty bin |
| Calibration.EceEqualWidth | src/trade_trace/reports/calibration.py:580-637 | the reported error is the binned error over these bins, and the panel reports each bin |
| Calibration.EceEqualMass | src/trade_trace/reports/calibration.py:640-669 | the reported error is the binned error over the runs, and each panel entry spans its run exactly |
| Calibration.EceIgnoresOrder | src/trade_trace/reports/calibration.py:643-650 | neither policy depends on input order |
| Calibration.CauchySchwarz | src/trade_trace/reports/calibration.py:532 | the squared sum of misses is at most n times the sum of their squares |
| Pagination.PaginateQuery | src/trade_trace/reporting/pagination.py:88-133 | a page is the first rows after the cursor, with a cursor exactly when there are more; the cursor's JSON value is bound under the column's affinity: null selects nothing, a list or object is an error |
| Pagination.PaginateCreatedAtIdQuery | src/trade_trace/reporting/pagination.py:136-191 | the same newest first over (timestamp, id), rejecting other cursors; a scalar one is accepted only when allowed, and then binds as in a single column |
| Pagination.PageIs | src/trade_trace/reporting/pagination.py:113-132 | a page holds the first n rows that follow the cursor, numbers before text, by value and code point, up or down as asked; it hands out its last key exactly when it leaves out a row that follows |
| Pagination.BindsByValue | src/trade_trace/reporting/pagination.py:113-119 | a number binds by its value, true and false as 1 and 0, null as NULL; lists, objects and integers beyond 64 bits do not bind |
| Pagination.CursorBindsBack | src/trade_trace/reporting/pagination.py:52-70 | a cursor written from a stored value, number or text, is compared as that value |
| Pagination.CompositeCursorBindsBack | src/trade_trace/reporting/pagination.py:164-190 | a cursor made from a row's (timestamp, id) leads back to that key; a scalar one stands for its timestamp with no id |
| Pagination.LifecycleCursorReads | src/trade_trace/reports/lifecycle.py:249-254 | a lifecycle cursor is a pair of texts, timestamp and id |
| Pagination.RestAfterPage | src/trade_trace/reporting/pagination.py:185-191 | what lies after a page's cursor is what was left less the page |
| Pagination.WalkIsExact | src/trade_trace/reporting/pagination.py:159-191 | following cursors ends, and the pages are together exactly what lay after the first cursor |
| Pagination.FullWalkIsSorted | src/trade_trace/reporting/pagination.py:159-191 | from no cursor, every row once, in order |
| Pagination.WalkLength | src/trade_trace/reporting/pagination.py:185-191 | only the last page is short, and only it has no cursor |
| Pagination.ChangingWalkIsExact | src/trade_trace/reporting/pagination.py:136-191 | with rows inserted and deleted between pages: strictly ordered, only rows that were there, each row present throughout exactly once |
| Pagination.LegacyCursorLoses | src/trade_trace/reporting/pagination.py:164-169 | a scalar cursor drops exactly the remaining rows that share the last timestamp |
| Pagination.LegacyCursorSkips | src/trade_trace/reporting/pagination.py:164-169 | two rows with one timestamp, pages of one: the legacy cursor ends the walk after the first, the composite one does not |
| Pagination.LifecyclePage | src/trade_trace/reports/lifecycle.py:242-263 | the in-memory pages are the same keyset pages, ascending |
| Replay.ClauseIsCheck | src/trade_trace/reports/replay.py:168-182 | the SQL validity clause, in three-valued logic, selects exactly what the Python check accepts |
| Replay.ParseIffPrinted | src/trade_trace/reports/replay.py:185-200 | a case id parses to (kind, id) exactly when it is that pair's printed id and the id has no colon |
| Replay.CaseIdReads | src/trade_trace/reports/replay.py:54-57 | the text of a case id |
| Replay.SelectionRefsFromCaseIds | src/trade_trace/reports/replay.py:185-200 | parses every case id or rejects the request |
| Replay.RowsForSelection | src/trade_trace/reports/replay.py:203-285 | selects by reference, case id or filter - decisions first, forecasts, filtered by their thesis, for what is left - sorted and limited |
| Selections.FilterSelects | src/trade_trace/reports/replay.py:237-285 | without references: every item is a decision or forecast that meets each given condition on its own columns; every decision that does is selected, or there are max_cases that do and precede it; then the forecasts, for the room that is left; in ascending (created_at, kind, id), each once |
| Selections.RefIs | src/trade_trace/reports/replay.py:211-236 | a reference brings exactly the decision, the forecast in force with its thesis, or the recall event it names, or rejects the request for its kind or for a recall event that is missing or late |
| Selections.RefsSelect | src/trade_trace/reports/replay.py:211-236 | with references: exactly what they bring, the oldest first, cut off at max_cases |
| Selections.RequestNames | src/trade_trace/reports/replay.py:185-210 | what a request names: its references, or its case ids read one by one; not both |
| Replay.ExportCases | src/trade_trace/reports/replay.py:377-386 | one case per selected item, in order |
| CaseContexts.AnswerIs | src/trade_trace/reports/replay.py:377-386 | the answer to a request is one case for each item it selects, in order, or its rejection |
| CaseContexts.ContextIs | src/trade_trace/reports/replay.py:297-356 | what a case shows: the instrument it is about, a decision's snapshot, the thesis and forecast it names as far as they were in force, and the cited sources; a blind forecast case keeps its forecast back |
| CaseContexts.ThesisSectionIs | src/trade_trace/reports/replay.py:325-332 | a thesis is shown exactly when it is named and in force; a caveat says when it was recorded and was not |
| CaseContexts.ForecastSectionIs | src/trade_trace/reports/replay.py:333-347 | a forecast is shown exactly when it is named and in force and its thesis was not out of force; else which caveat |
| CaseContexts.SourcesAre | src/trade_trace/reports/replay.py:348-356 | the sources shown are the oldest cited ones up to the limit, less the sensitive ones among them |
| CaseContexts.CaseIs | src/trade_trace/reports/replay.py:297-305 | a case is named after its row, moment and mode; a recall event shows no context |
| CaseContexts.CaseIdNamesRow | src/trade_trace/reports/replay.py:185-200 | the id of a case, given back as a request, names its row again |
| Replay.KindsAreNamed | src/trade_trace/reports/replay.py:196-199 | the three kinds and their names, one for one |
| LookAhead.MaskKeepsValidity | src/trade_trace/reports/replay.py:176-182 | validity at as_of does not see ends that come later |
| LookAhead.SelectInView | src/trade_trace/reports/replay.py:203-285 | the selection is that of the journal as it stood, and a rejection is the same unless the first offending reference is a recall event recorded since |
| LookAhead.ContextInView | src/trade_trace/reports/replay.py:297-356 | the included context is that of the journal as it stood, but for the ends of validity it echoes |
| LookAhead.NoLookAhead | src/trade_trace/reports/replay.py:203-356 | journals that stood alike at as_of yield the same cases, ids, order and context, but for echoed ends of validity, for every selection |
| LookAhead.AnswerInViewIff | src/trade_trace/reports/replay.py:203-356 | the whole answer is that of the journal as it stood exactly when no offending recall event was recorded since and no thesis or forecast that a selected item shows has an end on record |
| LookAhead.SameRejectionIff | src/trade_trace/reports/replay.py:218-225 | journals that stood alike answer alike, reasons of rejection included, exactly when the first offending reference is a recall event recorded since in both or in neither |
| LookAhead.LaterEndIsEchoed | src/trade_trace/reports/replay.py:325-329 | an invalidation recorded after as_of shows in the case |
| LookAhead.LateInstrumentTellsTheFuture | src/trade_trace/reports/replay.py:261 | an instrument recorded after the decision that names it brings a case into the past: why a selection by filter is taken to follow keys to rows recorded no later |
| LookAhead.RejectionTellsTheFuture | src/trade_trace/reports/replay.py:218-225 | a recall event recorded later turns the reason of a rejection from missing to too late |
| CivilTime.OrdinalOrder | src/trade_trace/timestamps.py:165-169 | day numbers order dates as their fields do |
| CivilTime.NextDay | src/trade_trace/timestamps.py:165-169 | days are counted one after the other from 0001-01-01 within a month |
| CivilTime.NextMonth | src/trade_trace/timestamps.py:165-169 | and across the end of a month |
| CivilTime.NextYear | src/trade_trace/timestamps.py:165-169 | and across the end of a year |
| CivilTime.EpochDay | src/trade_trace/timestamps.py:165-169 | 1970-01-01 is day 719163 |
| CivilTime.FromMicros | src/trade_trace/timestamps.py:165-166 | every instant of years 1 to 9999 has the civil fields that count back to it |
| Timestamps.CanonicalOrder | src/trade_trace/timestamps.py:151-175 | canonical text compares as the millisecond-truncated instants do |
| Timestamps.CanonicalReads | src/trade_trace/timestamps.py:165-175 | canonical text has 24 characters, with year, month, day, hour, minute, second and milliseconds in their places |
| Timestamps.StoredIsUtc | src/trade_trace/timestamps.py:151-175 | what is stored is the local time less its offset; a time without an offset is refused |
| Timestamps.StoredOrder | src/trade_trace/timestamps.py:151-175 | whatever offsets they came with, stored timestamps sort as their instants |
| Timestamps.ReadOfCanonical | src/trade_trace/timestamps.py:134-148 | reading canonical text gives back the truncated instant |
| Timestamps.NormalizeIdempotent | src/trade_trace/timestamps.py:151-175 | normalising is idempotent |
| Timestamps.IsoTextOrder | src/trade_trace/reports/autonomy_readiness.py:130-138 | text without a fixed fraction orders a whole second after its own fractions |
| Timestamps.IsoReads | src/trade_trace/reports/autonomy_readiness.py:117-138 | the text: `Z` straight after a whole second, else six digits of fraction and `Z` |
| Timestamps.TextBeforeIff | src/trade_trace/reports/autonomy_readiness.py:130-138 | that is the only place where it differs from the order of instants |
| ReadinessWindows.WindowBuckets | src/trade_trace/reports/autonomy_readiness.py:92-127 | the windows tile backwards from a second past the newest resolution, at most max_windows; truncated exactly when they do not reach the oldest; an error exactly when a boundary the loop computes is outside years 1 to 9999 |
| ReadinessWindows.TilesAreContiguous | src/trade_trace/reports/autonomy_readiness.py:117-125 | windows are contiguous, equally wide and newest first |
| ReadinessWindows.CountedOnceIff | src/trade_trace/reports/autonomy_readiness.py:253-258 | without truncation a resolution is in exactly one window, unless it is in the oldest boundary's second and that boundary has no fraction while it has; then in none |
| ReadinessWindows.CountedWhere | src/trade_trace/reports/autonomy_readiness.py:253-258 | the window that contains a resolution counts it unless it shares the second of a whole-second start, and is then counted in the next older window, or is a whole second in the second of a fractional end, and is then counted in the next newer one |
| ReadinessWindows.PanelsSumIff | src/trade_trace/reports/autonomy_readiness.py:253-275 | panel sizes sum to the total exactly when no resolution is lost that way |
| ReadinessWindows.TrendPanels | src/trade_trace/reports/autonomy_readiness.py:233-289 | the same for the windows the loop builds |
| ReadinessWindows.AResolutionIsLost | src/trade_trace/reports/autonomy_readiness.py:253-258 | a window and a resolution inside it that is not counted |
| TraceRotation.TraceLog.Rotate | src/trade_trace/dispatch_trace.py:125-141 | the files afterwards are those of the rotation as far as it got |
| TraceRotation.TraceLog.Emit | src/trade_trace/dispatch_trace.py:204-222 | rotates if due and appends the line to the live file |
| TraceRotation.RotationForgetsOldest | src/trade_trace/dispatch_trace.py:125-141 | a rotation, wherever it stops, forgets at most the oldest file and reorders nothing |
| TraceRotation.RotatesWhenFull | src/trade_trace/dispatch_trace.py:125-141 | files move exactly when the live file has reached its limit, and then, if nothing fails, each by one |
| TraceRotation.LiveFileIsBounded | src/trade_trace/dispatch_trace.py:204-222 | when every rotation completes, the live file was below its limit before its last line |
| TraceRotation.ShiftMovesEach | src/trade_trace/dispatch_trace.py:131-139 | a completed rotation moves every file up by one and frees the live one |
| TraceRotation.LogIsSuffix | src/trade_trace/dispatch_trace.py:204-222 | after any run of emits the files, oldest first, are a suffix of the lines written, with at most max_files rotated files |
| Opportunity.PathExcursions | src/trade_trace/reports/opportunity.py:117-125 | the one-pass loop finds the largest fall from an earlier to a later price, at most favourable plus adverse excursion |
| Opportunity.FlipSwapsExcursions | src/trade_trace/reports/opportunity.py:117-119 | flipping the direction swaps the favourable and adverse excursions |
| Opportunity.GapIsReach | src/trade_trace/reports/opportunity.py:68-70 | the largest gap is within a bound exactly when from every moment some observation lies within it |
| Opportunity.CoverageMonotone | src/trade_trace/reports/opportunity.py:55-74 | with a fixed horizon, adding snapshots never lowers the coverage |
| Opportunity.CoverageIs | src/trade_trace/reports/opportunity.py:55-74 | when each rank is given: missing without a usable time, partial without a proper window, and else by whether the snapshots reach half or three quarters of the window and, for complete, never leave more than a quarter of it between one and the next |
| FilterSupport.DiffPaths | src/trade_trace/reports/_filter_support.py:194-204 | appends the dotted paths of the leaves that differ, in order |
| FilterSupport.DiffIs | src/trade_trace/reports/_filter_support.py:194-204 | the difference lists exactly the dotted paths of the leaves that differ |
| FilterSupport.EnforceSupportedFilter | src/trade_trace/reports/_filter_support.py:217-230 | lists exactly the differing unsupported paths; there are none exactly when the applied view is the whole filter |
| FilterSupport.OverlayIff | src/trade_trace/reports/_filter_support.py:194-262 | the applied view is the whole filter exactly when every difference is supported |
| FilterSupport.ViewReads | src/trade_trace/reports/_filter_support.py:248-262 | the view reads as the filter at the supported paths and as the default at the others |
| FilterSupport.AssignIsOverlay | src/trade_trace/reports/_filter_support.py:240-245 | assigning one leaf by path adds exactly that path to the view |
| FilterSupport.AppliedFilterView | src/trade_trace/reports/_filter_support.py:248-262 | starting from the default, the assignments give the view in whatever order the paths come |
| FilterSupport.ProcessFilter | src/trade_trace/reports/_filter_support.py:265-274 | a filter is accepted if and only if the view echoed for it is the whole filter |
| ToolRegistry.InvocationInjective | src/trade_trace/contracts/tool_registry.py:90-99 | dotted split and join undo each other, so no two names share an invocation |
| ToolRegistry.Registry.Register | src/trade_trace/contracts/tool_registry.py:255-318 | fails only for a taken or empty name; keeps by_cli the inverse of by_name |
| ToolRegistry.Registry.Mark | src/trade_trace/contracts/tool_registry.py:371-397 | changes only the given metadata of one tool; what is not given stays |
| ToolRegistry.Registry.Alias | src/trade_trace/contracts/tool_registry.py:399-433 | adds a name with the existing tool's handler |
| ToolRegistry.Registry.Names | src/trade_trace/contracts/tool_registry.py:323-326 | cached or not, the sorted list of the names |
| ToolRegistry.SortedNamesUnique | src/trade_trace/contracts/tool_registry.py:323-326 | there is only one list with each name once in order, so the cache cannot differ from a fresh sort |
| ToolRegistry.Registry.Validate | src/trade_trace/contracts/tool_registry.py:435-448 | reports a collision exactly when two names share an invocation, so never for a registry built by these methods |
| ToolRegistry.Registry.InvocationFromArgs | src/trade_trace/cli.py:163-175 | returns the registered name with the longest invocation that starts the tokens and the tokens after it, or nothing exactly when none does |
| ToolRegistry.ResolutionUnique | src/trade_trace/cli.py:169-175 | at most one name has the longest invocation |
| CliArgs.ParseKvArgs | src/trade_trace/cli.py:67-145 | the index loop reads flags, values and stray tokens as the specification says, failing at the first malformed JSON or with all stray tokens |
| CliArgs.CommandLineReads | src/trade_trace/cli.py:102-142 | reading a command line gives what its flags and words mean, in order: a bare flag is true, a value is JSON or coerced as its name asks |
| CliArgs.EveryLineIsWritten | src/trade_trace/cli.py:102-142 | every list of tokens is such a command line |
| CliArgs.KeysAre | src/trade_trace/cli.py:107-111 | dashes become underscores; the suffix `_json` is dropped unless the schema has a field of that name |
| CliArgs.RefusedIff | src/trade_trace/cli.py:112-145 | a line is refused exactly for a value that should be JSON and is not, or else for its words, all of them named |
| CliArgs.ArgumentIsItsValues | src/trade_trace/cli.py:134-142 | an argument depends only on its own flag's values in their order |
| CliArgs.RepeatedFlagIff | src/trade_trace/cli.py:134-142 | a repeated flag collects its values in a list exactly when the first is not a list |
| CliArgs.RepeatedFlagExtends | src/trade_trace/cli.py:89-142 | `--tags-json` with the list [a], then `--tags b`, reads as the one list [a, b] |
| CliArgs.RenderThenRead | src/trade_trace/cli.py:102-142 | simple settings written as flags are read back, each one, in order |

## Left out

- SQL text, SQLite and the file system: tables are sequences and maps with the meaning of the WHERE and ORDER BY clauses, files a map with an atomic rename.
- Hashes, HMACs and JSON text: uninterpreted functions and abstract values; the base64 text of a cursor is the value it decodes to.
- Floating-point error and the final rounding: arithmetic is over reals, with the code's 1e-9 tolerances.
- Grammars of actor ids and idempotency keys, scalar coercion of command-line text and ISO 8601 parsing beyond canonical text: function parameters or decoded values.
- Retries.RetryNamesIff: covers retries that repeat the first write under a key; a retry that writes something else first is covered by Retries.SuccessNamesWhatWasKept only.
- WriteProtocol.StepKeepsLog: an exception ends the attempt; a handler that catches one and goes on is not a schedule here.
- WriteProtocol.Safety: handlers are arbitrary schedules of units of work; sleeping between attempts and the busy timeout are a step that fails or not.
- SemanticKeys.StripPayload: arrays used as sort keys count as not comparable, though Python compares two lists.
- SemanticKeys.PayloadsEquivalent: negative zero and not-a-number, whose text and `==` disagree in other ways, are not numbers of the model.
- LockRecovery.CheckerDecidesRecovery: traces are complete, with tracing on throughout, no rotation between the records of one call, and no redaction of the fields that are compared.
- Exporting.Exporter.DrainOutbox: drains follow one another; two processes draining one outbox at once, and the secret scan of written lines, are not modelled.
- Pagination.PaginateCreatedAtIdQuery: rows have unique (timestamp, id) keys and text ids; SQLite's conversions between text and numbers are parameters.
- LookAhead.NoLookAhead: covers the cases; the lists of exclusions, the evaluator's labels and the bundle id see later rows by design.  For a selection by filter, foreign keys are taken to point to rows recorded no later.
- ReadinessWindows.TrendPanels: the machine's time zone is UTC, as the text comparison of the code takes for granted.
- TraceRotation.LogIsSuffix: one process writes the log, limits stay fixed, and a line is appended whole or not at all.
- Opportunity.CoverageMonotone: without a horizon the span itself grows with the last snapshot, so nothing is claimed.
- FilterSupport.ProcessFilter: default and filter are dumps of one model, in which no leaf holds a dictionary.
- The recall statistics projection (`rebuild_memory_node_stats`), a plain count.
- The log score (it needs logarithms), P&L group totals, report prose, the MCP server, the importer, backup, embeddings and phase-gate comparisons.
