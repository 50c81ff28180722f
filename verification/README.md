# Sync engine correctness proofs

A Dafny model of the marketing-data sync engine: how it reads a changing, paged source in verified
time windows, writes with a guarded upsert, reconciles, and only then advances a durable checkpoint,
all under a lease that other workers compete for. `dafny verify dfyconfig.toml` checks everything.

## How the pieces fit

| module | models |
|---|---|
| `Source` | the paged endpoint: request `k` gets an arbitrary answer of its own; a *truthful* source answers from the listing it held at that moment, bounds truncated to whole seconds, stamps finer than that |
| `WindowSpec`, `WindowFetch` | what an accepted window proves, and the fetcher (splitting, verification, paged fallback, density-driven steps) as a class that mutates its call counters |
| `Upsert`, `Writer` | the guard in SQL three-valued logic, the chunked upsert, validation, the counted write and the reconciliation gate |
| `Checkpoint` | the protocol as a step system: concurrent runs, crashes, resets, sweeps that confirm and later mark, and a source that keeps changing |
| `Script`, `SyncStream` | the imperative run of one stream, proved to be a behaviour of that step system while the source changes between its requests and other runs, sweeps and resets share its table and cursor |
| `Lease` | the connection table's conditional updates, and every interleaving of them over one connection and over the whole table |
| `Sweep`, `Sweeper` | the deletion sweep beside syncs that keep writing: evidence, what it finds, when that is exact, confirmation, cap |
| `Budget`, `Http` | the shared daily call cap; the token bucket and the retry loop |
| `DateSlicing`, `Timestamps`, `StreamNames` | date cursors and their slices over interrupted runs; stored timestamp text; stream names |
| `Health`, `Schedule` | failure counters and status over every ending; next-run arithmetic |

Instants are integer microseconds; days are day numbers. Each SQL statement (or short transaction)
is one atomic step. A class method is proved against a function of its inputs and old state, and the
theorems are about that function.

## Where a promise fails, exactly

- A checkpoint does not say where its sweep began. An incremental run from a configured start leaves
  a row unread that lies between that start and the checkpoint if and only if the start was moved
  back (`Checkpoint.LoweringTheStartIff`); the no-skip theorem therefore speaks from where the
  checkpoint's coverage begins, which a reset or a completed full refresh lets begin anew.
- The module text of the guard promises that no stale fetch overwrites fresher data. Two rows with
  equal stamps and different payloads are ordered by arrival, and a tombstoned row takes any
  incoming row, even an older one (`Upsert.RowsCommuteIff`, `Upsert.StampRegressesIff`).
- The sweep's text promises that a row is tombstoned only on a definite "not found". It marks by id,
  long after the lookup and beside running syncs. A mark makes the checkpoint miss a row exactly when
  one of the rows confirmed as gone is back and the checkpoint has passed it
  (`Checkpoint.MarkLosesIff`); that is reachable under every configuration, for a row served in time
  (`Checkpoint.ReappearedRowMayBeLost`). The no-skip theorem asks that no mark takes away a current
  row, which holds as long as confirmed rows stay away (`Checkpoint.AbsentRowsAreSafe`).
- The finalizer's text promises that a worker that lost its lease does not touch the successor's
  schedule. It does whenever the run is closed as the owner's (`Lease.LateFinalizeLeavesRowIff`):
  when the worker has not noticed the loss (`Lease.UnnoticedTakeover`), and also when it notices
  only while the connector is being closed or an error recorded, because that cancellation misses
  the one handler that gives up the flag (`Lease.NoticedTakeover`).
- The sweep compares a closed window at the source with a half-open one in the warehouse. It finds
  every deletion of a synced range exactly when no window it looks at has deletions and at least as
  many source rows on its upper bound (`Sweep.SweepIsExactIff`); one such row hides one deletion
  from the whole sweep (`Sweep.BoundaryRowHidesADeletion`).
- A full refresh without a configured start, after a pause longer than the default backfill, moves
  a date cursor past days nobody fetched; exactly such a run loses days (`DateSlicing.LosesDaysIff`).
- A pause during a run is overwritten by that run's success (`Health.PauseSurvivesIff`).
- A pinned time such as "24:00" is not skipped like unparsable text but raises while the run is
  being finalized (`Schedule.NextDailyAt`).
- Timestamps of years before 1000 are printed unpadded and do not read back (`Timestamps.ParseFormat`).
- "activity_206" and "activity_007" are read as codes whose streams have other names; exactly the
  plainly written names survive (`StreamNames.NameRoundTripIff`).

## Model

| member | source | states |
|---|---|---|
| WindowSpec.CheckSinglePage | app/connectors/leadsquared/window.py:176-185 | a response is trusted exactly when it carries as many rows as it reports and no id twice |
| WindowSpec.AcceptedWindowAccounts | app/connectors/leadsquared/window.py:176-205 | against any source at all: an accepted window delivered no id twice, and delivered = distinct + without id = reported |
| WindowSpec.PagedPullIsSnapshot | app/connectors/leadsquared/window.py:240-289 | paged fallback exactness: if rows only leave the interval while it is pulled in id order, an accepted pull is the set that was there at the first page |
| WindowSpec.CountsPinSnapshots | app/connectors/leadsquared/window.py:258-277 | equal first and last counts of a shrinking pull mean that nothing changed between its pages |
| WindowSpec.AcceptedIsSnapshot | app/connectors/leadsquared/window.py:176-205 | every accepted window holds exactly the identified rows of its closed whole-second interval at the moment of its first request, and their true count |
| WindowSpec.StableRowIsDelivered | app/connectors/leadsquared/window.py:127-154 | a row that sits still during the fetch is in some leaf, however other rows move between requests and although every bound is truncated |
| WindowSpec.WindowsAreComplete | app/connectors/leadsquared/window.py:127-154 | against a fixed source the leaves deliver exactly the identified rows with real stamp in [floor(start), floor(end)] |
| WindowFetch.WindowFetcher.TakeCalls | app/connectors/leadsquared/window.py:167-170 | hands out each request once |
| WindowFetch.WindowFetcher.Fetch | app/connectors/leadsquared/window.py:172-174 | every request is counted and sent with truncated bounds |
| WindowFetch.WindowFetcher.Collect | app/connectors/leadsquared/window.py:187-195 | the fold over a page keeps the first row of each id and counts rows without one |
| WindowFetch.WindowFetcher.Leaf | app/connectors/leadsquared/window.py:187-205 | the leaf accounts for the page it was made from and takes the calls spent on it |
| WindowFetch.SplitStep | app/connectors/leadsquared/window.py:231-232 | a split step is at least a second and strictly shorter than the window, so every split has at least two smaller children |
| WindowFetch.PartsFit | app/connectors/leadsquared/window.py:231 | children share a window's rows evenly into what a page is filled with, unless fan-out or length forbid so many, and are no more than that takes |
| WindowFetch.WindowFetcher.FetchWhole | app/connectors/leadsquared/window.py:207-224 | at most 1 + retries single-page requests; a window is given up only after every one of them failed verification; a fixed source never fails |
| WindowFetch.WindowFetcher.PullPages | app/connectors/leadsquared/window.py:244-268 | the counters equal those of the pages that arrived, the pull ends at a short page, and it asks for at most ceil(first count / page size) + 3 pages |
| WindowFetch.WindowFetcher.TryPull | app/connectors/leadsquared/window.py:244-289 | one attempt yields a window only if all counts agree; against a fixed source it does |
| WindowFetch.WindowFetcher.PagedFallback | app/connectors/leadsquared/window.py:240-295 | at most 1 + retries attempts; what it returns is an accepted window; never fails on a fixed source |
| WindowFetch.WindowFetcher.Children | app/connectors/leadsquared/window.py:226-238 | children cover the window in order, sharing boundaries, within the node bound |
| WindowFetch.WindowFetcher.ChildFits | app/connectors/leadsquared/window.py:231-238 | the amortized step of the bound: k children of x seconds stay within 1 + 2*ceil(x) - k nodes |
| WindowFetch.WindowFetcher.Resolve | app/connectors/leadsquared/window.py:207-238 | terminates against an adversarial source in at most 2*ceil(x) - 1 nodes for x > 0 seconds; leaves are accepted, chronological and gap-free; calls are bounded per node |
| WindowFetch.WindowFetcher.Windows | app/connectors/leadsquared/window.py:127-165 | leaves chain from start to end, every one accepted, and only windows under two seconds are paged; their call counts add up to the calls made; every top-level window is as long as the density of the one before it asks for; total nodes and top-level windows stay proportional to the range; a failure ends the sequence after verified leaves |
| WindowFetch.WindowFetcher.TopWindow | app/connectors/leadsquared/window.py:141-165 | every top-level window advances a second or is the last, whatever span the density gave |
| WindowFetch.WindowFetcher.SpanFollowsDensity | app/connectors/leadsquared/window.py:156-165 | the next span is the longest that holds no more rows than a page is filled with at the density just observed, within a second and the longest span; four times the window after an empty one |
| WindowFetch.WindowFetcher.FixedAttempt | app/connectors/leadsquared/window.py:244-277 | against a fixed source the counts of a finished pull always agree |
| Upsert.StampRegressesIff | app/sync/writer.py:151-175 | the stored stamp goes back exactly for a tombstoned row offered an older or undated one |
| Upsert.UndatedNeverOverwrites | app/sync/writer.py:167-175 | a NULL stamp makes the guard unknown, which does not overwrite a dated live row |
| Upsert.RowsCommuteIff | app/sync/writer.py:151-175 | two dated rows of a key commute exactly outside the equal-stamp, different-payload family |
| Upsert.MergeAllAppend | app/core/database.py:138-155 | chunking is invisible: writing a batch in two parts is writing it at once |
| Upsert.DecidedOnce | app/sync/writer.py:151-175 | a row whose key comes once in a batch is decided against the table as it was before |
| Upsert.Database.BulkUpsert | app/core/database.py:98-156 | the chunked loop leaves the table of the one-by-one merge, for every chunk size |
| Upsert.MergeAllIsNewest | app/sync/writer.py:151-175 | for payloads determined by stamp: every key ends at the newest version offered, no stored stamp goes back |
| Upsert.MergeConverges | app/sync/writer.py:151-175 | histories offering the same versions, in any order and with any repeats, leave the same warehouse |
| Upsert.ReplayIsNoOp | app/sync/writer.py:162-166 | replaying applied versions changes nothing, not even the recorded writer |
| Upsert.AppliedRowIsPresent | app/sync/writer.py:262-267 | whatever else is stored or written, every row applied is present, live, at its version or a newer one |
| Writer.KeptFacts | app/connectors/validation.py:111-145 | validation keeps one record of every acceptable key |
| Writer.DistinctRecordsAreKept | app/connectors/validation.py:111-145 | identified records with different keys are all kept |
| Writer.ValidateRecords | app/connectors/validation.py:111-145 | kept plus skipped is everything; nothing kept has a missing or blank key part or lacks a required date; every skip has its reason: exactly the blank keys are reported as such |
| Writer.SubmittedKeysPresent | app/sync/writer.py:262-282 | after the upsert every submitted key is found, and a key that was new carries this run's id |
| Writer.WrittenByIff | app/sync/writer.py:273-280 | for a run new to the rows it meets, a key of the batch carries the run's id afterwards exactly if it was new or the guard let its row be overwritten |
| Writer.TalliesAdd | app/sync/writer.py:262-280 | the counters of two batches of different records add up to those of both |
| Writer.DestinationWriter.WriteRecords | app/sync/writer.py:212-284 | table and every counter after one batch: persisted = kept; inserted = keys not there before; for a run new to the rows, updated = rows the guard let it overwrite and the others were left alone; without a run id every row that was there |
| Writer.DestinationWriter.WriteWindow | app/sync/runner.py:759-762 | batches of any size leave the table of the whole window, with the counters of the whole window; nothing distinct is skipped |
| Writer.ReconcileWindow | app/sync/runner.py:833-858 | no problems exactly when source count = delivered = distinct + without id and distinct = records = persisted + skipped; each discrepancy yields its own problem |
| Writer.BatchLandedIff | app/sync/writer.py:270-276 | persisted + skipped reaches the batch exactly when every kept key is found after the commit |
| Writer.GateSeesEveryLostWrite | app/sync/runner.py:854-858 | whatever the database did, the counts of all batches add up exactly when no write was lost |
| Writer.BatchIsDistinct | app/connectors/leadsquared/connector.py:466-486 | an accepted window builds records validation cannot reject |
| Writer.StoreWindow | app/sync/runner.py:759-795 | the gate meets the table: an accepted window always reconciles, nothing is skipped, and every id is in the table at the delivered version or newer |
| Checkpoint.AdvanceCursor | app/sync/state.py:160-163 | the result is a timestamp checkpoint: the greater of the stored one, if it is one, and the whole second reached |
| Checkpoint.HarmlessWrites | app/sync/writer.py:151-175 | writing rows no newer than the source loses no current row and lands every current one |
| Checkpoint.FetchLeafKeeps | app/sync/runner.py:757-758 | fetching a snapshot keeps the invariant |
| Checkpoint.WriteBatchKeeps | app/sync/runner.py:759-762 | so does each partial write |
| Checkpoint.NewRunCovers | app/sync/runner.py:728-735 | below its own start an incremental run leaves only rows the old checkpoint had passed |
| Checkpoint.CheckpointCovers | app/sync/runner.py:796-799 | a checkpoint moved by a run has passed only rows that were visible before that run began |
| Checkpoint.CommitKeeps | app/sync/runner.py:796-799 | moving the checkpoint after the whole window keeps the invariant |
| Checkpoint.StartRunKeeps | app/sync/runner.py:723-740 | so does starting a run, incremental or full, beside others |
| Checkpoint.ModifyKeeps | app/sync/runner.py:723-735 | so does any source change that restamps rows already read past what was read |
| Checkpoint.StepKeeps | app/sync/runner.py:687-819 | every step of every run and of the environment keeps the invariant, a mark if it takes away no row that is back and current |
| Checkpoint.NoRowIsSkipped | app/sync/runner.py:703-716 | no-skip over all behaviours in which no mark takes away a row that is back and current: every row the checkpoint has passed, from where its coverage begins, is in the warehouse at its current version - rows served in time by their stamp, late ones up to lookback + safety once the moment they became visible is passed too; crashes, failed windows, full refreshes, budget stops, resets and sweeps included; a legacy cursor never counts |
| Checkpoint.AbsentRowsAreSafe | app/connectors/leadsquared/reconcile.py:214-239 | while no row a sweep has confirmed as gone comes back before that sweep marks or gives up, no mark takes away a current row |
| Checkpoint.MarkLosesIff | app/connectors/leadsquared/reconcile.py:145-156 | a mark keeps no-skip if and only if no row it was confirmed for is back at the source and answered for by the checkpoint |
| Checkpoint.ReappearedRowMayBeLost | app/connectors/leadsquared/reconcile.py:214-239 | under every configuration and for every key a behaviour loses a row served in time: confirmed, returned, synced, then marked |
| Checkpoint.LateRowIsRecovered | app/sync/runner.py:731-735 | in the same behaviours, a row visible within lookback + safety of its stamp is current once any run started after it became visible has committed past its stamp, whatever became of the runs before |
| Checkpoint.CursorNeverRewinds | app/sync/state.py:158-163 | no step but a reset moves the checkpoint back |
| Checkpoint.CoverageBeginsUpTo | app/sync/runner.py:725-735 | coverage begins no later than the latest configured start, for the checkpoint and for every run |
| Checkpoint.CommitKeepsWiderCoverage | app/sync/runner.py:796-799 | a commit keeps the coverage of whoever put the checkpoint where it then is, the wider one if both did |
| Checkpoint.CoverageRestarts | app/sync/state.py:183-204 | after a reset, whatever happens in between, the first commit by a run started after it makes coverage begin at that run's configured start |
| Checkpoint.LoweringTheStartIff | app/sync/runner.py:728-735 | where no mark takes away a current row, an incremental run may leave rows between its configured start and the checkpoint unread if and only if the start was lowered |
| Checkpoint.LoweredStartLeavesAGap | app/sync/runner.py:728-735 | for every configuration and every lowering such a behaviour exists |
| SyncStream.StreamState.CommitStateTs | app/sync/state.py:130-181 | commits the maximum of stored and reached, ignoring a legacy date cursor |
| SyncStream.AcceptedWindowIsSnapshot | app/connectors/leadsquared/connector.py:455-486 | an accepted window of a changing truthful source is a legal fetch step |
| Script.CooperatesSplit | app/sync/state.py:130-137 | the environment keeping its side in a script is keeping it in the first part and, from the state reached, in the rest |
| Script.EnvironmentPlays | app/sync/state.py:130-137 | the environment's turns are legal, leave our run where it was, and end with the source as its listing says |
| SyncStream.FetchIsLegal | app/sync/runner.py:757-760 | reading an accepted window is an enabled fetch step |
| SyncStream.StoreIsLegal | app/sync/runner.py:761-799 | writing and committing it is enabled too, with the stated table, cursor and run |
| SyncStream.FetchPlays | app/sync/runner.py:757-760 | others act, the source answers, and the window is fetched: the first half of a window is a behaviour |
| SyncStream.StorePlays | app/sync/runner.py:761-799 | others act, and the window is written and committed over the table and cursor they left |
| SyncStream.WindowPlays | app/sync/runner.py:757-799 | one more window continues the behaviour from wherever the run is |
| SyncStream.RunRecord.RunPlays | app/sync/runner.py:757-819 | if everybody else keeps to the step system, the whole script is a behaviour that ends over the program's own table and cursor |
| SyncStream.RunRecord.Undisturbed | app/sync/runner.py:757-799 | with nobody else about, table and cursor are those of all windows in order |
| SyncStream.QuietRunCooperates | app/sync/runner.py:757-799 | the hypotheses can be met: a source nobody modifies and nobody else about keep their side throughout |
| SyncStream.StillRunIsExplained | app/sync/runner.py:757-819 | alone with a still source, a run is a behaviour of the step system that skips nothing, and every row in the range it had to read is in the table |
| SyncStream.SettingsExist | app/sync/runner.py:687-699 | around any listing and from any state a run may start from there is a run with a real window that meets every hypothesis, goes to its end and is explained |
| SyncStream.RecordedRunIsExplained | app/sync/runner.py:703-716 | a recorded run is explained by the step system: while no sweep marks a row that is back, no row skipped, and caught up if it went to its end |
| SyncStream.TimestampSync.ProcessWindow | app/sync/runner.py:757-799 | one window is merged, always reconciles, and only then moves the cursor |
| SyncStream.TimestampSync.StoreNext | app/sync/runner.py:759-799 | a window is stored over whatever other processes left in the table and cursor |
| SyncStream.TimestampSync.Drain | app/sync/runner.py:757-819 | windows persist in order; a capped run is deferred exactly when the HTTP counter has grown by the cap, after the first window at which it has |
| SyncStream.TimestampSync.SyncStreamTs | app/sync/runner.py:687-822 | against a truthful source that changes during the run, and among other runs, sweeps and resets on the same table and cursor, the whole run is a behaviour of the step system: while no sweep marks a row that is back, no row is skipped, and a run neither deferred nor failed has every row visible before it began that is stamped from the configured start, or a lookback before the checkpoint it resumed from, up to the safety margin before now, and leaves the checkpoint at least there; it asks for nothing outside that range, an incremental run for all of it at first and any other for a day, then as the density demands; a run with something to ask for commits a window unless it fails; against a fixed source it never fails, and alone with one every such row of its listing is in the table, with no hypothesis about others |
| Lease.ConnectionTable.ClaimConnection | app/sync/leases.py:83-102 | claims exactly when unlocked, ours, or lapsed by the holder's own expiry; the row is then locked for us from now on and otherwise as it was |
| Lease.ConnectionTable.ClaimDue | app/sync/leases.py:105-142 | takes the earliest due and free connections, at most limit, each once |
| Lease.ConnectionTable.RenewLease | app/sync/leases.py:145-157 | renews exactly our own lock; otherwise reports the loss and changes nothing |
| Lease.ConnectionTable.ReleaseLease | app/sync/leases.py:159-170 | empties all three columns of exactly our own lock and nothing else |
| Lease.ConnectionTable.ReapOrphanedLocks | app/sync/scheduler.py:82-150 | exactly the lapsed locks, and our own ones on connections not running here, are emptied and their connections due now; every other row is untouched |
| Lease.LeaseIsExclusive | app/sync/leases.py:53-102 | on every trace two workers never both hold an unexpired lease, and the row names the holder |
| Lease.LetGoMeansFree | app/sync/leases.py:158-170 | after the holder's release, its finalization as owner or a reap that hit, and whatever is edited meanwhile, the next claim succeeds, whoever makes it and however long its lease; a due claim does if the connection is due, which a reaped one is at once |
| Lease.ClaimSucceedsIff | app/sync/leases.py:53-102 | on every trace a claim succeeds exactly if nobody holds the lock, the claimer does, or the holder's time is over by the holder's own lease length (by the claimer's only if the holder states none) |
| Lease.LapsedLeaseIsTaken | app/sync/leases.py:53-102 | at any instant after the expiry a holder last wrote, anybody's claim succeeds, whatever its own lease length |
| Lease.HolderRenews | app/sync/leases.py:145-156 | the holder's heartbeat extends the lease from now on; anybody else's is fenced and touches nothing |
| Lease.OthersAreLockedOut | app/sync/leases.py:65-80 | before the recorded expiry no other worker's event touches the lock and no claim succeeds |
| Lease.PunctualWorkerKeepsLease | app/sync/leases.py:173-205 | a worker renewing within each period is never taken over, fenced or reaped |
| Lease.FencedWorkerCannotTouch | app/sync/runner.py:1205-1210 | after a takeover late renewals, releases and finalizations leave the successor's lock, and the whole row unless the run is closed as the owner's |
| Lease.LateFinalizeLeavesRowIff | app/sync/runner.py:1143-1210 | the successor's row survives a late finalization exactly when the run is not closed as the owner's (or writes what is there), noticed loss or not |
| Lease.UnnoticedTakeover | app/sync/runner.py:1116-1121 | such a rewrite is reachable by a worker that never noticed its loss |
| Lease.NoticedTakeover | app/sync/runner.py:479-526 | and by one whose heartbeat noticed it while the connector was being closed |
| Lease.DueClaimIsOneStatement | app/sync/leases.py:105-142 | on traces of the table, the atomic claim is the statement the table's method is proved against, and whoever claims holds what it took |
| Lease.TraceProjects | app/sync/leases.py:53-170 | a trace of the table is a trace of each connection |
| Lease.DueClaimsAreDisjoint | app/sync/leases.py:105-142 | after a due claim took a connection, and while the claimer keeps renewing it and does not let go, no due claim by anyone takes it, whatever happens in between; what is taken is due and within limit |
| Sweep.SyncedWindow | app/connectors/leadsquared/reconcile.py:103-130 | with no row on its upper bound, a synced window's counts agree exactly when nothing was deleted |
| Sweep.HalvesAddUp | app/connectors/leadsquared/reconcile.py:206-211 | halving at a shared second loses no missing id and invents none |
| Sweep.MissedOnlyOnUpperBound | app/connectors/leadsquared/reconcile.py:103-117 | a synced source row is outside the warehouse window exactly when stamped on its upper bound |
| Sweep.CountsWeighDeletionsAgainstBoundary | app/connectors/leadsquared/reconcile.py:192-205 | the difference of the two counts is boundary rows minus deletions |
| Sweep.CheckIsExactIff | app/connectors/leadsquared/reconcile.py:192-217 | a check of a synced range finds every deletion exactly when no window it looks at is masked by boundary rows; it never finds anything else |
| Sweep.SweepIsExactIff | app/connectors/leadsquared/reconcile.py:192-224 | the same for the whole month-by-month sweep |
| Sweep.SettledWidens | app/connectors/leadsquared/reconcile.py:192-217 | a window once dealt with stays dealt with as the sweep goes on |
| Sweep.ReportedWindowsAreShort | app/connectors/leadsquared/reconcile.py:200-205 | a window reported as missing rows holds more at the source than live in the warehouse, by the counts reported |
| Sweep.TombstonedMarksOnly | app/connectors/leadsquared/reconcile.py:145-156 | the update changes exactly the live rows among the ids, and in them only the mark |
| Sweep.AllowedIff | app/connectors/leadsquared/reconcile.py:226-230 | the truncated cap lets through exactly a fixed number of rows or a share of the live ones |
| Sweep.OffBoundsSweepIsExact | app/connectors/leadsquared/reconcile.py:192-224 | nothing is masked while no source row of the range is stamped on a whole second |
| Sweep.BoundaryRowHidesADeletion | app/connectors/leadsquared/reconcile.py:192-224 | one row on the bound hides one deletion: the sweep of a synced range reports neither it nor a missing window |
| Sweeper.SweepRun.CountWindow | app/connectors/leadsquared/connector.py:487-490 | one request of page size 1 per count |
| Sweeper.SweepRun.WindowIds | app/connectors/leadsquared/connector.py:492-498 | the ids of a verified, gap-free pull; all of them against a fixed source |
| Sweeper.SweepRun.Confirm | app/connectors/leadsquared/reconcile.py:214-217 | every candidate ends as confirmed gone or confirmed present, each once |
| Sweeper.SweepRun.Check | app/connectors/leadsquared/reconcile.py:192-217 | a check without a failure has dealt with its window: counted it, and found it equal, reported it, split it into two dealt with, or looked up every live id a verified pull did not deliver; whatever syncs write meanwhile, what it adds was live in a table it looked at, missing from a verified window around its stamp there and looked up by id; over a synced range, a still source and an undisturbed warehouse the ids and missing windows added are exactly the ones Sweep describes |
| Sweeper.SweepRun.Halve | app/connectors/leadsquared/reconcile.py:206-211 | both halves together find what the whole window would |
| Sweeper.SweepRun.Diff | app/connectors/leadsquared/reconcile.py:212-217 | candidates are the live ids a verified pull did not deliver, and without a failure all of them are looked up |
| Sweeper.SweepRun.Walk | app/connectors/leadsquared/reconcile.py:219-224 | month-sized windows together cover the range, and without a failure every one of them has been dealt with |
| Sweeper.SweepRun.Tombstone | app/connectors/leadsquared/reconcile.py:145-156 | against the table as others have left it by then: exactly the live rows among the ids get the mark and keep the rest of their content, every other row and every earlier mark stays, and the count is the number of rows changed |
| Sweeper.SweepRun.CheckCap | app/connectors/leadsquared/reconcile.py:226-237 | refuses exactly more ids than a fixed number and a share of the live rows found at that moment |
| Sweeper.SweepRun.MarkFound | app/connectors/leadsquared/reconcile.py:226-239 | within the cap, marks exactly the found ids live at that moment; beyond it nothing |
| Sweeper.SweepRun.SweepDeletions | app/connectors/leadsquared/reconcile.py:159-240 | beside syncs that may rewrite the warehouse before each of its statements: refused exactly unless caught up and dated; a sweep that ends without a fault has dealt with every month of the range; a dry run or cap violation writes nothing; an applied sweep changes exactly the found ids live at that moment, in their mark alone, counts them, and found no more than a fixed number or a share of the live rows; left alone, each id is found once and all are marked; over a synced range and a still source the deleted ids are then exactly the found ones the source no longer has, and the missing windows those Sweep describes |
| Budget.SpendIsBounded | app/sync/runner.py:208-230 | a run spends at most max(R, k) plus its overruns |
| Budget.CapIff | app/sync/runner.py:213-227 | a spend is within the cap exactly if it is the one call everybody gets, an equal share, or leaves five calls for each later stream |
| Budget.SpendWithinCaps | app/sync/runner.py:208-230 | streams that keep to their caps spend no more than was left, or one call each |
| Budget.ReserveSurvives | app/sync/runner.py:213-227 | a reserve of up to five calls per stream survives a stream within its cap |
| Budget.NoStreamStarves | app/sync/runner.py:203-227 | every later cap covers the reserve while caps are kept |
| Budget.LaterCaps | app/sync/runner.py:213-230 | every later cap is at least max(1, min(5, R div k)), and at least 5 when R >= 5k |
| Budget.ApiBudget.StreamDone | app/sync/runner.py:229-230 | one stream fewer, never below one |
| Budget.ApiBudget.RunStreams | app/sync/runner.py:560-654 | no caps without a limit; otherwise each stream's cap allows exactly the spends that leave the others their due of what the limit, earlier runs, the health check and the streams before it have left; the total stays within the daily limit plus overruns |
| Http.SlowerNeverFaster | app/connectors/http.py:78-83 | a penalty only lowers the rate and never stops it |
| Http.TokensStayInBounds | app/connectors/http.py:74-94 | tokens stay in [0, burst] through any events |
| Http.GrantsAreBounded | app/connectors/http.py:74-94 | grants in any interval of length t are at most burst + rate * t, whatever penalties arrive |
| Http.PenalizedGrantsAreBounded | app/connectors/http.py:74-94 | while a penalty of at least a factor lasts, grants in an interval of length t are at most burst + rate / factor * t |
| Http.GrantedIff | app/connectors/http.py:77-87 | a poll gets a token exactly when the bucket has earned one, at the full rate once the penalty is over and at the divided rate before |
| Http.SleepIsNeeded | app/connectors/http.py:84-88 | and no earlier poll would have got one |
| Http.OneSleepIsEnough | app/connectors/http.py:84-88 | the computed sleep suffices for a token unless a penalty arrives meanwhile |
| Http.RateLimiter.Acquire | app/connectors/http.py:74-88 | the first turn with a whole token takes exactly one and ends the wait |
| Http.RateLimiter.Elsewhere | app/connectors/http.py:125-136 | what other callers do to the shared bucket keeps it within bounds |
| Http.RateLimiter.Penalize | app/connectors/http.py:90-93 | the factor becomes the given one, at least one; the end of the penalty is the later of the old and the new; tokens stay |
| Http.DelayBounds | app/connectors/http.py:49-56 | a delay is never negative and within the configured ceilings |
| Http.DelayIs | app/connectors/http.py:49-56 | a Retry-After is slept through up to its cap; otherwise the sleep is a random share of a ceiling that starts at the base delay and doubles up to the maximum |
| Http.RetryAfterIsHonoured | app/connectors/http.py:49-51 | the limiter is not asked again before a Retry-After, up to its cap, is over |
| Http.BackoffIsBounded | app/connectors/http.py:233-322 | all sleeps of a request together stay within max_elapsed |
| Http.HttpClient.TakeToken | app/connectors/http.py:243-245 | an attempt waits for a token of the limiter others share; if it gets one, the bucket's history has one more grant |
| Http.HttpClient.AwaitAnswer | app/connectors/http.py:247-251 | others keep using the limiter while the request is in flight |
| Http.HttpClient.SlowDown | app/connectors/http.py:284-291 | after a rate-limited answer everybody's rate is halved for its Retry-After, or half a minute |
| Http.HttpClient.Attempt | app/connectors/http.py:233-293 | one attempt: a token, the request, the counters and the penalty |
| Http.HttpClient.Request | app/connectors/http.py:233-324 | exactly the attempts that may be retried, are not the last and leave room for their delay are followed by another; at most max_attempts sends, none after a success or a non-retryable answer; each is paid for with a token of the shared limiter, so their number is at most burst + rate * elapsed; every answer that calls us too fast is counted and penalizes the shared limiter |
| DateSlicing.DateSlices | app/connectors/slicing.py:22-37 | the loop yields ceil(days / step) slices at fixed places |
| DateSlicing.SlicesPartition | app/connectors/slicing.py:22-37 | slices are non-empty, at most a step long, adjoining, and the first n hold exactly the days up to their end |
| DateSlicing.DrainsOldestWanted | app/connectors/slicing.py:62-107 | to the day: a run stopped after n slices drains the oldest n * step days of those published, retained, not excluded by the user, and not older than the lookback before the cursor (without a cursor: than the configured or default start), and leaves the cursor on the last of them unless it was further on |
| DateSlicing.RecentDaysAreRedrained | app/connectors/slicing.py:76-80 | an incremental run that gets far enough drains every allowed day from the lookback before the cursor to the last day published; no run commits past that |
| DateSlicing.HoleIff | app/connectors/slicing.py:65-107 | a run leaves an unexcluded hole after the cursor exactly when it is a full refresh without configured start beyond the default backfill |
| DateSlicing.RunMovesOn | app/sync/runner.py:894-918 | one run, interrupted after any slice, never moves the cursor back and drains exactly its window up to the cursor |
| DateSlicing.RunKeepsCoverage | app/sync/runner.py:894-918 | a run that does not jump ahead keeps every day up to the cursor drained, or excluded by the run that passed it |
| DateSlicing.NoDayIsLost | app/sync/runner.py:894-918 | over any sequence of interrupted runs every day up to the cursor was drained, or excluded by the very run that passed it |
| DateSlicing.LosesDaysIff | app/connectors/slicing.py:83-107 | after runs that lost no day the next one loses some if and only if it jumps ahead and commits a slice |
| DateSlicing.FullRefreshMayLoseDays | app/connectors/slicing.py:89-96 | such a run exists |
| DateSlicing.DateStream.DrainSlice | app/sync/runner.py:911-918 | the cursor moves only with the slice |
| DateSlicing.DateStream.SyncStream | app/sync/runner.py:894-918 | the slice-by-slice loop is the run of the coverage model, and drains exactly the oldest wanted days it has slices for |
| Timestamps.ParseFormat | app/connectors/slicing.py:119-140 | a printed timestamp reads back as its whole second exactly for four-digit years |
| Timestamps.ParseIff | app/connectors/slicing.py:119-140 | exactly the texts that stand for an instant are read, as that instant: four-digit years, "T" or blank, anything after the seconds, or a bare date for its midnight |
| Timestamps.CalendarIs | app/connectors/slicing.py:119-140 | months have their Gregorian lengths |
| Timestamps.AdvanceIsMaximum | app/connectors/slicing.py:143-153 | on stored text the advance is a maximum and idempotent |
| Timestamps.EarlierIff | app/connectors/slicing.py:143-153 | the order compared is that of the instants |
| Timestamps.AdvancesCommute | app/connectors/slicing.py:143-153 | two advances mean the same in either order |
| StreamNames.EventRoundTrip | app/connectors/leadsquared/activity_catalog.py:115-129 | every code is found again from its name, so names are injective |
| StreamNames.NameRoundTripIff | app/connectors/leadsquared/activity_catalog.py:119-129 | a name is read as a code whose stream it is exactly when it is a historical name, or the prefix before a plainly written number that is no historical code |
| Health.HealthyMeansNoFailures | app/sync/runner.py:1143-1204 | on every trace failures include scheduled failures, and healthy means both are zero |
| Health.ScheduledFailuresCounted | app/sync/runner.py:1152-1200 | the scheduled counter is the scheduled failures since the last scheduled success |
| Health.FailuresCounted | app/sync/runner.py:1150-1198 | the other counter is every failure since the last success that wiped it; a manual success only does while no scheduled failure stands |
| Health.FailingScheduleStaysVisible | app/sync/runner.py:1158-1175 | after a scheduled failure only a scheduled success shows healthy again |
| Health.SyncingIff | app/sync/runner.py:1184-1196 | a connection shows syncing exactly while the run last started has not been closed, reaped, refused, paused or resumed over; preflights and fenced workers do not disturb it |
| Health.EnabledIff | app/api/routers/connections.py:301-318 | a connection is enabled exactly unless its last pause has not been followed by a resume |
| Health.EndingIsHonest | app/sync/runner.py:1150-1204 | a run ends healthy exactly when no failure is counted |
| Health.PauseSurvivesIff | app/sync/runner.py:1176-1181 | a pause survives the run's ending exactly when it is not an owned success |
| Health.Connection.Finalize | app/sync/runner.py:1143-1204 | the row becomes what the event says, and the invariant is kept |
| Health.Connection.Recover | app/sync/scheduler.py:141-142 | a reaped run settles like a cancelled one |
| Schedule.NextShowingIsLeast | app/sync/runner.py:1248-1256 | one pinned time: the least instant after now showing it, at most a day away |
| Schedule.NextDailyAt | app/sync/runner.py:1232-1257 | the least instant after now showing any listed time, for any offset; unparsable entries skipped, off-dial ones raise |
| Schedule.RetryDelayBounds | app/sync/runner.py:1218-1222 | the delay lies in [interval, max(interval, 6h)] and grows with the failures |
| Schedule.RetryDelayDoubles | app/sync/runner.py:1218-1222 | the delay starts at the interval and each of the first six failures doubles it, up to six hours and never below the interval |
| Schedule.NextRunAt | app/sync/runner.py:1214-1229 | which of the three rules applies, and its value |

## Left out

- Environment assumption of the no-skip theorem: a version already read is superseded in a later second, or in the same second only while no run holds the row in flight. Real source clocks that restamp a row backwards are not covered.
- "Served in time" means visible less than the safety margin after the row's own stamp; later rows are the subject of the late-row theorem, up to lookback plus safety.
- A paged fallback interval is only exact while rows leave it; rows restamped into it during the pull are not covered (the counts alone cannot tell). The theorems ask this of paged intervals only.
- SyncStream.TimestampSync.SyncStreamTs: what other processes do to the table and cursor lands between our windows, not between two batches of one window.
- The window generator is modelled as a list whose consumer takes a prefix; fetching ahead of a stop costs nothing in the model.
- Lost database commits inside a run: in the step system and in SyncStream a statement either happens or fails the run, so the gate never fails there; that it would notice any lost key is Writer.GateSeesEveryLostWrite. It checks presence, as the program does, not versions.
- WindowFetch.WindowFetcher.NextSpan is exact real arithmetic rounded down to a microsecond. What it returns is WindowFetch.WindowFetcher.SpanFollowsDensity; the fetcher's own results hold for any span.
- Upsert keys: the stored record key is taken to be injective in the key values (a digest in the program). Rows of tables without a source stamp, which are overwritten unconditionally, and entity rows or streams, which are fetched whole, are not modelled.
- One monotone clock for leases, one statement per event; wall-clock skew between workers is not modelled. Workers have distinct ids; the program's fencing identity is the worker, not the run, so a run that overlaps its own successor in one process is not covered.
- Sweeper: the sorted order in which ids are looked up and the report's counters of calls and windows. What a sweep finds is exact, and each id found once, only while syncs leave the warehouse alone; otherwise every finding rests on a table it looked at.
- Checkpoint.NoRowIsSkipped: asks that no sweep marks a row that is back and current, because the program's sweep may do so; writing the row again makes it current (`Checkpoint.HarmlessWrites`).
- What a stream spends is arbitrary in the budget's theorems; that a timestamp stream stays below its cap until its last window is stated by the stream's own loop.
- Http: the concurrency semaphore, header parsing, and limiters of several processes. Real-number time instead of floats.
- DateSlicing: concurrent runs of one date stream, cursor text, and draining a slice in batches. A lowered configured start is not revisited by incremental runs, as for timestamps.
- Timestamps: blanks around stored text, ISO week dates of ten characters, one-digit fields that strptime tolerates, time zones; how a datetime maps to an instant.
- StreamNames: int() also accepts blanks around and underscores inside the number.
- Health: status details and error texts; health checks are taken to report any of the bad statuses.
- Provider connectors and their specs, HTTP transport, OAuth, encryption, web routes, UI, CLI, progress telemetry, quality checks, field mapping, schema drift, coverage scans: no deep invariant, or foreign code.
- asyncio mechanics: a crash may happen between any two steps; cancellation delivery and shielding are not modelled.
