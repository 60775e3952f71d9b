# Product import pipeline: a verified model

A Dafny model of the Go pipeline under `go-pipeline/server`. CSV files are uploaded to an importer,
which normalizes each row and publishes it as an event on a partitioned log. Catalog workers consume
the log into a product table, dead-letter what they cannot use and report cumulative progress; the
importer folds the reports into its job record and decides completion. A second consumer keeps a
projection of the same log for queries, and a replay tool rebuilds the catalog from the log.

`dafny verify dfyconfig.toml` checks everything.

## How it is organised

- Protocols, as state machines over all interleavings, with a crash possible between any two effects:
  `Stream` (log, worker group, catalog, dead letters, progress, replay; theorems in `StreamCatalog` and
  `StreamCounts`), `Flushers` (ticker and main loop), `Importer` (imports, tracker, restarts),
  `Pipeline` (all of them; `Records` on what a stored record keeps, `Completion` and `Feeding` on which jobs can
  complete, `Durability` on the publisher, `Restarts` on restarts), `Projection` (the second consumer).
- Code in its own imperative form, each method specified by its effect: `CatalogWorker` and
  `CatalogService`, `Writers` and `Statements`, `Jobs`, `ImportService`, `Publishers`, `Tracker`,
  `Projection`, `Pages`, `Replay`, `Columns`. `Cycles` and `CatalogWorker.LoopIsRun`
  prove that the worker's code, cycle by cycle and as a whole, is a run of the `Stream` protocol;
  `Tracker.FoldsAreRun` and `Projection.LoopIsRun` do that for the tracker and the projector, and
  `Goroutines` relates one import's code to the moves of its goroutine in the protocol.
- Pure parts: `Events`, `Products`, `Ledger`, `Upserts`, `Prices`, `Dates`, `Normalizer`; `Views`
  compares the two consumers. `Text`, `Division`, `Sums`, `Effects` and `Wrappers` are support.

A record is named by its place in the global publish order; a partition's committed offset is the set of
records below it. A call to another system may happen although its caller sees an error (`acked` false),
and an acknowledged call has happened. A call made under an expired context fails without effect.
An offset commit can be refused by some of its partitions; its caller then sees an error. The classes that
stand for other systems count their failed calls in ghost fields, and error returns are stated against them.

## What is assumed

- One owner per partition at a time; a dead owner's statements happened entirely or not at all.
- A fresh worker id per incarnation (`cmd/catalog-worker/main.go` uses host name and process id, which a
  restarted container can repeat; `Jobs.ReusedIdExactly` says what that costs).
- Records bearing a job's id come only from that job. Job ids compare as text.
- Equal routing keys share a partition, and a producer keeps one key's events in order.
- One importer process. Several imports may share its publisher; `Durability` says when that matters.
- Text with a NUL character cannot be bound. Columns take, of `CHAR(3)`, at most three characters (trailing
  blanks aside), and dates from the year 1 on, in canonical spelling. A product's merchant and product id
  together fit an entry of the primary key's index; events from elsewhere have no length limit that says so.
- Collation, name-filter patterns, header lower-casing and the name hash are parameters.

## Where code and comments differ

- `service.go` says a malformed event can never fail the shared statement. Validation does not check what
  `CHAR(3)` or the date column take, so it can (`Writers.ValidRowFailsItsBatch`); an imported row dated in
  the year 0 is one (`Views.NormalIsStorable`). The worker then stops and meets the same batch again.
- `progress.go` says store failures leave the offset for redelivery. A later settled record of the same
  partition commits past it (`Tracker.RedeliveredExactly`).
- `import_jobs.go` says the tracker completes processing jobs after a restart. It folds their counters, but
  only the import's own goroutine writes `completed`, and nothing restarts it: such a job completes in no
  run (`Restarts.RestartOrphans`). Which jobs can still complete is `Completion.CompletesExactly`: somebody
  must listen, and the workers must be able to report enough, which a lost event can prevent
  (`Completion.ListensInVain`) and in the protocol nothing else (`Completion.LosslessCompletes`).
- `service.go` fails an import whose 30-minute context expires, but writes the failure under that context,
  so it is never recorded (`Records.ExpiredIsSilent`); a job awaiting confirmation stays processing.
- `producer.go` calls a nil flush the durability confirmation. A flush forgets a failure whichever import it
  belonged to, and `Durability.NilFlushIsDurable` says exactly when that matters. An expired context makes it
  return early, perhaps nil (`Durability.ExpiredFlushReturnsEarly`), but then no counter is stored any more.
  Until a flush returns, a failure also refuses every other import's publish (`Durability.AcceptedExactly`).
- `replay/main.go` logs a refused offset deletion and reports success (`StreamCatalog.TruncatedReplayExactly`).
- The tracker's not-found branch is never taken: the fold's update ignores an unknown id.
- The store never consults the lifecycle graph; that every write follows it is `Importer.StepWritesWell`.
- Nothing publishes to the retry topic, so the retried counts stay zero.
- `projection.go` says the worker quarantined whatever the projector skips; the filter is weaker than the
  validation, so the views can differ (`Views.ViewsAgreeExactly`).

## Model

| member | source | states |
|---|---|---|
| `Pipeline.CompletedMeansDelivered` | go-pipeline/server/internal/importjob/service.go:124-189 | completion soundness: in every reachable state of importer, log, workers and tracker together, the events a completed job published that are neither in the catalog nor dead-lettered are at most one poll per worker incarnation stopped in the middle of a poll; if there was none, nothing was lost, buffered or left unadjudicated |
| `Pipeline.RunKeepsInv` | go-pipeline/server/internal/catalog/worker.go:74-129 | what every step of any run keeps: each event handed to the publisher is on the log, buffered or lost; each folded worker row was counted by that worker; a job's own records decode |
| `Durability.NilFlushIsDurable` | go-pipeline/server/internal/kafka/producer.go:118-130 | what a nil flush means: an import past its own, its context unexpired, has nothing buffered, and has lost nothing, every event being on the log, if and only if no other import's flush returned while an event of this one was lost |
| `Durability.OtherFlushHidesLoss` | go-pipeline/server/internal/kafka/producer.go:121-130 | the failing case: a concrete run in which another import's flush takes the failure and this import's flush returns nil over a lost event |
| `Durability.ExpiredFlushReturnsEarly` | go-pipeline/server/internal/importjob/service.go:117-120 | the other case: a concrete run in which the context expires in the wait and the flush returns nil with the event still buffered |
| `Durability.AcceptedExactly` | go-pipeline/server/internal/kafka/producer.go:84-89 | a failure outlives its import: in any run an import's next publish, its first included, is accepted if and only if no delivery failed since the last flush of any import, or the last restart |
| `StreamCatalog.EffectivelyOnce` | go-pipeline/server/internal/catalog/service.go:71-76 | for any log, assignment, crash, retry and redelivery schedule: a caught-up group left exactly the sequential fold of what it read, every committed record is in it if valid and on the dead letter topic if not, and nothing valid is dead-lettered |
| `StreamCatalog.RunKeepsInv` | go-pipeline/server/internal/catalog/worker.go:89-128 | the invariant of every run: each row backed by a written record no older than any settled one, poison and invalid records quarantined in order, read prefixes closed per partition |
| `StreamCatalog.DrainedIsFoldOfLog` | go-pipeline/server/internal/events/product_imported.go:31-37 | a drained catalog is the fold of the whole log in global publish order, however the partitions were interleaved over workers |
| `StreamCatalog.ReplayRebuildsExactly` | go-pipeline/server/cmd/replay/main.go:1-8 | replaying a retained log with every offset deleted, truncated or not, in any batches and with any crashes, gives the catalog the first drain gave |
| `StreamCatalog.TruncatedReplayExactly` | go-pipeline/server/cmd/replay/main.go:110-121 | with truncation and refused offset deletions, the replay restores the catalog if and only if no refused partition holds a valid record |
| `StreamCatalog.CatalogOfAt` | go-pipeline/server/internal/postgres/products.go:20-30 | the reference fold holds, at each key, the newest valid record's product and nothing else |
| `StreamCatalog.CaughtUpHolds` | go-pipeline/server/internal/catalog/service.go:71-76 | what a caught-up group left, in the events' own fields: at each merchant and product id the name, price in cents, currency, date and job of the newest admissible event read, and nothing where there is none |
| `StreamCounts.ReportsTrackCommits` | go-pipeline/server/internal/catalog/worker.go:37-51 | in every run without an offset reset, the sum over incarnations of each one's largest delivered report is at least a job's committed records and at most one poll more per incarnation holding, or stopped holding, a poll |
| `StreamCounts.ReportsCoverCommits` | go-pipeline/server/internal/catalog/worker.go:119-128 | reports never trail commits: a worker's death strands no count |
| `StreamCounts.OverReportBounded` | go-pipeline/server/internal/catalog/worker.go:41-43 | over-reporting is bounded by one poll per incarnation, the exit drain and early-counted poison included |
| `StreamCounts.CountedIsAdjudicated` | go-pipeline/server/internal/catalog/service.go:188-206 | all counters together claim at most the adjudicated records, one poll per interrupted incarnation, and the poison record being dead-lettered |
| `StreamCounts.RunKeepsInv` | go-pipeline/server/internal/catalog/service.go:90-143 | every incarnation's counters are exactly the tally of the records it counted, its reports stay below them, and its commits are covered by them |
| `Ledger.CountAllMatches` | go-pipeline/server/internal/catalog/service.go:128-135 | counting each record once keeps the counters equal to the per-job tally of valid and dead records |
| `Ledger.CountedOnce` | go-pipeline/server/internal/catalog/service.go:128-135 | what one record does to a worker's counters: a valid event adds one to its job's processed, an invalid one to its dead, poison to the dead of the job id its bytes yield, or nowhere; no other job changes |
| `Events.JoinIsLeast` | go-pipeline/server/internal/postgres/import_jobs.go:161-173 | snapshots compare column by column, and the greatest of two is their least upper bound |
| `Flushers.MarksAreTruthful` | go-pipeline/server/internal/catalog/service.go:214-257 | under every interleaving of ticker and main loop: what is marked published is on the topic, the totals of a job a flush would skip are there already, and no report exceeds the counters |
| `Flushers.NilMeansDelivered` | go-pipeline/server/internal/catalog/service.go:208-213 | a nil return means every total the flush found at entry is on the topic, whichever flusher sent it |
| `Flushers.NilCoversCounters` | go-pipeline/server/internal/catalog/worker.go:119-124 | so the main loop's nil flush covers its counters, which is what permits the commit |
| `Flushers.LateMarkMovesBack` | go-pipeline/server/internal/catalog/service.go:248-255 | a late mark by the ticker can move backwards, and then the next flush sends the job again: a concrete run |
| `CatalogWorker.LoopIsRun` | go-pipeline/server/internal/catalog/worker.go:44-139 | refinement of the loop: whatever polls it took, however the last one ended, the state after the exit drain is reached by a run of the protocol with no other step in it |
| `CatalogWorker.Worker.Run` | go-pipeline/server/internal/catalog/worker.go:44-139 | consumes polls one cycle after another until one cannot be finished, then drains; the state is what those cycles leave plus the drained totals; it stops early only if a call to another system failed or some poll has a row no column takes |
| `CatalogWorker.Worker.Cycle` | go-pipeline/server/internal/catalog/worker.go:80-128 | one poll's whole effect on table, dead letters, counters, topic and offsets, for each of the six ways it can end; an error means that a call failed or a column refused a row |
| `CatalogWorker.Worker.Adjudicate` | go-pipeline/server/internal/catalog/worker.go:89-117 | poison first, then the batch; how it stopped if it did |
| `CatalogWorker.Worker.Settle` | go-pipeline/server/internal/catalog/worker.go:119-128 | progress before offsets: offsets move, in all partitions or those that accept, only after a confirmed flush that left every counter on the topic; an error exactly when a call failed |
| `CatalogWorker.Worker.DeadLetterPoison` | go-pipeline/server/internal/catalog/worker.go:101-107 | poison records one at a time; on failure exactly the tried prefix was counted and sent, and the last call failed |
| `CatalogWorker.Worker.ReadPoll` | go-pipeline/server/internal/catalog/worker.go:89-99 | splits a poll into decodable events and poison, losing nothing |
| `CatalogWorker.Source.CommitRecords` | go-pipeline/server/internal/kafka/consumer.go:102-105 | the offsets move by the poll's records; after an error, by those of the partitions that did not refuse |
| `CatalogService.Service.ProcessBatch` | go-pipeline/server/internal/catalog/service.go:76-143 | nil only when every event is written or dead-lettered; an error changes no counter and the table holds at most one batch more, however often the statement ran; an error means a failed call or a row no column takes |
| `CatalogService.Service.Split` | go-pipeline/server/internal/catalog/service.go:84-99 | validation before any write, both parts in order |
| `CatalogService.Service.Reject` | go-pipeline/server/internal/catalog/service.go:100-104 | invalid events dead-lettered in order, up to the first failure |
| `CatalogService.Service.Write` | go-pipeline/server/internal/catalog/service.go:114-130 | one to three attempts leave the table as one application of the batch, or as it was; a batch the columns can store is given up only after as many failed calls as attempts, all three unless cancelled |
| `CatalogService.Service.ProcessPoison` | go-pipeline/server/internal/catalog/service.go:193-206 | counted before it is dead-lettered, whatever becomes of that: one more dead for the job whose id was recovered, all other jobs as before; nothing if none was |
| `CatalogService.Service.FlushProgress` | go-pipeline/server/internal/catalog/service.go:214-257 | reports the changed totals and no others; nil leaves every job's current totals on the topic and marked, an error moves no mark and means a failed call, an unchanged ledger sends nothing |
| `CatalogService.Service.CountEach` | go-pipeline/server/internal/catalog/service.go:128-135 | per-job counters go up once per event |
| `CatalogService.Reporter.ReportProgress` | go-pipeline/server/internal/kafka/consumer.go:235-258 | one synchronous report under the worker's identity, delivered, or failed with an unknown outcome |
| `CatalogService.DeadLetters.Republish` | go-pipeline/server/internal/kafka/consumer.go:161-190 | one synchronous dead letter, delivered, or failed with an unknown outcome |
| `Cycles.CycleIsRun` | go-pipeline/server/internal/catalog/worker.go:74-129 | refinement: however a cycle of the code ends, what it leaves is what a run of the protocol leaves, so the run theorems are about the code |
| `Upserts.BatchIsFold` | go-pipeline/server/internal/postgres/products.go:54-70 | keep-last-per-key then insert-or-update is never refused and equals applying the rows left to right |
| `Upserts.KeepLastSound` | go-pipeline/server/internal/postgres/products.go:58-63 | no key twice in one statement, every key kept, the kept row its last occurrence |
| `Upserts.BatchingIsFree` | go-pipeline/server/internal/postgres/products.go:20-30 | any split of a stream into batches gives the same table |
| `Upserts.ReapplyIsNoOp` | go-pipeline/server/internal/postgres/products.go:26-30 | re-applying a batch, or a redelivered suffix, changes nothing |
| `Upserts.PartitionInterleavingIsHarmless` | go-pipeline/server/internal/events/product_imported.go:31-37 | any interleaving that keeps per-partition order gives the table of the publish order, when routing is a function of the key |
| `Statements.SucceedsExactly` | go-pipeline/server/internal/postgres/products.go:54-74 | one statement succeeds exactly when the text of every row can be bound and every key's last row fits its columns; it then leaves the fold |
| `Statements.DistinctOn` | go-pipeline/server/internal/postgres/products.go:58-63 | one backward pass computes the kept rows |
| `Statements.Insert` | go-pipeline/server/internal/postgres/products.go:64-70 | insert-or-update, all or nothing, refusing a key touched twice |
| `Writers.ProductWriter.UpsertBatch` | go-pipeline/server/internal/postgres/products.go:31-76 | filling seven parallel arrays and running the statement leaves at each key the last row that has it and every other row as it was, or on an error either table; the old one, with an error, if any row cannot be bound or a kept row is refused by a column; any other error is a failed call |
| `Writers.ProjectionStore.UpsertProducts` | go-pipeline/server/internal/postgres/projection.go:43-88 | the same for the projection, from events: the row left at a key has the merchant, product id, name, price in cents, currency, date and job of the last event of that key |
| `Writers.FoldUpserts` | go-pipeline/server/internal/postgres/products.go:54-70 | a fold of rows leaves at each of their keys the last row that has it, and every other key untouched |
| `Writers.Unnest` | go-pipeline/server/internal/postgres/products.go:60-61 | the parallel arrays are read back as the rows they came from, in ordinal order |
| `Writers.Char3Exactly` | go-pipeline/server/deploy/migrations/catalog/0001_init.sql:2-12 | the currency column takes at most three characters and then blanks |
| `Writers.SupersededRows` | go-pipeline/server/internal/postgres/products.go:54-63 | a NUL character fails the batch even in a row that a later one supersedes; a date no column takes does not, once superseded |
| `Writers.ValidRowFailsItsBatch` | go-pipeline/server/internal/catalog/service.go:85-87 | a validated event can fail the shared statement after all: a currency longer than the column takes its batch down |
| `Importer.StepWritesWell` | go-pipeline/server/internal/importjob/entity.go:26-34 | every write of importer, tracker and restart follows a lifecycle edge, never touches a terminal record, never lowers a total |
| `Records.TerminalIsForever` | go-pipeline/server/internal/postgres/import_jobs.go:174-184 | over any run of the whole pipeline a terminal record never changes, totals never decrease and a completed record stays confirmed, despite the read-then-write gap |
| `Importer.CompletedByOwnStep` | go-pipeline/server/internal/importjob/service.go:139-180 | only the import's own goroutine, its context unexpired, ever writes completed, and only over a confirmed record |
| `Records.OrphanStaysProcessing` | go-pipeline/server/internal/postgres/import_jobs.go:129-143 | over any run of the pipeline, deliveries of other imports included, a record left processing without a goroutine keeps everything but its totals, for good |
| `Completion.CompletesExactly` | go-pipeline/server/internal/importjob/service.go:153-189 | in any reachable state of the pipeline, some run completes a processing job if and only if its own goroutine awaits or writes the confirmation, its context unexpired, and the workers can still report enough: one of its records is uncommitted, or what live workers counted and dead ones delivered reaches the published rows |
| `Completion.LosslessCompletes` | go-pipeline/server/internal/importjob/service.go:124-131 | so if none of its events was lost, and polls may hold a record, the goroutine alone decides: what is committed has been reported |
| `Completion.ListensInVain` | go-pipeline/server/internal/importjob/service.go:153-189 | a case where it is not enough that somebody listens: a concrete run to a job whose only event was lost, its goroutine waiting; no run completes it |
| `Feeding.ReportsReach` | go-pipeline/server/internal/catalog/worker.go:37-51 | an uncommitted record can be read and reported by one worker after another, each stopping before the commit, until the reports of its job reach any number |
| `Feeding.DueShrinks` | go-pipeline/server/internal/catalog/service.go:188-206 | once every record of a job is committed, no step of the pipeline raises what the workers can still report about it |
| `Restarts.RestartOrphans` | go-pipeline/server/internal/postgres/import_jobs.go:129-133 | the failing case: a concrete run to a restart that leaves a job, its one event delivered, processing; no continuation of the pipeline completes it |
| `Records.ExpiredIsSilent` | go-pipeline/server/internal/importjob/service.go:202-207 | over any run of the pipeline, an import whose context has expired records nothing any more, not even its failure; only a restart fails it, and not once it is processing |
| `Importer.ConfirmedAsReported` | go-pipeline/server/internal/importjob/service.go:178 | the completion test passes exactly when the report shows nothing unconfirmed; what is shown is published less processed and dead, and never negative |
| `Importer.RestartFailsStale` | go-pipeline/server/internal/postgres/import_jobs.go:129-143 | a restart ends every goroutine, fails exactly the imports still parsing, and loses what the broker had not taken yet |
| `Records.NeverDiscrepancy` | go-pipeline/server/internal/importjob/http.go:429-449 | in every reachable state of the pipeline the report never shows a discrepancy: it says failed exactly for failed records, reconciled exactly for completed ones, which then have processed and dead at least published, and in flight for all others |
| `Jobs.ImportJob.Transition` | go-pipeline/server/internal/importjob/entity.go:64-74 | applies exactly the allowed edges, refuses the rest without effect |
| `Jobs.NextExactly` | go-pipeline/server/internal/importjob/entity.go:26-34 | the lifecycle graph: forward only, uploading to parsing alone, publishing not straight to completed; terminal states are those with no way out |
| `Jobs.JobStore.ApplyProgress` | go-pipeline/server/internal/postgres/import_jobs.go:161-185 | two statements: acknowledged means both happened; an error is a failed call and leaves one of the three states between |
| `Jobs.JobStore.RecomputeTotals` | go-pipeline/server/internal/postgres/import_jobs.go:174-184 | a loop over worker rows stores the column sums on the job unless it is completed or failed, and touches no other job |
| `Jobs.SumRowsExactly` | go-pipeline/server/internal/postgres/import_jobs.go:174-184 | what is summed: nothing for a job nobody reported on, and each further worker adds its processed, retried and dead rows to those columns |
| `Jobs.FirstReportAdds` | go-pipeline/server/internal/postgres/import_jobs.go:161-184 | a worker's first report of a live job raises the stored processed, retried and dead totals by its own |
| `Jobs.JobStore.UpdateProgress` | go-pipeline/server/internal/postgres/import_jobs.go:102-114 | overwrites the row counters, unknown ids refused |
| `Jobs.JobStore.UpdateStatus` | go-pipeline/server/internal/postgres/import_jobs.go:117-127 | writes any status it is given, unknown ids refused |
| `Jobs.JobStore.FailStale` | go-pipeline/server/internal/postgres/import_jobs.go:129-143 | fails the jobs whose work died with the process, or none |
| `Jobs.FailAllStale` | go-pipeline/server/internal/postgres/import_jobs.go:129-139 | those are exactly the jobs neither processing nor decided; the rest are left alone |
| `Jobs.RowsAreLargest` | go-pipeline/server/internal/postgres/import_jobs.go:161-173 | after any sequence of reports each row is the largest report of its worker |
| `Jobs.RowIsGreatest` | go-pipeline/server/internal/postgres/import_jobs.go:161-173 | column by column: no report of the worker exceeds its row, and one reaches it |
| `Jobs.FoldConverges` | go-pipeline/server/internal/postgres/import_jobs.go:150-160 | order, repetition and dominated reports leave no trace |
| `Jobs.OnlyTheSetMatters` | go-pipeline/server/internal/postgres/import_jobs.go:155-157 | the state depends only on the set of reports |
| `Jobs.TotalsGrow` | go-pipeline/server/internal/postgres/import_jobs.go:161-184 | a fold never lowers a job's totals |
| `Jobs.CrashIsRepaired` | go-pipeline/server/internal/postgres/import_jobs.go:155-160 | folds that stopped between their statements are repaired by the next finished one; terminal jobs are untouched |
| `Jobs.ReusedIdExactly` | go-pipeline/server/cmd/catalog-worker/main.go:45-49 | why the worker id must be fresh: under a reused id the row is the sum of both incarnations exactly when one of them counted nothing in each column |
| `Tracker.ProgressTracker.Apply` | go-pipeline/server/internal/importjob/progress.go:86-126 | folds a report of a UUID job and keeps its latency figures; an error is a failed call and leaves the store before the fold or after its rows or both; anything else is settled without effect |
| `Tracker.ProgressTracker.Cycle` | go-pipeline/server/internal/importjob/progress.go:69-79 | job totals and rows become what a run of folds leaves, each of a delivered report, a finished one for every settled record; a record is left unsettled only by a failed fold; only settled records are committed, where their partition accepts |
| `Tracker.ProgressTracker.Run` | go-pipeline/server/internal/importjob/progress.go:55-81 | over any polls job totals and rows are what folds of delivered reports, finished or not, leave; if no call failed, every report of a UUID job in them was folded to the end |
| `Tracker.FoldsAreRun` | go-pipeline/server/internal/importjob/progress.go:55-126 | refinement: whatever folds of delivered reports the code performed are a run of the pipeline's protocol that touches nothing else, so its theorems on stored records are about this code |
| `Tracker.EventSource.CommitRecords` | go-pipeline/server/internal/importjob/progress.go:75-79 | each partition's offset moves past the last record given, unless it refuses, which is an error |
| `Tracker.RedeliveredExactly` | go-pipeline/server/internal/importjob/progress.go:83-85 | a failed fold comes back after a restart exactly when its partition refused the commit or no later record of it was settled |
| `Tracker.FailedFoldCanBePassed` | go-pipeline/server/internal/importjob/progress.go:69-79 | so it can be passed over for good: a concrete poll |
| `Publishers.Publisher.Publish` | go-pipeline/server/internal/kafka/producer.go:82-115 | accepts in order, or refuses once a delivery is known to have failed |
| `Publishers.Publisher.Resolve` | go-pipeline/server/internal/kafka/producer.go:100-113 | each promise takes one record out of the buffer, onto the topic or not; it may report a failure although the record is there, and the first reported failure sticks |
| `Publishers.Publisher.Flush` | go-pipeline/server/internal/kafka/producer.go:118-130 | nil exactly when no failure was reported since the last flush; then everything accepted since is on the topic as often as published, except what an expired context left buffered; the failures are forgotten either way |
| `ImportService.Service.Process` | go-pipeline/server/internal/importjob/service.go:67-143 | the record ends processing or completed only if the whole file was read, every valid row's event delivered and the counters say so, a flush cut short by the context included; completed implies confirmed; with a usable header, and neither a failed call nor the deadline, it ends completed or, still unconfirmed, failed; and on every outcome the record went the way of a path of the protocol's goroutine moves, handing the publisher the events of a prefix of the rows |
| `Goroutines.PathKeepsJob` | go-pipeline/server/internal/importjob/entity.go:26-34 | what the protocol's records keep is kept along every such path: a terminal record is left alone, totals grow, a completed one is confirmed |
| `Goroutines.ActIsStep` | go-pipeline/server/internal/importjob/service.go:67-189 | each move of a path is, where the publisher's flag and buffer are as the move found them, an enabled step of the pipeline with the same effect on the record |
| `ImportService.Service.PublishAll` | go-pipeline/server/internal/importjob/service.go:82-123 | stream, publish, flush, final counters; any failure stops it, and an early nil flush never gets past the counters; it fails only for an unusable header, the context's end, a failed delivery or a failed store call |
| `ImportService.Service.AwaitConfirmation` | go-pipeline/server/internal/importjob/service.go:153-189 | completes only a confirmed record, fails it on timeout, touches nothing else; past the deadline the record stays processing; all of it as moves of the protocol's goroutine |
| `ImportService.Import.Emit` | go-pipeline/server/internal/importjob/service.go:84-110 | the callback keeps total = valid + invalid, published = valid, the published events those of the valid rows, the stored count behind by less than the interval; every progress write is sound; the counters are those of the protocol's goroutine |
| `ImportService.Stream` | go-pipeline/server/internal/importjob/csv.go:117-192 | one row per record in order, numbered from 2: a record of the header's width is read as its own cells, and a row is malformed exactly if its record is a parse error or of another width; header problems emit nothing; the stats add up; it stops early only if the context expired, or the broker or the database failed a call |
| `ImportService.RowIsRead` | go-pipeline/server/internal/importjob/csv.go:173-216 | under the columns its header maps to, a record that prints a product yields that product as its row, with its own number |
| `ImportService.EventsInFileOrder` | go-pipeline/server/internal/importjob/service.go:90-95 | the published events are exactly the valid rows, once each, in file order with increasing row numbers |
| `ImportService.RowsAreNumbered` | go-pipeline/server/internal/importjob/csv.go:162-173 | the n-th record has row number n + 2 |
| `Prices.PriceExactly` | go-pipeline/server/internal/importjob/csv.go:365-407 | the accepted texts are exactly symbols and white space around digits with at most two fractional digits and a whole part in range; the value is exact and fits an int64 |
| `Prices.AmountIsExact` | go-pipeline/server/internal/importjob/csv.go:376-407 | the cents are the decimal amount as written, shifted by two places: one fractional digit means tenths |
| `Prices.SymbolsExactly` | go-pipeline/server/internal/importjob/csv.go:365-374 | the symbols stripped are those of dollar, euro, pound, yen and rupee |
| `Prices.PrintedPriceRoundTrips` | go-pipeline/server/benchmark/gen/main.go:76 | the two-decimal printer is inverted for every amount up to the bound, and every larger amount is refused |
| `Prices.LargestPrice` | go-pipeline/server/internal/importjob/csv.go:47-49 | the bound is 92233720368547757 dollars, the largest result 9223372036854775799 |
| `Dates.ExpirationExactly` | go-pipeline/server/internal/importjob/csv.go:409-422 | the accepted texts are exactly the ways of writing a Gregorian date of the years 0 to 9999 in the two layouts, and the result is its canonical form |
| `Dates.GregorianLeaps` | go-pipeline/server/internal/importjob/csv.go:409-422 | the leap years counted are the Gregorian ones: every fourth year, but of the centuries only every fourth |
| `Dates.MonthsMakeAYear` | go-pipeline/server/internal/importjob/csv.go:409-422 | the months have 31, 28 or in a leap year 29, 31, 30, 31, 30, 31, 31, 30, 31, 30 and 31 days, which add up to 365 or 366 |
| `Dates.CanonicalIsFixed` | go-pipeline/server/internal/importjob/csv.go:28-33 | a canonicalized date is read back as itself |
| `Dates.CanonicalReads` | go-pipeline/server/internal/importjob/csv.go:28-29 | the canonical form is YYYY-MM-DD: four, two and two digits whose values are year, month and day |
| `Dates.CanonicalInjective` | go-pipeline/server/internal/importjob/csv.go:28-29 | distinct dates have distinct canonical forms |
| `Normalizer.NormalizationIsStable` | go-pipeline/server/internal/importjob/csv.go:297-350 | an accepted row, printed and normalized again, is the same product, derived id and canonical date included |
| `Normalizer.NormalizeExactly` | go-pipeline/server/internal/importjob/csv.go:297-350 | a row is accepted as a product if and only if its cells denote it: the trimmed merchant of at most 64 bytes, the trimmed name of at most 256, the trimmed or derived product id of at most 64, the price in cents, the supported currency in upper case or the default, the date |
| `Normalizer.ReasonExactly` | go-pipeline/server/internal/importjob/csv.go:297-350 | a rejected row names the first rule it breaks, in the order merchant, name, product id, price, currency, date |
| `Normalizer.AcceptedIsNormal` | go-pipeline/server/internal/importjob/csv.go:297-350 | every accepted product is trimmed, within its byte limits, in a supported currency, its price in range, its date canonical |
| `Normalizer.NormalIsFixed` | go-pipeline/server/internal/importjob/csv.go:297-350 | every such product is accepted when printed |
| `Normalizer.PaddingIsFree` | go-pipeline/server/internal/importjob/csv.go:297-350 | white space around any field changes neither acceptance, product nor reason |
| `Normalizer.CurrencyCaseIsFree` | go-pipeline/server/internal/importjob/csv.go:324-332 | the case of a supported currency code makes no difference, and a blank one means the default |
| `Normalizer.SkuExactly` | go-pipeline/server/internal/importjob/csv.go:352-363 | the embedded SKU is the leftmost #(digits) |
| `Normalizer.DerivedExactly` | go-pipeline/server/internal/importjob/csv.go:352-363 | the derived identifier is that SKU; without one it is p- and the hash of the name in lower-case hexadecimal without leading zeros |
| `Text.Utf8Exactly` | go-pipeline/server/internal/importjob/csv.go:297-350 | lengths are counted in UTF-8 bytes: one to four a character, the fewest that hold it |
| `Text.SpacesExactly` | go-pipeline/server/internal/importjob/csv.go:297-350 | trimming removes exactly the Unicode white space characters |
| `Columns.MapColumns` | go-pipeline/server/internal/importjob/csv.go:235-256 | succeeds exactly for distinct names that include the required ones, mapping each to its index; otherwise names a repeated or the first missing column |
| `Columns.HeaderExactly` | go-pipeline/server/internal/importjob/csv.go:235-247 | in a mapped header each cell names the column at its index, trimmed and lower-cased, expiration standing for expiration_date |
| `Columns.MappedFits` | go-pipeline/server/internal/importjob/csv.go:218-227 | the map is injective and every index lies within a record of header width |
| `Columns.ColumnOrderIsFree` | go-pipeline/server/internal/importjob/csv.go:235-237 | permuting header and records alike changes neither acceptance nor any row |
| `Columns.PrintedRowIsRead` | go-pipeline/server/internal/importjob/csv.go:196-216 | a product printed under whatever columns the file has, defaults standing for absent ones and for a blank currency, is read back as itself |
| `Columns.RowExactly` | go-pipeline/server/internal/importjob/csv.go:196-216 | which cell is which: each field comes from the column of its own name, the merchant defaults only where its column is absent, the currency also where its cell is blank |
| `Products.FromEvent` | go-pipeline/server/internal/catalog/product.go:29-68 | the catalog's acceptance rule: exactly when nothing required is missing, each field as it came and the job as its source; otherwise the first rule broken |
| `Products.KindExactly` | go-pipeline/server/internal/catalog/service.go:84-99 | poison is what does not decode, invalid what decodes and breaks a rule, valid the rest |
| `Products.KeyExactly` | go-pipeline/server/internal/catalog/product.go:12-23 | a valid record's key is its merchant and product id, and its row holds its event field by field |
| `Products.RouteExactly` | go-pipeline/server/internal/events/product_imported.go:31-37 | unless a merchant id has a colon, two events share a routing key exactly when they share merchant and product id |
| `Events.UuidExactly` | go-pipeline/server/internal/catalog/uuid.go:5-9 | a UUID is five groups of 8, 4, 4, 4 and 12 hexadecimal digits joined by hyphens, and nothing else |
| `Products.SameProductSameRoute` | go-pipeline/server/internal/events/product_imported.go:31-37 | events of one product share a routing key |
| `Views.NormalizedIsAdmitted` | go-pipeline/server/internal/catalog/product.go:25-44 | every normalized row under a UUID job passes the worker's validation and the projector's filter |
| `Views.NormalIsStorable` | go-pipeline/server/deploy/migrations/catalog/0001_init.sql:2-12 | of those, both statements take exactly the ones whose text has no NUL character and whose date is not in the year 0 |
| `Views.FiltersExactly` | go-pipeline/server/internal/importjob/projection.go:60-68 | the projector's filter and the catalog's rule in the event's own fields: the first asks for a UUID job and the two ids, the second for a name, a price and a currency as well |
| `Views.ViewsAgreeExactly` | go-pipeline/server/internal/importjob/projection.go:18-23 | with both consumers at the end of the log, catalog and projection are equal if and only if every product's newest event that the projector accepts is one the catalog accepts |
| `Views.ImportedViewsAgree` | go-pipeline/server/internal/importjob/projection.go:52-68 | on a log of imports they are equal and nothing is dead-lettered |
| `Views.ForeignEventSetsViewsApart` | go-pipeline/server/internal/importjob/projection.go:63-66 | a foreign event the filter lets through is dead-lettered by the catalog and kept by the projection |
| `Projection.ProductProjector.Run` | go-pipeline/server/internal/importjob/projection.go:38-92 | the projection has taken in the polls as one stream; offsets never run ahead of it and lag by at most one poll, or the refusing partitions of it; it stops early only after a failed call or over a row no column takes |
| `Projection.ProductProjector.Cycle` | go-pipeline/server/internal/importjob/projection.go:52-90 | one poll: filtered, written as one batch however often retried, committed only after, perhaps in part |
| `Projection.LoopIsRun` | go-pipeline/server/internal/importjob/projection.go:38-92 | refinement: whatever the loop did with its polls and however it stopped, the state it leaves is reached by a run of the projector's protocol |
| `Projection.CaughtUpHoldsNewest` | go-pipeline/server/internal/importjob/projection.go:34-37 | after any polls, retries and restarts a caught-up projection holds each product's newest accepted event, field by field, and nothing else |
| `Pages.List` | go-pipeline/server/internal/importjob/products_http.go:41-99 | page and limit clamped to 1 to 1000000 and 1 to 100; the items are that page of the import's matching rows as the second query finds them, sorted by price, by expiration or else by name, downwards for DESC, undated last, ties by the key; the total and page count are of the rows at the first query |
| `Pages.ListProducts` | go-pipeline/server/internal/postgres/projection.go:93-141 | the matching rows counted in the projection as the first query finds it and, sorted with the key breaking ties, sliced in it as the second does |
| `Pages.PrecedesTotal` | go-pipeline/server/internal/postgres/projection.go:118-126 | the primary key makes the order total |
| `Pages.ListedInOrder` | go-pipeline/server/internal/postgres/projection.go:104-126 | the listing ascends or descends in the chosen column, dates in calendar order, undated products last either way, ties by merchant and product id |
| `Pages.SortedIsUnique` | go-pipeline/server/internal/postgres/projection.go:118-126 | so the sorted listing is unique and separate page queries slice the same list |
| `Pages.PagesTile` | go-pipeline/server/internal/importjob/products_http.go:85-98 | pages 1 to totalPages concatenate to the listing, each product once; exactly the later pages are empty |
| `Pages.ReachableExactly` | go-pipeline/server/internal/importjob/products_http.go:47-48 | a product can be paged to exactly when fewer than a million pages precede its own |
| `Replay.Replay` | go-pipeline/server/cmd/replay/main.go:34-51 | truncates, then resets; a failed reset keeps every offset, a refused partition keeps its own, and the emptied table stays emptied; it fails only for an unknown topic or a failed call |
| `Replay.Group.ResetOffsets` | go-pipeline/server/cmd/replay/main.go:71-123 | every partition of every requested topic loses its offset unless refused, others keep theirs; an unknown topic deletes nothing |

## Left out

- CatalogWorker.Worker.Run: takes the polls as a list, so the ticker goroutine is not in this method; its interleavings are in Flushers and, as deliveries at any moment, in Stream. LoopIsRun refines the method, without the ticker.
- Cycles.CycleIsRun: is about one cycle with no other step in between; steps of other workers between a cycle's effects are covered by the protocol's own interleaving, not by the class.
- ImportService.Service.AwaitConfirmation: bounds the polling by the ticks left before the import's deadline, and lets the tracker change only the folded totals meanwhile.
- ImportService.Stream: starts from a parsed header and a finite list of records or parse errors; delimiter detection, the byte-order mark and a reader that fails forever are not modelled.
- Writers.ProjectionStore.UpsertProducts: leaves out the production timestamp column.
- Normalizer.NormalizationIsStable: takes the name hash as a parameter, and upper-casing only as far as it can reach a currency code.
- Completion.CompletesExactly: is about the protocol, where a live worker may report its counters again and the tracker may read any delivered report again. In the code an unchanged total is not sent twice, and a report whose fold failed can be passed over for good (Tracker.FailedFoldCanBePassed); then a job may be beyond completing although the protocol could still complete it.
- ImportService.Service.Process: follows one goroutine; that other imports and deliveries run in between is the protocol's part, and no lemma ties the publisher's class to the pipeline's deliveries.
- The web client, and the whole of node-pipeline: other programs.
- Kafka and PostgreSQL internals: rebalancing, compression, deadlines, transactions; topics are sequences, statements are atomic map updates.
- Blank padding of CHAR(3) values as stored, and date spellings other than the canonical one that the database would also read.
- The error text stored with a failed job, and timestamps.
- Malformed UTF-8, JSON encoding and the job-id pattern applied to undecodable payloads: a record either decodes or yields an optional job id.
- The CSV reader's quoting, temporary files, multipart uploads, server-sent events, metrics, logging, configuration, migrations.
- The retry policy and its headers: ProcessBatch never consults them.
- Latency sampling and percentiles: floating point and wall clock.
- Timing: tickers, backoff and timeouts are nondeterministic choices, so nothing is claimed about when anything happens.
- Liveness: that a stopped worker is restarted or that a processing job ever ends.
- The catalog in the middle of a redelivery: it can briefly show an older row, and only caught-up states are equated with a fold.
- Reading a job by id or listing jobs, and the response shapes other than the reconciliation report: they return stored fields unchanged.
