// The importer side as a protocol: each import's goroutine, the shared publisher, the progress
// tracker and a process restart, all interleaved over one job store.
module Importer {
  import opened Wrappers
  import opened Events
  import opened Jobs

  // Where an import's goroutine stands.
  datatype Stage =
    | Streaming
    | StoringCounts      // a periodic progress write is due
    | Flushing           // end of file, waiting for deliveries
    | StoringFinal
    | MarkingEmpty       // nothing was published
    | MarkingProcessing
    | Awaiting           // polling for confirmation
    | Confirming         // read enough confirmations, about to write completed
    | Failing            // about to write failed

  // `expired` once the import's context has: from then on every store call fails without effect,
  // and a wait for deliveries returns at once.
  datatype Proc = Proc(stage: Stage, total: nat, valid: nat, invalid: nat, published: nat, expired: bool)

  // One import: its stored row, its goroutine if one is running, and its history, the events
  // handed to the publisher and those whose delivery failed.
  datatype Job = Job(row: JobRow, proc: Option<Proc>, sent: nat, lost: nat) {
    predicate At(stage: Stage) {
      proc.Some? && proc.value.stage == stage
    }

    predicate Expired() {
      proc.Some? && proc.value.expired
    }

    function Goto(stage: Stage): Job
      requires proc.Some?
    {
      this.(proc := Some(proc.value.(stage := stage)))
    }

    function Stored(): Job
      requires proc.Some?
    {
      var p := proc.value;
      this.(row := WithProgress(row, Progress(p.total, p.valid, p.invalid, p.published)))
    }

    // A status write that may not have happened ends the goroutine either way.
    function Finish(landed: bool, to: Status): Job {
      this.(row := if landed then row.(status := to) else row, proc := None)
    }
  }

  datatype State = State(
    flushEvery: nat,
    jobs: map<JobId, Job>,
    rows: WorkerRows,
    buffer: seq<ProductImported>,
    firstErr: bool,
    folding: Option<JobId>)

  function Init(flushEvery: nat): State {
    State(flushEvery, map[], map[], [], false, None)
  }

  // ---------------------------------------------------------------- one import's own steps

  datatype Move =
    | InvalidRow
    | ValidRow(evt: ProductImported)
    | StoreCounts(acked: bool)
    | EndOfFile
    | FlushReturns
    | StoreFinal(acked: bool)
    | MarkEmpty(landed: bool)
    | MarkProcessing(acked: bool)
    | Check
    | Complete(landed: bool)
    | GiveUp
    | MarkFailed(landed: bool)
    | Expire

  ghost predicate CanMove(job: Job, move: Move) {
    match move
    case InvalidRow => job.At(Streaming)
    case ValidRow(_) => job.At(Streaming)
    case StoreCounts(_) => job.At(StoringCounts) && !job.Expired()
    case EndOfFile => job.At(Streaming)
    case FlushReturns => job.At(Flushing)
    case StoreFinal(_) => job.At(StoringFinal) && !job.Expired()
    case MarkEmpty(landed) => job.At(MarkingEmpty) && (landed ==> !job.Expired())
    case MarkProcessing(_) => job.At(MarkingProcessing) && !job.Expired()
    case Check => job.At(Awaiting) && !job.Expired()
    case Complete(landed) => job.At(Confirming) && (landed ==> !job.Expired())
    // A stream error, a refused publish, a store write that did not happen, a confirmation timeout
    // or the context's end.
    case GiveUp =>
      job.At(Streaming) || job.At(StoringCounts) || job.At(StoringFinal) || job.At(MarkingProcessing) ||
          job.At(Awaiting)
    case MarkFailed(landed) => job.At(Failing) && (landed ==> !job.Expired())
    case Expire => job.proc.Some?
  }

  ghost function Moved(job: Job, move: Move, flushEvery: nat, firstErr: bool): Job
    requires CanMove(job, move)
  {
    var p := job.proc.value;
    match move
    case InvalidRow => job.(proc := Some(p.(total := p.total + 1, invalid := p.invalid + 1)))
    case ValidRow(_) =>
      var due := flushEvery > 0 && (p.published + 1) % flushEvery == 0;
      var stage := if due then StoringCounts else Streaming;
      job.(sent := job.sent + 1,
           proc := Some(Proc(stage, p.total + 1, p.valid + 1, p.invalid, p.published + 1, p.expired)))
    case StoreCounts(acked) => job.Stored().Goto(if acked then Streaming else Failing)
    case EndOfFile => job.Goto(Flushing)
    case FlushReturns => job.Goto(if firstErr then Failing else StoringFinal)
    case StoreFinal(acked) =>
      job.Stored().Goto(if !acked then Failing else if p.published == 0 then MarkingEmpty else MarkingProcessing)
    case MarkEmpty(landed) => job.Finish(landed, Completed)
    case MarkProcessing(acked) => job.(row := job.row.(status := Processing)).Goto(if acked then Awaiting else Failing)
    case Check =>
      if !job.row.status.Processing? then job.(proc := None)
      else if job.row.Confirmed() then job.Goto(Confirming)
      else job
    case Complete(landed) => job.Finish(landed, Completed)
    case GiveUp => job.Goto(Failing)
    case MarkFailed(landed) => job.Finish(landed, Failed)
    case Expire => job.(proc := Some(p.(expired := true)))
  }

  // ---------------------------------------------------------------- all steps

  datatype Step =
    | Create(j: JobId, started: bool)
    | Own(j: JobId, move: Move)
    | TrackRow(r: Report, acked: bool)
    | TrackTotals(landed: bool)
    | TrackStop
    | Restart(landed: bool)

  function BufferedOf(buffer: seq<ProductImported>, j: JobId): nat {
    if buffer == [] then 0
    else BufferedOf(buffer[..|buffer| - 1], j) + if buffer[|buffer| - 1].jobId == j then 1 else 0
  }

  ghost predicate Enabled(s: State, step: Step) {
    match step
    case Create(j, _) => j !in s.jobs && IsUuid(j)
    case Own(j, move) =>
      && j in s.jobs && CanMove(s.jobs[j], move)
      && (move.ValidRow? ==> move.evt.jobId == j && !s.firstErr)
      // The client's flush returns once nothing it was handed before is still buffered, or early.
      && (move.FlushReturns? ==> BufferedOf(s.buffer, j) == 0 || s.jobs[j].Expired())
    case TrackRow(r, _) => s.folding == None && IsUuid(r.job)
    case TrackTotals(_) => s.folding.Some?
    case TrackStop => true
    case Restart(_) => true
  }

  ghost function Recomputed(job: Job, sum: Snapshot): Job {
    job.(row := WithTotals(job.row, sum))
  }

  // In-memory work dies with the process; the next one fails the stale jobs before it serves.
  ghost function Restarted(job: Job, landed: bool, buffered: nat): Job {
    Job(if landed then FailStaleRow(job.row) else job.row, None, job.sent, job.lost + buffered)
  }

  ghost function Apply(s: State, step: Step): State
    requires Enabled(s, step)
  {
    match step
    case Create(j, started) =>
      var p := if started then Some(Proc(Streaming, 0, 0, 0, 0, false)) else None;
      s.(jobs := s.jobs[j := Job(JobRow(Parsing, 0, 0, 0, 0, NOTHING), p, 0, 0)])
    case Own(j, move) =>
      // Flush reports the publisher's first failure and clears it, whichever import it belongs to.
      s.(jobs := s.jobs[j := Moved(s.jobs[j], move, s.flushEvery, s.firstErr)],
         buffer := if move.ValidRow? then s.buffer + [move.evt] else s.buffer,
         firstErr := s.firstErr && !move.FlushReturns?)
    case TrackRow(r, acked) => s.(rows := FoldRow(s.rows, r), folding := if acked then Some(r.job) else None)
    case TrackTotals(landed) =>
      var j := s.folding.value;
      var t := s.(folding := None);
      if landed && j in s.jobs then t.(jobs := s.jobs[j := Recomputed(s.jobs[j], SumRows(RowsOf(s.rows, j)))]) else t
    case TrackStop => s.(folding := None)
    case Restart(landed) =>
      s.(jobs := map j | j in s.jobs :: Restarted(s.jobs[j], landed, BufferedOf(s.buffer, j)),
         buffer := [], firstErr := false, folding := None)
  }

  // ---------------------------------------------------------------- the job record invariant

  ghost predicate ProcInv(row: JobRow, p: Proc, sent: nat) {
    && p.total == p.valid + p.invalid && p.published == p.valid == sent
    && match p.stage
       case MarkingEmpty => row.status.Parsing? && row.publishedRows == sent == 0
       case MarkingProcessing => row.status.Parsing? && row.publishedRows == sent
       case Awaiting => row.status.Processing? && row.publishedRows == sent
       case Confirming => row.status.Processing? && row.publishedRows == sent && row.Confirmed()
       case Failing => row.status.Parsing? || row.status.Processing?
       case _ => row.status.Parsing?
  }

  ghost predicate JobInv(job: Job) {
    && !job.row.status.Uploading? && !job.row.status.Publishing?
    && job.row.totalRows == job.row.validRows + job.row.invalidRows && job.row.publishedRows == job.row.validRows
    && (job.row.status.Completed? ==> job.row.publishedRows == job.sent && job.row.Confirmed())
    && (job.proc.Some? ==> ProcInv(job.row, job.proc.value, job.sent))
  }

  // Stored totals never run ahead of the sum they are computed from, so recomputing only adds.
  ghost predicate TotalsInv(s: State, j: JobId)
    requires j in s.jobs
  {
    s.jobs[j].row.progress.AtMost(SumRows(RowsOf(s.rows, j)))
  }

  ghost predicate Inv(s: State) {
    forall j :: j in s.jobs ==> IsUuid(j) && JobInv(s.jobs[j]) && TotalsInv(s, j)
  }

  // What a step may do to a stored record: follow the lifecycle graph, never rewrite a terminal
  // record, never lower a folded total.
  ghost predicate GoodWrite(before: JobRow, after: JobRow) {
    && (after.status == before.status || after.status in before.status.Next())
    && (before.status.Terminal() ==> after == before)
    && before.progress.AtMost(after.progress)
  }

  lemma MoveKeepsJob(job: Job, move: Move, flushEvery: nat, firstErr: bool)
    requires JobInv(job) && CanMove(job, move)
    ensures JobInv(Moved(job, move, flushEvery, firstErr))
    ensures GoodWrite(job.row, Moved(job, move, flushEvery, firstErr).row)
    ensures Moved(job, move, flushEvery, firstErr).row.progress == job.row.progress
  {
  }

  lemma RecomputeKeepsJob(job: Job, sum: Snapshot)
    requires JobInv(job) && job.row.progress.AtMost(sum)
    ensures JobInv(Recomputed(job, sum)) && GoodWrite(job.row, Recomputed(job, sum).row)
    ensures Recomputed(job, sum).row.progress.AtMost(sum)
  {
  }

  lemma RestartKeepsJob(job: Job, landed: bool, buffered: nat)
    requires JobInv(job)
    ensures JobInv(Restarted(job, landed, buffered)) && GoodWrite(job.row, Restarted(job, landed, buffered).row)
    ensures Restarted(job, landed, buffered).row.progress == job.row.progress
  {
  }

  // A restart ends every goroutine and fails exactly the imports still parsing; what the broker had not
  // taken yet is lost.
  lemma RestartFailsStale(s: State, j: JobId)
    requires Inv(s) && j in s.jobs
    ensures var before, after := s.jobs[j], Apply(s, Restart(true)).jobs[j];
            && after.proc == None && after.sent == before.sent
            && after.lost == before.lost + BufferedOf(s.buffer, j)
            && after.row == if before.row.status.Parsing? then before.row.(status := Failed) else before.row
  {
  }

  // Every status the code writes is an edge of the lifecycle graph from the stored status, although
  // the store never checks; a terminal record is never written again; folded totals never decrease.
  lemma StepWritesWell(s: State, step: Step, j: JobId)
    requires Inv(s) && Enabled(s, step) && j in s.jobs
    ensures var t := Apply(s, step);
            j in t.jobs && JobInv(t.jobs[j]) && TotalsInv(t, j) && GoodWrite(s.jobs[j].row, t.jobs[j].row)
  {
    hide SumRows;
    assert JobInv(s.jobs[j]) && TotalsInv(s, j);
    match step
    case Create(_, _) =>
    case Own(i, move) => if i == j { MoveKeepsJob(s.jobs[j], move, s.flushEvery, s.firstErr); }
    case TrackRow(r, _) => TotalsGrow(s.rows, r, j);
    case TrackTotals(_) => if s.folding.value == j { RecomputeKeepsJob(s.jobs[j], SumRows(RowsOf(s.rows, j))); }
    case TrackStop =>
    case Restart(landed) => RestartKeepsJob(s.jobs[j], landed, BufferedOf(s.buffer, j));
  }

  lemma OnlyCreateAdds(s: State, step: Step, j: JobId)
    requires Enabled(s, step) && j !in s.jobs && j in Apply(s, step).jobs
    ensures step.Create? && j == step.j && IsUuid(j)
  {
    hide SumRows;
  }

  lemma CreatedJob(s: State, j: JobId, started: bool)
    requires Enabled(s, Create(j, started))
    ensures JobInv(Apply(s, Create(j, started)).jobs[j]) && TotalsInv(Apply(s, Create(j, started)), j)
  {
    hide SumRows;
  }

  lemma StepKeepsInv(s: State, step: Step)
    requires Inv(s) && Enabled(s, step)
    ensures Inv(Apply(s, step))
  {
    hide SumRows, Apply, Enabled;
    var t := Apply(s, step);
    forall j | j in t.jobs ensures IsUuid(j) && JobInv(t.jobs[j]) && TotalsInv(t, j) {
      if j in s.jobs {
        StepWritesWell(s, step, j);
      } else {
        OnlyCreateAdds(s, step, j);
        CreatedJob(s, j, step.started);
      }
    }
  }

  // ---------------------------------------------------------------- which jobs complete

  // A restart leaves a job that awaited confirmation without a goroutine, still processing.
  predicate Orphaned(job: Job) {
    job.proc.None? && job.row.status.Processing?
  }

  lemma OrphanStep(s: State, step: Step, j: JobId)
    requires Enabled(s, step) && j in s.jobs && Orphaned(s.jobs[j])
    ensures j in Apply(s, step).jobs && Orphaned(Apply(s, step).jobs[j])
  {
    hide SumRows;
  }

  lemma OrphanRow(s: State, step: Step, j: JobId)
    requires Enabled(s, step) && j in s.jobs && Orphaned(s.jobs[j]) && j in Apply(s, step).jobs
    ensures Apply(s, step).jobs[j].row == s.jobs[j].row.(progress := Apply(s, step).jobs[j].row.progress)
  {
    hide SumRows;
  }

  // Nothing is left that could complete the job: no goroutine, one whose context has expired, or one
  // that has given up.
  predicate Stuck(job: Job) {
    !job.row.status.Completed? && (job.proc.None? || job.Expired() || job.At(Failing))
  }

  lemma StuckStep(s: State, step: Step, j: JobId)
    requires Enabled(s, step) && j in s.jobs && Stuck(s.jobs[j])
    ensures j in Apply(s, step).jobs && Stuck(Apply(s, step).jobs[j])
  {
    hide SumRows;
  }

  // Only the import's own goroutine, before its context expires, writes completed, and only over a
  // record that shows everything confirmed.
  lemma CompletedByOwnStep(s: State, step: Step, j: JobId)
    requires Inv(s) && Enabled(s, step) && j in s.jobs && !s.jobs[j].row.status.Completed?
    requires j in Apply(s, step).jobs && Apply(s, step).jobs[j].row.status.Completed?
    ensures step == Own(j, MarkEmpty(true)) || step == Own(j, Complete(true))
    ensures s.jobs[j].proc.Some? && !s.jobs[j].Expired() && s.jobs[j].row.Confirmed()
  {
    OnlyOwnCompletes(s, step, j);
    assert JobInv(s.jobs[j]);
    MoveCompletes(s.jobs[j], step.move, s.flushEvery, s.firstErr);
  }

  lemma OnlyOwnCompletes(s: State, step: Step, j: JobId)
    requires Enabled(s, step) && j in s.jobs && !s.jobs[j].row.status.Completed?
    requires j in Apply(s, step).jobs && Apply(s, step).jobs[j].row.status.Completed?
    ensures step.Own? && step.j == j
    ensures Moved(s.jobs[j], step.move, s.flushEvery, s.firstErr).row.status.Completed?
  {
    hide SumRows, Moved;
  }

  lemma MoveCompletes(job: Job, move: Move, flushEvery: nat, firstErr: bool)
    requires JobInv(job) && CanMove(job, move) && !job.row.status.Completed?
    requires Moved(job, move, flushEvery, firstErr).row.status.Completed?
    ensures move == MarkEmpty(true) || move == Complete(true)
    ensures job.proc.Some? && !job.Expired() && job.row.Confirmed()
  {
  }

  // Waiting for the confirmation, or about to act on it.
  predicate Listening(job: Job) {
    (job.At(Awaiting) || job.At(Confirming)) && !job.Expired()
  }

  // ---------------------------------------------------------------- after the context's end

  // Totals aside, a record is as it was, or a restart has failed it.
  predicate Silent(before: JobRow, after: JobRow) {
    after == before.(progress := after.progress, status := after.status) &&
    (after.status == before.status || (Stale(before.status) && after.status.Failed?))
  }

  lemma ExpiredStep(s: State, step: Step, j: JobId)
    requires Enabled(s, step) && j in s.jobs && (s.jobs[j].Expired() || s.jobs[j].proc.None?)
    ensures var t := Apply(s, step);
            j in t.jobs && (t.jobs[j].Expired() || t.jobs[j].proc.None?) && Silent(s.jobs[j].row, t.jobs[j].row)
  {
    hide SumRows;
  }

  // ---------------------------------------------------------------- reconciliation

  datatype Reconciliation = InFlight | FailedImport | Reconciled | Discrepancy

  datatype ReportBody = ReportBody(published: nat, confirmed: nat, unconfirmed: nat, state: Reconciliation)

  function BuildReport(row: JobRow): ReportBody {
    var confirmed := row.progress.processed + row.progress.dead;
    var unconfirmed := if row.publishedRows < confirmed then 0 else row.publishedRows - confirmed;
    var state :=
      if row.status.Failed? then FailedImport
      else if row.status.Completed? then if unconfirmed == 0 then Reconciled else Discrepancy
      else InFlight;
    ReportBody(row.publishedRows, confirmed, unconfirmed, state)
  }

  // The completion test is the report's: nothing is shown as unconfirmed exactly when it passes,
  // and published events are split into confirmed and unconfirmed ones until then.
  lemma ConfirmedAsReported(row: JobRow)
    ensures row.Confirmed() <==> BuildReport(row).unconfirmed == 0
    ensures !row.Confirmed() ==> BuildReport(row).confirmed + BuildReport(row).unconfirmed == row.publishedRows
    ensures BuildReport(row).confirmed == row.progress.Total() && BuildReport(row).published == row.publishedRows
    ensures BuildReport(row).confirmed == row.progress.processed + row.progress.dead
    ensures var gap := row.publishedRows - row.progress.processed - row.progress.dead;
            BuildReport(row).unconfirmed == if gap > 0 then gap else 0
  {
  }
}
