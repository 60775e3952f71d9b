// Import job records: the lifecycle, the store's statements, and the fold of progress reports.
module Jobs {
  import opened Wrappers
  import opened Events
  import opened Ledger
  import opened Sums
  import opened Effects

  // ---------------------------------------------------------------- lifecycle

  datatype Status = Uploading | Parsing | Publishing | Processing | Completed | Failed {
    predicate Terminal() {
      Completed? || Failed?
    }

    // The lifecycle graph.
    function Next(): set<Status> {
      match this
      case Uploading => {Parsing}
      case Parsing => {Publishing, Processing, Completed, Failed}
      case Publishing => {Status.Processing, Failed}
      case Processing => {Completed, Failed}
      case Completed => {}
      case Failed => {}
    }
  }

  // How far along a status is.
  function Rank(s: Status): nat {
    match s
    case Uploading => 0
    case Parsing => 1
    case Publishing => 2
    case Processing => 3
    case Completed => 4
    case Failed => 4
  }

  // The graph leads forward only, to any later status: except that an upload is parsed first, and a job
  // that is publishing is not completed without having been processing.
  lemma NextExactly(from: Status, to: Status)
    ensures to in from.Next() <==>
              Rank(from) < Rank(to) && (from.Uploading? ==> to.Parsing?) && (from.Publishing? ==> !to.Completed?)
    ensures from.Terminal() <==> from.Next() == {}
  {
  }

  class ImportJob {
    var status: Status
    var lastError: Option<string>

    constructor (status: Status)
      ensures this.status == status && lastError == None
    {
      this.status := status;
      lastError := None;
    }

    // Refuses, without effect, a change that is not an edge of the graph.
    method Transition(to: Status, lastErr: Option<string>) returns (ok: bool)
      modifies this
      ensures ok <==> to in old(status).Next()
      ensures ok ==> status == to && lastError == lastErr
      ensures !ok ==> status == old(status) && lastError == old(lastError)
      ensures old(status).Terminal() ==> !ok
    {
      ok := to in status.Next();
      if ok {
        status := to;
        lastError := lastErr;
      }
    }
  }

  // A row of import_jobs.
  datatype JobRow = JobRow(
    status: Status,
    totalRows: nat, validRows: nat, invalidRows: nat, publishedRows: nat,
    progress: Snapshot)
  {
    predicate Live() {
      !status.Terminal()
    }

    predicate Confirmed() {
      progress.processed + progress.dead >= publishedRows
    }
  }

  // The row counters an importer writes.
  datatype Progress = Progress(totalRows: nat, validRows: nat, invalidRows: nat, publishedRows: nat)

  // The rows of import_progress_workers, by job and worker.
  type WorkerRows = map<JobId, map<WorkerId, Snapshot>>

  function RowsOf(rows: WorkerRows, j: JobId): map<WorkerId, Snapshot> {
    if j in rows then rows[j] else map[]
  }

  // ---------------------------------------------------------------- the two statements of a fold

  // INSERT ... ON CONFLICT (job_id, worker_id) DO UPDATE SET each column to the GREATEST.
  function FoldRow(rows: WorkerRows, r: Report): WorkerRows {
    var mine := RowsOf(rows, r.job);
    var before := if r.worker in mine then mine[r.worker] else NOTHING;
    rows[r.job := mine[r.worker := before.Join(r.counts)]]
  }

  ghost function Processed(mine: map<WorkerId, Snapshot>): WorkerId -> nat {
    (w: WorkerId) => if w in mine then mine[w].processed else 0
  }

  ghost function Retried(mine: map<WorkerId, Snapshot>): WorkerId -> nat {
    (w: WorkerId) => if w in mine then mine[w].retried else 0
  }

  ghost function DeadCount(mine: map<WorkerId, Snapshot>): WorkerId -> nat {
    (w: WorkerId) => if w in mine then mine[w].dead else 0
  }

  // COALESCE(SUM(...), 0) of each column over a job's workers.
  ghost function SumRows(mine: map<WorkerId, Snapshot>): Snapshot {
    Snapshot(SumOver(mine.Keys, Processed(mine)), SumOver(mine.Keys, Retried(mine)),
             SumOver(mine.Keys, DeadCount(mine)))
  }

  // A job nobody reported on shows nothing, and each further worker adds its own columns.
  lemma SumRowsExactly(mine: map<WorkerId, Snapshot>, w: WorkerId, s: Snapshot)
    requires w !in mine
    ensures SumRows(map[]) == NOTHING
    ensures SumRows(map[w := s]) == s
    ensures var sum, more := SumRows(mine), SumRows(mine[w := s]);
            && more.processed == sum.processed + s.processed
            && more.retried == sum.retried + s.retried
            && more.dead == sum.dead + s.dead
  {
    SumOneMore(map[], w, s);
    SumOneMore(mine, w, s);
  }

  lemma SumOneMore(mine: map<WorkerId, Snapshot>, w: WorkerId, s: Snapshot)
    requires w !in mine
    ensures var sum, more := SumRows(mine), SumRows(mine[w := s]);
            && more.processed == sum.processed + s.processed
            && more.retried == sum.retried + s.retried
            && more.dead == sum.dead + s.dead
  {
    var more := mine[w := s];
    SumRemove(more.Keys, Processed(more), w);
    SumRemove(more.Keys, Retried(more), w);
    SumRemove(more.Keys, DeadCount(more), w);
    assert more.Keys - {w} == mine.Keys;
    SumSame(mine.Keys, Processed(mine), Processed(more));
    SumSame(mine.Keys, Retried(mine), Retried(more));
    SumSame(mine.Keys, DeadCount(mine), DeadCount(more));
  }

  // UPDATE import_jobs SET each counter to the sum, for a live job only.
  function WithTotals(row: JobRow, sum: Snapshot): JobRow {
    if row.Live() then row.(progress := sum) else row
  }

  ghost function FoldTotals(jobs: map<JobId, JobRow>, rows: WorkerRows, j: JobId): map<JobId, JobRow> {
    if j in jobs then jobs[j := WithTotals(jobs[j], SumRows(RowsOf(rows, j)))] else jobs
  }

  // ---------------------------------------------------------------- the store

  class JobStore {
    var jobs: map<JobId, JobRow>
    var rows: WorkerRows
    ghost var failures: nat   // calls that did not go through

    constructor ()
      ensures jobs == map[] && rows == map[]
    {
      jobs, rows := map[], map[];
    }

    method UpdateProgress(id: JobId, p: Progress) returns (ok: bool)
      modifies this`jobs, this`failures
      ensures failures == old(failures) + if ok || id !in old(jobs) then 0 else 1
      ensures id !in old(jobs) ==> !ok && jobs == old(jobs)
      ensures ok ==> id in old(jobs) && id in jobs &&
                     jobs[id].totalRows == p.totalRows && jobs[id].validRows == p.validRows &&
                     jobs[id].invalidRows == p.invalidRows && jobs[id].publishedRows == p.publishedRows &&
                     jobs[id].status == old(jobs)[id].status && jobs[id].progress == old(jobs)[id].progress
      ensures var after := if id in old(jobs) then old(jobs)[id := WithProgress(old(jobs)[id], p)] else old(jobs);
              jobs == after || (!ok && jobs == old(jobs))
    {
      var landed, acked := Attempt();
      ok := acked && id in jobs;
      if landed && id in jobs {
        jobs := jobs[id := WithProgress(jobs[id], p)];
      }
      failures := failures + if ok || id !in jobs then 0 else 1;
    }

    // The store applies any status: it does not consult the lifecycle graph.
    method UpdateStatus(id: JobId, to: Status) returns (ok: bool)
      modifies this`jobs, this`failures
      ensures failures == old(failures) + if ok || id !in old(jobs) then 0 else 1
      ensures id !in old(jobs) ==> !ok && jobs == old(jobs)
      ensures var after := if id in old(jobs) then old(jobs)[id := old(jobs)[id].(status := to)] else old(jobs);
              jobs == after || (!ok && jobs == old(jobs))
    {
      var landed, acked := Attempt();
      ok := acked && id in jobs;
      if landed && id in jobs {
        jobs := jobs[id := jobs[id].(status := to)];
      }
      failures := failures + if ok || id !in jobs then 0 else 1;
    }

    method FailStale() returns (ok: bool)
      modifies this`jobs, this`failures
      ensures failures == old(failures) + if ok then 0 else 1
      ensures jobs == FailAllStale(old(jobs)) || (!ok && jobs == old(jobs))
    {
      var landed, acked := Attempt();
      ok := acked;
      if landed {
        jobs := FailAllStale(jobs);
      }
      failures := failures + if ok then 0 else 1;
    }

    method ApplyProgress(r: Report) returns (ok: bool)
      modifies this
      ensures ok ==> rows == FoldRow(old(rows), r) && jobs == FoldTotals(old(jobs), rows, r.job)
      ensures !ok ==> (rows == old(rows) && jobs == old(jobs)) ||
                      (rows == FoldRow(old(rows), r) &&
                          (jobs == old(jobs) || jobs == FoldTotals(old(jobs), rows, r.job)))
      ensures failures == old(failures) + if ok then 0 else 1
    {
      var landed, acked := Attempt();
      if landed {
        rows := FoldRow(rows, r);
      }
      if !acked {
        failures := failures + 1;
        return false;
      }
      landed, acked := Attempt();
      if landed {
        RecomputeTotals(r.job);
      }
      failures := failures + if acked then 0 else 1;
      return acked;
    }

    // The UPDATE of the totals, its three SUM subqueries written out.
    method RecomputeTotals(j: JobId)
      modifies this`jobs
      ensures jobs == FoldTotals(old(jobs), rows, j)
      ensures jobs.Keys == old(jobs).Keys && forall i :: i in jobs && i != j ==> jobs[i] == old(jobs)[i]
      ensures j in jobs && old(jobs)[j].status in {Completed, Failed} ==> jobs[j] == old(jobs)[j]
      ensures j in jobs && old(jobs)[j].status !in {Completed, Failed} ==>
                jobs[j] == old(jobs)[j].(progress := SumRows(RowsOf(rows, j)))
    {
      var mine := RowsOf(rows, j);
      var sum := NOTHING;
      var left := mine.Keys;
      while left != {}
        invariant left <= mine.Keys && jobs == old(jobs)
        invariant sum.processed + SumOver(left, Processed(mine)) == SumOver(mine.Keys, Processed(mine))
        invariant sum.retried + SumOver(left, Retried(mine)) == SumOver(mine.Keys, Retried(mine))
        invariant sum.dead + SumOver(left, DeadCount(mine)) == SumOver(mine.Keys, DeadCount(mine))
        decreases |left|
      {
        var w :| w in left;
        SumRemove(left, Processed(mine), w);
        SumRemove(left, Retried(mine), w);
        SumRemove(left, DeadCount(mine), w);
        sum := Snapshot(sum.processed + mine[w].processed, sum.retried + mine[w].retried, sum.dead + mine[w].dead);
        left := left - {w};
      }
      assert sum == SumRows(mine);
      if j in jobs {
        jobs := jobs[j := WithTotals(jobs[j], sum)];
      }
    }
  }

  function WithProgress(row: JobRow, p: Progress): JobRow {
    row.(totalRows := p.totalRows, validRows := p.validRows, invalidRows := p.invalidRows,
         publishedRows := p.publishedRows)
  }

  predicate Stale(status: Status) {
    status.Uploading? || status.Parsing? || status.Publishing?
  }

  function FailStaleRow(row: JobRow): JobRow {
    if Stale(row.status) then row.(status := Failed) else row
  }

  // A job that awaits confirmation, or is decided, is left alone.
  function FailAllStale(jobs: map<JobId, JobRow>): (after: map<JobId, JobRow>)
    ensures after.Keys == jobs.Keys
    ensures forall j :: j in jobs ==>
              if jobs[j].status in {Processing, Completed, Failed} then after[j] == jobs[j]
              else after[j] == jobs[j].(status := Failed)
  {
    map j | j in jobs :: FailStaleRow(jobs[j])
  }

  // ---------------------------------------------------------------- the fold as a grow-only counter

  ghost function FoldReports(rows: WorkerRows, reports: seq<Report>): WorkerRows {
    if reports == [] then rows
    else FoldRow(FoldReports(rows, reports[..|reports| - 1]), reports[|reports| - 1])
  }

  ghost predicate Reported(reports: seq<Report>, j: JobId, w: WorkerId) {
    exists n :: 0 <= n < |reports| && reports[n].job == j && reports[n].worker == w
  }

  ghost predicate Mentioned(reports: seq<Report>, j: JobId) {
    exists n :: 0 <= n < |reports| && reports[n].job == j
  }

  lemma ReportedSnoc(reports: seq<Report>, r: Report, j: JobId, w: WorkerId)
    ensures Reported(reports + [r], j, w) <==> Reported(reports, j, w) || (r.job == j && r.worker == w)
    ensures Mentioned(reports + [r], j) <==> Mentioned(reports, j) || r.job == j
  {
    var all := reports + [r];
    if n :| 0 <= n < |reports| && reports[n].job == j && reports[n].worker == w {
      assert all[n].job == j && all[n].worker == w;
    }
    if n :| 0 <= n < |reports| && reports[n].job == j { assert all[n].job == j; }
    if r.job == j { assert all[|reports|].job == j; }
  }

  // After any sequence of reports each row is the greatest report of its worker.
  lemma {:induction false} RowsAreLargest(reports: seq<Report>, j: JobId, w: WorkerId)
    ensures j in FoldReports(map[], reports) <==> Mentioned(reports, j)
    ensures w in RowsOf(FoldReports(map[], reports), j) <==> Reported(reports, j, w)
    ensures Reported(reports, j, w) ==> RowsOf(FoldReports(map[], reports), j)[w] == Largest(reports, w, j)
    ensures !Reported(reports, j, w) ==> Largest(reports, w, j) == NOTHING
  {
    if reports != [] {
      hide Reported, Mentioned;
      var n := |reports| - 1;
      assert reports == reports[..n] + [reports[n]];
      ReportedSnoc(reports[..n], reports[n], j, w);
      RowsAreLargest(reports[..n], j, w);
    }
  }

  ghost predicate Sends(reports: seq<Report>, j: JobId, w: WorkerId, n: nat) {
    n < |reports| && reports[n].job == j && reports[n].worker == w
  }

  // Column by column: no report of the worker exceeds its row, and one reaches it.
  lemma {:induction false} RowIsGreatest(reports: seq<Report>, j: JobId, w: WorkerId)
    requires Reported(reports, j, w)
    ensures w in RowsOf(FoldReports(map[], reports), j)
    ensures var row := RowsOf(FoldReports(map[], reports), j)[w];
            && (forall n: nat :: Sends(reports, j, w, n) ==>
                  && reports[n].counts.processed <= row.processed && reports[n].counts.retried <= row.retried
                  && reports[n].counts.dead <= row.dead)
            && (exists n: nat :: Sends(reports, j, w, n) && reports[n].counts.processed == row.processed)
            && (exists n: nat :: Sends(reports, j, w, n) && reports[n].counts.retried == row.retried)
            && (exists n: nat :: Sends(reports, j, w, n) && reports[n].counts.dead == row.dead)
  {
    hide FoldReports;
    RowsAreLargest(reports, j, w);
    LargestColumns(reports, j, w);
  }

  lemma {:induction false} LargestColumns(reports: seq<Report>, j: JobId, w: WorkerId)
    requires Reported(reports, j, w)
    ensures var row := Largest(reports, w, j);
            && (forall n: nat :: Sends(reports, j, w, n) ==>
                  && reports[n].counts.processed <= row.processed && reports[n].counts.retried <= row.retried
                  && reports[n].counts.dead <= row.dead)
            && (exists n: nat :: Sends(reports, j, w, n) && reports[n].counts.processed == row.processed)
            && (exists n: nat :: Sends(reports, j, w, n) && reports[n].counts.retried == row.retried)
            && (exists n: nat :: Sends(reports, j, w, n) && reports[n].counts.dead == row.dead)
  {
    var n := |reports| - 1;
    var before := reports[..n];
    assert reports == before + [reports[n]];
    ReportedSnoc(before, reports[n], j, w);
    if Reported(before, j, w) {
      LargestColumns(before, j, w);
      var a: nat :| Sends(before, j, w, a) && before[a].counts.processed == Largest(before, w, j).processed;
      var b: nat :| Sends(before, j, w, b) && before[b].counts.retried == Largest(before, w, j).retried;
      var c: nat :| Sends(before, j, w, c) && before[c].counts.dead == Largest(before, w, j).dead;
      assert Sends(reports, j, w, a) && Sends(reports, j, w, b) && Sends(reports, j, w, c);
    } else {
      RowsAreLargest(before, j, w);
    }
    if reports[n].job == j && reports[n].worker == w { assert Sends(reports, j, w, n); }
    forall m: nat | Sends(reports, j, w, m) && m < n ensures Sends(before, j, w, m) {}
    if !Reported(before, j, w) {
      forall m: nat | m < n ensures !Sends(reports, j, w, m) { assert before[m] == reports[m]; }
    }
  }

  ghost predicate Matched(r: Report, b: seq<Report>) {
    exists m :: 0 <= m < |b| && b[m].job == r.job && b[m].worker == r.worker && r.counts.AtMost(b[m].counts)
  }

  // Every report of `a` is matched or exceeded by one of `b` from the same worker for the same job.
  ghost predicate Dominated(a: seq<Report>, b: seq<Report>) {
    forall n :: 0 <= n < |a| ==> Matched(a[n], b)
  }

  lemma DominatedLargest(a: seq<Report>, b: seq<Report>, j: JobId, w: WorkerId)
    requires Dominated(a, b)
    ensures Largest(a, w, j).AtMost(Largest(b, w, j))
    ensures Reported(a, j, w) ==> Reported(b, j, w)
  {
    ReportsBelowLargest(b, j, w);
    forall n | 0 <= n < |a| && a[n].worker == w && a[n].job == j
      ensures a[n].counts.AtMost(Largest(b, w, j))
    {
      assert Matched(a[n], b);
      var m :| 0 <= m < |b| && b[m].job == a[n].job && b[m].worker == a[n].worker && a[n].counts.AtMost(b[m].counts);
      assert b[m].counts.AtMost(Largest(b, w, j));
    }
    LargestBounds(a, w, j, Largest(b, w, j));
  }

  lemma {:induction false} ReportsBelowLargest(topic: seq<Report>, j: JobId, w: WorkerId)
    ensures forall n :: 0 <= n < |topic| && topic[n].worker == w && topic[n].job == j ==>
              topic[n].counts.AtMost(Largest(topic, w, j))
  {
    if topic != [] {
      ReportsBelowLargest(topic[..|topic| - 1], j, w);
    }
  }

  lemma RowsAgree(a: seq<Report>, b: seq<Report>, j: JobId)
    requires Dominated(a, b) && Dominated(b, a)
    ensures RowsOf(FoldReports(map[], a), j) == RowsOf(FoldReports(map[], b), j)
  {
    hide FoldReports, Dominated, Largest, Mentioned;
    var x, y := RowsOf(FoldReports(map[], a), j), RowsOf(FoldReports(map[], b), j);
    forall w
      ensures w in x <==> w in y
      ensures w in x && w in y ==> x[w] == y[w]
    {
      RowsAreLargest(a, j, w);
      RowsAreLargest(b, j, w);
      DominatedLargest(a, b, j, w);
      DominatedLargest(b, a, j, w);
    }
    assert x.Keys == y.Keys;
  }

  lemma JobsAgree(a: seq<Report>, b: seq<Report>, j: JobId)
    requires Dominated(a, b)
    ensures j in FoldReports(map[], a) ==> j in FoldReports(map[], b)
  {
    RowsAreLargest(a, j, "");
    RowsAreLargest(b, j, "");
    if n :| 0 <= n < |a| && a[n].job == j {
      assert Matched(a[n], b);
    }
  }

  // The fold converges: order, repetition and any report exceeded by a later or earlier one of the
  // same worker leave no trace.
  lemma FoldConverges(a: seq<Report>, b: seq<Report>)
    requires Dominated(a, b) && Dominated(b, a)
    ensures FoldReports(map[], a) == FoldReports(map[], b)
  {
    hide FoldReports, Dominated;
    var x, y := FoldReports(map[], a), FoldReports(map[], b);
    forall j
      ensures j in x <==> j in y
      ensures j in x && j in y ==> x[j] == y[j]
    {
      JobsAgree(a, b, j);
      JobsAgree(b, a, j);
      RowsAgree(a, b, j);
    }
    assert x.Keys == y.Keys;
  }

  lemma SubsetDominated(a: seq<Report>, b: seq<Report>)
    requires forall r :: r in a ==> r in b
    ensures Dominated(a, b)
  {
    forall n | 0 <= n < |a| ensures Matched(a[n], b) {
      assert a[n] in b;
      var m :| 0 <= m < |b| && b[m] == a[n];
    }
  }

  // In particular the state depends only on the set of reports delivered.
  lemma OnlyTheSetMatters(a: seq<Report>, b: seq<Report>)
    requires forall r :: r in a <==> r in b
    ensures FoldReports(map[], a) == FoldReports(map[], b)
  {
    SubsetDominated(a, b);
    SubsetDominated(b, a);
    FoldConverges(a, b);
  }

  // The first report of a worker adds exactly its columns to a live job's stored totals.
  lemma FirstReportAdds(jobs: map<JobId, JobRow>, rows: WorkerRows, r: Report)
    requires r.job in jobs && jobs[r.job].Live() && r.worker !in RowsOf(rows, r.job)
    ensures var before, after := FoldTotals(jobs, rows, r.job)[r.job], FoldTotals(jobs, FoldRow(rows, r), r.job)[r.job];
            && after.progress.processed == before.progress.processed + r.counts.processed
            && after.progress.retried == before.progress.retried + r.counts.retried
            && after.progress.dead == before.progress.dead + r.counts.dead
  {
    hide SumRows;
    var mine := RowsOf(rows, r.job);
    assert RowsOf(FoldRow(rows, r), r.job) == mine[r.worker := r.counts];
    SumRowsExactly(mine, r.worker, r.counts);
  }

  // Totals never decrease.
  lemma TotalsGrow(rows: WorkerRows, r: Report, j: JobId)
    ensures SumRows(RowsOf(rows, j)).AtMost(SumRows(RowsOf(FoldRow(rows, r), j)))
  {
    var before, after := RowsOf(rows, j), RowsOf(FoldRow(rows, r), j);
    SumWider(before.Keys, after.Keys, Processed(before), Processed(after));
    SumWider(before.Keys, after.Keys, Retried(before), Retried(after));
    SumWider(before.Keys, after.Keys, DeadCount(before), DeadCount(after));
  }

  // Why a worker's id must be fresh: two incarnations reporting under one id leave a row that is the
  // sum of what they counted exactly when, in each column, one of them counted nothing.
  lemma ReusedIdExactly(rows: WorkerRows, j: JobId, w: WorkerId, first: Snapshot, second: Snapshot)
    requires w !in RowsOf(rows, j)
    ensures var row := RowsOf(FoldRow(FoldRow(rows, Report(j, w, first)), Report(j, w, second)), j)[w];
            row == Snapshot(first.processed + second.processed, first.retried + second.retried,
                            first.dead + second.dead) <==>
              && (first.processed == 0 || second.processed == 0)
              && (first.retried == 0 || second.retried == 0)
              && (first.dead == 0 || second.dead == 0)
  {
    assert RowsOf(FoldRow(rows, Report(j, w, first)), j)[w] == first;
  }

  // A fold that may stop after its first statement.
  datatype Folding = Folding(report: Report, finished: bool)

  ghost function FoldMany(jobs: map<JobId, JobRow>, rows: WorkerRows, run: seq<Folding>)
      : (map<JobId, JobRow>, WorkerRows)
  {
    if run == [] then (jobs, rows)
    else
      var (js, rs) := FoldMany(jobs, rows, run[..|run| - 1]);
      var last := run[|run| - 1];
      var folded := FoldRow(rs, last.report);
      (if last.finished then FoldTotals(js, folded, last.report.job) else js, folded)
  }

  ghost function Reports(run: seq<Folding>): seq<Report> {
    seq(|run|, n requires 0 <= n < |run| => run[n].report)
  }

  // The job after a run of folds, however many of them stopped between their statements, is
  // decided by the reports up to the last finished fold of that job; a terminal job is untouched.
  lemma {:induction false} CrashIsRepaired(jobs: map<JobId, JobRow>, run: seq<Folding>, j: JobId)
    requires run != [] && run[|run| - 1].report.job == j && run[|run| - 1].finished && j in jobs
    ensures var after := FoldMany(jobs, map[], run).0;
            j in after && after[j] == WithTotals(jobs[j], SumRows(RowsOf(FoldReports(map[], Reports(run)), j)))
  {
    FoldManyParts(jobs, run, j);
    FoldManyParts(jobs, run[..|run| - 1], j);
  }

  lemma {:induction false} FoldManyParts(jobs: map<JobId, JobRow>, run: seq<Folding>, j: JobId)
    requires j in jobs
    ensures FoldMany(jobs, map[], run).1 == FoldReports(map[], Reports(run))
    ensures j in FoldMany(jobs, map[], run).0
    ensures var after := FoldMany(jobs, map[], run).0[j];
            after == jobs[j].(progress := after.progress) && (!jobs[j].Live() ==> after == jobs[j])
  {
    if run != [] {
      var n := |run| - 1;
      FoldManyParts(jobs, run[..n], j);
      assert Reports(run)[..n] == Reports(run[..n]);
    }
  }
}
