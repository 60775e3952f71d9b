// What becomes of a stored job record over runs of the whole pipeline.
module Records {
  import opened Events
  import opened Importer
  import P = Pipeline
  import Stream

  // The steps that are not the importer's leave every record and every goroutine alone.
  lemma OthersFrame(p: P.State, step: P.Step, j: JobId)
    requires P.Enabled(p, step) && !step.OnImporter? && j in p.imp.jobs
    ensures var q := P.Apply(p, step);
            j in q.imp.jobs && q.imp.jobs[j] == p.imp.jobs[j].(lost := q.imp.jobs[j].lost)
  {
    hide Stream.Enabled, Stream.Apply;
  }

  lemma RecordStep(p: P.State, step: P.Step, j: JobId)
    requires P.Inv(p) && P.Enabled(p, step) && j in p.imp.jobs
    ensures j in P.Apply(p, step).imp.jobs && GoodWrite(p.imp.jobs[j].row, P.Apply(p, step).imp.jobs[j].row)
  {
    hide Importer.Enabled, Importer.Apply, Importer.Inv, Stream.Enabled, Stream.Apply;
    if step.OnImporter? {
      StepWritesWell(p.imp, step.imp, j);
    } else {
      OthersFrame(p, step, j);
    }
  }

  lemma RecordInv(p: P.State, j: JobId)
    requires P.Inv(p) && j in p.imp.jobs
    ensures IsUuid(j) && JobInv(p.imp.jobs[j]) && TotalsInv(p.imp, j)
  {
    assert Importer.Inv(p.imp);
  }

  // Over any run, redelivered and reordered reports and process restarts included: a terminal record
  // never changes again, totals never decrease, and a completed record stays confirmed.
  lemma {:induction false} TerminalIsForever(p: P.State, steps: seq<P.Step>, q: P.State, j: JobId)
    requires P.Inv(p) && j in p.imp.jobs && P.Reaches(p, steps, q)
    ensures j in q.imp.jobs
    ensures p.imp.jobs[j].row.status.Terminal() ==> q.imp.jobs[j].row == p.imp.jobs[j].row
    ensures p.imp.jobs[j].row.progress.AtMost(q.imp.jobs[j].row.progress)
    ensures q.imp.jobs[j].row.status.Completed? ==>
              q.imp.jobs[j].row.Confirmed() && q.imp.jobs[j].row.publishedRows == q.imp.jobs[j].sent
    decreases |steps|
  {
    hide P.Enabled, P.Apply, P.Inv;
    if steps == [] {
      RecordInv(p, j);
    } else {
      RecordStep(p, steps[0], j);
      P.StepKeepsInv(p, steps[0]);
      TerminalIsForever(P.Apply(p, steps[0]), steps[1..], q, j);
    }
  }

  // ---------------------------------------------------------------- after a restart

  lemma OrphanedStep(p: P.State, step: P.Step, j: JobId)
    requires P.Enabled(p, step) && j in p.imp.jobs && Orphaned(p.imp.jobs[j])
    ensures var q := P.Apply(p, step);
            j in q.imp.jobs && Orphaned(q.imp.jobs[j]) &&
            q.imp.jobs[j].row == p.imp.jobs[j].row.(progress := q.imp.jobs[j].row.progress)
  {
    hide Importer.Enabled, Importer.Apply, Stream.Enabled, Stream.Apply;
    if step.OnImporter? {
      OrphanStep(p.imp, step.imp, j);
      OrphanRow(p.imp, step.imp, j);
    } else {
      OthersFrame(p, step, j);
    }
  }

  // A record left processing without a goroutine stays so: reports still move its totals, but nobody
  // evaluates them.
  lemma {:induction false} OrphanStaysProcessing(p: P.State, steps: seq<P.Step>, q: P.State, j: JobId)
    requires P.Inv(p) && j in p.imp.jobs && Orphaned(p.imp.jobs[j]) && P.Reaches(p, steps, q)
    ensures j in q.imp.jobs && Orphaned(q.imp.jobs[j])
    ensures q.imp.jobs[j].row == p.imp.jobs[j].row.(progress := q.imp.jobs[j].row.progress)
    ensures p.imp.jobs[j].row.progress.AtMost(q.imp.jobs[j].row.progress)
    decreases |steps|
  {
    hide P.Enabled, P.Apply, P.Inv, Orphaned;
    if steps != [] {
      OrphanedStep(p, steps[0], j);
      RecordStep(p, steps[0], j);
      P.StepKeepsInv(p, steps[0]);
      OrphanStaysProcessing(P.Apply(p, steps[0]), steps[1..], q, j);
    }
  }

  lemma StuckStays(p: P.State, step: P.Step, j: JobId)
    requires P.Enabled(p, step) && j in p.imp.jobs && Stuck(p.imp.jobs[j])
    ensures j in P.Apply(p, step).imp.jobs && Stuck(P.Apply(p, step).imp.jobs[j])
  {
    hide Importer.Enabled, Importer.Apply, Stream.Enabled, Stream.Apply;
    if step.OnImporter? {
      StuckStep(p.imp, step.imp, j);
    } else {
      OthersFrame(p, step, j);
    }
  }

  lemma {:induction false} StuckNeverCompletes(p: P.State, steps: seq<P.Step>, q: P.State, j: JobId)
    requires j in p.imp.jobs && Stuck(p.imp.jobs[j]) && P.Reaches(p, steps, q)
    ensures j in q.imp.jobs && Stuck(q.imp.jobs[j])
    decreases |steps|
  {
    hide P.Enabled, P.Apply, Stuck;
    if steps != [] {
      StuckStays(p, steps[0], j);
      StuckNeverCompletes(P.Apply(p, steps[0]), steps[1..], q, j);
    }
  }

  // ---------------------------------------------------------------- after the context's end

  predicate Silenced(job: Importer.Job) {
    job.Expired() || job.proc.None?
  }

  lemma SilentStep(p: P.State, step: P.Step, j: JobId)
    requires P.Enabled(p, step) && j in p.imp.jobs && Silenced(p.imp.jobs[j])
    ensures var q := P.Apply(p, step);
            j in q.imp.jobs && Silenced(q.imp.jobs[j]) && Silent(p.imp.jobs[j].row, q.imp.jobs[j].row)
  {
    hide Importer.Enabled, Importer.Apply, Stream.Enabled, Stream.Apply;
    if step.OnImporter? {
      ExpiredStep(p.imp, step.imp, j);
    } else {
      OthersFrame(p, step, j);
    }
  }

  // An import whose context has expired writes nothing any more, not even that it failed: only the
  // tracker moves its totals, and only a restart fails it, if it was not processing yet.
  lemma {:induction false} ExpiredIsSilent(p: P.State, steps: seq<P.Step>, q: P.State, j: JobId)
    requires j in p.imp.jobs && Silenced(p.imp.jobs[j]) && P.Reaches(p, steps, q)
    ensures j in q.imp.jobs && Silent(p.imp.jobs[j].row, q.imp.jobs[j].row)
    ensures p.imp.jobs[j].row.status.Processing? ==> q.imp.jobs[j].row.status.Processing?
    decreases |steps|
  {
    hide P.Enabled, P.Apply, Silenced;
    if steps != [] {
      SilentStep(p, steps[0], j);
      ExpiredIsSilent(P.Apply(p, steps[0]), steps[1..], q, j);
    }
  }

  // ---------------------------------------------------------------- the reconciliation report

  // No reachable record reconciles to a discrepancy: its status decides what the report calls it.
  lemma NeverDiscrepancy(maxPoll: nat, flushEvery: nat, steps: seq<P.Step>, p: P.State, j: JobId)
    requires P.Reaches(P.Init(maxPoll, flushEvery), steps, p) && j in p.imp.jobs
    ensures var row := p.imp.jobs[j].row;
            match BuildReport(row).state
            case FailedImport => row.status.Failed?
            case Reconciled => row.status.Completed? && row.progress.processed + row.progress.dead >= row.publishedRows
            case InFlight => row.status.Uploading? || row.status.Parsing? || row.status.Publishing? ||
                             row.status.Processing?
            case Discrepancy => false
  {
    hide P.Enabled, P.Apply, P.Inv, TotalsInv;
    P.StartInv(maxPoll, flushEvery);
    P.RunKeepsInv(P.Init(maxPoll, flushEvery), steps, p);
    RecordInv(p, j);
  }
}
