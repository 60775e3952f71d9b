// The whole pipeline: importer, log, worker group and tracker together, and what "completed" means.
module Pipeline {
  import opened Wrappers
  import opened Events
  import opened Products
  import opened Ledger
  import opened Jobs
  import opened Sums
  import opened Publishers
  import Stream
  import StreamCatalog
  import StreamCounts
  import Importer

  datatype State = State(stream: Stream.State, imp: Importer.State)

  datatype Step =
    | OnStream(stream: Stream.Step)
    | OnImporter(imp: Importer.Step)
    | Land(n: nat, partition: nat, acked: bool)  // the n-th buffered event reaches the log
    | Lose(n: nat)                               // the n-th buffered event never will

  function Init(maxPoll: nat, flushEvery: nat): State {
    State(Stream.Init(maxPoll), Importer.Init(flushEvery))
  }

  function Landed(p: State, n: nat, partition: nat): Record
    requires n < |p.imp.buffer|
  {
    Record(partition, Decoded(p.imp.buffer[n]))
  }

  // Records bearing a job's id come only from that job, job ids are fresh, and the tracker reads
  // what workers delivered. Offsets are not reset while the pipeline runs.
  ghost predicate Enabled(p: State, step: Step) {
    match step
    case OnStream(st) =>
      && Stream.Enabled(p.stream, st) && !st.Reset?
      && (st.Append? ==> JobOf(st.rec) == None || JobOf(st.rec).value !in p.imp.jobs)
    case OnImporter(st) =>
      && Importer.Enabled(p.imp, st)
      && (st.Create? ==> forall i :: 0 <= i < |p.stream.log| ==> JobOf(p.stream.log[i]) != Some(st.j))
      && (st.TrackRow? ==> st.r in p.stream.topic)
    // The producer keeps one product's events in order.
    case Land(n, partition, _) =>
      && n < |p.imp.buffer|
      && (forall m :: 0 <= m < n ==> p.imp.buffer[m].product.PartitionKey() != p.imp.buffer[n].product.PartitionKey())
      && Stream.Enabled(p.stream, Stream.Append(Landed(p, n, partition)))
    case Lose(n) => n < |p.imp.buffer| && p.imp.buffer[n].jobId in p.imp.jobs
  }

  ghost function Apply(p: State, step: Step): State
    requires Enabled(p, step)
  {
    match step
    case OnStream(st) => p.(stream := Stream.Apply(p.stream, st))
    case OnImporter(st) => p.(imp := Importer.Apply(p.imp, st))
    // A delivery may be reported failed although it happened.
    case Land(n, partition, acked) =>
      State(Stream.Apply(p.stream, Stream.Append(Landed(p, n, partition))),
            p.imp.(buffer := Without(p.imp.buffer, n), firstErr := p.imp.firstErr || !acked))
    case Lose(n) =>
      var j := p.imp.buffer[n].jobId;
      var job := p.imp.jobs[j];
      p.(imp := p.imp.(buffer := Without(p.imp.buffer, n), firstErr := true,
                        jobs := p.imp.jobs[j := job.(lost := job.lost + 1)]))
  }

  ghost predicate Reaches(p: State, steps: seq<Step>, q: State)
    decreases |steps|
  {
    if steps == [] then p == q
    else Enabled(p, steps[0]) && Reaches(Apply(p, steps[0]), steps[1..], q)
  }

  lemma Cons(p: State, step: Step, rest: seq<Step>, q: State)
    requires Enabled(p, step) && Reaches(Apply(p, step), rest, q)
    ensures Reaches(p, [step] + rest, q)
  {
    hide Enabled, Apply;
    assert ([step] + rest)[1..] == rest;
  }

  lemma {:induction false} ReachesConcat(p: State, a: seq<Step>, q: State, b: seq<Step>, r: State)
    requires Reaches(p, a, q) && Reaches(q, b, r)
    ensures Reaches(p, a + b, r)
    decreases |a|
  {
    hide Enabled, Apply;
    if a == [] {
      assert a + b == b;
    } else {
      ReachesConcat(Apply(p, a[0]), a[1..], q, b, r);
      assert (a + b)[1..] == a[1..] + b;
    }
  }

  // ---------------------------------------------------------------- the invariant

  ghost function OnLog(p: State, j: JobId): set<nat> {
    JobRecords(p.stream.log, StreamCatalog.AllIds(p.stream.log), j)
  }

  // Every event handed to the publisher is on the log, in the buffer, or lost.
  ghost predicate Accounted(p: State, j: JobId)
    requires j in p.imp.jobs
  {
    |OnLog(p, j)| + Importer.BufferedOf(p.imp.buffer, j) + p.imp.jobs[j].lost == p.imp.jobs[j].sent
  }

  // What the store has folded was counted by a worker.
  ghost predicate RowsInv(p: State) {
    forall j, w :: w in RowsOf(p.imp.rows, j) ==>
      w in p.stream.workers && RowsOf(p.imp.rows, j)[w].AtMost(CountsOf(p.stream.workers[w].jobs, j))
  }

  ghost predicate BufferInv(p: State) {
    forall n :: 0 <= n < |p.imp.buffer| ==> p.imp.buffer[n].jobId in p.imp.jobs
  }

  // A record that counts toward a job is one of the importer's own events, so it decodes.
  ghost predicate OwnRecordsInv(p: State) {
    forall i :: 0 <= i < |p.stream.log| && JobOf(p.stream.log[i]).Some? &&
                JobOf(p.stream.log[i]).value in p.imp.jobs ==>
                  p.stream.log[i].body.Decoded?
  }

  ghost predicate Inv(p: State) {
    && StreamCounts.Inv(p.stream)
    && Importer.Inv(p.imp)
    && RowsInv(p)
    && (forall j :: j in p.imp.jobs ==> Accounted(p, j))
    && BufferInv(p)
    && OwnRecordsInv(p)
  }

  // ---------------------------------------------------------------- preservation

  lemma CountOneGrows(jobs: Counters, rec: Record, j: JobId)
    ensures CountsOf(jobs, j).AtMost(CountsOf(CountOne(jobs, rec), j))
  {
  }

  lemma {:induction false} CountAllGrows(jobs: Counters, recs: seq<Record>, j: JobId)
    ensures CountsOf(jobs, j).AtMost(CountsOf(CountAll(jobs, recs), j))
  {
    if recs != [] {
      CountAllGrows(jobs, recs[..|recs| - 1], j);
      CountOneGrows(CountAll(jobs, recs[..|recs| - 1]), recs[|recs| - 1], j);
    }
  }

  lemma PoisonGrows(s: Stream.State, w: WorkerId, j: JobId)
    requires Stream.Enabled(s, Stream.CountPoison(w))
    ensures CountsOf(s.workers[w].jobs, j).AtMost(CountsOf(Stream.Apply(s, Stream.CountPoison(w)).workers[w].jobs, j))
  {
    hide CountOne, KindOf;
    var ids := Stream.Select(s.log, s.workers[w].recs, Poison);
    Stream.SelectSound(s.log, s.workers[w].recs, Poison);
    CountOneGrows(s.workers[w].jobs, s.log[ids[s.workers[w].phase.next]], j);
  }

  lemma BatchGrows(s: Stream.State, w: WorkerId, j: JobId)
    requires Stream.Enabled(s, Stream.CountBatch(w))
    ensures CountsOf(s.workers[w].jobs, j).AtMost(CountsOf(Stream.Apply(s, Stream.CountBatch(w)).workers[w].jobs, j))
  {
    hide CountAll, KindOf;
    var recs := s.workers[w].recs;
    Stream.SelectSound(s.log, recs, Valid);
    Stream.SelectSound(s.log, recs, Invalid);
    var valid, invalid := Stream.Select(s.log, recs, Valid), Stream.Select(s.log, recs, Invalid);
    CountAllGrows(s.workers[w].jobs, At(s.log, valid), j);
    CountAllGrows(CountAll(s.workers[w].jobs, At(s.log, valid)), At(s.log, invalid), j);
  }

  // Counters only grow, incarnations are never forgotten.
  lemma CountersGrow(s: Stream.State, step: Stream.Step, w: WorkerId, j: JobId)
    requires Stream.Enabled(s, step) && w in s.workers
    ensures w in Stream.Apply(s, step).workers
    ensures CountsOf(s.workers[w].jobs, j).AtMost(CountsOf(Stream.Apply(s, step).workers[w].jobs, j))
  {
    if step.CountPoison? && step.w == w {
      PoisonGrows(s, w, j);
    } else if step.CountBatch? && step.w == w {
      BatchGrows(s, w, j);
    } else {
      hide CountOne, CountAll, Stream.Select, Stream.PollOk, KindOf;
      assert w in Stream.Apply(s, step).workers;
    }
  }

  lemma RowsKeep(p: State, step: Stream.Step)
    requires RowsInv(p) && Stream.Enabled(p.stream, step)
    ensures RowsInv(p.(stream := Stream.Apply(p.stream, step)))
  {
    forall j, w | w in RowsOf(p.imp.rows, j)
      ensures w in Stream.Apply(p.stream, step).workers
      ensures RowsOf(p.imp.rows, j)[w].AtMost(CountsOf(Stream.Apply(p.stream, step).workers[w].jobs, j))
    {
      CountersGrow(p.stream, step, w, j);
    }
  }

  lemma OnLogGrows(log: seq<Record>, rec: Record, j: JobId)
    ensures var before, after := JobRecords(log, StreamCatalog.AllIds(log), j),
                                 JobRecords(log + [rec], StreamCatalog.AllIds(log + [rec]), j);
            |after| == |before| + if JobOf(rec) == Some(j) then 1 else 0
  {
    var before, after := JobRecords(log, StreamCatalog.AllIds(log), j),
                         JobRecords(log + [rec], StreamCatalog.AllIds(log + [rec]), j);
    if JobOf(rec) == Some(j) {
      assert after == before + {|log|};
    } else {
      assert after == before;
    }
  }

  lemma {:induction false} BufferedConcat(a: seq<ProductImported>, b: seq<ProductImported>, j: JobId)
    ensures Importer.BufferedOf(a + b, j) == Importer.BufferedOf(a, j) + Importer.BufferedOf(b, j)
    decreases |b|
  {
    if b == [] {
      assert a + b == a;
    } else {
      BufferedConcat(a, b[..|b| - 1], j);
      assert (a + b)[..|a + b| - 1] == a + b[..|b| - 1];
    }
  }

  lemma BufferedWithout(buffer: seq<ProductImported>, n: nat, j: JobId)
    requires n < |buffer|
    ensures Importer.BufferedOf(buffer, j) ==
            Importer.BufferedOf(Without(buffer, n), j) + if buffer[n].jobId == j then 1 else 0
  {
    assert buffer == buffer[..n] + [buffer[n]] + buffer[n + 1..];
    BufferedConcat(buffer[..n] + [buffer[n]], buffer[n + 1..], j);
    BufferedConcat(buffer[..n], [buffer[n]], j);
    BufferedConcat(buffer[..n], buffer[n + 1..], j);
    assert [buffer[n]][..0] == [];
  }

  lemma StepOnStream(p: State, st: Stream.Step)
    requires Inv(p) && Enabled(p, OnStream(st))
    ensures Inv(Apply(p, OnStream(st)))
  {
    hide StreamCounts.Inv, Importer.Inv;
    var q := Apply(p, OnStream(st));
    StreamCounts.StepKeepsInv(p.stream, st);
    RowsKeep(p, st);
    if st.Append? {
      forall j | j in q.imp.jobs ensures Accounted(q, j) {
        assert Accounted(p, j);
        OnLogGrows(p.stream.log, st.rec, j);
      }
    } else {
      assert q.stream.log == p.stream.log;
      forall j | j in q.imp.jobs ensures Accounted(q, j) { assert Accounted(p, j); }
    }
  }

  lemma WithoutKeepsJobs(buffer: seq<ProductImported>, n: nat, jobs: set<JobId>)
    requires n < |buffer| && forall m :: 0 <= m < |buffer| ==> buffer[m].jobId in jobs
    ensures forall m :: 0 <= m < |Without(buffer, n)| ==> Without(buffer, n)[m].jobId in jobs
  {
  }

  lemma LandAccounts(p: State, n: nat, partition: nat, acked: bool, j: JobId)
    requires Enabled(p, Land(n, partition, acked)) && j in p.imp.jobs && Accounted(p, j)
    ensures Accounted(Apply(p, Land(n, partition, acked)), j)
  {
    hide Stream.WellRouted;
    OnLogGrows(p.stream.log, Landed(p, n, partition), j);
    BufferedWithout(p.imp.buffer, n, j);
  }

  lemma LandKeepsRecords(p: State, n: nat, partition: nat, acked: bool)
    requires Enabled(p, Land(n, partition, acked)) && OwnRecordsInv(p)
    ensures OwnRecordsInv(Apply(p, Land(n, partition, acked)))
  {
    hide Stream.WellRouted;
  }

  lemma StepLand(p: State, n: nat, partition: nat, acked: bool)
    requires Inv(p) && Enabled(p, Land(n, partition, acked))
    ensures Inv(Apply(p, Land(n, partition, acked)))
  {
    hide StreamCounts.Inv, Stream.WellRouted, Importer.Inv, Accounted, OwnRecordsInv;
    var q := Apply(p, Land(n, partition, acked));
    StreamCounts.StepKeepsInv(p.stream, Stream.Append(Landed(p, n, partition)));
    RowsKeep(p, Stream.Append(Landed(p, n, partition)));
    BufferFrame(p.imp, q.imp);
    WithoutKeepsJobs(p.imp.buffer, n, p.imp.jobs.Keys);
    LandKeepsRecords(p, n, partition, acked);
    forall j | j in q.imp.jobs ensures Accounted(q, j) {
      LandAccounts(p, n, partition, acked, j);
    }
  }

  lemma LoseAccounts(p: State, n: nat, j: JobId)
    requires Enabled(p, Lose(n)) && j in p.imp.jobs && Accounted(p, j)
    ensures Accounted(Apply(p, Lose(n)), j)
  {
    BufferedWithout(p.imp.buffer, n, j);
  }

  lemma StepLose(p: State, n: nat)
    requires Inv(p) && Enabled(p, Lose(n))
    ensures Inv(Apply(p, Lose(n)))
  {
    hide StreamCounts.Inv, Importer.Inv, Accounted;
    var q := Apply(p, Lose(n));
    BufferFrame(p.imp, q.imp);
    WithoutKeepsJobs(p.imp.buffer, n, p.imp.jobs.Keys);
    assert q.imp.jobs.Keys == p.imp.jobs.Keys;
    forall j | j in q.imp.jobs ensures Accounted(q, j) {
      LoseAccounts(p, n, j);
    }
  }

  // The importer's own invariant does not read the publisher.
  lemma BufferFrame(s: Importer.State, t: Importer.State)
    requires Importer.Inv(s) && t.rows == s.rows && t.jobs.Keys == s.jobs.Keys
    requires forall j :: j in t.jobs ==> t.jobs[j] == s.jobs[j].(lost := t.jobs[j].lost)
    ensures Importer.Inv(t)
  {
    hide SumRows;
    forall j | j in t.jobs ensures Importer.JobInv(t.jobs[j]) && Importer.TotalsInv(t, j) {
      assert Importer.JobInv(s.jobs[j]) && Importer.TotalsInv(s, j);
    }
  }

  lemma FoldedRowCounted(p: State, r: Report, j: JobId, w: WorkerId)
    requires RowsInv(p) && StreamCounts.Inv(p.stream) && r in p.stream.topic
    requires w in RowsOf(FoldRow(p.imp.rows, r), j)
    ensures w in p.stream.workers && RowsOf(FoldRow(p.imp.rows, r), j)[w].AtMost(CountsOf(p.stream.workers[w].jobs, j))
  {
    if j == r.job && w == r.worker {
      var n :| 0 <= n < |p.stream.topic| && p.stream.topic[n] == r;
      assert StreamCounts.WorkerInv(p.stream, w);
      assert r.counts.AtMost(CountsOf(p.stream.workers[w].jobs, j));
      var mine := RowsOf(p.imp.rows, j);
      if w in mine { assert mine[w].AtMost(CountsOf(p.stream.workers[w].jobs, j)); }
    } else {
      assert w in RowsOf(p.imp.rows, j);
    }
  }

  lemma {:induction false} NotBuffered(buffer: seq<ProductImported>, j: JobId)
    requires forall n :: 0 <= n < |buffer| ==> buffer[n].jobId != j
    ensures Importer.BufferedOf(buffer, j) == 0
  {
    if buffer != [] { NotBuffered(buffer[..|buffer| - 1], j); }
  }

  lemma OwnAccounts(p: State, i: JobId, move: Importer.Move, j: JobId)
    requires Enabled(p, OnImporter(Importer.Own(i, move))) && j in p.imp.jobs && Accounted(p, j)
    ensures j in Apply(p, OnImporter(Importer.Own(i, move))).imp.jobs
    ensures Accounted(Apply(p, OnImporter(Importer.Own(i, move))), j)
  {
    if move.ValidRow? {
      ValidRowAccounts(p, i, move.evt, j);
    } else {
      hide Importer.BufferedOf;
    }
  }

  lemma ValidRowAccounts(p: State, i: JobId, evt: ProductImported, j: JobId)
    requires Enabled(p, OnImporter(Importer.Own(i, Importer.ValidRow(evt)))) && j in p.imp.jobs && Accounted(p, j)
    ensures Accounted(Apply(p, OnImporter(Importer.Own(i, Importer.ValidRow(evt)))), j)
  {
    BufferedConcat(p.imp.buffer, [evt], j);
    assert [evt][..0] == [];
  }

  lemma CreateAccounts(p: State, i: JobId, started: bool, j: JobId)
    requires Inv(p) && Enabled(p, OnImporter(Importer.Create(i, started)))
    requires j in p.imp.jobs || j == i
    ensures j in Apply(p, OnImporter(Importer.Create(i, started))).imp.jobs
    ensures Accounted(Apply(p, OnImporter(Importer.Create(i, started))), j)
  {
    hide StreamCounts.Inv, Importer.Inv;
    if j == i {
      assert OnLog(p, j) == {};
      NotBuffered(p.imp.buffer, j);
    } else {
      assert Accounted(p, j);
    }
  }

  lemma ImporterAccounts(p: State, st: Importer.Step, j: JobId)
    requires Inv(p) && Enabled(p, OnImporter(st)) && j in Apply(p, OnImporter(st)).imp.jobs
    ensures Accounted(Apply(p, OnImporter(st)), j)
  {
    hide StreamCounts.Inv, SumRows;
    match st
    case Create(i, started) => CreateAccounts(p, i, started, j);
    case Own(i, move) => OwnAccounts(p, i, move, j);
    case _ => assert Accounted(p, j);
  }

  lemma StepOnImporter(p: State, st: Importer.Step)
    requires Inv(p) && Enabled(p, OnImporter(st))
    ensures Inv(Apply(p, OnImporter(st)))
  {
    hide StreamCounts.Inv, SumRows, Importer.Inv;
    var q := Apply(p, OnImporter(st));
    Importer.StepKeepsInv(p.imp, st);
    if st.TrackRow? {
      forall j, w | w in RowsOf(q.imp.rows, j)
        ensures w in q.stream.workers && RowsOf(q.imp.rows, j)[w].AtMost(CountsOf(q.stream.workers[w].jobs, j))
      {
        FoldedRowCounted(p, st.r, j, w);
      }
    }
    forall j | j in q.imp.jobs ensures Accounted(q, j) {
      ImporterAccounts(p, st, j);
    }
    ImporterKeepsLog(p, st);
  }

  lemma ImporterKeepsLog(p: State, st: Importer.Step)
    requires Inv(p) && Enabled(p, OnImporter(st))
    ensures BufferInv(Apply(p, OnImporter(st))) && OwnRecordsInv(Apply(p, OnImporter(st)))
  {
    hide StreamCounts.Inv, SumRows, Importer.Inv;
    var q := Apply(p, OnImporter(st));
    assert p.imp.jobs.Keys <= q.imp.jobs.Keys;
    if st.Create? {
      forall i | 0 <= i < |q.stream.log| ensures JobOf(q.stream.log[i]) != Some(st.j) {
        assert JobOf(p.stream.log[i]) != Some(st.j);
      }
    } else {
      assert p.imp.jobs.Keys == q.imp.jobs.Keys;
    }
  }

  lemma StepKeepsInv(p: State, step: Step)
    requires Inv(p) && Enabled(p, step)
    ensures Inv(Apply(p, step))
  {
    hide Inv, Enabled, Apply;
    match step
    case OnStream(st) => StepOnStream(p, st);
    case OnImporter(st) => StepOnImporter(p, st);
    case Land(n, partition, acked) => StepLand(p, n, partition, acked);
    case Lose(n) => StepLose(p, n);
  }

  lemma {:induction false} RunKeepsInv(p: State, steps: seq<Step>, q: State)
    requires Inv(p) && Reaches(p, steps, q)
    ensures Inv(q)
    decreases |steps|
  {
    if steps != [] {
      StepKeepsInv(p, steps[0]);
      RunKeepsInv(Apply(p, steps[0]), steps[1..], q);
    }
  }

  lemma StartInv(maxPoll: nat, flushEvery: nat)
    ensures Inv(Init(maxPoll, flushEvery))
  {
  }

  // ---------------------------------------------------------------- completion

  // A job's records that the catalog holds or the dead letter topic quarantines.
  ghost function Settled(p: State, j: JobId): set<nat> {
    set i | i in OnLog(p, j) && StreamCounts.Adjudicated(p.stream, i)
  }

  ghost function TotalOf(mine: map<WorkerId, Snapshot>): WorkerId -> nat {
    (w: WorkerId) => if w in mine then mine[w].Total() else 0
  }

  lemma FoldedWithinCounted(p: State, j: JobId)
    requires RowsInv(p) && j in p.imp.jobs && Importer.TotalsInv(p.imp, j)
    ensures p.imp.jobs[j].row.progress.Total() <= StreamCounts.Counted(p.stream, j)
  {
    var mine := RowsOf(p.imp.rows, j);
    SumAdd(mine.Keys, Processed(mine), DeadCount(mine), TotalOf(mine));
    forall w | w in mine
      ensures w in p.stream.workers && TotalOf(mine)(w) <= StreamCounts.CountedBy(p.stream, j)(w)
    {
      assert mine[w].AtMost(CountsOf(p.stream.workers[w].jobs, j));
    }
    SumWider(mine.Keys, p.stream.workers.Keys, TotalOf(mine), StreamCounts.CountedBy(p.stream, j));
  }

  lemma EarlyIsPoison(s: Stream.State, i: nat)
    requires StreamCounts.Early(s, i)
    ensures i < |s.log| && KindOf(s.log[i]).Poison?
  {
    var w :| w in s.workers && Within(s.log, s.workers[w].recs) && s.workers[w].phase.Poisoned? &&
             s.workers[w].phase.next < |Stream.Select(s.log, s.workers[w].recs, Poison)| &&
             Stream.Select(s.log, s.workers[w].recs, Poison)[s.workers[w].phase.next] == i;
    Stream.SelectSound(s.log, s.workers[w].recs, Poison);
  }

  // The job's own records are never the poison that is counted before it is dead-lettered.
  lemma KnownIsSettled(p: State, j: JobId)
    requires OwnRecordsInv(p) && j in p.imp.jobs
    ensures StreamCounts.Known(p.stream, j) <= Settled(p, j)
  {
    forall i | i in StreamCounts.Known(p.stream, j) ensures i in Settled(p, j) {
      assert p.stream.log[i].body.Decoded?;
      if StreamCounts.Early(p.stream, i) { EarlyIsPoison(p.stream, i); }
    }
  }

  // Completion soundness. In every reachable state, of the events a completed job published, those
  // neither in the catalog nor dead-lettered are at most one poll per worker incarnation that
  // stopped in the middle of a poll. If none did, nothing was lost anywhere on the way.
  lemma CompletedMeansDelivered(maxPoll: nat, flushEvery: nat, steps: seq<Step>, p: State, j: JobId)
    requires Reaches(Init(maxPoll, flushEvery), steps, p)
    requires j in p.imp.jobs && p.imp.jobs[j].row.status.Completed?
    ensures p.imp.jobs[j].row.publishedRows == p.imp.jobs[j].sent
    ensures p.imp.jobs[j].sent <= |Settled(p, j)| + |StreamCounts.Interrupted(p.stream)| * p.stream.maxPoll
    ensures StreamCounts.Interrupted(p.stream) == {} ==>
              && p.imp.jobs[j].lost == 0 && Importer.BufferedOf(p.imp.buffer, j) == 0
              && |OnLog(p, j)| == p.imp.jobs[j].sent
              && forall i :: i in OnLog(p, j) ==> StreamCounts.Adjudicated(p.stream, i)
  {
    hide *;
    StartInv(maxPoll, flushEvery);
    RunKeepsInv(Init(maxPoll, flushEvery), steps, p);
    CompletedBound(p, j);
  }

  lemma CompletedBound(p: State, j: JobId)
    requires Inv(p) && j in p.imp.jobs && p.imp.jobs[j].row.status.Completed?
    ensures p.imp.jobs[j].row.publishedRows == p.imp.jobs[j].sent
    ensures p.imp.jobs[j].sent <= |Settled(p, j)| + |StreamCounts.Interrupted(p.stream)| * p.stream.maxPoll
    ensures StreamCounts.Interrupted(p.stream) == {} ==>
              && p.imp.jobs[j].lost == 0 && Importer.BufferedOf(p.imp.buffer, j) == 0
              && |OnLog(p, j)| == p.imp.jobs[j].sent
              && forall i :: i in OnLog(p, j) ==> StreamCounts.Adjudicated(p.stream, i)
  {
    hide StreamCounts.Inv, SumRows, Importer.BufferedOf, StreamCounts.Counted, StreamCounts.Known,
        StreamCounts.Adjudicated;
    assert Importer.JobInv(p.imp.jobs[j]) && Importer.TotalsInv(p.imp, j) && Accounted(p, j);
    FoldedWithinCounted(p, j);
    StreamCounts.CountedIsAdjudicated(p.stream, j);
    KnownIsSettled(p, j);
    SubsetSize(StreamCounts.Known(p.stream, j), Settled(p, j));
    assert Settled(p, j) <= OnLog(p, j);
    SubsetSize(Settled(p, j), OnLog(p, j));
    if StreamCounts.Interrupted(p.stream) == {} {
      assert |StreamCounts.Interrupted(p.stream)| * p.stream.maxPoll == 0;
      SameSizeSubset(Settled(p, j), OnLog(p, j));
    }
  }

  lemma SameSizeSubset<T>(a: set<T>, b: set<T>)
    requires a <= b && |b| <= |a|
    ensures a == b
  {
    assert b == a + (b - a);
    assert |b - a| == 0;
  }
}
