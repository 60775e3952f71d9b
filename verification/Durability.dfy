// When a nil Flush means what its callers take it to mean.
module Durability {
  import opened Wrappers
  import opened Events
  import opened Jobs
  import opened Publishers
  import opened Importer
  import P = Pipeline
  import Stream

  predicate BeforeFlush(stage: Stage) {
    stage.Streaming? || stage.StoringCounts? || stage.Flushing?
  }

  predicate AfterNilFlush(stage: Stage) {
    stage.StoringFinal? || stage.MarkingEmpty? || stage.MarkingProcessing? || stage.Awaiting? || stage.Confirming?
  }

  // Another import's flush returns while an event of this one is lost, and takes the failure away
  // if it is still remembered.
  predicate TakesFailure(p: P.State, step: P.Step, j: JobId) {
    && step.OnImporter? && step.imp.Own? && step.imp.move.FlushReturns? && step.imp.j != j
    && j in p.imp.jobs && p.imp.jobs[j].lost > 0
  }

  ghost predicate Taken(p: P.State, steps: seq<P.Step>, q: P.State, j: JobId)
    requires P.Reaches(p, steps, q)
    decreases |steps|
  {
    steps != [] && (TakesFailure(p, steps[0], j) || Taken(P.Apply(p, steps[0]), steps[1..], q, j))
  }

  // Unless it was taken, a loss is remembered until the import's own flush; after a flush that was
  // waited for nothing is buffered.
  ghost predicate Remembered(s: Importer.State, j: JobId, taken: bool) {
    j in s.jobs && s.jobs[j].proc.Some? ==>
      var stage := s.jobs[j].proc.value.stage;
      && (BeforeFlush(stage) ==> s.jobs[j].lost > 0 ==> s.firstErr || taken)
      && (AfterNilFlush(stage) && !s.jobs[j].Expired() ==>
            BufferedOf(s.buffer, j) == 0 && (s.jobs[j].lost > 0 ==> taken))
  }

  lemma OthersRemember(s: Importer.State, i: JobId, move: Move, j: JobId, taken: bool)
    requires Remembered(s, j, taken) && Importer.Enabled(s, Own(i, move)) && i != j
    ensures Remembered(Importer.Apply(s, Own(i, move)), j,
                       taken || (move.FlushReturns? && j in s.jobs && s.jobs[j].lost > 0))
  {
    hide BufferedOf, Moved, CanMove;
    if move.ValidRow? { BufferedMore(s.buffer, move.evt, j); }
  }

  lemma BufferedMore(buffer: seq<ProductImported>, evt: ProductImported, j: JobId)
    requires evt.jobId != j
    ensures BufferedOf(buffer + [evt], j) == BufferedOf(buffer, j)
  {
    assert (buffer + [evt])[..|buffer|] == buffer;
  }

  lemma OwnRemembers(s: Importer.State, move: Move, j: JobId, taken: bool)
    requires Remembered(s, j, taken) && Importer.Enabled(s, Own(j, move))
    ensures Remembered(Importer.Apply(s, Own(j, move)), j, taken)
  {
    hide BufferedOf;
  }

  lemma ImporterRemembers(s: Importer.State, step: Importer.Step, j: JobId, taken: bool)
    requires Remembered(s, j, taken) && Importer.Enabled(s, step)
    ensures Remembered(Importer.Apply(s, step), j,
                       taken || (step.Own? && step.move.FlushReturns? && step.j != j && j in s.jobs &&
                           s.jobs[j].lost > 0))
  {
    hide SumRows;
    match step
    case Own(i, move) =>
      if i == j { OwnRemembers(s, move, j, taken); } else { OthersRemember(s, i, move, j, taken); }
    case _ =>
  }

  lemma StepRemembers(p: P.State, step: P.Step, j: JobId, taken: bool)
    requires Remembered(p.imp, j, taken) && P.Enabled(p, step)
    ensures Remembered(P.Apply(p, step).imp, j, taken || TakesFailure(p, step, j))
  {
    hide Stream.Enabled, Stream.Apply, Importer.Enabled, Importer.Apply;
    match step
    case OnStream(_) =>
    case OnImporter(st) => ImporterRemembers(p.imp, st, j, taken);
    case Land(n, _, _) => P.BufferedWithout(p.imp.buffer, n, j);
    case Lose(n) => P.BufferedWithout(p.imp.buffer, n, j);
  }

  lemma {:induction false} RunRemembers(p: P.State, steps: seq<P.Step>, q: P.State, j: JobId, taken: bool)
    requires P.Reaches(p, steps, q) && Remembered(p.imp, j, taken)
    ensures Remembered(q.imp, j, taken || Taken(p, steps, q, j))
    decreases |steps|
  {
    hide P.Enabled, P.Apply, Remembered, TakesFailure;
    if steps != [] {
      StepRemembers(p, steps[0], j, taken);
      RunRemembers(P.Apply(p, steps[0]), steps[1..], q, j, taken || TakesFailure(p, steps[0], j));
    }
  }

  // A loss is for good.
  lemma StepLoses(p: P.State, step: P.Step, j: JobId)
    requires P.Enabled(p, step) && j in p.imp.jobs
    ensures j in P.Apply(p, step).imp.jobs && p.imp.jobs[j].lost <= P.Apply(p, step).imp.jobs[j].lost
  {
    hide Stream.Enabled, Stream.Apply, SumRows;
  }

  lemma {:induction false} RunLoses(p: P.State, steps: seq<P.Step>, q: P.State, j: JobId)
    requires P.Reaches(p, steps, q) && j in p.imp.jobs
    ensures j in q.imp.jobs && p.imp.jobs[j].lost <= q.imp.jobs[j].lost
    decreases |steps|
  {
    hide P.Enabled, P.Apply;
    if steps != [] {
      StepLoses(p, steps[0], j);
      RunLoses(P.Apply(p, steps[0]), steps[1..], q, j);
    }
  }

  lemma {:induction false} TakenIsLost(p: P.State, steps: seq<P.Step>, q: P.State, j: JobId)
    requires P.Reaches(p, steps, q) && Taken(p, steps, q, j)
    ensures j in q.imp.jobs && q.imp.jobs[j].lost > 0
    decreases |steps|
  {
    hide P.Enabled, P.Apply;
    if TakesFailure(p, steps[0], j) {
      RunLoses(p, steps, q, j);
    } else {
      TakenIsLost(P.Apply(p, steps[0]), steps[1..], q, j);
    }
  }

  // What a nil flush means. An import past its own, its context not expired, has nothing buffered any
  // more; and it has lost nothing, every event being on the log, exactly when no other import's flush
  // returned while an event of this one was lost.
  lemma NilFlushIsDurable(
      maxPoll: nat, flushEvery: nat, before: seq<P.Step>, p: P.State, steps: seq<P.Step>, q: P.State, j: JobId)
    requires P.Reaches(P.Init(maxPoll, flushEvery), before, p) && j !in p.imp.jobs && P.Reaches(p, steps, q)
    requires j in q.imp.jobs && q.imp.jobs[j].proc.Some? && AfterNilFlush(q.imp.jobs[j].proc.value.stage)
    requires !q.imp.jobs[j].Expired()
    ensures BufferedOf(q.imp.buffer, j) == 0
    ensures q.imp.jobs[j].lost == 0 <==> !Taken(p, steps, q, j)
    ensures |P.OnLog(q, j)| == q.imp.jobs[j].sent <==> !Taken(p, steps, q, j)
  {
    hide P.Enabled, P.Apply, P.OnLog;
    P.StartInv(maxPoll, flushEvery);
    P.RunKeepsInv(P.Init(maxPoll, flushEvery), before, p);
    RunRemembers(p, steps, q, j, false);
    P.RunKeepsInv(p, steps, q);
    assert P.Accounted(q, j);
    if Taken(p, steps, q, j) { TakenIsLost(p, steps, q, j); }
  }

  // The publisher has one failure flag, and any flush clears it.
  // Here import i's flush takes import j's failure, and j's flush then returns nil.
  lemma OtherFlushHidesLoss(i: JobId, j: JobId) returns (steps: seq<P.Step>, q: P.State)
    requires IsUuid(i) && IsUuid(j) && i != j
    ensures P.Reaches(P.Init(500, 100), steps, q) && q == Pair(i, j, Failing, Published(StoringFinal, 1), [], false)
    ensures q.imp.jobs.Keys == {i, j} && q.imp.jobs[i].At(Failing) && q.imp.jobs[i].lost == 0
    ensures q.imp.jobs[j].At(StoringFinal) && q.imp.jobs[j].sent == 1 && q.imp.jobs[j].lost == 1
  {
    hide Pair, Takes;
    var evt := ProductImported(j, 2, ProductData("m", "p", "n", 1, "USD", ""));
    var s := [
      P.Init(500, 100),
      Both(map[j := Fresh(Streaming)], [], false),
      Pair(i, j, Streaming, Fresh(Streaming), [], false),
      Pair(i, j, Streaming, Published(Streaming, 0), [evt], false),
      Pair(i, j, Flushing, Published(Streaming, 0), [evt], false),
      Pair(i, j, Flushing, Published(Streaming, 1), [], true),
      Pair(i, j, Failing, Published(Streaming, 1), [], false),
      Pair(i, j, Failing, Published(Flushing, 1), [], false),
      Pair(i, j, Failing, Published(StoringFinal, 1), [], false)];
    steps := [
      P.OnImporter(Create(j, true)), P.OnImporter(Create(i, true)),
      P.OnImporter(Own(j, ValidRow(evt))), P.OnImporter(Own(i, EndOfFile)),
      P.Lose(0),
      P.OnImporter(Own(i, FlushReturns)), P.OnImporter(Own(j, EndOfFile)), P.OnImporter(Own(j, FlushReturns))];
    AloneStarts(j);
    Creates(i, j);
    PublishesOne(i, j, evt);
    TheirsMoves(i, j, Streaming, EndOfFile, Published(Streaming, 0), [evt], false);
    Loses(i, j, evt);
    TheirsMoves(i, j, Flushing, FlushReturns, Published(Streaming, 1), [], true);
    OursMoves(i, j, Failing, Streaming, EndOfFile);
    OursMoves(i, j, Failing, Flushing, FlushReturns);
    q := s[8];
    assert q.imp.jobs == map[j := Published(StoringFinal, 1), i := Fresh(Failing)] by { PairJobs(i, j); }
    assert forall n :: 0 <= n < 8 ==> Takes(s[n], steps[n], s[n + 1]);
    Follows(s, steps);
  }

  function Fresh(stage: Stage): Importer.Job {
    Job(JobRow(Status.Parsing, 0, 0, 0, 0, NOTHING), Some(Proc(stage, 0, 0, 0, 0, false)), 0, 0)
  }

  // After one published row.
  function Published(stage: Stage, lost: nat): Importer.Job {
    Job(JobRow(Status.Parsing, 0, 0, 0, 0, NOTHING), Some(Proc(stage, 1, 1, 0, 1, false)), 1, lost)
  }

  function Both(jobs: map<JobId, Importer.Job>, buffer: seq<ProductImported>, err: bool): P.State {
    P.State.State(Stream.Init(500), Importer.State(100, jobs, map[], buffer, err, None))
  }

  function Pair(i: JobId, j: JobId, theirs: Stage, ours: Importer.Job, buffer: seq<ProductImported>, err: bool)
      : P.State
  {
    Both(map[j := ours, i := Fresh(theirs)], buffer, err)
  }

  lemma PairJobs(i: JobId, j: JobId)
    ensures Pair(i, j, Failing, Published(StoringFinal, 1), [], false).imp.jobs ==
              map[j := Published(StoringFinal, 1), i := Fresh(Failing)]
  {
  }

  ghost predicate Takes(s: P.State, step: P.Step, t: P.State) {
    P.Enabled(s, step) && P.Apply(s, step) == t
  }

  lemma Creates(i: JobId, j: JobId)
    requires IsUuid(i) && i != j
    ensures Takes(Both(map[j := Fresh(Streaming)], [], false), P.OnImporter(Create(i, true)),
                  Pair(i, j, Streaming, Fresh(Streaming), [], false))
  {
    hide Stream.Enabled, Stream.Apply, SumRows;
  }

  lemma PublishesOne(i: JobId, j: JobId, evt: ProductImported)
    requires i != j && evt.jobId == j
    ensures Takes(Pair(i, j, Streaming, Fresh(Streaming), [], false), P.OnImporter(Own(j, ValidRow(evt))),
                  Pair(i, j, Streaming, Published(Streaming, 0), [evt], false))
  {
    hide Stream.Enabled, Stream.Apply, SumRows;
  }

  lemma TheirsMoves(i: JobId, j: JobId, stage: Stage, move: Move, ours: Importer.Job, buffer: seq<ProductImported>,
        err: bool)
    requires i != j
    requires (stage.Streaming? && move.EndOfFile?) || (stage.Flushing? && move.FlushReturns? && buffer == [] && err)
    ensures Takes(Pair(i, j, stage, ours, buffer, err), P.OnImporter(Own(i, move)),
                  Pair(i, j, if move.EndOfFile? then Flushing else Failing, ours, buffer, err && move.EndOfFile?))
  {
    hide Stream.Enabled, Stream.Apply, SumRows;
  }

  lemma OursMoves(i: JobId, j: JobId, theirs: Stage, stage: Stage, move: Move)
    requires i != j
    requires (stage.Streaming? && move.EndOfFile?) || (stage.Flushing? && move.FlushReturns?)
    ensures Takes(Pair(i, j, theirs, Published(stage, 1), [], false), P.OnImporter(Own(j, move)),
                  Pair(i, j, theirs, Published(if move.EndOfFile? then Flushing else StoringFinal, 1), [], false))
  {
    hide Stream.Enabled, Stream.Apply, SumRows;
  }

  lemma Loses(i: JobId, j: JobId, evt: ProductImported)
    requires i != j && evt.jobId == j
    ensures Takes(Pair(i, j, Flushing, Published(Streaming, 0), [evt], false), P.Lose(0),
                  Pair(i, j, Flushing, Published(Streaming, 1), [], true))
  {
    assert Without([evt], 0) == [];
  }

  // An expired context is the other way: the flush returns nil with the event still buffered. But then
  // nothing is stored any more.
  lemma ExpiredFlushReturnsEarly(j: JobId) returns (steps: seq<P.Step>, q: P.State)
    requires IsUuid(j)
    ensures P.Reaches(P.Init(500, 100), steps, q) && q.imp.jobs.Keys == {j}
    ensures q.imp.jobs[j].At(StoringFinal) && q.imp.jobs[j].Expired()
    ensures q.imp.jobs[j].sent == 1 && BufferedOf(q.imp.buffer, j) == 1 && P.OnLog(q, j) == {}
  {
    hide Takes;
    var evt := ProductImported(j, 2, ProductData("m", "p", "n", 1, "USD", ""));
    var s := [
      P.Init(500, 100),
      Both(map[j := Fresh(Streaming)], [], false),
      Both(map[j := Published(Streaming, 0)], [evt], false),
      Both(map[j := Published(Flushing, 0)], [evt], false),
      Both(map[j := Late(Flushing)], [evt], false),
      Both(map[j := Late(StoringFinal)], [evt], false)];
    steps := [
      P.OnImporter(Create(j, true)), P.OnImporter(Own(j, ValidRow(evt))), P.OnImporter(Own(j, EndOfFile)),
      P.OnImporter(Own(j, Expire)), P.OnImporter(Own(j, FlushReturns))];
    AloneStarts(j);
    AloneSends(j, evt);
    AloneExpires(j, evt);
    q := s[5];
    assert [evt][..0] == [];
    assert forall n :: 0 <= n < 5 ==> Takes(s[n], steps[n], s[n + 1]);
    Follows(s, steps);
  }

  function Late(stage: Stage): Importer.Job {
    Job(JobRow(Status.Parsing, 0, 0, 0, 0, NOTHING), Some(Proc(stage, 1, 1, 0, 1, true)), 1, 0)
  }

  lemma AloneStarts(j: JobId)
    requires IsUuid(j)
    ensures Takes(P.Init(500, 100), P.OnImporter(Create(j, true)), Both(map[j := Fresh(Streaming)], [], false))
  {
    hide Stream.Enabled, Stream.Apply, SumRows;
  }

  lemma AloneSends(j: JobId, evt: ProductImported)
    requires evt.jobId == j
    ensures Takes(Both(map[j := Fresh(Streaming)], [], false), P.OnImporter(Own(j, ValidRow(evt))),
                  Both(map[j := Published(Streaming, 0)], [evt], false))
    ensures Takes(Both(map[j := Published(Streaming, 0)], [evt], false), P.OnImporter(Own(j, EndOfFile)),
                  Both(map[j := Published(Flushing, 0)], [evt], false))
  {
    hide Stream.Enabled, Stream.Apply, SumRows;
  }

  lemma AloneExpires(j: JobId, evt: ProductImported)
    ensures Takes(Both(map[j := Published(Flushing, 0)], [evt], false), P.OnImporter(Own(j, Expire)),
                  Both(map[j := Late(Flushing)], [evt], false))
    ensures Takes(Both(map[j := Late(Flushing)], [evt], false), P.OnImporter(Own(j, FlushReturns)),
                  Both(map[j := Late(StoringFinal)], [evt], false))
  {
    hide Stream.Enabled, Stream.Apply, SumRows;
  }

  // ---------------------------------------------------------------- who is refused

  // A delivery that fails, or seems to.
  predicate Fails(step: P.Step) {
    step.Lose? || (step.Land? && !step.acked)
  }

  // A flush that returns, or a new process, forgets the failure, whichever import it belonged to.
  predicate Forgets(step: P.Step) {
    step.OnImporter? && (step.imp.Restart? || (step.imp.Own? && step.imp.move.FlushReturns?))
  }

  ghost predicate FailedSince(steps: seq<P.Step>) {
    exists n :: 0 <= n < |steps| && Fails(steps[n]) && forall m :: n < m < |steps| ==> !Forgets(steps[m])
  }

  ghost predicate Forgotten(steps: seq<P.Step>) {
    exists n :: 0 <= n < |steps| && Forgets(steps[n])
  }

  lemma FlagStep(p: P.State, step: P.Step)
    requires P.Enabled(p, step)
    ensures P.Apply(p, step).imp.firstErr <==> Fails(step) || (p.imp.firstErr && !Forgets(step))
  {
    hide Stream.Enabled, Stream.Apply, SumRows;
  }

  lemma {:induction false} FlagExactly(p: P.State, steps: seq<P.Step>, q: P.State)
    requires P.Reaches(p, steps, q)
    ensures q.imp.firstErr <==> FailedSince(steps) || (p.imp.firstErr && !Forgotten(steps))
    decreases |steps|
  {
    hide P.Enabled, P.Apply, Fails, Forgets;
    if steps != [] {
      var rest := steps[1..];
      FlagStep(p, steps[0]);
      FlagExactly(P.Apply(p, steps[0]), rest, q);
      FailedCons(steps[0], rest);
      assert steps == [steps[0]] + rest;
    }
  }

  lemma FailedCons(step: P.Step, rest: seq<P.Step>)
    ensures FailedSince([step] + rest) <==> FailedSince(rest) || (Fails(step) && !Forgotten(rest))
    ensures Forgotten([step] + rest) <==> Forgets(step) || Forgotten(rest)
    ensures Fails(step) ==> !Forgets(step)
  {
    var all := [step] + rest;
    if n :| 0 <= n < |rest| && Forgets(rest[n]) { assert Forgets(all[n + 1]); }
    if n :| 0 <= n < |rest| && Fails(rest[n]) && forall m :: n < m < |rest| ==> !Forgets(rest[m]) {
      assert Fails(all[n + 1]) && forall m :: n + 1 < m < |all| ==> !Forgets(all[m]);
    }
    if n :| 0 <= n < |all| && Fails(all[n]) && forall m :: n < m < |all| ==> !Forgets(all[m]) {
      if n > 0 {
        assert Fails(rest[n - 1]) && forall m :: n - 1 < m < |rest| ==> !Forgets(rest[m]) by {
          forall m | n - 1 < m < |rest| ensures !Forgets(rest[m]) { assert all[m + 1] == rest[m]; }
        }
      } else {
        forall m | 0 <= m < |rest| ensures !Forgets(rest[m]) { assert all[m + 1] == rest[m]; }
      }
    }
    if Fails(step) && !Forgotten(rest) {
      assert Fails(all[0]) && forall m :: 0 < m < |all| ==> !Forgets(all[m]);
    }
    if Forgets(step) { assert Forgets(all[0]); }
    if n :| 0 <= n < |all| && Forgets(all[n]) {
      if n > 0 { assert Forgets(rest[n - 1]); }
    }
  }

  // A failure outlives the import it belonged to: in any run, a streaming import's next publish, its
  // first one included, is accepted exactly when no delivery failed since the last flush of any
  // import, or the last restart.
  lemma AcceptedExactly(maxPoll: nat, flushEvery: nat, steps: seq<P.Step>, q: P.State, j: JobId, evt: ProductImported)
    requires P.Reaches(P.Init(maxPoll, flushEvery), steps, q)
    requires j in q.imp.jobs && q.imp.jobs[j].At(Streaming) && evt.jobId == j
    ensures P.Enabled(q, P.OnImporter(Own(j, ValidRow(evt)))) <==> !FailedSince(steps)
  {
    hide FailedSince, Stream.Enabled;
    FlagExactly(P.Init(maxPoll, flushEvery), steps, q);
  }

  lemma {:induction false} Follows(s: seq<P.State>, steps: seq<P.Step>)
    requires |s| == |steps| + 1
    requires forall n :: 0 <= n < |steps| ==> Takes(s[n], steps[n], s[n + 1])
    ensures P.Reaches(s[0], steps, s[|steps|])
    decreases |steps|
  {
    hide P.Enabled, P.Apply;
    if steps != [] {
      assert Takes(s[0], steps[0], s[1]);
      Follows(s[1..], steps[1..]);
    }
  }
}
