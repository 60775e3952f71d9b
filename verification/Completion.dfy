// Which processing jobs can still complete: exactly those somebody listens for and the worker group
// can still report enough about.
module Completion {
  import opened Wrappers
  import opened Events
  import opened Products
  import opened Ledger
  import opened Sums
  import opened Jobs
  import opened Importer
  import D = Durability
  import F = Feeding
  import P = Pipeline
  import Records
  import Stream
  import StreamCounts
  import Tracker

  ghost predicate CompletesIn(p: P.State, j: JobId, steps: seq<P.Step>, q: P.State) {
    P.Reaches(p, steps, q) && j in q.imp.jobs && q.imp.jobs[j].row.status.Completed?
  }

  // ---------------------------------------------------------------- the group's steps, and the tracker's

  function OnGroup(steps: seq<Stream.Step>): seq<P.Step> {
    seq(|steps|, n requires 0 <= n < |steps| => P.OnStream(steps[n]))
  }

  lemma {:induction false} GroupRun(p: P.State, steps: seq<Stream.Step>, t: Stream.State)
    requires F.Calmly(p.stream, steps, t)
    ensures P.Reaches(p, OnGroup(steps), p.(stream := t))
    decreases |steps|
  {
    if steps != [] {
      assert F.Calm(steps[0]);
      var q := P.Apply(p, P.OnStream(steps[0]));
      hide Stream.Enabled, Stream.Apply;
      forall n | 0 <= n < |steps[1..]| ensures F.Calm(steps[1..][n]) { assert steps[1..][n] == steps[n + 1]; }
      GroupRun(q, steps[1..], t);
      hide P.Enabled, P.Apply;
      P.Cons(p, P.OnStream(steps[0]), OnGroup(steps[1..]), p.(stream := t));
      assert OnGroup(steps) == [P.OnStream(steps[0])] + OnGroup(steps[1..]);
    }
  }

  function RowAt(rows: WorkerRows, j: JobId, w: WorkerId): Snapshot {
    if w in RowsOf(rows, j) then RowsOf(rows, j)[w] else NOTHING
  }

  ghost predicate Mentions(topic: seq<Report>, j: JobId) {
    exists n :: 0 <= n < |topic| && topic[n].job == j
  }

  // Only the stored totals of the record moved.
  ghost predicate SameButTotals(p: P.State, q: P.State, j: JobId)
    requires j in p.imp.jobs
  {
    && q.stream == p.stream && j in q.imp.jobs
    && q.imp.jobs[j] == p.imp.jobs[j].(row := p.imp.jobs[j].row.(progress := q.imp.jobs[j].row.progress))
  }

  lemma FoldOne(p: P.State, r: Report) returns (steps: seq<P.Step>, q: P.State)
    requires IsUuid(r.job) && r.job in p.imp.jobs && p.imp.jobs[r.job].row.Live() && p.imp.folding == None
    requires r in p.stream.topic
    ensures P.Reaches(p, steps, q) && SameButTotals(p, q, r.job) && q.imp.folding == None
    ensures forall w :: RowAt(q.imp.rows, r.job, w) ==
              if w == r.worker then RowAt(p.imp.rows, r.job, w).Join(r.counts) else RowAt(p.imp.rows, r.job, w)
    ensures q.imp.jobs[r.job].row.progress == SumRows(RowsOf(q.imp.rows, r.job))
  {
    hide P.Reaches, SumRows;
    steps, q := Tracker.FoldIsRun(p, Folding(r, true));
    assert Tracker.RecordsOf(q.imp)[r.job] == q.imp.jobs[r.job].row;
    assert Tracker.RecordsOf(p.imp)[r.job] == p.imp.jobs[r.job].row;
  }

  // The tracker may fold every report of the job delivered so far.
  lemma {:induction false} FoldTopic(p: P.State, j: JobId, n: nat) returns (steps: seq<P.Step>, q: P.State)
    requires IsUuid(j) && j in p.imp.jobs && p.imp.jobs[j].row.Live() && p.imp.folding == None && n <= |p.stream.topic|
    ensures P.Reaches(p, steps, q) && SameButTotals(p, q, j) && q.imp.folding == None
    ensures forall w :: Largest(p.stream.topic[..n], w, j).AtMost(RowAt(q.imp.rows, j, w))
    ensures Mentions(p.stream.topic[..n], j) ==> q.imp.jobs[j].row.progress == SumRows(RowsOf(q.imp.rows, j))
    decreases n
  {
    hide P.Enabled, P.Apply, SumRows;
    if n == 0 {
      steps, q := [], p;
    } else {
      var u, r := p, p.stream.topic[n - 1];
      steps, u := FoldTopic(p, j, n - 1);
      assert p.stream.topic[..n][..n - 1] == p.stream.topic[..n - 1];
      assert p.stream.topic[..n] == p.stream.topic[..n - 1] + [r];
      if r.job == j {
        var more;
        more, q := FoldOne(u, r);
        P.ReachesConcat(p, steps, u, more, q);
        steps := steps + more;
      } else {
        q := u;
        StillMentions(p.stream.topic[..n - 1], r, j);
      }
    }
  }

  lemma StillMentions(topic: seq<Report>, r: Report, j: JobId)
    requires r.job != j
    ensures Mentions(topic + [r], j) ==> Mentions(topic, j)
  {
    if n :| 0 <= n < |topic + [r]| && (topic + [r])[n].job == j { assert topic[n].job == j; }
  }

  lemma {:induction false} Unmentioned(topic: seq<Report>, w: WorkerId, j: JobId)
    requires !Mentions(topic, j)
    ensures Largest(topic, w, j) == NOTHING
  {
    if topic != [] {
      var n := |topic| - 1;
      assert topic[n].job != j;
      Unmentioned(topic[..n], w, j);
    }
  }

  // What the topic shows, the rows then sum up to.
  lemma RowsCoverReported(s: Stream.State, rows: WorkerRows, j: JobId)
    requires forall w :: Largest(s.topic, w, j).AtMost(RowAt(rows, j, w))
    ensures StreamCounts.Reported(s, j) <= SumRows(RowsOf(rows, j)).Total()
  {
    var mine := RowsOf(rows, j);
    SumAdd(mine.Keys, Processed(mine), DeadCount(mine), P.TotalOf(mine));
    forall w | w in s.workers.Keys
      ensures StreamCounts.DeliveredBy(s, j)(w) == 0 ||
              (w in mine && StreamCounts.DeliveredBy(s, j)(w) <= P.TotalOf(mine)(w))
    {
      assert Largest(s.topic, w, j).AtMost(RowAt(rows, j, w));
    }
    SumWider(s.workers.Keys, mine.Keys, StreamCounts.DeliveredBy(s, j), P.TotalOf(mine));
  }

  // Enough on the topic can be folded in.
  lemma Confirms(p: P.State, j: JobId) returns (steps: seq<P.Step>, q: P.State)
    requires IsUuid(j) && j in p.imp.jobs && p.imp.jobs[j].row.Live()
    requires p.imp.jobs[j].row.publishedRows <= StreamCounts.Reported(p.stream, j)
    ensures P.Reaches(p, steps, q) && SameButTotals(p, q, j) && q.imp.jobs[j].row.Confirmed()
  {
    hide SumRows;
    var u := P.Apply(p, P.OnImporter(TrackStop));
    var rest;
    rest, q := FoldTopic(u, j, |u.stream.topic|);
    P.Cons(p, P.OnImporter(TrackStop), rest, q);
    steps := [P.OnImporter(TrackStop)] + rest;
    hide P.Enabled, P.Apply, StreamCounts.Reported;
    assert u.stream.topic[..|u.stream.topic|] == u.stream.topic;
    if Mentions(p.stream.topic, j) {
      RowsCoverReported(p.stream, q.imp.rows, j);
    } else {
      NothingReported(p.stream, j);
    }
  }

  lemma NothingReported(s: Stream.State, j: JobId)
    requires !Mentions(s.topic, j)
    ensures StreamCounts.Reported(s, j) == 0
  {
    forall w | w in s.workers.Keys ensures StreamCounts.DeliveredBy(s, j)(w) == 0 { Unmentioned(s.topic, w, j); }
    SumBounded(s.workers.Keys, {}, StreamCounts.DeliveredBy(s, j), 0);
  }

  // Somebody listening then writes completed.
  lemma Concludes(p: P.State, j: JobId) returns (steps: seq<P.Step>, q: P.State)
    requires j in p.imp.jobs && Listening(p.imp.jobs[j])
    requires p.imp.jobs[j].row.status.Processing? && p.imp.jobs[j].row.Confirmed()
    ensures CompletesIn(p, j, steps, q)
  {
    hide Stream.Enabled, Stream.Apply, SumRows;
    if p.imp.jobs[j].At(Confirming) {
      q := P.Apply(p, P.OnImporter(Own(j, Complete(true))));
      P.Cons(p, P.OnImporter(Own(j, Complete(true))), [], q);
      steps := [P.OnImporter(Own(j, Complete(true)))] + [];
    } else {
      var u := P.Apply(p, P.OnImporter(Own(j, Check)));
      q := P.Apply(u, P.OnImporter(Own(j, Complete(true))));
      P.Cons(u, P.OnImporter(Own(j, Complete(true))), [], q);
      P.Cons(p, P.OnImporter(Own(j, Check)), [P.OnImporter(Own(j, Complete(true)))] + [], q);
      steps := [P.OnImporter(Own(j, Check))] + ([P.OnImporter(Own(j, Complete(true)))] + []);
    }
  }

  // After a run of the group that leaves enough on the topic, the job can complete.
  lemma CompletesAfter(p: P.State, j: JobId, group: seq<Stream.Step>, t: Stream.State)
      returns (steps: seq<P.Step>, q: P.State)
    requires IsUuid(j) && j in p.imp.jobs && p.imp.jobs[j].row.status.Processing? && Listening(p.imp.jobs[j])
    requires F.Calmly(p.stream, group, t) && p.imp.jobs[j].row.publishedRows <= StreamCounts.Reported(t, j)
    ensures CompletesIn(p, j, steps, q)
  {
    hide F.Calmly, StreamCounts.Reported, P.Reaches;
    GroupRun(p, group, t);
    var u := p.(stream := t);
    var second, v := Confirms(u, j);
    P.ReachesConcat(p, OnGroup(group), u, second, v);
    var third;
    third, q := Concludes(v, j);
    P.ReachesConcat(p, OnGroup(group) + second, v, third, q);
    steps := OnGroup(group) + second + third;
  }

  // ---------------------------------------------------------------- the rows come from the topic

  ghost predicate RowsReported(p: P.State) {
    forall j, w :: w in RowsOf(p.imp.rows, j) ==> RowsOf(p.imp.rows, j)[w].AtMost(Largest(p.stream.topic, w, j))
  }

  lemma {:induction false} InLargest(topic: seq<Report>, r: Report)
    requires r in topic
    ensures r.counts.AtMost(Largest(topic, r.worker, r.job))
  {
    var n := |topic| - 1;
    if topic[n] != r { InLargest(topic[..n], r); }
  }

  lemma TopicGrows(p: P.State, step: P.Step)
    requires P.Enabled(p, step)
    ensures p.stream.topic <= P.Apply(p, step).stream.topic
  {
    match step
    case OnStream(st) =>
      if !st.Append? {
        F.CalmStep(p.stream, st);
        hide Stream.Enabled, Stream.Apply;
      }
    case _ =>
      hide Importer.Enabled, Importer.Apply, Stream.WellRouted;
  }

  lemma RowsGrow(p: P.State, step: P.Step, j: JobId, w: WorkerId)
    requires P.Enabled(p, step) && w in RowsOf(P.Apply(p, step).imp.rows, j)
    ensures || (w in RowsOf(p.imp.rows, j) && RowsOf(P.Apply(p, step).imp.rows, j)[w] == RowsOf(p.imp.rows, j)[w])
            || (step.OnImporter? && step.imp.TrackRow? && step.imp.r in p.stream.topic &&
                step.imp.r.job == j && step.imp.r.worker == w &&
                RowsOf(P.Apply(p, step).imp.rows, j)[w] == RowAt(p.imp.rows, j, w).Join(step.imp.r.counts))
  {
    hide Stream.Enabled, Stream.Apply, SumRows;
  }

  lemma StepRows(p: P.State, step: P.Step)
    requires P.Enabled(p, step) && RowsReported(p)
    ensures RowsReported(P.Apply(p, step))
  {
    hide P.Enabled, P.Apply;
    var q := P.Apply(p, step);
    TopicGrows(p, step);
    forall j, w | w in RowsOf(q.imp.rows, j)
      ensures RowsOf(q.imp.rows, j)[w].AtMost(Largest(q.stream.topic, w, j))
    {
      RowsGrow(p, step, j, w);
      F.LargestPrefix(p.stream.topic, q.stream.topic, w, j);
      if w in RowsOf(p.imp.rows, j) { assert RowsOf(p.imp.rows, j)[w].AtMost(Largest(p.stream.topic, w, j)); }
      if step.OnImporter? && step.imp.TrackRow? && step.imp.r in p.stream.topic {
        InLargest(p.stream.topic, step.imp.r);
      }
    }
  }

  lemma {:induction false} RunRows(p: P.State, steps: seq<P.Step>, q: P.State)
    requires RowsReported(p) && P.Reaches(p, steps, q)
    ensures RowsReported(q)
    decreases |steps|
  {
    hide P.Enabled, P.Apply, RowsReported;
    if steps != [] {
      StepRows(p, steps[0]);
      RunRows(P.Apply(p, steps[0]), steps[1..], q);
    }
  }

  // So a record never shows more than was reported.
  lemma ShownIsReported(p: P.State, j: JobId)
    requires RowsReported(p) && P.RowsInv(p) && j in p.imp.jobs && TotalsInv(p.imp, j)
    ensures p.imp.jobs[j].row.progress.Total() <= StreamCounts.Reported(p.stream, j)
  {
    var mine := RowsOf(p.imp.rows, j);
    SumAdd(mine.Keys, Processed(mine), DeadCount(mine), P.TotalOf(mine));
    forall w | w in mine
      ensures w in p.stream.workers && P.TotalOf(mine)(w) <= StreamCounts.DeliveredBy(p.stream, j)(w)
    {
      assert mine[w].AtMost(Largest(p.stream.topic, w, j));
    }
    SumWider(mine.Keys, p.stream.workers.Keys, P.TotalOf(mine), StreamCounts.DeliveredBy(p.stream, j));
  }

  // ---------------------------------------------------------------- when it is too late

  // Everything of the job that reached the log is read, or nothing is, and what the workers can still
  // report falls short.
  ghost predicate Starved(p: P.State, j: JobId) {
    && j in p.imp.jobs && BufferedOf(p.imp.buffer, j) == 0
    && (p.imp.jobs[j].proc.None? || p.imp.jobs[j].At(Awaiting) || p.imp.jobs[j].At(Failing))
    && (p.imp.jobs[j].row.status.Processing? || p.imp.jobs[j].row.status.Failed?)
    && F.Exhausted(p.stream, j) && F.Due(p.stream, j) < p.imp.jobs[j].row.publishedRows
  }

  lemma ShownIsDue(p: P.State, j: JobId)
    requires P.Inv(p) && RowsReported(p) && j in p.imp.jobs
    ensures p.imp.jobs[j].row.progress.Total() <= F.Due(p.stream, j)
  {
    hide StreamCounts.Inv, RowsReported, StreamCounts.Reported, F.Due, JobInv, TotalsInv;
    Records.RecordInv(p, j);
    ShownIsReported(p, j);
    F.ReportedWithinDue(p.stream, j);
  }

  lemma StarvedOwn(p: P.State, move: Move, j: JobId)
    requires Starved(p, j) && P.Enabled(p, P.OnImporter(Own(j, move))) && !p.imp.jobs[j].row.Confirmed()
    ensures Starved(P.Apply(p, P.OnImporter(Own(j, move))), j)
  {
    hide F.Exhausted, F.Due, BufferedOf;
  }

  lemma StarvedImporter(p: P.State, st: Importer.Step, j: JobId)
    requires Starved(p, j) && P.Enabled(p, P.OnImporter(st)) && !p.imp.jobs[j].row.Confirmed()
    ensures Starved(P.Apply(p, P.OnImporter(st)), j)
  {
    hide F.Exhausted, F.Due, SumRows;
    match st
    case Own(i, move) =>
      if i == j {
        StarvedOwn(p, move, j);
      } else {
        hide Moved, CanMove;
        if move.ValidRow? { D.BufferedMore(p.imp.buffer, move.evt, j); }
      }
    case _ =>
  }

  lemma StarvedStream(p: P.State, st: Stream.Step, j: JobId)
    requires Starved(p, j) && P.Enabled(p, P.OnStream(st)) && StreamCounts.Inv(p.stream)
    ensures Starved(P.Apply(p, P.OnStream(st)), j)
  {
    hide Stream.Enabled, Stream.Apply, StreamCounts.Inv, F.Exhausted, F.Due;
    F.DueShrinks(p.stream, st, j);
  }

  lemma StarvedLand(p: P.State, n: nat, partition: nat, acked: bool, j: JobId)
    requires Starved(p, j) && P.Enabled(p, P.Land(n, partition, acked)) && StreamCounts.Inv(p.stream)
    ensures Starved(P.Apply(p, P.Land(n, partition, acked)), j)
  {
    hide Stream.Enabled, Stream.Apply, StreamCounts.Inv, F.Exhausted, F.Due;
    P.BufferedWithout(p.imp.buffer, n, j);
    F.DueShrinks(p.stream, Stream.Append(P.Landed(p, n, partition)), j);
  }

  lemma StarvedStep(p: P.State, step: P.Step, j: JobId)
    requires P.Inv(p) && RowsReported(p) && Starved(p, j) && P.Enabled(p, step)
    ensures Starved(P.Apply(p, step), j)
  {
    ShownIsDue(p, j);
    hide P.Enabled, P.Apply, StreamCounts.Inv, Importer.Inv;
    match step
    case OnStream(st) => StarvedStream(p, st, j);
    case OnImporter(st) => StarvedImporter(p, st, j);
    case Land(n, partition, acked) => StarvedLand(p, n, partition, acked, j);
    case Lose(n) => StarvedLose(p, n, j);
  }

  lemma StarvedLose(p: P.State, n: nat, j: JobId)
    requires Starved(p, j) && P.Enabled(p, P.Lose(n))
    ensures Starved(P.Apply(p, P.Lose(n)), j)
  {
    hide F.Exhausted, F.Due;
    P.BufferedWithout(p.imp.buffer, n, j);
  }

  lemma {:induction false} StarvedForGood(p: P.State, steps: seq<P.Step>, q: P.State, j: JobId)
    requires P.Inv(p) && RowsReported(p) && Starved(p, j) && P.Reaches(p, steps, q)
    ensures Starved(q, j)
    decreases |steps|
  {
    hide P.Enabled, P.Apply, P.Inv, RowsReported, Starved;
    if steps != [] {
      StarvedStep(p, steps[0], j);
      StepRows(p, steps[0]);
      P.StepKeepsInv(p, steps[0]);
      StarvedForGood(P.Apply(p, steps[0]), steps[1..], q, j);
    }
  }

  // ---------------------------------------------------------------- the condition

  // The group can still report enough: a record of the job is uncommitted, so it can be read once more
  // as often as it takes, or what the workers have counted, or delivered if they are dead, suffices.
  ghost predicate Coverable(p: P.State, j: JobId)
    requires j in p.imp.jobs
  {
    !F.Exhausted(p.stream, j) || p.imp.jobs[j].row.publishedRows <= F.Due(p.stream, j)
  }

  lemma CoverableCompletes(p: P.State, j: JobId) returns (steps: seq<P.Step>, q: P.State)
    requires P.Inv(p) && j in p.imp.jobs && p.imp.jobs[j].row.status.Processing?
    requires Listening(p.imp.jobs[j]) && Coverable(p, j)
    ensures CompletesIn(p, j, steps, q)
  {
    hide StreamCounts.Inv, StreamCounts.Reported, F.Due, F.Calmly, JobInv, TotalsInv, CompletesIn, Listening;
    Records.RecordInv(p, j);
    var group, t;
    if F.Exhausted(p.stream, j) {
      group, t := F.DueIsReached(p.stream, j);
    } else {
      var i :| 0 <= i < |p.stream.log| && JobOf(p.stream.log[i]) == Some(j) && i !in p.stream.committed;
      group, t := F.ReportsReach(p.stream, i, j, p.imp.jobs[j].row.publishedRows);
    }
    steps, q := CompletesAfter(p, j, group, t);
  }

  // Past an unexpired flush nothing is buffered.
  lemma NothingBuffered(maxPoll: nat, flushEvery: nat, before: seq<P.Step>, p: P.State, j: JobId)
    requires P.Reaches(P.Init(maxPoll, flushEvery), before, p) && j in p.imp.jobs && Listening(p.imp.jobs[j])
    ensures BufferedOf(p.imp.buffer, j) == 0
  {
    hide P.Enabled, P.Apply;
    D.NilFlushIsDurable(maxPoll, flushEvery, [], P.Init(maxPoll, flushEvery), before, p, j);
  }

  lemma UncoverableIsStarved(p: P.State, j: JobId)
    requires P.Inv(p) && RowsReported(p) && j in p.imp.jobs && p.imp.jobs[j].row.status.Processing?
    requires Listening(p.imp.jobs[j]) && !Coverable(p, j) && BufferedOf(p.imp.buffer, j) == 0
    ensures Starved(p, j)
  {
    ShownIsDue(p, j);
    hide StreamCounts.Inv, F.Exhausted, F.Due, RowsReported;
    Records.RecordInv(p, j);
  }

  // In any reachable state of the pipeline, some run completes a processing job if and only if its own
  // goroutine still listens, and the group can still report enough about it.
  lemma CompletesExactly(maxPoll: nat, flushEvery: nat, before: seq<P.Step>, p: P.State, j: JobId)
    requires P.Reaches(P.Init(maxPoll, flushEvery), before, p)
    requires j in p.imp.jobs && p.imp.jobs[j].row.status.Processing?
    ensures (exists steps, q :: CompletesIn(p, j, steps, q)) <==> Listening(p.imp.jobs[j]) && Coverable(p, j)
  {
    hide P.Enabled, P.Apply, P.Inv, RowsReported, Coverable, BufferedOf, JobInv, TotalsInv;
    P.StartInv(maxPoll, flushEvery);
    P.RunKeepsInv(P.Init(maxPoll, flushEvery), before, p);
    assert RowsReported(P.Init(maxPoll, flushEvery)) by { NoRows(maxPoll, flushEvery); }
    RunRows(P.Init(maxPoll, flushEvery), before, p);
    Records.RecordInv(p, j);
    if !Listening(p.imp.jobs[j]) {
      assert Stuck(p.imp.jobs[j]) by { NotListening(p, j); }
      forall steps, q | P.Reaches(p, steps, q) ensures !CompletesIn(p, j, steps, q) {
        Records.StuckNeverCompletes(p, steps, q, j);
      }
    } else if Coverable(p, j) {
      var steps, q := CoverableCompletes(p, j);
      assert CompletesIn(p, j, steps, q);
    } else {
      NothingBuffered(maxPoll, flushEvery, before, p, j);
      UncoverableIsStarved(p, j);
      forall steps, q | P.Reaches(p, steps, q) ensures !CompletesIn(p, j, steps, q) {
        StarvedForGood(p, steps, q, j);
      }
    }
  }

  lemma NoRows(maxPoll: nat, flushEvery: nat)
    ensures RowsReported(P.Init(maxPoll, flushEvery))
  {
  }

  lemma NotListening(p: P.State, j: JobId)
    requires j in p.imp.jobs && p.imp.jobs[j].row.status.Processing?
    requires JobInv(p.imp.jobs[j]) && !Listening(p.imp.jobs[j])
    ensures Stuck(p.imp.jobs[j])
  {
  }

  // What was not lost can always be reported: a listening job none of whose events was lost can complete.
  lemma LosslessCompletes(maxPoll: nat, flushEvery: nat, before: seq<P.Step>, p: P.State, j: JobId)
    requires maxPoll > 0 && P.Reaches(P.Init(maxPoll, flushEvery), before, p)
    requires j in p.imp.jobs && p.imp.jobs[j].row.status.Processing? && p.imp.jobs[j].lost == 0
    ensures (exists steps, q :: CompletesIn(p, j, steps, q)) <==> Listening(p.imp.jobs[j])
  {
    hide P.Enabled, P.Apply, P.Inv, CompletesIn;
    CompletesExactly(maxPoll, flushEvery, before, p, j);
    if Listening(p.imp.jobs[j]) {
      P.StartInv(maxPoll, flushEvery);
      P.RunKeepsInv(P.Init(maxPoll, flushEvery), before, p);
      NothingBuffered(maxPoll, flushEvery, before, p, j);
      PollFixed(P.Init(maxPoll, flushEvery), before, p);
      LosslessIsCoverable(p, j);
    }
  }

  lemma {:induction false} PollFixed(p: P.State, steps: seq<P.Step>, q: P.State)
    requires P.Reaches(p, steps, q)
    ensures q.stream.maxPoll == p.stream.maxPoll
    decreases |steps|
  {
    if steps != [] {
      PollKept(p, steps[0]);
      hide P.Enabled, P.Apply;
      PollFixed(P.Apply(p, steps[0]), steps[1..], q);
    }
  }

  lemma PollKept(p: P.State, step: P.Step)
    requires P.Enabled(p, step)
    ensures P.Apply(p, step).stream.maxPoll == p.stream.maxPoll
  {
    match step
    case OnStream(st) =>
      if !st.Append? {
        F.CalmStep(p.stream, st);
        hide Stream.Enabled, Stream.Apply;
      }
    case _ =>
      hide Importer.Enabled, Importer.Apply, Stream.WellRouted;
  }

  lemma LosslessIsCoverable(p: P.State, j: JobId)
    requires P.Inv(p) && j in p.imp.jobs && p.imp.jobs[j].row.status.Processing? && Listening(p.imp.jobs[j])
    requires p.imp.jobs[j].lost == 0 && BufferedOf(p.imp.buffer, j) == 0 && p.stream.maxPoll > 0
    ensures Coverable(p, j)
  {
    hide StreamCounts.Inv, StreamCounts.Reported, F.Due, TotalsInv;
    Records.RecordInv(p, j);
    assert P.Accounted(p, j);
    if F.Exhausted(p.stream, j) {
      assert P.OnLog(p, j) == StreamCounts.CommittedOf(p.stream, j);
      StreamCounts.ReportsCoverCommits(p.stream, j);
      F.ReportedWithinDue(p.stream, j);
    }
  }

  // ---------------------------------------------------------------- a job that listens in vain

  // An import whose one event was lost after another import's flush took the failure.
  function Unsent(stage: Stage): Importer.Job {
    match stage
    case StoringFinal => D.Published(StoringFinal, 1)
    case MarkingProcessing => Job(JobRow(Status.Parsing, 1, 1, 0, 1, NOTHING), D.Published(stage, 1).proc, 1, 1)
    case _ => Job(JobRow(Status.Processing, 1, 1, 0, 1, NOTHING), D.Published(stage, 1).proc, 1, 1)
  }

  function Vain(i: JobId, j: JobId, stage: Stage): P.State {
    D.Pair(i, j, Failing, Unsent(stage), [], false)
  }

  lemma GoesOn(i: JobId, j: JobId, stage: Stage, move: Move, next: Stage)
    requires i != j
    requires (stage, move, next) == (StoringFinal, StoreFinal(true), MarkingProcessing) ||
             (stage, move, next) == (MarkingProcessing, MarkProcessing(true), Awaiting)
    ensures D.Takes(Vain(i, j, stage), P.OnImporter(Own(j, move)), Vain(i, j, next))
  {
    hide Stream.Enabled, Stream.Apply, SumRows;
  }

  lemma StartsVain(i: JobId, j: JobId)
    ensures Vain(i, j, StoringFinal) == D.Pair(i, j, Failing, D.Published(StoringFinal, 1), [], false)
  {
  }

  lemma NothingDue(i: JobId, j: JobId)
    requires i != j
    ensures var p := Vain(i, j, Awaiting);
            && j in p.imp.jobs && p.imp.jobs[j] == Unsent(Awaiting)
            && F.Exhausted(p.stream, j) && F.Due(p.stream, j) == 0
  {
  }

  // Here import j's goroutine listens, its context unexpired, but its only event never reached the log:
  // no run completes the job.
  lemma ListensInVain(i: JobId, j: JobId) returns (steps: seq<P.Step>, p: P.State)
    requires IsUuid(i) && IsUuid(j) && i != j
    ensures P.Reaches(P.Init(500, 100), steps, p) && j in p.imp.jobs
    ensures p.imp.jobs[j].row.status.Processing? && Listening(p.imp.jobs[j]) && p.imp.jobs[j].lost == 1
    ensures forall more, q :: !CompletesIn(p, j, more, q)
  {
    hide D.Takes, Vain, P.Reaches, F.Exhausted, F.Due, CompletesIn;
    var first, lost := D.OtherFlushHidesLoss(i, j);
    StartsVain(i, j);
    p := Vain(i, j, Awaiting);
    GoesOn(i, j, StoringFinal, StoreFinal(true), MarkingProcessing);
    GoesOn(i, j, MarkingProcessing, MarkProcessing(true), Awaiting);
    var s := [lost, Vain(i, j, MarkingProcessing), p];
    var more := [P.OnImporter(Own(j, StoreFinal(true))), P.OnImporter(Own(j, MarkProcessing(true)))];
    D.Follows(s, more);
    P.ReachesConcat(P.Init(500, 100), first, lost, more, p);
    steps := first + more;
    NothingDue(i, j);
    CompletesExactly(500, 100, steps, p, j);
  }
}
