// The importer's progress tracker: fold each report, commit the settled ones.
module Tracker {
  import opened Wrappers
  import opened Events
  import opened Jobs
  import I = Importer
  import P = Pipeline

  // A worker's measured latency, which travels with its reports.
  datatype Latency = Latency(samples: nat, p50: real, p95: real, max: real)

  // One record of the progress topic; an undecodable payload carries no report.
  datatype ProgressRecord = ProgressRecord(partition: nat, offset: nat, report: Option<Report>, latency: Latency)

  // The next offset to read, by partition.
  type Offsets = map<nat, nat>

  // Committing records advances each partition past the last of them, unless it refuses.
  function Advanced(committed: Offsets, recs: seq<ProgressRecord>, refused: set<nat>): Offsets {
    if recs == [] then committed
    else
      var last := recs[|recs| - 1];
      var before := Advanced(committed, recs[..|recs| - 1], refused);
      if last.partition in refused then before else before[last.partition := last.offset + 1]
  }

  class EventSource {
    var committed: Offsets
    ghost var failures: nat   // commits that did not go through

    constructor ()
      ensures committed == map[]
    {
      committed := map[];
    }

    // Nil when every partition accepted the commit. On an error any of them may have refused it.
    method CommitRecords(recs: seq<ProgressRecord>) returns (ok: bool, ghost refused: set<nat>)
      modifies this
      ensures committed == Advanced(old(committed), recs, refused) && (ok ==> refused == {})
      ensures failures == old(failures) + if ok then 0 else 1
    {
      var failing: set<nat> := *;
      ok := *;
      if ok { failing := {}; }
      refused := failing;
      failures := failures + if ok then 0 else 1;
      committed := Advanced(committed, recs, failing);
    }
  }

  // A record that concerns a job of this importer.
  predicate Concerns(rec: ProgressRecord) {
    rec.report.Some? && IsUuid(rec.report.value.job)
  }

  ghost function SettledRecords(recs: seq<ProgressRecord>, settled: seq<bool>): seq<ProgressRecord>
    requires |settled| == |recs|
  {
    if recs == [] then []
    else
      var n := |recs| - 1;
      var rest := SettledRecords(recs[..n], settled[..n]);
      if settled[n] then rest + [recs[n]] else rest
  }

  // What one record may cause: nothing, or one fold of its report, finished if the record is settled.
  ghost predicate Causes(rec: ProgressRecord, settled: bool, run: seq<Folding>) {
    if Concerns(rec) then
      || (run == [] && !settled)
      || (|run| == 1 && run[0].report == rec.report.value && (settled ==> run[0].finished))
    else run == [] && settled
  }

  // The folds are of delivered reports, a finished one for every settled record among them.
  ghost predicate FoldedFrom(recs: seq<ProgressRecord>, settled: seq<bool>, run: seq<Folding>)
    requires |settled| == |recs|
  {
    && (forall f :: f in run ==> exists n :: 0 <= n < |recs| && Concerns(recs[n]) && recs[n].report == Some(f.report))
    && (forall n :: 0 <= n < |recs| && settled[n] && Concerns(recs[n]) ==>
          Folding(recs[n].report.value, true) in run)
  }

  lemma FoldedSnoc(
      recs: seq<ProgressRecord>, settled: seq<bool>, run: seq<Folding>, rec: ProgressRecord, done: bool,
      more: seq<Folding>)
    requires |settled| == |recs| && FoldedFrom(recs, settled, run) && Causes(rec, done, more)
    ensures FoldedFrom(recs + [rec], settled + [done], run + more)
  {
    var all := recs + [rec];
    forall f | f in run + more
      ensures exists n :: 0 <= n < |all| && Concerns(all[n]) && all[n].report == Some(f.report)
    {
      if f in run {
        var n :| 0 <= n < |recs| && Concerns(recs[n]) && recs[n].report == Some(f.report);
        assert all[n] == recs[n];
      } else {
        assert all[|recs|] == rec;
      }
    }
    if done && Concerns(rec) { assert more[0] == Folding(rec.report.value, true); }
  }

  lemma {:induction false} FoldManyConcat(
      jobs: map<JobId, JobRow>, rows: WorkerRows, a: seq<Folding>, b: seq<Folding>)
    ensures var (js, rs) := FoldMany(jobs, rows, a); FoldMany(jobs, rows, a + b) == FoldMany(js, rs, b)
    decreases |b|
  {
    if b == [] {
      assert a + b == a;
    } else {
      FoldManyConcat(jobs, rows, a, b[..|b| - 1]);
      assert (a + b)[..|a + b| - 1] == a + b[..|b| - 1];
    }
  }

  lemma FoldManyOne(jobs: map<JobId, JobRow>, rows: WorkerRows, f: Folding)
    ensures FoldMany(jobs, rows, [f]) ==
            (if f.finished then FoldTotals(jobs, FoldRow(rows, f.report), f.report.job) else jobs,
             FoldRow(rows, f.report))
  {
    assert [f][..0] == [];
  }

  class ProgressTracker {
    const store: JobStore
    const source: EventSource
    var latency: Option<Latency>

    constructor (store: JobStore, source: EventSource)
      ensures this.store == store && this.source == source && latency == None
    {
      this.store, this.source := store, source;
      latency := None;
    }

    // Whether the record is settled: folded, or never going to be. The latest folded report that
    // carries samples is the latency shown.
    method Apply(rec: ProgressRecord) returns (settled: bool, ghost run: seq<Folding>)
      modifies store, this
      ensures latency == if Concerns(rec) && settled && rec.latency.samples > 0 then Some(rec.latency) else old(latency)
      ensures Causes(rec, settled, run)
      ensures store.failures == old(store.failures) + if settled then 0 else 1
      ensures match rec.report
              case None => settled && run == []
              case Some(r) =>
                if !IsUuid(r.job) then settled && run == [] else settled ==> run == [Folding(r, true)]
      ensures (store.jobs, store.rows) == FoldMany(old(store.jobs), old(store.rows), run)
    {
      run := [];
      if rec.report.None? || !IsUuid(rec.report.value.job) {
        return true, run;
      }
      var r := rec.report.value;
      settled := store.ApplyProgress(r);
      if settled || store.rows != old(store.rows) || store.jobs != old(store.jobs) {
        run := [Folding(r, settled || store.jobs != old(store.jobs))];
      }
      FoldManyOne(old(store.jobs), old(store.rows), Folding(r, true));
      FoldManyOne(old(store.jobs), old(store.rows), Folding(r, false));
      if settled && rec.latency.samples > 0 {
        latency := Some(rec.latency);
      }
    }

    // One poll: fold every record, then commit the settled ones only. A record is left unsettled only
    // by a failed fold, and a poll is left only by a failed commit.
    method Cycle(recs: seq<ProgressRecord>)
        returns (ok: bool, ghost settled: seq<bool>, ghost run: seq<Folding>, ghost refused: set<nat>)
      modifies store, source, this
      ensures |settled| == |recs| && FoldedFrom(recs, settled, run)
      ensures (store.jobs, store.rows) == FoldMany(old(store.jobs), old(store.rows), run)
      ensures source.committed == Advanced(old(source.committed), SettledRecords(recs, settled), refused)
      ensures ok ==> refused == {}
      ensures source.failures == old(source.failures) + if ok then 0 else 1
      ensures store.failures == old(store.failures) ==> forall n :: 0 <= n < |recs| ==> settled[n]
      ensures store.failures >= old(store.failures)
    {
      hide FoldMany, Causes;
      var applied: seq<ProgressRecord> := [];
      settled, run := [], [];
      NoFolds(store.jobs, store.rows);
      for i := 0 to |recs|
        invariant |settled| == i && applied == SettledRecords(recs[..i], settled)
        invariant FoldedFrom(recs[..i], settled, run)
        invariant (store.jobs, store.rows) == FoldMany(old(store.jobs), old(store.rows), run)
        invariant source.committed == old(source.committed) && source.failures == old(source.failures)
        invariant store.failures >= old(store.failures)
        invariant store.failures == old(store.failures) ==> forall n :: 0 <= n < i ==> settled[n]
      {
        var done;
        ghost var more;
        done, more := Apply(recs[i]);
        assert recs[..i + 1] == recs[..i] + [recs[i]];
        assert recs[..i + 1][..i] == recs[..i] && (settled + [done])[..i] == settled;
        FoldManyConcat(old(store.jobs), old(store.rows), run, more);
        FoldedSnoc(recs[..i], settled, run, recs[i], done, more);
        settled, run := settled + [done], run + more;
        if done {
          applied := applied + [recs[i]];
        }
      }
      assert recs[..|recs|] == recs;
      if |applied| > 0 {
        ok, refused := source.CommitRecords(applied);
      } else {
        ok, refused := true, {};
      }
    }

    // Consumes the given polls until a commit fails. Whatever was delivered, and however often, the
    // store is what folds of delivered reports leave.
    method Run(polls: seq<seq<ProgressRecord>>) returns (ok: bool, ghost run: seq<Folding>)
      modifies store, source, this
      ensures (store.jobs, store.rows) == FoldMany(old(store.jobs), old(store.rows), run)
      ensures FromPolls(polls, run)
      ensures if ok then source.failures == old(source.failures) else source.failures > old(source.failures)
      ensures ok && store.failures == old(store.failures) ==> AllFolded(polls, |polls|, run)
    {
      hide FoldMany, FoldedFrom, AllFolded;
      run := [];
      NoneFolded(polls);
      NoFolds(store.jobs, store.rows);
      for i := 0 to |polls|
        invariant (store.jobs, store.rows) == FoldMany(old(store.jobs), old(store.rows), run)
        invariant FromPolls(polls, run)
        invariant source.failures == old(source.failures) && store.failures >= old(store.failures)
        invariant store.failures == old(store.failures) ==> AllFolded(polls, i, run)
      {
        if |polls[i]| > 0 {
          ghost var settled, more, refused;
          ok, settled, more, refused := Cycle(polls[i]);
          FoldManyConcat(old(store.jobs), old(store.rows), run, more);
          OnePollMore(polls, i, run, settled, more);
          if store.failures == old(store.failures) { OnePollFolded(polls, i, run, settled, more); }
          run := run + more;
          if !ok { return; }
        } else if store.failures == old(store.failures) {
          OnePollFolded(polls, i, run, [], []);
          assert run + [] == run;
        }
      }
      ok := true;
    }
  }

  lemma NoFolds(jobs: map<JobId, JobRow>, rows: WorkerRows)
    ensures FoldMany(jobs, rows, []) == (jobs, rows)
  {
  }

  ghost predicate Carries(polls: seq<seq<ProgressRecord>>, r: Report) {
    exists i, n :: 0 <= i < |polls| && 0 <= n < |polls[i]| && Concerns(polls[i][n]) && polls[i][n].report == Some(r)
  }

  ghost predicate FromPolls(polls: seq<seq<ProgressRecord>>, run: seq<Folding>) {
    forall f :: f in run ==> Carries(polls, f.report)
  }

  // Every report that concerns this importer in the first so many polls was folded to the end.
  ghost predicate AllFolded(polls: seq<seq<ProgressRecord>>, count: nat, run: seq<Folding>)
    requires count <= |polls|
  {
    forall i, n :: 0 <= i < count && 0 <= n < |polls[i]| && Concerns(polls[i][n]) ==>
      Folding(polls[i][n].report.value, true) in run
  }

  lemma NoneFolded(polls: seq<seq<ProgressRecord>>)
    ensures AllFolded(polls, 0, [])
  {
  }

  lemma OnePollFolded(
      polls: seq<seq<ProgressRecord>>, i: nat, run: seq<Folding>, settled: seq<bool>, more: seq<Folding>)
    requires i < |polls| && |settled| == |polls[i]| && AllFolded(polls, i, run) && FoldedFrom(polls[i], settled, more)
    requires forall n :: 0 <= n < |settled| ==> settled[n]
    ensures AllFolded(polls, i + 1, run + more)
  {
    forall a, n | 0 <= a < i + 1 && 0 <= n < |polls[a]| && Concerns(polls[a][n])
      ensures Folding(polls[a][n].report.value, true) in run + more
    {
      if a == i { assert settled[n]; }
    }
  }

  lemma OnePollMore(
      polls: seq<seq<ProgressRecord>>, i: nat, run: seq<Folding>, settled: seq<bool>, more: seq<Folding>)
    requires i < |polls| && |settled| == |polls[i]| && FromPolls(polls, run) && FoldedFrom(polls[i], settled, more)
    ensures FromPolls(polls, run + more)
  {
  }

  // ---------------------------------------------------------------- the tracker as a run of the protocol

  function RecordsOf(s: I.State): map<JobId, JobRow> {
    map j | j in s.jobs :: s.jobs[j].row
  }

  // The protocol state after the folds: only stored totals and worker rows differ.
  ghost predicate Shows(p: P.State, q: P.State, jobs: map<JobId, JobRow>, rows: WorkerRows) {
    var s, t := p.imp, q.imp;
    && q == p.(imp := t)
    && RecordsOf(t) == jobs && t.rows == rows
    && t.jobs.Keys == s.jobs.Keys && t == s.(jobs := t.jobs, rows := rows, folding := None)
    && forall j :: j in s.jobs ==> t.jobs[j] == s.jobs[j].(row := t.jobs[j].row)
  }

  // Whatever folds of delivered reports the tracker's code performed, finished or not, are a run of the
  // pipeline's protocol, so its theorems on stored records are about this code.
  lemma {:induction false} FoldsAreRun(p: P.State, run: seq<Folding>) returns (steps: seq<P.Step>, q: P.State)
    requires p.imp.folding == None
    requires forall f :: f in run ==> IsUuid(f.report.job) && f.report in p.stream.topic
    ensures P.Reaches(p, steps, q)
    ensures var (jobs, rows) := FoldMany(RecordsOf(p.imp), p.imp.rows, run); Shows(p, q, jobs, rows)
    decreases |run|
  {
    hide P.Enabled, P.Apply;
    if run == [] {
      steps, q := [], p;
    } else {
      var n := |run| - 1;
      var first, u := FoldsAreRun(p, run[..n]);
      var more;
      more, q := FoldIsRun(u, run[n]);
      steps := first + more;
      P.ReachesConcat(p, first, u, more, q);
    }
  }

  // The two statements of a fold.
  lemma FoldSteps(p: P.State, f: Folding)
    requires p.imp.folding == None && IsUuid(f.report.job) && f.report in p.stream.topic
    ensures P.Enabled(p, P.OnImporter(I.TrackRow(f.report, f.finished)))
    ensures var u, rows := P.Apply(p, P.OnImporter(I.TrackRow(f.report, f.finished))), FoldRow(p.imp.rows, f.report);
            if f.finished then
              && P.Enabled(u, P.OnImporter(I.TrackTotals(true)))
              && Shows(p, P.Apply(u, P.OnImporter(I.TrackTotals(true))),
                       FoldTotals(RecordsOf(p.imp), rows, f.report.job), rows)
            else Shows(p, u, RecordsOf(p.imp), rows)
  {
    hide SumRows;
  }

  lemma FoldIsRun(p: P.State, f: Folding) returns (steps: seq<P.Step>, q: P.State)
    requires p.imp.folding == None && IsUuid(f.report.job) && f.report in p.stream.topic
    ensures P.Reaches(p, steps, q)
    ensures var rows := FoldRow(p.imp.rows, f.report);
            Shows(p, q, if f.finished then FoldTotals(RecordsOf(p.imp), rows, f.report.job) else RecordsOf(p.imp), rows)
  {
    hide P.Enabled, P.Apply, Shows, FoldTotals, FoldRow, RecordsOf;
    FoldSteps(p, f);
    var u := P.Apply(p, P.OnImporter(I.TrackRow(f.report, f.finished)));
    if f.finished {
      q := P.Apply(u, P.OnImporter(I.TrackTotals(true)));
      steps := [P.OnImporter(I.TrackTotals(true))] + [];
      P.Cons(u, P.OnImporter(I.TrackTotals(true)), [], q);
    } else {
      q, steps := u, [];
    }
    P.Cons(p, P.OnImporter(I.TrackRow(f.report, f.finished)), steps, q);
    steps := [P.OnImporter(I.TrackRow(f.report, f.finished))] + steps;
  }

  // ---------------------------------------------------------------- what a failed fold costs

  // A poll delivers each partition's records in offset order, from the committed offset on.
  ghost predicate InOffsetOrder(committed: Offsets, recs: seq<ProgressRecord>) {
    && (forall a, b :: 0 <= a < b < |recs| && recs[a].partition == recs[b].partition ==>
        recs[a].offset < recs[b].offset)
    && (forall a :: 0 <= a < |recs| && recs[a].partition in committed ==>
        committed[recs[a].partition] <= recs[a].offset)
  }

  predicate Redelivered(committed: Offsets, rec: ProgressRecord) {
    rec.partition !in committed || committed[rec.partition] <= rec.offset
  }

  ghost predicate SettledAfter(recs: seq<ProgressRecord>, settled: seq<bool>, n: nat)
    requires |settled| == |recs| && n < |recs|
  {
    exists m :: n <= m < |recs| && settled[m] && recs[m].partition == recs[n].partition
  }

  // The committed offset comes from the partition's last settled record, if it has one.
  lemma {:induction false} AdvancedAt(
      committed: Offsets, recs: seq<ProgressRecord>, settled: seq<bool>, refused: set<nat>, p: nat)
      returns (last: Option<nat>)
    requires |settled| == |recs| && p !in refused
    ensures var after := Advanced(committed, SettledRecords(recs, settled), refused);
            match last
            case None =>
              && (forall m :: 0 <= m < |recs| && settled[m] ==> recs[m].partition != p)
              && (p in after <==> p in committed) && (p in committed ==> after[p] == committed[p])
            case Some(m) =>
              && m < |recs| && settled[m] && recs[m].partition == p
              && (forall k :: m < k < |recs| && settled[k] ==> recs[k].partition != p)
              && p in after && after[p] == recs[m].offset + 1
  {
    if recs == [] {
      last := None;
    } else {
      var n := |recs| - 1;
      last := AdvancedAt(committed, recs[..n], settled[..n], refused, p);
      var rest := SettledRecords(recs[..n], settled[..n]);
      if settled[n] {
        assert (rest + [recs[n]])[..|rest|] == rest;
        if recs[n].partition == p { last := Some(n); }
      }
    }
  }

  lemma {:induction false} RefusedStays(
      committed: Offsets, recs: seq<ProgressRecord>, settled: seq<bool>, refused: set<nat>, p: nat)
    requires |settled| == |recs| && p in refused
    ensures var after := Advanced(committed, SettledRecords(recs, settled), refused);
            (p in after <==> p in committed) && (p in committed ==> after[p] == committed[p])
  {
    if recs != [] {
      var n := |recs| - 1;
      RefusedStays(committed, recs[..n], settled[..n], refused, p);
      var rest := SettledRecords(recs[..n], settled[..n]);
      if settled[n] { assert (rest + [recs[n]])[..|rest|] == rest; }
    }
  }

  // A record whose fold failed comes back after a restart exactly when its partition refused the
  // commit, or no later record of the partition was settled by then: a later commit passes over it.
  lemma RedeliveredExactly(
      committed: Offsets, recs: seq<ProgressRecord>, settled: seq<bool>, refused: set<nat>, n: nat)
    requires |settled| == |recs| && n < |recs| && InOffsetOrder(committed, recs)
    ensures Redelivered(Advanced(committed, SettledRecords(recs, settled), refused), recs[n]) <==>
            recs[n].partition in refused || !SettledAfter(recs, settled, n)
  {
    if recs[n].partition in refused {
      RefusedStays(committed, recs, settled, refused, recs[n].partition);
    } else {
      var last := AdvancedAt(committed, recs, settled, refused, recs[n].partition);
      if last.Some? && last.value >= n {
        assert SettledAfter(recs, settled, n);
      }
    }
  }

  // So a job's largest report can be lost to the fold for good, and with it the job's completion.
  lemma FailedFoldCanBePassed(r: Report, later: Report, l: Latency)
    ensures var recs := [ProgressRecord(0, 0, Some(r), l), ProgressRecord(0, 1, Some(later), l)];
            !Redelivered(Advanced(map[], SettledRecords(recs, [false, true]), {}), recs[0])
  {
    var recs := [ProgressRecord(0, 0, Some(r), l), ProgressRecord(0, 1, Some(later), l)];
    assert SettledAfter(recs, [false, true], 0) by {
      assert [false, true][1] && recs[1].partition == recs[0].partition;
    }
    RedeliveredExactly(map[], recs, [false, true], {}, 0);
  }
}
