// Two goroutines flush one service's counters: the main loop and the ticker. Every interleaving of
// their steps, and of counting, keeps what is marked published truthful.
module Flushers {
  import opened Wrappers
  import opened Events
  import opened Ledger

  // A job's counters and the totals last marked as published.
  datatype Entry = Entry(counts: Snapshot, marked: Option<Snapshot>) {
    predicate Unchanged() {
      marked == Some(counts)
    }
  }

  datatype Flusher = Main | Ticker

  datatype Pending = Pending(job: JobId, counts: Snapshot)

  // A flush in progress: the totals when it took the lock, the snapshots it took, how many it has
  // delivered, and whether the reporter's flush has been confirmed.
  datatype Flight = Flight(entry: map<JobId, Snapshot>, pending: seq<Pending>, next: nat, confirmed: bool)

  datatype State = State(worker: WorkerId, jobs: map<JobId, Entry>, topic: seq<Report>, flights: map<Flusher, Flight>)

  function Init(worker: WorkerId): State {
    State(worker, map[], [], map[])
  }

  datatype Step =
    | Count(j: JobId, counts: Snapshot)      // the main loop's processing: the counters of a job grow
    | Begin(f: Flusher, order: seq<JobId>)   // snapshot, in the map's iteration order
    | Send(f: Flusher, acked: bool)
    | Confirm(f: Flusher)
    | Abort(f: Flusher)                      // an error return
    | Mark(f: Flusher)                       // record the published totals and return nil

  function EntryOf(s: State, j: JobId): Entry {
    if j in s.jobs then s.jobs[j] else Entry(NOTHING, None)
  }

  ghost predicate ListsChanged(s: State, order: seq<JobId>) {
    && (forall a, b :: 0 <= a < b < |order| ==> order[a] != order[b])
    && (forall n :: 0 <= n < |order| ==> order[n] in s.jobs && !s.jobs[order[n]].Unchanged())
    && (forall j :: j in s.jobs && !s.jobs[j].Unchanged() ==> j in order)
  }

  ghost predicate Enabled(s: State, step: Step) {
    match step
    case Count(j, counts) => Main !in s.flights && EntryOf(s, j).counts.AtMost(counts)
    case Begin(f, order) => f !in s.flights && ListsChanged(s, order)
    case Send(f, _) => f in s.flights && s.flights[f].next < |s.flights[f].pending|
    case Confirm(f) => f in s.flights && s.flights[f].next == |s.flights[f].pending|
    case Abort(f) => f in s.flights
    // Nothing pending returns at once, without a reporter flush.
    case Mark(f) => f in s.flights && (s.flights[f].confirmed || s.flights[f].pending == [])
  }

  // Marking assigns each pending job's totals in turn, whatever they have become since.
  ghost function MarkAll(jobs: map<JobId, Entry>, pending: seq<Pending>): map<JobId, Entry> {
    if pending == [] then jobs
    else
      var before := MarkAll(jobs, pending[..|pending| - 1]);
      var last := pending[|pending| - 1];
      if last.job in before then before[last.job := before[last.job].(marked := Some(last.counts))] else before
  }

  ghost function Snapshots(s: State, order: seq<JobId>): seq<Pending>
    requires forall n :: 0 <= n < |order| ==> order[n] in s.jobs
  {
    seq(|order|, n requires 0 <= n < |order| => Pending(order[n], s.jobs[order[n]].counts))
  }

  ghost function Apply(s: State, step: Step): State
    requires Enabled(s, step)
  {
    match step
    case Count(j, counts) => s.(jobs := s.jobs[j := EntryOf(s, j).(counts := counts)])
    case Begin(f, order) =>
      s.(flights := s.flights[f := Flight(map j | j in s.jobs :: s.jobs[j].counts, Snapshots(s, order), 0, false)])
    case Send(f, acked) =>
      var fl := s.flights[f];
      var p := fl.pending[fl.next];
      s.(topic := s.topic + [Report(p.job, s.worker, p.counts)],
         flights := if acked then s.flights[f := fl.(next := fl.next + 1)] else s.flights - {f})
    case Confirm(f) => s.(flights := s.flights[f := s.flights[f].(confirmed := true)])
    case Abort(f) => s.(flights := s.flights - {f})
    case Mark(f) => s.(jobs := MarkAll(s.jobs, s.flights[f].pending), flights := s.flights - {f})
  }

  ghost predicate Reaches(s: State, steps: seq<Step>, t: State)
    decreases |steps|
  {
    if steps == [] then s == t
    else Enabled(s, steps[0]) && Reaches(Apply(s, steps[0]), steps[1..], t)
  }

  ghost predicate Delivered(s: State, j: JobId, counts: Snapshot) {
    Report(j, s.worker, counts) in s.topic
  }

  ghost predicate FlightInv(s: State, fl: Flight) {
    && fl.next <= |fl.pending|
    && (fl.confirmed ==> fl.next == |fl.pending|)
    && (forall n :: 0 <= n < |fl.pending| ==>
        fl.pending[n].job in s.jobs && fl.pending[n].counts.AtMost(s.jobs[fl.pending[n].job].counts))
    && (forall n :: 0 <= n < fl.next ==> Delivered(s, fl.pending[n].job, fl.pending[n].counts))
    && (forall j :: j in fl.entry ==> Pending(j, fl.entry[j]) in fl.pending || Delivered(s, j, fl.entry[j]))
  }

  ghost predicate Inv(s: State) {
    && (forall j :: j in s.jobs && s.jobs[j].marked.Some? ==> Delivered(s, j, s.jobs[j].marked.value))
    && (forall n :: 0 <= n < |s.topic| ==>
          s.topic[n].worker == s.worker && s.topic[n].job in s.jobs &&
              s.topic[n].counts.AtMost(s.jobs[s.topic[n].job].counts))
    && (forall f :: f in s.flights ==> FlightInv(s, s.flights[f]))
  }

  lemma {:induction false} MarkAllAt(jobs: map<JobId, Entry>, pending: seq<Pending>, j: JobId)
    requires forall n :: 0 <= n < |pending| ==> pending[n].job in jobs
    ensures MarkAll(jobs, pending).Keys == jobs.Keys
    ensures j in jobs ==>
              var after := MarkAll(jobs, pending)[j];
              && after.counts == jobs[j].counts
              && (after.marked == jobs[j].marked || (after.marked.Some? && Pending(j, after.marked.value) in pending))
  {
    if pending != [] {
      var n := |pending| - 1;
      MarkAllAt(jobs, pending[..n], j);
      assert pending == pending[..n] + [pending[n]];
    }
  }

  lemma FlightFrame(s: State, t: State, fl: Flight)
    requires FlightInv(s, fl) && t.worker == s.worker
    requires forall r :: r in s.topic ==> r in t.topic
    requires forall j :: j in s.jobs ==> j in t.jobs && s.jobs[j].counts.AtMost(t.jobs[j].counts)
    ensures FlightInv(t, fl)
  {
  }

  lemma StepBegin(s: State, f: Flusher, order: seq<JobId>)
    requires Inv(s) && Enabled(s, Begin(f, order))
    ensures Inv(Apply(s, Begin(f, order)))
  {
    var t := Apply(s, Begin(f, order));
    var fl := t.flights[f];
    forall j | j in fl.entry ensures Pending(j, fl.entry[j]) in fl.pending || Delivered(t, j, fl.entry[j]) {
      if !s.jobs[j].Unchanged() {
        var n :| 0 <= n < |order| && order[n] == j;
        assert fl.pending[n] == Pending(j, fl.entry[j]);
      }
    }
    forall g | g in t.flights ensures FlightInv(t, t.flights[g]) {
      if g != f { FlightFrame(s, t, s.flights[g]); }
    }
  }

  lemma StepSend(s: State, f: Flusher, acked: bool)
    requires Inv(s) && Enabled(s, Send(f, acked))
    ensures Inv(Apply(s, Send(f, acked)))
  {
    var t := Apply(s, Send(f, acked));
    assert forall r :: r in s.topic ==> r in t.topic;
    assert t.topic[|s.topic|] in t.topic;
    forall g | g in t.flights ensures FlightInv(t, t.flights[g]) {
      FlightFrame(s, t, s.flights[g]);
    }
  }

  lemma StepMark(s: State, f: Flusher)
    requires Inv(s) && Enabled(s, Mark(f))
    ensures Inv(Apply(s, Mark(f)))
  {
    var t := Apply(s, Mark(f));
    var fl := s.flights[f];
    assert FlightInv(s, fl);
    forall j | j in s.jobs
      ensures j in t.jobs && t.jobs[j].counts == s.jobs[j].counts
      ensures t.jobs[j].marked.Some? ==> Delivered(t, j, t.jobs[j].marked.value)
    {
      MarkAllAt(s.jobs, fl.pending, j);
    }
    MarkAllAt(s.jobs, fl.pending, "");
    forall g | g in t.flights ensures FlightInv(t, t.flights[g]) {
      FlightFrame(s, t, s.flights[g]);
    }
  }

  lemma StepKeepsInv(s: State, step: Step)
    requires Inv(s) && Enabled(s, step)
    ensures Inv(Apply(s, step))
  {
    match step
    case Begin(f, order) => StepBegin(s, f, order);
    case Send(f, acked) => StepSend(s, f, acked);
    case Mark(f) => StepMark(s, f);
    case _ =>
      var t := Apply(s, step);
      forall g | g in t.flights ensures FlightInv(t, t.flights[g]) {
        FlightFrame(s, t, s.flights[g]);
      }
  }

  lemma {:induction false} RunKeepsInv(s: State, steps: seq<Step>, t: State)
    requires Inv(s) && Reaches(s, steps, t)
    ensures Inv(t)
    decreases |steps|
  {
    if steps != [] {
      StepKeepsInv(s, steps[0]);
      RunKeepsInv(Apply(s, steps[0]), steps[1..], t);
    }
  }

  // ---------------------------------------------------------------- what a flush promises

  // In every reachable state: totals marked published are on the topic; so the totals of a job that
  // a flush would skip are already there; and nothing on the topic exceeds the counters.
  lemma MarksAreTruthful(worker: WorkerId, steps: seq<Step>, s: State, j: JobId)
    requires Reaches(Init(worker), steps, s) && j in s.jobs
    ensures s.jobs[j].marked.Some? ==> Delivered(s, j, s.jobs[j].marked.value)
    ensures s.jobs[j].Unchanged() ==> Delivered(s, j, s.jobs[j].counts)
    ensures forall r :: r in s.topic && r.job == j ==> r.counts.AtMost(s.jobs[j].counts)
  {
    RunKeepsInv(Init(worker), steps, s);
    forall r | r in s.topic && r.job == j ensures r.counts.AtMost(s.jobs[j].counts) {
      var n :| 0 <= n < |s.topic| && s.topic[n] == r;
    }
  }

  // A nil return means that every total the flush found at entry is on the topic, whichever of the
  // two flushers put it there.
  lemma NilMeansDelivered(worker: WorkerId, steps: seq<Step>, s: State, f: Flusher)
    requires Reaches(Init(worker), steps, s) && Enabled(s, Mark(f))
    ensures forall j :: j in s.flights[f].entry ==>
              && Delivered(s, j, s.flights[f].entry[j])
              && s.flights[f].entry[j].AtMost(Largest(s.topic, worker, j))
  {
    RunKeepsInv(Init(worker), steps, s);
    WorkerFixed(Init(worker), steps, s);
    var fl := s.flights[f];
    assert FlightInv(s, fl);
    forall j | j in fl.entry
      ensures Delivered(s, j, fl.entry[j]) && fl.entry[j].AtMost(Largest(s.topic, worker, j))
    {
      if Pending(j, fl.entry[j]) in fl.pending {
        var n :| 0 <= n < |fl.pending| && fl.pending[n] == Pending(j, fl.entry[j]);
        assert Delivered(s, fl.pending[n].job, fl.pending[n].counts);
      }
      InTopic(s.topic, Report(j, worker, fl.entry[j]));
    }
  }

  lemma {:induction false} InTopic(topic: seq<Report>, r: Report)
    requires r in topic
    ensures r.counts.AtMost(Largest(topic, r.worker, r.job))
  {
    if topic[|topic| - 1] != r {
      InTopic(topic[..|topic| - 1], r);
    }
  }

  lemma {:induction false} WorkerFixed(s: State, steps: seq<Step>, t: State)
    requires Reaches(s, steps, t)
    ensures t.worker == s.worker
    decreases |steps|
  {
    if steps != [] { WorkerFixed(Apply(s, steps[0]), steps[1..], t); }
  }

  // While the main loop flushes it does not count, and nobody else does.
  ghost predicate Still(s: State) {
    Main in s.flights ==>
      forall j :: j in s.jobs ==> j in s.flights[Main].entry && s.flights[Main].entry[j] == s.jobs[j].counts
  }

  lemma StepStill(s: State, step: Step)
    requires Inv(s) && Still(s) && Enabled(s, step)
    ensures Still(Apply(s, step))
  {
    if step.Mark? {
      var t, fl := Apply(s, step), s.flights[step.f];
      assert FlightInv(s, fl);
      forall j | j in t.jobs ensures j in s.jobs && t.jobs[j].counts == s.jobs[j].counts {
        MarkAllAt(s.jobs, fl.pending, j);
      }
    }
  }

  lemma {:induction false} RunStill(s: State, steps: seq<Step>, t: State)
    requires Inv(s) && Still(s) && Reaches(s, steps, t)
    ensures Still(t)
    decreases |steps|
  {
    hide Inv, Still, Enabled, Apply;
    if steps != [] {
      StepKeepsInv(s, steps[0]);
      StepStill(s, steps[0]);
      RunStill(Apply(s, steps[0]), steps[1..], t);
    }
  }

  // So the main loop's nil return covers the current counters: the condition under which the protocol
  // lets it commit.
  lemma NilCoversCounters(worker: WorkerId, steps: seq<Step>, s: State)
    requires Reaches(Init(worker), steps, s) && Enabled(s, Mark(Main))
    ensures forall j :: j in s.jobs ==> s.jobs[j].counts.AtMost(Largest(s.topic, worker, j))
  {
    RunStill(Init(worker), steps, s);
    NilMeansDelivered(worker, steps, s, Main);
  }

  // One processed row reported and confirmed by the ticker, not yet marked.
  function Late(worker: WorkerId, j: JobId, e: Entry): State {
    var one := Snapshot(1, 0, 0);
    State(worker, map[j := e], [Report(j, worker, one)],
        map[Ticker := Flight(map[j := one], [Pending(j, one)], 1, true)])
  }

  lemma TickerReports(worker: WorkerId, j: JobId) returns (steps: seq<Step>)
    ensures Reaches(Init(worker), steps, Late(worker, j, Entry(Snapshot(1, 0, 0), None)))
  {
    var one := Snapshot(1, 0, 0);
    var s1 := Apply(Init(worker), Count(j, one));
    var s2 := Apply(s1, Begin(Ticker, [j]));
    assert s2.flights[Ticker] == Flight(map[j := one], [Pending(j, one)], 0, false);
    var s3 := Apply(s2, Send(Ticker, true));
    var s4 := Apply(s3, Confirm(Ticker));
    assert s4 == Late(worker, j, Entry(one, None));
    Cons(s3, Confirm(Ticker), [], s4);
    Cons(s2, Send(Ticker, true), [Confirm(Ticker)], s4);
    Cons(s1, Begin(Ticker, [j]), [Send(Ticker, true)] + [Confirm(Ticker)], s4);
    steps := [Begin(Ticker, [j])] + ([Send(Ticker, true)] + [Confirm(Ticker)]);
    Cons(Init(worker), Count(j, one), steps, s4);
    steps := [Count(j, one)] + steps;
  }

  // Meanwhile a second row is counted, and the main loop takes its snapshot.
  lemma MainBegins(worker: WorkerId, j: JobId) returns (steps: seq<Step>, s: State)
    ensures Reaches(Late(worker, j, Entry(Snapshot(1, 0, 0), None)), steps, s)
    ensures s.jobs == map[j := Entry(Snapshot(2, 0, 0), None)]
    ensures s.flights == Late(worker, j, s.jobs[j]).flights[
                           Main := Flight(map[j := Snapshot(2, 0, 0)], [Pending(j, Snapshot(2, 0, 0))], 0, false)]
  {
    var two := Snapshot(2, 0, 0);
    var s0 := Late(worker, j, Entry(Snapshot(1, 0, 0), None));
    var s1 := Apply(s0, Count(j, two));
    s := Apply(s1, Begin(Main, [j]));
    assert s.flights[Main] == Flight(map[j := two], [Pending(j, two)], 0, false);
    Cons(s1, Begin(Main, [j]), [], s);
    steps := [Begin(Main, [j])];
    Cons(s0, Count(j, two), steps, s);
    steps := [Count(j, two)] + steps;
  }

  // The main loop reports and marks both.
  lemma MainMarks(s: State, j: JobId) returns (steps: seq<Step>, before: State)
    requires s.jobs == map[j := Entry(Snapshot(2, 0, 0), None)] && Main in s.flights && Ticker in s.flights
    requires s.flights[Main] == Flight(map[j := Snapshot(2, 0, 0)], [Pending(j, Snapshot(2, 0, 0))], 0, false)
    ensures Reaches(s, steps, before)
    ensures before.jobs == map[j := Entry(Snapshot(2, 0, 0), Some(Snapshot(2, 0, 0)))]
    ensures Ticker in before.flights && before.flights[Ticker] == s.flights[Ticker]
  {
    var s1 := Apply(s, Send(Main, true));
    var s2 := Apply(s1, Confirm(Main));
    MarkOne(s2.jobs, Pending(j, Snapshot(2, 0, 0)));
    before := Apply(s2, Mark(Main));
    Cons(s2, Mark(Main), [], before);
    Cons(s1, Confirm(Main), [Mark(Main)], before);
    steps := [Confirm(Main)] + [Mark(Main)];
    Cons(s, Send(Main, true), steps, before);
    steps := [Send(Main, true)] + steps;
  }

  lemma {:induction false} ReachesConcat(s: State, a: seq<Step>, t: State, b: seq<Step>, u: State)
    requires Reaches(s, a, t) && Reaches(t, b, u)
    ensures Reaches(s, a + b, u)
    decreases |a|
  {
    hide Enabled, Apply;
    if a == [] {
      assert a + b == b;
    } else {
      ReachesConcat(Apply(s, a[0]), a[1..], t, b, u);
      assert (a + b)[1..] == a[1..] + b;
    }
  }

  // The ticker may mark late: the mark then moves backwards, and the next flush sends again.
  lemma LateMarkMovesBack(worker: WorkerId, j: JobId) returns (steps: seq<Step>, before: State, after: State)
    ensures Reaches(Init(worker), steps, before)
    ensures Enabled(before, Mark(Ticker)) && after == Apply(before, Mark(Ticker))
    ensures j in before.jobs && j in after.jobs
    ensures before.jobs[j].marked == Some(Snapshot(2, 0, 0)) && before.jobs[j].Unchanged()
    ensures after.jobs[j].marked == Some(Snapshot(1, 0, 0)) && !after.jobs[j].Unchanged()
    ensures forall order :: ListsChanged(after, order) ==> j in order
  {
    var first := TickerReports(worker, j);
    var second, overtaken := MainBegins(worker, j);
    var third;
    third, before := MainMarks(overtaken, j);
    MarkOne(before.jobs, Pending(j, Snapshot(1, 0, 0)));
    after := Apply(before, Mark(Ticker));
    ReachesConcat(Init(worker), first, Late(worker, j, Entry(Snapshot(1, 0, 0), None)), second, overtaken);
    ReachesConcat(Init(worker), first + second, overtaken, third, before);
    steps := first + second + third;
  }

  lemma Cons(s: State, step: Step, rest: seq<Step>, t: State)
    requires Enabled(s, step) && Reaches(Apply(s, step), rest, t)
    ensures Reaches(s, [step] + rest, t)
  {
    hide Enabled, Apply;
    assert ([step] + rest)[1..] == rest;
  }

  lemma MarkOne(jobs: map<JobId, Entry>, p: Pending)
    requires p.job in jobs
    ensures MarkAll(jobs, [p]) == jobs[p.job := jobs[p.job].(marked := Some(p.counts))]
  {
    assert [p][..0] == [];
  }
}
