// Progress counting: reports never trail commits, over-report by at most one poll per incarnation,
// and never claim more than was adjudicated.
module StreamCounts {
  import opened Wrappers
  import opened Events
  import opened Products
  import opened Ledger
  import opened Stream
  import opened Sums
  import StreamCatalog

  // ---------------------------------------------------------------- the invariant

  // How much of the current poll is in the counters, phase by phase.
  ghost predicate CountedSoFar(s: State, wk: Worker)
    requires Within(s.log, wk.recs)
  {
    var poison := Select(s.log, wk.recs, Poison);
    match wk.phase
    case Idle => wk.recs == [] && wk.counted == wk.cleared
    case Poisoned(next, counted) =>
      var n := if counted then next + 1 else next;
      n <= |poison| && wk.counted == wk.cleared + Ids(poison[..n])
    case Flushing => wk.counted == wk.cleared + Ids(wk.recs)
    case Committing => wk.counted == wk.cleared + Ids(wk.recs)
    case Exiting => wk.counted <= wk.cleared + Ids(wk.recs)
    case Dead => wk.counted <= wk.cleared + Ids(wk.recs)
    case _ => wk.counted == wk.cleared + Ids(poison)
  }

  ghost predicate HistoryInv(s: State, wk: Worker) {
    && |wk.recs| <= s.maxPoll && Within(s.log, wk.recs) && Distinct(wk.recs)
    && wk.cleared <= wk.counted && wk.cleared <= s.committed
    && (forall i :: i in wk.counted ==> i < |s.log|)
    && CountedSoFar(s, wk)
  }

  ghost predicate ReportsInv(s: State, w: WorkerId, wk: Worker) {
    && (forall n :: 0 <= n < |s.topic| && s.topic[n].worker == w ==>
          s.topic[n].counts.AtMost(CountsOf(wk.jobs, s.topic[n].job)))
    && (forall j :: Tally(s.log, wk.cleared, j).AtMost(Largest(s.topic, w, j)))
    && (wk.phase.Committing? ==> forall j :: CountsOf(wk.jobs, j).AtMost(Largest(s.topic, w, j)))
  }

  ghost predicate WorkerInv(s: State, w: WorkerId)
    requires w in s.workers
  {
    && HistoryInv(s, s.workers[w])
    && Matches(s.log, s.workers[w].counted, s.workers[w].jobs)
    && ReportsInv(s, w, s.workers[w])
  }

  ghost predicate ClearedInv(s: State) {
    && (forall i :: i in s.committed ==> exists w :: w in s.workers && i in s.workers[w].cleared)
    && (forall w, v :: w in s.workers && v in s.workers && w != v ==> s.workers[w].cleared !! s.workers[v].cleared)
  }

  ghost predicate Inv(s: State) {
    && StreamCatalog.Inv(s)
    && ClearedInv(s)
    && (forall w :: w in s.workers ==> WorkerInv(s, w))
    && (forall n :: 0 <= n < |s.topic| ==> s.topic[n].worker in s.workers)
  }

  // ---------------------------------------------------------------- preservation

  lemma LargestGrows(topic: seq<Report>, r: Report, w: WorkerId, j: JobId)
    ensures Largest(topic, w, j).AtMost(Largest(topic + [r], w, j))
  {
    assert (topic + [r])[..|topic|] == topic;
  }

  lemma HistoryFrame(s: State, t: State, wk: Worker)
    requires HistoryInv(s, wk)
    requires t.maxPoll == s.maxPoll && s.log <= t.log && s.committed <= t.committed
    ensures HistoryInv(t, wk)
  {
    StreamCatalog.SelectFrame(s.log, t.log, wk.recs, Poison);
  }

  lemma OthersKeep(s: State, t: State, w: WorkerId)
    requires Inv(s) && w in t.workers && t.workers.Keys == s.workers.Keys + {w}
    requires forall v :: v in s.workers && v != w ==> t.workers[v] == s.workers[v]
    requires t.maxPoll == s.maxPoll && t.log == s.log && t.topic == s.topic && s.committed <= t.committed
    ensures forall v :: v in t.workers && v != w ==> WorkerInv(t, v)
  {
    hide StreamCatalog.Inv, Largest, Tally, CountedSoFar;
    forall v | v in t.workers && v != w ensures WorkerInv(t, v) {
      assert WorkerInv(s, v);
      HistoryFrame(s, t, s.workers[v]);
    }
  }

  // What is common to the steps that change one worker and no offsets.
  ghost predicate OwnChange(s: State, t: State, w: WorkerId) {
    && w in s.workers && t.workers.Keys == s.workers.Keys
    && (forall v :: v in s.workers && v != w ==> t.workers[v] == s.workers[v])
    && t.maxPoll == s.maxPoll && t.log == s.log && t.topic == s.topic && t.committed == s.committed
    && t.workers[w].cleared == s.workers[w].cleared
  }

  ghost predicate OwnKind(step: Step) {
    step.Poll? || step.CountPoison? || step.DeadLetterPoison? || step.PoisonDone? || step.DeadLetterInvalid? ||
    step.InvalidDone? || step.Upsert? || step.CountBatch? || step.FlushOk? || step.Fail? || step.Crash? || step.Assign?
  }

  lemma OwnKindChanges(s: State, step: Step)
    requires Enabled(s, step) && OwnKind(step)
    ensures OwnChange(s, Apply(s, step), step.w)
  {
    hide PollOk, Select, Within, Rows, CountAll, CountOne, At, Ids;
  }

  lemma OwnStep(s: State, step: Step, w: WorkerId)
    requires Inv(s) && Enabled(s, step) && OwnKind(step) && w == step.w
    requires w in Apply(s, step).workers && WorkerInv(Apply(s, step), w)
    ensures Inv(Apply(s, step))
  {
    hide StreamCatalog.Inv, WorkerInv, Enabled, Apply;
    OwnKindChanges(s, step);
    StreamCatalog.StepKeepsInv(s, step);
    OthersKeep(s, Apply(s, step), w);
  }

  lemma StepAppend(s: State, rec: Record)
    requires Inv(s) && Enabled(s, Append(rec))
    ensures Inv(Apply(s, Append(rec)))
  {
    hide StreamCatalog.Inv, Largest, CountedSoFar, WellRouted;
    var t := Apply(s, Append(rec));
    StreamCatalog.StepKeepsInv(s, Append(rec));
    forall w | w in t.workers ensures WorkerInv(t, w) {
      assert WorkerInv(s, w);
      var wk := s.workers[w];
      HistoryFrame(s, t, wk);
      forall j
        ensures Tally(t.log, wk.counted, j) == Tally(s.log, wk.counted, j)
        ensures Tally(t.log, wk.cleared, j) == Tally(s.log, wk.cleared, j)
      {
        TallyGrows(s.log, wk.counted, [rec], j);
        TallyGrows(s.log, wk.cleared, [rec], j);
      }
    }
  }

  lemma StepDeliver(s: State, r: Report)
    requires Inv(s) && Enabled(s, Deliver(r))
    ensures Inv(Apply(s, Deliver(r)))
  {
    hide StreamCatalog.Inv, Largest, Tally, CountedSoFar;
    var t := Apply(s, Deliver(r));
    StreamCatalog.StepKeepsInv(s, Deliver(r));
    forall w | w in t.workers ensures WorkerInv(t, w) {
      assert WorkerInv(s, w);
      HistoryFrame(s, t, s.workers[w]);
      forall j ensures Largest(s.topic, w, j).AtMost(Largest(t.topic, w, j)) {
        LargestGrows(s.topic, r, w, j);
      }
    }
  }

  lemma FreshWorker(t: State, w: WorkerId)
    requires w in t.workers && t.workers[w] == Worker(Idle, [], map[], {}, {})
    requires forall n :: 0 <= n < |t.topic| ==> t.topic[n].worker != w
    ensures WorkerInv(t, w)
  {
    hide Largest, Select;
    forall j ensures Tally(t.log, {}, j) == NOTHING {
      assert ValidRecords(t.log, {}, j) == {} && DeadRecords(t.log, {}, j) == {};
    }
  }

  lemma StepSpawn(s: State, w: WorkerId)
    requires Inv(s) && Enabled(s, Spawn(w))
    ensures Inv(Apply(s, Spawn(w)))
  {
    hide StreamCatalog.Inv;
    var t := Apply(s, Spawn(w));
    StreamCatalog.StepKeepsInv(s, Spawn(w));
    FreshWorker(t, w);
    OthersKeep(s, t, w);
  }

  lemma PollOwn(s: State, w: WorkerId, recs: seq<nat>)
    requires Enabled(s, Poll(w, recs)) && WorkerInv(s, w)
    ensures WorkerInv(Apply(s, Poll(w, recs)), w)
  {
    hide Largest, Tally;
    var poison := Select(s.log, recs, Poison);
    assert poison[..0] == [];
  }

  lemma BatchIsNew(s: State, w: WorkerId)
    requires Inv(s) && w in s.workers && s.workers[w].Active()
    ensures PollOk(s, w, s.workers[w].recs)
    ensures Ids(s.workers[w].recs) !! s.committed
  {
    assert StreamCatalog.WorkerInv(s, w);
  }

  lemma PoisonMatches(log: seq<Record>, recs: seq<nat>, n: nat, cleared: set<nat>, jobs: Counters)
    requires Within(log, recs) && Distinct(recs) && Ids(recs) !! cleared
    requires var poison := Select(log, recs, Poison);
             n < |poison| && Matches(log, cleared + Ids(poison[..n]), jobs)
    ensures var poison := Select(log, recs, Poison);
            && poison[n] < |log| && Matches(log, cleared + Ids(poison[..n + 1]), CountOne(jobs, log[poison[n]]))
            && cleared + Ids(poison[..n]) + {poison[n]} == cleared + Ids(poison[..n + 1])
            && Ids(poison[..n + 1]) <= Ids(recs)
  {
    hide Matches, KindOf, CountOne, Select;
    var poison := Select(log, recs, Poison);
    SelectMembers(log, recs, Poison);
    SelectDistinct(log, recs, Poison);
    SelectSound(log, recs, Poison);
    assert poison[n] in poison;
    assert poison[..n + 1] == poison[..n] + [poison[n]];
    assert Ids(poison[..n + 1]) == Ids(poison[..n]) + {poison[n]};
    assert cleared + Ids(poison[..n]) + {poison[n]} == cleared + Ids(poison[..n + 1]);
    CountOneMatches(log, cleared + Ids(poison[..n]), jobs, poison[n]);
  }

  lemma CountPoisonOwn(s: State, w: WorkerId)
    requires Enabled(s, CountPoison(w)) && WorkerInv(s, w)
    requires s.workers[w].Active() ==> PollOk(s, w, s.workers[w].recs) && Ids(s.workers[w].recs) !! s.committed
    ensures WorkerInv(Apply(s, CountPoison(w)), w)
  {
    hide ReportsInv, Matches;
    var t := Apply(s, CountPoison(w));
    var wk := s.workers[w];
    PoisonMatches(s.log, wk.recs, wk.phase.next, wk.cleared, wk.jobs);
    OwnKindChanges(s, CountPoison(w));
    CountingOnlyGrows(s, t, w);
  }

  // A worker that moves on without counting, reporting or committing.
  lemma KeepsCounts(s: State, t: State, w: WorkerId)
    requires OwnChange(s, t, w) && WorkerInv(s, w)
    requires t.workers[w] == s.workers[w].(phase := t.workers[w].phase)
    requires !t.workers[w].phase.Committing?
    requires CountedSoFar(t, t.workers[w])
    ensures WorkerInv(t, w)
  {
    hide Largest, Tally, Matches;
  }

  lemma PrefixIds(ids: seq<nat>, n: nat)
    requires n <= |ids|
    ensures Ids(ids[..n]) <= Ids(ids)
  {
  }

  // An active worker past its poison records has counted exactly those, until it counts the batch.
  lemma AllPoisonCounted(s: State, w: WorkerId, phase: Phase)
    requires w in s.workers && WorkerInv(s, w)
    requires match s.workers[w].phase
             case Poisoned(next, counted) => !counted && next == |Select(s.log, s.workers[w].recs, Poison)|
             case Rejecting(_) => true
             case Writing => true
             case _ => false
    requires phase.Rejecting? || phase.Writing? || phase.Written? || phase.Exiting?
    ensures CountedSoFar(s, s.workers[w].(phase := phase))
  {
    var poison := Select(s.log, s.workers[w].recs, Poison);
    SelectMembers(s.log, s.workers[w].recs, Poison);
    assert poison[..|poison|] == poison;
  }

  lemma PhaseOnlyOwn(s: State, step: Step)
    requires Enabled(s, step) && (step.PoisonDone? || step.InvalidDone?) && WorkerInv(s, step.w)
    ensures WorkerInv(Apply(s, step), step.w)
  {
    hide ReportsInv, Matches;
    var w := step.w;
    AllPoisonCounted(s, w, Apply(s, step).workers[w].phase);
    OwnKindChanges(s, step);
    KeepsCounts(s, Apply(s, step), w);
  }

  lemma DeadLetterInvalidOwn(s: State, w: WorkerId, acked: bool)
    requires Enabled(s, DeadLetterInvalid(w, acked)) && WorkerInv(s, w)
    ensures WorkerInv(Apply(s, DeadLetterInvalid(w, acked)), w)
  {
    hide ReportsInv, Matches;
    var t := Apply(s, DeadLetterInvalid(w, acked));
    AllPoisonCounted(s, w, t.workers[w].phase);
    OwnKindChanges(s, DeadLetterInvalid(w, acked));
    KeepsCounts(s, t, w);
  }

  lemma UpsertOwn(s: State, w: WorkerId, acked: bool)
    requires Enabled(s, Upsert(w, acked)) && WorkerInv(s, w)
    ensures WorkerInv(Apply(s, Upsert(w, acked)), w)
  {
    hide ReportsInv, Matches;
    var t := Apply(s, Upsert(w, acked));
    AllPoisonCounted(s, w, t.workers[w].phase);
    OwnKindChanges(s, Upsert(w, acked));
    KeepsCounts(s, t, w);
  }

  lemma DeadLetterPoisonOwn(s: State, w: WorkerId, acked: bool)
    requires Enabled(s, DeadLetterPoison(w, acked)) && WorkerInv(s, w)
    ensures WorkerInv(Apply(s, DeadLetterPoison(w, acked)), w)
  {
    hide ReportsInv, Matches;
    var poison := Select(s.log, s.workers[w].recs, Poison);
    SelectMembers(s.log, s.workers[w].recs, Poison);
    PrefixIds(poison, s.workers[w].phase.next + 1);
    OwnKindChanges(s, DeadLetterPoison(w, acked));
    KeepsCounts(s, Apply(s, DeadLetterPoison(w, acked)), w);
  }

  // Nothing is counted that is neither committed by the worker nor part of its poll.
  lemma CountedWithin(s: State, wk: Worker)
    requires HistoryInv(s, wk)
    ensures wk.counted <= wk.cleared + Ids(wk.recs)
  {
    var poison := Select(s.log, wk.recs, Poison);
    SelectMembers(s.log, wk.recs, Poison);
    if wk.phase.Poisoned? {
      PrefixIds(poison, if wk.phase.counted then wk.phase.next + 1 else wk.phase.next);
    }
  }

  lemma StopOwn(s: State, step: Step)
    requires Enabled(s, step) && (step.Fail? || step.Crash?) && WorkerInv(s, step.w)
    ensures WorkerInv(Apply(s, step), step.w)
  {
    hide ReportsInv, Matches;
    CountedWithin(s, s.workers[step.w]);
    OwnKindChanges(s, step);
    KeepsCounts(s, Apply(s, step), step.w);
  }

  lemma FlushOkOwn(s: State, w: WorkerId)
    requires Enabled(s, FlushOk(w)) && WorkerInv(s, w)
    ensures WorkerInv(Apply(s, FlushOk(w)), w)
  {
    hide Largest, Tally, Select;
    assert WorkerInv(s, w);
  }

  // Counting the poison records and then the valid and invalid events counts the whole poll.
  lemma BatchMatches(log: seq<Record>, recs: seq<nat>, cleared: set<nat>, jobs: Counters)
    requires Within(log, recs) && Distinct(recs) && Ids(recs) !! cleared
    requires Matches(log, cleared + Ids(Select(log, recs, Poison)), jobs)
    ensures var v, i := Select(log, recs, Valid), Select(log, recs, Invalid);
            && Within(log, v) && Within(log, i)
            && Matches(log, cleared + Ids(recs), CountAll(CountAll(jobs, At(log, v)), At(log, i)))
            && cleared + Ids(Select(log, recs, Poison)) + Ids(v) + Ids(i) == cleared + Ids(recs)
  {
    var p, v, i := Select(log, recs, Poison), Select(log, recs, Valid), Select(log, recs, Invalid);
    SelectMembers(log, recs, Poison);
    SelectMembers(log, recs, Valid);
    SelectMembers(log, recs, Invalid);
    SelectDistinct(log, recs, Valid);
    SelectDistinct(log, recs, Invalid);
    SelectSound(log, recs, Valid);
    SelectSound(log, recs, Invalid);
    CountAllMatches(log, cleared + Ids(p), jobs, v);
    CountAllMatches(log, cleared + Ids(p) + Ids(v), CountAll(jobs, At(log, v)), i);
    assert cleared + Ids(p) + Ids(v) + Ids(i) == cleared + Ids(recs);
  }

  lemma CountBatchOwn(s: State, w: WorkerId)
    requires Enabled(s, CountBatch(w)) && WorkerInv(s, w)
    requires s.workers[w].Active() ==> PollOk(s, w, s.workers[w].recs) && Ids(s.workers[w].recs) !! s.committed
    ensures WorkerInv(Apply(s, CountBatch(w)), w)
  {
    hide ReportsInv, Matches, Select, KindOf;
    var t := Apply(s, CountBatch(w));
    var wk := s.workers[w];
    BatchMatches(s.log, wk.recs, wk.cleared, wk.jobs);
    OwnKindChanges(s, CountBatch(w));
    CountingOnlyGrows(s, t, w);
  }

  // Reports stay below counters that only grow.
  lemma CountingOnlyGrows(s: State, t: State, w: WorkerId)
    requires OwnChange(s, t, w) && WorkerInv(s, w)
    requires s.workers[w].counted <= t.workers[w].counted
    requires Matches(t.log, t.workers[w].counted, t.workers[w].jobs)
    requires HistoryInv(t, t.workers[w]) && !t.workers[w].phase.Committing?
    ensures WorkerInv(t, w)
  {
    hide Largest, Tally, CountedSoFar;
    var before, after := s.workers[w], t.workers[w];
    forall j ensures CountsOf(before.jobs, j).AtMost(CountsOf(after.jobs, j)) {
      assert CountsOf(before.jobs, j) == Tally(s.log, before.counted, j);
      assert CountsOf(after.jobs, j) == Tally(s.log, after.counted, j);
      TallyMonotone(s.log, before.counted, after.counted, j);
    }
  }

  lemma TallyMonotone(log: seq<Record>, a: set<nat>, b: set<nat>, j: JobId)
    requires a <= b
    ensures Tally(log, a, j).AtMost(Tally(log, b, j))
  {
    SubsetSize(ValidRecords(log, a, j), ValidRecords(log, b, j));
    SubsetSize(DeadRecords(log, a, j), DeadRecords(log, b, j));
  }

  lemma CommitOwn(s: State, w: WorkerId, refused: set<nat>, acked: bool)
    requires Enabled(s, CommitOffsets(w, refused, acked)) && WorkerInv(s, w)
    ensures WorkerInv(Apply(s, CommitOffsets(w, refused, acked)), w)
  {
    hide Largest, Tally, Select, Kept, Left;
    var t := Apply(s, CommitOffsets(w, refused, acked));
    var wk := s.workers[w];
    LeftMembers(s.log, wk.recs, refused);
    LeftDistinct(s.log, wk.recs, refused);
    assert wk.counted == wk.cleared + Ids(wk.recs);
    assert t.workers[w].cleared <= wk.counted == t.workers[w].counted;
    forall j ensures Tally(t.log, t.workers[w].cleared, j).AtMost(Largest(t.topic, w, j)) {
      assert CountsOf(wk.jobs, j) == Tally(s.log, wk.counted, j);
      TallyMonotone(s.log, t.workers[w].cleared, wk.counted, j);
    }
  }

  lemma CommitCleared(s: State, w: WorkerId, refused: set<nat>, acked: bool)
    requires Inv(s) && Enabled(s, CommitOffsets(w, refused, acked))
    ensures ClearedInv(Apply(s, CommitOffsets(w, refused, acked)))
  {
    hide StreamCatalog.Inv, Largest, Tally, CountedSoFar, ReportsInv, Matches;
    var t := Apply(s, CommitOffsets(w, refused, acked));
    BatchIsNew(s, w);
    forall v | v in s.workers && v != w ensures t.workers[v].cleared !! t.workers[w].cleared {
      assert WorkerInv(s, v);
    }
    forall i | i in t.committed ensures exists v :: v in t.workers && i in t.workers[v].cleared {
      CommitCovers(s, w, refused, acked, i);
    }
  }

  lemma CommitCovers(s: State, w: WorkerId, refused: set<nat>, acked: bool, i: nat)
    requires ClearedInv(s) && Enabled(s, CommitOffsets(w, refused, acked))
    requires i in Apply(s, CommitOffsets(w, refused, acked)).committed
    ensures var t := Apply(s, CommitOffsets(w, refused, acked)); exists v :: v in t.workers && i in t.workers[v].cleared
  {
    var t := Apply(s, CommitOffsets(w, refused, acked));
    if i in s.committed {
      var v :| v in s.workers && i in s.workers[v].cleared;
      assert i in t.workers[v].cleared;
    } else {
      assert i in t.workers[w].cleared;
    }
  }

  lemma StepCommit(s: State, w: WorkerId, refused: set<nat>, acked: bool)
    requires Inv(s) && Enabled(s, CommitOffsets(w, refused, acked))
    ensures Inv(Apply(s, CommitOffsets(w, refused, acked)))
  {
    hide StreamCatalog.Inv, ClearedInv;
    var t := Apply(s, CommitOffsets(w, refused, acked));
    assert WorkerInv(s, w);
    StreamCatalog.StepKeepsInv(s, CommitOffsets(w, refused, acked));
    CommitOwn(s, w, refused, acked);
    CommitCleared(s, w, refused, acked);
    OthersKeep(s, t, w);
  }

  lemma AssignOwn(s: State, p: nat, w: WorkerId)
    requires Enabled(s, Assign(p, w)) && WorkerInv(s, w)
    ensures WorkerInv(Apply(s, Assign(p, w)), w)
  {
    hide Largest, Tally, Select;
    assert WorkerInv(s, w);
  }

  lemma OwnKeeps(s: State, step: Step)
    requires Enabled(s, step) && OwnKind(step) && step.w in s.workers && WorkerInv(s, step.w)
    requires s.workers[step.w].Active() ==>
               PollOk(s, step.w, s.workers[step.w].recs) && Ids(s.workers[step.w].recs) !! s.committed
    ensures step.w in Apply(s, step).workers && WorkerInv(Apply(s, step), step.w)
  {
    hide WorkerInv, PollOk;
    OwnKindChanges(s, step);
    match step
    case Assign(p, w) => AssignOwn(s, p, w);
    case Poll(w, recs) => PollOwn(s, w, recs);
    case CountPoison(w) => CountPoisonOwn(s, w);
    case DeadLetterPoison(w, acked) => DeadLetterPoisonOwn(s, w, acked);
    case DeadLetterInvalid(w, acked) => DeadLetterInvalidOwn(s, w, acked);
    case Upsert(w, acked) => UpsertOwn(s, w, acked);
    case CountBatch(w) => CountBatchOwn(s, w);
    case FlushOk(w) => FlushOkOwn(s, w);
    case Fail(_) => StopOwn(s, step);
    case Crash(_) => StopOwn(s, step);
    case _ => PhaseOnlyOwn(s, step);
  }

  lemma StepOwn(s: State, step: Step)
    requires Inv(s) && Enabled(s, step) && OwnKind(step)
    ensures Inv(Apply(s, step))
  {
    hide StreamCatalog.Inv, WorkerInv, Enabled, Apply, PollOk;
    OwnKindChanges(s, step);
    assert WorkerInv(s, step.w);
    if s.workers[step.w].Active() { BatchIsNew(s, step.w); }
    OwnKeeps(s, step);
    OwnStep(s, step, step.w);
  }

  lemma StepKeepsInv(s: State, step: Step)
    requires Inv(s) && Enabled(s, step) && !step.Reset?
    ensures Inv(Apply(s, step))
  {
    hide Inv, Enabled, Apply;
    match step
    case Append(rec) => StepAppend(s, rec);
    case Spawn(w) => StepSpawn(s, w);
    case Deliver(r) => StepDeliver(s, r);
    case CommitOffsets(w, refused, acked) => StepCommit(s, w, refused, acked);
    case _ => StepOwn(s, step);
  }

  lemma {:induction false} RunKeepsInv(s: State, steps: seq<Step>, t: State)
    requires Inv(s) && Reaches(s, steps, t) && StreamCatalog.NoReset(steps)
    ensures Inv(t)
    decreases |steps|
  {
    if steps != [] {
      StepKeepsInv(s, steps[0]);
      RunKeepsInv(Apply(s, steps[0]), steps[1..], t);
    }
  }

  // ---------------------------------------------------------------- sums over incarnations

  ghost function DeliveredBy(s: State, j: JobId): WorkerId -> nat {
    (w: WorkerId) => Largest(s.topic, w, j).Total()
  }

  ghost function CountedBy(s: State, j: JobId): WorkerId -> nat {
    (w: WorkerId) => if w in s.workers then CountsOf(s.workers[w].jobs, j).Total() else 0
  }

  // The sum over incarnations of each one's largest delivered report.
  ghost function Reported(s: State, j: JobId): nat {
    SumOver(s.workers.Keys, DeliveredBy(s, j))
  }

  ghost function Counted(s: State, j: JobId): nat {
    SumOver(s.workers.Keys, CountedBy(s, j))
  }

  ghost function CommittedOf(s: State, j: JobId): set<nat> {
    JobRecords(s.log, s.committed, j)
  }

  // Reports never trail commits: a worker's death strands no count of a committed record.
  lemma ReportsCoverCommits(s: State, j: JobId)
    requires Inv(s)
    ensures |CommittedOf(s, j)| <= Reported(s, j)
  {
    hide StreamCatalog.Inv;
    var part := map w | w in s.workers :: JobRecords(s.log, s.workers[w].cleared, j);
    forall w | w in s.workers ensures DeliveredBy(s, j)(w) >= |part[w]| {
      assert WorkerInv(s, w);
      TallyTotal(s.log, s.workers[w].cleared, j);
      assert Tally(s.log, s.workers[w].cleared, j).AtMost(Largest(s.topic, w, j));
    }
    forall i | i in CommittedOf(s, j) ensures exists w :: w in s.workers.Keys && i in part[w] {
      var w :| w in s.workers && i in s.workers[w].cleared;
      assert i in part[w];
    }
    SumOfCover(s.workers.Keys, part, DeliveredBy(s, j), CommittedOf(s, j));
  }

  lemma ReportedWithinCounted(s: State, j: JobId)
    requires Inv(s)
    ensures Reported(s, j) <= Counted(s, j)
  {
    hide StreamCatalog.Inv;
    forall w | w in s.workers ensures DeliveredBy(s, j)(w) <= CountedBy(s, j)(w) {
      assert WorkerInv(s, w);
      LargestBounds(s.topic, w, j, CountsOf(s.workers[w].jobs, j));
    }
    SumMonotone(s.workers.Keys, DeliveredBy(s, j), CountedBy(s, j));
  }

  // Workers holding a poll, alive or stopped in the middle of it.
  ghost function MidPoll(s: State): set<WorkerId> {
    set w | w in s.workers && s.workers[w].recs != []
  }

  // Workers that crashed or returned an error in the middle of a poll.
  ghost function Interrupted(s: State): set<WorkerId> {
    set w | w in s.workers && s.workers[w].recs != [] && !s.workers[w].Active()
  }

  // Records that a live worker has counted but not yet dead-lettered.
  ghost predicate Early(s: State, i: nat) {
    exists w :: w in s.workers && s.workers[w].phase.Poisoned? && s.workers[w].phase.counted &&
        Within(s.log, s.workers[w].recs) &&
                s.workers[w].phase.next < |Select(s.log, s.workers[w].recs, Poison)| &&
                Select(s.log, s.workers[w].recs, Poison)[s.workers[w].phase.next] == i
  }

  // Records written to the catalog or dead-lettered.
  ghost predicate Adjudicated(s: State, i: nat) {
    i < |s.log| && if KindOf(s.log[i]).Valid? then i in s.far else i in s.dlq
  }

  ghost function Known(s: State, j: JobId): set<nat> {
    set i | i in StreamCatalog.AllIds(s.log) && JobOf(s.log[i]) == Some(j) && (Adjudicated(s, i) || Early(s, i))
  }

  // What of a worker's history can be charged to adjudicated records.
  ghost function Charged(s: State, w: WorkerId): set<nat>
    requires w in s.workers
  {
    if w in Interrupted(s) then s.workers[w].cleared else s.workers[w].counted
  }

  lemma CommittedAdjudicated(s: State, i: nat)
    requires Inv(s) && i in s.committed
    ensures Adjudicated(s, i)
  {
  }

  // What an active worker counted beyond its commits is adjudicated, or is the poison record in hand.
  lemma CountedIsKnown(s: State, w: WorkerId, i: nat)
    requires w in s.workers && s.workers[w].Active()
    requires HistoryInv(s, s.workers[w]) && StreamCatalog.WorkerInv(s, w)
    requires i in s.workers[w].counted && i !in s.workers[w].cleared
    ensures i < |s.log| && (Adjudicated(s, i) || Early(s, i))
  {
    var wk := s.workers[w];
    var poison := Select(s.log, wk.recs, Poison);
    SelectMembers(s.log, wk.recs, Poison);
    if wk.phase.Poisoned? {
      var upTo := if wk.phase.counted then wk.phase.next + 1 else wk.phase.next;
      var n :| 0 <= n < upTo && poison[..upTo][n] == i;
      assert poison[n] in poison;
      assert n < wk.phase.next ==> poison[n] in s.dlq;
    } else if KindOf(s.log[i]).Poison? {
      assert i in poison;
    } else {
      SelectMembers(s.log, wk.recs, Invalid);
      assert i in wk.recs;
      if KindOf(s.log[i]).Invalid? { assert i in Select(s.log, wk.recs, Invalid); }
    }
  }

  lemma ChargedIsKnown(s: State, w: WorkerId, i: nat)
    requires Inv(s) && w in s.workers && i in Charged(s, w)
    ensures i < |s.log| && (Adjudicated(s, i) || Early(s, i))
  {
    assert WorkerInv(s, w) && StreamCatalog.WorkerInv(s, w);
    if i in s.workers[w].cleared {
      CommittedAdjudicated(s, i);
    } else {
      CountedIsKnown(s, w, i);
    }
  }

  // Charged records are committed by the worker itself or belong to its live poll.
  lemma ChargedSource(s: State, w: WorkerId, i: nat)
    requires Inv(s) && w in s.workers && i in Charged(s, w)
    ensures i in s.workers[w].cleared || (s.workers[w].Active() && i in s.workers[w].recs && i !in s.committed)
    ensures i in s.workers[w].cleared ==> i in s.committed
  {
    assert WorkerInv(s, w);
    CountedWithin(s, s.workers[w]);
    if s.workers[w].Active() { BatchIsNew(s, w); }
  }

  lemma ChargedApart(s: State, w: WorkerId, v: WorkerId)
    requires Inv(s) && w in s.workers && v in s.workers && w != v
    ensures Charged(s, w) !! Charged(s, v)
  {
    hide StreamCatalog.Inv;
    forall i | i in Charged(s, w) ensures i !in Charged(s, v) {
      ChargedSource(s, w, i);
      if i in Charged(s, v) {
        ChargedSource(s, v, i);
        if i !in s.committed { StreamCatalog.BatchesApart(s, w, v, i, i); }
      }
    }
  }

  ghost function ChargedBy(s: State, j: JobId): WorkerId -> nat {
    (w: WorkerId) => if w in s.workers then |JobRecords(s.log, Charged(s, w), j)| else 0
  }

  ghost function ExcessBy(s: State, j: JobId): WorkerId -> nat {
    (w: WorkerId) => if w in s.workers then |JobRecords(s.log, s.workers[w].counted - Charged(s, w), j)| else 0
  }

  lemma IdsSize(recs: seq<nat>)
    ensures |Ids(recs)| <= |recs|
  {
    if recs != [] {
      var n := |recs| - 1;
      IdsSize(recs[..n]);
      assert recs == recs[..n] + [recs[n]];
      assert Ids(recs) == Ids(recs[..n]) + {recs[n]};
    }
  }

  lemma JobSplit(log: seq<Record>, all: set<nat>, part: set<nat>, j: JobId)
    requires part <= all
    ensures |JobRecords(log, all, j)| == |JobRecords(log, part, j)| + |JobRecords(log, all - part, j)|
  {
    var a, b := JobRecords(log, part, j), JobRecords(log, all - part, j);
    assert JobRecords(log, all, j) == a + b;
    assert a !! b;
  }

  lemma JobWithinPoll(log: seq<Record>, ids: set<nat>, recs: seq<nat>, j: JobId)
    requires ids <= Ids(recs)
    ensures |JobRecords(log, ids, j)| <= |recs|
  {
    SubsetSize(JobRecords(log, ids, j), Ids(recs));
    IdsSize(recs);
  }

  lemma CountedSize(s: State, j: JobId, w: WorkerId)
    requires w in s.workers && WorkerInv(s, w)
    ensures CountedBy(s, j)(w) == |JobRecords(s.log, s.workers[w].counted, j)|
  {
    assert CountsOf(s.workers[w].jobs, j) == Tally(s.log, s.workers[w].counted, j);
    TallyTotal(s.log, s.workers[w].counted, j);
  }

  lemma ExcessBounded(s: State, j: JobId, w: WorkerId)
    requires w in s.workers && WorkerInv(s, w)
    ensures ExcessBy(s, j)(w) <= if w in Interrupted(s) then s.maxPoll else 0
    ensures CountedBy(s, j)(w) == ChargedBy(s, j)(w) + ExcessBy(s, j)(w)
  {
    var wk := s.workers[w];
    CountedSize(s, j, w);
    JobSplit(s.log, wk.counted, Charged(s, w), j);
    if w in Interrupted(s) {
      JobWithinPoll(s.log, wk.counted - wk.cleared, wk.recs, j);
    } else {
      assert JobRecords(s.log, wk.counted - wk.counted, j) == {};
    }
  }

  // The counters of all incarnations together claim at most the adjudicated records, one poll per
  // incarnation that stopped in the middle of one, and the poison records being dead-lettered now.
  lemma CountedIsAdjudicated(s: State, j: JobId)
    requires Inv(s)
    ensures Counted(s, j) <= |Known(s, j)| + |Interrupted(s)| * s.maxPoll
  {
    hide StreamCatalog.Inv;
    var ws := s.workers.Keys;
    forall w | w in ws
      ensures ExcessBy(s, j)(w) <= if w in Interrupted(s) then s.maxPoll else 0
      ensures CountedBy(s, j)(w) == ChargedBy(s, j)(w) + ExcessBy(s, j)(w)
    {
      assert WorkerInv(s, w);
      ExcessBounded(s, j, w);
    }
    SumAdd(ws, ChargedBy(s, j), ExcessBy(s, j), CountedBy(s, j));
    SumBounded(ws, Interrupted(s), ExcessBy(s, j), s.maxPoll);
    var part := map w | w in ws :: JobRecords(s.log, Charged(s, w), j);
    forall w | w in ws ensures part[w] <= Known(s, j) {
      forall i | i in part[w] ensures i in Known(s, j) { ChargedIsKnown(s, w, i); }
    }
    forall w, v | w in ws && v in ws && w != v ensures part[w] !! part[v] {
      ChargedApart(s, w, v);
    }
    SumOfParts(ws, part, ChargedBy(s, j), Known(s, j));
  }

  ghost function ClearedBy(s: State, j: JobId): WorkerId -> nat {
    (w: WorkerId) => if w in s.workers then |JobRecords(s.log, s.workers[w].cleared, j)| else 0
  }

  ghost function ResidueBy(s: State, j: JobId): WorkerId -> nat {
    (w: WorkerId) => if w in s.workers then |JobRecords(s.log, s.workers[w].counted - s.workers[w].cleared, j)| else 0
  }

  lemma ResidueBounded(s: State, j: JobId, w: WorkerId)
    requires w in s.workers && WorkerInv(s, w)
    ensures ResidueBy(s, j)(w) <= if w in MidPoll(s) then s.maxPoll else 0
    ensures CountedBy(s, j)(w) == ClearedBy(s, j)(w) + ResidueBy(s, j)(w)
  {
    var wk := s.workers[w];
    CountedSize(s, j, w);
    JobSplit(s.log, wk.counted, wk.cleared, j);
    CountedWithin(s, wk);
    JobWithinPoll(s.log, wk.counted - wk.cleared, wk.recs, j);
  }

  // Over-reporting is bounded: one poll per incarnation that holds or was stopped holding one.
  lemma OverReportBounded(s: State, j: JobId)
    requires Inv(s)
    ensures Reported(s, j) <= |CommittedOf(s, j)| + |MidPoll(s)| * s.maxPoll
  {
    hide StreamCatalog.Inv;
    var ws := s.workers.Keys;
    ReportedWithinCounted(s, j);
    forall w | w in ws
      ensures ResidueBy(s, j)(w) <= if w in MidPoll(s) then s.maxPoll else 0
      ensures CountedBy(s, j)(w) == ClearedBy(s, j)(w) + ResidueBy(s, j)(w)
    {
      assert WorkerInv(s, w);
      ResidueBounded(s, j, w);
    }
    SumAdd(ws, ClearedBy(s, j), ResidueBy(s, j), CountedBy(s, j));
    SumBounded(ws, MidPoll(s), ResidueBy(s, j), s.maxPoll);
    ClearedWithinCommitted(s, j);
  }

  lemma ClearedWithinCommitted(s: State, j: JobId)
    requires Inv(s)
    ensures SumOver(s.workers.Keys, ClearedBy(s, j)) <= |CommittedOf(s, j)|
  {
    hide StreamCatalog.Inv;
    var ws := s.workers.Keys;
    var part := map w | w in ws :: JobRecords(s.log, s.workers[w].cleared, j);
    forall w | w in ws ensures part[w] <= CommittedOf(s, j) { assert WorkerInv(s, w); }
    SumOfParts(ws, part, ClearedBy(s, j), CommittedOf(s, j));
  }

  // Both bounds, for every run without an offset reset and every job at once.
  lemma ReportsTrackCommits(maxPoll: nat, steps: seq<Step>, s: State, j: JobId)
    requires Reaches(Init(maxPoll), steps, s) && StreamCatalog.NoReset(steps)
    ensures |CommittedOf(s, j)| <= Reported(s, j) <= |CommittedOf(s, j)| + |MidPoll(s)| * maxPoll
  {
    assert Inv(Init(maxPoll));
    RunKeepsInv(Init(maxPoll), steps, s);
    MaxPollFixed(Init(maxPoll), steps, s);
    ReportsCoverCommits(s, j);
    OverReportBounded(s, j);
  }

  lemma {:induction false} MaxPollFixed(s: State, steps: seq<Step>, t: State)
    requires Reaches(s, steps, t)
    ensures t.maxPoll == s.maxPoll
    decreases |steps|
  {
    if steps != [] {
      MaxPollFixed(Apply(s, steps[0]), steps[1..], t);
    }
  }
}
