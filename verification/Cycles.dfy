// One cycle of a worker's loop, by what it leaves behind; and every such cycle is a run of the
// stream protocol.
module Cycles {
  import opened Events
  import opened Products
  import opened Upserts
  import opened Ledger
  import opened Stream

  // What one worker and the systems around it hold.
  datatype View = View(
    table: map<Key, Product>, letters: seq<Record>, counts: Counters, topic: seq<Report>, committed: set<nat>)

  // How a cycle ends: where it stopped, and whether the effect that was reported failed happened.
  datatype End =
    | PoisonStopped(n: nat, landed: bool)
    | InvalidStopped(n: nat, landed: bool)
    | Unwritten(landed: bool)
    | Unflushed(sent: seq<Report>)
    | Uncommitted(sent: seq<Report>, refused: set<nat>)  // the partitions whose offsets stay
    | Finished(sent: seq<Report>)

  // The records of one kind, in order.
  ghost function Chosen(recs: seq<Record>, kind: Kind): (r: seq<Record>)
    ensures forall i :: 0 <= i < |r| ==> KindOf(r[i]) == kind
  {
    if recs == [] then []
    else
      var rest := Chosen(recs[..|recs| - 1], kind);
      if KindOf(recs[|recs| - 1]) == kind then rest + [recs[|recs| - 1]] else rest
  }

  ghost function RowsIn(recs: seq<Record>): seq<Entry<Key, Product>>
    requires forall i :: 0 <= i < |recs| ==> KindOf(recs[i]).Valid?
  {
    seq(|recs|, i requires 0 <= i < |recs| => RowOf(recs[i]))
  }

  function Tried(recs: seq<Record>, n: nat, landed: bool): seq<Record>
    requires n < |recs|
  {
    if landed then recs[..n + 1] else recs[..n]
  }

  ghost predicate Possible(recs: seq<Record>, end: End) {
    match end
    case PoisonStopped(n, _) => n < |Chosen(recs, Poison)|
    case InvalidStopped(n, _) => n < |Chosen(recs, Invalid)|
    case _ => true
  }

  ghost function Adjudicated(v: View, recs: seq<Record>): View {
    var poison, invalid, valid := Chosen(recs, Poison), Chosen(recs, Invalid), Chosen(recs, Valid);
    v.(letters := v.letters + poison + invalid,
       counts := CountAll(CountAll(CountAll(v.counts, poison), valid), invalid),
       table := Fold(v.table, RowsIn(valid)))
  }

  ghost function After(v: View, log: seq<Record>, ids: seq<nat>, end: End): View
    requires Within(log, ids) && Possible(At(log, ids), end)
  {
    var recs := At(log, ids);
    var poison, invalid, valid := Chosen(recs, Poison), Chosen(recs, Invalid), Chosen(recs, Valid);
    match end
    case PoisonStopped(n, landed) =>
      // Poison is counted before it is dead-lettered.
      v.(counts := CountAll(v.counts, poison[..n + 1]), letters := v.letters + Tried(poison, n, landed))
    case InvalidStopped(n, landed) =>
      v.(counts := CountAll(v.counts, poison), letters := v.letters + poison + Tried(invalid, n, landed))
    case Unwritten(landed) =>
      v.(counts := CountAll(v.counts, poison), letters := v.letters + poison + invalid,
         table := if landed then Fold(v.table, RowsIn(valid)) else v.table)
    case Unflushed(sent) => Adjudicated(v, recs).(topic := v.topic + sent)
    case Uncommitted(sent, refused) =>
      Adjudicated(v, recs).(topic := v.topic + sent, committed := v.committed + Kept(log, ids, refused))
    case Finished(sent) => Adjudicated(v, recs).(topic := v.topic + sent, committed := v.committed + Ids(ids))
  }

  // A worker reports its own counters, and a confirmed flush leaves each of them on the topic.
  ghost predicate Reporting(v: View, w: WorkerId, recs: seq<Record>, end: End) {
    (end.Unflushed? || end.Uncommitted? || end.Finished?) ==>
      var counts := Adjudicated(v, recs).counts;
      && (forall n :: 0 <= n < |end.sent| ==>
          end.sent[n].worker == w && end.sent[n].counts.AtMost(CountsOf(counts, end.sent[n].job)))
      && (!end.Unflushed? ==> forall j :: j in counts ==> counts[j].AtMost(Largest(v.topic + end.sent, w, j)))
  }

  // ---------------------------------------------------------------- runs of the protocol

  // The steps a worker takes on its own; none of them changes the log or the group's membership.
  predicate OwnStep(step: Step) {
    !step.Append? && !step.Spawn? && !step.Assign? && !step.Reset?
  }

  ghost predicate Runs(s: State, steps: seq<Step>, t: State) {
    Reaches(s, steps, t) && forall n :: 0 <= n < |steps| ==> OwnStep(steps[n])
  }

  lemma {:induction false} RunsKeep(s: State, steps: seq<Step>, t: State)
    requires Runs(s, steps, t)
    ensures t.log == s.log && t.owner == s.owner && t.maxPoll == s.maxPoll
    decreases |steps|
  {
    if steps != [] {
      assert OwnStep(steps[0]);
      OwnStepKeeps(s, steps[0]);
      hide Enabled, Apply;
      forall n | 0 <= n < |steps[1..]| ensures OwnStep(steps[1..][n]) { assert steps[1..][n] == steps[n + 1]; }
      RunsKeep(Apply(s, steps[0]), steps[1..], t);
    }
  }

  lemma OwnStepKeeps(s: State, step: Step)
    requires Enabled(s, step) && OwnStep(step)
    ensures var t := Apply(s, step); t.log == s.log && t.owner == s.owner && t.maxPoll == s.maxPoll
  {
    hide PollOk, Select, Rows, CountAll, At, Ids, Fold;
  }

  lemma {:induction false} ReachesConcat(s: State, a: seq<Step>, t: State, b: seq<Step>, u: State)
    requires Runs(s, a, t) && Runs(t, b, u)
    ensures Runs(s, a + b, u)
    decreases |a|
  {
    hide Enabled, Apply;
    if a == [] {
      assert a + b == b;
    } else {
      assert OwnStep(a[0]);
      forall n | 0 <= n < |a[1..]| ensures OwnStep(a[1..][n]) { assert a[1..][n] == a[n + 1]; }
      ReachesConcat(Apply(s, a[0]), a[1..], t, b, u);
      assert (a + b)[1..] == a[1..] + b;
    }
  }

  lemma Snoc(s: State, steps: seq<Step>, t: State, step: Step)
    requires Runs(s, steps, t) && Enabled(t, step) && OwnStep(step)
    ensures Runs(s, steps + [step], Apply(t, step))
  {
    One(t, step);
    hide Enabled, Apply, OwnStep;
    ReachesConcat(s, steps, t, [step], Apply(t, step));
  }

  // A worker part of the way through its poison records.
  ghost function PastPoison(s: State, w: WorkerId, n: nat): State
    requires w in s.workers && Within(s.log, s.workers[w].recs) && n <= |Select(s.log, s.workers[w].recs, Poison)|
  {
    var wk := s.workers[w];
    var done := Select(s.log, wk.recs, Poison)[..n];
    SelectSound(s.log, wk.recs, Poison);
    With(s.(dlq := s.dlq + Ids(done)), w,
         wk.(phase := Poisoned(n, false),
             jobs := CountAll(wk.jobs, At(s.log, done)),
             counted := wk.counted + Ids(done)))
  }

  lemma OneMore(log: seq<Record>, ids: seq<nat>, n: nat, jobs: Counters)
    requires Within(log, ids) && n < |ids|
    ensures Ids(ids[..n + 1]) == Ids(ids[..n]) + {ids[n]}
    ensures CountAll(jobs, At(log, ids[..n + 1])) == CountOne(CountAll(jobs, At(log, ids[..n])), log[ids[n]])
  {
    hide CountOne;
    assert ids[..n + 1] == ids[..n] + [ids[n]];
    assert At(log, ids[..n + 1])[..n] == At(log, ids[..n]);
  }

  lemma PoisonOnce(s: State, w: WorkerId, n: nat)
    requires w in s.workers && Within(s.log, s.workers[w].recs) && n < |Select(s.log, s.workers[w].recs, Poison)|
    ensures var t := PastPoison(s, w, n);
            && Enabled(t, CountPoison(w)) && Enabled(Apply(t, CountPoison(w)), DeadLetterPoison(w, true))
            && Apply(Apply(t, CountPoison(w)), DeadLetterPoison(w, true)) == PastPoison(s, w, n + 1)
  {
    hide CountOne, CountAll, At, Ids, Select;
    var poison := Select(s.log, s.workers[w].recs, Poison);
    SelectSound(s.log, s.workers[w].recs, Poison);
    OneMore(s.log, poison, n, s.workers[w].jobs);
    var t := PastPoison(s, w, n);
    var u := Apply(Apply(t, CountPoison(w)), DeadLetterPoison(w, true));
    assert u.workers[w] == PastPoison(s, w, n + 1).workers[w];
    assert u.dlq == PastPoison(s, w, n + 1).dlq;
    assert u.workers == PastPoison(s, w, n + 1).workers;
  }

  lemma PastNone(s: State, w: WorkerId)
    requires w in s.workers && Within(s.log, s.workers[w].recs) && s.workers[w].phase == Poisoned(0, false)
    ensures PastPoison(s, w, 0) == s
  {
    assert Ids([]) == {} && s.workers[w := s.workers[w]] == s.workers;
    var none := Select(s.log, s.workers[w].recs, Poison)[..0];
    assert none == [] && At(s.log, none) == [];
    assert PastPoison(s, w, 0).workers[w] == s.workers[w];
  }

  lemma {:induction false} PoisonRun(s: State, w: WorkerId, n: nat) returns (steps: seq<Step>)
    requires w in s.workers && Within(s.log, s.workers[w].recs) && n <= |Select(s.log, s.workers[w].recs, Poison)|
    requires s.workers[w].phase == Poisoned(0, false)
    ensures Runs(s, steps, PastPoison(s, w, n))
    decreases n
  {
    if n == 0 {
      steps := [];
      PastNone(s, w);
    } else {
      steps := PoisonRun(s, w, n - 1);
      hide Enabled, Apply, PastPoison;
      PoisonOnce(s, w, n - 1);
      Snoc(s, steps, PastPoison(s, w, n - 1), CountPoison(w));
      Snoc(s, steps + [CountPoison(w)], Apply(PastPoison(s, w, n - 1), CountPoison(w)), DeadLetterPoison(w, true));
      steps := steps + [CountPoison(w)] + [DeadLetterPoison(w, true)];
    }
  }

  ghost function PastInvalid(s: State, w: WorkerId, n: nat): State
    requires w in s.workers && Within(s.log, s.workers[w].recs) && n <= |Select(s.log, s.workers[w].recs, Invalid)|
  {
    With(s.(dlq := s.dlq + Ids(Select(s.log, s.workers[w].recs, Invalid)[..n])), w,
         s.workers[w].(phase := Rejecting(n)))
  }

  lemma {:induction false} InvalidRun(s: State, w: WorkerId, n: nat) returns (steps: seq<Step>)
    requires w in s.workers && Within(s.log, s.workers[w].recs) && n <= |Select(s.log, s.workers[w].recs, Invalid)|
    requires s.workers[w].phase == Rejecting(0)
    ensures Runs(s, steps, PastInvalid(s, w, n))
    decreases n
  {
    hide Select;
    if n == 0 {
      steps := [];
      assert Ids([]) == {} && s.workers[w := s.workers[w]] == s.workers;
    } else {
      steps := InvalidRun(s, w, n - 1);
      var invalid, t := Select(s.log, s.workers[w].recs, Invalid), PastInvalid(s, w, n - 1);
      assert Ids(invalid[..n]) == Ids(invalid[..n - 1]) + {invalid[n - 1]} by {
        assert invalid[..n] == invalid[..n - 1] + [invalid[n - 1]];
      }
      assert Apply(t, DeadLetterInvalid(w, true)) == PastInvalid(s, w, n);
      Snoc(s, steps, t, DeadLetterInvalid(w, true));
      steps := steps + [DeadLetterInvalid(w, true)];
    }
  }

  lemma {:induction false} DeliverRun(s: State, w: WorkerId, sent: seq<Report>) returns (steps: seq<Step>)
    requires w in s.workers && !s.workers[w].phase.Dead?
    requires forall n :: 0 <= n < |sent| ==>
             sent[n].worker == w && sent[n].counts.AtMost(CountsOf(s.workers[w].jobs, sent[n].job))
    ensures Runs(s, steps, s.(topic := s.topic + sent))
  {
    if sent == [] {
      steps := [];
      assert s.topic + sent == s.topic;
    } else {
      var n := |sent| - 1;
      steps := DeliverRun(s, w, sent[..n]);
      Snoc(s, steps, s.(topic := s.topic + sent[..n]), Deliver(sent[n]));
      assert s.topic + sent[..n] + [sent[n]] == s.topic + sent;
      steps := steps + [Deliver(sent[n])];
    }
  }

  // ---------------------------------------------------------------- a cycle is a run

  ghost predicate Lettered(s: State, letters: seq<Record>) {
    && (forall i :: i in s.dlq ==> i < |s.log| && s.log[i] in letters)
    && (forall r :: r in letters ==> exists i :: i in s.dlq && i < |s.log| && s.log[i] == r)
  }

  // The view is what the protocol's state holds for this worker.
  ghost predicate Shows(s: State, w: WorkerId, v: View) {
    && w in s.workers
    && s.table == v.table && s.workers[w].jobs == v.counts && s.topic == v.topic && s.committed == v.committed
    && Lettered(s, v.letters)
  }

  // Where a stage of the cycle leaves the protocol: in a phase, holding the same poll.
  ghost predicate Stands(s: State, w: WorkerId, log: seq<Record>, ids: seq<nat>, phase: Phase, v: View) {
    && Shows(s, w, v)
    && s.log == log && Within(log, ids) && s.workers[w].recs == ids && s.workers[w].phase == phase
  }

  lemma LettersGrow(s: State, t: State, letters: seq<Record>, done: seq<nat>)
    requires Lettered(s, letters) && t.log == s.log && t.dlq == s.dlq + Ids(done) && Within(s.log, done)
    ensures Lettered(t, letters + At(s.log, done))
  {
    var more := letters + At(s.log, done);
    forall i | i in Ids(done) ensures i < |s.log| && s.log[i] in more {
      var n :| 0 <= n < |done| && done[n] == i;
      assert At(s.log, done)[n] == s.log[i];
      assert more[|letters| + n] == s.log[i];
    }
    forall r | r in more ensures exists i :: i in t.dlq && i < |t.log| && t.log[i] == r {
      if r !in letters {
        var n :| 0 <= n < |done| && At(s.log, done)[n] == r;
        assert done[n] in t.dlq && t.log[done[n]] == r;
      }
    }
  }

  lemma {:induction false} ChosenIsSelect(log: seq<Record>, ids: seq<nat>, kind: Kind)
    requires Within(log, ids)
    ensures Within(log, Select(log, ids, kind)) && Chosen(At(log, ids), kind) == At(log, Select(log, ids, kind))
  {
    SelectSound(log, ids, kind);
    if ids != [] {
      var n := |ids| - 1;
      ChosenIsSelect(log, ids[..n], kind);
      assert At(log, ids)[..n] == At(log, ids[..n]);
    }
  }

  lemma AtPrefix(log: seq<Record>, ids: seq<nat>, n: nat)
    requires Within(log, ids) && n <= |ids|
    ensures Within(log, ids[..n]) && At(log, ids[..n]) == At(log, ids)[..n]
  {
  }

  lemma PoisonStage(s: State, w: WorkerId, log: seq<Record>, ids: seq<nat>, v: View, n: nat)
      returns (steps: seq<Step>, t: State)
    requires Stands(s, w, log, ids, Poisoned(0, false), v)
    requires n <= |Chosen(At(log, ids), Poison)|
    ensures var done := Chosen(At(log, ids), Poison)[..n];
            Stands(t, w, log, ids, Poisoned(n, false),
                v.(counts := CountAll(v.counts, done), letters := v.letters + done))
    ensures Runs(s, steps, t)
  {
    hide CountAll, Select, Chosen, Lettered;
    ChosenIsSelect(log, ids, Poison);
    var poison := Select(log, ids, Poison);
    AtPrefix(log, poison, n);
    steps := PoisonRun(s, w, n);
    t := PastPoison(s, w, n);
    LettersGrow(s, t, v.letters, poison[..n]);
  }

  lemma InvalidStage(s: State, w: WorkerId, log: seq<Record>, ids: seq<nat>, v: View, n: nat)
      returns (steps: seq<Step>, t: State)
    requires Stands(s, w, log, ids, Rejecting(0), v)
    requires n <= |Chosen(At(log, ids), Invalid)|
    ensures Stands(t, w, log, ids, Rejecting(n), v.(letters := v.letters + Chosen(At(log, ids), Invalid)[..n]))
    ensures Runs(s, steps, t)
  {
    hide Select, Chosen, Lettered;
    ChosenIsSelect(log, ids, Invalid);
    var invalid := Select(log, ids, Invalid);
    AtPrefix(log, invalid, n);
    steps := InvalidRun(s, w, n);
    t := PastInvalid(s, w, n);
    LettersGrow(s, t, v.letters, invalid[..n]);
  }

  // Stopping: the worker drains and exits, nothing else changes.
  lemma FailStage(s: State, w: WorkerId, log: seq<Record>, ids: seq<nat>, phase: Phase, v: View) returns (t: State)
    requires Stands(s, w, log, ids, phase, v) && !phase.Exiting? && !phase.Dead?
    ensures Enabled(s, Fail(w)) && t == Apply(s, Fail(w)) && Stands(t, w, log, ids, Exiting, v)
  {
    t := Apply(s, Fail(w));
  }

  lemma LetterOne(s: State, t: State, letters: seq<Record>, i: nat)
    requires Lettered(s, letters) && t.log == s.log && t.dlq == s.dlq + {i} && i < |s.log|
    ensures Lettered(t, letters + [s.log[i]])
  {
    hide Lettered;
    assert Ids([i]) == {i} && At(s.log, [i]) == [s.log[i]];
    LettersGrow(s, t, letters, [i]);
  }

  // The n-th poison record is counted; dead-lettering it then fails, or seems to.
  lemma PoisonStop(s: State, w: WorkerId, log: seq<Record>, ids: seq<nat>, v: View, n: nat, landed: bool)
      returns (steps: seq<Step>, t: State)
    requires Stands(s, w, log, ids, Poisoned(n, false), v) && n < |Chosen(At(log, ids), Poison)|
    ensures var rec := Chosen(At(log, ids), Poison)[n];
            Stands(t, w, log, ids, Exiting,
                   v.(counts := CountOne(v.counts, rec), letters := if landed then v.letters + [rec] else v.letters))
    ensures Runs(s, steps, t)
  {
    hide CountOne, Select, Chosen, Lettered;
    ChosenIsSelect(log, ids, Poison);
    SelectSound(log, ids, Poison);
    var i := Select(log, ids, Poison)[n];
    var counted := Apply(s, CountPoison(w));
    var last := if landed then DeadLetterPoison(w, false) else Fail(w);
    t := Apply(counted, last);
    steps := [CountPoison(w), last];
    Two(s, CountPoison(w), last);
    if landed { LetterOne(s, t, v.letters, i); } else { LettersSame(s, t, v.letters); }
  }

  lemma LettersSame(s: State, t: State, letters: seq<Record>)
    requires Lettered(s, letters) && t.log == s.log && t.dlq == s.dlq
    ensures Lettered(t, letters)
  {
  }

  lemma One(s: State, a: Step)
    requires Enabled(s, a) && OwnStep(a)
    ensures Runs(s, [a], Apply(s, a))
  {
    hide Enabled, Apply;
    assert [a][1..] == [];
    assert Reaches(Apply(s, a), [], Apply(s, a));
    assert Reaches(s, [a], Apply(s, a));
  }

  lemma Two(s: State, a: Step, b: Step)
    requires Enabled(s, a) && OwnStep(a) && Enabled(Apply(s, a), b) && OwnStep(b)
    ensures Runs(s, [a, b], Apply(Apply(s, a), b))
  {
    hide Enabled, Apply;
    One(Apply(s, a), b);
    assert [a, b][1..] == [b];
  }

  lemma InvalidStop(s: State, w: WorkerId, log: seq<Record>, ids: seq<nat>, v: View, n: nat, landed: bool)
      returns (steps: seq<Step>, t: State)
    requires Stands(s, w, log, ids, Rejecting(n), v) && n < |Chosen(At(log, ids), Invalid)|
    ensures var rec := Chosen(At(log, ids), Invalid)[n];
            Stands(t, w, log, ids, Exiting, v.(letters := if landed then v.letters + [rec] else v.letters))
    ensures Runs(s, steps, t)
  {
    hide Select, Chosen, Lettered;
    ChosenIsSelect(log, ids, Invalid);
    SelectSound(log, ids, Invalid);
    var i := Select(log, ids, Invalid)[n];
    var last := if landed then DeadLetterInvalid(w, false) else Fail(w);
    t := Apply(s, last);
    steps := [last];
    One(s, last);
    if landed { LetterOne(s, t, v.letters, i); } else { LettersSame(s, t, v.letters); }
  }

  // Moving between phases with no effect outside the worker.
  lemma QuietStage(s: State, w: WorkerId, log: seq<Record>, ids: seq<nat>, v: View, step: Step) returns (t: State)
    requires Enabled(s, step) && (step.PoisonDone? || step.InvalidDone?) && step.w == w
    requires Stands(s, w, log, ids, s.workers[w].phase, v)
    ensures t == Apply(s, step) && Runs(s, [step], t)
    ensures Stands(t, w, log, ids, if step.PoisonDone? then Rejecting(0) else Writing, v)
  {
    hide Lettered;
    t := Apply(s, step);
    One(s, step);
    LettersSame(s, t, v.letters);
  }

  lemma UpsertStage(s: State, w: WorkerId, log: seq<Record>, ids: seq<nat>, v: View, acked: bool) returns (t: State)
    requires Stands(s, w, log, ids, Writing, v)
    ensures Enabled(s, Upsert(w, acked)) && t == Apply(s, Upsert(w, acked))
    ensures Stands(t, w, log, ids, if acked then Written else Writing,
                   v.(table := Fold(v.table, RowsIn(Chosen(At(log, ids), Valid)))))
  {
    hide Lettered, Select, Chosen, Fold, KindOf, RowOf;
    t := Apply(s, Upsert(w, acked));
    ChosenIsSelect(log, ids, Valid);
    SelectSound(log, ids, Valid);
    assert RowsIn(At(log, Select(log, ids, Valid))) == Rows(log, Select(log, ids, Valid));
    LettersSame(s, t, v.letters);
  }

  lemma CountStage(s: State, w: WorkerId, log: seq<Record>, ids: seq<nat>, v: View) returns (t: State)
    requires Stands(s, w, log, ids, Written, v)
    ensures Enabled(s, CountBatch(w)) && t == Apply(s, CountBatch(w))
    ensures var recs := At(log, ids);
            Stands(t, w, log, ids, Flushing,
                v.(counts := CountAll(CountAll(v.counts, Chosen(recs, Valid)), Chosen(recs, Invalid))))
  {
    hide Lettered, Select, Chosen, CountAll, KindOf;
    t := Apply(s, CountBatch(w));
    ChosenIsSelect(log, ids, Valid);
    ChosenIsSelect(log, ids, Invalid);
    LettersSame(s, t, v.letters);
  }

  lemma FlushStage(s: State, w: WorkerId, log: seq<Record>, ids: seq<nat>, v: View, sent: seq<Report>, confirmed: bool)
      returns (steps: seq<Step>, t: State)
    requires Stands(s, w, log, ids, Flushing, v)
    requires forall n :: 0 <= n < |sent| ==>
             sent[n].worker == w && sent[n].counts.AtMost(CountsOf(v.counts, sent[n].job))
    requires confirmed ==> forall j :: j in v.counts ==> v.counts[j].AtMost(Largest(v.topic + sent, w, j))
    ensures Stands(t, w, log, ids, if confirmed then Committing else Exiting, v.(topic := v.topic + sent))
    ensures Runs(s, steps, t)
  {
    hide Lettered, Largest;
    var told := s.(topic := s.topic + sent);
    var last := if confirmed then FlushOk(w) else Fail(w);
    steps := DeliverRun(s, w, sent);
    t := Apply(told, last);
    Snoc(s, steps, told, last);
    steps := steps + [last];
    LettersSame(s, t, v.letters);
  }

  lemma CommitStage(s: State, w: WorkerId, log: seq<Record>, ids: seq<nat>, v: View, refused: set<nat>, acked: bool)
      returns (step: Step, t: State)
    requires Stands(s, w, log, ids, Committing, v) && (acked ==> refused == {})
    ensures Runs(s, [step], t)
    ensures Shows(t, w, v.(committed := v.committed + Kept(log, ids, refused)))
    ensures t.workers[w].phase == if acked then Idle else Exiting
    ensures acked ==> Kept(log, ids, refused) == Ids(ids)
  {
    hide Lettered;
    LeftMembers(log, ids, refused);
    hide Ids, Kept, Left;
    step := CommitOffsets(w, refused, acked);
    t := Apply(s, step);
    One(s, step);
    LettersSame(s, t, v.letters);
  }

  lemma PollStage(s: State, w: WorkerId, ids: seq<nat>, v: View) returns (t: State)
    requires Shows(s, w, v) && s.workers[w].phase.Idle? && PollOk(s, w, ids)
    ensures Stands(t, w, s.log, ids, Poisoned(0, false), v) && Runs(s, [Poll(w, ids)], t)
  {
    hide Lettered, PollOk;
    t := Apply(s, Poll(w, ids));
    assert Within(s.log, ids) by { PollWithin(s, w, ids); }
    One(s, Poll(w, ids));
    LettersSame(s, t, v.letters);
  }

  lemma PollWithin(s: State, w: WorkerId, ids: seq<nat>)
    requires PollOk(s, w, ids)
    ensures Within(s.log, ids)
  {
  }

  // Past the undecodable records, about to reject the invalid ones.
  lemma ToRejecting(s: State, w: WorkerId, ids: seq<nat>, v: View) returns (steps: seq<Step>, t: State)
    requires Shows(s, w, v) && s.workers[w].phase.Idle? && PollOk(s, w, ids)
    ensures Within(s.log, ids)
    ensures var poison := Chosen(At(s.log, ids), Poison);
            Stands(t, w, s.log, ids, Rejecting(0),
                v.(counts := CountAll(v.counts, poison), letters := v.letters + poison))
    ensures Runs(s, steps, t)
  {
    hide PollOk, Lettered, Chosen, CountAll, Select;
    PollWithin(s, w, ids);
    var log, poison := s.log, Chosen(At(s.log, ids), Poison);
    var polled := PollStage(s, w, ids, v);
    ChosenIsSelect(log, ids, Poison);
    var more, read := PoisonStage(polled, w, log, ids, v, |poison|);
    assert poison[..|poison|] == poison;
    ReachesConcat(s, [Poll(w, ids)], polled, more, read);
    var v1 := v.(counts := CountAll(v.counts, poison), letters := v.letters + poison);
    t := QuietStage(read, w, log, ids, v1, PoisonDone(w));
    steps := [Poll(w, ids)] + more + [PoisonDone(w)];
    ReachesConcat(s, [Poll(w, ids)] + more, read, [PoisonDone(w)], t);
  }

  // Past the validation split, about to write.
  lemma ToWriting(s: State, w: WorkerId, ids: seq<nat>, v: View) returns (steps: seq<Step>, t: State)
    requires Shows(s, w, v) && s.workers[w].phase.Idle? && PollOk(s, w, ids)
    ensures Within(s.log, ids)
    ensures var poison, invalid := Chosen(At(s.log, ids), Poison), Chosen(At(s.log, ids), Invalid);
            Stands(t, w, s.log, ids, Writing,
                   v.(counts := CountAll(v.counts, poison), letters := v.letters + poison + invalid))
    ensures Runs(s, steps, t)
  {
    hide PollOk, Lettered, Chosen, CountAll, Select;
    PollWithin(s, w, ids);
    var log, poison, invalid := s.log, Chosen(At(s.log, ids), Poison), Chosen(At(s.log, ids), Invalid);
    var v1 := v.(counts := CountAll(v.counts, poison), letters := v.letters + poison);
    var first, u := ToRejecting(s, w, ids, v);
    ChosenIsSelect(log, ids, Invalid);
    var more, rejected := InvalidStage(u, w, log, ids, v1, |invalid|);
    assert invalid[..|invalid|] == invalid;
    ReachesConcat(s, first, u, more, rejected);
    t := QuietStage(rejected, w, log, ids, v1.(letters := v1.letters + invalid), InvalidDone(w));
    steps := first + more + [InvalidDone(w)];
    ReachesConcat(s, first + more, rejected, [InvalidDone(w)], t);
  }

  // Written and counted, about to report.
  lemma ToFlushing(s: State, w: WorkerId, ids: seq<nat>, v: View) returns (steps: seq<Step>, t: State)
    requires Shows(s, w, v) && s.workers[w].phase.Idle? && PollOk(s, w, ids)
    ensures Within(s.log, ids) && Stands(t, w, s.log, ids, Flushing, Adjudicated(v, At(s.log, ids)))
    ensures Runs(s, steps, t)
  {
    hide PollOk, Lettered, Chosen, CountAll, Enabled, Apply, Fold, RowsIn, Select;
    PollWithin(s, w, ids);
    var log, recs := s.log, At(s.log, ids);
    var first, u := ToWriting(s, w, ids, v);
    var v1 := v.(counts := CountAll(v.counts, Chosen(recs, Poison)),
                 letters := v.letters + Chosen(recs, Poison) + Chosen(recs, Invalid));
    var written := UpsertStage(u, w, log, ids, v1, true);
    t := CountStage(written, w, log, ids, v1.(table := Fold(v1.table, RowsIn(Chosen(recs, Valid)))));
    Two(u, Upsert(w, true), CountBatch(w));
    steps := first + [Upsert(w, true), CountBatch(w)];
    ReachesConcat(s, first, u, [Upsert(w, true), CountBatch(w)], t);
  }

  ghost predicate Ends(s: State, t: State, w: WorkerId, steps: seq<Step>, v: View, end: End) {
    Runs(s, steps, t) && Shows(t, w, v) && t.workers[w].phase == if end.Finished? then Idle else Exiting
  }

  lemma PoisonStoppedIsRun(s: State, w: WorkerId, ids: seq<nat>, v: View, end: End) returns (steps: seq<Step>, t: State)
    requires Shows(s, w, v) && s.workers[w].phase.Idle? && PollOk(s, w, ids) && Within(s.log, ids)
    requires Possible(At(s.log, ids), end) && end.PoisonStopped?
    ensures Ends(s, t, w, steps, After(v, s.log, ids, end), end)
  {
    hide PollOk, Lettered, Chosen, CountAll, CountOne, Select;
    var log, poison := s.log, Chosen(At(s.log, ids), Poison);
    var polled := PollStage(s, w, ids, v);
    var more, read := PoisonStage(polled, w, log, ids, v, end.n);
    ReachesConcat(s, [Poll(w, ids)], polled, more, read);
    var v1 := v.(counts := CountAll(v.counts, poison[..end.n]), letters := v.letters + poison[..end.n]);
    var last, u := PoisonStop(read, w, log, ids, v1, end.n, end.landed);
    ReachesConcat(s, [Poll(w, ids)] + more, read, last, u);
    steps, t := [Poll(w, ids)] + more + last, u;
    CountSnoc(v.counts, poison, end.n);
    assert poison[..end.n + 1] == poison[..end.n] + [poison[end.n]];
    assert v.letters + poison[..end.n] + [poison[end.n]] == v.letters + poison[..end.n + 1];
  }

  lemma CountSnoc(counts: Counters, recs: seq<Record>, n: nat)
    requires n < |recs|
    ensures CountAll(counts, recs[..n + 1]) == CountOne(CountAll(counts, recs[..n]), recs[n])
  {
    assert recs[..n + 1][..n] == recs[..n];
  }

  lemma InvalidStoppedIsRun(s: State, w: WorkerId, ids: seq<nat>, v: View, end: End)
      returns (steps: seq<Step>, t: State)
    requires Shows(s, w, v) && s.workers[w].phase.Idle? && PollOk(s, w, ids) && Within(s.log, ids)
    requires Possible(At(s.log, ids), end) && end.InvalidStopped?
    ensures Ends(s, t, w, steps, After(v, s.log, ids, end), end)
  {
    hide PollOk, Lettered, Chosen, CountAll, CountOne, Select;
    var log, poison, invalid := s.log, Chosen(At(s.log, ids), Poison), Chosen(At(s.log, ids), Invalid);
    var v1 := v.(counts := CountAll(v.counts, poison), letters := v.letters + poison);
    var first, u := ToRejecting(s, w, ids, v);
    var more, read := InvalidStage(u, w, log, ids, v1, end.n);
    ReachesConcat(s, first, u, more, read);
    var last, z := InvalidStop(read, w, log, ids, v1.(letters := v1.letters + invalid[..end.n]), end.n, end.landed);
    ReachesConcat(s, first + more, read, last, z);
    steps, t := first + more + last, z;
    assert invalid[..end.n + 1] == invalid[..end.n] + [invalid[end.n]];
    assert v1.letters + invalid[..end.n] + [invalid[end.n]] == v1.letters + invalid[..end.n + 1];
  }

  lemma UnwrittenIsRun(s: State, w: WorkerId, ids: seq<nat>, v: View, end: End) returns (steps: seq<Step>, t: State)
    requires Shows(s, w, v) && s.workers[w].phase.Idle? && PollOk(s, w, ids) && Within(s.log, ids)
    requires end.Unwritten?
    ensures Ends(s, t, w, steps, After(v, s.log, ids, end), end)
  {
    hide PollOk, Lettered, Chosen, CountAll, Enabled, Apply, Fold, RowsIn, Select;
    var log, recs := s.log, At(s.log, ids);
    var v1 := v.(counts := CountAll(v.counts, Chosen(recs, Poison)),
                 letters := v.letters + Chosen(recs, Poison) + Chosen(recs, Invalid));
    var first, u := ToWriting(s, w, ids, v);
    if end.landed {
      var v2 := v1.(table := Fold(v1.table, RowsIn(Chosen(recs, Valid))));
      var written := UpsertStage(u, w, log, ids, v1, false);
      t := FailStage(written, w, log, ids, Writing, v2);
      Two(u, Upsert(w, false), Fail(w));
      ReachesConcat(s, first, u, [Upsert(w, false), Fail(w)], t);
      steps := first + [Upsert(w, false), Fail(w)];
    } else {
      t := FailStage(u, w, log, ids, Writing, v1);
      Snoc(s, first, u, Fail(w));
      steps := first + [Fail(w)];
    }
  }

  lemma FlushedIsRun(s: State, w: WorkerId, ids: seq<nat>, v: View, end: End) returns (steps: seq<Step>, t: State)
    requires Shows(s, w, v) && s.workers[w].phase.Idle? && PollOk(s, w, ids) && Within(s.log, ids)
    requires end.Unflushed? || end.Uncommitted? || end.Finished?
    requires Reporting(v, w, At(s.log, ids), end)
    ensures Ends(s, t, w, steps, After(v, s.log, ids, end), end)
  {
    hide PollOk, Lettered, Adjudicated, Largest;
    var log, v1 := s.log, Adjudicated(v, At(s.log, ids));
    assert v1.topic == v.topic && v1.committed == v.committed by { AdjudicatedKeeps(v, At(s.log, ids)); }
    var first, u := ToFlushing(s, w, ids, v);
    var more, told := FlushStage(u, w, log, ids, v1, end.sent, !end.Unflushed?);
    ReachesConcat(s, first, u, more, told);
    if end.Unflushed? {
      steps, t := first + more, told;
    } else {
      var refused := if end.Finished? then {} else end.refused;
      var step, z := CommitStage(told, w, log, ids, v1.(topic := v1.topic + end.sent), refused, end.Finished?);
      ReachesConcat(s, first + more, told, [step], z);
      steps, t := first + more + [step], z;
    }
  }

  lemma AdjudicatedKeeps(v: View, recs: seq<Record>)
    ensures Adjudicated(v, recs).topic == v.topic && Adjudicated(v, recs).committed == v.committed
  {
  }

  // However a cycle of the loop ends, what it leaves behind is what some run of the protocol
  // leaves behind, so every theorem about the protocol's runs is about the loop.
  lemma CycleIsRun(s: State, w: WorkerId, ids: seq<nat>, v: View, end: End) returns (steps: seq<Step>, t: State)
    requires Shows(s, w, v) && s.workers[w].phase.Idle? && PollOk(s, w, ids) && Within(s.log, ids)
    requires Possible(At(s.log, ids), end) && Reporting(v, w, At(s.log, ids), end)
    ensures Ends(s, t, w, steps, After(v, s.log, ids, end), end)
  {
    hide *;
    match end
    case PoisonStopped(_, _) => steps, t := PoisonStoppedIsRun(s, w, ids, v, end);
    case InvalidStopped(_, _) => steps, t := InvalidStoppedIsRun(s, w, ids, v, end);
    case Unwritten(_) => steps, t := UnwrittenIsRun(s, w, ids, v, end);
    case _ => steps, t := FlushedIsRun(s, w, ids, v, end);
  }
}
