// What the worker group can still be made to report about a job: runs that read an uncommitted record
// again and again, and runs that deliver every counter there is.
module Feeding {
  import opened Wrappers
  import opened Events
  import opened Products
  import opened Ledger
  import opened Sums
  import opened Stream
  import StreamCatalog
  import StreamCounts
  import C = Cycles

  // Steps of the group alone: nothing is published, no offset is reset.
  predicate Calm(step: Step) {
    !step.Append? && !step.Reset?
  }

  ghost predicate Calmly(s: State, steps: seq<Step>, t: State) {
    Reaches(s, steps, t) && forall n :: 0 <= n < |steps| ==> Calm(steps[n])
  }

  lemma CalmStep(s: State, step: Step)
    requires Enabled(s, step) && Calm(step)
    ensures var t := Apply(s, step);
            && t.log == s.log && t.maxPoll == s.maxPoll && s.workers.Keys <= t.workers.Keys
            && s.topic <= t.topic && s.committed <= t.committed
  {
    hide PollOk, Select, Rows, CountAll, CountOne, At, Ids, Within;
  }

  lemma {:induction false} CalmRun(s: State, steps: seq<Step>, t: State)
    requires Calmly(s, steps, t)
    ensures t.log == s.log && t.maxPoll == s.maxPoll && s.workers.Keys <= t.workers.Keys
    ensures s.topic <= t.topic && s.committed <= t.committed
    ensures StreamCounts.Inv(s) ==> StreamCounts.Inv(t)
    decreases |steps|
  {
    hide Enabled, Apply, StreamCounts.Inv;
    if steps != [] {
      assert Calm(steps[0]);
      CalmStep(s, steps[0]);
      if StreamCounts.Inv(s) { StreamCounts.StepKeepsInv(s, steps[0]); }
      forall n | 0 <= n < |steps[1..]| ensures Calm(steps[1..][n]) { assert steps[1..][n] == steps[n + 1]; }
      CalmRun(Apply(s, steps[0]), steps[1..], t);
    }
  }

  lemma CalmCons(s: State, step: Step, rest: seq<Step>, t: State)
    requires Enabled(s, step) && Calm(step) && Calmly(Apply(s, step), rest, t)
    ensures Calmly(s, [step] + rest, t)
  {
    hide Enabled, Apply;
    assert ([step] + rest)[1..] == rest;
  }

  lemma {:induction false} CalmConcat(s: State, a: seq<Step>, t: State, b: seq<Step>, u: State)
    requires Calmly(s, a, t) && Calmly(t, b, u)
    ensures Calmly(s, a + b, u)
    decreases |a|
  {
    hide Enabled, Apply;
    if a == [] {
      assert a + b == b;
    } else {
      assert Calm(a[0]);
      forall n | 0 <= n < |a[1..]| ensures Calm(a[1..][n]) { assert a[1..][n] == a[n + 1]; }
      CalmConcat(Apply(s, a[0]), a[1..], t, b, u);
      assert (a + b)[1..] == a[1..] + b;
    }
  }

  lemma Rests(s: State)
    ensures Calmly(s, [], s)
  {
  }

  lemma OwnIsCalm(s: State, steps: seq<Step>, t: State)
    requires C.Runs(s, steps, t)
    ensures Calmly(s, steps, t)
  {
    forall n | 0 <= n < |steps| ensures Calm(steps[n]) { assert C.OwnStep(steps[n]); }
  }

  // ---------------------------------------------------------------- reading one record

  // The record is the next of its partition.
  ghost predicate Next(s: State, i: nat) {
    && i < |s.log| && i !in s.committed
    && forall m: nat :: m < i && s.log[m].partition == s.log[i].partition ==> m in s.committed
  }

  // The partition can be taken over.
  predicate Free(s: State, partition: nat) {
    partition in s.owner && s.owner[partition] in s.workers ==> !s.workers[s.owner[partition]].Active()
  }

  lemma Frees(s: State, partition: nat) returns (steps: seq<Step>, t: State)
    ensures Calmly(s, steps, t) && Free(t, partition) && t.committed == s.committed
  {
    if Free(s, partition) {
      steps, t := [], s;
    } else {
      var w := s.owner[partition];
      t := Apply(s, Crash(w));
      CalmCons(s, Crash(w), [], t);
      steps := [Crash(w)] + [];
    }
  }

  function Repeated(n: nat): WorkerId {
    seq(n, _ => 'w')
  }

  // There is always another worker id.
  lemma {:induction false} FreshId(ws: set<WorkerId>, n: nat) returns (w: WorkerId)
    ensures w !in ws && |w| >= n
    decreases |ws|
  {
    w := Repeated(n);
    if w in ws {
      w := FreshId(ws - {w}, n + 1);
    }
  }

  lemma {:induction false} Letters(log: seq<Record>, ids: set<nat>) returns (letters: seq<Record>)
    requires forall i :: i in ids ==> i < |log|
    ensures forall i :: i in ids ==> log[i] in letters
    ensures forall r :: r in letters ==> exists i :: i in ids && i < |log| && log[i] == r
    decreases |ids|
  {
    if ids == {} {
      letters := [];
    } else {
      var i :| i in ids;
      var rest := Letters(log, ids - {i});
      letters := rest + [log[i]];
    }
  }

  lemma ChosenOne(rec: Record, kind: Kind)
    ensures C.Chosen([rec], kind) == if KindOf(rec) == kind then [rec] else []
  {
    assert [rec][..0] == [];
  }

  // A fresh worker's counters after one record.
  lemma CountsOfOne(v: C.View, rec: Record)
    requires v.counts == map[]
    ensures C.Adjudicated(v, [rec]).counts == CountOne(map[], rec)
  {
    hide KindOf, JobOf, CountOne, C.Chosen;
    ChosenOne(rec, Poison);
    ChosenOne(rec, Invalid);
    ChosenOne(rec, Valid);
    assert forall jobs :: CountAll(jobs, [rec]) == CountOne(jobs, rec) by {
      forall jobs ensures CountAll(jobs, [rec]) == CountOne(jobs, rec) { assert [rec][..0] == []; }
    }
  }

  function OneReport(w: WorkerId, rec: Record): seq<Report> {
    match JobOf(rec)
    case None => []
    case Some(j) => [Report(j, w, CountsOf(CountOne(map[], rec), j))]
  }

  lemma LargestOfReport(topic: seq<Report>, w: WorkerId, rec: Record)
    ensures forall j :: JobOf(rec) == Some(j) ==>
              && CountsOf(CountOne(map[], rec), j).AtMost(Largest(topic + OneReport(w, rec), w, j))
              && CountsOf(CountOne(map[], rec), j).Total() == 1
  {
    forall j | JobOf(rec) == Some(j)
      ensures CountsOf(CountOne(map[], rec), j).AtMost(Largest(topic + OneReport(w, rec), w, j))
    {
      assert (topic + OneReport(w, rec))[..|topic|] == topic;
    }
  }

  lemma OneReporting(v: C.View, w: WorkerId, rec: Record, end: C.End)
    requires v.counts == map[]
    requires (end.Unflushed? || end.Finished?) && end.sent == OneReport(w, rec)
    ensures C.Possible([rec], end) && C.Reporting(v, w, [rec], end)
  {
    hide KindOf, Largest, CountAll, C.Adjudicated, C.Chosen;
    CountsOfOne(v, rec);
    LargestOfReport(v.topic, w, rec);
    var counts := C.Adjudicated(v, [rec]).counts;
    forall j | j in counts ensures counts[j].AtMost(Largest(v.topic + end.sent, w, j)) {
      assert JobOf(rec) == Some(j);
    }
  }

  lemma ViewOf(s: State) returns (letters: seq<Record>)
    requires StreamCounts.Inv(s)
    ensures C.Lettered(s, letters)
  {
    hide StreamCatalog.TableInv, StreamCatalog.WorkerInv, StreamCatalog.SetsInv, StreamCounts.WorkerInv;
    letters := Letters(s.log, s.dlq);
  }

  // A new worker takes the partition over.
  lemma TakeOver(s: State, i: nat, w: WorkerId) returns (v: State)
    requires s.maxPoll > 0 && Next(s, i) && Free(s, s.log[i].partition) && w !in s.workers
    ensures Calmly(s, [Spawn(w)] + ([Assign(s.log[i].partition, w)] + []), v)
    ensures v == s.(workers := v.workers, owner := s.owner[s.log[i].partition := w])
    ensures w in v.workers && v.workers[w] == Worker(Idle, [], map[], {}, {})
    ensures PollOk(v, w, [i])
  {
    var u := Apply(s, Spawn(w));
    v := Apply(u, Assign(s.log[i].partition, w));
    CalmCons(u, Assign(s.log[i].partition, w), [], v);
    CalmCons(s, Spawn(w), [Assign(s.log[i].partition, w)] + [], v);
  }

  // And reads one record.
  lemma Reads(v: State, w: WorkerId, i: nat, letters: seq<Record>, finish: bool) returns (steps: seq<Step>, t: State)
    requires w in v.workers && v.workers[w] == Worker(Idle, [], map[], {}, {}) && C.Lettered(v, letters)
    requires i < |v.log| && PollOk(v, w, [i])
    ensures Calmly(v, steps, t) && t.owner == v.owner && w in t.workers && !t.workers[w].Active()
    ensures t.committed == (if finish then v.committed + {i} else v.committed)
    ensures t.topic == v.topic + OneReport(w, v.log[i])
  {
    hide PollOk, OneReport, C.Runs, C.Lettered, C.Chosen, C.Adjudicated, C.Possible, C.Reporting;
    var rec := v.log[i];
    var view := C.View(v.table, letters, map[], v.topic, v.committed);
    var end := if finish then C.Finished(OneReport(w, rec)) else C.Unflushed(OneReport(w, rec));
    assert Within(v.log, [i]) && At(v.log, [i]) == [rec];
    OneReporting(view, w, rec, end);
    steps, t := C.CycleIsRun(v, w, [i], view, end);
    C.RunsKeep(v, steps, t);
    OwnIsCalm(v, steps, t);
    C.AdjudicatedKeeps(view, [rec]);
    assert Ids([i]) == {i};
  }

  // A new worker, given the partition, reads its next record, reports, and then commits it or stops.
  lemma ReadOne(s: State, i: nat, finish: bool) returns (steps: seq<Step>, t: State, w: WorkerId)
    requires StreamCounts.Inv(s) && s.maxPoll > 0 && Next(s, i) && Free(s, s.log[i].partition)
    ensures Calmly(s, steps, t) && w !in s.workers && w in t.workers
    ensures t.committed == (if finish then s.committed + {i} else s.committed)
    ensures Free(t, s.log[i].partition) && t.topic == s.topic + OneReport(w, s.log[i])
  {
    var letters := ViewOf(s);
    hide StreamCounts.Inv, Calmly, PollOk, OneReport;
    w := FreshId(s.workers.Keys, 0);
    var v := TakeOver(s, i, w);
    assert C.Lettered(v, letters);
    var more;
    more, t := Reads(v, w, i, letters, finish);
    steps := [Spawn(w)] + ([Assign(s.log[i].partition, w)] + []);
    CalmConcat(s, steps, v, more, t);
    steps := steps + more;
  }

  // ---------------------------------------------------------------- reading a record again and again

  ghost predicate ReadUpTo(s: State, partition: nat, n: nat) {
    forall m: nat :: m < n && m < |s.log| && s.log[m].partition == partition ==> m in s.committed
  }

  // The records before it are read and committed one by one.
  lemma {:induction false} Approach(s: State, i: nat, n: nat) returns (steps: seq<Step>, t: State)
    requires StreamCounts.Inv(s) && s.maxPoll > 0 && i < |s.log| && n <= i && i !in s.committed
    requires Free(s, s.log[i].partition)
    ensures Calmly(s, steps, t) && i !in t.committed && Free(t, s.log[i].partition)
    ensures t.log == s.log && ReadUpTo(t, s.log[i].partition, n)
    decreases n
  {
    hide StreamCounts.Inv, Calmly, Free, OneReport;
    if n == 0 {
      steps, t := [], s;
      Rests(s);
    } else {
      var partition := s.log[i].partition;
      steps, t := Approach(s, i, n - 1);
      CalmRun(s, steps, t);
      if s.log[n - 1].partition == partition && n - 1 !in t.committed {
        var u, more, w := t, [], "";
        more, t, w := ReadOne(u, n - 1, true);
        CalmRun(u, more, t);
        CalmConcat(s, steps, u, more, t);
        steps := steps + more;
      }
    }
  }

  // An uncommitted record can be read and reported by any number of workers, each stopping before the
  // commit, so the reports of its job can reach any number.
  lemma {:induction false} Rereads(s: State, i: nat, j: JobId, n: nat) returns (steps: seq<Step>, t: State)
    requires StreamCounts.Inv(s) && s.maxPoll > 0 && Next(s, i) && Free(s, s.log[i].partition)
    requires JobOf(s.log[i]) == Some(j)
    ensures Calmly(s, steps, t) && StreamCounts.Reported(t, j) >= n
    ensures Next(t, i) && Free(t, s.log[i].partition)
    decreases n
  {
    hide StreamCounts.Inv, Calmly, Free, OneReport, StreamCounts.Reported;
    if n == 0 {
      steps, t := [], s;
      Rests(s);
    } else {
      var u, first := s, [];
      first, u := Rereads(s, i, j, n - 1);
      CalmRun(s, first, u);
      var more, w;
      more, t, w := ReadOne(u, i, false);
      CalmRun(u, more, t);
      CalmConcat(s, first, u, more, t);
      steps := first + more;
      OneMoreReported(u, t, w, j, s.log[i]);
    }
  }

  lemma OneMoreReported(u: State, t: State, w: WorkerId, j: JobId, rec: Record)
    requires u.workers.Keys <= t.workers.Keys && w !in u.workers && w in t.workers
    requires t.topic == u.topic + OneReport(w, rec) && JobOf(rec) == Some(j)
    ensures StreamCounts.Reported(t, j) >= StreamCounts.Reported(u, j) + 1
  {
    var f, g := StreamCounts.DeliveredBy(u, j), StreamCounts.DeliveredBy(t, j);
    LargestOfReport(u.topic, w, rec);
    assert g(w) >= 1;
    forall v | v in u.workers.Keys ensures f(v) <= g(v) {
      LargestPrefix(u.topic, t.topic, v, j);
    }
    SumRemove(t.workers.Keys, g, w);
    SumWider(u.workers.Keys, t.workers.Keys - {w}, f, g);
  }

  lemma {:induction false} LargestPrefix(topic: seq<Report>, longer: seq<Report>, w: WorkerId, j: JobId)
    requires topic <= longer
    ensures Largest(topic, w, j).AtMost(Largest(longer, w, j))
    decreases |longer|
  {
    if |topic| == |longer| {
      assert topic == longer;
    } else {
      LargestPrefix(topic, longer[..|longer| - 1], w, j);
    }
  }

  lemma ReportsReach(s: State, i: nat, j: JobId, n: nat) returns (steps: seq<Step>, t: State)
    requires StreamCounts.Inv(s) && s.maxPoll > 0 && i < |s.log| && i !in s.committed && JobOf(s.log[i]) == Some(j)
    ensures Calmly(s, steps, t) && StreamCounts.Reported(t, j) >= n
  {
    hide StreamCounts.Inv, Calmly, Free, StreamCounts.Reported;
    var first, u := Frees(s, s.log[i].partition);
    CalmRun(s, first, u);
    var second, v := Approach(u, i, i);
    CalmRun(u, second, v);
    CalmConcat(s, first, u, second, v);
    var third;
    third, t := Rereads(v, i, j, n);
    CalmConcat(s, first + second, v, third, t);
    steps := first + second + third;
  }

  // ---------------------------------------------------------------- what is still to come

  // The most a worker's reports can come to without more counting: a dead one delivers nothing any more.
  ghost function DueBy(s: State, j: JobId): WorkerId -> nat {
    (w: WorkerId) =>
      if w !in s.workers || s.workers[w].phase.Dead? then Largest(s.topic, w, j).Total()
      else CountsOf(s.workers[w].jobs, j).Total()
  }

  ghost function Due(s: State, j: JobId): nat {
    SumOver(s.workers.Keys, DueBy(s, j))
  }

  lemma DeliverOne(s: State, j: JobId, w: WorkerId) returns (steps: seq<Step>, t: State)
    requires w in s.workers && !s.workers[w].phase.Dead?
    ensures Calmly(s, steps, t) && t == s.(topic := t.topic) && s.topic <= t.topic
    ensures CountsOf(s.workers[w].jobs, j).AtMost(Largest(t.topic, w, j))
  {
    var r := Report(j, w, CountsOf(s.workers[w].jobs, j));
    t := Apply(s, Deliver(r));
    CalmCons(s, Deliver(r), [], t);
    steps := [Deliver(r)] + [];
    assert t.topic[..|s.topic|] == s.topic;
  }

  lemma {:induction false} DeliverAll(s: State, j: JobId, ws: set<WorkerId>) returns (steps: seq<Step>, t: State)
    requires ws <= s.workers.Keys
    ensures Calmly(s, steps, t) && t == s.(topic := t.topic) && s.topic <= t.topic
    ensures forall w :: w in ws && !s.workers[w].phase.Dead? ==>
              CountsOf(s.workers[w].jobs, j).AtMost(Largest(t.topic, w, j))
    decreases |ws|
  {
    if ws == {} {
      steps, t := [], s;
    } else {
      var w :| w in ws;
      var u, first := s, [];
      first, u := DeliverAll(s, j, ws - {w});
      hide Calmly, Largest, CountsOf;
      if s.workers[w].phase.Dead? {
        steps, t := first, u;
      } else {
        var more;
        more, t := DeliverOne(u, j, w);
        CalmConcat(s, first, u, more, t);
        steps := first + more;
        forall v | v in ws && !s.workers[v].phase.Dead?
          ensures CountsOf(s.workers[v].jobs, j).AtMost(Largest(t.topic, v, j))
        {
          LargestPrefix(u.topic, t.topic, v, j);
        }
      }
    }
  }

  // Without anything being read, the reports can come to exactly what is due.
  lemma DueIsReached(s: State, j: JobId) returns (steps: seq<Step>, t: State)
    ensures Calmly(s, steps, t) && StreamCounts.Reported(t, j) >= Due(s, j)
  {
    hide Calmly;
    steps, t := DeliverAll(s, j, s.workers.Keys);
    forall w | w in s.workers.Keys ensures DueBy(s, j)(w) <= StreamCounts.DeliveredBy(t, j)(w) {
      LargestPrefix(s.topic, t.topic, w, j);
    }
    SumMonotone(s.workers.Keys, DueBy(s, j), StreamCounts.DeliveredBy(t, j));
  }

  lemma ReportedWithinDue(s: State, j: JobId)
    requires StreamCounts.Inv(s)
    ensures StreamCounts.Reported(s, j) <= Due(s, j)
  {
    hide StreamCatalog.Inv;
    forall w | w in s.workers.Keys ensures StreamCounts.DeliveredBy(s, j)(w) <= DueBy(s, j)(w) {
      assert StreamCounts.WorkerInv(s, w);
      LargestBounds(s.topic, w, j, CountsOf(s.workers[w].jobs, j));
    }
    SumMonotone(s.workers.Keys, StreamCounts.DeliveredBy(s, j), DueBy(s, j));
  }

  // ---------------------------------------------------------------- when nothing more can come

  // Every record of the job is committed, or nothing is ever polled.
  ghost predicate Exhausted(s: State, j: JobId) {
    s.maxPoll == 0 || forall i :: 0 <= i < |s.log| && JobOf(s.log[i]) == Some(j) ==> i in s.committed
  }

  lemma {:induction false} CountOthers(jobs: Counters, recs: seq<Record>, j: JobId)
    requires forall n :: 0 <= n < |recs| ==> JobOf(recs[n]) != Some(j)
    ensures CountsOf(CountAll(jobs, recs), j) == CountsOf(jobs, j)
  {
    if recs != [] {
      CountOthers(jobs, recs[..|recs| - 1], j);
    }
  }

  lemma PollOfOthers(s: State, w: WorkerId, j: JobId)
    requires Exhausted(s, j) && w in s.workers && PollOk(s, w, s.workers[w].recs)
    ensures forall i :: i in s.workers[w].recs ==> i < |s.log| && JobOf(s.log[i]) != Some(j)
  {
    hide JobOf;
  }

  lemma PoisonOfOthers(s: State, w: WorkerId, j: JobId)
    requires Exhausted(s, j) && Enabled(s, CountPoison(w)) && PollOk(s, w, s.workers[w].recs)
    ensures CountsOf(Apply(s, CountPoison(w)).workers[w].jobs, j) == CountsOf(s.workers[w].jobs, j)
  {
    hide PollOk, Exhausted;
    var poison := Select(s.log, s.workers[w].recs, Poison);
    var i := poison[s.workers[w].phase.next];
    SelectMembers(s.log, s.workers[w].recs, Poison);
    assert i in poison;
    PollOfOthers(s, w, j);
  }

  lemma BatchOfOthers(s: State, w: WorkerId, j: JobId)
    requires Exhausted(s, j) && Enabled(s, CountBatch(w)) && PollOk(s, w, s.workers[w].recs)
    ensures CountsOf(Apply(s, CountBatch(w)).workers[w].jobs, j) == CountsOf(s.workers[w].jobs, j)
  {
    hide PollOk, Exhausted, CountAll, JobOf, KindOf, Select;
    var recs := s.workers[w].recs;
    PollOfOthers(s, w, j);
    SelectSound(s.log, recs, Valid);
    SelectSound(s.log, recs, Invalid);
    SelectMembers(s.log, recs, Valid);
    SelectMembers(s.log, recs, Invalid);
    var valid, invalid := Select(s.log, recs, Valid), Select(s.log, recs, Invalid);
    forall n | 0 <= n < |valid| ensures JobOf(s.log[valid[n]]) != Some(j) { assert valid[n] in valid; }
    forall n | 0 <= n < |invalid| ensures JobOf(s.log[invalid[n]]) != Some(j) { assert invalid[n] in invalid; }
    CountOthers(s.workers[w].jobs, At(s.log, valid), j);
    CountOthers(CountAll(s.workers[w].jobs, At(s.log, valid)), At(s.log, invalid), j);
  }

  lemma CountsStay(s: State, step: Step, w: WorkerId, j: JobId)
    requires StreamCounts.Inv(s) && Exhausted(s, j) && Enabled(s, step) && w in s.workers
    ensures w in Apply(s, step).workers
    ensures CountsOf(Apply(s, step).workers[w].jobs, j) == CountsOf(s.workers[w].jobs, j)
  {
    hide StreamCounts.Inv, Exhausted, CountOne, CountAll, Select, PollOk, KindOf;
    if (step.CountPoison? || step.CountBatch?) && step.w == w {
      StreamCounts.BatchIsNew(s, w);
      hide Apply;
      if step.CountPoison? { PoisonOfOthers(s, w, j); } else { BatchOfOthers(s, w, j); }
    } else {
      assert w in Apply(s, step).workers;
    }
  }

  // Whether a worker is dead, and its reports if it is.
  lemma DeadStays(s: State, step: Step, w: WorkerId, j: JobId)
    requires Enabled(s, step) && w in s.workers && w in Apply(s, step).workers
    ensures s.workers[w].phase.Dead? ==>
              Apply(s, step).workers[w].phase.Dead? && Largest(Apply(s, step).topic, w, j) == Largest(s.topic, w, j)
    ensures Apply(s, step).workers[w].phase.Dead? && !s.workers[w].phase.Dead? ==> Apply(s, step).topic == s.topic
  {
    hide PollOk, Select, CountAll, CountOne, KindOf, JobOf, Rows, At, Ids, CountsOf;
    if step.Deliver? { assert Apply(s, step).topic[..|s.topic|] == s.topic; }
  }

  lemma DueOfOne(s: State, step: Step, w: WorkerId, j: JobId)
    requires StreamCounts.Inv(s) && Exhausted(s, j) && Enabled(s, step) && w in s.workers
    ensures DueBy(Apply(s, step), j)(w) <= DueBy(s, j)(w)
  {
    hide Enabled, Apply, Exhausted, StreamCatalog.Inv;
    CountsStay(s, step, w, j);
    DeadStays(s, step, w, j);
    assert StreamCounts.WorkerInv(s, w);
    LargestBounds(s.topic, w, j, CountsOf(s.workers[w].jobs, j));
  }

  lemma DueOfNew(s: State, step: Step, w: WorkerId, j: JobId)
    requires Enabled(s, step) && w !in s.workers && w in Apply(s, step).workers
    ensures DueBy(Apply(s, step), j)(w) == 0
  {
    hide PollOk, Select, CountAll, CountOne, KindOf, Rows, At, Ids, Largest;
    assert step == Spawn(w);
  }

  // Then what is due only shrinks.
  lemma DueShrinks(s: State, step: Step, j: JobId)
    requires StreamCounts.Inv(s) && Exhausted(s, j) && Enabled(s, step) && !step.Reset?
    requires step.Append? ==> JobOf(step.rec) != Some(j)
    ensures Exhausted(Apply(s, step), j) && Due(Apply(s, step), j) <= Due(s, j)
  {
    hide StreamCounts.Inv;
    var t := Apply(s, step);
    StaysExhausted(s, step, j);
    hide Enabled, Apply, Exhausted;
    forall w | w in t.workers.Keys ensures DueBy(t, j)(w) == 0 || (w in s.workers && DueBy(t, j)(w) <= DueBy(s, j)(w)) {
      if w in s.workers { DueOfOne(s, step, w, j); } else { DueOfNew(s, step, w, j); }
    }
    SumWider(t.workers.Keys, s.workers.Keys, DueBy(t, j), DueBy(s, j));
  }

  lemma StaysExhausted(s: State, step: Step, j: JobId)
    requires Exhausted(s, j) && Enabled(s, step) && !step.Reset?
    requires step.Append? ==> JobOf(step.rec) != Some(j)
    ensures Exhausted(Apply(s, step), j)
  {
    if !step.Append? {
      CalmStep(s, step);
      hide Enabled, Apply;
    } else {
      hide JobOf, WellRouted;
    }
  }
}
