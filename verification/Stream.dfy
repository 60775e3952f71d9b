// The stream side of the pipeline as a protocol: the product log, the consumer group of catalog
// workers with every crash point between two of their effects, the catalog table, the dead letter
// topic, the progress topic and the replay tool.
//
// Records are named by their place in the global publish order. A partition's committed offset is
// represented by the records below it: a set that is downward closed within each partition.
// An effect that a caller believes failed may still have happened; `acked` says what it believes.
// An effect that did not happen is the step Fail alone.
module Stream {
  import opened Events
  import opened Products
  import opened Upserts
  import opened Ledger

  // Where a worker stands in its poll cycle.
  datatype Phase =
    | Idle                                // before a poll
    | Poisoned(next: nat, counted: bool)  // dead-lettering undecodable records, one at a time
    | Rejecting(next: nat)                // dead-lettering invalid events
    | Writing                             // before or between attempts at the batch statement
    | Written                             // the statement was confirmed, nothing counted yet
    | Flushing                            // counted, progress not yet confirmed
    | Committing                          // progress confirmed, offsets not yet committed
    | Exiting                             // returned from the loop; only the exit drain runs
    | Dead

  // One worker incarnation. `counted` and `cleared` are its history: the records in its counters
  // and the records whose offsets it committed. `recs` stays behind when the worker stops mid-poll.
  datatype Worker = Worker(phase: Phase, recs: seq<nat>, jobs: Counters, counted: set<nat>, cleared: set<nat>) {
    predicate Active() {
      !phase.Idle? && !phase.Exiting? && !phase.Dead?
    }

    predicate Wrote() {
      phase.Written? || phase.Flushing? || phase.Committing?
    }
  }

  // `far` is every record that a poll was ever written through to; `dropped` is the part of it
  // that a truncation removed from the table without its offsets being reset.
  datatype State = State(
    maxPoll: nat,
    log: seq<Record>,
    committed: set<nat>,
    owner: map<nat, WorkerId>,
    workers: map<WorkerId, Worker>,
    table: map<Key, Product>,
    dlq: set<nat>,
    far: set<nat>,
    dropped: set<nat>,
    topic: seq<Report>)

  function Init(maxPoll: nat): State {
    State(maxPoll, [], {}, map[], map[], map[], {}, {}, {}, [])
  }

  // ---------------------------------------------------------------- reading a poll

  function Select(log: seq<Record>, recs: seq<nat>, kind: Kind): seq<nat>
    requires Within(log, recs)
  {
    if recs == [] then []
    else
      var n := |recs| - 1;
      var rest := Select(log, recs[..n], kind);
      if KindOf(log[recs[n]]) == kind then rest + [recs[n]] else rest
  }

  function RowOf(rec: Record): Entry<Key, Product>
    requires KindOf(rec).Valid?
  {
    var p := FromEvent(rec.body.evt).value;
    Entry(p.NaturalKey(), p)
  }

  ghost function Rows(log: seq<Record>, ids: seq<nat>): seq<Entry<Key, Product>>
    requires Within(log, ids)
    requires forall n :: 0 <= n < |ids| ==> KindOf(log[ids[n]]).Valid?
  {
    seq(|ids|, n requires 0 <= n < |ids| => RowOf(log[ids[n]]))
  }

  // Within a partition, a poll delivers records in log order.
  ghost predicate InPartitionOrder(log: seq<Record>, recs: seq<nat>)
    requires Within(log, recs)
  {
    forall a, b :: 0 <= a < b < |recs| && log[recs[a]].partition == log[recs[b]].partition ==> recs[a] < recs[b]
  }

  lemma {:induction false} SelectMembers(log: seq<Record>, recs: seq<nat>, kind: Kind)
    requires Within(log, recs)
    ensures forall i :: i in Select(log, recs, kind) <==> i in recs && KindOf(log[i]) == kind
  {
    hide KindOf;
    if recs != [] {
      var n := |recs| - 1;
      SelectMembers(log, recs[..n], kind);
      assert forall i :: i in recs <==> i in recs[..n] || i == recs[n];
    }
  }

  lemma {:induction false} SelectDistinct(log: seq<Record>, recs: seq<nat>, kind: Kind)
    requires Within(log, recs) && Distinct(recs)
    ensures Distinct(Select(log, recs, kind))
  {
    hide KindOf;
    if recs != [] {
      var n := |recs| - 1;
      SelectDistinct(log, recs[..n], kind);
      SelectMembers(log, recs[..n], kind);
    }
  }

  lemma {:induction false} SelectInOrder(log: seq<Record>, recs: seq<nat>, kind: Kind)
    requires Within(log, recs) && InPartitionOrder(log, recs)
    ensures Within(log, Select(log, recs, kind)) && InPartitionOrder(log, Select(log, recs, kind))
  {
    hide KindOf;
    SelectSound(log, recs, kind);
    if recs != [] {
      var n := |recs| - 1;
      SelectInOrder(log, recs[..n], kind);
      SelectMembers(log, recs[..n], kind);
      InOrderSnoc(log, recs, Select(log, recs[..n], kind));
    }
  }

  lemma InOrderSnoc(log: seq<Record>, recs: seq<nat>, rest: seq<nat>)
    requires recs != [] && Within(log, recs) && InPartitionOrder(log, recs)
    requires Within(log, rest) && InPartitionOrder(log, rest)
    requires forall i :: i in rest ==> i in recs[..|recs| - 1]
    ensures InPartitionOrder(log, rest + [recs[|recs| - 1]])
  {
    var n := |recs| - 1;
    forall a | 0 <= a < |rest| && log[rest[a]].partition == log[recs[n]].partition
      ensures rest[a] < recs[n]
    {
      assert rest[a] in rest;
      assert rest[a] in recs[..n];
      var b :| 0 <= b < n && recs[b] == rest[a];
    }
  }

  lemma SelectSound(log: seq<Record>, recs: seq<nat>, kind: Kind)
    requires Within(log, recs)
    ensures Within(log, Select(log, recs, kind))
    ensures forall n :: 0 <= n < |Select(log, recs, kind)| ==> KindOf(log[Select(log, recs, kind)[n]]) == kind
  {
    SelectMembers(log, recs, kind);
    forall n | 0 <= n < |Select(log, recs, kind)|
      ensures Select(log, recs, kind)[n] < |log| && KindOf(log[Select(log, recs, kind)[n]]) == kind
    {
      assert Select(log, recs, kind)[n] in Select(log, recs, kind);
    }
  }

  ghost predicate DownClosed(log: seq<Record>, ids: set<nat>) {
    forall i: nat, j: nat :: i in ids && i < |log| && j < i && log[j].partition == log[i].partition ==> j in ids
  }

  // What one poll may return: up to maxPoll records of the worker's own partitions, starting at
  // the committed offsets and leaving no gap.
  ghost predicate PollOk(s: State, w: WorkerId, recs: seq<nat>) {
    && 0 < |recs| <= s.maxPoll
    && Within(s.log, recs)
    && Distinct(recs)
    && InPartitionOrder(s.log, recs)
    && (forall n :: 0 <= n < |recs| ==>
          && recs[n] !in s.committed
          && s.log[recs[n]].partition in s.owner
          && s.owner[s.log[recs[n]].partition] == w)
    && (forall n, j :: 0 <= n < |recs| && 0 <= j < recs[n] && s.log[j].partition == s.log[recs[n]].partition ==>
          j in s.committed || j in recs)
  }

  // The records of a poll whose partitions accept the commit, and the others.
  ghost function Kept(log: seq<Record>, recs: seq<nat>, refused: set<nat>): set<nat> {
    set i | i in recs && i < |log| && log[i].partition !in refused
  }

  ghost function Left(log: seq<Record>, recs: seq<nat>, refused: set<nat>): seq<nat>
    requires Within(log, recs)
  {
    if recs == [] then []
    else
      var n := |recs| - 1;
      var rest := Left(log, recs[..n], refused);
      if log[recs[n]].partition in refused then rest + [recs[n]] else rest
  }

  lemma {:induction false} LeftMembers(log: seq<Record>, recs: seq<nat>, refused: set<nat>)
    requires Within(log, recs)
    ensures forall i :: i in Left(log, recs, refused) <==> i in recs && log[i].partition in refused
    ensures |Left(log, recs, refused)| <= |recs|
    ensures Kept(log, recs, refused) + Ids(Left(log, recs, refused)) == Ids(recs)
    ensures refused == {} ==> Left(log, recs, refused) == [] && Kept(log, recs, refused) == Ids(recs)
  {
    if recs != [] {
      var n := |recs| - 1;
      LeftMembers(log, recs[..n], refused);
      assert forall i :: i in recs <==> i in recs[..n] || i == recs[n];
    }
  }

  lemma {:induction false} LeftDistinct(log: seq<Record>, recs: seq<nat>, refused: set<nat>)
    requires Within(log, recs) && Distinct(recs)
    ensures Within(log, Left(log, recs, refused)) && Distinct(Left(log, recs, refused))
  {
    LeftMembers(log, recs, refused);
    if recs != [] {
      var n := |recs| - 1;
      LeftDistinct(log, recs[..n], refused);
      LeftMembers(log, recs[..n], refused);
    }
    forall n | 0 <= n < |Left(log, recs, refused)| ensures Left(log, recs, refused)[n] < |log| {
      assert Left(log, recs, refused)[n] in Left(log, recs, refused);
    }
  }

  // Producers route by the product's key, so equal keys share a partition.
  ghost predicate WellRouted(log: seq<Record>) {
    forall i, j :: 0 <= i < |log| && 0 <= j < |log| && log[i].body.Decoded? && log[j].body.Decoded? &&
                   log[i].body.evt.product.PartitionKey() == log[j].body.evt.product.PartitionKey() ==>
                     log[i].partition == log[j].partition
  }

  // ---------------------------------------------------------------- steps

  datatype Step =
    | Append(rec: Record)
    | Spawn(w: WorkerId)
    | Assign(p: nat, w: WorkerId)
    | Poll(w: WorkerId, recs: seq<nat>)
    | CountPoison(w: WorkerId)
    | DeadLetterPoison(w: WorkerId, acked: bool)
    | PoisonDone(w: WorkerId)
    | DeadLetterInvalid(w: WorkerId, acked: bool)
    | InvalidDone(w: WorkerId)
    | Upsert(w: WorkerId, acked: bool)
    | CountBatch(w: WorkerId)
    | Deliver(r: Report)
    | FlushOk(w: WorkerId)
    | CommitOffsets(w: WorkerId, refused: set<nat>, acked: bool)
    | Fail(w: WorkerId)
    | Crash(w: WorkerId)
    | Reset(truncate: bool, refused: set<nat>)

  ghost predicate Enabled(s: State, step: Step) {
    match step
    case Append(rec) => WellRouted(s.log + [rec])
    case Spawn(w) => w !in s.workers
    case Assign(p, w) =>
      && w in s.workers && !s.workers[w].phase.Exiting? && !s.workers[w].phase.Dead?
      && (p in s.owner && s.owner[p] in s.workers ==> !s.workers[s.owner[p]].Active())
    case Poll(w, recs) => w in s.workers && s.workers[w].phase.Idle? && PollOk(s, w, recs)
    case CountPoison(w) =>
      w in s.workers && Within(s.log, s.workers[w].recs) &&
      var wk := s.workers[w];
      wk.phase.Poisoned? && !wk.phase.counted && wk.phase.next < |Select(s.log, wk.recs, Poison)|
    case DeadLetterPoison(w, _) =>
      w in s.workers && Within(s.log, s.workers[w].recs) &&
      var wk := s.workers[w];
      wk.phase.Poisoned? && wk.phase.counted && wk.phase.next < |Select(s.log, wk.recs, Poison)|
    case PoisonDone(w) =>
      w in s.workers && Within(s.log, s.workers[w].recs) &&
      s.workers[w].phase == Poisoned(|Select(s.log, s.workers[w].recs, Poison)|, false)
    case DeadLetterInvalid(w, _) =>
      w in s.workers && Within(s.log, s.workers[w].recs) &&
      var wk := s.workers[w];
      wk.phase.Rejecting? && wk.phase.next < |Select(s.log, wk.recs, Invalid)|
    case InvalidDone(w) =>
      w in s.workers && Within(s.log, s.workers[w].recs) &&
      s.workers[w].phase == Rejecting(|Select(s.log, s.workers[w].recs, Invalid)|)
    case Upsert(w, _) => w in s.workers && s.workers[w].phase.Writing? && Within(s.log, s.workers[w].recs)
    case CountBatch(w) => w in s.workers && s.workers[w].phase.Written? && Within(s.log, s.workers[w].recs)
    case Deliver(r) =>
      r.worker in s.workers && !s.workers[r.worker].phase.Dead? &&
      r.counts.AtMost(CountsOf(s.workers[r.worker].jobs, r.job))
    case FlushOk(w) =>
      w in s.workers && s.workers[w].phase.Flushing? &&
      forall j :: j in s.workers[w].jobs ==> s.workers[w].jobs[j].AtMost(Largest(s.topic, w, j))
    // A commit may be refused partition by partition; the caller is then told that it failed.
    case CommitOffsets(w, refused, acked) =>
      w in s.workers && s.workers[w].phase.Committing? && Within(s.log, s.workers[w].recs) && (acked ==> refused == {})
    case Fail(w) => w in s.workers && !s.workers[w].phase.Exiting? && !s.workers[w].phase.Dead?
    case Crash(w) => w in s.workers && !s.workers[w].phase.Dead?
    case Reset(_, _) => forall w :: w in s.workers ==> s.workers[w].phase.Dead?
  }

  ghost function With(s: State, w: WorkerId, wk: Worker): State {
    s.(workers := s.workers[w := wk])
  }

  ghost function Apply(s: State, step: Step): State
    requires Enabled(s, step)
  {
    match step
    case Append(rec) => s.(log := s.log + [rec])
    case Spawn(w) => With(s, w, Worker(Idle, [], map[], {}, {}))
    case Assign(p, w) => s.(owner := s.owner[p := w])
    case Poll(w, recs) => With(s, w, s.workers[w].(phase := Poisoned(0, false), recs := recs))
    case CountPoison(w) =>
      var wk := s.workers[w];
      SelectSound(s.log, wk.recs, Poison);
      var i := Select(s.log, wk.recs, Poison)[wk.phase.next];
      With(s, w, wk.(phase := Poisoned(wk.phase.next, true),
                     jobs := CountOne(wk.jobs, s.log[i]),
                     counted := wk.counted + {i}))
    case DeadLetterPoison(w, acked) =>
      var wk := s.workers[w];
      var i := Select(s.log, wk.recs, Poison)[wk.phase.next];
      With(s.(dlq := s.dlq + {i}), w,
           wk.(phase := if acked then Poisoned(wk.phase.next + 1, false) else Exiting))
    case PoisonDone(w) => With(s, w, s.workers[w].(phase := Rejecting(0)))
    case DeadLetterInvalid(w, acked) =>
      var wk := s.workers[w];
      var i := Select(s.log, wk.recs, Invalid)[wk.phase.next];
      With(s.(dlq := s.dlq + {i}), w,
           wk.(phase := if acked then Rejecting(wk.phase.next + 1) else Exiting))
    case InvalidDone(w) => With(s, w, s.workers[w].(phase := Writing))
    case Upsert(w, acked) =>
      // An empty batch returns before the statement; folding no rows changes nothing either.
      var wk := s.workers[w];
      SelectSound(s.log, wk.recs, Valid);
      With(s.(table := Fold(s.table, Rows(s.log, Select(s.log, wk.recs, Valid))),
              far := s.far + Ids(wk.recs),
              dropped := s.dropped - Ids(wk.recs)), w,
           wk.(phase := if acked then Written else Writing))
    case CountBatch(w) =>
      var wk := s.workers[w];
      SelectSound(s.log, wk.recs, Valid);
      SelectSound(s.log, wk.recs, Invalid);
      var valid, invalid := Select(s.log, wk.recs, Valid), Select(s.log, wk.recs, Invalid);
      With(s, w, wk.(phase := Flushing,
                     jobs := CountAll(CountAll(wk.jobs, At(s.log, valid)), At(s.log, invalid)),
                     counted := wk.counted + Ids(valid) + Ids(invalid)))
    case Deliver(r) => s.(topic := s.topic + [r])
    case FlushOk(w) => With(s, w, s.workers[w].(phase := Committing))
    case CommitOffsets(w, refused, acked) =>
      var wk := s.workers[w];
      var kept := Kept(s.log, wk.recs, refused);
      With(s.(committed := s.committed + kept), w,
           wk.(phase := if acked then Idle else Exiting,
               recs := Left(s.log, wk.recs, refused), cleared := wk.cleared + kept))
    case Fail(w) => With(s, w, s.workers[w].(phase := Exiting))
    case Crash(w) => With(s, w, s.workers[w].(phase := Dead))
    case Reset(truncate, refused) =>
      // Offsets are deleted partition by partition; a refused deletion is logged and skipped.
      var kept := set i | i in s.committed && i < |s.log| && s.log[i].partition in refused;
      if truncate then s.(committed := kept, table := map[], far := kept, dropped := kept)
      else s.(committed := kept)
  }

  // steps take s to t, each enabled where it is taken.
  ghost predicate Reaches(s: State, steps: seq<Step>, t: State)
    decreases |steps|
  {
    if steps == [] then s == t
    else Enabled(s, steps[0]) && Reaches(Apply(s, steps[0]), steps[1..], t)
  }
}
