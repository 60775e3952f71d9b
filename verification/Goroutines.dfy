// One import's goroutine, as the path its record takes through the protocol's moves.
module Goroutines {
  import opened Wrappers
  import opened Events
  import opened Jobs
  import opened Importer
  import P = Pipeline

  // A move of the goroutine, made while the publisher remembered a failure or not; or the tracker moving
  // the totals meanwhile.
  datatype Act =
    | Do(move: Move, firstErr: bool)
    | Totals(progress: Snapshot)

  ghost predicate Can(job: Job, act: Act) {
    match act
    case Do(move, firstErr) => CanMove(job, move) && (move.ValidRow? ==> !firstErr)
    case Totals(progress) => job.row.Live() && job.row.progress.AtMost(progress)
  }

  ghost function Did(job: Job, act: Act, flushEvery: nat): Job
    requires Can(job, act)
  {
    match act
    case Do(move, firstErr) => Moved(job, move, flushEvery, firstErr)
    case Totals(progress) => job.(row := job.row.(progress := progress))
  }

  // The acts take the record from one state to another.
  ghost predicate Path(start: Job, acts: seq<Act>, flushEvery: nat, now: Job) {
    if acts == [] then now == start
    else
      var n := |acts| - 1;
      exists mid :: Path(start, acts[..n], flushEvery, mid) && Can(mid, acts[n]) && now == Did(mid, acts[n], flushEvery)
  }

  lemma PathMore(start: Job, acts: seq<Act>, flushEvery: nat, now: Job, act: Act)
    requires Path(start, acts, flushEvery, now) && Can(now, act)
    ensures Path(start, acts + [act], flushEvery, Did(now, act, flushEvery))
  {
    hide Can, Did;
    assert (acts + [act])[..|acts|] == acts;
  }

  // The events handed to the publisher on the way.
  ghost function Sent(acts: seq<Act>): seq<ProductImported> {
    if acts == [] then []
    else
      var n := |acts| - 1;
      Sent(acts[..n]) + if acts[n].Do? && acts[n].move.ValidRow? then [acts[n].move.evt] else []
  }

  lemma SentMore(acts: seq<Act>, act: Act)
    ensures Sent(acts + [act]) == Sent(acts) + if act.Do? && act.move.ValidRow? then [act.move.evt] else []
  {
    assert (acts + [act])[..|acts|] == acts;
  }

  lemma ActKeepsJob(job: Job, act: Act, flushEvery: nat)
    requires JobInv(job) && Can(job, act)
    ensures JobInv(Did(job, act, flushEvery)) && GoodWrite(job.row, Did(job, act, flushEvery).row)
  {
    if act.Do? { MoveKeepsJob(job, act.move, flushEvery, act.firstErr); }
  }

  // What is proved of the protocol's records holds along any path: above all, a completed record is
  // confirmed, and a terminal one is left alone.
  lemma {:induction false} PathKeepsJob(start: Job, acts: seq<Act>, flushEvery: nat, now: Job)
    requires JobInv(start) && Path(start, acts, flushEvery, now)
    ensures JobInv(now) && (start.row.status.Terminal() ==> now.row == start.row)
    ensures start.row.progress.AtMost(now.row.progress)
    decreases |acts|
  {
    hide JobInv, Can, Did;
    if acts != [] {
      var n := |acts| - 1;
      var mid :| Path(start, acts[..n], flushEvery, mid) && Can(mid, acts[n]) && now == Did(mid, acts[n], flushEvery);
      PathKeepsJob(start, acts[..n], flushEvery, mid);
      ActKeepsJob(mid, acts[n], flushEvery);
    }
  }

  // The record as the pipeline holds it, which also knows what was lost.
  ghost predicate Holds(p: P.State, j: JobId, job: Job) {
    j in p.imp.jobs && p.imp.jobs[j] == job.(lost := p.imp.jobs[j].lost)
  }

  // Where the publisher is as the act says, and its wait is over or cut short, the act is a step of the
  // pipeline, with that effect on the record.
  lemma ActIsStep(p: P.State, j: JobId, job: Job, act: Act)
    requires Holds(p, j, job) && act.Do? && Can(job, act)
    requires act.move.ValidRow? ==> act.move.evt.jobId == j
    requires act.move.ValidRow? || act.move.FlushReturns? ==> p.imp.firstErr == act.firstErr
    requires act.move.FlushReturns? ==> BufferedOf(p.imp.buffer, j) == 0 || job.Expired()
    ensures P.Enabled(p, P.OnImporter(Own(j, act.move)))
    ensures Holds(P.Apply(p, P.OnImporter(Own(j, act.move))), j, Did(job, act, p.imp.flushEvery))
  {
  }

  // The history of one goroutine.
  class Trail {
    ghost const start: Job
    ghost const flushEvery: nat
    ghost var acts: seq<Act>
    ghost var now: Job

    constructor (ghost start: Job, ghost flushEvery: nat)
      ensures Valid() && this.start == start && this.flushEvery == flushEvery
      ensures acts == [] && now == start
    {
      this.start, this.flushEvery := start, flushEvery;
      acts, now := [], start;
    }

    ghost predicate Valid()
      reads this
    {
      Path(start, acts, flushEvery, now)
    }

    // Where the goroutine stands, its record and its context as they are.
    ghost predicate Shows(row: JobRow, expired: bool)
      reads this
    {
      Valid() && now.row == row && now.proc.Some? && now.Expired() == expired
    }

    ghost method Take(act: Act)
      requires Valid() && Can(now, act)
      modifies this
      ensures Valid() && now == Did(old(now), act, flushEvery)
      ensures Sent(acts) == Sent(old(acts)) + if act.Do? && act.move.ValidRow? then [act.move.evt] else []
    {
      hide Can, Did;
      PathMore(start, acts, flushEvery, now, act);
      SentMore(acts, act);
      now := Did(now, act, flushEvery);
      acts := acts + [act];
    }

    // Time has passed: the context may have expired.
    ghost method Late(expired: bool)
      requires Valid() && now.proc.Some? && (now.Expired() ==> expired)
      modifies this
      ensures Valid() && Sent(acts) == Sent(old(acts))
      ensures now == old(now).(proc := Some(old(now).proc.value.(expired := expired)))
    {
      if expired && !now.Expired() { Take(Do(Expire, false)); }
    }
  }
}
