// A worker's cumulative per-job counters.
module Ledger {
  import opened Wrappers
  import opened Events
  import opened Products

  type Counters = map<JobId, Snapshot>

  function CountsOf(jobs: Counters, j: JobId): Snapshot {
    if j in jobs then jobs[j] else NOTHING
  }

  function CountOne(jobs: Counters, rec: Record): Counters {
    match JobOf(rec)
    case None => jobs
    case Some(j) =>
      var c := CountsOf(jobs, j);
      jobs[j := if KindOf(rec).Valid? then c.(processed := c.processed + 1) else c.(dead := c.dead + 1)]
  }

  // What one record adds to a worker's counters. A record that does not decode still counts, as dead,
  // toward the job whose id its bytes yield, and toward none if they yield none.
  lemma CountedOnce(jobs: Counters, rec: Record, j: JobId)
    ensures rec.body == Undecodable(Some(j)) ==>
              var c := CountsOf(jobs, j);
              CountsOf(CountOne(jobs, rec), j) == Snapshot(c.processed, c.retried, c.dead + 1)
    ensures rec.body == Undecodable(None) ==> CountOne(jobs, rec) == jobs
    ensures rec.body.Decoded? && rec.body.evt.jobId == j ==>
              var c := CountsOf(jobs, j);
              CountsOf(CountOne(jobs, rec), j) ==
              if FromEvent(rec.body.evt).Success? then Snapshot(c.processed + 1, c.retried, c.dead)
              else Snapshot(c.processed, c.retried, c.dead + 1)
    ensures rec.body != Undecodable(Some(j)) && !(rec.body.Decoded? && rec.body.evt.jobId == j) ==>
              CountsOf(CountOne(jobs, rec), j) == CountsOf(jobs, j)
  {
  }

  function CountAll(jobs: Counters, recs: seq<Record>): Counters {
    if recs == [] then jobs
    else CountOne(CountAll(jobs, recs[..|recs| - 1]), recs[|recs| - 1])
  }

  ghost function JobRecords(log: seq<Record>, ids: set<nat>, j: JobId): set<nat> {
    set i | i in ids && i < |log| && JobOf(log[i]) == Some(j)
  }

  ghost function ValidRecords(log: seq<Record>, ids: set<nat>, j: JobId): set<nat> {
    set i | i in ids && i < |log| && JobOf(log[i]) == Some(j) && KindOf(log[i]).Valid?
  }

  ghost function DeadRecords(log: seq<Record>, ids: set<nat>, j: JobId): set<nat> {
    set i | i in ids && i < |log| && JobOf(log[i]) == Some(j) && !KindOf(log[i]).Valid?
  }

  // How many of the given log records count toward a job, by outcome.
  ghost function Tally(log: seq<Record>, ids: set<nat>, j: JobId): Snapshot {
    Snapshot(|ValidRecords(log, ids, j)|, 0, |DeadRecords(log, ids, j)|)
  }

  // The counters are exactly the tally of the records counted so far.
  ghost predicate Matches(log: seq<Record>, ids: set<nat>, jobs: Counters) {
    forall j :: CountsOf(jobs, j) == Tally(log, ids, j)
  }

  lemma TallyTotal(log: seq<Record>, ids: set<nat>, j: JobId)
    ensures Tally(log, ids, j).Total() == |JobRecords(log, ids, j)|
  {
    assert JobRecords(log, ids, j) == ValidRecords(log, ids, j) + DeadRecords(log, ids, j);
  }

  lemma TallyOne(log: seq<Record>, ids: set<nat>, i: nat, j: JobId)
    requires i < |log| && i !in ids
    ensures var before, after := Tally(log, ids, j), Tally(log, ids + {i}, j);
            after == if JobOf(log[i]) != Some(j) then before
                     else if KindOf(log[i]).Valid? then before.(processed := before.processed + 1)
                     else before.(dead := before.dead + 1)
  {
    hide KindOf, JobOf;
    var valid, dead := ValidRecords(log, ids, j), DeadRecords(log, ids, j);
    var counts, isValid := JobOf(log[i]) == Some(j), KindOf(log[i]).Valid?;
    assert ValidRecords(log, ids + {i}, j) == if counts && isValid then valid + {i} else valid;
    assert DeadRecords(log, ids + {i}, j) == if counts && !isValid then dead + {i} else dead;
  }

  lemma CountOneTally(log: seq<Record>, ids: set<nat>, jobs: Counters, i: nat, j: JobId)
    requires CountsOf(jobs, j) == Tally(log, ids, j)
    requires i < |log| && i !in ids
    ensures CountsOf(CountOne(jobs, log[i]), j) == Tally(log, ids + {i}, j)
  {
    hide KindOf, JobOf, Tally;
    TallyOne(log, ids, i, j);
  }

  lemma CountOneMatches(log: seq<Record>, ids: set<nat>, jobs: Counters, i: nat)
    requires Matches(log, ids, jobs)
    requires i < |log| && i !in ids
    ensures Matches(log, ids + {i}, CountOne(jobs, log[i]))
  {
    forall j
      ensures CountsOf(CountOne(jobs, log[i]), j) == Tally(log, ids + {i}, j)
    {
      assert CountsOf(jobs, j) == Tally(log, ids, j);
      CountOneTally(log, ids, jobs, i, j);
    }
  }

  ghost function Ids(recs: seq<nat>): set<nat> {
    set i | i in recs
  }

  ghost function IdsOfPolls(polls: seq<seq<nat>>): set<nat> {
    if polls == [] then {} else IdsOfPolls(polls[..|polls| - 1]) + Ids(polls[|polls| - 1])
  }

  ghost predicate Distinct(recs: seq<nat>) {
    forall a, b :: 0 <= a < b < |recs| ==> recs[a] != recs[b]
  }

  ghost predicate Within(log: seq<Record>, recs: seq<nat>) {
    forall n :: 0 <= n < |recs| ==> recs[n] < |log|
  }

  ghost function At(log: seq<Record>, recs: seq<nat>): seq<Record>
    requires Within(log, recs)
  {
    seq(|recs|, n requires 0 <= n < |recs| => log[recs[n]])
  }

  // Counting a run of records once each keeps the counters equal to the tally.
  lemma {:induction false} CountAllMatches(log: seq<Record>, ids: set<nat>, jobs: Counters, recs: seq<nat>)
    requires Matches(log, ids, jobs)
    requires Distinct(recs) && Ids(recs) !! ids
    requires Within(log, recs)
    ensures Matches(log, ids + Ids(recs), CountAll(jobs, At(log, recs)))
    decreases |recs|
  {
    if recs == [] {
      assert ids + Ids(recs) == ids;
    } else {
      var n := |recs| - 1;
      assert Ids(recs[..n]) <= Ids(recs);
      assert recs[n] in Ids(recs);
      CountAllMatches(log, ids, jobs, recs[..n]);
      assert At(log, recs)[..n] == At(log, recs[..n]);
      CountOneMatches(log, ids + Ids(recs[..n]), CountAll(jobs, At(log, recs[..n])), recs[n]);
      assert recs == recs[..n] + [recs[n]];
      assert ids + Ids(recs) == ids + Ids(recs[..n]) + {recs[n]};
    }
  }

  lemma TallyGrows(log: seq<Record>, ids: set<nat>, more: seq<Record>, j: JobId)
    requires forall i :: i in ids ==> i < |log|
    ensures Tally(log + more, ids, j) == Tally(log, ids, j)
    ensures JobRecords(log + more, ids, j) == JobRecords(log, ids, j)
  {
    assert ValidRecords(log + more, ids, j) == ValidRecords(log, ids, j);
    assert DeadRecords(log + more, ids, j) == DeadRecords(log, ids, j);
  }

  // The greatest counts a worker has delivered for a job.
  ghost function Largest(topic: seq<Report>, w: WorkerId, j: JobId): Snapshot {
    if topic == [] then NOTHING
    else
      var last := topic[|topic| - 1];
      var before := Largest(topic[..|topic| - 1], w, j);
      if last.worker == w && last.job == j then before.Join(last.counts) else before
  }

  lemma {:induction false} LargestBounds(topic: seq<Report>, w: WorkerId, j: JobId, top: Snapshot)
    requires forall i :: 0 <= i < |topic| && topic[i].worker == w && topic[i].job == j ==> topic[i].counts.AtMost(top)
    ensures Largest(topic, w, j).AtMost(top)
    ensures forall i :: 0 <= i < |topic| && topic[i].worker == w && topic[i].job == j
              ==> topic[i].counts.AtMost(Largest(topic, w, j))
  {
    if topic != [] {
      LargestBounds(topic[..|topic| - 1], w, j, top);
    }
  }
}
