// The worker's loop: poll, split, dead-letter, process, report, commit; and the exit drain.
module CatalogWorker {
  import opened Wrappers
  import opened Events
  import opened Products
  import opened Upserts
  import opened Ledger
  import opened Stream
  import opened Writers
  import opened Cycles
  import opened CatalogService

  // The consumer group's committed offsets, as the records below them.
  class Source {
    var committed: set<nat>
    ghost var failures: nat   // commits that did not go through

    constructor ()
      ensures committed == {}
    {
      committed := {};
    }

    // Nil when every partition accepted the commit. On an error any of them may have refused it.
    method CommitRecords(log: seq<Record>, ids: seq<nat>) returns (ok: bool, ghost refused: set<nat>)
      requires Within(log, ids)
      modifies this
      ensures committed == old(committed) + Kept(log, ids, refused)
      ensures ok ==> refused == {} && Kept(log, ids, refused) == Ids(ids)
      ensures failures == old(failures) + if ok then 0 else 1
    {
      var failing: set<nat> := *;
      ok := *;
      if ok { failing := {}; }
      refused := failing;
      failures := failures + if ok then 0 else 1;
      LeftMembers(log, ids, refused);
      for n := 0 to |ids|
        invariant committed == old(committed) + Kept(log, ids[..n], failing)
        invariant failures == old(failures) + if ok then 0 else 1
      {
        assert ids[..n + 1] == ids[..n] + [ids[n]];
        if log[ids[n]].partition !in failing {
          committed := committed + {ids[n]};
        }
      }
      assert ids[..|ids|] == ids;
    }
  }

  ghost function DecodedOf(recs: seq<Record>): (r: seq<Record>)
    ensures forall i :: 0 <= i < |r| ==> r[i].body.Decoded?
  {
    if recs == [] then []
    else
      var rest := DecodedOf(recs[..|recs| - 1]);
      if recs[|recs| - 1].body.Decoded? then rest + [recs[|recs| - 1]] else rest
  }

  // Splitting off the undecodable records first loses nothing of the other kinds.
  lemma {:induction false} ChosenOfDecoded(recs: seq<Record>, kind: Kind)
    requires kind != Poison
    ensures Chosen(DecodedOf(recs), kind) == Chosen(recs, kind)
  {
    if recs != [] {
      var n := |recs| - 1;
      ChosenOfDecoded(recs[..n], kind);
      var rest := DecodedOf(recs[..n]);
      assert (rest + [recs[n]])[..|rest|] == rest;
    }
  }

  // One poll's effect; an empty poll has none.
  ghost predicate Cycled(v: View, w: WorkerId, log: seq<Record>, ids: seq<nat>, end: End, z: View) {
    if ids == [] then end == Finished([]) && z == v
    else
      && Within(log, ids) && Possible(At(log, ids), end) && Reporting(v, w, At(log, ids), end)
      && z == After(v, log, ids, end)
  }

  // One cycle after another, each from where the last one left off.
  ghost predicate Ran(v: View, w: WorkerId, log: seq<Record>, polls: seq<seq<nat>>, ends: seq<End>, z: View)
    decreases |ends|
  {
    if ends == [] then z == v
    else
      var n := |ends| - 1;
      n < |polls| && exists u :: Ran(v, w, log, polls, ends[..n], u) && Cycled(u, w, log, polls[n], ends[n], z)
  }

  lemma RanOneMore(v: View, w: WorkerId, log: seq<Record>, polls: seq<seq<nat>>, ends: seq<End>, u: View, end: End,
        z: View)
    requires Ran(v, w, log, polls, ends, u) && |ends| < |polls| && Cycled(u, w, log, polls[|ends|], end, z)
    ensures Ran(v, w, log, polls, ends + [end], z)
  {
    hide Cycled;
    assert (ends + [end])[..|ends|] == ends;
  }

  // No column refuses a row of the poll's valid events.
  ghost predicate CanStore(log: seq<Record>, ids: seq<nat>)
    requires Within(log, ids)
  {
    Storable(RowsIn(Chosen(At(log, ids), Valid)))
  }

  class Worker {
    const source: Source
    const service: Service

    constructor (source: Source, service: Service)
      ensures this.source == source && this.service == service
    {
      this.source, this.service := source, service;
    }

    ghost function Now(): View
      reads source, service, service.writer, service.letters, service.reporter
    {
      View(service.writer.table, service.letters.records, service.Counts(), service.reporter.topic, source.committed)
    }

    // The calls to other systems that failed.
    ghost function Failures(): nat
      reads source, service.writer, service.letters, service.reporter
    {
      service.Failures() + source.failures
    }

    method ReadPoll(log: seq<Record>, ids: seq<nat>) returns (evts: seq<Record>, poison: seq<Record>)
      requires Within(log, ids)
      ensures evts == DecodedOf(At(log, ids)) && poison == Chosen(At(log, ids), Poison)
    {
      evts, poison := [], [];
      ghost var recs := At(log, ids);
      for i := 0 to |ids|
        invariant evts == DecodedOf(recs[..i]) && poison == Chosen(recs[..i], Poison)
      {
        var rec := log[ids[i]];
        assert recs[..i + 1][..i] == recs[..i];
        match rec.body
        case Undecodable(_) => poison := poison + [rec];
        case Decoded(_) => evts := evts + [rec];
      }
      assert recs[..|ids|] == recs;
    }

    // n is how many poison records went through before the one that failed.
    method DeadLetterPoison(poison: seq<Record>) returns (ok: bool, ghost n: nat, ghost landed: bool)
      requires service.Truthful()
      modifies service`jobs, service.letters
      ensures service.Truthful()
      ensures ok ==> service.Counts() == CountAll(old(service.Counts()), poison) &&
                     service.letters.records == old(service.letters.records) + poison
      ensures !ok ==> n < |poison| && service.Counts() == CountAll(old(service.Counts()), poison[..n + 1]) &&
                      service.letters.records == old(service.letters.records) + Tried(poison, n, landed)
      ensures service.letters.failures == old(service.letters.failures) + if ok then 0 else 1
    {
      n, landed := 0, false;
      for i := 0 to |poison|
        invariant service.Truthful()
        invariant service.Counts() == CountAll(old(service.Counts()), poison[..i])
        invariant service.letters.records == old(service.letters.records) + poison[..i]
        invariant service.letters.failures == old(service.letters.failures)
      {
        ghost var before := service.letters.records;
        ok := service.ProcessPoison(poison[i]);
        CountSnoc(old(service.Counts()), poison, i);
        assert poison[..i + 1] == poison[..i] + [poison[i]];
        if !ok {
          n, landed := i, service.letters.records != before;
          return;
        }
      }
      assert poison[..|poison|] == poison;
      return true, |poison|, true;
    }

    // The part of a cycle before reporting; the result is how it stopped, if it did.
    method Adjudicate(log: seq<Record>, ids: seq<nat>) returns (ok: bool, ghost stopped: Option<End>)
      requires Within(log, ids) && service.Truthful()
      modifies service`jobs, service.letters, service.writer
      ensures service.Truthful() && (ok <==> stopped.None?)
      ensures match stopped
              case None => Now() == Adjudicated(old(Now()), At(log, ids))
              case Some(end) =>
                && (end.PoisonStopped? || end.InvalidStopped? || end.Unwritten?)
                && Possible(At(log, ids), end) && Now() == After(old(Now()), log, ids, end)
      ensures !ok ==> Failures() > old(Failures()) || !CanStore(log, ids)
      ensures Failures() >= old(Failures())
    {
      hide CountAll, Fold, Chosen, KindOf, RowsIn, Storable;
      var evts, poison := ReadPoll(log, ids);
      ChosenOfDecoded(At(log, ids), Valid);
      ChosenOfDecoded(At(log, ids), Invalid);
      ghost var n, landed;
      ok, n, landed := DeadLetterPoison(poison);
      if !ok {
        return false, Some(PoisonStopped(n, landed));
      }
      ok, stopped := service.ProcessBatch(evts);
    }

    // The part of a cycle after it: progress before offsets.
    method Settle(log: seq<Record>, ids: seq<nat>) returns (ok: bool, ghost end: End)
      requires Within(log, ids) && service.Truthful()
      modifies service`jobs, service.reporter, source
      ensures service.Truthful() && (ok <==> end.Finished?)
      ensures if ok then Failures() == old(Failures()) else Failures() > old(Failures())
      ensures end.Unflushed? || end.Uncommitted? || end.Finished?
      ensures Now() == old(Now()).(
                topic := old(Now()).topic + end.sent,
                committed := old(Now()).committed +
                             match end
                             case Finished(_) => Ids(ids)
                             case Uncommitted(_, refused) => Kept(log, ids, refused)
                             case _ => {})
      ensures forall n :: 0 <= n < |end.sent| ==>
                end.sent[n].worker == service.reporter.worker &&
                    end.sent[n].counts.AtMost(CountsOf(Now().counts, end.sent[n].job))
      ensures !end.Unflushed? ==>
                forall j :: j in Now().counts ==>
                    Now().counts[j].AtMost(Largest(Now().topic, service.reporter.worker, j))
    {
      hide Largest, Ids, Kept;
      ghost var sent;
      ok, sent := service.FlushProgress();
      Covered(old(service.reporter.topic), service.reporter.worker, service.Counts(), sent);
      if !ok {
        return false, Unflushed(sent);
      }
      ghost var refused;
      ok, refused := source.CommitRecords(log, ids);
      end := if ok then Finished(sent) else Uncommitted(sent, refused);
    }

    // One iteration of the loop on a non-empty poll. It fails only when another system does, or when
    // the batch has a row that no column takes.
    method Cycle(log: seq<Record>, ids: seq<nat>) returns (ok: bool, ghost end: End)
      requires Within(log, ids) && ids != [] && service.Truthful()
      modifies service`jobs, service.letters, service.writer, service.reporter, source
      ensures service.Truthful() && (ok <==> end.Finished?)
      ensures !ok ==> Failures() > old(Failures()) || !CanStore(log, ids)
      ensures Failures() >= old(Failures())
      ensures Cycled(old(Now()), service.reporter.worker, log, ids, end, Now())
    {
      hide Chosen, CountAll, Fold, RowsIn, Largest, Storable;
      ghost var stopped;
      ok, stopped := Adjudicate(log, ids);
      if !ok {
        return false, stopped.value;
      }
      ok, end := Settle(log, ids);
    }

    // Consumes the given polls until one cannot be finished or there are no more, then drains: every
    // exit path reports the outstanding totals once more.
    method Run(log: seq<Record>, polls: seq<seq<nat>>)
        returns (ok: bool, ghost ends: seq<End>, ghost drained: seq<Report>)
      requires service.Truthful() && forall n :: 0 <= n < |polls| ==> Within(log, polls[n])
      modifies service`jobs, service.letters, service.writer, service.reporter, source
      ensures service.Truthful()
      ensures !ok ==> Failures() > old(Failures()) || exists n :: 0 <= n < |polls| && !CanStore(log, polls[n])
      ensures |ends| <= |polls| && (ok ==> |ends| == |polls|)
      ensures forall n :: 0 <= n < |ends| && (ok || n < |ends| - 1) ==> ends[n].Finished?
      ensures !ok ==> ends != [] && !ends[|ends| - 1].Finished?
      ensures exists z :: Ran(old(Now()), service.reporter.worker, log, polls, ends, z) &&
                          Now() == z.(topic := z.topic + drained)
      ensures forall n :: 0 <= n < |drained| ==>
                drained[n].worker == service.reporter.worker &&
                    drained[n].counts == CountsOf(service.Counts(), drained[n].job)
    {
      hide Ran, Cycled, CanStore;
      ends := [];
      ok := true;
      ghost var z := Now();
      var i := 0;
      RanNone(z, service.reporter.worker, log, polls);
      while i < |polls| && ok
        invariant i <= |polls| && service.Truthful() && |ends| == i && z == Now()
        invariant forall n :: 0 <= n < i && (ok || n < i - 1) ==> ends[n].Finished?
        invariant !ok ==> i > 0 && !ends[i - 1].Finished?
        invariant Failures() >= old(Failures())
        invariant !ok ==> Failures() > old(Failures()) || !CanStore(log, polls[i - 1])
        invariant Ran(old(Now()), service.reporter.worker, log, polls, ends, z)
      {
        ghost var end := Finished([]);
        if |polls[i]| == 0 {
          NothingPolled(z, service.reporter.worker, log);
        } else {
          ok, end := Cycle(log, polls[i]);
        }
        RanOneMore(old(Now()), service.reporter.worker, log, polls, ends, z, end, Now());
        ends := ends + [end];
        z := Now();
        i := i + 1;
      }
      var _, rest := service.FlushProgress();
      drained := rest;
    }
  }

  // A confirmed flush leaves every total on the topic.
  lemma Covered(before: seq<Report>, w: WorkerId, counts: Counters, sent: seq<Report>)
    ensures forall j :: j in counts && Report(j, w, counts[j]) in before + sent ==>
            counts[j].AtMost(Largest(before + sent, w, j))
  {
    forall j | j in counts && Report(j, w, counts[j]) in before + sent
      ensures counts[j].AtMost(Largest(before + sent, w, j))
    {
      F.InTopic(before + sent, Report(j, w, counts[j]));
    }
  }

  lemma NothingPolled(v: View, w: WorkerId, log: seq<Record>)
    ensures Cycled(v, w, log, [], Finished([]), v)
  {
  }

  lemma RanNone(v: View, w: WorkerId, log: seq<Record>, polls: seq<seq<nat>>)
    ensures Ran(v, w, log, polls, [], v)
  {
  }

  // ---------------------------------------------------------------- the loop as a run of the protocol

  // Each poll was one the group could deliver where it was taken.
  ghost predicate Deliverable(s: State, w: WorkerId, polls: seq<seq<nat>>, count: nat)
    requires count <= |polls|
  {
    forall n :: 0 <= n < count ==>
      polls[n] == [] || PollOk(s.(committed := s.committed + IdsOfPolls(polls[..n])), w, polls[n])
  }

  lemma SamePoll(s: State, t: State, w: WorkerId, ids: seq<nat>)
    requires PollOk(s, w, ids)
    requires t.log == s.log && t.owner == s.owner && t.maxPoll == s.maxPoll && t.committed == s.committed
    ensures PollOk(t, w, ids)
  {
  }

  ghost predicate AllFinished(ends: seq<End>, count: nat)
    requires count <= |ends|
  {
    forall n :: 0 <= n < count ==> ends[n].Finished?
  }

  // After finished cycles the offsets cover exactly their polls.
  lemma {:induction false} FinishedCommits(
      v: View, w: WorkerId, log: seq<Record>, polls: seq<seq<nat>>, ends: seq<End>, z: View)
    requires Ran(v, w, log, polls, ends, z) && AllFinished(ends, |ends|)
    ensures |ends| <= |polls| && z.committed == v.committed + IdsOfPolls(polls[..|ends|])
    decreases |ends|
  {
    hide Reporting, Adjudicated;
    if ends != [] {
      var n := |ends| - 1;
      var u :| Ran(v, w, log, polls, ends[..n], u) && Cycled(u, w, log, polls[n], ends[n], z);
      FinishedCommits(v, w, log, polls, ends[..n], u);
      assert polls[..n + 1][..n] == polls[..n];
      assert z.committed == u.committed + Ids(polls[n]) by {
        if polls[n] == [] { assert Ids(polls[n]) == {}; }
        if polls[n] != [] { AdjudicatedKeeps(u, At(log, polls[n])); }
      }
    }
  }

  lemma {:induction false} CyclesAreRun(
      s: State, w: WorkerId, polls: seq<seq<nat>>, ends: seq<End>, v: View, z: View)
      returns (steps: seq<Step>, t: State)
    requires Shows(s, w, v) && s.workers[w].phase.Idle?
    requires Ran(v, w, s.log, polls, ends, z) && |ends| <= |polls| && Deliverable(s, w, polls, |ends|)
    requires ends != [] ==> AllFinished(ends, |ends| - 1)
    ensures Runs(s, steps, t) && Shows(t, w, z)
    ensures t.workers[w].phase == if AllFinished(ends, |ends|) then Idle else Exiting
    decreases |ends|
  {
    hide Shows, Runs, PollOk, Cycled;
    if ends == [] {
      steps, t := [], s;
      NoSteps(s);
    } else {
      var n := |ends| - 1;
      var u :| Ran(v, w, s.log, polls, ends[..n], u) && Cycled(u, w, s.log, polls[n], ends[n], z);
      var first, r := CyclesAreRun(s, w, polls, ends[..n], v, u);
      RunsKeep(s, first, r);
      FinishedCommits(v, w, s.log, polls, ends[..n], u);
      Committed(s, w, v);
      Committed(r, w, u);
      var more;
      more, t := OneCycle(s, r, w, polls[n], IdsOfPolls(polls[..n]), u, ends[n], z);
      steps := first + more;
      ReachesConcat(s, first, r, more, t);
    }
  }

  lemma NoSteps(s: State)
    ensures Runs(s, [], s)
  {
  }

  lemma Committed(s: State, w: WorkerId, v: View)
    requires Shows(s, w, v)
    ensures w in s.workers && s.committed == v.committed
  {
  }

  lemma OneCycle(s: State, r: State, w: WorkerId, ids: seq<nat>, done: set<nat>, u: View, end: End, z: View)
      returns (more: seq<Step>, t: State)
    requires Shows(r, w, u) && r.workers[w].phase.Idle? && Cycled(u, w, r.log, ids, end, z)
    requires r.log == s.log && r.owner == s.owner && r.maxPoll == s.maxPoll && r.committed == s.committed + done
    requires ids == [] || PollOk(s.(committed := s.committed + done), w, ids)
    ensures Runs(r, more, t) && Shows(t, w, z) && w in t.workers
    ensures t.workers[w].phase == if end.Finished? then Idle else Exiting
  {
    hide Possible, Reporting, After, PollOk, Lettered;
    if ids == [] {
      more, t := [], r;
      NoSteps(r);
    } else {
      SamePoll(s.(committed := s.committed + done), r, w, ids);
      more, t := CycleIsRun(r, w, ids, u, end);
    }
  }

  // Whatever the loop did with its polls, and however it stopped, what it and its exit drain leave
  // behind is what one run of the protocol leaves behind.
  lemma LoopIsRun(
      s: State, w: WorkerId, polls: seq<seq<nat>>, ends: seq<End>, v: View, z: View, drained: seq<Report>)
      returns (steps: seq<Step>, t: State)
    requires Shows(s, w, v) && s.workers[w].phase.Idle?
    requires Ran(v, w, s.log, polls, ends, z) && |ends| <= |polls| && Deliverable(s, w, polls, |ends|)
    requires ends != [] ==> AllFinished(ends, |ends| - 1)
    requires forall n :: 0 <= n < |drained| ==>
               drained[n].worker == w && drained[n].counts == CountsOf(z.counts, drained[n].job)
    ensures Runs(s, steps, t) && Shows(t, w, z.(topic := z.topic + drained))
  {
    hide Ran, Runs, Deliverable, Lettered;
    var first, u := CyclesAreRun(s, w, polls, ends, v, z);
    var more := DeliverRun(u, w, drained);
    t := u.(topic := u.topic + drained);
    LettersSame(u, t, z.letters);
    steps := first + more;
    ReachesConcat(s, first, u, more, t);
  }
}
