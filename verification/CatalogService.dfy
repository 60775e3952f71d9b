// The worker's processing service: validation, dead-lettering, the batch write, the counters.
module CatalogService {
  import opened Wrappers
  import opened Events
  import opened Products
  import opened Upserts
  import opened Ledger
  import opened Stream
  import opened Writers
  import opened Effects
  import opened Cycles
  import F = Flushers

  const WRITE_RETRY_ATTEMPTS := 3

  lemma EntriesSnoc(products: seq<Product>, p: Product)
    ensures EntriesOf(products + [p]) == EntriesOf(products) + [Entry(p.NaturalKey(), p)]
  {
  }

  lemma RowsSnoc(recs: seq<Record>, rec: Record)
    requires forall i :: 0 <= i < |recs| ==> KindOf(recs[i]).Valid?
    requires KindOf(rec).Valid?
    ensures RowsIn(recs + [rec]) == RowsIn(recs) + [RowOf(rec)]
  {
  }

  lemma CountedEach(jobs: Counters, rec: Record)
    ensures rec.body == Undecodable(None) ==> CountOne(jobs, rec) == jobs
    ensures rec.body.Undecodable? && rec.body.recovered.Some? ==>
              var c := CountsOf(jobs, rec.body.recovered.value);
              CountsOf(CountOne(jobs, rec), rec.body.recovered.value) == Snapshot(c.processed, c.retried, c.dead + 1)
    ensures rec.body.Undecodable? ==>
              forall i :: rec.body.recovered != Some(i) ==> CountsOf(CountOne(jobs, rec), i) == CountsOf(jobs, i)
  {
    if rec.body.Undecodable? && rec.body.recovered.Some? { CountedOnce(jobs, rec, rec.body.recovered.value); }
    forall i | rec.body.Undecodable? && rec.body.recovered != Some(i)
      ensures CountsOf(CountOne(jobs, rec), i) == CountsOf(jobs, i)
    {
      CountedOnce(jobs, rec, i);
    }
    CountedOnce(jobs, rec, "");
  }

  // The dead letter topic, as one worker's republisher writes it.
  class DeadLetters {
    var records: seq<Record>
    ghost var failures: nat   // calls not acknowledged

    constructor ()
      ensures records == []
    {
      records := [];
    }

    method Republish(rec: Record) returns (ok: bool)
      modifies this
      ensures ok ==> records == old(records) + [rec]
      ensures records == old(records) || records == old(records) + [rec]
      ensures failures == old(failures) + if ok then 0 else 1
    {
      var landed, acked := Attempt();
      if landed {
        records := records + [rec];
      }
      failures := failures + if acked then 0 else 1;
      return acked;
    }
  }

  // The progress topic, as one worker's reporter writes it; every report carries its identity.
  class Reporter {
    const worker: WorkerId
    var topic: seq<Report>
    ghost var failures: nat   // calls not acknowledged

    constructor (worker: WorkerId)
      ensures this.worker == worker && topic == []
    {
      this.worker := worker;
      topic := [];
    }

    method ReportProgress(j: JobId, counts: Snapshot) returns (ok: bool)
      modifies this
      ensures ok ==> topic == old(topic) + [Report(j, worker, counts)]
      ensures topic == old(topic) || topic == old(topic) + [Report(j, worker, counts)]
      ensures failures == old(failures) + if ok then 0 else 1
    {
      var landed, acked := Attempt();
      if landed {
        topic := topic + [Report(j, worker, counts)];
      }
      failures := failures + if acked then 0 else 1;
      return acked;
    }

    // Reports are produced synchronously, so nothing is left to deliver; it can still fail.
    method Flush() returns (ok: bool)
      modifies this`failures
      ensures failures == old(failures) + if ok then 0 else 1
    {
      ok := *;
      failures := failures + if ok then 0 else 1;
    }
  }

  class Service {
    const writer: ProductWriter
    const letters: DeadLetters
    const reporter: Reporter
    var jobs: map<JobId, F.Entry>

    constructor (writer: ProductWriter, letters: DeadLetters, reporter: Reporter)
      ensures this.writer == writer && this.letters == letters && this.reporter == reporter
      ensures Counts() == map[] && Truthful()
    {
      this.writer, this.letters, this.reporter := writer, letters, reporter;
      jobs := map[];
    }

    ghost function Counts(): Counters
      reads this
    {
      map j | j in jobs :: jobs[j].counts
    }

    // The calls to other systems that were not acknowledged.
    ghost function Failures(): nat
      reads writer, letters, reporter
    {
      writer.failures + letters.failures + reporter.failures
    }

    // What is marked published has been delivered.
    ghost predicate Truthful()
      reads this, reporter
    {
      forall j :: j in jobs && jobs[j].marked.Some? ==>
          Report(j, reporter.worker, jobs[j].marked.value) in reporter.topic
    }

    // The counter entry of the record's job, created on first use, goes up by one.
    method Count(rec: Record)
      requires Truthful()
      modifies this`jobs
      ensures Truthful() && Counts() == CountOne(old(Counts()), rec)
    {
      match JobOf(rec)
      case None =>
      case Some(j) =>
        var e := F.EntryOf(F.State(reporter.worker, jobs, [], map[]), j);
        var c := e.counts;
        var after := if KindOf(rec).Valid? then c.(processed := c.processed + 1) else c.(dead := c.dead + 1);
        jobs := jobs[j := e.(counts := after)];
    }

    method CountEach(recs: seq<Record>)
      requires Truthful()
      modifies this`jobs
      ensures Truthful() && Counts() == CountAll(old(Counts()), recs)
    {
      for i := 0 to |recs|
        invariant Truthful() && Counts() == CountAll(old(Counts()), recs[..i])
      {
        Count(recs[i]);
        CountSnoc(old(Counts()), recs, i);
      }
      assert recs[..|recs|] == recs;
    }

    // Returns ok only when every event is in the catalog or on the dead letter topic; an error
    // return changes no counter. However often the statement was applied, the table holds at most
    // one batch more than before.
    method ProcessBatch(evts: seq<Record>) returns (ok: bool, ghost end: Option<End>)
      requires Truthful()
      requires forall i :: 0 <= i < |evts| ==> evts[i].body.Decoded?
      modifies this`jobs, letters, writer
      ensures Truthful() && (ok <==> end.None?)
      ensures var valid, invalid := Chosen(evts, Valid), Chosen(evts, Invalid);
              match end
              case None =>
                && Counts() == CountAll(CountAll(old(Counts()), valid), invalid)
                && letters.records == old(letters.records) + invalid
                && writer.table == Fold(old(writer.table), RowsIn(valid))
              case Some(InvalidStopped(n, landed)) =>
                && n < |invalid| && letters.records == old(letters.records) + Tried(invalid, n, landed)
                && Counts() == old(Counts()) && writer.table == old(writer.table)
              case Some(Unwritten(landed)) =>
                && Counts() == old(Counts()) && letters.records == old(letters.records) + invalid
                && writer.table == if landed then Fold(old(writer.table), RowsIn(valid)) else old(writer.table)
              case Some(_) => false
      ensures !ok ==> Failures() > old(Failures()) || !Storable(RowsIn(Chosen(evts, Valid)))
      ensures Failures() >= old(Failures())
    {
      if |evts| == 0 {
        return true, None;
      }
      var products, validEvts, invalid := Split(evts);
      var rejected, n, landed := Reject(invalid);
      if !rejected {
        return false, Some(InvalidStopped(n, landed));
      }
      if |products| == 0 {
        assert RowsIn(validEvts) == [];
        assert validEvts == [];
        CountEach(invalid);
        return true, None;
      }

      var written, _ := Write(products);
      if !written {
        return false, Some(Unwritten(writer.table != old(writer.table)));
      }
      CountEach(validEvts);
      CountEach(invalid);
      return true, None;
    }

    // Validation, before any write.
    method Split(evts: seq<Record>) returns (products: seq<Product>, validEvts: seq<Record>, invalid: seq<Record>)
      requires forall i :: 0 <= i < |evts| ==> evts[i].body.Decoded?
      ensures validEvts == Chosen(evts, Valid) && invalid == Chosen(evts, Invalid)
      ensures EntriesOf(products) == RowsIn(validEvts)
    {
      products, validEvts, invalid := [], [], [];
      for i := 0 to |evts|
        invariant validEvts == Chosen(evts[..i], Valid) && invalid == Chosen(evts[..i], Invalid)
        invariant EntriesOf(products) == RowsIn(validEvts)
      {
        assert evts[..i + 1][..i] == evts[..i];
        match FromEvent(evts[i].body.evt)
        case Failure(_) =>
          invalid := invalid + [evts[i]];
        case Success(p) =>
          EntriesSnoc(products, p);
          RowsSnoc(validEvts, evts[i]);
          products := products + [p];
          validEvts := validEvts + [evts[i]];
      }
      assert evts[..|evts|] == evts;
    }

    // Dead-letters the invalid events in order; n is how many went through before the one that failed.
    method Reject(invalid: seq<Record>) returns (ok: bool, ghost n: nat, ghost landed: bool)
      modifies letters
      ensures ok ==> letters.records == old(letters.records) + invalid
      ensures !ok ==> n < |invalid| && letters.records == old(letters.records) + Tried(invalid, n, landed)
      ensures letters.failures == old(letters.failures) + if ok then 0 else 1
    {
      n, landed := 0, false;
      for i := 0 to |invalid|
        invariant letters.records == old(letters.records) + invalid[..i]
        invariant letters.failures == old(letters.failures)
      {
        ghost var before := letters.records;
        ok := letters.Republish(invalid[i]);
        assert invalid[..i + 1] == invalid[..i] + [invalid[i]];
        if !ok {
          n, landed := i, letters.records != before;
          return;
        }
      }
      assert invalid[..|invalid|] == invalid;
      return true, |invalid|, true;
    }

    // Attempts in place; a cancellation between attempts gives up. A batch the columns can store is
    // given up only after as many failed calls as there were attempts, three of them unless cancelled.
    method Write(products: seq<Product>) returns (ok: bool, ghost cancelled: bool)
      modifies writer
      ensures ok ==> writer.table == Fold(old(writer.table), EntriesOf(products))
      ensures writer.table == old(writer.table) || writer.table == Fold(old(writer.table), EntriesOf(products))
      ensures old(writer.calls) < writer.calls <= old(writer.calls) + 3
      ensures !ok && !cancelled ==> writer.calls == old(writer.calls) + 3
      ensures Storable(EntriesOf(products)) ==>
                writer.failures - old(writer.failures) == writer.calls - old(writer.calls) - if ok then 1 else 0
      ensures writer.failures >= old(writer.failures)
    {
      hide Storable, Upserted;
      ghost var table, rows := writer.table, EntriesOf(products);
      assert [] + rows == rows;
      cancelled := false;
      for attempt := 0 to WRITE_RETRY_ATTEMPTS
        invariant writer.table == table || writer.table == Fold(table, rows)
        invariant writer.calls == old(writer.calls) + attempt && writer.failures >= old(writer.failures)
        invariant Storable(rows) ==> writer.failures == old(writer.failures) + attempt
      {
        AbsorbSuffix(table, rows, []);
        ok := writer.UpsertBatch(products);
        if ok { return; }
        var gone: bool := *;
        if gone { return false, true; }
      }
      return false, false;
    }

    // Counted first, whatever becomes of the dead-lettering.
    method ProcessPoison(rec: Record) returns (ok: bool)
      requires Truthful()
      modifies this`jobs, letters
      ensures Truthful() && Counts() == CountOne(old(Counts()), rec)
      ensures match rec.body
              case Undecodable(None) => Counts() == old(Counts())
              case Undecodable(Some(j)) =>
                && (var c := CountsOf(old(Counts()), j);
                    CountsOf(Counts(), j) == Snapshot(c.processed, c.retried, c.dead + 1))
                && forall i :: i != j ==> CountsOf(Counts(), i) == CountsOf(old(Counts()), i)
              case Decoded(_) => true
      ensures ok ==> letters.records == old(letters.records) + [rec]
      ensures letters.records == old(letters.records) || letters.records == old(letters.records) + [rec]
      ensures letters.failures == old(letters.failures) + if ok then 0 else 1
    {
      CountedEach(Counts(), rec);
      Count(rec);
      ok := letters.Republish(rec);
    }

    // Snapshots the changed entries, reports each, confirms, then marks them published. A nil
    // return leaves the totals of every job on the topic, those of the skipped ones included.
    method FlushProgress() returns (ok: bool, ghost sent: seq<Report>)
      requires Truthful()
      modifies this`jobs, reporter
      ensures Truthful() && Counts() == old(Counts())
      ensures reporter.topic == old(reporter.topic) + sent
      ensures forall n :: 0 <= n < |sent| ==>
                sent[n].worker == reporter.worker && sent[n].job in Counts() && sent[n].counts == Counts()[sent[n].job]
      ensures forall n :: 0 <= n < |sent| ==> old(jobs)[sent[n].job].marked != Some(sent[n].counts)
      ensures ok ==> forall j :: j in jobs ==>
              jobs[j].marked == Some(jobs[j].counts) && Report(j, reporter.worker, jobs[j].counts) in reporter.topic
      ensures !ok ==> jobs == old(jobs)
      ensures (forall j :: j in old(jobs) ==> old(jobs)[j].Unchanged()) ==> ok && sent == []
      ensures if ok then reporter.failures == old(reporter.failures) else reporter.failures > old(reporter.failures)
    {
      var pending := Changed();
      if |pending| == 0 {
        return true, [];
      }
      assert pending[0].job in jobs && !jobs[pending[0].job].Unchanged();
      ok, sent := Tell(pending);
      forall n | 0 <= n < |sent|
        ensures sent[n].job in jobs && sent[n].counts == jobs[sent[n].job].counts && !jobs[sent[n].job].Unchanged()
      {
        var m :| 0 <= m < |pending| && pending[m] == F.Pending(sent[n].job, sent[n].counts);
      }
      if !ok { return false, sent; }
      MarkPublished(pending);
      forall j | j in jobs ensures jobs[j].Unchanged() {
        if !old(jobs)[j].Unchanged() {
          var n :| 0 <= n < |pending| && pending[n].job == j;
        }
      }
    }

    // The entries whose totals differ from those last published, in the map's iteration order.
    method Changed() returns (pending: seq<F.Pending>)
      ensures forall n :: 0 <= n < |pending| ==>
                pending[n].job in jobs && pending[n].counts == jobs[pending[n].job].counts &&
                    !jobs[pending[n].job].Unchanged()
      ensures forall j :: j in jobs && !jobs[j].Unchanged() ==> F.Pending(j, jobs[j].counts) in pending
    {
      pending := [];
      var left := jobs.Keys;
      while left != {}
        invariant left <= jobs.Keys
        invariant forall n :: 0 <= n < |pending| ==>
                    pending[n].job in jobs && pending[n].counts == jobs[pending[n].job].counts &&
                        !jobs[pending[n].job].Unchanged()
        invariant forall j :: j in jobs && j !in left && !jobs[j].Unchanged() ==>
                  F.Pending(j, jobs[j].counts) in pending
        decreases |left|
      {
        var j :| j in left;
        left := left - {j};
        if !jobs[j].Unchanged() {
          pending := pending + [F.Pending(j, jobs[j].counts)];
        }
      }
    }

    method Tell(pending: seq<F.Pending>) returns (ok: bool, ghost sent: seq<Report>)
      modifies reporter
      ensures reporter.topic == old(reporter.topic) + sent
      ensures forall n :: 0 <= n < |sent| ==>
              sent[n].worker == reporter.worker && F.Pending(sent[n].job, sent[n].counts) in pending
      ensures ok ==> forall n :: 0 <= n < |pending| ==>
              Report(pending[n].job, reporter.worker, pending[n].counts) in reporter.topic
      ensures if ok then reporter.failures == old(reporter.failures) else reporter.failures > old(reporter.failures)
    {
      sent := [];
      for i := 0 to |pending|
        invariant reporter.failures == old(reporter.failures)
        invariant reporter.topic == old(reporter.topic) + sent
        invariant forall n :: 0 <= n < |sent| ==>
                  sent[n].worker == reporter.worker && F.Pending(sent[n].job, sent[n].counts) in pending
        invariant forall n :: 0 <= n < i ==>
                  Report(pending[n].job, reporter.worker, pending[n].counts) in reporter.topic
      {
        ghost var before := reporter.topic;
        var reported := reporter.ReportProgress(pending[i].job, pending[i].counts);
        assert F.Pending(pending[i].job, pending[i].counts) == pending[i];
        if reporter.topic != before {
          sent := sent + [Report(pending[i].job, reporter.worker, pending[i].counts)];
        }
        if !reported { return false, sent; }
      }
      ok := reporter.Flush();
    }

    method MarkPublished(pending: seq<F.Pending>)
      requires Truthful()
      requires forall n :: 0 <= n < |pending| ==>
                 && pending[n].job in jobs && pending[n].counts == jobs[pending[n].job].counts
                 && Report(pending[n].job, reporter.worker, pending[n].counts) in reporter.topic
      modifies this`jobs
      ensures Truthful() && Counts() == old(Counts())
      ensures forall n :: 0 <= n < |pending| ==> pending[n].job in jobs && jobs[pending[n].job].Unchanged()
      ensures jobs.Keys == old(jobs).Keys && forall j :: j in old(jobs) && old(jobs)[j].Unchanged() ==>
              jobs[j].Unchanged()
    {
      for i := 0 to |pending|
        invariant jobs.Keys == old(jobs).Keys && Truthful()
        invariant forall j :: j in jobs ==> jobs[j].counts == old(jobs)[j].counts
        invariant forall n :: 0 <= n < i ==> jobs[pending[n].job].Unchanged()
        invariant forall j :: j in jobs && old(jobs)[j].Unchanged() ==> jobs[j].Unchanged()
      {
        var j := pending[i].job;
        if j in jobs {
          jobs := jobs[j := jobs[j].(marked := Some(pending[i].counts))];
        }
      }
    }
  }
}
