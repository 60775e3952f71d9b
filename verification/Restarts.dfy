// What a restart of the importer leaves behind.
module Restarts {
  import opened Wrappers
  import opened Events
  import opened Jobs
  import opened Publishers
  import opened Importer
  import opened Durability
  import Records

  // The import's event is on the log, its goroutine at a later stage.
  function After(job: Importer.Job, j: JobId, evt: ProductImported): P.State {
    P.State.State(Stream.Init(500).(log := [Record(0, Decoded(evt))]),
                  Importer.State(100, map[j := job], map[], [], false, None))
  }

  function Stored(status: Status, proc: Option<Proc>): Importer.Job {
    Job(JobRow(status, 1, 1, 0, 1, NOTHING), proc, 1, 0)
  }

  function At(stage: Stage): Option<Proc> {
    Some(Proc(stage, 1, 1, 0, 1, false))
  }

  lemma Lands(j: JobId, evt: ProductImported)
    requires evt.jobId == j
    ensures Takes(Both(map[j := Durability.Published(Flushing, 0)], [evt], false), P.Land(0, 0, true),
                  After(Durability.Published(Flushing, 0), j, evt))
  {
    assert Without([evt], 0) == [];
    assert [] + [Record(0, Decoded(evt))] == [Record(0, Decoded(evt))];
  }

  lemma Finishes(j: JobId, evt: ProductImported)
    ensures Takes(After(Durability.Published(Flushing, 0), j, evt), P.OnImporter(Own(j, FlushReturns)),
                  After(Durability.Published(StoringFinal, 0), j, evt))
    ensures Takes(After(Durability.Published(StoringFinal, 0), j, evt), P.OnImporter(Own(j, StoreFinal(true))),
                  After(Stored(Status.Parsing, At(MarkingProcessing)), j, evt))
  {
    hide Stream.Enabled, Stream.Apply, SumRows;
  }

  lemma Marks(j: JobId, evt: ProductImported)
    ensures Takes(After(Stored(Status.Parsing, At(MarkingProcessing)), j, evt),
                  P.OnImporter(Own(j, MarkProcessing(true))),
                  After(Stored(Status.Processing, At(Awaiting)), j, evt))
  {
    hide Stream.Enabled, Stream.Apply, SumRows;
  }

  lemma Dies(j: JobId, evt: ProductImported)
    ensures Takes(After(Stored(Status.Processing, At(Awaiting)), j, evt), P.OnImporter(Restart(true)),
                  After(Stored(Status.Processing, None), j, evt))
  {
    hide Stream.Enabled, Stream.Apply, SumRows;
  }

  lemma OrphaningRun(j: JobId, evt: ProductImported) returns (steps: seq<P.Step>)
    requires IsUuid(j) && evt.jobId == j
    ensures P.Reaches(P.Init(500, 100), steps, After(Stored(Status.Processing, None), j, evt))
  {
    hide Takes, After, Both, Stored, P.Init, Importer.Init;
    var s := [
      P.Init(500, 100),
      Both(map[j := Fresh(Streaming)], [], false),
      Both(map[j := Durability.Published(Streaming, 0)], [evt], false),
      Both(map[j := Durability.Published(Flushing, 0)], [evt], false),
      After(Durability.Published(Flushing, 0), j, evt),
      After(Durability.Published(StoringFinal, 0), j, evt),
      After(Stored(Status.Parsing, At(MarkingProcessing)), j, evt),
      After(Stored(Status.Processing, At(Awaiting)), j, evt),
      After(Stored(Status.Processing, None), j, evt)];
    steps := [
      P.OnImporter(Create(j, true)), P.OnImporter(Own(j, ValidRow(evt))), P.OnImporter(Own(j, EndOfFile)),
      P.Land(0, 0, true), P.OnImporter(Own(j, FlushReturns)), P.OnImporter(Own(j, StoreFinal(true))),
      P.OnImporter(Own(j, MarkProcessing(true))), P.OnImporter(Restart(true))];
    AloneStarts(j);
    AloneSends(j, evt);
    Lands(j, evt);
    Finishes(j, evt);
    Marks(j, evt);
    Dies(j, evt);
    assert forall n :: 0 <= n < 8 ==> Takes(s[n], steps[n], s[n + 1]);
    Follows(s, steps);
  }

  // An import whose one event is delivered, and whose record is processing, when the process restarts:
  // from here on the job can never complete, although nothing was lost.
  lemma RestartOrphans(j: JobId) returns (steps: seq<P.Step>, q: P.State)
    requires IsUuid(j)
    ensures P.Reaches(P.Init(500, 100), steps, q)
    ensures j in q.imp.jobs && Orphaned(q.imp.jobs[j]) && q.imp.jobs[j].lost == 0 && q.imp.buffer == []
    ensures forall more, r :: P.Reaches(q, more, r) ==> j in r.imp.jobs && !r.imp.jobs[j].row.status.Completed?
  {
    hide P.Reaches;
    var evt := ProductImported(j, 2, ProductData("m", "p", "n", 1, "USD", ""));
    steps := OrphaningRun(j, evt);
    q := After(Stored(Status.Processing, None), j, evt);
    forall more, r | P.Reaches(q, more, r) ensures j in r.imp.jobs && !r.imp.jobs[j].row.status.Completed? {
      Records.StuckNeverCompletes(q, more, r, j);
    }
  }
}
