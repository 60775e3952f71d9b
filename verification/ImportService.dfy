// One upload: stream the rows, publish the valid ones, keep the job's counters, confirm, await.
module ImportService {
  import opened Wrappers
  import opened Effects
  import opened Events
  import opened Normalizer
  import opened Columns
  import opened Jobs
  import opened Publishers
  import opened Division
  import opened Goroutines
  import I = Importer

  // What the CSV reader delivers: no usable header, or a header and then records or parse errors.
  datatype Input = NoHeader | Table(header: seq<string>, records: seq<Result<seq<string>, ()>>)

  predicate Usable(input: Input, lower: string -> string) {
    input.Table? && Mappable(Names(input.header, lower))
  }

  datatype Stats = Stats(totalRows: nat, validRows: nat, invalidRows: nat)

  // A record of another width than the header's is a parse error. The header itself is row 1.
  function RowAt(cols: Cols, width: nat, records: seq<Result<seq<string>, ()>>, n: nat, opts: Options,
        hash: string -> nat)
      : Row
    requires n < |records|
  {
    match records[n]
    case Failure(_) => Row(n + 2, Failure(Malformed))
    case Success(record) =>
      if |record| == width && Fits(cols, record) then ParseRow(n + 2, cols, record, opts, hash)
      else Row(n + 2, Failure(Malformed))
  }

  ghost function RowsFrom(cols: Cols, width: nat, records: seq<Result<seq<string>, ()>>, opts: Options,
        hash: string -> nat)
      : seq<Row>
  {
    seq(|records|, n requires 0 <= n < |records| => RowAt(cols, width, records, n, opts, hash))
  }

  // Every record of the header's width is read as the cells it holds, under its own number; one that
  // cannot be parsed, or has another width, is malformed, and no other is.
  ghost predicate RowsRead(
      cols: Cols, width: nat, records: seq<Result<seq<string>, ()>>, opts: Options, hash: string -> nat, all: seq<Row>)
  {
    && |all| == |records|
    && (forall n :: 0 <= n < |records| ==> RowRead(cols, width, records[n], n, opts, hash, all[n]))
  }

  ghost predicate RowRead(
      cols: Cols, width: nat, record: Result<seq<string>, ()>, n: nat, opts: Options, hash: string -> nat, row: Row)
  {
    && row.num == n + 2
    && (row.outcome == Failure(Malformed) <==> record.Failure? || |record.value| != width)
    && (record.Success? && |record.value| == width ==>
          && Fits(cols, record.value)
          && (forall p :: Prints(cols, record.value, opts, hash, p) ==> row.outcome == Success(p))
          && (forall merchantId, productId, name, price, currency, expiration ::
                CellsAre(cols, record.value, opts, merchantId, productId, name, price, currency, expiration) ==>
                row.outcome == Normalize(merchantId, productId, name, price, currency, expiration, hash)))
  }

  lemma RowIsRead(
      cols: Cols, names: seq<string>, records: seq<Result<seq<string>, ()>>, n: nat, opts: Options, hash: string -> nat)
    requires Maps(cols, names) && n < |records|
    ensures RowRead(cols, |names|, records[n], n, opts, hash, RowAt(cols, |names|, records, n, opts, hash))
  {
    hide Maps, Normalize, Prints, CellsAre, ParseRow;
    if records[n].Success? && |records[n].value| == |names| {
      var record := records[n].value;
      MappedFits(cols, names, record);
      forall p | Prints(cols, record, opts, hash, p)
        ensures ParseRow(n + 2, cols, record, opts, hash).outcome == Success(p)
      {
        PrintedRowIsRead(n + 2, cols, record, opts, hash, p);
      }
      forall merchantId, productId, name, price, currency, expiration
        | CellsAre(cols, record, opts, merchantId, productId, name, price, currency, expiration)
        ensures ParseRow(n + 2, cols, record, opts, hash) ==
                Row(n + 2, Normalize(merchantId, productId, name, price, currency, expiration, hash))
      {
        RowExactly(n + 2, cols, record, opts, hash, merchantId, productId, name, price, currency, expiration);
      }
      RowIsWellFormed(n + 2, cols, record, opts, hash);
    }
  }

  lemma RowIsWellFormed(num: nat, cols: Cols, record: seq<string>, opts: Options, hash: string -> nat)
    requires Fits(cols, record)
    ensures ParseRow(num, cols, record, opts, hash).num == num
    ensures ParseRow(num, cols, record, opts, hash).outcome != Failure(Malformed)
  {
    hide Normalize;
  }

  lemma AllRowsAreRead(
      cols: Cols, names: seq<string>, records: seq<Result<seq<string>, ()>>, opts: Options, hash: string -> nat)
    requires Maps(cols, names)
    ensures RowsRead(cols, |names|, records, opts, hash, RowsFrom(cols, |names|, records, opts, hash))
  {
    hide Maps, RowRead, RowAt;
    forall n | 0 <= n < |records|
      ensures RowRead(cols, |names|, records[n], n, opts, hash, RowsFrom(cols, |names|, records, opts, hash)[n])
    {
      RowIsRead(cols, names, records, n, opts, hash);
    }
  }

  // The events of the valid rows, in file order.
  ghost function EventsOf(job: JobId, rows: seq<Row>): seq<ProductImported> {
    if rows == [] then []
    else
      var rest := EventsOf(job, rows[..|rows| - 1]);
      var last := rows[|rows| - 1];
      if last.Valid() then rest + [ProductImported(job, last.num, last.outcome.value)] else rest
  }

  lemma {:induction false} EventsSnoc(job: JobId, rows: seq<Row>, row: Row)
    ensures EventsOf(job, rows + [row]) ==
              EventsOf(job, rows) + if row.Valid() then [ProductImported(job, row.num, row.outcome.value)] else []
  {
    assert (rows + [row])[..|rows|] == rows;
  }

  lemma NoEvents(job: JobId)
    ensures EventsOf(job, []) == []
  {
  }

  predicate Sound(p: Progress) {
    p.totalRows == p.validRows + p.invalidRows && p.publishedRows == p.validRows
  }

  // The state a running import's callback captures.
  class Import {
    const ctx: Context
    const job: JobId
    const store: JobStore
    const publisher: Publisher
    const flushEvery: nat
    var total: nat
    var valid: nat
    var invalid: nat
    var published: nat

    // What the publisher had accepted before, the rows taken in, and every progress write made.
    ghost const base: seq<ProductImported>
    ghost var rows: seq<Row>
    ghost var writes: seq<Progress>
    const trail: Trail

    constructor (ctx: Context, job: JobId, store: JobStore, publisher: Publisher, flushEvery: nat, trail: Trail)
      requires flushEvery >= 1 && publisher.Valid()
      requires job in store.jobs && store.jobs[job].publishedRows == 0
      requires trail.Valid() && trail.flushEvery == flushEvery && trail.acts == []
      requires trail.now == Begun(store.jobs[job], ctx.expired)
      ensures this.ctx == ctx && this.job == job && this.store == store && this.trail == trail
      ensures this.publisher == publisher && this.flushEvery == flushEvery
      ensures Valid() && rows == [] && writes == [] && base == publisher.accepted
    {
      this.ctx, this.job, this.store, this.publisher, this.flushEvery := ctx, job, store, publisher, flushEvery;
      this.trail := trail;
      total, valid, invalid, published := 0, 0, 0, 0;
      base, rows, writes := publisher.accepted, [], [];
      new;
      assert LastMultiple(0, flushEvery) == 0;
      assert base + [] == base;
    }

    ghost predicate Counted()
      reads this
    {
      && total == |rows| == valid + invalid && published == valid == |EventsOf(job, rows)|
      && forall n :: 0 <= n < |writes| ==> Sound(writes[n])
    }

    // The protocol's job, its goroutine at the given stage with these counters.
    ghost function JobAt(stage: I.Stage): I.Job
      reads this, store, ctx
      requires job in store.jobs
    {
      I.Job(store.jobs[job], Some(I.Proc(stage, total, valid, invalid, published, ctx.expired)), published, 0)
    }

    ghost predicate Tracks()
      reads this, trail
    {
      trail.Valid() && trail.flushEvery == flushEvery && Sent(trail.acts) == EventsOf(job, rows)
    }

    // The goroutine has given up; a failure is still to be recorded.
    ghost predicate GaveUp()
      reads this, store, ctx, trail
    {
      Tracks() && job in store.jobs && trail.Shows(store.jobs[job], ctx.expired) && trail.now.At(I.Failing)
    }

    // Between rows: the counters are the rows taken in, the publisher has exactly the valid rows'
    // events, the stored published count trails by the rows since the last multiple, and the protocol's
    // goroutine streams.
    ghost predicate Valid()
      reads this, store, publisher, ctx, trail
    {
      && flushEvery >= 1 && publisher.Valid() && Counted()
      && publisher.accepted == base + EventsOf(job, rows)
      && job in store.jobs
      && store.jobs[job].publishedRows == LastMultiple(published, flushEvery)
      && Tracks() && trail.now == JobAt(I.Streaming)
    }

    // Something went wrong: the deadline passed, the database failed a call, or the broker a delivery.
    twostate predicate Disturbed()
      reads ctx, store, publisher
    {
      ctx.expired || store.failures > old(store.failures) || old(publisher.firstErr) ||
          publisher.reported > old(publisher.reported)
    }

    // And it is not forgotten.
    twostate predicate Remembers()
      reads store, publisher
    {
      && store.failures >= old(store.failures) && publisher.reported >= old(publisher.reported)
      && (publisher.firstErr ==> old(publisher.firstErr) || publisher.reported > old(publisher.reported))
    }

    // Records the counters, as they stand, on the job, unless the context has expired.
    method FlushProgress(ghost stage: I.Stage) returns (ok: bool)
      requires Counted() && job in store.jobs && Tracks() && trail.now == JobAt(stage)
      requires stage.StoringCounts? || stage.StoringFinal?
      modifies this`writes, store`jobs, store`failures, ctx, trail
      ensures Counted() && job in store.jobs && Tracks()
      ensures old(ctx.expired) ==> ctx.expired
      ensures ctx.expired ==> !ok && store.jobs == old(store.jobs) && writes == old(writes)
      ensures store.failures == old(store.failures) + if ok || ctx.expired then 0 else 1
      ensures var p := Progress(total, valid, invalid, published);
              var stored := old(store.jobs)[job := WithProgress(old(store.jobs)[job], p)];
              && (store.jobs == stored || (!ok && store.jobs == old(store.jobs)))
              && (writes == old(writes) + [p] || (!ok && writes == old(writes) && store.jobs == old(store.jobs)))
      ensures ok ==> trail.now == JobAt(if stage.StoringCounts? then I.Streaming
                                        else if published == 0 then I.MarkingEmpty else I.MarkingProcessing)
      ensures !ok ==> GaveUp()
    {
      hide EventsOf, Sent, Path;
      ctx.Pass();
      trail.Late(ctx.expired);
      if ctx.expired {
        trail.Take(Do(I.GiveUp, false));
        return false;
      }
      var p := Progress(total, valid, invalid, published);
      writes := writes + [p];
      ghost var before := store.jobs;
      ok := store.UpdateProgress(job, p);
      if ok || store.jobs != before {
        trail.Take(Do(if stage.StoringCounts? then I.StoreCounts(ok) else I.StoreFinal(ok), false));
      } else {
        trail.Take(Do(I.GiveUp, false));
      }
    }

    // Between two rows, time passes.
    method Tick() returns (late: bool)
      requires Valid()
      modifies ctx, trail
      ensures late == ctx.expired && (old(ctx.expired) ==> late)
      ensures if late then GaveUp() else Valid()
    {
      hide EventsOf, Sound, LastMultiple, Sent, Path;
      ctx.Pass();
      trail.Late(ctx.expired);
      late := ctx.expired;
      if late {
        trail.Take(Do(I.GiveUp, false));
      }
    }

    // No usable header.
    ghost method Refuse()
      requires Valid()
      modifies trail
      ensures GaveUp()
    {
      hide EventsOf, Sound, LastMultiple, Sent, Path;
      trail.Take(Do(I.GiveUp, false));
    }

    // At the end of the file: waits for the deliveries.
    method Wait() returns (ok: bool, ghost sent: seq<ProductImported>, ghost failures: multiset<ProductImported>)
      requires Valid()
      modifies publisher, ctx, trail
      ensures publisher.Valid() && Counted() && Tracks() && (old(ctx.expired) ==> ctx.expired)
      ensures !ctx.expired ==> publisher.buffer == []
      ensures old(publisher.topic) <= publisher.topic && EndsWith(publisher.topic, sent)
      ensures (ok <==> failures == multiset{}) && !publisher.firstErr
      ensures publisher.reported >= old(publisher.reported)
      ensures !ok ==> old(publisher.firstErr) || publisher.reported > old(publisher.reported)
      ensures Settles(old(publisher.accepted), sent, failures, publisher.buffer)
      ensures trail.now == JobAt(if ok then I.StoringFinal else I.Failing)
    {
      hide EventsOf, Sound, LastMultiple, Sent, Path, Settles, EndsWith;
      trail.Take(Do(I.EndOfFile, false));
      ok, sent, failures := publisher.Flush(ctx);
      trail.Late(ctx.expired);
      trail.Take(Do(I.FlushReturns, !ok));
    }

    // And then stores the final counters.
    method Conclude() returns (ok: bool, ghost sent: seq<ProductImported>)
      requires Valid()
      modifies this`writes, store`jobs, store`failures, publisher, ctx, trail
      ensures publisher.Valid() && job in store.jobs && store.jobs[job].status == old(store.jobs)[job].status
      ensures Tracks() && (old(ctx.expired) ==> ctx.expired && !ok)
      ensures ok ==>
                && Delivered(old(publisher.accepted), sent, publisher.topic)
                && Described(store.jobs[job], total, published)
                && trail.now == JobAt(if published == 0 then I.MarkingEmpty else I.MarkingProcessing)
      ensures !ok ==> GaveUp() && Disturbed()
      ensures Remembers()
    {
      hide EventsOf, Sound, LastMultiple, Sent, Path, Settles, EndsWith, Delivered, Conserved, Flagged;
      ghost var evts, failures := publisher.accepted, multiset{};
      ok, sent, failures := Wait();
      if !ok {
        return;
      }
      ghost var buffer := publisher.buffer;
      ok := FlushProgress(I.StoringFinal);
      if ok {
        AllSent(evts, sent, buffer, publisher.topic);
      }
    }

    method Emit(row: Row) returns (ok: bool)
      requires Valid()
      modifies this`total, this`valid, this`invalid, this`published, this`rows, this`writes
      modifies store`jobs, store`failures, publisher, ctx, trail
      ensures (ok ==> Valid() && rows == old(rows) + [row]) && (old(ctx.expired) ==> ctx.expired)
      ensures !ok ==> GaveUp() && Disturbed()
      ensures Remembers()
      ensures publisher.Valid() && old(publisher.topic) <= publisher.topic
      ensures forall n :: 0 <= n < |writes| ==> Sound(writes[n])
      ensures !ok ==> rows == old(rows) || rows == old(rows) + [row]
      ensures publisher.accepted == base + EventsOf(job, rows)
      ensures job in store.jobs && store.jobs[job].status == old(store.jobs)[job].status
    {
      hide EventsOf, Sound, LastMultiple, Sent, Path;
      EventsSnoc(job, rows, row);
      total := total + 1;
      if !row.Valid() {
        invalid := invalid + 1;
        rows := rows + [row];
        trail.Take(Do(I.InvalidRow, false));
        assert publisher.accepted == base + EventsOf(job, rows);
        return true;
      }
      ok := Publish(row);
    }

    // With a row counted but not yet published.
    ghost function Halfway(): I.Job
      reads this, store, ctx
      requires job in store.jobs && total >= 1
    {
      I.Job(store.jobs[job], Some(I.Proc(I.Streaming, total - 1, valid, invalid, published, ctx.expired)), published, 0)
    }

    // The callback for a valid row; `total` has been counted already.
    method Publish(row: Row) returns (ok: bool)
      requires row.Valid() && flushEvery >= 1 && publisher.Valid()
      requires total == |rows| + 1 == valid + invalid + 1 && published == valid == |EventsOf(job, rows)|
      requires forall n :: 0 <= n < |writes| ==> Sound(writes[n])
      requires publisher.accepted == base + EventsOf(job, rows)
      requires job in store.jobs && store.jobs[job].publishedRows == LastMultiple(published, flushEvery)
      requires Tracks() && trail.now == Halfway()
      modifies this`valid, this`published, this`rows, this`writes, store`jobs, store`failures, publisher, ctx, trail
      ensures (ok ==> Valid() && rows == old(rows) + [row]) && (old(ctx.expired) ==> ctx.expired)
      ensures !ok ==> GaveUp() && Disturbed()
      ensures Remembers()
      ensures publisher.Valid() && old(publisher.topic) <= publisher.topic
      ensures forall n :: 0 <= n < |writes| ==> Sound(writes[n])
      ensures !ok ==> rows == old(rows) || rows == old(rows) + [row]
      ensures publisher.accepted == base + EventsOf(job, rows)
      ensures job in store.jobs && store.jobs[job].status == old(store.jobs)[job].status
    {
      hide EventsOf, Sound, LastMultiple, Sent, Path, Conserved, Flagged, EndsWith;
      ok := publisher.Publish(ProductImported(job, row.num, row.outcome.value));
      if !ok {
        Refused();
        return false;
      }
      Take(row);
      if published % flushEvery == 0 {
        ok := FlushProgress(I.StoringCounts);
      }
    }

    // The publisher refused the row.
    ghost method Refused()
      requires job in store.jobs && total >= 1 && Tracks() && trail.now == Halfway()
      modifies trail
      ensures GaveUp()
    {
      hide EventsOf, Sent, Path;
      trail.Take(Do(I.GiveUp, false));
    }

    // Counts a published row.
    method Take(row: Row)
      requires row.Valid() && flushEvery >= 1 && job in store.jobs && !publisher.firstErr
      requires total == |rows| + 1 == valid + invalid + 1 && published == valid == |EventsOf(job, rows)|
      requires forall n :: 0 <= n < |writes| ==> Sound(writes[n])
      requires Tracks() && trail.now == Halfway()
      modifies this`valid, this`published, this`rows, trail
      ensures Tracks() && trail.now == JobAt(if published % flushEvery == 0 then I.StoringCounts else I.Streaming)
      ensures Counted() && rows == old(rows) + [row] && published == old(published) + 1
      ensures EventsOf(job, rows) == EventsOf(job, old(rows)) + [ProductImported(job, row.num, row.outcome.value)]
      ensures LastMultiple(published, flushEvery) ==
                if published % flushEvery == 0 then published else LastMultiple(published - 1, flushEvery)
    {
      hide EventsOf, Sound, LastMultiple, Sent, Path;
      EventsSnoc(job, rows, row);
      Trails(published, flushEvery);
      trail.Take(Do(I.ValidRow(ProductImported(job, row.num, row.outcome.value)), publisher.firstErr));
      valid := valid + 1;
      published := published + 1;
      rows := rows + [row];
    }
  }

  function LastMultiple(n: nat, every: nat): (m: nat)
    requires every >= 1
    ensures m <= n < m + every && m % every == 0
  {
    assert (n / every) * every == n - n % every;
    Quotient(n - n % every, every, n / every, 0);
    n - n % every
  }

  // The last multiple moves only when it is reached.
  lemma Trails(n: nat, every: nat)
    requires every >= 1
    ensures LastMultiple(n + 1, every) == if (n + 1) % every == 0 then n + 1 else LastMultiple(n, every)
  {
    var q, r := n / every, n % every;
    assert n == every * q + r;
    if r + 1 < every {
      Quotient(n + 1, every, q, r + 1);
    } else {
      assert n + 1 == every * (q + 1) + 0;
      Quotient(n + 1, every, q + 1, 0);
    }
  }

  // ---------------------------------------------------------------- the stream

  datatype StreamEnd = HeaderRejected | ContextExpired | EmitFailed | EndOfFile

  // Emits one row per record, in order; stops at the first row the sink refuses, or at the context's end.
  method Stream(input: Input, opts: Options, lower: string -> string, hash: string -> nat, sink: Import)
      returns (stats: Stats, end: StreamEnd, ghost all: seq<Row>)
    requires sink.Valid() && sink.rows == []
    modifies sink`total, sink`valid, sink`invalid, sink`published, sink`rows, sink`writes
    modifies sink.store`jobs, sink.store`failures, sink.publisher, sink.ctx, sink.trail
    ensures old(sink.ctx.expired) ==> sink.ctx.expired
    ensures !end.EndOfFile? ==> sink.GaveUp()
    ensures end.ContextExpired? || end.EmitFailed? ==> sink.Disturbed()
    ensures sink.Remembers()
    ensures end.HeaderRejected? <==> !Usable(input, lower)
    ensures !end.HeaderRejected? ==>
              exists cols :: Maps(cols, Names(input.header, lower)) &&
                  all == RowsFrom(cols, |input.header|, input.records, opts, hash) &&
                  RowsRead(cols, |input.header|, input.records, opts, hash, all)
    ensures sink.rows <= all && (end.EndOfFile? ==> sink.Valid() && sink.rows == all)
    ensures end.EndOfFile? ==>
              && stats.totalRows == |all| && stats.totalRows == stats.validRows + stats.invalidRows
              && stats.validRows == |EventsOf(sink.job, all)|
    ensures sink.publisher.Valid() && old(sink.publisher.topic) <= sink.publisher.topic
    ensures sink.publisher.accepted == sink.base + EventsOf(sink.job, sink.rows)
    ensures forall n :: 0 <= n < |sink.writes| ==> Sound(sink.writes[n])
    ensures sink.job in sink.store.jobs && sink.store.jobs[sink.job].status == old(sink.store.jobs)[sink.job].status
  {
    hide EventsOf, RowAt, Maps, Names, Sound, RowsFrom, RowsRead, Sent, Path;
    stats, all := Stats(0, 0, 0), [];
    NoEvents(sink.job);
    if input.NoHeader? {
      sink.Refuse();
      return stats, HeaderRejected, all;
    }
    var mapped := MapColumns(input.header, lower);
    if mapped.Failure? {
      sink.Refuse();
      return stats, HeaderRejected, all;
    }
    all := RowsFrom(mapped.value, |input.header|, input.records, opts, hash);
    assert |Names(input.header, lower)| == |input.header| by { NamesWidth(input.header, lower); }
    AllRowsAreRead(mapped.value, Names(input.header, lower), input.records, opts, hash);
    stats, end := EmitAll(mapped.value, |input.header|, input.records, opts, hash, sink);
  }

  lemma NamesWidth(header: seq<string>, lower: string -> string)
    ensures |Names(header, lower)| == |header|
  {
  }

  method EmitAll(cols: Cols, width: nat, records: seq<Result<seq<string>, ()>>, opts: Options, hash: string -> nat,
        sink: Import)
      returns (stats: Stats, end: StreamEnd)
    requires sink.Valid() && sink.rows == []
    modifies sink`total, sink`valid, sink`invalid, sink`published, sink`rows, sink`writes
    modifies sink.store`jobs, sink.store`failures, sink.publisher, sink.ctx, sink.trail
    ensures old(sink.ctx.expired) ==> sink.ctx.expired
    ensures !end.EndOfFile? ==> sink.GaveUp()
    ensures end.ContextExpired? || end.EmitFailed? ==> sink.Disturbed()
    ensures sink.Remembers()
    ensures !end.HeaderRejected?
    ensures var all := RowsFrom(cols, width, records, opts, hash);
            && sink.rows <= all
            && (end.EndOfFile? ==>
                  && sink.Valid() && sink.rows == all
                  && stats.totalRows == |all| && stats.totalRows == stats.validRows + stats.invalidRows
                  && stats.validRows == |EventsOf(sink.job, all)|)
    ensures sink.publisher.Valid() && old(sink.publisher.topic) <= sink.publisher.topic
    ensures sink.publisher.accepted == sink.base + EventsOf(sink.job, sink.rows)
    ensures forall n :: 0 <= n < |sink.writes| ==> Sound(sink.writes[n])
    ensures sink.job in sink.store.jobs && sink.store.jobs[sink.job].status == old(sink.store.jobs)[sink.job].status
  {
    hide EventsOf, RowAt, Sound, Sent, Path, LastMultiple, Conserved, Flagged, EndsWith;
    ghost var all := RowsFrom(cols, width, records, opts, hash);
    stats := Stats(0, 0, 0);
    NoEvents(sink.job);
    for n := 0 to |records|
      invariant sink.Valid() && sink.rows == all[..n]
      invariant stats.totalRows == n == stats.validRows + stats.invalidRows
      invariant sink.Remembers()
      invariant stats.validRows == |EventsOf(sink.job, all[..n])|
      invariant old(sink.publisher.topic) <= sink.publisher.topic && (old(sink.ctx.expired) ==> sink.ctx.expired)
      invariant sink.store.jobs[sink.job].status == old(sink.store.jobs)[sink.job].status
    {
      var late := sink.Tick();
      if late {
        return stats, ContextExpired;
      }
      var row := RowAt(cols, width, records, n, opts, hash);
      assert all[n] == row;
      assert all[..n + 1] == all[..n] + [row];
      EventsSnoc(sink.job, all[..n], row);
      stats := if row.Valid() then Stats(stats.totalRows + 1, stats.validRows + 1, stats.invalidRows)
               else Stats(stats.totalRows + 1, stats.validRows, stats.invalidRows + 1);
      var ok := sink.Emit(row);
      if !ok {
        return stats, EmitFailed;
      }
    }
    assert all[..|records|] == all;
    return stats, EndOfFile;
  }

  ghost predicate Publishes(e: ProductImported, job: JobId, row: Row) {
    e.jobId == job && e.rowNum == row.num && row.outcome == Success(e.product)
  }

  ghost predicate ComesFrom(e: ProductImported, job: JobId, rows: seq<Row>) {
    exists a :: 0 <= a < |rows| && Publishes(e, job, rows[a])
  }

  ghost predicate IsPublished(row: Row, job: JobId, evts: seq<ProductImported>) {
    exists e :: 0 <= e < |evts| && Publishes(evts[e], job, row)
  }

  lemma {:induction false} EventsComeFromRows(job: JobId, rows: seq<Row>)
    ensures forall e :: 0 <= e < |EventsOf(job, rows)| ==> ComesFrom(EventsOf(job, rows)[e], job, rows)
  {
    if rows != [] {
      var n := |rows| - 1;
      var evts, before := EventsOf(job, rows), EventsOf(job, rows[..n]);
      EventsComeFromRows(job, rows[..n]);
      forall e | 0 <= e < |evts| ensures ComesFrom(evts[e], job, rows) {
        if e < |before| {
          assert evts[e] == before[e];
          var a :| 0 <= a < |rows[..n]| && Publishes(before[e], job, rows[..n][a]);
          assert Publishes(evts[e], job, rows[a]);
        } else {
          assert Publishes(evts[e], job, rows[n]);
        }
      }
    }
  }

  lemma {:induction false} ValidRowsArePublished(job: JobId, rows: seq<Row>)
    ensures forall a :: 0 <= a < |rows| && rows[a].Valid() ==> IsPublished(rows[a], job, EventsOf(job, rows))
  {
    if rows != [] {
      var n := |rows| - 1;
      var evts, before := EventsOf(job, rows), EventsOf(job, rows[..n]);
      ValidRowsArePublished(job, rows[..n]);
      forall a | 0 <= a < |rows| && rows[a].Valid() ensures IsPublished(rows[a], job, evts) {
        if a < n {
          assert rows[..n][a] == rows[a];
          var e :| 0 <= e < |before| && Publishes(before[e], job, rows[a]);
          assert Publishes(evts[e], job, rows[a]);
        } else {
          assert Publishes(evts[|before|], job, rows[n]);
        }
      }
    }
  }

  lemma {:induction false} EventsAreOrdered(job: JobId, rows: seq<Row>)
    requires forall a, b :: 0 <= a < b < |rows| ==> rows[a].num < rows[b].num
    ensures forall a, b :: 0 <= a < b < |EventsOf(job, rows)| ==>
            EventsOf(job, rows)[a].rowNum < EventsOf(job, rows)[b].rowNum
  {
    if rows != [] {
      var n := |rows| - 1;
      var before := EventsOf(job, rows[..n]);
      EventsAreOrdered(job, rows[..n]);
      EventsComeFromRows(job, rows[..n]);
      forall e | 0 <= e < |before| ensures before[e].rowNum < rows[n].num {
        var a :| 0 <= a < |rows[..n]| && Publishes(before[e], job, rows[..n][a]);
      }
    }
  }

  // The events are the valid rows, each once, in file order.
  lemma EventsInFileOrder(job: JobId, rows: seq<Row>)
    requires forall a, b :: 0 <= a < b < |rows| ==> rows[a].num < rows[b].num
    ensures var evts := EventsOf(job, rows);
            && (forall a, b :: 0 <= a < b < |evts| ==> evts[a].rowNum < evts[b].rowNum)
            && (forall e :: 0 <= e < |evts| ==> ComesFrom(evts[e], job, rows))
            && (forall a :: 0 <= a < |rows| && rows[a].Valid() ==> IsPublished(rows[a], job, evts))
  {
    hide *;
    EventsAreOrdered(job, rows);
    EventsComeFromRows(job, rows);
    ValidRowsArePublished(job, rows);
  }

  lemma RowsAreNumbered(cols: Cols, width: nat, records: seq<Result<seq<string>, ()>>, opts: Options,
        hash: string -> nat)
    ensures forall n :: 0 <= n < |records| ==> RowsFrom(cols, width, records, opts, hash)[n].num == n + 2
  {
    forall n | 0 <= n < |records| ensures RowsFrom(cols, width, records, opts, hash)[n].num == n + 2 {
      assert RowsFrom(cols, width, records, opts, hash)[n] == RowAt(cols, width, records, n, opts, hash);
    }
  }

  // ---------------------------------------------------------------- the import

  // Meanwhile the tracker may have folded further reports into a live job.
  method Meanwhile(store: JobStore, job: JobId)
    requires job in store.jobs
    modifies store`jobs
    ensures job in store.jobs && Tracked(old(store.jobs)[job], store.jobs[job])
  {
    var progress: Snapshot := *;
    if store.jobs[job].Live() && store.jobs[job].progress.AtMost(progress) {
      store.jobs := store.jobs[job := store.jobs[job].(progress := progress)];
    }
  }

  // Nothing but the folded totals moved, and they only grew.
  predicate Tracked(before: JobRow, after: JobRow) {
    after == before.(progress := after.progress) && before.progress.AtMost(after.progress)
  }

  predicate Described(row: JobRow, total: nat, published: nat) {
    row.totalRows == total && row.publishedRows == published == row.validRows &&
        row.totalRows == row.validRows + row.invalidRows
  }

  ghost predicate ReadWhole(input: Input, opts: Options, lower: string -> string, hash: string -> nat, all: seq<Row>) {
    input.Table? && exists cols ::
      && Maps(cols, Names(input.header, lower)) && all == RowsFrom(cols, |input.header|, input.records, opts, hash)
      && RowsRead(cols, |input.header|, input.records, opts, hash, all)
  }

  // The events reached the end of the topic, each as often as it was published.
  ghost predicate Delivered(evts: seq<ProductImported>, sent: seq<ProductImported>, topic: seq<ProductImported>) {
    multiset(sent) == multiset(evts) && EndsWith(topic, sent)
  }

  // A goroutine about to stream.
  function Begun(row: JobRow, expired: bool): I.Job {
    I.Job(row, Some(I.Proc(I.Streaming, 0, 0, 0, 0, expired)), 0, 0)
  }

  // The status a goroutine is about to write, and the move that is.
  function Writes(job: I.Job): Option<Status> {
    if job.At(I.Failing) then Some(Failed)
    else if job.At(I.MarkingEmpty) || job.At(I.Confirming) then Some(Completed)
    else if job.At(I.MarkingProcessing) then Some(Processing)
    else None
  }

  function MoveFor(job: I.Job, landed: bool, acked: bool): I.Move {
    if job.At(I.Failing) then I.MarkFailed(landed)
    else if job.At(I.MarkingEmpty) then I.MarkEmpty(landed)
    else if job.At(I.Confirming) then I.Complete(landed)
    else if landed then I.MarkProcessing(acked)
    else I.GiveUp
  }

  lemma {:induction false} EventsPrefix(job: JobId, some: seq<Row>, all: seq<Row>)
    requires some <= all
    ensures EventsOf(job, some) <= EventsOf(job, all)
    decreases |all|
  {
    if |some| == |all| {
      assert some == all;
    } else {
      EventsPrefix(job, some, all[..|all| - 1]);
    }
  }

  // A wait that was not cut short left nothing buffered.
  lemma AllSent(
      evts: seq<ProductImported>, sent: seq<ProductImported>, buffer: seq<ProductImported>, topic: seq<ProductImported>)
    requires Settles(evts, sent, multiset{}, buffer) && buffer == [] && EndsWith(topic, sent)
    ensures Delivered(evts, sent, topic)
  {
  }

  class Service {
    const store: JobStore
    const publisher: Publisher
    const flushEvery: nat

    // A configured interval below one counts as one.
    constructor (store: JobStore, publisher: Publisher, flushEvery: int)
      ensures this.store == store && this.publisher == publisher
      ensures this.flushEvery >= 1 && (flushEvery >= 1 ==> this.flushEvery == flushEvery)
    {
      this.store, this.publisher := store, publisher;
      this.flushEvery := if flushEvery < 1 then 1 else flushEvery;
    }

    // A status write, unless the context has expired.
    method Put(ctx: Context, job: JobId, status: Status, trail: Trail) returns (ok: bool)
      requires job in store.jobs && trail.Shows(store.jobs[job], ctx.expired)
      requires Writes(trail.now) == Some(status) && store.jobs[job].status != status
      modifies store`jobs, store`failures, ctx, trail
      ensures job in store.jobs && trail.Valid() && Sent(trail.acts) == Sent(old(trail.acts))
      ensures trail.now.row == store.jobs[job]
      ensures old(ctx.expired) ==> ctx.expired
      ensures ctx.expired ==> !ok && store.jobs == old(store.jobs)
      ensures store.failures == old(store.failures) + if ok || ctx.expired then 0 else 1
      ensures var before := old(store.jobs)[job];
              store.jobs[job] == before.(status := status) || (!ok && store.jobs[job] == before)
      ensures if !status.Processing? then trail.now.proc.None?
              else trail.Shows(store.jobs[job], ctx.expired) && trail.now.At(if ok then I.Awaiting else I.Failing)
    {
      hide Path, Sent;
      ctx.Pass();
      trail.Late(ctx.expired);
      ok := false;
      ghost var before := store.jobs;
      if !ctx.expired {
        ok := store.UpdateStatus(job, status);
      }
      trail.Take(Do(MoveFor(trail.now, ok || store.jobs != before, ok), false));
    }

    // Up to the status decision: ok only if the whole file was read, every valid row's event was
    // delivered and the final counters are stored. A flush that an expired context cut short is
    // followed by a store call that fails.
    method PublishAll(
        ctx: Context, job: JobId, input: Input, opts: Options, lower: string -> string, hash: string -> nat,
        trail: Trail)
        returns (ok: bool, published: nat, ghost all: seq<Row>, ghost sent: seq<ProductImported>)
      requires flushEvery >= 1 && publisher.Valid()
      requires job in store.jobs && store.jobs[job].publishedRows == 0
      requires trail.Valid() && trail.flushEvery == flushEvery && trail.acts == []
      requires trail.now == Begun(store.jobs[job], ctx.expired)
      modifies store`jobs, store`failures, publisher, ctx, trail
      ensures publisher.Valid() && job in store.jobs && store.jobs[job].status == old(store.jobs)[job].status
      ensures old(ctx.expired) ==> ctx.expired && !ok
      ensures ok ==>
                && published == |EventsOf(job, all)|
                && ReadWhole(input, opts, lower, hash, all)
                && Delivered(old(publisher.accepted) + EventsOf(job, all), sent, publisher.topic)
                && Described(store.jobs[job], |all|, |EventsOf(job, all)|)
      ensures !ok ==>
                || !Usable(input, lower)
                || ctx.expired || store.failures > old(store.failures)
                || old(publisher.firstErr) || publisher.reported > old(publisher.reported)
      ensures store.failures >= old(store.failures) && publisher.reported >= old(publisher.reported)
      ensures trail.Shows(store.jobs[job], ctx.expired)
      ensures if !ok then trail.now.At(I.Failing) && Sent(trail.acts) <= EventsOf(job, all)
              else && trail.now.At(if published == 0 then I.MarkingEmpty else I.MarkingProcessing)
                   && Sent(trail.acts) == EventsOf(job, all)
    {
      hide EventsOf, RowsFrom, RowsRead, Maps, Names, Mappable, Sound, Sent, Path;
      hide Delivered, Conserved, Flagged, EndsWith;
      published, sent := 0, [];
      var run := new Import(ctx, job, store, publisher, flushEvery, trail);
      var _, end, rows := Stream(input, opts, lower, hash, run);
      all := rows;
      EventsPrefix(job, run.rows, all);
      if !end.EndOfFile? {
        return false, 0, all, sent;
      }
      published := run.published;
      ok, sent := run.Conclude();
    }

    // Streams, publishes, confirms and records; then awaits. The record ends processing or completed
    // only if the whole file was read, every valid row's event was delivered, and the counters say so.
    // And whatever happened, the record went the way the protocol's goroutine went. With a usable header,
    // and nothing going wrong before the deadline, an import completes unless it is given up unconfirmed.
    method Process(job: JobId, input: Input, opts: Options, lower: string -> string, hash: string -> nat, ticks: nat)
        returns (ghost all: seq<Row>, ghost sent: seq<ProductImported>, ghost late: bool, ghost expired: bool,
                 ghost acts: seq<Act>, ghost end: I.Job)
      requires flushEvery >= 1 && publisher.Valid()
      requires job in store.jobs && store.jobs[job].status.Parsing? && store.jobs[job].publishedRows == 0
      modifies store`jobs, store`failures, publisher
      ensures publisher.Valid() && job in store.jobs
      ensures var status := store.jobs[job].status;
              status.Parsing? || status.Processing? || status.Completed? || status.Failed?
      ensures store.jobs[job].status.Processing? || store.jobs[job].status.Completed? ==>
                && ReadWhole(input, opts, lower, hash, all)
                && Delivered(old(publisher.accepted) + EventsOf(job, all), sent, publisher.topic)
                && Described(store.jobs[job], |all|, |EventsOf(job, all)|)
      ensures store.jobs[job].status.Completed? ==> store.jobs[job].Confirmed()
      ensures late ==> store.jobs[job].status.Processing?
      ensures Path(Begun(old(store.jobs)[job], false), acts, flushEvery, end)
      ensures end.row == store.jobs[job] && end.proc.None? && Sent(acts) <= EventsOf(job, all)
      ensures store.jobs[job].status.Processing? || store.jobs[job].status.Completed? ==>
                Sent(acts) == EventsOf(job, all)
      ensures || !Usable(input, lower)
              || expired || store.failures > old(store.failures)
              || old(publisher.firstErr) || publisher.reported > old(publisher.reported)
              || store.jobs[job].status.Completed?
              || (store.jobs[job].status.Failed? &&
                    store.jobs[job].progress.processed + store.jobs[job].progress.dead < store.jobs[job].publishedRows)
    {
      hide EventsOf, ReadWhole, Delivered, Path, Sent, Usable;
      late := false;
      var ctx := new Context();
      var trail := new Trail(Begun(store.jobs[job], false), flushEvery);
      var ok, published, rows, delivered := PublishAll(ctx, job, input, opts, lower, hash, trail);
      all, sent := rows, delivered;
      if !ok {
        var _ := Put(ctx, job, Failed, trail);
      } else if published == 0 {
        var _ := Put(ctx, job, Completed, trail);
      } else {
        ok := Put(ctx, job, Processing, trail);
        if !ok {
          var _ := Put(ctx, job, Failed, trail);
        } else {
          late := AwaitConfirmation(ctx, job, ticks, trail);
        }
      }
      expired, acts, end := ctx.expired, trail.acts, trail.now;
    }

    // Polls the record until the catalog confirmed every published event, until someone else decided,
    // or until patience runs out. When the context's deadline, so many ticks away, comes first (`late`),
    // the failure can no longer be recorded: the record stays processing.
    method AwaitConfirmation(ctx: Context, job: JobId, ticks: nat, trail: Trail) returns (ghost late: bool)
      requires job in store.jobs && store.jobs[job].status.Processing?
      requires trail.Shows(store.jobs[job], ctx.expired) && trail.now.At(I.Awaiting)
      modifies store`jobs, store`failures, ctx, trail
      ensures job in store.jobs
      ensures var before, after := old(store.jobs)[job], store.jobs[job];
              && (after.status.Processing? || after.status.Completed? || after.status.Failed?)
              && Tracked(before, after.(status := before.status))
              && (after.status.Completed? ==> after.Confirmed())
              && (late || old(ctx.expired) ==> after.status.Processing?)
              && (after.status.Processing? ==> ctx.expired || store.failures > old(store.failures))
              && (after.status.Failed? ==> after.progress.processed + after.progress.dead < after.publishedRows)
      ensures store.failures >= old(store.failures)
      ensures trail.Valid() && Sent(trail.acts) == Sent(old(trail.acts))
      ensures trail.now.proc.None? && trail.now.row == store.jobs[job]
    {
      for i := 0 to ticks
        invariant job in store.jobs && Tracked(old(store.jobs)[job], store.jobs[job])
        invariant old(ctx.expired) ==> ctx.expired
        invariant trail.Shows(store.jobs[job], ctx.expired) && trail.now.At(I.Awaiting)
        invariant Sent(trail.acts) == Sent(old(trail.acts)) && store.failures >= old(store.failures)
      {
        hide Path, Sent, Did;
        var done := Evaluate(ctx, job, trail);
        if done {
          return false;
        }
      }
      Abandon(ctx, job, trail);
      return true;
    }

    // The tracker may move the totals.
    method Observe(job: JobId, trail: Trail)
      requires job in store.jobs && store.jobs[job].status.Processing?
      requires trail.Valid() && trail.now.row == store.jobs[job]
      modifies store`jobs, trail
      ensures job in store.jobs && Tracked(old(store.jobs)[job], store.jobs[job])
      ensures trail.Valid() && Sent(trail.acts) == Sent(old(trail.acts))
      ensures trail.now == old(trail.now).(row := store.jobs[job])
    {
      hide Path, Sent;
      Meanwhile(store, job);
      trail.Take(Totals(store.jobs[job].progress));
    }

    ghost method Read(job: JobId, expired: bool, trail: Trail)
      requires job in store.jobs && store.jobs[job].status.Processing? && !expired
      requires trail.Shows(store.jobs[job], expired) && trail.now.At(I.Awaiting)
      modifies trail
      ensures trail.Shows(store.jobs[job], expired) && Sent(trail.acts) == Sent(old(trail.acts))
      ensures trail.now.At(if store.jobs[job].Confirmed() then I.Confirming else I.Awaiting)
    {
      hide Path, Sent;
      trail.Take(Do(I.Check, false));
    }

    ghost method LosePatience(job: JobId, expired: bool, trail: Trail)
      requires job in store.jobs && trail.Shows(store.jobs[job], expired) && trail.now.At(I.Awaiting)
      modifies trail
      ensures trail.Shows(store.jobs[job], expired) && Sent(trail.acts) == Sent(old(trail.acts))
      ensures trail.now.At(I.Failing)
    {
      hide Path, Sent;
      trail.Take(Do(I.GiveUp, false));
    }

    // A read that fails for a reason of its own counts as a failed call.
    ghost method Unread(expired: bool)
      modifies store`failures
      ensures store.failures == old(store.failures) + if expired then 0 else 1
    {
      store.failures := store.failures + if expired then 0 else 1;
    }

    // One tick: the record is read, if it can be, and acted on.
    method Evaluate(ctx: Context, job: JobId, trail: Trail) returns (done: bool)
      requires job in store.jobs && store.jobs[job].status.Processing?
      requires trail.Shows(store.jobs[job], ctx.expired) && trail.now.At(I.Awaiting)
      modifies store`jobs, store`failures, ctx, trail
      ensures job in store.jobs && Sent(trail.acts) == Sent(old(trail.acts)) && (old(ctx.expired) ==> ctx.expired)
      ensures var before, after := old(store.jobs)[job], store.jobs[job];
              && (after.status.Processing? || after.status.Completed? || after.status.Failed?)
              && Tracked(before, after.(status := before.status))
              && (after.status.Completed? ==> after.Confirmed())
              && (!done || old(ctx.expired) ==> after.status.Processing?)
              && (!done ==>
                    || ctx.expired || store.failures > old(store.failures)
                    || after.progress.processed + after.progress.dead < after.publishedRows)
              && (done && after.status.Processing? ==> ctx.expired || store.failures > old(store.failures))
              && (after.status.Failed? ==> after.progress.processed + after.progress.dead < after.publishedRows)
      ensures store.failures >= old(store.failures)
      ensures if done then trail.Valid() && trail.now.proc.None? && trail.now.row == store.jobs[job]
              else trail.Shows(store.jobs[job], ctx.expired) && trail.now.At(I.Awaiting)
    {
      hide Path, Sent, Did, Can;
      Observe(job, trail);
      ctx.Pass();
      trail.Late(ctx.expired);
      var readable, patient: bool := *, *;
      if !readable || ctx.expired {
        Unread(ctx.expired);
        return false;
      }
      var row := store.jobs[job];
      Read(job, ctx.expired, trail);
      if !row.status.Processing? {
        return true;
      }
      if row.Confirmed() {
        // The gap between this read and the write below does not matter: totals only grow.
        Observe(job, trail);
        var _ := Put(ctx, job, Completed, trail);
        return true;
      }
      if !patient {
        LosePatience(job, ctx.expired, trail);
        var _ := Put(ctx, job, Failed, trail);
        return true;
      }
      return false;
    }

    // The deadline has come.
    method Abandon(ctx: Context, job: JobId, trail: Trail)
      requires job in store.jobs && store.jobs[job].status.Processing?
      requires trail.Shows(store.jobs[job], ctx.expired) && trail.now.At(I.Awaiting)
      modifies store`jobs, store`failures, ctx, trail
      ensures store.jobs == old(store.jobs) && Sent(trail.acts) == Sent(old(trail.acts))
      ensures trail.Valid() && trail.now.proc.None? && trail.now.row == store.jobs[job]
      ensures ctx.expired && store.failures == old(store.failures)
    {
      hide Path, Sent;
      ctx.expired := true;
      trail.Late(true);
      trail.Take(Do(I.GiveUp, false));
      var _ := Put(ctx, job, Failed, trail);
    }
  }
}
