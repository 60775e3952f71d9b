// The importer's rows against both consumers of the log, and the two consumers against each other.
module Views {
  import opened Wrappers
  import opened Events
  import opened Products
  import opened Upserts
  import opened Text
  import opened Dates
  import opened Normalizer
  import opened Writers
  import Stream
  import StreamCatalog
  import P = Projection

  // ---------------------------------------------------------------- what the importer publishes

  // Every row the normalizer accepts, published under a UUID job id, passes the worker's own
  // validation and the projector's filter, with the same product.
  lemma NormalizedIsAdmitted(
      merchantId: string, productId: string, name: string, price: string, currency: string, expiration: string,
      hash: string -> nat, job: JobId, rowNum: int, partition: nat)
    requires IsUuid(job)
    requires Normalize(merchantId, productId, name, price, currency, expiration, hash).Success?
    ensures var p := Normalize(merchantId, productId, name, price, currency, expiration, hash).value;
            var rec := Record(partition, Decoded(ProductImported(job, rowNum, p)));
            && KindOf(rec).Valid? && P.Accepts(rec)
            && FromEvent(rec.body.evt) == Success(Carried(rec.body.evt))
  {
    hide Normalize, Normal;
    AcceptedIsNormal(merchantId, productId, name, price, currency, expiration, hash);
    NormalIsAdmitted(Normalize(merchantId, productId, name, price, currency, expiration, hash).value, job, rowNum,
        partition);
  }

  lemma NormalIsAdmitted(p: ProductData, job: JobId, rowNum: int, partition: nat)
    requires Normal(p) && IsUuid(job)
    ensures var rec := Record(partition, Decoded(ProductImported(job, rowNum, p)));
            && KindOf(rec).Valid? && P.Accepts(rec)
            && FromEvent(rec.body.evt) == Success(Carried(rec.body.evt))
  {
    CurrencyFixed(p.currency);
  }

  // Of those products, both statements take exactly the ones whose text has no NUL character and whose
  // date is not in the year 0, which the parser accepts and the date column does not.
  lemma NormalIsStorable(p: ProductData, job: JobId, rowNum: int)
    requires Normal(p)
    ensures var row := Carried(ProductImported(job, rowNum, p));
            && (CatalogTakes(row) <==> !("0000" <= p.expirationDate))
            && (CatalogTakes(row) <==> ProjectionTakes(row))
            && (BindsText(row) <==>
                  TextColumn(p.merchantId) && TextColumn(p.productId) && TextColumn(p.name) && TextColumn(job))
            && (IsUuid(job) ==> TextColumn(job))
  {
    CurrencyLetters(p.currency);
    if IsUuid(job) { UuidIsText(job); }
    if p.expirationDate != "" {
      var d: Date :| d.Valid() && p.expirationDate == d.Canonical();
      IsoExactly(p.expirationDate, d);
      YearZero(d);
      CanonicalIsText(d);
    }
  }

  lemma CanonicalIsText(d: Date)
    ensures TextColumn(d.Canonical())
  {
    hide Pad;
    assert '\0' !in Pad(d.year, 4) && '\0' !in Pad(d.month, 2) && '\0' !in Pad(d.day, 2);
  }

  lemma YearZero(d: Date)
    requires d.Valid()
    ensures "0000" <= d.Canonical() <==> d.year == 0
  {
    assert d.Canonical()[..4] == Pad(d.year, 4);
    NatOfPadded(d);
    NatOfPadded(Date(0, 1, 1));
    ZeroPad();
    if "0000" <= d.Canonical() { assert Pad(d.year, 4) == "0000"; }
  }

  lemma ZeroPad()
    ensures Pad(0, 4) == "0000"
  {
    assert Pad(0, 1) == "0" && Pad(0, 2) == "00" && Pad(0, 3) == "000";
  }

  // The two filters side by side, in the event's own fields: the projector asks for a UUID job and the
  // two ids, the catalog for a name, a price and a currency as well.
  lemma FiltersExactly(rec: Record, k: Key)
    ensures P.AcceptsKey(rec, k) <==>
              && rec.body.Decoded? && IsUuid(rec.body.evt.jobId)
              && rec.body.evt.product.merchantId == k.merchantId && rec.body.evt.product.productId == k.productId
              && k.merchantId != "" && k.productId != ""
    ensures Admissible(rec, k) <==>
              && P.AcceptsKey(rec, k)
              && var p := rec.body.evt.product; p.name != "" && p.priceCents >= 0 && p.currency != ""
    ensures P.AcceptsKey(rec, k) ==> (KindOf(rec).Valid? <==> Admissible(rec, k))
  {
    KeyExactly(rec, k);
  }

  // ---------------------------------------------------------------- the two tables

  lemma ValidIsAccepted(rec: Record, k: Key)
    requires HasKey(rec, k)
    ensures P.AcceptsKey(rec, k) && Stream.RowOf(rec).row == Carried(rec.body.evt)
  {
  }

  lemma CatalogRowsAreValid(log: seq<Record>, ids: set<nat>, k: Key)
    requires k in StreamCatalog.CatalogOf(log, ids)
    ensures StreamCatalog.CatalogOf(log, ids)[k].Validate().None?
  {
    hide StreamCatalog.CatalogOf;
    StreamCatalog.CatalogOfAt(log, ids, k);
    var i: nat :| StreamCatalog.Newest(log, ids, k, i) &&
        StreamCatalog.CatalogOf(log, ids)[k] == Stream.RowOf(log[i]).row;
  }

  ghost predicate Projected(log: seq<Record>, table: map<Key, Product>, k: Key) {
    && (k in table ==> exists i: nat :: P.NewestAccepted(log, k, i) && table[k] == Carried(log[i].body.evt))
    && (forall i: nat :: i < |log| && P.AcceptsKey(log[i], k) ==> k in table)
  }

  lemma AgreesAtKey(log: seq<Record>, table: map<Key, Product>, k: Key)
    requires Projected(log, table, k)
    ensures AgreeAt(StreamCatalog.CatalogOf(log, StreamCatalog.AllIds(log)), table, k) <==>
              forall i: nat :: P.NewestAccepted(log, k, i) ==> KindOf(log[i]).Valid?
  {
    hide StreamCatalog.CatalogOf, FromEvent, KindOf;
    var ids := StreamCatalog.AllIds(log);
    var catalog := StreamCatalog.CatalogOf(log, ids);
    StreamCatalog.CatalogOfAt(log, ids, k);
    if k in catalog {
      CatalogRowsAreValid(log, ids, k);
      var v: nat :| StreamCatalog.Newest(log, ids, k, v) && catalog[k] == Stream.RowOf(log[v]).row;
      ValidIsAccepted(log[v], k);
      assert k in table;
      var a: nat :| P.NewestAccepted(log, k, a) && table[k] == Carried(log[a].body.evt);
      NewestIsValid(log, k, a, v);
    } else if k in table {
      var a: nat :| P.NewestAccepted(log, k, a) && table[k] == Carried(log[a].body.evt);
      NeverValid(log[a], k);
      assert !HasKey(log[a], k);
    }
  }

  lemma NeverValid(rec: Record, k: Key)
    requires P.AcceptsKey(rec, k)
    ensures HasKey(rec, k) <==> KindOf(rec).Valid?
    ensures KindOf(rec).Valid? <==> Carried(rec.body.evt).Validate().None?
  {
  }

  lemma NewestIsValid(log: seq<Record>, k: Key, a: nat, v: nat)
    requires P.NewestAccepted(log, k, a)
    requires StreamCatalog.Newest(log, StreamCatalog.AllIds(log), k, v)
    ensures KindOf(log[a]).Valid? <==> a == v
    ensures !KindOf(log[a]).Valid? ==> Carried(log[a].body.evt).Validate().Some?
    ensures Stream.RowOf(log[v]).row.Validate().None? && Stream.RowOf(log[v]).row == Carried(log[v].body.evt)
    ensures forall i: nat :: P.NewestAccepted(log, k, i) ==> i == a
  {
    hide FromEvent;
    NeverValid(log[a], k);
    ValidIsAccepted(log[v], k);
    NeverValid(log[v], k);
    assert v <= a;
  }

  // Once both consumers have read the whole log, however each batched, redelivered, retried or
  // restarted, the catalog and the projection hold the same products exactly when, for every
  // product, the newest event the projector accepts is also one the catalog accepts.
  lemma ViewsAgreeExactly(
      maxPoll: nat, catalogSteps: seq<Stream.Step>, s: Stream.State, viewSteps: seq<P.Step>, q: P.State)
    requires Stream.Reaches(Stream.Init(maxPoll), catalogSteps, s) && StreamCatalog.NoReset(catalogSteps)
    requires P.Reaches(P.START, viewSteps, q)
    requires q.log == s.log && StreamCatalog.Drained(s) && forall i: nat :: i < |q.log| ==> i in q.committed
    ensures s.table == q.table <==> forall k, i: nat :: P.NewestAccepted(s.log, k, i) ==> KindOf(s.log[i]).Valid?
  {
    hide StreamCatalog.CatalogOf, StreamCatalog.Inv, StreamCatalog.AllIds, KindOf, P.AcceptsKey;
    StreamCatalog.StartInv(maxPoll);
    StreamCatalog.RunKeepsInv(Stream.Init(maxPoll), catalogSteps, s);
    StreamCatalog.NothingDropped(Stream.Init(maxPoll), catalogSteps, s);
    StreamCatalog.DrainedIsFoldOfLog(s);
    var ids := StreamCatalog.AllIds(s.log);
    assert ids - s.dropped == ids;
    forall k
      ensures AgreeAt(s.table, q.table, k) <==> forall i: nat :: P.NewestAccepted(s.log, k, i) ==>
              KindOf(s.log[i]).Valid?
    {
      P.CaughtUpHoldsNewest(viewSteps, q, k);
      AgreesAtKey(s.log, q.table, k);
    }
    if forall k, i: nat :: P.NewestAccepted(s.log, k, i) ==> KindOf(s.log[i]).Valid? {
      SameTable(s.table, q.table);
    }
    if s.table == q.table {
      forall k, i: nat | P.NewestAccepted(s.log, k, i) ensures KindOf(s.log[i]).Valid? {
        assert AgreeAt(s.table, q.table, k);
      }
    }
  }

  ghost predicate OnlyImports(log: seq<Record>) {
    forall i :: 0 <= i < |log| ==>
      log[i].body.Decoded? && IsUuid(log[i].body.evt.jobId) && Normal(log[i].body.evt.product)
  }

  // In particular they agree on a log that only imports wrote, and nothing on it is dead-lettered.
  lemma ImportedViewsAgree(
      maxPoll: nat, catalogSteps: seq<Stream.Step>, s: Stream.State, viewSteps: seq<P.Step>, q: P.State)
    requires Stream.Reaches(Stream.Init(maxPoll), catalogSteps, s) && StreamCatalog.NoReset(catalogSteps)
    requires P.Reaches(P.START, viewSteps, q)
    requires q.log == s.log && StreamCatalog.Drained(s) && forall i: nat :: i < |q.log| ==> i in q.committed
    requires OnlyImports(s.log)
    ensures s.table == q.table && s.dlq == {}
  {
    hide Normal, StreamCatalog.Drained, StreamCatalog.CaughtUp, KindOf;
    forall i | 0 <= i < |s.log| ensures KindOf(s.log[i]).Valid? {
      var evt := s.log[i].body.evt;
      NormalIsAdmitted(evt.product, evt.jobId, evt.rowNum, s.log[i].partition);
      assert s.log[i] == Record(s.log[i].partition, Decoded(ProductImported(evt.jobId, evt.rowNum, evt.product)));
    }
    ViewsAgreeExactly(maxPoll, catalogSteps, s, viewSteps, q);
    StreamCatalog.EffectivelyOnce(maxPoll, catalogSteps, s);
  }

  // A foreign event can set them apart for good: the projector keeps what the catalog dead-letters.
  lemma ForeignEventSetsViewsApart(job: JobId)
    requires IsUuid(job)
    ensures var rec := Record(0, Decoded(ProductImported(job, 2, ProductData("m", "p", "", 100, "USD", ""))));
            P.NewestAccepted([rec], Key("m", "p"), 0) && KindOf(rec).Invalid?
  {
  }
}
