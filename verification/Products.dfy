// The catalog's record and its own acceptance rule, applied independently of the producer.
module Products {
  import opened Wrappers
  import opened Events

  // The natural key of a product.
  datatype Key = Key(merchantId: string, productId: string)

  datatype Product = Product(
    merchantId: string, productId: string, name: string,
    priceCents: int, currency: string, expirationDate: string, sourceJobId: JobId)
  {
    function NaturalKey(): Key {
      Key(merchantId, productId)
    }

    function Validate(): Option<Rejection> {
      if merchantId == "" then Some(NoMerchant)
      else if productId == "" then Some(NoProduct)
      else if name == "" then Some(NoName)
      else if priceCents < 0 then Some(NegativePrice)
      else if currency == "" then Some(NoCurrency)
      else if !IsUuid(sourceJobId) then Some(JobNotUuid)
      else None
    }
  }

  datatype Rejection = NoMerchant | NoProduct | NoName | NegativePrice | NoCurrency | JobNotUuid

  function Carried(evt: ProductImported): Product {
    Product(evt.product.merchantId, evt.product.productId, evt.product.name,
            evt.product.priceCents, evt.product.currency, evt.product.expirationDate, evt.jobId)
  }

  // An event is admitted exactly when nothing required is missing, every field as it came and the job
  // as its source; otherwise the first rule it breaks is named.
  function FromEvent(evt: ProductImported): (r: Result<Product, Rejection>)
    ensures r.Success? <==>
              && evt.product.merchantId != "" && evt.product.productId != "" && evt.product.name != ""
              && evt.product.priceCents >= 0 && evt.product.currency != "" && IsUuid(evt.jobId)
    ensures r.Success? ==> r.value == Carried(evt)
    ensures r.Success? ==>
              && r.value.merchantId == evt.product.merchantId && r.value.productId == evt.product.productId
              && r.value.name == evt.product.name && r.value.priceCents == evt.product.priceCents
              && r.value.currency == evt.product.currency
              && r.value.expirationDate == evt.product.expirationDate && r.value.sourceJobId == evt.jobId
    ensures r == Failure(NoMerchant) <==> evt.product.merchantId == ""
    ensures r == Failure(NoProduct) <==> evt.product.merchantId != "" && evt.product.productId == ""
    ensures r == Failure(JobNotUuid) ==> evt.product.name != "" && evt.product.priceCents >= 0
  {
    match Carried(evt).Validate()
    case None => Success(Carried(evt))
    case Some(why) => Failure(why)
  }

  // The row that holds an event, field by field.
  ghost predicate HoldsEvent(row: Product, evt: ProductImported) {
    && row.merchantId == evt.product.merchantId && row.productId == evt.product.productId
    && row.name == evt.product.name && row.priceCents == evt.product.priceCents
    && row.currency == evt.product.currency && row.expirationDate == evt.product.expirationDate
    && row.sourceJobId == evt.jobId
  }

  // An event of an identity the catalog admits, in the event's own fields.
  ghost predicate Admissible(rec: Record, k: Key) {
    && rec.body.Decoded? && IsUuid(rec.body.evt.jobId)
    && var p := rec.body.evt.product;
       && p.merchantId == k.merchantId && p.productId == k.productId && p.merchantId != "" && p.productId != ""
       && p.name != "" && p.priceCents >= 0 && p.currency != ""
  }

  // The three ways the worker adjudicates a record.
  datatype Kind = Poison | Invalid | Valid

  function KindOf(rec: Record): Kind {
    if rec.body.Undecodable? then Poison
    else if FromEvent(rec.body.evt).Success? then Valid
    else Invalid
  }

  // The job a record counts toward.
  function JobOf(rec: Record): Option<JobId> {
    match rec.body
    case Decoded(evt) => Some(evt.jobId)
    case Undecodable(recovered) => recovered
  }

  predicate HasKey(rec: Record, k: Key) {
    KindOf(rec).Valid? && FromEvent(rec.body.evt).value.NaturalKey() == k
  }

  // A record is poison exactly when it does not decode, and invalid when it does but breaks a rule.
  lemma KindExactly(rec: Record)
    ensures KindOf(rec).Poison? <==> rec.body.Undecodable?
    ensures KindOf(rec).Valid? <==>
              && rec.body.Decoded? && IsUuid(rec.body.evt.jobId)
              && var p := rec.body.evt.product;
                 p.merchantId != "" && p.productId != "" && p.name != "" && p.priceCents >= 0 && p.currency != ""
  {
  }

  // A valid record's key is its own identity, merchant and product id, and its row holds its event.
  lemma KeyExactly(rec: Record, k: Key)
    ensures HasKey(rec, k) <==> Admissible(rec, k)
    ensures KindOf(rec).Valid? ==> HoldsEvent(FromEvent(rec.body.evt).value, rec.body.evt)
    ensures rec.body.Decoded? ==> HoldsEvent(Carried(rec.body.evt), rec.body.evt)
  {
  }

  // The routing key tells two identities apart exactly when the merchant id has no colon to hide in.
  lemma RouteExactly(a: ProductData, b: ProductData)
    requires ':' !in a.merchantId && ':' !in b.merchantId
    ensures a.PartitionKey() == b.PartitionKey() <==> a.merchantId == b.merchantId && a.productId == b.productId
  {
    var x, y := a.PartitionKey(), b.PartitionKey();
    if x == y {
      var n, m := |a.merchantId|, |b.merchantId|;
      assert x[n] == ':' && y[m] == ':';
      assert forall i :: 0 <= i < n ==> x[i] == a.merchantId[i];
      assert forall i :: 0 <= i < m ==> y[i] == b.merchantId[i];
      assert x[..n] == a.merchantId && y[..m] == b.merchantId;
      assert x[n + 1..] == a.productId && y[m + 1..] == b.productId;
    }
  }

  // Otherwise they can share one, and with it a partition; nothing more depends on the key.
  lemma RoutesCanMeet(a: ProductData, b: ProductData)
    requires (a.merchantId, a.productId) == ("m:x", "p") && (b.merchantId, b.productId) == ("m", "x:p")
    ensures a.PartitionKey() == b.PartitionKey() == "m:x:p"
  {
  }

  // Two events of one product carry the same routing key, whatever their job or row.
  lemma SameProductSameRoute(a: Record, b: Record, k: Key)
    requires HasKey(a, k) && HasKey(b, k)
    ensures a.body.evt.product.PartitionKey() == b.body.evt.product.PartitionKey()
  {
  }
}
