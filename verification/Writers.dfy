// The two materialized tables of the product log: the catalog and the importer's projection.
module Writers {
  import opened Events
  import opened Dates
  import opened Products
  import opened Upserts
  import opened Statements
  import opened Effects

  // ---------------------------------------------------------------- what the columns take

  predicate TextColumn(s: string) {
    '\0' !in s
  }

  // Years run from 1; canonical spellings only.
  predicate DateColumn(s: string) {
    s == "" || (ParseIso(s).Some? && ParseIso(s).value.year >= 1)
  }

  predicate Char3Column(s: string) {
    forall i :: 3 <= i < |s| ==> s[i] == ' '
  }

  // At most three characters, and blanks.
  lemma Char3Exactly(s: string)
    ensures Char3Column(s) <==>
              exists core, blanks ::
                |core| <= 3 && s == core + blanks && forall i :: 0 <= i < |blanks| ==> blanks[i] == ' '
  {
    if Char3Column(s) {
      var n := if |s| < 3 then |s| else 3;
      var core, blanks := s[..n], s[n..];
      assert |core| <= 3 && s == core + blanks && forall i :: 0 <= i < |blanks| ==> blanks[i] == ' ';
    }
  }

  // Every field but the price is bound as text, the date and the job id included.
  predicate BindsText(p: Product) {
    && TextColumn(p.merchantId) && TextColumn(p.productId) && TextColumn(p.name) && TextColumn(p.currency)
    && TextColumn(p.expirationDate) && TextColumn(p.sourceJobId)
  }

  predicate CatalogTakes(p: Product) {
    p.priceCents >= 0 && Char3Column(p.currency) && DateColumn(p.expirationDate)
  }

  // The projection's price is unconstrained and its currency is plain text.
  predicate ProjectionTakes(p: Product) {
    DateColumn(p.expirationDate)
  }

  // What a statement can store, if it is carried out at all.
  ghost predicate Storable(batch: seq<Entry<Key, Product>>) {
    Binds(batch, BindsText) && Takes(batch, CatalogTakes)
  }

  ghost predicate Projectable(batch: seq<Entry<Key, Product>>) {
    Binds(batch, BindsText) && Takes(batch, ProjectionTakes)
  }

  function EntriesOf(products: seq<Product>): seq<Entry<Key, Product>> {
    seq(|products|, i requires 0 <= i < |products| => Entry(products[i].NaturalKey(), products[i]))
  }

  function CarriedBy(evts: seq<ProductImported>): seq<Product> {
    seq(|evts|, i requires 0 <= i < |evts| => Carried(evts[i]))
  }

  // What a batch of rows leaves behind: at each of its identities the last row that has it, every other
  // row as it was.
  ghost predicate Upserted(before: map<Key, Product>, after: map<Key, Product>, rows: seq<Product>) {
    && (forall i :: 0 <= i < |rows| && LastRow(rows, i) ==>
          var k := Key(rows[i].merchantId, rows[i].productId); k in after && after[k] == rows[i])
    && (forall k :: Untouched(rows, k) ==> AgreeAt(before, after, k))
  }

  ghost predicate LastRow(rows: seq<Product>, i: nat) {
    i < |rows| &&
    forall j :: i < j < |rows| ==> rows[j].merchantId != rows[i].merchantId || rows[j].productId != rows[i].productId
  }

  ghost predicate Untouched(rows: seq<Product>, k: Key) {
    forall i :: 0 <= i < |rows| ==> rows[i].merchantId != k.merchantId || rows[i].productId != k.productId
  }

  lemma FoldUpserts(table: map<Key, Product>, rows: seq<Product>)
    ensures Upserted(table, Fold(table, EntriesOf(rows)), rows)
  {
    var batch := EntriesOf(rows);
    forall i | 0 <= i < |rows| && LastRow(rows, i)
      ensures var k := Key(rows[i].merchantId, rows[i].productId);
              k in Fold(table, batch) && Fold(table, batch)[k] == rows[i]
    {
      FoldAt(table, batch, batch[i].key);
      forall j | i < j < |batch| ensures batch[j].key != batch[i].key { assert batch[j].key == rows[j].NaturalKey(); }
    }
    forall k | Untouched(rows, k)
      ensures AgreeAt(table, Fold(table, batch), k)
    {
      FoldAt(table, batch, k);
      forall i | 0 <= i < |batch| ensures batch[i].key != k { assert batch[i].key == rows[i].NaturalKey(); }
    }
  }

  lemma CarriedHolds(evts: seq<ProductImported>)
    ensures |CarriedBy(evts)| == |evts|
    ensures forall i :: 0 <= i < |evts| ==> HoldsEvent(CarriedBy(evts)[i], evts[i])
  {
  }

  // unnest of parallel arrays, in ordinal order.
  method Unnest(merchants: array<string>, productIds: array<string>, names: array<string>, prices: array<int>,
                currencies: array<string>, expirations: array<string>, jobIds: array<string>,
                    ghost products: seq<Product>)
      returns (batch: seq<Entry<Key, Product>>)
    requires merchants.Length == productIds.Length == names.Length == prices.Length == currencies.Length ==
             expirations.Length == jobIds.Length == |products|
    requires forall i :: 0 <= i < |products| ==>
               products[i] == Product(merchants[i], productIds[i], names[i], prices[i], currencies[i], expirations[i],
                   jobIds[i])
    ensures batch == EntriesOf(products)
  {
    batch := [];
    for i := 0 to merchants.Length
      invariant batch == EntriesOf(products)[..i]
    {
      var p := Product(merchants[i], productIds[i], names[i], prices[i], currencies[i], expirations[i], jobIds[i]);
      assert EntriesOf(products)[..i + 1] == EntriesOf(products)[..i] + [EntriesOf(products)[i]];
      batch := batch + [Entry(p.NaturalKey(), p)];
    }
  }

  // Products as parallel arrays and back.
  method Arranged(products: seq<Product>) returns (batch: seq<Entry<Key, Product>>)
    ensures batch == EntriesOf(products)
  {
    hide *;
    var n := |products|;
    var merchants, productIds, names := new string[n], new string[n], new string[n];
    var prices, currencies := new int[n], new string[n];
    var expirations, jobIds := new string[n], new string[n];
    for i := 0 to n
      invariant forall k :: 0 <= k < i ==>
        products[k] == Product(merchants[k], productIds[k], names[k], prices[k], currencies[k], expirations[k],
                               jobIds[k])
    {
      var p := products[i];
      merchants[i], productIds[i], names[i], prices[i] := p.merchantId, p.productId, p.name, p.priceCents;
      currencies[i], expirations[i], jobIds[i] := p.currency, p.expirationDate, p.sourceJobId;
    }
    batch := Unnest(merchants, productIds, names, prices, currencies, expirations, jobIds, products);
  }

  // And events, the job's id with each.
  method ArrangedEvents(evts: seq<ProductImported>) returns (batch: seq<Entry<Key, Product>>)
    ensures batch == EntriesOf(CarriedBy(evts))
  {
    hide EntriesOf;
    var n := |evts|;
    var merchants, productIds, names := new string[n], new string[n], new string[n];
    var prices, currencies := new int[n], new string[n];
    var expirations, jobIds := new string[n], new string[n];
    for i := 0 to n
      invariant forall k :: 0 <= k < i ==>
        Carried(evts[k]) == Product(merchants[k], productIds[k], names[k], prices[k], currencies[k], expirations[k],
                                    jobIds[k])
    {
      var p := evts[i].product;
      merchants[i], productIds[i], names[i], prices[i] := p.merchantId, p.productId, p.name, p.priceCents;
      currencies[i], expirations[i], jobIds[i] := p.currency, p.expirationDate, evts[i].jobId;
    }
    batch := Unnest(merchants, productIds, names, prices, currencies, expirations, jobIds, CarriedBy(evts));
  }

  lemma NoRows(table: map<Key, Product>)
    ensures Fold(table, EntriesOf([])) == table && Storable(EntriesOf([])) && Projectable(EntriesOf([]))
  {
  }

  // One atomic statement. If it is refused, or its outcome is unknown to the caller, the table
  // holds either the old rows or all of the new ones.
  method Exec(table: map<Key, Product>, batch: seq<Entry<Key, Product>>, column: Product -> bool)
      returns (ok: bool, after: map<Key, Product>, ghost acked: bool)
    ensures ok <==> acked && Binds(batch, BindsText) && Takes(batch, column)
    ensures ok ==> after == Fold(table, batch)
    ensures after == table || after == Fold(table, batch)
    ensures !(Binds(batch, BindsText) && Takes(batch, column)) ==> !ok && after == table
  {
    var r := Execute(table, batch, BindsText, column);
    SucceedsExactly(table, batch, BindsText, column);
    var landed, answered := Attempt();
    after := if landed && r.Success? then r.value else table;
    ok, acked := answered && r.Success?, answered;
  }

  // The catalog, in the worker's database.
  class ProductWriter {
    var table: map<Key, Product>

    // The statements sent, and those whose success was not acknowledged.
    ghost var calls: nat
    ghost var failures: nat

    constructor ()
      ensures table == map[]
    {
      table := map[];
    }

    // The rows as parallel arrays, in one statement.
    method UpsertBatch(products: seq<Product>) returns (ok: bool)
      modifies this
      ensures ok ==> table == Fold(old(table), EntriesOf(products)) && Upserted(old(table), table, products)
      ensures table == old(table) || table == Fold(old(table), EntriesOf(products))
      ensures !Storable(EntriesOf(products)) ==> !ok && table == old(table)
      ensures calls == old(calls) + 1
      ensures if ok then failures == old(failures)
              else failures == old(failures) + 1 || (failures == old(failures) && !Storable(EntriesOf(products)))
    {
      hide Upserted, Fold, BindsText, CatalogTakes;
      FoldUpserts(table, products);
      calls := calls + 1;
      if |products| == 0 {
        NoRows(table);
        return true;
      }
      var batch := Arranged(products);
      ghost var acked;
      ok, table, acked := Exec(table, batch, CatalogTakes);
      failures := failures + if acked then 0 else 1;
    }
  }

  // The projection, in the importer's database.
  class ProjectionStore {
    var table: map<Key, Product>

    // The statements sent, and those whose success was not acknowledged.
    ghost var calls: nat
    ghost var failures: nat

    constructor ()
      ensures table == map[]
    {
      table := map[];
    }

    method UpsertProducts(evts: seq<ProductImported>) returns (ok: bool)
      modifies this
      ensures ok ==> table == Fold(old(table), EntriesOf(CarriedBy(evts)))
      ensures ok ==> exists rows :: |rows| == |evts| && Upserted(old(table), table, rows) &&
                                    forall i :: 0 <= i < |evts| ==> HoldsEvent(rows[i], evts[i])
      ensures table == old(table) || table == Fold(old(table), EntriesOf(CarriedBy(evts)))
      ensures !Projectable(EntriesOf(CarriedBy(evts))) ==> !ok && table == old(table)
      ensures calls == old(calls) + 1
      ensures if ok then failures == old(failures)
              else failures == old(failures) + 1 ||
                   (failures == old(failures) && !Projectable(EntriesOf(CarriedBy(evts))))
    {
      hide Upserted, Fold, HoldsEvent, BindsText, ProjectionTakes;
      FoldUpserts(table, CarriedBy(evts));
      CarriedHolds(evts);
      calls := calls + 1;
      if |evts| == 0 {
        NoRows(table);
        return true;
      }
      var batch := ArrangedEvents(evts);
      ghost var acked;
      ok, table, acked := Exec(table, batch, ProjectionTakes);
      failures := failures + if acked then 0 else 1;
    }
  }

  // ---------------------------------------------------------------- validation and the columns

  // The worker's validation does not cover everything a column refuses: this event passes it, and
  // its row fails the statement it shares with any valid rows of other products.
  lemma ValidRowFailsItsBatch(job: JobId, rows: seq<Product>)
    requires IsUuid(job)
    requires forall i :: 0 <= i < |rows| ==> rows[i].NaturalKey() != Key("m", "p")
    ensures var bad := ProductImported(job, 2, ProductData("m", "p", "n", 100, "DOLLAR", ""));
            && FromEvent(bad).Success?
            && forall table :: Outcome(table, EntriesOf(rows + [Carried(bad)]), BindsText, CatalogTakes).Failure?
  {
    var bad := Carried(ProductImported(job, 2, ProductData("m", "p", "n", 100, "DOLLAR", "")));
    assert "DOLLAR"[3] != ' ';
    var batch := EntriesOf(rows + [bad]);
    assert IsLast(batch, |rows|) && batch[|rows|].row == bad;
    forall table ensures Outcome(table, batch, BindsText, CatalogTakes).Failure? {
      SucceedsExactly(table, batch, BindsText, CatalogTakes);
    }
  }

  function Sample(job: JobId, name: string, date: string): Product {
    Product("m", "p", name, 1, "USD", date, job)
  }

  // A NUL character in any row of a batch fails it, even in a row a later one of the same product
  // supersedes; a date no column takes does not, once superseded.
  lemma SupersededRows(job: JobId, table: map<Key, Product>)
    requires IsUuid(job)
    ensures var batch := EntriesOf([Sample(job, "\0", ""), Sample(job, "n", "")]);
            Outcome(table, batch, BindsText, CatalogTakes).Failure?
    ensures var batch := EntriesOf([Sample(job, "n", "x"), Sample(job, "n", "")]);
            Outcome(table, batch, BindsText, CatalogTakes).Success?
  {
    var bad := EntriesOf([Sample(job, "\0", ""), Sample(job, "n", "")]);
    var fine := EntriesOf([Sample(job, "n", "x"), Sample(job, "n", "")]);
    assert !BindsText(bad[0].row) by { assert "\0"[0] == '\0'; }
    SucceedsExactly(table, bad, BindsText, CatalogTakes);
    UuidIsText(job);
    assert forall i: nat :: IsLast(fine, i) ==> i == 1 by {
      assert fine[0].key == fine[1].key;
    }
    SucceedsExactly(table, fine, BindsText, CatalogTakes);
  }

  lemma UuidIsText(job: JobId)
    requires IsUuid(job)
    ensures TextColumn(job)
  {
  }
}
