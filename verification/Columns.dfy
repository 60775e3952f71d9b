// The header's column map, and one record read through it.
module Columns {
  import opened Wrappers
  import opened Events
  import opened Text
  import opened Prices
  import opened Normalizer

  type Cols = map<string, nat>

  datatype HeaderError = Duplicate(name: string) | Missing(name: string)

  // What the caller supplies for columns the file does not carry.
  datatype Options = Options(defaultMerchantId: string, defaultCurrency: string)

  datatype Row = Row(num: nat, outcome: Result<ProductData, Reason>) {
    predicate Valid() {
      outcome.Success?
    }
  }

  const NAME := "name"
  const PRICE := "price"

  // A header cell's column: trimmed, lower-cased, with the one known alias. Case mapping is a parameter.
  function Canonical(cell: string, lower: string -> string): string {
    var name := lower(TrimSpace(cell));
    if name == "expiration" then "expiration_date" else name
  }

  // A cell that reads "expiration", in any padding and case, names the expiration_date column; any other
  // cell names itself.
  lemma CanonicalExactly(cell: string, lower: string -> string, value: string)
    requires Padded(cell, value)
    ensures Canonical(cell, lower) == if lower(value) == "expiration" then "expiration_date" else lower(value)
  {
    PaddedExactly(cell, value);
  }

  function Names(header: seq<string>, lower: string -> string): seq<string> {
    seq(|header|, i requires 0 <= i < |header| => Canonical(header[i], lower))
  }

  predicate Distinct(names: seq<string>) {
    forall i, j :: 0 <= i < j < |names| ==> names[i] != names[j]
  }

  predicate Mappable(names: seq<string>) {
    Distinct(names) && NAME in names && PRICE in names
  }

  // Each name to its index, no more.
  ghost predicate Maps(cols: Cols, names: seq<string>) {
    && (forall name :: name in cols <==> name in names)
    && (forall i :: 0 <= i < |names| ==> names[i] in cols && cols[names[i]] == i)
  }

  lemma MapsOneMore(cols: Cols, done: seq<string>, name: string)
    requires Maps(cols, done) && Distinct(done) && name !in cols
    ensures Maps(cols[name := |done|], done + [name]) && Distinct(done + [name])
  {
    var more := done + [name];
    forall i | 0 <= i < |done| ensures more[i] != name { assert more[i] in done; }
  }

  lemma FirstRepeat(cols: Cols, names: seq<string>, i: nat)
    requires i < |names| && Maps(cols, names[..i]) && names[i] in cols
    ensures exists k :: 0 <= k < i && names[k] == names[i]
    ensures !Distinct(names)
  {
    assert names[i] in names[..i];
    var k :| 0 <= k < i && names[..i][k] == names[i];
    assert names[k] == names[i];
  }

  lemma MapsKeys(cols: Cols, names: seq<string>)
    requires Maps(cols, names)
    ensures forall name :: name in cols <==> name in names
  {
  }

  lemma NothingMapped()
    ensures Distinct([]) && Maps(map[], [])
  {
  }

  method MapColumns(header: seq<string>, lower: string -> string) returns (r: Result<Cols, HeaderError>)
    ensures r.Success? <==> Mappable(Names(header, lower))
    ensures r.Success? ==> Maps(r.value, Names(header, lower))
    ensures r.Failure? && r.error.Duplicate? ==>
              exists i, j :: 0 <= i < j < |header| && Names(header, lower)[i] == Names(header, lower)[j] == r.error.name
    ensures r.Failure? && r.error.Missing? ==>
              Distinct(Names(header, lower)) && r.error.name == if NAME in Names(header, lower) then PRICE else NAME
  {
    hide Maps, Distinct, TrimSpace;
    ghost var names := Names(header, lower);
    var cols: Cols := map[];
    assert names[..0] == [];
    NothingMapped();
    for i := 0 to |header|
      invariant Distinct(names[..i]) && Maps(cols, names[..i])
    {
      var name := lower(TrimSpace(header[i]));
      if name == "expiration" { name := "expiration_date"; }
      assert name == names[i];
      if name in cols {
        FirstRepeat(cols, names, i);
        return Failure(Duplicate(name));
      }
      MapsOneMore(cols, names[..i], name);
      cols := cols[name := i];
      assert names[..i + 1] == names[..i] + [name];
    }
    assert names[..|header|] == names;
    assert (NAME in cols <==> NAME in names) && (PRICE in cols <==> PRICE in names) by { MapsKeys(cols, names); }
    if NAME !in cols { return Failure(Missing(NAME)); }
    if PRICE !in cols { return Failure(Missing(PRICE)); }
    return Success(cols);
  }

  // The reader enforces the header's width, so every column is within the record.
  predicate Fits(cols: Cols, record: seq<string>) {
    forall name :: name in cols ==> cols[name] < |record|
  }

  function Column(record: seq<string>, cols: Cols, name: string): (string, bool)
    requires Fits(cols, record)
  {
    if name in cols then (record[cols[name]], true) else ("", false)
  }

  function ParseRow(num: nat, cols: Cols, record: seq<string>, opts: Options, hash: string -> nat): Row
    requires Fits(cols, record)
  {
    var (merchant, hasMerchant) := Column(record, cols, "merchant_id");
    var currency := Column(record, cols, "currency").0;
    Row(num, Normalize(
      if hasMerchant then merchant else opts.defaultMerchantId,
      Column(record, cols, "product_id").0,
      Column(record, cols, NAME).0,
      Column(record, cols, PRICE).0,
      if TrimSpace(currency) == "" then opts.defaultCurrency else currency,
      Column(record, cols, "expiration_date").0,
      hash))
  }

  lemma MappedFits(cols: Cols, names: seq<string>, record: seq<string>)
    requires Maps(cols, names) && |record| == |names|
    ensures Fits(cols, record)
    ensures forall a, b :: a in cols && b in cols && cols[a] == cols[b] ==> a == b
    ensures Mappable(names) ==> "name" in cols && "price" in cols
  {
    forall name | name in cols
      ensures cols[name] < |record| && names[cols[name]] == name
    {
      var i :| 0 <= i < |names| && names[i] == name;
    }
  }

  // Each cell's column is where the cell is, under the name the cell denotes.
  lemma HeaderExactly(header: seq<string>, lower: string -> string, cols: Cols, i: nat, value: string)
    requires Maps(cols, Names(header, lower)) && i < |header| && Padded(header[i], value)
    ensures var name := if lower(value) == "expiration" then "expiration_date" else lower(value);
            name in cols && cols[name] == i
  {
    CanonicalExactly(header[i], lower, value);
    assert Names(header, lower)[i] == Canonical(header[i], lower);
  }

  // ---------------------------------------------------------------- reading back a printed product

  ghost predicate Carries(cols: Cols, record: seq<string>, name: string, cell: string)
    requires Fits(cols, record)
  {
    name in cols && record[cols[name]] == cell
  }

  // No column, or nothing but white space in it.
  ghost predicate Blank(cols: Cols, record: seq<string>, name: string)
    requires Fits(cols, record)
  {
    name in cols ==> Padded(record[cols[name]], "")
  }

  // Each field of the product is printed in its column; or its column is absent, and in some columns
  // blank, and the file's defaults, the derivation rule or the missing date stand for it.
  ghost predicate Prints(cols: Cols, record: seq<string>, opts: Options, hash: string -> nat, p: ProductData)
    requires Fits(cols, record)
  {
    && Normal(p)
    && Carries(cols, record, NAME, p.name) && Carries(cols, record, PRICE, PrintCents(p.priceCents))
    && (Carries(cols, record, "merchant_id", p.merchantId) ||
        ("merchant_id" !in cols && opts.defaultMerchantId == p.merchantId))
    && (Carries(cols, record, "product_id", p.productId) ||
        (Blank(cols, record, "product_id") && Derived(p.name, hash, p.productId)))
    && (Carries(cols, record, "currency", p.currency) ||
        (Blank(cols, record, "currency") && opts.defaultCurrency == p.currency))
    && (Carries(cols, record, "expiration_date", p.expirationDate) ||
        (Blank(cols, record, "expiration_date") && p.expirationDate == ""))
  }

  // The texts a record holds for the fields: of an absent column the file's default, or nothing; of a
  // blank currency cell, but of no other, the default too.
  ghost predicate CellsAre(
      cols: Cols, record: seq<string>, opts: Options,
      merchantId: string, productId: string, name: string, price: string, currency: string, expiration: string)
    requires Fits(cols, record)
  {
    && CellIs(cols, record, "merchant_id", merchantId, opts.defaultMerchantId)
    && CellIs(cols, record, "product_id", productId, "")
    && CellIs(cols, record, "name", name, "") && CellIs(cols, record, "price", price, "")
    && (if Blank(cols, record, "currency") then currency == opts.defaultCurrency
        else Carries(cols, record, "currency", currency))
    && CellIs(cols, record, "expiration_date", expiration, "")
  }

  ghost predicate CellIs(cols: Cols, record: seq<string>, name: string, cell: string, absent: string)
    requires Fits(cols, record)
  {
    if name in cols then record[cols[name]] == cell else cell == absent
  }

  // A row is the normalization of exactly the texts its record holds.
  lemma RowExactly(
      num: nat, cols: Cols, record: seq<string>, opts: Options, hash: string -> nat,
      merchantId: string, productId: string, name: string, price: string, currency: string, expiration: string)
    requires Fits(cols, record)
    requires CellsAre(cols, record, opts, merchantId, productId, name, price, currency, expiration)
    ensures ParseRow(num, cols, record, opts, hash) ==
            Row(num, Normalize(merchantId, productId, name, price, currency, expiration, hash))
  {
    hide Normalize, TrimSpace, Padded;
    BlankIsBlank();
    if "currency" in cols { PaddedExactly(record[cols["currency"]], ""); }
  }

  // A product written out under whatever columns the file has is read back as itself.
  lemma PrintedRowIsRead(num: nat, cols: Cols, record: seq<string>, opts: Options, hash: string -> nat, p: ProductData)
    requires Fits(cols, record) && Prints(cols, record, opts, hash, p)
    ensures ParseRow(num, cols, record, opts, hash) == Row(num, Success(p))
  {
    hide Normalize, Normal, TrimSpace, Derived, Padded;
    var id := if "product_id" in cols then record[cols["product_id"]] else "";
    var date := if "expiration_date" in cols then record[cols["expiration_date"]] else "";
    CurrencyNotBlank(p);
    PaddedExactly(p.currency, "");
    RowExactly(num, cols, record, opts, hash, p.merchantId, id, p.name, PrintCents(p.priceCents), p.currency, date);
    BlankCells();
    hide Prints;
    PrintedDenotes(p, id, date, hash);
  }

  lemma BlankCells()
    ensures Padded("", "")
  {
    BlankIsBlank();
    PaddedExactly("", "");
  }

  // Of the two fields that may be left blank, the derived identifier and the missing date.
  lemma PrintedDenotes(p: ProductData, id: string, date: string, hash: string -> nat)
    requires Normal(p)
    requires id == p.productId || (Padded(id, "") && Derived(p.name, hash, p.productId))
    requires date == p.expirationDate || (Padded(date, "") && p.expirationDate == "")
    ensures Normalize(p.merchantId, id, p.name, PrintCents(p.priceCents), p.currency, date, hash) == Success(p)
  {
    hide Normalize, Derived, Padded, PriceText, CurrencyOf;
    NormalIsFixed(p, hash);
    var price := PrintCents(p.priceCents);
    NormalizeExactly(p.merchantId, p.productId, p.name, price, p.currency, p.expirationDate, hash, p);
    NormalizeExactly(p.merchantId, id, p.name, price, p.currency, date, hash, p);
  }

  lemma BlankIsBlank()
    ensures TrimSpace("") == ""
  {
  }

  lemma CurrencyNotBlank(p: ProductData)
    requires Normal(p)
    ensures TrimSpace(p.currency) != "" && p.priceCents >= 0
  {
    CurrencyFixed(p.currency);
    assert Upper("") == "";
  }

  // ---------------------------------------------------------------- column order is free

  // order and back are a permutation of 0..n and its inverse.
  ghost predicate Permutes(order: seq<nat>, back: seq<nat>, n: nat) {
    && |order| == n && |back| == n
    && (forall i :: 0 <= i < n ==> order[i] < n)
    && (forall i :: 0 <= i < n ==> back[i] < n)
    && Inverse(order, back, n)
  }

  ghost predicate Inverse(order: seq<nat>, back: seq<nat>, n: nat)
    requires |order| == n && |back| == n
    requires (forall i :: 0 <= i < n ==> order[i] < n) && (forall i :: 0 <= i < n ==> back[i] < n)
  {
    forall i :: 0 <= i < n ==> back[order[i]] == i && order[back[i]] == i
  }

  function Reordered(cells: seq<string>, order: seq<nat>): seq<string>
    requires |order| == |cells| && forall i :: 0 <= i < |order| ==> order[i] < |cells|
  {
    seq(|order|, i requires 0 <= i < |order| => cells[order[i]])
  }

  lemma PermutesAt(order: seq<nat>, back: seq<nat>, n: nat, i: nat)
    requires Permutes(order, back, n) && i < n
    ensures back[order[i]] == i && order[back[i]] == i
  {
  }

  lemma ReorderedBack(cells: seq<string>, order: seq<nat>, back: seq<nat>)
    requires Permutes(order, back, |cells|)
    ensures forall i :: 0 <= i < |cells| ==> Reordered(cells, order)[back[i]] == cells[i]
    ensures forall c :: c in Reordered(cells, order) <==> c in cells
  {
    hide Inverse;
    forall i | 0 <= i < |cells| ensures Reordered(cells, order)[back[i]] == cells[i] {
      PermutesAt(order, back, |cells|, i);
    }
    forall c | c in cells ensures c in Reordered(cells, order) {
      var i :| 0 <= i < |cells| && cells[i] == c;
      assert Reordered(cells, order)[back[i]] == c;
    }
  }

  lemma MappableReordered(names: seq<string>, order: seq<nat>, back: seq<nat>)
    requires Permutes(order, back, |names|)
    ensures Mappable(Reordered(names, order)) <==> Mappable(names)
  {
    hide Inverse;
    ReorderedBack(names, order, back);
    var other := Reordered(names, order);
    if Distinct(names) {
      forall i, j | 0 <= i < j < |names| ensures other[i] != other[j] {
        PermutesAt(order, back, |names|, i);
        PermutesAt(order, back, |names|, j);
      }
    }
    if Distinct(other) {
      forall i, j | 0 <= i < j < |names| ensures names[i] != names[j] {
        PermutesAt(order, back, |names|, i);
        PermutesAt(order, back, |names|, j);
        assert other[back[i]] == names[i] && other[back[j]] == names[j];
      }
    }
  }

  lemma ColumnReordered(
      names: seq<string>, record: seq<string>, cols: Cols, moved: Cols, order: seq<nat>, back: seq<nat>, name: string)
    requires Permutes(order, back, |names|) && |record| == |names|
    requires Maps(cols, names) && Maps(moved, Reordered(names, order))
    ensures Fits(cols, record) && Fits(moved, Reordered(record, order))
    ensures Column(Reordered(record, order), moved, name) == Column(record, cols, name)
  {
    MappedFits(cols, names, record);
    MappedFits(moved, Reordered(names, order), Reordered(record, order));
    ReorderedBack(names, order, back);
    if name in cols {
      var i :| 0 <= i < |names| && names[i] == name;
      PermutesAt(order, back, |names|, i);
      assert Reordered(names, order)[back[i]] == name;
    }
  }

  // Permuting the header and every record alike changes neither whether the header is accepted
  // nor any row.
  lemma ColumnOrderIsFree(
      header: seq<string>, record: seq<string>, cols: Cols, moved: Cols, order: seq<nat>, back: seq<nat>,
      lower: string -> string, num: nat, opts: Options, hash: string -> nat)
    requires Permutes(order, back, |header|)
    ensures Mappable(Names(Reordered(header, order), lower)) <==> Mappable(Names(header, lower))
    ensures |record| == |header| && Maps(cols, Names(header, lower)) &&
            Maps(moved, Names(Reordered(header, order), lower)) ==>
              && Fits(cols, record) && Fits(moved, Reordered(record, order))
              && ParseRow(num, moved, Reordered(record, order), opts, hash) == ParseRow(num, cols, record, opts, hash)
  {
    var names := Names(header, lower);
    assert Names(Reordered(header, order), lower) == Reordered(names, order);
    MappableReordered(names, order, back);
    if |record| == |header| && Maps(cols, names) && Maps(moved, Names(Reordered(header, order), lower)) {
      hide Normalize, Maps, TrimSpace, Reordered;
      ColumnReordered(names, record, cols, moved, order, back, "merchant_id");
      ColumnReordered(names, record, cols, moved, order, back, "currency");
      ColumnReordered(names, record, cols, moved, order, back, "product_id");
      ColumnReordered(names, record, cols, moved, order, back, NAME);
      ColumnReordered(names, record, cols, moved, order, back, PRICE);
      ColumnReordered(names, record, cols, moved, order, back, "expiration_date");
    }
  }
}
