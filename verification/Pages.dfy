// The product listing of one import: filter, sort, page.
module Pages {
  import opened Wrappers
  import opened Events
  import opened Products
  import opened Dates

  const MAX_PAGE := 1_000_000
  const MAX_LIMIT := 100

  datatype SortBy = ByName | ByPrice | ByExpiration

  // The database's collation: `le` compares text, and only equal strings tie. A name filter is a
  // predicate, so its pattern language is a parameter too.
  datatype Query = Query(job: JobId, filter: string -> bool, sortBy: SortBy, descending: bool,
        le: (string, string) -> bool)

  ghost predicate TotalOrder(le: (string, string) -> bool) {
    && (forall a, b :: le(a, b) || le(b, a))
    && (forall a, b :: le(a, b) && le(b, a) ==> a == b)
    && (forall a, b, c :: le(a, b) && le(b, c) ==> le(a, c))
  }

  predicate Less(le: (string, string) -> bool, a: string, b: string) {
    a != b && le(a, b)
  }

  function DayNumber(date: string): int {
    match ParseIso(date)
    case None => -1
    case Some(d) => d.year * 10000 + d.month * 100 + d.day
  }

  // Negative, zero or positive; a missing date comes last in both directions.
  function CompareColumn(q: Query, a: Product, b: Product): int {
    match q.sortBy
    case ByName => Directed(q, if a.name == b.name then 0 else if q.le(a.name, b.name) then -1 else 1)
    case ByPrice => Directed(q, a.priceCents - b.priceCents)
    case ByExpiration =>
      if a.expirationDate == "" && b.expirationDate == "" then 0
      else if a.expirationDate == "" then 1
      else if b.expirationDate == "" then -1
      else Directed(q, DayNumber(a.expirationDate) - DayNumber(b.expirationDate))
  }

  function Directed(q: Query, c: int): int {
    if q.descending then -c else c
  }

  // ORDER BY column, then the primary key.
  predicate Precedes(q: Query, a: Product, b: Product) {
    CompareColumn(q, a, b) < 0 ||
    (CompareColumn(q, a, b) == 0 &&
     (Less(q.le, a.merchantId, b.merchantId) || (a.merchantId == b.merchantId && Less(q.le, a.productId, b.productId))))
  }

  lemma PrecedesTransitive(q: Query, a: Product, b: Product, c: Product)
    requires TotalOrder(q.le) && Precedes(q, a, b) && Precedes(q, b, c)
    ensures Precedes(q, a, c)
  {
    if a.merchantId == b.merchantId && Less(q.le, b.productId, a.productId) { assert q.le(b.productId, a.productId); }
  }

  // The primary key breaks every tie, so no two products compare equal.
  lemma PrecedesTotal(q: Query, a: Product, b: Product)
    requires TotalOrder(q.le) && a.NaturalKey() != b.NaturalKey()
    ensures Precedes(q, a, b) <==> !Precedes(q, b, a)
  {
  }

  predicate Matches(q: Query, p: Product) {
    p.sourceJobId == q.job && q.filter(p.name)
  }

  ghost predicate Sorted(q: Query, list: seq<Product>) {
    forall i, j :: 0 <= i < j < |list| ==> Precedes(q, list[i], list[j])
  }

  // Each matching row of the table exactly once, in order.
  ghost predicate IsListing(q: Query, table: map<Key, Product>, list: seq<Product>) {
    && Sorted(q, list)
    && (forall p :: p in list <==> p.NaturalKey() in table && table[p.NaturalKey()] == p && Matches(q, p))
  }

  lemma Irreflexive(q: Query, p: Product)
    ensures !Precedes(q, p, p)
  {
  }

  // Two sorted lists of the same products are the same list: the order leaves the database no choice.
  lemma {:induction false} SortedIsUnique(q: Query, a: seq<Product>, b: seq<Product>)
    requires TotalOrder(q.le) && Sorted(q, a) && Sorted(q, b)
    requires forall p :: p in a <==> p in b
    ensures a == b
  {
    hide Precedes, TotalOrder;
    HeadIsIn(a);
    HeadIsIn(b);
    if a != [] {
      HeadFirst(q, a, b);
      forall p ensures p in a[1..] <==> p in b[1..] {
        Irreflexive(q, a[0]);
        assert p in a <==> p == a[0] || p in a[1..];
        assert p in b <==> p == b[0] || p in b[1..];
      }
      SortedIsUnique(q, a[1..], b[1..]);
      assert a == [a[0]] + a[1..] && b == [b[0]] + b[1..];
    }
  }

  lemma HeadIsIn(list: seq<Product>)
    ensures list != [] ==> list[0] in list
  {
  }

  // Calendar order.
  predicate Earlier(a: Date, b: Date) {
    a.year < b.year || (a.year == b.year && (a.month < b.month || (a.month == b.month && a.day < b.day)))
  }

  lemma DayNumberOrders(a: Date, b: Date)
    requires a.Valid() && b.Valid()
    ensures DayNumber(a.Canonical()) < DayNumber(b.Canonical()) <==> Earlier(a, b)
  {
    IsoExactly(a.Canonical(), a);
    IsoExactly(b.Canonical(), b);
  }

  ghost predicate Expires(p: Product, d: Date) {
    d.Valid() && p.expirationDate == d.Canonical()
  }

  // What the order means to a reader of the listing: the chosen column ascends or descends, dates in
  // calendar order; products without a date come last either way; and ties go by merchant and product
  // id, ascending.
  lemma ListedInOrder(q: Query, list: seq<Product>, i: nat, j: nat)
    requires TotalOrder(q.le) && Sorted(q, list) && i < j < |list|
    ensures q.sortBy.ByPrice? ==>
              if q.descending then list[i].priceCents >= list[j].priceCents
              else list[i].priceCents <= list[j].priceCents
    ensures q.sortBy.ByName? ==>
              if q.descending then q.le(list[j].name, list[i].name) else q.le(list[i].name, list[j].name)
    ensures q.sortBy.ByExpiration? && list[i].expirationDate == "" ==> list[j].expirationDate == ""
    ensures forall a, b: Date :: q.sortBy.ByExpiration? && Expires(list[i], a) && Expires(list[j], b) ==>
              if q.descending then !Earlier(a, b) else !Earlier(b, a)
    ensures SameColumn(q, list[i], list[j]) ==>
              q.le(list[i].merchantId, list[j].merchantId) &&
              (list[i].merchantId == list[j].merchantId ==> q.le(list[i].productId, list[j].productId))
  {
    assert Precedes(q, list[i], list[j]);
    assert q.le(list[i].name, list[i].name);
    forall a, b: Date | q.sortBy.ByExpiration? && Expires(list[i], a) && Expires(list[j], b)
      ensures if q.descending then !Earlier(a, b) else !Earlier(b, a)
    {
      CanonicalTrimmed(a);
      CanonicalTrimmed(b);
      DayNumberOrders(a, b);
      DayNumberOrders(b, a);
    }
  }

  predicate SameColumn(q: Query, a: Product, b: Product) {
    match q.sortBy
    case ByName => a.name == b.name
    case ByPrice => a.priceCents == b.priceCents
    case ByExpiration => a.expirationDate == b.expirationDate
  }

  lemma HeadFirst(q: Query, a: seq<Product>, b: seq<Product>)
    requires TotalOrder(q.le) && Sorted(q, a) && Sorted(q, b) && a != [] && b != []
    requires a[0] in b && b[0] in a
    ensures a[0] == b[0]
  {
    hide Precedes, TotalOrder;
    if a[0] != b[0] {
      var i :| 0 <= i < |b| && b[i] == a[0];
      var j :| 0 <= j < |a| && a[j] == b[0];
      PrecedesTransitive(q, a[0], b[0], a[0]);
      Irreflexive(q, a[0]);
      assert false;
    }
  }

  // ---------------------------------------------------------------- one page

  predicate WellKeyed(table: map<Key, Product>) {
    forall k :: k in table ==> table[k].NaturalKey() == k
  }

  function Slice(list: seq<Product>, offset: nat, limit: nat): seq<Product> {
    if offset >= |list| then []
    else if offset + limit <= |list| then list[offset..offset + limit]
    else list[offset..]
  }

  function Inserted(q: Query, list: seq<Product>, p: Product): seq<Product> {
    if list == [] then [p]
    else if Precedes(q, p, list[0]) then [p] + list
    else [list[0]] + Inserted(q, list[1..], p)
  }

  lemma {:induction false} InsertedSorted(q: Query, list: seq<Product>, p: Product)
    requires TotalOrder(q.le) && Sorted(q, list)
    requires forall x :: x in list ==> x.NaturalKey() != p.NaturalKey()
    ensures Sorted(q, Inserted(q, list, p))
    ensures forall x :: x in Inserted(q, list, p) <==> x == p || x in list
  {
    hide Precedes, TotalOrder;
    if list != [] {
      assert forall x :: x in list <==> x == list[0] || x in list[1..];
      PrecedesTotal(q, p, list[0]);
      if Precedes(q, p, list[0]) {
        forall i | 1 <= i < |list| ensures Precedes(q, p, list[i]) {
          PrecedesTransitive(q, p, list[0], list[i]);
        }
      } else {
        InsertedSorted(q, list[1..], p);
        var rest := Inserted(q, list[1..], p);
        forall i | 0 <= i < |rest| ensures Precedes(q, list[0], rest[i]) { assert rest[i] in rest; }
      }
    }
  }

  // The matching rows in order, each inserted at its place.
  method Listing(table: map<Key, Product>, q: Query) returns (list: seq<Product>)
    requires TotalOrder(q.le) && WellKeyed(table)
    ensures IsListing(q, table, list)
  {
    hide Precedes, TotalOrder, Sorted, Inserted;
    list := [];
    var left := table.Keys;
    assert Sorted(q, list) by { NothingSorted(q); }
    while left != {}
      invariant left <= table.Keys && Sorted(q, list)
      invariant forall p :: p in list <==>
                  p.NaturalKey() in table && p.NaturalKey() !in left && table[p.NaturalKey()] == p && Matches(q, p)
      decreases |left|
    {
      var k :| k in left;
      left := left - {k};
      if Matches(q, table[k]) {
        InsertedSorted(q, list, table[k]);
        list := Inserted(q, list, table[k]);
      }
    }
  }

  // Two queries: the matching rows are counted in the projection as it stands first, and sorted and
  // sliced in the projection as it stands then.
  method ListProducts(first: map<Key, Product>, second: map<Key, Product>, q: Query, limit: nat, offset: nat)
      returns (page: seq<Product>, total: nat)
    requires TotalOrder(q.le) && WellKeyed(first) && WellKeyed(second)
    ensures exists counted, list :: IsListing(q, first, counted) && IsListing(q, second, list) &&
                                    total == |counted| && page == Slice(list, offset, limit)
  {
    var counted := Listing(first, q);
    total := |counted|;
    var list := Listing(second, q);
    page := Slice(list, offset, limit);
  }

  lemma NothingSorted(q: Query)
    ensures Sorted(q, [])
  {
  }

  // ---------------------------------------------------------------- the request

  // A parameter is absent or malformed, or an integer; out of range means the nearest bound.
  function ClampInt(raw: Option<int>, def: int, min: int, max: int): int {
    match raw
    case None => def
    case Some(n) => if n < min then min else if n > max then max else n
  }

  function TotalPages(total: nat, limit: nat): nat
    requires limit >= 1
  {
    if total == 0 then 0 else (total + limit - 1) / limit
  }

  function SortOf(raw: string): SortBy {
    if raw == "price" then ByPrice else if raw == "expiration" then ByExpiration else ByName
  }

  function Offset(page: nat, limit: nat): nat
    requires page >= 1
  {
    (page - 1) * limit
  }

  function PageOf(list: seq<Product>, n: nat, limit: nat): seq<Product>
    requires n >= 1
  {
    Slice(list, Offset(n, limit), limit)
  }

  datatype Response = Response(items: seq<Product>, page: nat, limit: nat, total: nat, totalPages: nat)

  // One request, while the projection may change between the two queries.
  method List(first: map<Key, Product>, second: map<Key, Product>, job: JobId, filter: string -> bool,
              le: (string, string) -> bool, rawPage: Option<int>, rawLimit: Option<int>, rawSort: string,
                  rawOrder: string)
      returns (r: Option<Response>)
    requires TotalOrder(le) && WellKeyed(first) && WellKeyed(second)
    ensures r.Some? <==> IsUuid(job)
    ensures r.Some? ==> Answers(job, filter, le, rawSort, rawOrder, first, second, r.value)
    ensures r.Some? ==>
              && 1 <= r.value.page <= 1_000_000 && 1 <= r.value.limit <= 100
              && (rawPage.None? ==> r.value.page == 1) && (rawLimit.None? ==> r.value.limit == 20)
              && (rawPage.Some? ==> Nearest(rawPage.value, 1, 1_000_000, r.value.page))
              && (rawLimit.Some? ==> Nearest(rawLimit.value, 1, 100, r.value.limit))
  {
    hide Slice, IsListing, TotalOrder, IsUuid, TotalPages, SortOf, Offset, Lists, IsPage, Spread;
    if !IsUuid(job) {
      return None;
    }
    var page, limit := ClampInt(rawPage, 1, 1, MAX_PAGE), ClampInt(rawLimit, 20, 1, MAX_LIMIT);
    var q := Query(job, filter, SortOf(rawSort), rawOrder == "DESC", le);
    hide ClampInt;
    var products, total := ListProducts(first, second, q, limit, Offset(page, limit));
    ghost var counted, list :| IsListing(q, first, counted) && IsListing(q, second, list) &&
                               total == |counted| && products == Slice(list, Offset(page, limit), limit);
    ListedAsAsked(job, filter, le, rawSort, rawOrder, first, counted);
    ListedAsAsked(job, filter, le, rawSort, rawOrder, second, list);
    SliceIsPage(list, page, limit);
    PagesSpread(total, limit);
    return Some(Response(products, page, limit, total, TotalPages(total, limit)));
  }

  predicate Nearest(raw: int, min: int, max: int, n: int) {
    min <= n <= max && (min <= raw <= max ==> n == raw) && (raw < min ==> n == min) && (raw > max ==> n == max)
  }

  // The items are the page of the rows as they are at the second query; the total counts those at the first.
  ghost predicate Answers(
      job: JobId, filter: string -> bool, le: (string, string) -> bool, rawSort: string, rawOrder: string,
      first: map<Key, Product>, second: map<Key, Product>, r: Response)
  {
    && Spread(r.total, r.limit, r.totalPages)
    && exists counted, list ::
         && Lists(job, filter, le, rawSort, rawOrder, first, counted)
         && Lists(job, filter, le, rawSort, rawOrder, second, list)
         && r.total == |counted| && IsPage(list, r.page, r.limit, r.items)
  }

  // As many pages as it takes.
  predicate Spread(total: nat, limit: nat, pages: nat) {
    pages * limit >= total && if total == 0 then pages == 0 else (pages - 1) * limit < total
  }

  ghost predicate IsPage(list: seq<Product>, n: int, limit: nat, items: seq<Product>) {
    var before := (n - 1) * limit;
    && before >= 0
    && |items| == (if before + limit <= |list| then limit else if before <= |list| then |list| - before else 0)
    && forall k :: 0 <= k < |items| ==> items[k] == list[before + k]
  }

  lemma SliceIsPage(list: seq<Product>, n: nat, limit: nat)
    requires n >= 1
    ensures IsPage(list, n, limit, PageOf(list, n, limit))
  {
  }

  // The rows of the import whose names pass the filter, each once, in the order asked for.
  ghost predicate Lists(
      job: JobId, filter: string -> bool, le: (string, string) -> bool, rawSort: string, rawOrder: string,
      table: map<Key, Product>, list: seq<Product>)
  {
    && (forall p :: p in list <==>
          && Key(p.merchantId, p.productId) in table && table[Key(p.merchantId, p.productId)] == p
          && p.sourceJobId == job && filter(p.name))
    && (forall i, j :: 0 <= i < j < |list| ==>
          list[i] != list[j] && InOrder(le, rawSort, rawOrder, list[i], list[j]))
  }

  // By price or by date if that was the parameter, by name otherwise; upwards unless asked for downwards;
  // undated products last.
  ghost predicate InOrder(le: (string, string) -> bool, rawSort: string, rawOrder: string, a: Product, b: Product) {
    if rawSort == "price" then
      && (if rawOrder == "DESC" then a.priceCents >= b.priceCents else a.priceCents <= b.priceCents)
      && (a.priceCents == b.priceCents ==> KeysInOrder(le, a, b))
    else if rawSort == "expiration" then
      && (a.expirationDate == "" ==> b.expirationDate == "")
      && (forall c, d: Date :: Expires(a, c) && Expires(b, d) ==>
            if rawOrder == "DESC" then !Earlier(c, d) else !Earlier(d, c))
      && (a.expirationDate == b.expirationDate ==> KeysInOrder(le, a, b))
    else
      && (if rawOrder == "DESC" then le(b.name, a.name) else le(a.name, b.name))
      && (a.name == b.name ==> KeysInOrder(le, a, b))
  }

  predicate KeysInOrder(le: (string, string) -> bool, a: Product, b: Product) {
    if a.merchantId == b.merchantId then le(a.productId, b.productId) else le(a.merchantId, b.merchantId)
  }

  lemma ListedAsAsked(
      job: JobId, filter: string -> bool, le: (string, string) -> bool, rawSort: string, rawOrder: string,
      table: map<Key, Product>, list: seq<Product>)
    requires TotalOrder(le) && IsListing(Query(job, filter, SortOf(rawSort), rawOrder == "DESC", le), table, list)
    ensures Lists(job, filter, le, rawSort, rawOrder, table, list)
  {
    hide Precedes, TotalOrder, Earlier, InOrder, Expires;
    var q := Query(job, filter, SortOf(rawSort), rawOrder == "DESC", le);
    forall i, j | 0 <= i < j < |list|
      ensures list[i] != list[j] && InOrder(le, rawSort, rawOrder, list[i], list[j])
    {
      Irreflexive(q, list[i]);
      assert Precedes(q, list[i], list[j]);
      PairAsAsked(q, rawSort, rawOrder, list, i, j);
    }
    forall p: Product ensures p.NaturalKey() == Key(p.merchantId, p.productId) {}
  }

  lemma PairAsAsked(q: Query, rawSort: string, rawOrder: string, list: seq<Product>, i: nat, j: nat)
    requires q.sortBy == SortOf(rawSort) && q.descending == (rawOrder == "DESC")
    requires TotalOrder(q.le) && Sorted(q, list) && i < j < |list|
    ensures InOrder(q.le, rawSort, rawOrder, list[i], list[j])
  {
    hide TotalOrder, Sorted, Precedes, Expires, Earlier;
    ListedInOrder(q, list, i, j);
  }

  // ---------------------------------------------------------------- pages tile

  ghost function FirstPages(list: seq<Product>, limit: nat, n: nat): seq<Product> {
    if n == 0 then [] else FirstPages(list, limit, n - 1) + PageOf(list, n, limit)
  }

  lemma {:induction false} FirstPagesAre(list: seq<Product>, limit: nat, n: nat)
    ensures FirstPages(list, limit, n) == Slice(list, 0, n * limit)
  {
    if n > 0 {
      FirstPagesAre(list, limit, n - 1);
      assert n * limit == (n - 1) * limit + limit;
      SliceJoin(list, (n - 1) * limit, limit);
    } else {
      assert list == [] || list[0..0] == [];
    }
  }

  lemma SliceJoin(list: seq<Product>, m: nat, limit: nat)
    ensures Slice(list, 0, m) + Slice(list, m, limit) == Slice(list, 0, m + limit)
  {
  }

  lemma PageCount(total: nat, limit: nat)
    requires limit >= 1
    ensures TotalPages(total, limit) * limit >= total
    ensures total > 0 ==> (TotalPages(total, limit) - 1) * limit < total
    ensures total == 0 ==> TotalPages(total, limit) == 0
  {
    if total > 0 {
      var n := total + limit - 1;
      assert n == (n / limit) * limit + n % limit;
      assert (n / limit - 1) * limit == (n / limit) * limit - limit;
    }
  }

  lemma PagesSpread(total: nat, limit: nat)
    requires limit >= 1
    ensures Spread(total, limit, TotalPages(total, limit))
  {
    PageCount(total, limit);
  }

  lemma PageEmptyExactly(list: seq<Product>, n: nat, limit: nat)
    requires limit >= 1 && n >= 1
    ensures PageOf(list, n, limit) == [] <==> n > TotalPages(|list|, limit)
  {
    var pages := TotalPages(|list|, limit);
    PageCount(|list|, limit);
    hide TotalPages;
    if n > pages {
      Scale(pages, n - 1, limit);
    } else {
      Scale(n - 1, pages - 1, limit);
    }
  }

  // The pages 1 to totalPages, put together, are the whole listing, each product once; every later
  // page is empty and none of them is.
  lemma PagesTile(list: seq<Product>, limit: nat)
    requires limit >= 1
    ensures FirstPages(list, limit, TotalPages(|list|, limit)) == list
    ensures forall n: nat :: n >= 1 ==> (PageOf(list, n, limit) == [] <==> n > TotalPages(|list|, limit))
  {
    hide TotalPages, PageOf;
    PageCount(|list|, limit);
    FirstPagesAre(list, limit, TotalPages(|list|, limit));
    forall n: nat | n >= 1 ensures PageOf(list, n, limit) == [] <==> n > TotalPages(|list|, limit) {
      PageEmptyExactly(list, n, limit);
    }
  }

  lemma Scale(a: nat, b: int, limit: nat)
    requires a <= b
    ensures a * limit <= b * limit
  {
  }

  // The page number is capped, so a request can reach a product exactly when fewer than a million
  // pages come before its own.
  lemma ReachableExactly(list: seq<Product>, limit: nat, i: nat)
    requires limit >= 1 && i < |list|
    ensures (exists raw :: Shows(ClampInt(raw, 1, 1, MAX_PAGE), limit, i)) <==> i < MAX_PAGE * limit
  {
    if raw :| Shows(ClampInt(raw, 1, 1, MAX_PAGE), limit, i) {
      Scale(ClampInt(raw, 1, 1, MAX_PAGE), MAX_PAGE, limit);
    }
    if i < MAX_PAGE * limit {
      var page := i / limit + 1;
      assert i == (i / limit) * limit + i % limit;
      assert page * limit == (i / limit) * limit + limit;
      if page > MAX_PAGE { Scale(MAX_PAGE, page - 1, limit); }
      assert Shows(ClampInt(Some(page), 1, 1, MAX_PAGE), limit, i);
    }
  }

  // Whether the i-th product of a listing is on a page.
  predicate Shows(page: int, limit: nat, i: nat) {
    (page - 1) * limit <= i < page * limit
  }
}
