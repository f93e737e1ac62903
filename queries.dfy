/**
 * `TransactionListView` and `TransactionDetailView`: the paginated, optionally
 * filtered listing (newest first, 50 per page) and the lookup by key, both
 * returning the same seven-field projection of a row.
 */
module Queries {
  import opened Wrappers
  import opened Models
  import opened Store

  /** `paginate_by = 50`. */
  const PageSize: nat := 50

  /** How the projection renders values: `str(uuid)`, `isoformat()`, `str(Decimal)`. */
  datatype Formatters = Formatters(uuidText: Uuid -> string, isoText: Instant -> string, decimalText: Cents -> string)

  /** The JSON object for one transaction. */
  datatype TransactionView = TransactionView(
    transactionId: string,
    timestamp: string,
    amount: string,
    currency: string,
    customerId: string,
    productId: string,
    quantity: int)

  function Project(fmt: Formatters, t: Transaction): TransactionView {
    TransactionView(fmt.uuidText(t.transactionId), fmt.isoText(t.timestamp), fmt.decimalText(t.amount),
                    t.currency, fmt.uuidText(t.customerId), fmt.uuidText(t.productId), t.quantity)
  }

  /** The `results` list comprehension. */
  function Views(fmt: Formatters, rows: seq<Transaction>): (r: seq<TransactionView>)
    ensures |r| == |rows|
    ensures forall i :: 0 <= i < |rows| ==> r[i] == Project(fmt, rows[i])
  {
    seq(|rows|, i requires 0 <= i < |rows| => Project(fmt, rows[i]))
  }

  // ---- ordering: order_by("-timestamp") ----

  /** Non-increasing timestamps. */
  predicate NewestFirst(rows: seq<Transaction>) {
    forall i, j :: 0 <= i < j < |rows| ==> rows[i].timestamp >= rows[j].timestamp
  }

  /** A row no older than anything in a newest-first sequence can go in front of it. */
  lemma NewestFirstCons(x: Transaction, rows: seq<Transaction>)
    requires NewestFirst(rows)
    requires forall y :: y in rows ==> y.timestamp <= x.timestamp
    ensures NewestFirst([x] + rows)
  {
    forall i, j | 0 <= i < j < |[x] + rows| ensures ([x] + rows)[i].timestamp >= ([x] + rows)[j].timestamp {
      if i == 0 { assert ([x] + rows)[j] == rows[j - 1]; assert rows[j - 1] in rows; }
    }
  }

  /** No row of a permutation of `rows` and `x` is newer than a bound that all of them respect. */
  lemma BoundedRows(rest: seq<Transaction>, rows: seq<Transaction>, x: Transaction, bound: Instant)
    requires multiset(rest) == multiset(rows) + multiset{x}
    requires forall y :: y in rows ==> y.timestamp <= bound
    requires x.timestamp <= bound
    ensures forall y :: y in rest ==> y.timestamp <= bound
  {
    forall y | y in rest ensures y.timestamp <= bound {
      assert y in multiset(rest);
      if y != x {
        assert y in multiset(rows);
      }
    }
  }

  function InsertNewestFirst(t: Transaction, sorted: seq<Transaction>): (r: seq<Transaction>)
    requires NewestFirst(sorted)
    ensures NewestFirst(r)
    ensures multiset(r) == multiset(sorted) + multiset{t}
  {
    if sorted == [] || t.timestamp >= sorted[0].timestamp then
      NewestFirstCons(t, sorted);
      [t] + sorted
    else
      NewestFirstTail(sorted);
      var head, tail := sorted[0], sorted[1..];
      assert sorted == [head] + tail;
      var rest := InsertNewestFirst(t, tail);
      BoundedRows(rest, tail, t, head.timestamp);
      NewestFirstCons(head, rest);
      [head] + rest
  }

  /** The table's rows, newest first; rows with equal timestamps in some order. */
  function OrderByTimestampDesc(rows: seq<Transaction>): (r: seq<Transaction>)
    ensures NewestFirst(r)
    ensures multiset(r) == multiset(rows)
  {
    if rows == [] then []
    else
      assert rows == [rows[0]] + rows[1..];
      InsertNewestFirst(rows[0], OrderByTimestampDesc(rows[1..]))
  }

  // ---- filtering ----

  /** `filter(customer__id=...)` and `filter(product__id=...)`; an absent filter keeps every row. */
  predicate Matches(t: Transaction, customer: Option<Uuid>, product: Option<Uuid>) {
    (customer.None? || t.customerId == customer.value) && (product.None? || t.productId == product.value)
  }

  function FilterRows(rows: seq<Transaction>, customer: Option<Uuid>, product: Option<Uuid>): (r: seq<Transaction>)
    ensures forall t :: t in r ==> t in rows && Matches(t, customer, product)
    ensures forall t :: t in rows && Matches(t, customer, product) ==> t in r
  {
    if rows == [] then []
    else
      assert rows == [rows[0]] + rows[1..];
      (if Matches(rows[0], customer, product) then [rows[0]] else []) + FilterRows(rows[1..], customer, product)
  }

  /** Filtering keeps each matching row as often as it occurs and drops the rest. */
  lemma {:induction false} FilterMultiset(rows: seq<Transaction>, customer: Option<Uuid>, product: Option<Uuid>)
    ensures forall t :: multiset(FilterRows(rows, customer, product))[t]
                        == if Matches(t, customer, product) then multiset(rows)[t] else 0
  {
    if rows != [] {
      FilterMultiset(rows[1..], customer, product);
      assert rows == [rows[0]] + rows[1..];
    }
  }

  /** Dropping the first row of a newest-first sequence leaves it newest first. */
  lemma NewestFirstTail(rows: seq<Transaction>)
    requires NewestFirst(rows) && rows != []
    ensures NewestFirst(rows[1..])
    ensures forall y :: y in rows[1..] ==> y.timestamp <= rows[0].timestamp
  {
    forall i, j | 0 <= i < j < |rows[1..]| ensures rows[1..][i].timestamp >= rows[1..][j].timestamp {
      assert rows[1..][i] == rows[i + 1] && rows[1..][j] == rows[j + 1];
    }
    forall y | y in rows[1..] ensures y.timestamp <= rows[0].timestamp {
      var i :| 0 <= i < |rows[1..]| && rows[1..][i] == y;
      assert rows[i + 1] == y;
    }
  }

  /** Filtering a newest-first sequence leaves it newest first. */
  lemma {:induction false} FilterKeepsOrder(rows: seq<Transaction>, customer: Option<Uuid>, product: Option<Uuid>)
    requires NewestFirst(rows)
    ensures NewestFirst(FilterRows(rows, customer, product))
  {
    if rows != [] {
      NewestFirstTail(rows);
      FilterKeepsOrder(rows[1..], customer, product);
      var rest := FilterRows(rows[1..], customer, product);
      if Matches(rows[0], customer, product) {
        NewestFirstCons(rows[0], rest);
        assert FilterRows(rows, customer, product) == [rows[0]] + rest;
      } else {
        assert FilterRows(rows, customer, product) == rest;
      }
    }
  }

  /** Ordering first and filtering after keeps as many rows as filtering the table. */
  lemma FilteredCount(rows: seq<Transaction>, customer: Option<Uuid>, product: Option<Uuid>)
    ensures |FilterRows(OrderByTimestampDesc(rows), customer, product)| == |FilterRows(rows, customer, product)|
    ensures multiset(FilterRows(OrderByTimestampDesc(rows), customer, product)) == multiset(FilterRows(rows, customer, product))
  {
    var sorted := OrderByTimestampDesc(rows);
    var a, b := FilterRows(sorted, customer, product), FilterRows(rows, customer, product);
    FilterMultiset(rows, customer, product);
    FilterMultiset(sorted, customer, product);
    assert multiset(a) == multiset(b) by {
      forall t ensures multiset(a)[t] == multiset(b)[t] {
        assert multiset(sorted)[t] == multiset(rows)[t];
      }
    }
    assert |multiset(a)| == |a| && |multiset(b)| == |b|;
  }

  /** A query parameter used as a filter: absent or empty means no filter; otherwise it must be a UUID. */
  function FilterParam(param: Option<string>, parseUuid: string -> Option<Uuid>): (r: Option<Option<Uuid>>)
    ensures param.None? || param.value == "" ==> r == Some(None)
    ensures param.Some? && param.value != "" ==> (r.Some? <==> parseUuid(param.value).Some?)
    ensures param.Some? && param.value != "" && r.Some? ==> r.value == parseUuid(param.value)
  {
    if param.None? || param.value == "" then Some(None)
    else match parseUuid(param.value)
      case None => None
      case Some(u) => Some(Some(u))
  }

  // ---- pagination ----

  /** The `page` query parameter: absent, `last`, an integer, or anything else. */
  datatype PageRequest = DefaultPage | LastPage | PageNumber(n: int) | NotANumber

  /** `Paginator.num_pages` with no orphans; an empty list still has one page. */
  function NumPages(count: nat): (n: nat)
    ensures n >= 1
    ensures count > 0 ==> (n - 1) * PageSize < count <= n * PageSize
    ensures count == 0 ==> n == 1
  {
    if count == 0 then 1 else (count + PageSize - 1) / PageSize
  }

  /** The page number asked for, before it is checked against the page count. */
  function RequestedPage(page: PageRequest, count: nat): Option<int> {
    match page
    case DefaultPage => Some(1)
    case LastPage => Some(NumPages(count))
    case PageNumber(n) => Some(n)
    case NotANumber => None
  }

  /** Where page `n` starts: never past the end of the rows. */
  lemma PageStartInRange(count: nat, n: int)
    requires 1 <= n <= NumPages(count)
    ensures 0 <= (n - 1) * PageSize <= count
  {
    if count > 0 {
      var pages := NumPages(count);
      assert (n - 1) * PageSize <= (pages - 1) * PageSize;
    }
  }

  /** The rows of page `n`. */
  function PageSlice(rows: seq<Transaction>, n: int): (r: seq<Transaction>)
    requires 1 <= n <= NumPages(|rows|)
    ensures |r| <= PageSize
    ensures n < NumPages(|rows|) ==> |r| == PageSize
    ensures (n - 1) * PageSize + |r| <= |rows|
    ensures n == NumPages(|rows|) ==> (n - 1) * PageSize + |r| == |rows|
    ensures r == rows[(n - 1) * PageSize .. (n - 1) * PageSize + |r|]
  {
    PageStartInRange(|rows|, n);
    var start := (n - 1) * PageSize;
    var end := if n * PageSize < |rows| then n * PageSize else |rows|;
    assert n < NumPages(|rows|) ==> n * PageSize < |rows| by {
      if n < NumPages(|rows|) {
        assert n * PageSize <= (NumPages(|rows|) - 1) * PageSize;
      }
    }
    rows[start..end]
  }

  datatype ListResponse =
    | Listing(count: nat, numPages: nat, currentPage: nat, hasNext: bool, hasPrevious: bool,
              results: seq<TransactionView>)
    | PageNotFound
    | InvalidFilter

  function ListStatus(r: ListResponse): int {
    match r
    case Listing(_, _, _, _, _, _) => 200
    case PageNotFound => 404
    case InvalidFilter => 500
  }

  /** The rows `get_queryset` yields: the whole table newest first, then filtered. */
  function Queryset(table: seq<Transaction>, customer: Option<Uuid>, product: Option<Uuid>): seq<Transaction> {
    FilterRows(OrderByTimestampDesc(table), customer, product)
  }

  /** Paginating the rows of the queryset: a missing page is a 404. */
  function ListPage(rows: seq<Transaction>, page: PageRequest, fmt: Formatters): ListResponse {
    var pages := NumPages(|rows|);
    match RequestedPage(page, |rows|)
    case Some(n) =>
      if 1 <= n <= pages then
        Listing(|rows|, pages, n, n < pages, n > 1, Views(fmt, PageSlice(rows, n)))
      else PageNotFound
    case None => PageNotFound
  }

  /**
   * `TransactionListView`: filter parameters first (a malformed identity makes
   * the query raise), then the page number (a non-number, or a page outside
   * 1..num_pages, is a 404), then the page and its metadata.
   */
  function ListTransactions(table: seq<Transaction>, customerParam: Option<string>, productParam: Option<string>,
                            page: PageRequest, parseUuid: string -> Option<Uuid>, fmt: Formatters): (r: ListResponse)
    ensures r == InvalidFilter <==> FilterParam(customerParam, parseUuid).None? || FilterParam(productParam, parseUuid).None?
    ensures ListStatus(r) == 500 <==> FilterParam(customerParam, parseUuid).None? || FilterParam(productParam, parseUuid).None?
    ensures r != InvalidFilter ==>
              r == ListPage(Queryset(table, FilterParam(customerParam, parseUuid).value,
                                     FilterParam(productParam, parseUuid).value), page, fmt)
  {
    var customer := FilterParam(customerParam, parseUuid);
    var product := FilterParam(productParam, parseUuid);
    if customer.None? || product.None? then InvalidFilter
    else ListPage(Queryset(table, customer.value, product.value), page, fmt)
  }

  /** A page of a listing: its metadata and its rows. */
  lemma ListPageProperties(rows: seq<Transaction>, page: PageRequest, fmt: Formatters)
    requires ListPage(rows, page, fmt).Listing?
    ensures var r := ListPage(rows, page, fmt);
            && r.count == |rows|
            && 1 <= r.currentPage <= r.numPages == NumPages(|rows|)
            && r.hasNext == (r.currentPage < r.numPages)
            && r.hasPrevious == (r.currentPage > 1)
            && |r.results| <= PageSize
            && r.results == Views(fmt, PageSlice(rows, r.currentPage))
  {
  }

  /** A subsequence of consecutive rows of a newest-first sequence is newest first, and holds only its rows. */
  lemma SliceOfNewestFirst(rows: seq<Transaction>, a: nat, b: nat)
    requires a <= b <= |rows| && NewestFirst(rows)
    ensures NewestFirst(rows[a..b])
    ensures forall t :: t in rows[a..b] ==> t in rows
  {
    forall i, j | 0 <= i < j < b - a ensures rows[a..b][i].timestamp >= rows[a..b][j].timestamp {
      assert rows[a..b][i] == rows[a + i] && rows[a..b][j] == rows[a + j];
    }
  }

  /** The queryset holds matching rows of the table only, newest first. */
  lemma QuerysetProperties(table: seq<Transaction>, customer: Option<Uuid>, product: Option<Uuid>)
    ensures NewestFirst(Queryset(table, customer, product))
    ensures forall t :: t in Queryset(table, customer, product) ==> t in table && Matches(t, customer, product)
  {
    var sorted := OrderByTimestampDesc(table);
    FilterKeepsOrder(sorted, customer, product);
    forall t | t in FilterRows(sorted, customer, product) ensures t in table {
      assert t in multiset(sorted);
    }
  }

  /** Every page of the queryset is newest first and holds matching rows of the table only. */
  lemma PageRows(table: seq<Transaction>, customer: Option<Uuid>, product: Option<Uuid>, n: int)
    requires 1 <= n <= NumPages(|Queryset(table, customer, product)|)
    ensures var rows := PageSlice(Queryset(table, customer, product), n);
            && NewestFirst(rows)
            && (forall t :: t in rows ==> t in table && Matches(t, customer, product))
  {
    var all := Queryset(table, customer, product);
    QuerysetProperties(table, customer, product);
    var rows := PageSlice(all, n);
    SliceOfNewestFirst(all, (n - 1) * PageSize, (n - 1) * PageSize + |rows|);
  }

  /**
   * What a listing promises: `count` is the number of matching rows; the page
   * holds at most 50 of them, newest first, each the projection of a matching
   * row of the table; the flags say whether pages come before and after.
   */
  lemma ListingProperties(table: seq<Transaction>, customer: Option<Uuid>, product: Option<Uuid>,
                          page: PageRequest, fmt: Formatters)
    requires ListPage(Queryset(table, customer, product), page, fmt).Listing?
    ensures var r := ListPage(Queryset(table, customer, product), page, fmt);
            var rows := PageSlice(Queryset(table, customer, product), r.currentPage);
            && r.count == |FilterRows(table, customer, product)|
            && 1 <= r.currentPage <= r.numPages == NumPages(r.count)
            && r.hasNext == (r.currentPage < r.numPages)
            && r.hasPrevious == (r.currentPage > 1)
            && |r.results| <= PageSize
            && r.results == Views(fmt, rows)
            && NewestFirst(rows)
            && (forall t :: t in rows ==> t in table && Matches(t, customer, product))
  {
    var all := Queryset(table, customer, product);
    ListPageProperties(all, page, fmt);
    FilteredCount(table, customer, product);
    PageRows(table, customer, product, ListPage(all, page, fmt).currentPage);
  }

  /** When every row matches, filtering keeps them all, in order. */
  lemma {:induction false} FilterAllMatching(rows: seq<Transaction>, customer: Option<Uuid>, product: Option<Uuid>)
    requires forall i :: 0 <= i < |rows| ==> Matches(rows[i], customer, product)
    ensures FilterRows(rows, customer, product) == rows
  {
    if rows != [] {
      assert Matches(rows[0], customer, product);
      FilterAllMatching(rows[1..], customer, product);
      assert rows == [rows[0]] + rows[1..];
    }
  }

  /**
   * The listing's promises stated on the view's own result: a 500 exactly for
   * a malformed filter; otherwise a 404 or a page whose `count` is the number
   * of matching rows, with at most 50 results, each the projection of a
   * matching row of the table, newest first, and flags saying whether pages
   * come before and after.
   */
  lemma ListTransactionsProperties(table: seq<Transaction>, customerParam: Option<string>, productParam: Option<string>,
                                   page: PageRequest, parseUuid: string -> Option<Uuid>, fmt: Formatters)
    ensures var r := ListTransactions(table, customerParam, productParam, page, parseUuid, fmt);
            var customer, product := FilterParam(customerParam, parseUuid), FilterParam(productParam, parseUuid);
            && (ListStatus(r) == 500 <==> customer.None? || product.None?)
            && (r.Listing? ==>
                  var rows := PageSlice(Queryset(table, customer.value, product.value), r.currentPage);
                  && r.count == |FilterRows(table, customer.value, product.value)|
                  && 1 <= r.currentPage <= r.numPages == NumPages(r.count)
                  && r.hasNext == (r.currentPage < r.numPages)
                  && r.hasPrevious == (r.currentPage > 1)
                  && |r.results| <= PageSize
                  && r.results == Views(fmt, rows)
                  && NewestFirst(rows)
                  && (forall t :: t in rows ==> t in table && Matches(t, customer.value, product.value)))
  {
    var r := ListTransactions(table, customerParam, productParam, page, parseUuid, fmt);
    if r.Listing? {
      var customer, product := FilterParam(customerParam, parseUuid), FilterParam(productParam, parseUuid);
      ListingProperties(table, customer.value, product.value, page, fmt);
    }
  }

  /** With neither filter, every row of the table is kept. */
  lemma FilterNothing(rows: seq<Transaction>)
    ensures FilterRows(rows, None, None) == rows
  {
    FilterAllMatching(rows, None, None);
  }

  /** An empty `customer_id` and no `product_id` filter nothing out: `count` is the table's size. */
  lemma EmptyParamsListEverything(table: seq<Transaction>, page: PageRequest, parseUuid: string -> Option<Uuid>, fmt: Formatters)
    requires ListTransactions(table, Some(""), None, page, parseUuid, fmt).Listing?
    ensures ListTransactions(table, Some(""), None, page, parseUuid, fmt).count == |table|
  {
    ListingProperties(table, None, None, page, fmt);
    FilterNothing(table);
  }

  /** Of 100 rows, page 2 is full and the last one. */
  lemma PageTwoOfHundred(rows: seq<Transaction>, fmt: Formatters)
    requires |rows| == 100
    ensures NumPages(|rows|) == 2 && |PageSlice(rows, 2)| == 50
    ensures ListPage(rows, PageNumber(2), fmt) == Listing(100, 2, 2, false, true, Views(fmt, PageSlice(rows, 2)))
  {
  }

  /** Without filters the queryset has as many rows as the table. */
  lemma UnfilteredCount(table: seq<Transaction>)
    ensures |Queryset(table, None, None)| == |table|
  {
    FilteredCount(table, None, None);
    FilterNothing(table);
  }

  /** Without filter parameters the listing pages the unfiltered queryset. */
  lemma NoParamsListing(table: seq<Transaction>, page: PageRequest, parseUuid: string -> Option<Uuid>, fmt: Formatters)
    ensures ListTransactions(table, None, None, page, parseUuid, fmt) == ListPage(Queryset(table, None, None), page, fmt)
  {
  }

  /** 100 rows, page 2: the second and last page, with a page before it and 50 rows on it. */
  lemma SecondOfTwoPages(table: seq<Transaction>, parseUuid: string -> Option<Uuid>, fmt: Formatters)
    requires |table| == 100
    ensures var r := ListTransactions(table, None, None, PageNumber(2), parseUuid, fmt);
            && r.Listing? && r.count == 100 && r.numPages == 2 && r.currentPage == 2
            && r.hasPrevious && !r.hasNext && |r.results| == 50
  {
    UnfilteredCount(table);
    NoParamsListing(table, PageNumber(2), parseUuid, fmt);
    PageTwoOfHundred(Queryset(table, None, None), fmt);
  }

  // ---- detail ----

  datatype DetailResponse = Found(view: TransactionView) | NotFound

  /** `TransactionDetailView.get`: look the key up; a missing key is a 404. */
  function TransactionDetail(table: seq<Transaction>, id: Uuid, fmt: Formatters): (r: DetailResponse)
    ensures r.Found? <==> id in Ids(table)
  {
    match Lookup(table, id)
    case Some(t) => Found(Project(fmt, t))
    case None => NotFound
  }

  /** For a row of the table the detail is that row's projection. */
  lemma DetailOfRow(table: seq<Transaction>, k: nat, fmt: Formatters)
    requires UniqueIds(table) && k < |table|
    ensures TransactionDetail(table, table[k].transactionId, fmt) == Found(Project(fmt, table[k]))
  {
    LookupUnique(table, table[k].transactionId, k);
  }

  /** Every listed row has a detail, and it is the very object the listing shows. */
  lemma ListingAgreesWithDetail(table: seq<Transaction>, customer: Option<Uuid>, product: Option<Uuid>,
                                page: PageRequest, fmt: Formatters, i: nat)
    requires UniqueIds(table)
    requires ListPage(Queryset(table, customer, product), page, fmt).Listing?
    requires i < |ListPage(Queryset(table, customer, product), page, fmt).results|
    ensures var r := ListPage(Queryset(table, customer, product), page, fmt);
            var t := PageSlice(Queryset(table, customer, product), r.currentPage)[i];
            TransactionDetail(table, t.transactionId, fmt) == Found(r.results[i])
  {
    ListingProperties(table, customer, product, page, fmt);
    var r := ListPage(Queryset(table, customer, product), page, fmt);
    var rows := PageSlice(Queryset(table, customer, product), r.currentPage);
    assert rows[i] in rows;
    var k :| 0 <= k < |table| && table[k] == rows[i];
    DetailOfRow(table, k, fmt);
  }
}
