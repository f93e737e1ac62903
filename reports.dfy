/**
 * `customer_summary` and `product_summary`: the rows of one customer (or one
 * product) whose date falls within optional inclusive bounds, aggregated into
 * a converted money total, a distinct count and either the latest timestamp or
 * the quantity sold.
 *
 * Money is exact: an amount is in hundredths of its currency, a rate in tenths
 * of PLN per unit, so a converted amount is in thousandths of PLN.
 */
module Reports {
  import opened Wrappers
  import opened Models
  import opened Store
  import Queries

  /** `EXCHANGE_RATES`, in tenths: PLN 1, EUR 4.3, USD 4.0. */
  const ExchangeRates: map<string, nat> := map["PLN" := 10, "EUR" := 43, "USD" := 40]

  /** `EXCHANGE_RATES.get(currency, 1)`: the default for an unlisted code. */
  const DefaultRate: nat := 10

  function Rate(currency: string): nat {
    if currency in ExchangeRates then ExchangeRates[currency] else DefaultRate
  }

  /** The table, and an unknown code counting as PLN rather than being refused. */
  lemma RateTable(currency: string)
    ensures Rate("PLN") == 10 && Rate("EUR") == 43 && Rate("USD") == 40
    ensures currency != "PLN" && currency != "EUR" && currency != "USD" ==> Rate(currency) == Rate("PLN")
  {
  }

  /** `float(t.amount) * rate`, in thousandths of PLN. */
  function Converted(t: Transaction): int {
    t.amount * Rate(t.currency)
  }

  /** What the accumulator loop adds up: each row converted, then summed in order. */
  function SumConverted(rows: seq<Transaction>): int {
    if rows == [] then 0 else SumConverted(rows[..|rows| - 1]) + Converted(rows[|rows| - 1])
  }

  /** `Sum("quantity")` over the rows. */
  function SumQuantity(rows: seq<Transaction>): int {
    if rows == [] then 0 else SumQuantity(rows[..|rows| - 1]) + rows[|rows| - 1].quantity
  }

  /** The `total_spent` / `total_revenue` loop: one conversion per row, accumulated. */
  method TotalConverted(rows: seq<Transaction>) returns (total: int)
    ensures total == SumConverted(rows)
  {
    total := 0;
    for i := 0 to |rows|
      invariant total == SumConverted(rows[..i])
    {
      assert rows[..i + 1][..i] == rows[..i];
      total := total + Converted(rows[i]);
    }
    assert rows[..|rows|] == rows;
  }

  /** The converted sum of two stretches of rows is the sum of their sums. */
  lemma {:induction false} SumConvertedAppend(a: seq<Transaction>, b: seq<Transaction>)
    ensures SumConverted(a + b) == SumConverted(a) + SumConverted(b)
    decreases |b|
  {
    if b == [] {
      assert a + b == a;
    } else {
      var n := |b| - 1;
      assert (a + b)[..|a + b| - 1] == a + b[..n];
      SumConvertedAppend(a, b[..n]);
    }
  }

  /** A sum splits around any one row: the rows before it, that row, and the rows after it. */
  lemma SumConvertedSplit(b: seq<Transaction>, j: nat)
    requires j < |b|
    ensures SumConverted(b) == SumConverted(b[..j]) + Converted(b[j]) + SumConverted(b[j + 1..])
  {
    var front, back := b[..j + 1], b[j + 1..];
    assert b == front + back;
    SumConvertedAppend(front, back);
    assert front[..j] == b[..j] && front[j] == b[j];
  }

  /** Taking one row out of the middle takes its conversion out of the sum. */
  lemma SumConvertedWithout(b: seq<Transaction>, j: nat)
    requires j < |b|
    ensures SumConverted(b) == SumConverted(b[..j] + b[j + 1..]) + Converted(b[j])
  {
    SumConvertedSplit(b, j);
    SumConvertedAppend(b[..j], b[j + 1..]);
  }

  /** Removing the same row from two permutations of each other leaves permutations. */
  lemma MultisetWithout(a: seq<Transaction>, b: seq<Transaction>, j: nat)
    requires a != [] && j < |b| && b[j] == a[|a| - 1]
    requires multiset(a) == multiset(b)
    ensures multiset(a[..|a| - 1]) == multiset(b[..j] + b[j + 1..])
  {
    var x := b[j];
    assert a == a[..|a| - 1] + [x];
    assert b == b[..j] + [x] + b[j + 1..];
    assert multiset(a[..|a| - 1]) == multiset(a) - multiset{x};
    assert multiset(b[..j] + b[j + 1..]) == multiset(b) - multiset{x};
  }

  /** The total does not depend on the order the rows come back in. */
  lemma {:induction false} SumConvertedPermutation(a: seq<Transaction>, b: seq<Transaction>)
    requires multiset(a) == multiset(b)
    ensures SumConverted(a) == SumConverted(b)
    decreases |a|
  {
    if a != [] {
      var n := |a| - 1;
      assert a[n] in multiset(b);
      var j :| 0 <= j < |b| && b[j] == a[n];
      MultisetWithout(a, b, j);
      SumConvertedPermutation(a[..n], b[..j] + b[j + 1..]);
      SumConvertedWithout(b, j);
    } else {
      assert |multiset(b)| == 0;
    }
  }

  /** `n` rows of the same amount in the same currency convert to `n * amount * rate`. */
  lemma {:induction false} SumConvertedUniform(rows: seq<Transaction>, amount: Cents, currency: string)
    requires forall i :: 0 <= i < |rows| ==> rows[i].amount == amount && rows[i].currency == currency
    ensures SumConverted(rows) == |rows| * amount * Rate(currency)
  {
    if rows != [] {
      SumConvertedUniform(rows[..|rows| - 1], amount, currency);
    }
  }

  /** `n` rows of the same quantity sell `n * quantity`. */
  lemma {:induction false} SumQuantityUniform(rows: seq<Transaction>, quantity: int)
    requires forall i :: 0 <= i < |rows| ==> rows[i].quantity == quantity
    ensures SumQuantity(rows) == |rows| * quantity
  {
    if rows != [] {
      SumQuantityUniform(rows[..|rows| - 1], quantity);
    }
  }

  /** Rows with no negative quantity never sell a negative quantity. */
  lemma {:induction false} SumQuantityNonNegative(rows: seq<Transaction>)
    requires forall i :: 0 <= i < |rows| ==> rows[i].quantity >= 0
    ensures SumQuantity(rows) >= 0
  {
    if rows != [] {
      SumQuantityNonNegative(rows[..|rows| - 1]);
    }
  }

  /** The quantity sold over two stretches of rows is the sum of their sums. */
  lemma {:induction false} SumQuantityAppend(a: seq<Transaction>, b: seq<Transaction>)
    ensures SumQuantity(a + b) == SumQuantity(a) + SumQuantity(b)
    decreases |b|
  {
    if b == [] {
      assert a + b == a;
    } else {
      var n := |b| - 1;
      assert (a + b)[..|a + b| - 1] == a + b[..n];
      SumQuantityAppend(a, b[..n]);
    }
  }

  /** A sum splits around any one row: the rows before it, that row, and the rows after it. */
  lemma SumQuantitySplit(b: seq<Transaction>, j: nat)
    requires j < |b|
    ensures SumQuantity(b) == SumQuantity(b[..j]) + b[j].quantity + SumQuantity(b[j + 1..])
  {
    var front, back := b[..j + 1], b[j + 1..];
    assert b == front + back;
    SumQuantityAppend(front, back);
    assert front[..j] == b[..j] && front[j] == b[j];
  }

  /** Taking one row out of the middle takes its quantity out of the sum. */
  lemma SumQuantityWithout(b: seq<Transaction>, j: nat)
    requires j < |b|
    ensures SumQuantity(b) == SumQuantity(b[..j] + b[j + 1..]) + b[j].quantity
  {
    SumQuantitySplit(b, j);
    SumQuantityAppend(b[..j], b[j + 1..]);
  }

  /** The quantity sold does not depend on the order the rows come back in. */
  lemma {:induction false} SumQuantityPermutation(a: seq<Transaction>, b: seq<Transaction>)
    requires multiset(a) == multiset(b)
    ensures SumQuantity(a) == SumQuantity(b)
    decreases |a|
  {
    if a != [] {
      var n := |a| - 1;
      assert a[n] in multiset(b);
      var j :| 0 <= j < |b| && b[j] == a[n];
      MultisetWithout(a, b, j);
      SumQuantityPermutation(a[..n], b[..j] + b[j + 1..]);
      SumQuantityWithout(b, j);
    } else {
      assert |multiset(b)| == 0;
    }
  }

  // ---- distinct counts and the latest timestamp ----

  /** `values("product").distinct()`: the product ids among the rows. */
  function ProductIds(rows: seq<Transaction>): set<Uuid> {
    set t | t in rows :: t.productId
  }

  /** `values("customer").distinct()`: the customer ids among the rows. */
  function CustomerIds(rows: seq<Transaction>): set<Uuid> {
    set t | t in rows :: t.customerId
  }

  lemma ProductIdsCons(rows: seq<Transaction>)
    requires rows != []
    ensures ProductIds(rows) == ProductIds(rows[1..]) + {rows[0].productId}
  {
    assert forall t :: t in rows <==> t == rows[0] || t in rows[1..];
  }

  lemma CustomerIdsCons(rows: seq<Transaction>)
    requires rows != []
    ensures CustomerIds(rows) == CustomerIds(rows[1..]) + {rows[0].customerId}
  {
    assert forall t :: t in rows <==> t == rows[0] || t in rows[1..];
  }

  /** Between one and as many distinct products as rows. */
  lemma {:induction false} ProductCountBounds(rows: seq<Transaction>)
    requires rows != []
    ensures 1 <= |ProductIds(rows)| <= |rows|
    decreases |rows|
  {
    ProductIdsCons(rows);
    if |rows| > 1 {
      ProductCountBounds(rows[1..]);
    } else {
      assert ProductIds(rows[1..]) == {};
    }
  }

  /** Between one and as many distinct customers as rows. */
  lemma {:induction false} CustomerCountBounds(rows: seq<Transaction>)
    requires rows != []
    ensures 1 <= |CustomerIds(rows)| <= |rows|
    decreases |rows|
  {
    CustomerIdsCons(rows);
    if |rows| > 1 {
      CustomerCountBounds(rows[1..]);
    } else {
      assert CustomerIds(rows[1..]) == {};
    }
  }

  /** `aggregate(Max("timestamp"))`: the latest timestamp among non-empty rows. */
  function MaxTimestamp(rows: seq<Transaction>): (m: Instant)
    requires rows != []
    ensures exists i :: 0 <= i < |rows| && rows[i].timestamp == m
    ensures forall i :: 0 <= i < |rows| ==> rows[i].timestamp <= m
  {
    if |rows| == 1 then rows[0].timestamp
    else
      var m := MaxTimestamp(rows[1..]);
      assert forall i :: 1 <= i < |rows| ==> rows[i] == rows[1..][i - 1];
      if rows[0].timestamp >= m then rows[0].timestamp
      else
        var k :| 0 <= k < |rows[1..]| && rows[1..][k].timestamp == m;
        assert rows[k + 1].timestamp == m;
        m
  }

  // ---- selecting the rows ----

  /** `timestamp__date__gte=from_date` and `timestamp__date__lte=to_date`; an absent bound is no filter. */
  predicate InRange(timestamp: Instant, from: Option<Date>, to: Option<Date>) {
    && (from.Some? ==> from.value <= DateOf(timestamp))
    && (to.Some? ==> DateOf(timestamp) <= to.value)
  }

  /** The two date filters: the rows, in order, dated within the bounds that are present. */
  function WithinDates(rows: seq<Transaction>, from: Option<Date>, to: Option<Date>): (r: seq<Transaction>)
    ensures forall t :: t in r <==> t in rows && InRange(t.timestamp, from, to)
  {
    if rows == [] then []
    else
      assert rows == [rows[0]] + rows[1..];
      (if InRange(rows[0].timestamp, from, to) then [rows[0]] else []) + WithinDates(rows[1..], from, to)
  }

  /** The date filters keep each row in range as often as it occurs and drop the rest. */
  lemma {:induction false} WithinDatesMultiset(rows: seq<Transaction>, from: Option<Date>, to: Option<Date>)
    ensures forall t :: multiset(WithinDates(rows, from, to))[t]
                        == if InRange(t.timestamp, from, to) then multiset(rows)[t] else 0
  {
    if rows != [] {
      WithinDatesMultiset(rows[1..], from, to);
      assert rows == [rows[0]] + rows[1..];
    }
  }

  /** Without bounds the date filters keep every row, in order. */
  lemma {:induction false} WithinNoDates(rows: seq<Transaction>)
    ensures WithinDates(rows, None, None) == rows
  {
    if rows != [] {
      WithinNoDates(rows[1..]);
      assert rows == [rows[0]] + rows[1..];
    }
  }

  /** `filter(customer=customer)`, then the date filters. */
  function CustomerRows(table: seq<Transaction>, customerId: Uuid, from: Option<Date>, to: Option<Date>)
    : (r: seq<Transaction>)
    ensures forall t :: t in r <==> t in table && t.customerId == customerId && InRange(t.timestamp, from, to)
  {
    WithinDates(Queries.FilterRows(table, Some(customerId), None), from, to)
  }

  /** `filter(product=product)`, then the date filters. */
  function ProductRows(table: seq<Transaction>, productId: Uuid, from: Option<Date>, to: Option<Date>)
    : (r: seq<Transaction>)
    ensures forall t :: t in r <==> t in table && t.productId == productId && InRange(t.timestamp, from, to)
  {
    WithinDates(Queries.FilterRows(table, None, Some(productId)), from, to)
  }

  /** Each of the customer's rows in range is selected as often as it is in the table; no other row is. */
  lemma CustomerRowsMultiset(table: seq<Transaction>, customerId: Uuid, from: Option<Date>, to: Option<Date>)
    ensures forall t :: multiset(CustomerRows(table, customerId, from, to))[t]
                        == if t.customerId == customerId && InRange(t.timestamp, from, to) then multiset(table)[t] else 0
  {
    Queries.FilterMultiset(table, Some(customerId), None);
    WithinDatesMultiset(Queries.FilterRows(table, Some(customerId), None), from, to);
  }

  /** Each of the product's rows in range is selected as often as it is in the table; no other row is. */
  lemma ProductRowsMultiset(table: seq<Transaction>, productId: Uuid, from: Option<Date>, to: Option<Date>)
    ensures forall t :: multiset(ProductRows(table, productId, from, to))[t]
                        == if t.productId == productId && InRange(t.timestamp, from, to) then multiset(table)[t] else 0
  {
    Queries.FilterMultiset(table, None, Some(productId));
    WithinDatesMultiset(Queries.FilterRows(table, None, Some(productId)), from, to);
  }

  /** Without bounds, a table holding only the customer's rows is selected whole, in order. */
  lemma CustomerRowsWholeTable(table: seq<Transaction>, customerId: Uuid)
    requires forall i :: 0 <= i < |table| ==> table[i].customerId == customerId
    ensures CustomerRows(table, customerId, None, None) == table
  {
    Queries.FilterAllMatching(table, Some(customerId), None);
    WithinNoDates(table);
  }

  /** Without bounds, a table holding only the product's rows is selected whole, in order. */
  lemma ProductRowsWholeTable(table: seq<Transaction>, productId: Uuid)
    requires forall i :: 0 <= i < |table| ==> table[i].productId == productId
    ensures ProductRows(table, productId, None, None) == table
  {
    Queries.FilterAllMatching(table, None, Some(productId));
    WithinNoDates(table);
  }

  /** A `from` later than `to` leaves no date in range. */
  lemma InvertedRangeMatchesNothing(timestamp: Instant, from: Date, to: Date)
    requires from > to
    ensures !InRange(timestamp, Some(from), Some(to))
  {
  }

  /** Without bounds every row of the customer is selected. */
  lemma NoBoundsCustomerRows(table: seq<Transaction>, customerId: Uuid, t: Transaction)
    requires t in table && t.customerId == customerId
    ensures t in CustomerRows(table, customerId, None, None)
  {
  }

  /** Both bounds are inclusive: a row dated on either bound is selected. */
  lemma BoundsInclusive(table: seq<Transaction>, customerId: Uuid, t: Transaction)
    requires t in table && t.customerId == customerId
    ensures t in CustomerRows(table, customerId, Some(DateOf(t.timestamp)), Some(DateOf(t.timestamp)))
  {
  }

  // ---- the two reports ----

  datatype CustomerReport = CustomerReport(
    customerId: Uuid,
    totalSpent: int,          // thousandths of PLN
    uniqueProducts: nat,
    lastTransaction: Option<Instant>)

  datatype ProductReport = ProductReport(
    productId: Uuid,
    totalQuantitySold: int,
    totalRevenue: int,        // thousandths of PLN
    uniqueCustomers: nat)

  /** A 200 with the summary, or the 404 of `get_object_or_404`. */
  datatype SummaryResponse<T> = Summary(report: T) | NotFound

  function SummaryStatus<T>(r: SummaryResponse<T>): int {
    match r
    case Summary(_) => 200
    case NotFound => 404
  }

  /** The customer report over the selected rows, with the explicit zero report when there are none. */
  function CustomerReportOf(customerId: Uuid, rows: seq<Transaction>): CustomerReport {
    if rows == [] then CustomerReport(customerId, 0, 0, None)
    else CustomerReport(customerId, SumConverted(rows), |ProductIds(rows)|, Some(MaxTimestamp(rows)))
  }

  /** The product report over the selected rows, with the explicit zero report when there are none. */
  function ProductReportOf(productId: Uuid, rows: seq<Transaction>): ProductReport {
    if rows == [] then ProductReport(productId, 0, 0, 0)
    else ProductReport(productId, SumQuantity(rows), SumConverted(rows), |CustomerIds(rows)|)
  }

  /**
   * `customer_summary`: 404 for an unknown customer; otherwise the report over
   * the customer's rows within the bounds.
   */
  method CustomerSummary(db: Database, customerId: Uuid, from: Option<Date>, to: Option<Date>)
    returns (r: SummaryResponse<CustomerReport>)
    ensures r.NotFound? <==> customerId !in db.customers
    ensures SummaryStatus(r) == 404 <==> customerId !in db.customers
    ensures SummaryStatus(r) == 200 <==> customerId in db.customers
    ensures r.Summary? ==> r.report == CustomerReportOf(customerId, CustomerRows(db.transactions, customerId, from, to))
  {
    if customerId !in db.customers {
      return NotFound;
    }
    var rows := CustomerRows(db.transactions, customerId, from, to);
    if rows == [] {
      return Summary(CustomerReport(customerId, 0, 0, None));
    }
    var total := TotalConverted(rows);
    r := Summary(CustomerReport(customerId, total, |ProductIds(rows)|, Some(MaxTimestamp(rows))));
  }

  /**
   * `product_summary`: 404 for an unknown product; otherwise the report over
   * the product's rows within the bounds.
   */
  method ProductSummary(db: Database, productId: Uuid, from: Option<Date>, to: Option<Date>)
    returns (r: SummaryResponse<ProductReport>)
    ensures r.NotFound? <==> productId !in db.products
    ensures SummaryStatus(r) == 404 <==> productId !in db.products
    ensures SummaryStatus(r) == 200 <==> productId in db.products
    ensures r.Summary? ==> r.report == ProductReportOf(productId, ProductRows(db.transactions, productId, from, to))
  {
    if productId !in db.products {
      return NotFound;
    }
    var rows := ProductRows(db.transactions, productId, from, to);
    if rows == [] {
      return Summary(ProductReport(productId, 0, 0, 0));
    }
    var quantity := SumQuantity(rows);
    var total := TotalConverted(rows);
    r := Summary(ProductReport(productId, quantity, total, |CustomerIds(rows)|));
  }

  /**
   * What a customer report over some rows says about them: an empty selection
   * gives the zero report; otherwise a count of products between one and the
   * number of rows, and the latest timestamp, which lies within the bounds.
   */
  lemma CustomerReportProperties(table: seq<Transaction>, customerId: Uuid, from: Option<Date>, to: Option<Date>)
    ensures var rows := CustomerRows(table, customerId, from, to);
            var r := CustomerReportOf(customerId, rows);
            && r.customerId == customerId
            && (rows == [] <==> r.lastTransaction.None?)
            && (rows == [] ==> r.totalSpent == 0 && r.uniqueProducts == 0)
            && (rows != [] ==> 1 <= r.uniqueProducts <= |rows|)
            && (r.lastTransaction.Some? ==>
                  && (exists t :: t in table && t.customerId == customerId && t.timestamp == r.lastTransaction.value)
                  && (forall t :: t in table && t.customerId == customerId && InRange(t.timestamp, from, to)
                        ==> t.timestamp <= r.lastTransaction.value)
                  && InRange(r.lastTransaction.value, from, to))
  {
    var rows := CustomerRows(table, customerId, from, to);
    if rows != [] {
      ProductCountBounds(rows);
      var m := MaxTimestamp(rows);
      var i :| 0 <= i < |rows| && rows[i].timestamp == m;
      assert rows[i] in rows;
      forall t | t in table && t.customerId == customerId && InRange(t.timestamp, from, to) ensures t.timestamp <= m {
        var j :| 0 <= j < |rows| && rows[j] == t;
      }
    }
  }

  /**
   * What a product report says: an empty selection gives the zero report;
   * otherwise a count of customers between one and the number of rows; and a
   * quantity sold that is not negative when no row of the table has a negative quantity.
   */
  lemma ProductReportProperties(table: seq<Transaction>, productId: Uuid, from: Option<Date>, to: Option<Date>)
    ensures var rows := ProductRows(table, productId, from, to);
            var r := ProductReportOf(productId, rows);
            && r.productId == productId
            && (rows == [] ==> r.totalQuantitySold == 0 && r.totalRevenue == 0 && r.uniqueCustomers == 0)
            && (rows != [] ==> 1 <= r.uniqueCustomers <= |rows|)
            && ((forall t :: t in table ==> t.quantity >= 0) ==> r.totalQuantitySold >= 0)
  {
    var rows := ProductRows(table, productId, from, to);
    if rows != [] {
      CustomerCountBounds(rows);
      if forall t :: t in table ==> t.quantity >= 0 {
        forall i | 0 <= i < |rows| ensures rows[i].quantity >= 0 {
          assert rows[i] in rows;
        }
        SumQuantityNonNegative(rows);
      }
    }
  }

  /** With `from` after `to` the customer gets the zero report. */
  lemma InvertedRangeCustomerReport(table: seq<Transaction>, customerId: Uuid, from: Date, to: Date)
    requires from > to
    ensures CustomerReportOf(customerId, CustomerRows(table, customerId, Some(from), Some(to)))
            == CustomerReport(customerId, 0, 0, None)
  {
    var rows := CustomerRows(table, customerId, Some(from), Some(to));
    if rows != [] {
      assert rows[0] in rows;
      InvertedRangeMatchesNothing(rows[0].timestamp, from, to);
    }
  }

  /**
   * Rows that all carry one amount and currency: the customer total is their
   * number times the amount times the rate, e.g. three rows of 100.00 USD give
   * 3 * 10000 * 40 thousandths, i.e. 1200 PLN.
   */
  lemma UniformCustomerTotal(rows: seq<Transaction>, customerId: Uuid, amount: Cents, currency: string)
    requires rows != []
    requires forall i :: 0 <= i < |rows| ==> rows[i].amount == amount && rows[i].currency == currency
    ensures CustomerReportOf(customerId, rows).totalSpent == |rows| * amount * Rate(currency)
  {
    SumConvertedUniform(rows, amount, currency);
  }

  /**
   * Rows of one customer that all carry one amount, currency and quantity: the
   * product report is their number times the quantity, their number times the
   * amount times the rate, and one customer; e.g. two rows of 50.00 EUR with
   * quantity 5 give 10, 430 PLN and 1.
   */
  lemma UniformProductReport(rows: seq<Transaction>, productId: Uuid, customerId: Uuid,
                             amount: Cents, currency: string, quantity: int)
    requires rows != []
    requires forall i :: 0 <= i < |rows| ==>
               rows[i].amount == amount && rows[i].currency == currency
               && rows[i].quantity == quantity && rows[i].customerId == customerId
    ensures ProductReportOf(productId, rows)
            == ProductReport(productId, |rows| * quantity, |rows| * amount * Rate(currency), 1)
  {
    SumConvertedUniform(rows, amount, currency);
    SumQuantityUniform(rows, quantity);
    assert rows[0] in rows;
    assert CustomerIds(rows) == {customerId} by {
      forall t | t in rows ensures t.customerId == customerId {
        var i :| 0 <= i < |rows| && rows[i] == t;
      }
    }
  }

  /**
   * From the table: when every row is the customer's, in one amount and
   * currency, the unbounded summary totals the rows' number times the amount
   * times the rate; three rows of 100.00 USD give 1200 PLN.
   */
  lemma CustomerTableTotal(table: seq<Transaction>, customerId: Uuid, amount: Cents, currency: string)
    requires table != []
    requires forall i :: 0 <= i < |table| ==>
               table[i].customerId == customerId && table[i].amount == amount && table[i].currency == currency
    ensures CustomerReportOf(customerId, CustomerRows(table, customerId, None, None)).totalSpent
            == |table| * amount * Rate(currency)
  {
    CustomerRowsWholeTable(table, customerId);
    UniformCustomerTotal(table, customerId, amount, currency);
  }

  /** Three rows of 100.00 USD for the customer: 3 * 10000 * 40 thousandths, i.e. 1200 PLN. */
  lemma ThreeUsdRows(table: seq<Transaction>, customerId: Uuid)
    requires |table| == 3
    requires forall i :: 0 <= i < 3 ==>
               table[i].customerId == customerId && table[i].amount == 10000 && table[i].currency == "USD"
    ensures CustomerReportOf(customerId, CustomerRows(table, customerId, None, None)).totalSpent == 1_200_000
  {
    CustomerTableTotal(table, customerId, 10000, "USD");
  }

  /** Permutations of each other hold the same rows and equally many. */
  lemma PermutationMembers(a: seq<Transaction>, b: seq<Transaction>)
    requires multiset(a) == multiset(b)
    ensures |a| == |b|
    ensures forall t :: t in a <==> t in b
  {
    assert |a| == |multiset(a)| == |multiset(b)| == |b|;
    forall t ensures t in a <==> t in b {
      assert t in a <==> t in multiset(a);
      assert t in b <==> t in multiset(b);
    }
  }

  /** Two non-empty sequences holding the same rows have the same latest timestamp. */
  lemma MaxTimestampOfSameRows(a: seq<Transaction>, b: seq<Transaction>)
    requires a != [] && b != []
    requires forall t :: t in a <==> t in b
    ensures MaxTimestamp(a) == MaxTimestamp(b)
  {
    var i :| 0 <= i < |a| && a[i].timestamp == MaxTimestamp(a);
    var j :| 0 <= j < |b| && b[j].timestamp == MaxTimestamp(b);
    assert a[i] in b && b[j] in a;
  }

  /** Two selections that are permutations of each other give the same customer report. */
  lemma CustomerReportOfPermutation(customerId: Uuid, a: seq<Transaction>, b: seq<Transaction>)
    requires multiset(a) == multiset(b)
    ensures CustomerReportOf(customerId, a) == CustomerReportOf(customerId, b)
  {
    PermutationMembers(a, b);
    if a != [] {
      SumConvertedPermutation(a, b);
      assert ProductIds(a) == ProductIds(b);
      MaxTimestampOfSameRows(a, b);
    }
  }

  /**
   * The customer report depends only on which rows the table holds and how
   * often, not on the order the database returns them in.
   */
  lemma CustomerReportOrderIndependent(t1: seq<Transaction>, t2: seq<Transaction>, customerId: Uuid,
                                       from: Option<Date>, to: Option<Date>)
    requires multiset(t1) == multiset(t2)
    ensures CustomerReportOf(customerId, CustomerRows(t1, customerId, from, to))
            == CustomerReportOf(customerId, CustomerRows(t2, customerId, from, to))
  {
    var a, b := CustomerRows(t1, customerId, from, to), CustomerRows(t2, customerId, from, to);
    CustomerRowsMultiset(t1, customerId, from, to);
    CustomerRowsMultiset(t2, customerId, from, to);
    assert multiset(a) == multiset(b) by {
      forall t ensures multiset(a)[t] == multiset(b)[t] {}
    }
    CustomerReportOfPermutation(customerId, a, b);
  }

  /**
   * From the table: when every row is the product's and one customer's, in one
   * amount, currency and quantity, the unbounded summary is the rows' number
   * times the quantity, their number times the amount times the rate, and one
   * customer.
   */
  lemma ProductTableReport(table: seq<Transaction>, productId: Uuid, customerId: Uuid,
                           amount: Cents, currency: string, quantity: int)
    requires table != []
    requires forall i :: 0 <= i < |table| ==>
               table[i].productId == productId && table[i].customerId == customerId
               && table[i].amount == amount && table[i].currency == currency && table[i].quantity == quantity
    ensures ProductReportOf(productId, ProductRows(table, productId, None, None))
            == ProductReport(productId, |table| * quantity, |table| * amount * Rate(currency), 1)
  {
    ProductRowsWholeTable(table, productId);
    UniformProductReport(table, productId, customerId, amount, currency, quantity);
  }

  /** Two table rows of 50.00 EUR with quantity 5: 10 sold, 2 * 5000 * 43 thousandths (430 PLN), one customer. */
  lemma TwoEurRows(table: seq<Transaction>, productId: Uuid, customerId: Uuid)
    requires |table| == 2
    requires forall i :: 0 <= i < 2 ==>
               table[i].productId == productId && table[i].customerId == customerId
               && table[i].amount == 5000 && table[i].currency == "EUR" && table[i].quantity == 5
    ensures ProductReportOf(productId, ProductRows(table, productId, None, None))
            == ProductReport(productId, 10, 430_000, 1)
  {
    ProductTableReport(table, productId, customerId, 5000, "EUR", 5);
  }

  /** Two selections that are permutations of each other give the same product report. */
  lemma ProductReportOfPermutation(productId: Uuid, a: seq<Transaction>, b: seq<Transaction>)
    requires multiset(a) == multiset(b)
    ensures ProductReportOf(productId, a) == ProductReportOf(productId, b)
  {
    PermutationMembers(a, b);
    if a != [] {
      SumConvertedPermutation(a, b);
      SumQuantityPermutation(a, b);
      assert CustomerIds(a) == CustomerIds(b);
    }
  }

  /**
   * The product report depends only on which rows the table holds and how
   * often, not on the order the database returns them in.
   */
  lemma ProductReportOrderIndependent(t1: seq<Transaction>, t2: seq<Transaction>, productId: Uuid,
                                      from: Option<Date>, to: Option<Date>)
    requires multiset(t1) == multiset(t2)
    ensures ProductReportOf(productId, ProductRows(t1, productId, from, to))
            == ProductReportOf(productId, ProductRows(t2, productId, from, to))
  {
    var a, b := ProductRows(t1, productId, from, to), ProductRows(t2, productId, from, to);
    ProductRowsMultiset(t1, productId, from, to);
    ProductRowsMultiset(t2, productId, from, to);
    assert multiset(a) == multiset(b) by {
      forall t ensures multiset(a)[t] == multiset(b)[t] {}
    }
    ProductReportOfPermutation(productId, a, b);
  }
}
