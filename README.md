# Transaction service: a Dafny model

This project models the core of a small Django service. The service stores
sales transactions, ingests them in bulk from CSV files, lists them and looks
them up, reports on them per customer and per product, and guards every
request with a Bearer-token check. The model covers six pieces:

- **`Models`** (`models.dfy`) models the `Transaction` record, the limits its
  column declarations set, and `Transaction.clean`. `clean` is given twice:
  as a pure outcome (`CleanOutcome`), and as a method on a mutable instance
  that replaces a textual `timestamp` in place
  (`TransactionInstance.Clean`).
- **`Store`** (`store.dfy`) models the transaction table. It is a sequence of
  rows with unique primary keys. `Lookup` is `objects.get`.
  `InsertIgnoringConflicts` is `bulk_create(..., ignore_conflicts=True)`.
- **`Upload`** (`upload.dfy`) models `upload_transactions_csv`:
  - the two boundary checks;
  - the per-row parse chain (`ParseRow`);
  - the imperative loop (`ProcessRows`), with its `line_number` counter and
    its two growing lists;
  - the final insert.
  
  The loop is proved against the prefix-recursive specifications `Accepted`
  and `Errors`. The list properties are proved about those specifications.
- **`Queries`** (`queries.dfy`) models `TransactionListView` and
  `TransactionDetailView`. The listing orders newest first, applies optional
  conjunctive filters and pages 50 rows at a time. Both views use the same
  seven-field projection.
- **`Reports`** (`reports.dfy`) models `customer_summary` and
  `product_summary`:
  - the exchange-rate table with its default;
  - inclusive date bounds on the date part of the timestamp;
  - the explicit empty branch;
  - the accumulator loop (`TotalConverted`);
  - the distinct counts, the latest timestamp and the quantity sum.
- **`Middleware`** (`middleware.dfy`) models the four guards of
  `AuthorizationTokenMiddleware.__call__`.

`Text` (`text.dfy`) supplies the `str` operations the code relies on:
`strip`, `upper`, `endswith` and `split(' ')`. `Wrappers` (`wrappers.dfy`)
supplies `Option` and `Result`.

Values are modelled as follows:

- Money is exact fixed point. An amount is an integer number of hundredths.
  A rate is an integer number of tenths of PLN: PLN 10, EUR 43, USD 40, and 10
  for an unknown code. A converted amount is therefore in thousandths of PLN.
  For example, 3 × 100.00 USD is 3 × 10000 × 40 = 1 200 000 thousandths,
  i.e. 1200 PLN.
- A timestamp is an integer number of microseconds in the active time zone.
- Its date is the floor of the timestamp divided by the microseconds in a day.
- A UUID is its 128-bit integer value.

Library code and anything external is passed in as function-typed inputs:

- the UTF-8 decoder together with the CSV reader (`readCsv`);
- the field parsers: `uuid.UUID`, `datetime.fromisoformat`, `float` and
  `int` (`Parsers`);
- `parse_datetime`;
- the UUID parse behind the list filters;
- the text renderings used in the projection (`Formatters`);
- the configured `API_AUTH_TOKEN`.

Each fallible parser returns `Option`, except `parse_datetime`, which has three outcomes
(`DateTimeParse`): a datetime, `None` for text not in the format, or a raised `ValueError`
for text in the format that names no real moment.

## Model

| member | source | states |
|---|---|---|
| Models.DateOf | reports/views.py:45-48 | the date of a timestamp is the day containing it: `d * day <= t < (d + 1) * day` |
| Models.DateOfMonotonic | reports/views.py:45-48 | a later timestamp never falls on an earlier date |
| Models.FieldsValid | transactions/models.py:16-27 | what the column declarations allow: an amount of at most 12 digits with 2 decimals, a currency of at most 3 characters, a non-negative quantity (a definition; `Models.CleanCurrencyFits` and `Upload.AcceptedRowMayBreakFieldInvariants` state what meets it) |
| Models.CurrencyNotAllowedMessage | transactions/models.py:43-46 | the message quotes the rejected currency and then lists `['USD', 'EUR']` |
| Models.InvalidDatetimeMessage | transactions/models.py:51 | `Invalid datetime format: ` followed by the text (a definition; `Models.BadTimestampKeyed` states where it is raised) |
| Models.CleanOutcome | transactions/models.py:41-52 | `clean` succeeds iff the currency is exactly one of the choices and a textual timestamp parses; the parser's `ValueError` escapes iff the currency passes and the parser raises; a non-text timestamp is kept, a parsed one replaces the text |
| Models.CurrencyCheckedFirst | transactions/models.py:42-46 | a bad currency is the error reported whatever the timestamp is, as a plain error naming the value |
| Models.BadTimestampKeyed | transactions/models.py:48-51 | a textual timestamp not in the format (`parse_datetime` gives None) gives a validation error keyed `timestamp` quoting the text |
| Models.ImpossibleTimestampEscapes | transactions/models.py:48-51 | a textual timestamp in the format but naming no real moment makes `parse_datetime` raise, and `clean` lets that `ValueError` escape instead of a validation error |
| Models.CurrencyCaseSensitive | transactions/models.py:42-43 | `usd` is refused: the comparison is exact |
| Models.CleanCurrencyFits | transactions/models.py:16-27 | a row whose currency passes `clean` fits the 3-character currency column |
| Models.TransactionInstance.constructor | transactions/models.py:14-27 | a new instance holds the seven given field values |
| Models.TransactionInstance.Clean | transactions/models.py:41-52 | on failure returns the error (a validation error, or the escaping `ValueError`) and leaves `timestamp` as it was; on success replaces a textual `timestamp` by the parsed value and changes nothing else |
| Text.Strip | transactions/views.py:95 | the result has no whitespace at either end and is what remains after dropping only whitespace from both ends |
| Text.StripTrimmed | transactions/views.py:95 | stripping a string with nothing to strip returns it unchanged |
| Text.UpperIdempotent | transactions/views.py:95 | upper-casing twice is upper-casing once |
| Text.JoinSplit | transaction_system/middleware.py:21 | joining the pieces of `split(' ')` with single spaces gives back the header |
| Text.SplitCount | transaction_system/middleware.py:21 | `split(' ')` yields one more piece than the string has spaces |
| Text.Split | transaction_system/middleware.py:21 | `split(' ')` gives at least one piece, and no piece holds a space |
| Text.Upper | transactions/views.py:95 | `upper()` keeps the length and maps each character by the ASCII case mapping |
| Text.EndsWith | transactions/views.py:78 | `endswith(suffix)`: the last `len(suffix)` characters are the suffix (a definition, used by `Upload.UploadTransactionsCsv`) |
| Text.SplitOneSpace | transaction_system/middleware.py:21 | a string with one space splits into the text before and after it |
| Store.Lookup | transactions/views.py:55-58 | the lookup finds a row iff the key is present, and the row it finds carries that key |
| Store.LookupUnique | transactions/views.py:56 | with unique keys the row found is the one row with that key |
| Store.InsertIgnoringConflicts | transactions/views.py:114-115 | existing rows stay as they were, and at most one row is added per batch row |
| Store.InsertProperties | transactions/views.py:114-115 | after the insert the keys are still unique, the keys present are the old ones plus the batch's, and every new row comes from the batch |
| Store.ConflictSkipsRow | transactions/views.py:115 | a batch row whose key already exists is not inserted, so fewer rows are added than the batch holds |
| Store.NoConflictInsertsAll | transactions/views.py:115 | without key conflicts the whole batch is appended in order |
| Upload.Cell | transactions/views.py:92-98 | `row[field]` succeeds iff the header has the column and the row has the cell, with that cell's text; otherwise the failure names the field |
| Upload.ParseCell | transactions/views.py:92-98 | a field parses iff the cell is present and its parser accepts it, and the value is the parser's |
| Upload.NormalizeCurrency | transactions/views.py:95 | the stored currency has no surrounding whitespace and is no longer than the input |
| Upload.NormalizeCurrencyIdempotent | transactions/views.py:95 | normalising the currency twice is normalising it once |
| Upload.ParseRow | transactions/views.py:91-110 | the `try` body for one row: seven cells in keyword order, then the customer and the product lookups; the first failing step decides the error (a definition; `Upload.ParseRowAccepts` states when it succeeds and with what value) |
| Upload.ParseRowAccepts | transactions/views.py:91-110 | a row is accepted iff all seven fields parse and the customer and the product exist, and the transaction then holds the parsed values with the currency only trimmed and upper-cased |
| Upload.NormalizeExample | transactions/views.py:95 | ` gbpx ` is stored as `GBPX` |
| Upload.AcceptedRowMayBreakFieldInvariants | transactions/views.py:95-110 | the loop accepts a currency outside the allowed choices and longer than the column |
| Upload.Accepted | transactions/views.py:89-110 | the batch, as the parses of the accepted rows in file order (a definition, the specification `Upload.ProcessRows` is proved against) |
| Upload.Errors | transactions/views.py:87-113 | the error list, one entry per rejected row with the k-th data row on line k + 2 (a definition, the specification `Upload.ProcessRows` is proved against) |
| Upload.ProcessRows | transactions/views.py:85-113 | the loop's batch and error list are exactly those the row-by-row specification gives |
| Upload.RowsAccountedFor | transactions/views.py:89-113 | accepted rows plus errors equals the number of data rows |
| Upload.ErrorsDescribeRows | transactions/views.py:87-113 | each error's line lies between 2 and the number of data rows plus 1, it carries the raw row on that line, and that row fails with that error |
| Upload.ErrorLinesIncrease | transactions/views.py:87-113 | errors appear in file order: their line numbers strictly increase |
| Upload.RejectedRowReported | transactions/views.py:89-113 | a rejected k-th data row has an error reported on line k + 2 |
| Upload.ErrorIffRejected | transactions/views.py:89-113 | there is an error for line k + 2 iff the k-th data row (from 0) is rejected |
| Upload.ValidRowsAccepted | transactions/views.py:100-110 | an accepted row's transaction is in the batch |
| Upload.AcceptedFromValidRows | transactions/views.py:100-110 | every transaction in the batch is the parse of some data row |
| Upload.UnknownCustomerRow | transactions/views.py:106 | a single row with an unknown customer yields an empty batch and exactly one error, on line 2, carrying the row |
| Upload.UploadTransactionsCsv | transactions/views.py:72-117 | the status is 400 iff the file is missing or not named `.csv`, 500 iff it cannot be read, 201 otherwise; a missing file gives 400 "No file provided."; a name not ending in `.csv` gives 400 "File is not CSV."; both leave the store untouched; an unreadable file leaves it untouched; otherwise the response is Created with `inserted` = the batch size and the loop's errors, and the table gets the conflict-ignoring insert of the batch |
| Upload.InsertedOvercountsOnConflict | transactions/views.py:114-117 | when an accepted row's key already exists, the table grows by less than `inserted`, and the existing rows are unchanged |
| Queries.Project | transactions/views.py:38-46 | the seven-field object for one row, rendered by the given formatters (a definition, shared by `Queries.Views` and `Queries.TransactionDetail`) |
| Queries.Views | transactions/views.py:37-48 | one result object per row, in order, each the projection of its row |
| Queries.InsertNewestFirst | transactions/views.py:20 | inserting into a newest-first sequence keeps it newest first and adds exactly that row |
| Queries.OrderByTimestampDesc | transactions/views.py:20 | the ordered rows are a permutation of the table with non-increasing timestamps |
| Queries.Matches | transactions/views.py:22-25 | the two optional filters on the stored customer and product ids, both applying (a definition; `Queries.FilterRows` and `Queries.FilterMultiset` state what filtering by it keeps) |
| Queries.FilterRows | transactions/views.py:22-25 | a row is kept iff it is in the input and matches every filter that is present |
| Queries.FilterMultiset | transactions/views.py:22-25 | filtering keeps each matching row as often as it occurs and drops every other row |
| Queries.FilterKeepsOrder | transactions/views.py:20-25 | filtering a newest-first sequence leaves it newest first |
| Queries.FilteredCount | transactions/views.py:20-32 | ordering then filtering keeps the same rows, with the same multiplicity, as filtering the table |
| Queries.FilterParam | transactions/views.py:22-25 | an absent or empty parameter is no filter; otherwise the filter is valid iff it parses as a UUID, and then it is that UUID |
| Queries.Queryset | transactions/views.py:19-27 | `get_queryset`: the table newest first, then filtered (a definition; `Queries.QuerysetProperties` and `Queries.FilteredCount` state its properties) |
| Queries.NumPages | transactions/views.py:17 | there is at least one page, and `count` fits in `num_pages` pages of 50 but not in one fewer; an empty list has one page |
| Queries.PageSlice | transactions/views.py:17 | a page is the run of at most 50 rows starting at `(n - 1) * 50`; every page but the last holds exactly 50, and the last ends at the end of the rows |
| Queries.ListPage | transactions/views.py:29-50 | pagination and `render_to_response`: a page number outside 1..num_pages is a 404 (a definition; `Queries.ListPageProperties` states its properties) |
| Queries.ListTransactions | transactions/views.py:15-50 | the response is an invalid-filter error (status 500) iff a non-empty filter parameter is not a UUID; otherwise it is the requested page of the filtered, newest-first rows |
| Queries.ListPageProperties | transactions/views.py:29-50 | a listing reports the row count and page count, a current page within 1..num_pages, the two flags from the current page, and at most 50 results, which are that page's projections |
| Queries.ListTransactionsProperties | transactions/views.py:15-50 | on the view's own result: status 500 iff a filter is malformed; a listing's `count` is the number of matching rows, its page holds at most 50 projections of matching table rows, newest first, with the two flags |
| Queries.QuerysetProperties | transactions/views.py:19-27 | the queryset is newest first and holds only table rows that match the filters |
| Queries.PageRows | transactions/views.py:17-27 | every page of the queryset is newest first and holds only matching rows of the table |
| Queries.ListingProperties | transactions/views.py:15-50 | `count` is the number of matching rows of the table; the page holds at most 50 matching rows, newest first; the flags say whether pages come before and after |
| Queries.FilterAllMatching | transactions/views.py:22-25 | when every row matches, filtering keeps them all, in order |
| Queries.FilterNothing | transactions/views.py:22-25 | with no filter every row is kept, in order |
| Queries.EmptyParamsListEverything | transactions/views.py:22-24 | an empty `customer_id` filters nothing out: `count` is the table size |
| Queries.SecondOfTwoPages | transactions/views.py:17-36 | for 100 rows, page 2 is the last of 2 pages; it has a previous page and 50 results |
| Queries.TransactionDetail | transactions/views.py:53-69 | the detail is found iff the key is in the table; otherwise it is not found (404) |
| Queries.DetailOfRow | transactions/views.py:55-69 | the detail of a row's key is that row's seven-field projection |
| Queries.ListingAgreesWithDetail | transactions/views.py:53-69 | every listed row has a detail, and it is the same object the listing shows |
| Reports.Rate | reports/views.py:62 | `EXCHANGE_RATES.get(currency, 1)` (a definition; `Reports.RateTable` states its values) |
| Reports.RateTable | reports/views.py:13-17 | the rates are PLN 1, EUR 4.3, USD 4.0, and any other code converts at the PLN rate of 1 |
| Reports.Converted | reports/views.py:62-63 | `float(t.amount) * rate`, exact in thousandths of PLN (a definition; `Reports.SumConvertedUniform` states what it sums to) |
| Reports.SumConverted | reports/views.py:60-63 | the total of the converted amounts in the order the rows come (a definition, the specification `Reports.TotalConverted` is proved against; `Reports.SumConvertedAppend` and `Reports.SumConvertedPermutation` state its properties) |
| Reports.TotalConverted | reports/views.py:60-63 | the accumulator loop ends with the sum over the rows of amount × rate |
| Reports.SumConvertedAppend | reports/views.py:60-63 | the converted total of two runs of rows is the sum of their totals |
| Reports.SumConvertedPermutation | reports/views.py:60-63 | the converted total does not depend on the order in which the rows are returned |
| Reports.SumConvertedUniform | reports/views.py:60-63 | n rows of one amount in one currency convert to n × amount × rate |
| Reports.SumQuantity | reports/views.py:118 | `Sum("quantity")` (a definition; `Reports.SumQuantityUniform` and `Reports.SumQuantityNonNegative` state its properties) |
| Reports.SumQuantityAppend | reports/views.py:118 | the quantity sold over two runs of rows is the sum of their sums |
| Reports.SumQuantityPermutation | reports/views.py:118 | the quantity sold does not depend on the order in which the rows are returned |
| Reports.SumQuantityUniform | reports/views.py:118 | n rows of one quantity sell n × quantity |
| Reports.SumQuantityNonNegative | reports/views.py:118 | rows with no negative quantity never sell a negative quantity |
| Reports.ProductIds | reports/views.py:65 | `values("product").distinct()`: the set of product ids among the rows (a definition; `Reports.ProductCountBounds` states its size) |
| Reports.CustomerIds | reports/views.py:125 | `values("customer").distinct()`: the set of customer ids among the rows (a definition; `Reports.CustomerCountBounds` states its size) |
| Reports.ProductCountBounds | reports/views.py:65 | a non-empty selection has between 1 and as many distinct products as rows |
| Reports.CustomerCountBounds | reports/views.py:125 | a non-empty selection has between 1 and as many distinct customers as rows |
| Reports.MaxTimestamp | reports/views.py:66 | the latest timestamp is that of one of the rows and no row is later |
| Reports.InRange | reports/views.py:45-48 | `timestamp__date__gte=from` and `timestamp__date__lte=to`, each only when given (a definition; `Reports.BoundsInclusive` and `Reports.InvertedRangeMatchesNothing` state its properties) |
| Reports.WithinDates | reports/views.py:45-48 | a row passes the date filters iff it is one of the rows and its date is within both bounds that are present |
| Reports.WithinDatesMultiset | reports/views.py:45-48 | the date filters keep each row in range as often as it occurs and drop every other row |
| Reports.WithinNoDates | reports/views.py:45-48 | without bounds the date filters keep every row, in order |
| Reports.CustomerRows | reports/views.py:43-48 | a row is selected iff it belongs to the customer and its date is within both bounds that are present |
| Reports.ProductRows | reports/views.py:101-106 | a row is selected iff it is for the product and its date is within both bounds that are present |
| Reports.CustomerRowsMultiset | reports/views.py:43-48 | each of the customer's rows in range is selected exactly as often as it is in the table, and no other row is |
| Reports.ProductRowsMultiset | reports/views.py:101-106 | each of the product's rows in range is selected exactly as often as it is in the table, and no other row is |
| Reports.CustomerRowsWholeTable | reports/views.py:43-48 | without bounds, a table of only the customer's rows is selected whole, in order |
| Reports.ProductRowsWholeTable | reports/views.py:101-106 | without bounds, a table of only the product's rows is selected whole, in order |
| Reports.InvertedRangeMatchesNothing | reports/views.py:45-48 | with `from` after `to` no date is in range |
| Reports.NoBoundsCustomerRows | reports/views.py:45-48 | without bounds every row of the customer is selected |
| Reports.BoundsInclusive | reports/views.py:45-48 | a row dated on the `from` bound and on the `to` bound is selected: both bounds are inclusive |
| Reports.CustomerReportOf | reports/views.py:50-75 | the customer response body, with the explicit zero report for no rows (a definition; `Reports.CustomerReportProperties` states its properties) |
| Reports.ProductReportOf | reports/views.py:108-134 | the product response body, with the explicit zero report for no rows (a definition; `Reports.ProductReportProperties` states its properties) |
| Reports.CustomerSummary | reports/views.py:20-75 | an unknown customer gives 404 and never a summary, a known one 200; otherwise the summary is the report over the customer's rows within the bounds |
| Reports.ProductSummary | reports/views.py:78-134 | an unknown product gives 404 and never a summary, a known one 200; otherwise the summary is the report over the product's rows within the bounds |
| Reports.CustomerReportProperties | reports/views.py:50-75 | an empty selection gives zero, zero and no date; otherwise 1 ≤ unique products ≤ number of rows, and the latest timestamp belongs to one of the customer's rows, is within the bounds and is not exceeded by any selected row |
| Reports.ProductReportProperties | reports/views.py:108-134 | an empty selection gives zero quantity, zero revenue and zero customers; otherwise 1 ≤ unique customers ≤ number of rows; the quantity sold is not negative when no row of the table has a negative quantity |
| Reports.InvertedRangeCustomerReport | reports/views.py:45-58 | with `from` after `to` the customer gets the zero report |
| Reports.UniformCustomerTotal | reports/views.py:60-71 | rows of one amount and currency total n × amount × rate, e.g. 3 × 100.00 USD = 1200 PLN |
| Reports.CustomerTableTotal | reports/views.py:43-71 | from the table: when every row is the customer's in one amount and currency, the unbounded summary totals n × amount × rate |
| Reports.ThreeUsdRows | reports/views.py:43-71 | three table rows of 100.00 USD for the customer total 1 200 000 thousandths, i.e. 1200 PLN |
| Reports.CustomerReportOfPermutation | reports/views.py:60-66 | two selections that are permutations of each other give the same customer report |
| Reports.CustomerReportOrderIndependent | reports/views.py:43-75 | the customer report depends only on the table's rows and their multiplicities, not on the order they are returned in |
| Reports.UniformProductReport | reports/views.py:118-131 | rows of one customer, amount, currency and quantity give n × quantity, n × amount × rate and 1 customer, e.g. 2 × 50.00 EUR, quantity 5 → 10, 430 PLN, 1 |
| Reports.ProductTableReport | reports/views.py:101-131 | from the table: when every row is the product's and one customer's in one amount, currency and quantity, the unbounded summary is n × quantity, n × amount × rate and 1 customer |
| Reports.TwoEurRows | reports/views.py:101-131 | two table rows of 50.00 EUR with quantity 5 give 10 sold, 430 000 thousandths (430 PLN) and 1 customer |
| Reports.ProductReportOfPermutation | reports/views.py:118-125 | two selections that are permutations of each other give the same product report |
| Reports.ProductReportOrderIndependent | reports/views.py:101-134 | the product report depends only on the table's rows and their multiplicities, not on the order they are returned in |
| Middleware.Authorize | transaction_system/middleware.py:14-32 | the four guards in order, each refusing with its own message (a definition; `Middleware.AuthorizeCases` and `Middleware.ForwardIff` state what it does) |
| Middleware.AuthorizeCases | transaction_system/middleware.py:14-32 | each of the five outcomes holds iff the earlier checks pass and its own fails: (1) absent or empty header → "Missing Authorization header."; (2) not exactly one space → "Invalid Authorization header format."; (3) not starting `"Bearer "` → "Invalid authorization scheme."; (4) the rest ≠ the configured token → "Invalid token."; (5) otherwise the request is forwarded |
| Middleware.BearerScheme | transaction_system/middleware.py:20-26 | for a header with one space, the scheme is `Bearer` iff the header starts `"Bearer "`, and the token is then the rest of the header |
| Middleware.OneSpaceParts | transaction_system/middleware.py:21 | a header with one space is the scheme, that space and the token |
| Middleware.ForwardIff | transaction_system/middleware.py:14-32 | a request is forwarded iff the header is exactly `"Bearer "` followed by the configured token, and that token has no space |
| Middleware.UnsetTokenRejectsAll | transaction_system/middleware.py:28-31 | with `API_AUTH_TOKEN` unset every request is refused |
| Middleware.SchemeAloneBadFormat | transaction_system/middleware.py:20-23 | `Bearer` alone fails the format check |
| Middleware.TwoSpacesBadFormat | transaction_system/middleware.py:20-23 | a header with a second space fails the format check |
| Middleware.SchemeCaseSensitive | transaction_system/middleware.py:25-26 | the scheme `bearer` is refused with the scheme message: the comparison is exact |

## Left out

- Floating point.
  - The model does not reproduce `float(row["amount"])` or the float
    products in the report sums.
  - It does not reproduce `round(..., 2)`.
  - Totals are exact thousandths of PLN. The rounding to two decimals and any
    binary-float error are not modelled.
- `upper()` and `isspace()`.
  - `upper()` is modelled on ASCII letters only.
  - Non-ASCII case mapping is not modelled. This includes mappings that change
    the length of the string.
  - `isspace()` is modelled by its fixed character list.
- Library parsers are function-typed inputs, abstract fallible functions. This
  covers UTF-8 decoding, `csv.DictReader`, `uuid.UUID`,
  `datetime.fromisoformat`, `float`, `int`, `parse_datetime` and the UUID
  parse behind `filter(customer__id=...)`.
  - When decoding or reading the CSV fails, the exception is not caught.
    That case is modelled as a 500 response that writes nothing.
- Error messages.
  - A rejected row carries a structured reason (`RowFailure`), not the text
    of the exception (`str(e)`).
  - A CSV row with more cells than the header (the reader's `None` key) is
    not modelled.
- `reports/utils.py` (`parse_date_range`) is not part of this model. Its
  result enters the report methods as two optional dates.
- Time zones.
  - A timestamp is modelled as microseconds already in the active zone.
  - Django's conversion to the current time zone for `__date` is not modelled.
  - Naive and aware datetimes are not distinguished.
- `created_at` is not modelled. The clock sets it on insert, and no modelled
  operation reads it.
- Column limits at insert time. `bulk_create` bypasses `clean` and
  `full_clean`, so the currency choices are never checked on upload. The
  3-character currency column and the 12-digit amount column come from the
  column types, and only `PositiveIntegerField` adds a database check
  constraint (on the quantity).
  - The loop can build rows outside these limits
    (`Upload.AcceptedRowMayBreakFieldInvariants`).
  - The model inserts such rows as they are. How the database treats an
    over-long currency, an over-wide amount or a negative quantity is not
    modelled.
- The upload assigns `Customer.objects.get(...)` and `Product.objects.get(...)`
  objects to the plain UUID fields `customer_id` and `product_id` of
  `transactions/models.py`.
  - The model reads those lookups as existence checks on known id sets.
  - It stores the parsed ids.
  - The row's remaining fields are parsed before either lookup runs, as in
    the code.
- The `Transaction` model shown has no `customer` or `product` relation,
  only the two UUID fields. Every place that goes through such a relation is
  read as the stored id:
  - the reports' `filter(customer=customer)` and `filter(product=product)`
    (reports/views.py:43, 101) compare the stored ids with the path's id;
  - `values("product")` and `values("customer")` (reports/views.py:65, 125)
    collect the stored ids;
  - the projection's `obj.customer.id` and `obj.product.id`
    (transactions/views.py:43-44, 65-66) are rendered from the stored
    `customer_id` and `product_id` (`Queries.Project`).
- `TransactionDetailView.get(self, transaction_id)` takes no `request`
  parameter. As written, Django's dispatch would fail when it calls the view.
  Only the lookup semantics are modelled: found, or not found (404).
- The list view's filters.
  - They name `customer__id` and `product__id`, which the `Transaction` model
    shown has no relation for. They are modelled as equality on the stored
    ids.
  - A non-empty parameter that is not a UUID makes the query raise. That
    case is modelled as an `InvalidFilter` response with status 500.
- Django plumbing is not modelled: routing, `require_GET`/`require_POST`,
  `JsonResponse` serialisation, `Paginator` internals beyond slicing into
  pages of 50, and ListView's `page` argument parsing beyond the cases in
  `PageRequest`.
- Concurrency is not modelled: `db_transaction.atomic()` and concurrent
  requests. The insert is one atomic step on the table value.
- The order of rows with equal timestamps is not fixed, just as
  `order_by("-timestamp")` leaves it open. The model fixes one order
  (`Queries.OrderByTimestampDesc`), and `Queries.QuerysetProperties`,
  `Queries.PageRows`, `Queries.ListingProperties` and
  `Queries.ListTransactionsProperties` are stated for that order.
  `Queries.FilterKeepsOrder`, `Queries.ListPageProperties` and
  `Queries.SliceOfNewestFirst` hold for any newest-first sequence, and
  `Queries.FilteredCount` shows the count does not depend on the order.
- `parse_datetime` inside `clean`. Its failure modes are modelled as
  outcomes of the given parser (`DateTimeParse`). Which strings raise and
  which give `None` is left to that parser.
- `Middleware.Authorize`: `get_response` is not modelled. A request that passes
  is reported as `Forward`. A configured token that is not a string is not
  modelled.
