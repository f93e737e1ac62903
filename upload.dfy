/**
 * `upload_transactions_csv`: the CSV bulk-ingestion endpoint. Every data row
 * either becomes a transaction in the batch or an entry in the ordered error
 * list; the batch is then written with one conflict-ignoring bulk insert.
 */
module Upload {
  import opened Wrappers
  import opened Text
  import opened Models
  import opened Store

  /** One data row as the CSV reader yields it: header name to cell, `None` for a cell a short row lacks. */
  type RawRow = map<string, Option<string>>

  /**
   * The library parsers the loop calls, each of which either yields a value
   * or raises: `uuid.UUID`, `datetime.fromisoformat`, `float` (as the value
   * the two-decimal `amount` column ends up holding) and `int`.
   */
  datatype Parsers = Parsers(
    uuid: string -> Option<Uuid>,
    isoDateTime: string -> Option<Instant>,
    number: string -> Option<Cents>,
    integer: string -> Option<int>)

  /** What each row is checked against: the parsers and the customers and products that exist. */
  datatype RowContext = RowContext(parsers: Parsers, customers: set<Uuid>, products: set<Uuid>)

  /** Why a row was rejected (the exception the `try` block caught). */
  datatype RowFailure =
    | MissingField(field: string)
    | InvalidField(field: string)
    | CustomerNotFound
    | ProductNotFound

  /** `{"line": ..., "row": ..., "error": ...}`. */
  datatype RowError = RowError(line: nat, row: RawRow, error: RowFailure)

  /** `row[field]`: a header without that column or a short row both make the step fail. */
  function Cell(row: RawRow, field: string): (r: Result<string, RowFailure>)
    ensures r.Success? <==> field in row && row[field].Some?
    ensures r.Success? ==> r.value == row[field].value
    ensures r.Failure? ==> r.error == MissingField(field)
  {
    if field in row && row[field].Some? then Success(row[field].value) else Failure(MissingField(field))
  }

  /** A cell that is present and that `parse` accepts. */
  predicate CellParses<T>(row: RawRow, field: string, parse: string -> Option<T>) {
    field in row && row[field].Some? && parse(row[field].value).Some?
  }

  /** The value of a cell that parses. */
  function CellValue<T>(row: RawRow, field: string, parse: string -> Option<T>): T
    requires CellParses(row, field, parse)
  {
    parse(row[field].value).value
  }

  function ParseCell<T>(row: RawRow, field: string, parse: string -> Option<T>): (r: Result<T, RowFailure>)
    ensures r.Success? <==> CellParses(row, field, parse)
    ensures r.Success? ==> r.value == CellValue(row, field, parse)
  {
    var text :- Cell(row, field);
    match parse(text)
    case None => Failure(InvalidField(field))
    case Some(v) => Success(v)
  }

  /** `row["currency"].strip().upper()`. */
  function NormalizeCurrency(s: string): (r: string)
    ensures Trimmed(r) && |r| <= |s|
  {
    UpperKeepsTrimmed(Strip(s));
    Upper(Strip(s))
  }

  /** Normalising an already normalised currency changes nothing. */
  lemma NormalizeCurrencyIdempotent(s: string)
    ensures NormalizeCurrency(NormalizeCurrency(s)) == NormalizeCurrency(s)
  {
    var n := NormalizeCurrency(s);
    StripTrimmed(n);
    UpperIdempotent(Strip(s));
  }

  /**
   * The body of the `try` block for one row: the seven cells in the order of
   * the constructor's keyword arguments, then the customer lookup, then the
   * product lookup. The first step that fails decides the error.
   */
  function ParseRow(ctx: RowContext, row: RawRow): Result<Transaction, RowFailure> {
    var transactionId :- ParseCell(row, "transaction_id", ctx.parsers.uuid);
    var timestamp :- ParseCell(row, "timestamp", ctx.parsers.isoDateTime);
    var amount :- ParseCell(row, "amount", ctx.parsers.number);
    var currency :- Cell(row, "currency");
    var customerId :- ParseCell(row, "customer_id", ctx.parsers.uuid);
    var productId :- ParseCell(row, "product_id", ctx.parsers.uuid);
    var quantity :- ParseCell(row, "quantity", ctx.parsers.integer);
    if customerId !in ctx.customers then Failure(CustomerNotFound)
    else if productId !in ctx.products then Failure(ProductNotFound)
    else Success(Transaction(transactionId, timestamp, amount, NormalizeCurrency(currency),
                             customerId, productId, quantity))
  }

  /** Every cell parses and both referenced identities exist. */
  predicate RowIsValid(ctx: RowContext, row: RawRow) {
    && CellParses(row, "transaction_id", ctx.parsers.uuid)
    && CellParses(row, "timestamp", ctx.parsers.isoDateTime)
    && CellParses(row, "amount", ctx.parsers.number)
    && Cell(row, "currency").Success?
    && CellParses(row, "customer_id", ctx.parsers.uuid)
    && CellParses(row, "product_id", ctx.parsers.uuid)
    && CellParses(row, "quantity", ctx.parsers.integer)
    && CellValue(row, "customer_id", ctx.parsers.uuid) in ctx.customers
    && CellValue(row, "product_id", ctx.parsers.uuid) in ctx.products
  }

  /**
   * A row is accepted exactly when it is valid, and then the transaction holds
   * the parsed cells, with the currency only trimmed and upper-cased.
   */
  lemma ParseRowAccepts(ctx: RowContext, row: RawRow)
    ensures ParseRow(ctx, row).Success? <==> RowIsValid(ctx, row)
    ensures ParseRow(ctx, row).Success? ==>
              ParseRow(ctx, row).value == Transaction(
                CellValue(row, "transaction_id", ctx.parsers.uuid),
                CellValue(row, "timestamp", ctx.parsers.isoDateTime),
                CellValue(row, "amount", ctx.parsers.number),
                NormalizeCurrency(row["currency"].value),
                CellValue(row, "customer_id", ctx.parsers.uuid),
                CellValue(row, "product_id", ctx.parsers.uuid),
                CellValue(row, "quantity", ctx.parsers.integer))
  {
  }

  lemma StripExample()
    ensures Strip(" gbpx ") == "gbpx"
  {
    var s := " gbpx ";
    assert s[1..] == "gbpx ";
    assert LeadingSpaces(s[1..]) == 0;
    assert s[1..][..4] == "gbpx";
    assert TrailingSpaces("gbpx ") == 1 by {
      assert "gbpx "[..4] == "gbpx";
      assert TrailingSpaces("gbpx") == 0;
    }
  }

  lemma UpperExample()
    ensures Upper("gbpx") == "GBPX"
  {
    var u := Upper("gbpx");
    assert u[0] == 'G' && u[1] == 'B' && u[2] == 'P' && u[3] == 'X';
  }

  /** Surrounding blanks go and the letters are capitalised. */
  lemma NormalizeExample()
    ensures NormalizeCurrency(" gbpx ") == "GBPX"
  {
    StripExample();
    UpperExample();
  }

  /**
   * The loop checks nothing the table's columns demand: a currency that is
   * not one of the choices and longer than the column still passes.
   */
  lemma AcceptedRowMayBreakFieldInvariants(ctx: RowContext, row: RawRow)
    requires RowIsValid(ctx, row)
    requires row["currency"] == Some(" gbpx ")
    ensures ParseRow(ctx, row).Success?
    ensures ParseRow(ctx, row).value.currency == "GBPX"
    ensures !FieldsValid(ParseRow(ctx, row).value)
  {
    ParseRowAccepts(ctx, row);
    NormalizeExample();
  }

  /** The batch: the parsed values of the accepted rows, in file order. */
  function Accepted(ctx: RowContext, rows: seq<RawRow>): seq<Transaction> {
    if rows == [] then []
    else
      Accepted(ctx, rows[..|rows| - 1])
      + match ParseRow(ctx, rows[|rows| - 1])
        case Success(t) => [t]
        case Failure(_) => []
  }

  /** The error list: one entry per rejected row, the k-th data row (from 0) on line k + 2. */
  function Errors(ctx: RowContext, rows: seq<RawRow>): seq<RowError> {
    if rows == [] then []
    else
      Errors(ctx, rows[..|rows| - 1])
      + match ParseRow(ctx, rows[|rows| - 1])
        case Success(_) => []
        case Failure(e) => [RowError(|rows| + 1, rows[|rows| - 1], e)]
  }

  /**
   * The loop of `upload_transactions_csv`: `line_number` starts at 1 for the
   * header and is advanced before each data row; each row is appended to the
   * batch or to the error list.
   */
  method ProcessRows(ctx: RowContext, rows: seq<RawRow>) returns (toCreate: seq<Transaction>, errors: seq<RowError>)
    ensures toCreate == Accepted(ctx, rows)
    ensures errors == Errors(ctx, rows)
  {
    toCreate, errors := [], [];
    var lineNumber := 1;
    for i := 0 to |rows|
      invariant lineNumber == i + 1
      invariant toCreate == Accepted(ctx, rows[..i])
      invariant errors == Errors(ctx, rows[..i])
    {
      var row := rows[i];
      lineNumber := lineNumber + 1;
      assert rows[..i + 1][..i] == rows[..i];
      match ParseRow(ctx, row)
      case Success(t) =>
        toCreate := toCreate + [t];
      case Failure(e) =>
        errors := errors + [RowError(lineNumber, row, e)];
    }
    assert rows[..|rows|] == rows;
  }

  /** Every data row is counted once: inserted plus errors is the number of data rows. */
  lemma {:induction false} RowsAccountedFor(ctx: RowContext, rows: seq<RawRow>)
    ensures |Accepted(ctx, rows)| + |Errors(ctx, rows)| == |rows|
  {
    if rows != [] {
      RowsAccountedFor(ctx, rows[..|rows| - 1]);
    }
  }

  /** Each error names a data row's line (header = line 1), carries that row and the reason it failed. */
  lemma {:induction false} ErrorsDescribeRows(ctx: RowContext, rows: seq<RawRow>)
    ensures forall j :: 0 <= j < |Errors(ctx, rows)| ==>
              var e := Errors(ctx, rows)[j];
              && 2 <= e.line <= |rows| + 1
              && e.row == rows[e.line - 2]
              && ParseRow(ctx, rows[e.line - 2]) == Failure(e.error)
  {
    if rows != [] {
      var init := rows[..|rows| - 1];
      ErrorsDescribeRows(ctx, init);
      forall j | 0 <= j < |Errors(ctx, init)|
        ensures Errors(ctx, init)[j].line - 2 < |init|
        ensures rows[Errors(ctx, init)[j].line - 2] == init[Errors(ctx, init)[j].line - 2]
      {
      }
    }
  }

  /** Errors appear in file order: their line numbers strictly increase. */
  lemma {:induction false} ErrorLinesIncrease(ctx: RowContext, rows: seq<RawRow>)
    ensures forall i, j :: 0 <= i < j < |Errors(ctx, rows)| ==> Errors(ctx, rows)[i].line < Errors(ctx, rows)[j].line
  {
    if rows != [] {
      var init := rows[..|rows| - 1];
      ErrorLinesIncrease(ctx, init);
      ErrorsDescribeRows(ctx, init);
    }
  }

  /** A rejected row has an error on its line. */
  lemma {:induction false} RejectedRowReported(ctx: RowContext, rows: seq<RawRow>, k: nat)
    requires k < |rows| && ParseRow(ctx, rows[k]).Failure?
    ensures exists j :: 0 <= j < |Errors(ctx, rows)| && Errors(ctx, rows)[j].line == k + 2
  {
    var errs := Errors(ctx, rows);
    var init := rows[..|rows| - 1];
    var before := Errors(ctx, init);
    var last := ParseRow(ctx, rows[|rows| - 1]);
    assert errs == before + (if last.Failure? then [RowError(|rows| + 1, rows[|rows| - 1], last.error)] else []);
    if k < |init| {
      assert init[k] == rows[k];
      RejectedRowReported(ctx, init, k);
      var j :| 0 <= j < |before| && before[j].line == k + 2;
      assert errs[j] == before[j];
    } else {
      assert errs[|before|].line == k + 2;
    }
  }

  /** A row is reported as an error exactly when it is rejected. */
  lemma ErrorIffRejected(ctx: RowContext, rows: seq<RawRow>, k: nat)
    requires k < |rows|
    ensures (exists j :: 0 <= j < |Errors(ctx, rows)| && Errors(ctx, rows)[j].line == k + 2)
            <==> ParseRow(ctx, rows[k]).Failure?
  {
    if ParseRow(ctx, rows[k]).Failure? {
      RejectedRowReported(ctx, rows, k);
    } else {
      ErrorsDescribeRows(ctx, rows);
    }
  }

  /** A row's parsed value is in the batch when the row is accepted. */
  lemma {:induction false} ValidRowsAccepted(ctx: RowContext, rows: seq<RawRow>, k: nat)
    requires k < |rows| && ParseRow(ctx, rows[k]).Success?
    ensures ParseRow(ctx, rows[k]).value in Accepted(ctx, rows)
  {
    var init := rows[..|rows| - 1];
    if k < |init| {
      assert init[k] == rows[k];
      ValidRowsAccepted(ctx, init, k);
    }
  }

  /** Everything in the batch is the parsed value of some accepted row. */
  lemma {:induction false} AcceptedFromValidRows(ctx: RowContext, rows: seq<RawRow>, t: Transaction)
    requires t in Accepted(ctx, rows)
    ensures exists k :: 0 <= k < |rows| && ParseRow(ctx, rows[k]) == Success(t)
  {
    var init := rows[..|rows| - 1];
    if t in Accepted(ctx, init) {
      AcceptedFromValidRows(ctx, init, t);
      var k :| 0 <= k < |init| && ParseRow(ctx, init[k]) == Success(t);
      assert rows[k] == init[k];
    } else {
      assert ParseRow(ctx, rows[|rows| - 1]) == Success(t);
    }
  }

  /** A one-row file whose customer does not exist: nothing accepted, one error on line 2. */
  lemma UnknownCustomerRow(ctx: RowContext, row: RawRow)
    requires CellParses(row, "transaction_id", ctx.parsers.uuid)
    requires CellParses(row, "timestamp", ctx.parsers.isoDateTime)
    requires CellParses(row, "amount", ctx.parsers.number)
    requires Cell(row, "currency").Success?
    requires CellParses(row, "customer_id", ctx.parsers.uuid)
    requires CellParses(row, "product_id", ctx.parsers.uuid)
    requires CellParses(row, "quantity", ctx.parsers.integer)
    requires CellValue(row, "customer_id", ctx.parsers.uuid) !in ctx.customers
    ensures Accepted(ctx, [row]) == []
    ensures Errors(ctx, [row]) == [RowError(2, row, CustomerNotFound)]
  {
    assert [row][..0] == [];
  }

  /** An uploaded file: the name the client gave it and its bytes. */
  datatype UploadedFile = UploadedFile(name: string, content: seq<bv8>)

  datatype UploadResponse =
    | BadRequest(message: string)
    | Created(inserted: nat, errors: seq<RowError>)
    | ServerError

  function Status(r: UploadResponse): int {
    match r
    case BadRequest(_) => 400
    case Created(_, _) => 201
    case ServerError => 500
  }

  /**
   * `upload_transactions_csv`. `readCsv` stands for UTF-8 decoding followed
   * by `csv.DictReader`; when either raises, nothing is caught and nothing is
   * written. Otherwise the rows are processed and the batch is inserted with
   * conflicts ignored; `inserted` is the size of the batch.
   */
  method UploadTransactionsCsv(files: map<string, UploadedFile>, readCsv: seq<bv8> -> Option<seq<RawRow>>,
                               parsers: Parsers, db: Database)
    returns (response: UploadResponse, db': Database)
    requires UniqueIds(db.transactions)
    ensures Status(response) == 400 <==> "file" !in files || !EndsWith(files["file"].name, ".csv")
    ensures Status(response) == 500 <==>
              "file" in files && EndsWith(files["file"].name, ".csv") && readCsv(files["file"].content).None?
    ensures Status(response) == 201 <==>
              "file" in files && EndsWith(files["file"].name, ".csv") && readCsv(files["file"].content).Some?
    ensures "file" !in files ==> response == BadRequest("No file provided.") && db' == db
    ensures "file" in files && !EndsWith(files["file"].name, ".csv") ==>
              response == BadRequest("File is not CSV.") && db' == db
    ensures "file" in files && EndsWith(files["file"].name, ".csv") && readCsv(files["file"].content).None? ==>
              response == ServerError && db' == db
    ensures "file" in files && EndsWith(files["file"].name, ".csv") && readCsv(files["file"].content).Some? ==>
              var rows := readCsv(files["file"].content).value;
              var ctx := RowContext(parsers, db.customers, db.products);
              && response == Created(|Accepted(ctx, rows)|, Errors(ctx, rows))
              && db' == db.(transactions := InsertIgnoringConflicts(db.transactions, Accepted(ctx, rows)))
  {
    if "file" !in files {
      return BadRequest("No file provided."), db;
    }
    var csvFile := files["file"];
    if !EndsWith(csvFile.name, ".csv") {
      return BadRequest("File is not CSV."), db;
    }
    var reader := readCsv(csvFile.content);
    if reader.None? {
      return ServerError, db;
    }
    var toCreate, errors := ProcessRows(RowContext(parsers, db.customers, db.products), reader.value);
    db' := db.(transactions := InsertIgnoringConflicts(db.transactions, toCreate));
    response := Created(|toCreate|, errors);
  }

  /**
   * `inserted` counts the batch, not what the insert kept: when an accepted
   * row's key already exists, fewer rows are added than reported, and the
   * existing rows stay as they were.
   */
  lemma InsertedOvercountsOnConflict(ctx: RowContext, rows: seq<RawRow>, db: Database, k: nat)
    requires UniqueIds(db.transactions)
    requires k < |Accepted(ctx, rows)| && Accepted(ctx, rows)[k].transactionId in Ids(db.transactions)
    ensures var after := InsertIgnoringConflicts(db.transactions, Accepted(ctx, rows));
            && |after| - |db.transactions| < |Accepted(ctx, rows)|
            && after[..|db.transactions|] == db.transactions
  {
    ConflictSkipsRow(db.transactions, Accepted(ctx, rows), k);
  }
}
