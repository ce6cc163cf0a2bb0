/** The cleaning stage: schema check, cancellation flag, missing
    customer fill, derived features, duplicate removal, quality counts,
    and their composition. Every step returns a new table. */
module Cleaning {
  import opened Wrappers
  import opened Seqs
  import opened Table

  /** The columns the raw file must carry, in declared order. */
  const ExpectedColumns: seq<string> :=
    ["InvoiceNo", "StockCode", "Description", "Quantity",
     "InvoiceDate", "UnitPrice", "CustomerID", "Country"]

  /** The text a null cell becomes when the column is cast to string. */
  const NullText: string := "nan"

  /** The placeholder for a missing customer. */
  const Anonymous: string := "ANONYMOUS"

  /** The schema check's exception, carrying every missing column. */
  datatype SchemaError = MissingColumnsError(missing: seq<string>)

  // ---------------------------------------------------------------------
  // Schema validation

  /** The expected columns absent from `columns`, in declared order. */
  function MissingColumns(columns: seq<string>): (m: seq<string>)
    ensures forall c :: c in m <==> c in ExpectedColumns && c !in columns
    ensures IsSubsequence(m, ExpectedColumns)
    ensures NoDuplicates(m)
  {
    var absent := (c: string) => c !in columns;
    FilterIsSubsequence(ExpectedColumns, absent);
    ExpectedColumnsDistinct();
    FilterNoDuplicates(ExpectedColumns, absent);
    Filter(ExpectedColumns, absent)
  }

  /** No column is expected twice. */
  lemma ExpectedColumnsDistinct()
    ensures NoDuplicates(ExpectedColumns)
  {
  }

  /** The string form of a customer cell: a null becomes "nan". */
  function CustomerIdText(id: Option<string>): (s: string)
    ensures id.Some? ==> s == id.value
    ensures id.None? ==> s == NullText
  {
    id.GetOr(NullText)
  }

  /** A raw line with its types coerced and no derived columns yet. */
  function Coerce(raw: RawRow): (row: Row)
    ensures row.invoiceNo == raw.invoiceNo && row.stockCode == raw.stockCode
    ensures row.description == raw.description && row.quantity == raw.quantity
    ensures row.invoiceDate == raw.invoiceDate && row.unitPrice == raw.unitPrice
    ensures row.country == raw.country
    ensures row.customerId == CustomerIdText(raw.customerId)
    ensures row.isCancellation.None? && row.totalPrice.None?
    ensures row.year.None? && row.month.None? && row.day.None?
  {
    Row(raw.invoiceNo, raw.stockCode, raw.description, raw.quantity,
        raw.invoiceDate, raw.unitPrice, CustomerIdText(raw.customerId),
        raw.country, None, None, None, None, None)
  }

  /** Coerces every raw line, in order. */
  function CoerceAll(raw: seq<RawRow>): (t: seq<Row>)
    ensures |t| == |raw|
    ensures forall i :: 0 <= i < |raw| ==> t[i] == Coerce(raw[i])
  {
    seq(|raw|, i requires 0 <= i < |raw| => Coerce(raw[i]))
  }

  /** Fails, naming every missing column, unless all expected columns are
      present; otherwise coerces each line. An unparseable date is carried
      as null and is not an error. */
  function ValidateSchema(columns: seq<string>, raw: seq<RawRow>): (r: Result<seq<Row>, SchemaError>)
    ensures r.Failure? <==> exists c :: c in ExpectedColumns && c !in columns
    ensures r.Failure? ==> forall c :: c in r.error.missing <==> c in ExpectedColumns && c !in columns
    ensures r.Failure? ==> IsSubsequence(r.error.missing, ExpectedColumns) && NoDuplicates(r.error.missing)
    ensures r.Success? ==> r.value == CoerceAll(raw)
  {
    var missing := MissingColumns(columns);
    MissingIffAbsent(columns);
    if |missing| > 0 then
      Failure(MissingColumnsError(missing))
    else
      Success(CoerceAll(raw))
  }

  /** The missing list is non-empty exactly when some expected column is absent. */
  lemma MissingIffAbsent(columns: seq<string>)
    ensures |MissingColumns(columns)| > 0 <==> exists c :: c in ExpectedColumns && c !in columns
  {
    var missing := MissingColumns(columns);
    if |missing| > 0 {
      assert missing[0] in missing;
    } else {
      forall c | c in ExpectedColumns ensures c in columns {
        assert c !in missing;
      }
    }
  }

  // ---------------------------------------------------------------------
  // Cancellation flag

  /** Python's str.startswith. */
  predicate StartsWith(s: string, prefix: string) {
    |prefix| <= |s| && s[..|prefix|] == prefix
  }

  /** An invoice number marks a cancellation when it starts with "C". */
  predicate IsCancellationInvoice(invoiceNo: string) {
    StartsWith(invoiceNo, "C")
  }

  function FlagRow(row: Row): (r: Row)
    ensures r.isCancellation == Some(|row.invoiceNo| > 0 && row.invoiceNo[0] == 'C')
    ensures r == row.(isCancellation := r.isCancellation)
  {
    row.(isCancellation := Some(IsCancellationInvoice(row.invoiceNo)))
  }

  /** Adds IsCancellation to every row: true exactly when the invoice
      number's first character is an upper-case C. */
  function FlagCancellations(t: seq<Row>): (r: seq<Row>)
    ensures |r| == |t|
    ensures forall i :: 0 <= i < |t| ==>
      r[i].isCancellation == Some(|t[i].invoiceNo| > 0 && t[i].invoiceNo[0] == 'C')
      && r[i] == t[i].(isCancellation := r[i].isCancellation)
  {
    seq(|t|, i requires 0 <= i < |t| => FlagRow(t[i]))
  }

  /** The check is case-sensitive: a lower-case prefix is not a cancellation. */
  lemma LowerCaseIsNotCancellation(invoiceNo: string)
    requires |invoiceNo| > 0 && invoiceNo[0] == 'c'
    ensures !IsCancellationInvoice(invoiceNo)
  {
  }

  // ---------------------------------------------------------------------
  // Missing customer identifiers

  /** The string forms that stand for a missing customer. */
  predicate IsMissingId(id: string) {
    id == NullText || id == ""
  }

  function FillCustomerId(id: string): (r: string)
    ensures !IsMissingId(r)
    ensures r != id <==> IsMissingId(id)
    ensures IsMissingId(id) ==> r == Anonymous
  {
    if IsMissingId(id) then Anonymous else id
  }

  /** Replaces every missing CustomerID by "ANONYMOUS" and leaves the rest
      of the table as it was. */
  function HandleMissingCustomer(t: seq<Row>): (r: seq<Row>)
    ensures |r| == |t|
    ensures forall i :: 0 <= i < |t| ==>
      && !IsMissingId(r[i].customerId)
      && (IsMissingId(t[i].customerId) ==> r[i].customerId == Anonymous)
      && (!IsMissingId(t[i].customerId) ==> r[i].customerId == t[i].customerId)
      && r[i] == t[i].(customerId := r[i].customerId)
  {
    seq(|t|, i requires 0 <= i < |t| => t[i].(customerId := FillCustomerId(t[i].customerId)))
  }

  /** Filling twice is filling once: "ANONYMOUS" is not a missing marker. */
  lemma HandleMissingCustomerIdempotent(t: seq<Row>)
    ensures HandleMissingCustomer(HandleMissingCustomer(t)) == HandleMissingCustomer(t)
  {
  }

  // ---------------------------------------------------------------------
  // Feature engineering

  function DeriveFeatures(row: Row): (r: Row)
    ensures r.totalPrice == Some(row.quantity * row.unitPrice)
    ensures r.year.Some? <==> row.invoiceDate.Some?
    ensures r.month.Some? <==> row.invoiceDate.Some?
    ensures r.day.Some? <==> row.invoiceDate.Some?
    ensures row.invoiceDate.Some? ==>
      r.year == Some(row.invoiceDate.value.year)
      && r.month == Some(row.invoiceDate.value.month)
      && r.day == Some(row.invoiceDate.value.day)
    ensures r == row.(totalPrice := r.totalPrice, year := r.year, month := r.month, day := r.day)
  {
    match row.invoiceDate
    case Some(d) =>
      row.(totalPrice := Some(row.quantity * row.unitPrice),
           year := Some(d.year), month := Some(d.month), day := Some(d.day))
    case None =>
      row.(totalPrice := Some(row.quantity * row.unitPrice),
           year := None, month := None, day := None)
  }

  /** Adds TotalPrice and the date parts to every row; a null date gives
      null parts. */
  function FeatureEngineering(t: seq<Row>): (r: seq<Row>)
    ensures |r| == |t|
    ensures forall i :: 0 <= i < |t| ==>
      && r[i].totalPrice == Some(t[i].quantity * t[i].unitPrice)
      && (r[i].year.Some? <==> t[i].invoiceDate.Some?)
      && (r[i].month.Some? <==> t[i].invoiceDate.Some?)
      && (r[i].day.Some? <==> t[i].invoiceDate.Some?)
      && (t[i].invoiceDate.Some? ==>
            && r[i].year == Some(t[i].invoiceDate.value.year)
            && r[i].month == Some(t[i].invoiceDate.value.month)
            && r[i].day == Some(t[i].invoiceDate.value.day))
      && r[i] == t[i].(totalPrice := r[i].totalPrice, year := r[i].year, month := r[i].month, day := r[i].day)
  {
    seq(|t|, i requires 0 <= i < |t| => DeriveFeatures(t[i]))
  }

  /** With a positive unit price, a line's total is negative exactly when
      its quantity is (returns and cancellations). */
  lemma TotalPriceSign(row: Row)
    requires row.unitPrice > 0
    ensures DeriveFeatures(row).totalPrice.value < 0 <==> row.quantity < 0
  {
  }

  // ---------------------------------------------------------------------
  // Duplicate removal

  /** Drops every row equal in all columns to an earlier one. */
  function RemoveExactDuplicates(t: seq<Row>): (r: seq<Row>)
    ensures IsSubsequence(r, t)
    ensures IsEmbedding(FirstOccurrences(t), r, t)
    ensures NoDuplicates(r)
    ensures forall row :: row in r <==> row in t
    ensures |r| == |Elements(t)| <= |t|
  {
    DedupKeepsFirstOccurrences(t);
    DedupIsSubsequence(t);
    DedupLength(t);
    NoDuplicatesCardinality(Dedup(t));
    Dedup(t)
  }

  // ---------------------------------------------------------------------
  // Quality report

  datatype QualityReport = QualityReport(
    rowsBefore: nat,
    rowsAfter: nat,
    rowsRemoved: int,
    cancellations: nat,
    anonymousCustomers: nat)

  /** The number of lines flagged as cancellations. */
  function CountCancellations(t: seq<Row>): (n: nat)
    ensures n == |set i | 0 <= i < |t| && t[i].isCancellation == Some(true)|
    ensures n <= |t|
    ensures n == 0 <==> forall row :: row in t ==> row.isCancellation != Some(true)
  {
    var flagged := (row: Row) => row.isCancellation == Some(true);
    var kept := Filter(t, flagged);
    FilterCount(t, flagged);
    assert Positions(t, flagged) == set i | 0 <= i < |t| && t[i].isCancellation == Some(true);
    assert |kept| > 0 ==> kept[0] in kept;
    assert forall row :: row in t && row.isCancellation == Some(true) ==> row in kept;
    |kept|
  }

  /** The number of lines whose customer is "ANONYMOUS". */
  function CountAnonymous(t: seq<Row>): (n: nat)
    ensures n == |set i | 0 <= i < |t| && t[i].customerId == Anonymous|
    ensures n <= |t|
    ensures n == 0 <==> forall row :: row in t ==> row.customerId != Anonymous
  {
    var anonymous := (row: Row) => row.customerId == Anonymous;
    var kept := Filter(t, anonymous);
    FilterCount(t, anonymous);
    assert Positions(t, anonymous) == set i | 0 <= i < |t| && t[i].customerId == Anonymous;
    assert |kept| > 0 ==> kept[0] in kept;
    assert forall row :: row in t && row.customerId == Anonymous ==> row in kept;
    |kept|
  }

  /** The five figures the report prints. */
  function DataQualityReport(before: seq<Row>, after: seq<Row>): (r: QualityReport)
    ensures r.rowsBefore == |before| && r.rowsAfter == |after|
    ensures r.rowsRemoved == |before| - |after|
    ensures r.cancellations == |set i | 0 <= i < |after| && after[i].isCancellation == Some(true)|
    ensures r.anonymousCustomers == |set i | 0 <= i < |after| && after[i].customerId == Anonymous|
    ensures r.cancellations <= |after| && r.anonymousCustomers <= |after|
  {
    QualityReport(|before|, |after|, |before| - |after|,
                  CountCancellations(after), CountAnonymous(after))
  }

  // ---------------------------------------------------------------------
  // The pipeline

  function FillRow(row: Row): (r: Row)
    ensures !IsMissingId(r.customerId)
    ensures r == row.(customerId := r.customerId)
  {
    row.(customerId := FillCustomerId(row.customerId))
  }

  /** What the row-wise steps do to one raw line. */
  function CleanRow(raw: RawRow): Row {
    DeriveFeatures(FillRow(FlagRow(Coerce(raw))))
  }

  /** Every raw line through the row-wise steps, in input order. */
  function CleanLines(raw: seq<RawRow>): (r: seq<Row>)
    ensures |r| == |raw|
  {
    seq(|raw|, i requires 0 <= i < |raw| => CleanRow(raw[i]))
  }

  /** A row as it leaves the row-wise steps: flagged, filled and featured. */
  predicate IsCleanRow(row: Row) {
    && row.isCancellation == Some(|row.invoiceNo| > 0 && row.invoiceNo[0] == 'C')
    && !IsMissingId(row.customerId)
    && row.totalPrice == Some(row.quantity * row.unitPrice)
    && (row.year.Some? <==> row.invoiceDate.Some?)
  }

  /** The cleaned table and the figures reported about it. */
  datatype Cleaned = Cleaned(table: seq<Row>, report: QualityReport)

  /** The steps before duplicate removal, chained. Validation, flagging,
      filling and feature engineering neither drop nor reorder rows:
      together they act on each line on its own. */
  function CleanRows(columns: seq<string>, raw: seq<RawRow>): (r: Result<seq<Row>, SchemaError>)
    ensures r.Failure? <==> exists c :: c in ExpectedColumns && c !in columns
    ensures r.Failure? ==> forall c :: c in r.error.missing <==> c in ExpectedColumns && c !in columns
    ensures r.Failure? ==> IsSubsequence(r.error.missing, ExpectedColumns) && NoDuplicates(r.error.missing)
    ensures r.Success? ==> r.value == CleanLines(raw)
  {
    match ValidateSchema(columns, raw)
    case Failure(e) => Failure(e)
    case Success(validated) =>
      RowwiseStages(validated, raw);
      Success(FeatureEngineering(HandleMissingCustomer(FlagCancellations(validated))))
  }

  lemma RowwiseStages(validated: seq<Row>, raw: seq<RawRow>)
    requires |validated| == |raw|
    requires forall i :: 0 <= i < |raw| ==> validated[i] == Coerce(raw[i])
    ensures FeatureEngineering(HandleMissingCustomer(FlagCancellations(validated))) == CleanLines(raw)
  {
  }

  /** Every line leaving the row-wise steps is a clean row. */
  lemma CleanLinesAreClean(raw: seq<RawRow>)
    ensures forall row :: row in CleanLines(raw) ==> IsCleanRow(row)
  {
  }

  /** The whole cleaning stage without the file reads and writes. The
      report's "before" table is the frame the row-wise steps rewrote in
      place, so it has as many rows as the raw file. */
  function RunPipeline(columns: seq<string>, raw: seq<RawRow>): (r: Result<Cleaned, SchemaError>)
    ensures r.Failure? <==> exists c :: c in ExpectedColumns && c !in columns
    ensures r.Failure? ==> forall c :: c in r.error.missing <==> c in ExpectedColumns && c !in columns
    ensures r.Failure? ==> IsSubsequence(r.error.missing, ExpectedColumns) && NoDuplicates(r.error.missing)
    ensures r.Success? ==> IsSubsequence(r.value.table, CleanLines(raw))
    ensures r.Success? ==> IsEmbedding(FirstOccurrences(CleanLines(raw)), r.value.table, CleanLines(raw))
    ensures r.Success? ==> NoDuplicates(r.value.table)
    ensures r.Success? ==> forall row :: row in r.value.table <==> row in CleanLines(raw)
    ensures r.Success? ==> forall row :: row in r.value.table ==> IsCleanRow(row)
    ensures r.Success? ==> |r.value.table| == |Elements(CleanLines(raw))|
    ensures r.Success? ==> r.value.report.rowsBefore == |raw|
    ensures r.Success? ==> r.value.report.rowsAfter == |r.value.table|
    ensures r.Success? ==> r.value.report.rowsRemoved == |raw| - |Elements(CleanLines(raw))|
    ensures r.Success? ==> var t := r.value.table;
      r.value.report.cancellations == |set i | 0 <= i < |t| && t[i].isCancellation == Some(true)|
    ensures r.Success? ==> var t := r.value.table;
      r.value.report.anonymousCustomers == |set i | 0 <= i < |t| && t[i].customerId == Anonymous|
  {
    match CleanRows(columns, raw)
    case Failure(e) => Failure(e)
    case Success(featured) =>
      var table := RemoveExactDuplicates(featured);
      CleanLinesAreClean(raw);
      Success(Cleaned(table, DataQualityReport(featured, table)))
  }

  /** A returned, priced cancellation with an empty customer: flagged,
      anonymised and priced negative (3 at 5.00, in pence). */
  lemma CancelledReturnScenario()
    ensures var row := CleanRow(RawRow("C100", "85123A", "MUG", -3, None, 500, Some(""), "United Kingdom"));
      && row.isCancellation == Some(true)
      && row.customerId == Anonymous
      && row.totalPrice == Some(-1500)
  {
  }

  /** Two rows identical in every column: exactly one survives. */
  lemma DuplicateRowsScenario(row: Row)
    ensures RemoveExactDuplicates([row, row]) == [row]
  {
    assert Elements([row, row]) == {row};
    var r := RemoveExactDuplicates([row, row]);
    assert |r| == 1 && r[0] in [row, row];
  }
}
