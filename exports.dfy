/**
 * app/utils/exports.py: the second copy of the spreadsheet export helpers.
 * It differs from app/utils.py in two places: formatting has no `Decimal`
 * branch, and a transaction's `total` is passed on unconverted. It also adds
 * `export_report_to_excel`.
 */
module Exports {
  import opened PyValues
  import opened Models
  import opened Tabular
  import Utils

  // ---------------------------------------------------------------------------
  // export_to_excel
  // ---------------------------------------------------------------------------

  /**
   * The formatting of a resolved value: anything with `strftime` becomes its
   * `YYYY-MM-DD HH:MM:SS` text (a date at midnight); everything else, a
   * `Decimal` included, is kept.
   */
  function Format(v: Value): (r: Value)
    ensures HasStrftime(v) ==> r.StrV? && |r.s| == 19
    ensures !HasStrftime(v) ==> r == v
  {
    match v
    case DateTimeV(dt) => StrV(StampFull(dt))
    case DateV(d) => StrV(StampFull(Midnight(d)))
    case _ => v
  }

  /**
   * The text a datetime becomes reads back as that datetime to the second,
   * and the text a date becomes reads back as its midnight.
   */
  lemma FormatStampReadsBack(v: Value)
    requires HasStrftime(v)
    ensures v.DateTimeV? ==> ParseFull(Format(v).s) == Some(Truncate(v.dt))
    ensures v.DateV? ==> ParseFull(Format(v).s) == Some(Midnight(v.d)) && Format(v).s[10..] == " 00:00:00"
  {
    match v
    case DateTimeV(dt) => StampFullRoundTrip(dt);
    case DateV(d) => DateStampAtMidnight(d);
  }

  /** Formatting a value twice changes nothing more, and a `Decimal` comes out as it went in. */
  lemma FormatIdempotent(v: Value)
    ensures Format(Format(v)) == Format(v)
    ensures v.DecimalV? ==> Format(v) == v
  {
  }

  /**
   * The two copies of the formatting agree on every value except a `Decimal`,
   * which app/utils.py turns into a float and this copy keeps.
   */
  lemma FormatAgreesWithUtilsExceptDecimal(v: Value)
    ensures !v.DecimalV? ==> Format(v) == Utils.Format(v)
    ensures v.DecimalV? ==> Format(v) == v && Utils.Format(v) == FloatV(v.dec)
  {
  }

  /** The formatting statements of the inner loop, applied to the looked-up value. */
  method FormatValue(value: Value) returns (r: Value)
    ensures r == Format(value)
  {
    if value.DateTimeV? {
      r := StrV(StampFull(value.dt));
    } else if HasStrftime(value) {
      r := StrV(StampFull(Midnight(value.d)));
    } else {
      r := value;
    }
  }

  /**
   * The inner loop of `export_to_excel` for one row: each header is resolved,
   * formatted and assigned to `row_dict` in turn.
   */
  method BuildRowDict(row: Row, headers: seq<string>) returns (rowDict: Record)
    ensures rowDict == ProjectRow(Format, row, headers)
  {
    rowDict := EmptyRecord();
    var j := 0;
    while j < |headers|
      invariant 0 <= j <= |headers|
      invariant rowDict == ProjectPrefix(Format, row, headers, j)
    {
      var header := headers[j];
      ProjectPrefixStep(Format, row, headers, j);
      var value := LookUp(row, header, headers);
      value := FormatValue(value);
      rowDict := Put(rowDict, header, value);
      j := j + 1;
    }
  }

  /**
   * `export_to_excel(query_result, headers, filename_prefix)` with the clock
   * reading `now`. The sheet has the headers as its first row and one row per
   * input row, in input order; the cell under each header is the formatted
   * resolution of that header in that row.
   */
  method ExportToExcel(queryResult: seq<Row>, headers: seq<string>, filenamePrefix: string, now: DateTime)
    returns (output: Table, filename: string)
    ensures output.header == headers && |output.rows| == |queryResult|
    ensures forall i :: 0 <= i < |queryResult| ==> |output.rows[i]| == |headers|
    ensures forall i, j :: 0 <= i < |queryResult| && 0 <= j < |headers| ==>
              output.rows[i][j] == Format(Resolve(queryResult[i], headers[j], headers))
    ensures filename == SpreadsheetName(filenamePrefix, now)
  {
    var data: seq<Record> := [];
    var i := 0;
    while i < |queryResult|
      invariant 0 <= i <= |queryResult|
      invariant |data| == i
      invariant forall k :: 0 <= k < i ==> data[k] == ProjectRow(Format, queryResult[k], headers)
    {
      var rowDict := BuildRowDict(queryResult[i], headers);
      data := data + [rowDict];
      i := i + 1;
    }
    forall k | 0 <= k < |queryResult| {
      ProjectRowShape(Format, queryResult[k], headers);
    }
    output := ToTable(data, headers);
    var timestamp := StampCompact(now);
    filename := filenamePrefix + "_" + timestamp + ".xlsx";
  }

  // ---------------------------------------------------------------------------
  // export_transactions_to_excel
  // ---------------------------------------------------------------------------

  const TransactionHeaders: seq<string> :=
    ["id", "idpel", "periode", "total", "payment_type", "status", "officer_name", "created_at"]

  /** None of the eight headers names a method of `dict`. */
  lemma TransactionHeadersAreNotDictMethods()
    ensures forall j :: 0 <= j < |TransactionHeaders| ==> TransactionHeaders[j] !in DictMethods
  {
  }

  /** `processed_t`: the dict display written for one transaction. */
  function TransactionRecord(t: Transaction): Record {
    var officerName :=
      if t.officer.Some? && t.officer.value.user.Some? then StrV(t.officer.value.user.value.username)
      else StrV("N/A");
    Record(TransactionHeaders, map[
      "id" := IntV(t.id),
      "idpel" := StrV(t.idpel),
      "periode" := DateV(t.periode),
      "total" := DecimalV(t.total),
      "payment_type" := EnumValue(t.paymentType, PaymentTypeName),
      "status" := EnumValue(t.status, StatusName),
      "officer_name" := officerName,
      "created_at" := DateTimeValue(t.createdAt)])
  }

  /** The dict for a transaction is well formed; its keys are the eight headers, in the order written. */
  lemma TransactionRecordShape(t: Transaction)
    ensures WellFormed(TransactionRecord(t)) && TransactionRecord(t).keys == TransactionHeaders
  {
  }

  /**
   * Under `total` the dict holds the amount itself, unconverted; under `officer_name` the officer's
   * user's username when both exist and 'N/A' otherwise; the other fields are
   * copied from the transaction.
   */
  lemma TransactionRecordFields(t: Transaction)
    ensures Get(TransactionRecord(t), "total") == DecimalV(t.total)
    ensures t.officer.Some? && t.officer.value.user.Some? ==>
              Get(TransactionRecord(t), "officer_name") == StrV(t.officer.value.user.value.username)
    ensures t.officer.None? || t.officer.value.user.None? ==> Get(TransactionRecord(t), "officer_name") == StrV("N/A")
    ensures Get(TransactionRecord(t), "id") == IntV(t.id) && Get(TransactionRecord(t), "idpel") == StrV(t.idpel)
    ensures Get(TransactionRecord(t), "periode") == DateV(t.periode)
    ensures Get(TransactionRecord(t), "created_at") == DateTimeValue(t.createdAt)
    ensures Get(TransactionRecord(t), "payment_type") == EnumValue(t.paymentType, PaymentTypeName)
    ensures Get(TransactionRecord(t), "status") == EnumValue(t.status, StatusName)
  {
  }

  /**
   * What the dict of a transaction holds never reaches the sheet: under
   * `id`, `idpel`, `periode`, `total` and `officer_name` it holds a value,
   * yet the cell built from it is None.
   */
  lemma TransactionDictIsNotRead(t: Transaction, h: string)
    requires h == "id" || h == "idpel" || h == "periode" || h == "total" || h == "officer_name"
    ensures h in TransactionHeaders && Get(TransactionRecord(t), h) != NoneV
    ensures Format(Resolve(DictRow(TransactionRecord(t)), h, TransactionHeaders)) == NoneV
  {
    var r := TransactionRecord(t);
    assert Get(r, h) != NoneV by {
      TransactionRecordFields(t);
    }
    assert h in TransactionHeaders;
    var j := IndexOf(TransactionHeaders, h);
    TransactionHeadersAreNotDictMethods();
    DictRowGivesNone(r, TransactionHeaders, j);
  }

  /**
   * `export_transactions_to_excel(transactions)`. The per-transaction dicts
   * are handed to `export_to_excel`, which looks headers up as attributes and
   * never as dict keys, so every cell of the sheet is empty.
   */
  method ExportTransactionsToExcel(transactions: seq<Transaction>, now: DateTime)
    returns (output: Table, filename: string)
    ensures output.header == TransactionHeaders && |output.rows| == |transactions|
    ensures forall i :: 0 <= i < |transactions| ==> |output.rows[i]| == |TransactionHeaders|
    ensures forall i, j :: 0 <= i < |transactions| && 0 <= j < |TransactionHeaders| ==> output.rows[i][j] == NoneV
    ensures filename == SpreadsheetName("transactions", now)
  {
    var processed: seq<Row> := [];
    var i := 0;
    while i < |transactions|
      invariant 0 <= i <= |transactions|
      invariant |processed| == i
      invariant forall k :: 0 <= k < i ==> processed[k] == DictRow(TransactionRecord(transactions[k]))
    {
      processed := processed + [DictRow(TransactionRecord(transactions[i]))];
      i := i + 1;
    }
    output, filename := ExportToExcel(processed, TransactionHeaders, "transactions", now);
    forall k, j | 0 <= k < |transactions| && 0 <= j < |TransactionHeaders|
      ensures output.rows[k][j] == NoneV
    {
      TransactionHeadersAreNotDictMethods();
      DictRowGivesNone(TransactionRecord(transactions[k]), TransactionHeaders, j);
    }
  }

  // ---------------------------------------------------------------------------
  // export_report_to_excel
  // ---------------------------------------------------------------------------

  /** `export_report_to_excel(report_data, headers, report_name)`: exactly `export_to_excel`. */
  method ExportReportToExcel(reportData: seq<Row>, headers: seq<string>, reportName: string, now: DateTime)
    returns (output: Table, filename: string)
    ensures output.header == headers && |output.rows| == |reportData|
    ensures forall i :: 0 <= i < |reportData| ==> |output.rows[i]| == |headers|
    ensures forall i, j :: 0 <= i < |reportData| && 0 <= j < |headers| ==>
              output.rows[i][j] == Format(Resolve(reportData[i], headers[j], headers))
    ensures filename == SpreadsheetName(reportName, now)
  {
    output, filename := ExportToExcel(reportData, headers, reportName, now);
  }
}
