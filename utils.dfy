/**
 * app/utils.py: the role-gate decorators and the spreadsheet export helpers
 * (the copy that turns a `Decimal` into a float).
 */
module Utils {
  import opened PyValues
  import opened Models
  import opened Tabular

  // ---------------------------------------------------------------------------
  // Role gates
  // ---------------------------------------------------------------------------

  /** `current_user`: whether it is authenticated, and the role stored for it. */
  datatype Principal = Principal(isAuthenticated: bool, role: Role)

  /** A decorated view either runs the wrapped function or aborts with an HTTP status. */
  datatype Response<R> = Called(result: R) | Aborted(status: int)

  /** The role lists written out in `coordinator_required` and `field_officer_required`. */
  const CoordinatorRoles: seq<string> := ["admin", "coordinator"]
  const AllRoles: seq<string> := ["admin", "coordinator", "field_officer"]

  /** `@admin_required` around `f`, called with `args` on behalf of `user`. */
  function AdminRequired<A, R>(f: A -> R, user: Principal, args: A): (r: Response<R>)
    ensures r.Called? <==> user.isAuthenticated && user.role == Admin
    ensures r.Called? ==> r.result == f(args)
    ensures r.Aborted? ==> r.status == 403
  {
    if !user.isAuthenticated || RoleName(user.role) != "admin" then Aborted(403)
    else Called(f(args))
  }

  /** `@coordinator_required`. */
  function CoordinatorRequired<A, R>(f: A -> R, user: Principal, args: A): (r: Response<R>)
    ensures r.Called? <==> user.isAuthenticated && (user.role == Admin || user.role == Coordinator)
    ensures r.Called? ==> r.result == f(args)
    ensures r.Aborted? ==> r.status == 403
  {
    if !user.isAuthenticated || RoleName(user.role) !in CoordinatorRoles then Aborted(403)
    else Called(f(args))
  }

  /** `@field_officer_required`: every role is listed, so only authentication matters. */
  function FieldOfficerRequired<A, R>(f: A -> R, user: Principal, args: A): (r: Response<R>)
    ensures r.Called? <==> user.isAuthenticated
    ensures r.Called? ==> r.result == f(args)
    ensures r.Aborted? ==> r.status == 403
  {
    if !user.isAuthenticated || RoleName(user.role) !in AllRoles then Aborted(403)
    else Called(f(args))
  }

  /** `@role_required(allowed_roles)`. */
  function RoleRequired<A, R>(allowedRoles: seq<string>, f: A -> R, user: Principal, args: A): (r: Response<R>)
    ensures r.Called? <==> user.isAuthenticated && exists i :: 0 <= i < |allowedRoles| && allowedRoles[i] == RoleName(user.role)
    ensures r.Called? ==> r.result == f(args)
    ensures r.Aborted? ==> r.status == 403
  {
    if !user.isAuthenticated || RoleName(user.role) !in allowedRoles then Aborted(403)
    else Called(f(args))
  }

  /** Each fixed gate behaves exactly as `role_required` with its list. */
  lemma FixedGatesAreRoleRequired<A, R>(f: A -> R, user: Principal, args: A)
    ensures AdminRequired(f, user, args) == RoleRequired(["admin"], f, user, args)
    ensures CoordinatorRequired(f, user, args) == RoleRequired(CoordinatorRoles, f, user, args)
    ensures FieldOfficerRequired(f, user, args) == RoleRequired(AllRoles, f, user, args)
  {
  }

  /** Privilege as a rank: admin 2, coordinator 1, field officer 0. */
  function Rank(r: Role): nat {
    match r
    case Admin => 2
    case Coordinator => 1
    case FieldOfficer => 0
  }

  /** The three gates are the thresholds 2, 1 and 0 on the rank of an authenticated user. */
  lemma GatesAreRankThresholds<A, R>(f: A -> R, user: Principal, args: A)
    ensures AdminRequired(f, user, args).Called? <==> user.isAuthenticated && Rank(user.role) >= 2
    ensures CoordinatorRequired(f, user, args).Called? <==> user.isAuthenticated && Rank(user.role) >= 1
    ensures FieldOfficerRequired(f, user, args).Called? <==> user.isAuthenticated && Rank(user.role) >= 0
  {
  }

  /**
   * Admission nests: whoever passes the admin gate passes the coordinator
   * gate, and whoever passes that passes the field-officer gate; the
   * inclusions are strict.
   */
  lemma GatesNest<A, R>(f: A -> R, user: Principal, args: A)
    ensures AdminRequired(f, user, args).Called? ==> CoordinatorRequired(f, user, args).Called?
    ensures CoordinatorRequired(f, user, args).Called? ==> FieldOfficerRequired(f, user, args).Called?
    ensures user == Principal(true, Coordinator) ==>
              CoordinatorRequired(f, user, args).Called? && AdminRequired(f, user, args).Aborted?
    ensures user == Principal(true, FieldOfficer) ==>
              FieldOfficerRequired(f, user, args).Called? && CoordinatorRequired(f, user, args).Aborted?
  {
  }

  /**
   * `role_required` given the names of some roles admits an authenticated
   * user exactly when the user's role is one of them: names stand for roles
   * because distinct roles have distinct names.
   */
  lemma RoleRequiredOnMembers<A, R>(allowed: seq<Role>, f: A -> R, user: Principal, args: A)
    ensures RoleRequired(seq(|allowed|, i requires 0 <= i < |allowed| => RoleName(allowed[i])), f, user, args).Called?
            <==> user.isAuthenticated && user.role in allowed
  {
    var names := seq(|allowed|, i requires 0 <= i < |allowed| => RoleName(allowed[i]));
    EnumNamesDistinct();
    if user.role in allowed {
      var i :| 0 <= i < |allowed| && allowed[i] == user.role;
      assert names[i] == RoleName(user.role);
    }
  }

  /** An unauthenticated user is turned away by every gate, whatever role it carries. */
  lemma UnauthenticatedAlwaysAborts<A, R>(allowedRoles: seq<string>, f: A -> R, user: Principal, args: A)
    requires !user.isAuthenticated
    ensures RoleRequired(allowedRoles, f, user, args) == Aborted(403)
    ensures AdminRequired(f, user, args) == Aborted(403)
    ensures CoordinatorRequired(f, user, args) == Aborted(403)
    ensures FieldOfficerRequired(f, user, args) == Aborted(403)
  {
  }

  // ---------------------------------------------------------------------------
  // export_to_excel
  // ---------------------------------------------------------------------------

  /**
   * The formatting of a resolved value: anything with `strftime` becomes its
   * `YYYY-MM-DD HH:MM:SS` text (a date at midnight), a `Decimal` becomes a
   * float, everything else is kept.
   */
  function Format(v: Value): (r: Value)
    ensures HasStrftime(v) ==> r.StrV? && |r.s| == 19
    ensures v.DecimalV? ==> r == FloatV(v.dec)
    ensures !HasStrftime(v) && !v.DecimalV? ==> r == v
  {
    match v
    case DateTimeV(dt) => StrV(StampFull(dt))
    case DateV(d) => StrV(StampFull(Midnight(d)))
    case DecimalV(dec) => FloatV(dec)
    case _ => v
  }

  /**
   * The text a datetime becomes reads back as that datetime to the second,
   * and the text a date becomes reads back as its midnight.
   */
  lemma FormatStampReadsBack(v: Value)
    requires HasStrftime(v)
    ensures v.DateTimeV? ==> ParseFull(Format(v).s) == Some(Truncate(v.dt))
    ensures v.DateV? ==> ParseFull(Format(v).s) == Some(Midnight(v.d)) && Format(v).s[10..] == " 00:00:00"
  {
    match v
    case DateTimeV(dt) => StampFullRoundTrip(dt);
    case DateV(d) => DateStampAtMidnight(d);
  }

  /** The date 2024-03-05 is written `2024-03-05 00:00:00`. */
  lemma FormatDateExample()
    ensures Format(DateV(CivilDate(2024, 3, 5))) == StrV("2024-03-05 00:00:00")
  {
    StampFullDateExample();
  }

  /** Formatting a value twice changes nothing more: its results are text, floats or kept values. */
  lemma FormatIdempotent(v: Value)
    ensures Format(Format(v)) == Format(v)
    ensures !HasStrftime(Format(v)) && !Format(v).DecimalV?
  {
  }

  /** The formatting statements of the inner loop, applied to the looked-up value. */
  method FormatValue(value: Value) returns (r: Value)
    ensures r == Format(value)
  {
    if value.DateTimeV? {
      r := StrV(StampFull(value.dt));
    } else if HasStrftime(value) {
      r := StrV(StampFull(Midnight(value.d)));
    } else if value.DecimalV? {
      r := FloatV(value.dec);
    } else {
      r := value;
    }
  }

  /**
   * The inner loop of `export_to_excel` for one row: each header is resolved,
   * formatted and assigned to `row_dict` in turn.
   */
  method BuildRowDict(row: Row, headers: seq<string>) returns (rowDict: Record)
    ensures rowDict == ProjectRow(Format, row, headers)
  {
    rowDict := EmptyRecord();
    var j := 0;
    while j < |headers|
      invariant 0 <= j <= |headers|
      invariant rowDict == ProjectPrefix(Format, row, headers, j)
    {
      var header := headers[j];
      ProjectPrefixStep(Format, row, headers, j);
      var value := LookUp(row, header, headers);
      value := FormatValue(value);
      rowDict := Put(rowDict, header, value);
      j := j + 1;
    }
  }

  /**
   * `export_to_excel(query_result, headers, filename_prefix)` with the clock
   * reading `now`. The sheet has the headers as its first row and one row per
   * input row, in input order; the cell under each header is the formatted
   * resolution of that header in that row.
   */
  method ExportToExcel(queryResult: seq<Row>, headers: seq<string>, filenamePrefix: string, now: DateTime)
    returns (output: Table, filename: string)
    ensures output.header == headers && |output.rows| == |queryResult|
    ensures forall i :: 0 <= i < |queryResult| ==> |output.rows[i]| == |headers|
    ensures forall i, j :: 0 <= i < |queryResult| && 0 <= j < |headers| ==>
              output.rows[i][j] == Format(Resolve(queryResult[i], headers[j], headers))
    ensures filename == SpreadsheetName(filenamePrefix, now)
  {
    var data: seq<Record> := [];
    var i := 0;
    while i < |queryResult|
      invariant 0 <= i <= |queryResult|
      invariant |data| == i
      invariant forall k :: 0 <= k < i ==> data[k] == ProjectRow(Format, queryResult[k], headers)
    {
      var rowDict := BuildRowDict(queryResult[i], headers);
      data := data + [rowDict];
      i := i + 1;
    }
    forall k | 0 <= k < |queryResult| {
      ProjectRowShape(Format, queryResult[k], headers);
    }
    output := ToTable(data, headers);
    var timestamp := StampCompact(now);
    filename := filenamePrefix + "_" + timestamp + ".xlsx";
  }

  /**
   * The report exports pass labelled query rows with the headers
   * `[key, 'count', 'total']`: each cell of such a sheet is its label,
   * formatted, and the `count` label is read rather than the row's `count`
   * method.
   */
  lemma ReportColumnsReadLabels(labels: map<string, Value>, key: string)
    requires key in labels && "count" in labels && "total" in labels
    ensures Format(Resolve(ResultRow(labels), key, [key, "count", "total"])) == Format(labels[key])
    ensures Format(Resolve(ResultRow(labels), "count", [key, "count", "total"])) == Format(labels["count"])
    ensures Format(Resolve(ResultRow(labels), "total", [key, "count", "total"])) == Format(labels["total"])
  {
    var hs := [key, "count", "total"];
    ResultRowLookup(labels, hs, 0);
    ResultRowLookup(labels, hs, 1);
    ResultRowLookup(labels, hs, 2);
  }

  // ---------------------------------------------------------------------------
  // export_transactions_to_excel
  // ---------------------------------------------------------------------------

  const TransactionHeaders: seq<string> :=
    ["id", "idpel", "periode", "total", "payment_type", "status", "officer_name", "created_at"]

  /** None of the eight headers names a method of `dict`. */
  lemma TransactionHeadersAreNotDictMethods()
    ensures forall j :: 0 <= j < |TransactionHeaders| ==> TransactionHeaders[j] !in DictMethods
  {
  }

  /** `processed_t`: the dict display written for one transaction. */
  function TransactionRecord(t: Transaction): Record {
    var officerName :=
      if t.officer.Some? && t.officer.value.user.Some? then StrV(t.officer.value.user.value.username)
      else StrV("N/A");
    Record(TransactionHeaders, map[
      "id" := IntV(t.id),
      "idpel" := StrV(t.idpel),
      "periode" := DateV(t.periode),
      "total" := if Truthy(t.total) then FloatV(t.total) else IntV(0),
      "payment_type" := EnumValue(t.paymentType, PaymentTypeName),
      "status" := EnumValue(t.status, StatusName),
      "officer_name" := officerName,
      "created_at" := DateTimeValue(t.createdAt)])
  }

  /** The dict for a transaction is well formed; its keys are the eight headers, in the order written. */
  lemma TransactionRecordShape(t: Transaction)
    ensures WellFormed(TransactionRecord(t)) && TransactionRecord(t).keys == TransactionHeaders
  {
  }

  /**
   * Under `total` the dict holds the float of the amount when the amount is non-zero and
   * the integer 0 otherwise; under `officer_name` the officer's
   * user's username when both exist and 'N/A' otherwise; the other fields are
   * copied from the transaction.
   */
  lemma TransactionRecordFields(t: Transaction)
    ensures Get(TransactionRecord(t), "total") == if Truthy(t.total) then FloatV(t.total) else IntV(0)
    ensures t.officer.Some? && t.officer.value.user.Some? ==>
              Get(TransactionRecord(t), "officer_name") == StrV(t.officer.value.user.value.username)
    ensures t.officer.None? || t.officer.value.user.None? ==> Get(TransactionRecord(t), "officer_name") == StrV("N/A")
    ensures Get(TransactionRecord(t), "id") == IntV(t.id) && Get(TransactionRecord(t), "idpel") == StrV(t.idpel)
    ensures Get(TransactionRecord(t), "periode") == DateV(t.periode)
    ensures Get(TransactionRecord(t), "created_at") == DateTimeValue(t.createdAt)
    ensures Get(TransactionRecord(t), "payment_type") == EnumValue(t.paymentType, PaymentTypeName)
    ensures Get(TransactionRecord(t), "status") == EnumValue(t.status, StatusName)
  {
  }

  /**
   * What the dict of a transaction holds never reaches the sheet: under
   * `id`, `idpel`, `periode`, `total` and `officer_name` it holds a value,
   * yet the cell built from it is None.
   */
  lemma TransactionDictIsNotRead(t: Transaction, h: string)
    requires h == "id" || h == "idpel" || h == "periode" || h == "total" || h == "officer_name"
    ensures h in TransactionHeaders && Get(TransactionRecord(t), h) != NoneV
    ensures Format(Resolve(DictRow(TransactionRecord(t)), h, TransactionHeaders)) == NoneV
  {
    var r := TransactionRecord(t);
    assert Get(r, h) != NoneV by {
      TransactionRecordFields(t);
    }
    assert h in TransactionHeaders;
    var j := IndexOf(TransactionHeaders, h);
    TransactionHeadersAreNotDictMethods();
    DictRowGivesNone(r, TransactionHeaders, j);
  }

  /**
   * `export_transactions_to_excel(transactions)`. The per-transaction dicts
   * are handed to `export_to_excel`, which looks headers up as attributes and
   * never as dict keys, so every cell of the sheet is empty.
   */
  method ExportTransactionsToExcel(transactions: seq<Transaction>, now: DateTime)
    returns (output: Table, filename: string)
    ensures output.header == TransactionHeaders && |output.rows| == |transactions|
    ensures forall i :: 0 <= i < |transactions| ==> |output.rows[i]| == |TransactionHeaders|
    ensures forall i, j :: 0 <= i < |transactions| && 0 <= j < |TransactionHeaders| ==> output.rows[i][j] == NoneV
    ensures filename == SpreadsheetName("transactions", now)
  {
    var processed: seq<Row> := [];
    var i := 0;
    while i < |transactions|
      invariant 0 <= i <= |transactions|
      invariant |processed| == i
      invariant forall k :: 0 <= k < i ==> processed[k] == DictRow(TransactionRecord(transactions[k]))
    {
      processed := processed + [DictRow(TransactionRecord(transactions[i]))];
      i := i + 1;
    }
    output, filename := ExportToExcel(processed, TransactionHeaders, "transactions", now);
    forall k, j | 0 <= k < |transactions| && 0 <= j < |TransactionHeaders|
      ensures output.rows[k][j] == NoneV
    {
      TransactionHeadersAreNotDictMethods();
      DictRowGivesNone(TransactionRecord(transactions[k]), TransactionHeaders, j);
    }
  }
}
