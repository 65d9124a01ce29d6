/**
  What stands in the exported table, column by column (contracts/csv.mjs, CSV_COLUMNS): read back from the text,
  told in terms of the operations alone.
 */
module CsvCells {
  import opened Prelude
  import opened JsonSchema
  import opened ContractModel
  import opened Csv
  import opened CsvExport

  /** The first line of every export. */
  const HEADER: Row :=
    ["operation_id", "verb", "path", "path_params", "path_params_unverified", "body", "request_body_required",
     "request_body_fields", "response_fields", "error_fields", "provenance", "summary", "tags", "security"]

  /** The sorted property names of a schema, if there is one. */
  ghost predicate ShowsFields(sorting: Sorting, schema: Option<Schema>, field: string) {
    && (schema.None? ==> field == "")
    && (schema.Some? ==> field == Join(sorting.byCodeUnit(schema.value.properties.Keys), ", "))
  }

  ghost predicate ShowsList(items: Option<seq<string>>, field: string) {
    (items.None? ==> field == "") && (items.Some? ==> field == Join(items.value, ", "))
  }

  ghost predicate ShowsText(text: Option<string>, field: string) {
    (text.None? ==> field == "") && (text.Some? ==> field == text.value)
  }

  ghost predicate ShowsSecurity(sorting: Sorting, security: Option<seq<set<string>>>, field: string) {
    && (security.None? ==> field == "")
    && (security.Some? && security.value == [] ==> field == "(source-declared: none)")
    && (security.Some? && security.value != [] ==>
          field == Join(sorting.byCodeUnit(set i, name | 0 <= i < |security.value| && name in security.value[i] ::
          name), ", "))
  }

  ghost predicate ShowsProvenance(provenance: Provenance, field: string) {
    && (provenance == ScanOnly ==> field == "scan") && (provenance == ScanSynthesized ==> field == "scan-synthesized")
    && (provenance == ScanAndOpenapi ==> field == "scan+openapi") && (provenance == OpenapiOnly ==> field == "openapi")
  }

  ghost predicate ShowsBody(body: Body, field: string) {
    && (body == Expected ==> field == "true") && (body == Absent ==> field == "false")
    && (body == Unknown ==> field == "unknown")
  }

  /** What the scan and the reconciliation say of an operation. */
  ghost predicate ShowsAddress(sorting: Sorting, id: string, op: Operation, row: Row) {
    && |row| == |HEADER|
    && row[0] == id && row[1] == op.verb && row[2] == op.path
    && ShowsFields(sorting, Some(op.pathParams), row[3])
    && ShowsList(op.pathParamsHeuristic, row[4])
    && ShowsBody(op.body, row[5])
    && (op.requestBodyRequired == None ==> row[6] == "")
    && (op.requestBodyRequired == Some(true) ==> row[6] == "true")
    && (op.requestBodyRequired == Some(false) ==> row[6] == "false")
  }

  /** What a source document says of it. */
  ghost predicate ShowsSource(sorting: Sorting, op: Operation, row: Row) {
    && |row| == |HEADER|
    && ShowsFields(sorting, op.requestBodySchema, row[7])
    && ShowsFields(sorting, op.responseSchema, row[8])
    && ShowsFields(sorting, op.errorSchema, row[9])
    && ShowsProvenance(op.provenance, row[10])
    && ShowsText(op.copied.summary, row[11])
    && ShowsList(op.copied.tags, row[12])
    && ShowsSecurity(sorting, op.copied.security, row[13])
  }

  /** The row of an operation holds its values under the names of the header. */
  ghost predicate RowShows(sorting: Sorting, id: string, op: Operation, row: Row) {
    ShowsAddress(sorting, id, op, row) && ShowsSource(sorting, op, row)
  }

  lemma HeaderIs()
    ensures Header(COLUMNS) == HEADER
  {
  }

  lemma {:induction false} SchemesAre(requirements: seq<set<string>>)
    ensures SchemesOf(requirements) == set i, name | 0 <= i < |requirements| && name in requirements[i] :: name
  {
    if requirements != [] {
      var n := |requirements| - 1;
      SchemesAre(requirements[..n]);
      assert forall i | 0 <= i < n :: requirements[..n][i] == requirements[i];
    }
  }

  lemma SecurityIsShown(sorting: Sorting, security: Option<seq<set<string>>>)
    ensures ShowsSecurity(sorting, security, SecurityCell(sorting, security))
  {
    if security.Some? {
      SchemesAre(security.value);
    }
  }

  lemma AddressIsShown(sorting: Sorting, id: string, op: Operation, row: Row)
    requires row == RowOf(sorting, COLUMNS, op, id)
    ensures ShowsAddress(sorting, id, op, row)
  {
    assert |row| == 14;
    assert COLUMNS[0] == OperationId && COLUMNS[1] == Verb && COLUMNS[2] == Path && COLUMNS[3] == PathParams;
    assert COLUMNS[4] == PathParamsUnverified && COLUMNS[5] == BodyKnown && COLUMNS[6] == RequestBodyRequired;
  }

  lemma FieldsAreShown(sorting: Sorting, id: string, op: Operation, row: Row)
    requires row == RowOf(sorting, COLUMNS, op, id)
    ensures |row| == 14 && ShowsFields(sorting, op.requestBodySchema, row[7])
    ensures ShowsFields(sorting, op.responseSchema, row[8]) && ShowsFields(sorting, op.errorSchema, row[9])
  {
    assert |row| == 14;
    assert COLUMNS[7] == RequestBodyFields && COLUMNS[8] == ResponseFields && COLUMNS[9] == ErrorFields;
  }

  lemma SourceIsShown(sorting: Sorting, id: string, op: Operation, row: Row)
    requires row == RowOf(sorting, COLUMNS, op, id)
    ensures ShowsSource(sorting, op, row)
  {
    FieldsAreShown(sorting, id, op, row);
    assert COLUMNS[10] == ProvenanceColumn && COLUMNS[11] == SummaryColumn && COLUMNS[12] == Tags;
    assert COLUMNS[13] == Security;
    SecurityIsShown(sorting, op.copied.security);
  }

  lemma RowIsShown(sorting: Sorting, id: string, op: Operation)
    ensures RowShows(sorting, id, op, RowOf(sorting, COLUMNS, op, id))
  {
    AddressIsShown(sorting, id, op, RowOf(sorting, COLUMNS, op, id));
    SourceIsShown(sorting, id, op, RowOf(sorting, COLUMNS, op, id));
  }

  /** The rows show the operations with these ids, one each. */
  ghost predicate TableShows(sorting: Sorting, operations: map<string, Operation>, ids: seq<string>, rows: seq<Row>) {
    && |rows| == |ids|
    && forall i | 0 <= i < |ids| ::
         ids[i] in operations && RowShows(sorting, ids[i], operations[ids[i]], rows[i])
  }

  /** Read back, the export is the header and, for each operation in the order of the sorted ids, a row that
      shows its values in the columns that bear their names. */
  lemma ExportReadsAs(sorting: Sorting, contract: Contract)
    requires IsSorting(sorting) && contract.operations != map[]
    ensures var e := BuildContractCsv(sorting, COLUMNS, contract);
      e.Exported? && exists rows: seq<Row> ::
        && ParseCsv(e.csv) == Some([HEADER] + rows)
        && TableShows(sorting, contract.operations, sorting.byLocale(contract.operations.Keys), rows)
  {
    ExportShowsEveryOperation(sorting, COLUMNS, contract);
    HeaderIs();
    var e, ids := BuildContractCsv(sorting, COLUMNS, contract), sorting.byLocale(contract.operations.Keys);
    var rows: seq<Row> :| ParseCsv(e.csv) == Some([Header(COLUMNS)] + rows) &&
      ShowsInOrder(sorting, COLUMNS, contract.operations, ids, rows);
    forall i | 0 <= i < |ids| ensures ids[i] in contract.operations &&
      RowShows(sorting, ids[i], contract.operations[ids[i]], rows[i]) {
      RowIsShown(sorting, ids[i], contract.operations[ids[i]]);
    }
    assert TableShows(sorting, contract.operations, ids, rows);
  }

  // ------------------------------------------------------------------ coverage

  /** No column is listed twice. */
  ghost predicate AllDiffer(columns: seq<Column>) {
    forall i, k | 0 <= i < |columns| && 0 <= k < |columns| && columns[i] == columns[k] :: i == k
  }

  /** Where a column stands. */
  function PlaceOf(c: Column): nat {
    match c
    case OperationId => 0
    case Verb => 1
    case Path => 2
    case PathParams => 3
    case PathParamsUnverified => 4
    case BodyKnown => 5
    case RequestBodyRequired => 6
    case RequestBodyFields => 7
    case ResponseFields => 8
    case ErrorFields => 9
    case ProvenanceColumn => 10
    case SummaryColumn => 11
    case Tags => 12
    case Security => 13
  }

  lemma PlacesAre(i: nat)
    requires i < |COLUMNS|
    ensures PlaceOf(COLUMNS[i]) == i
  {
  }

  lemma ColumnsDiffer()
    ensures AllDiffer(COLUMNS)
  {
    forall i, k | 0 <= i < |COLUMNS| && 0 <= k < |COLUMNS| && COLUMNS[i] == COLUMNS[k] ensures i == k {
      PlacesAre(i);
      PlacesAre(k);
    }
  }

  lemma CountsAre(columns: seq<Column>, rows: seq<Row>, k: nat)
    requires k < |columns| && AllDiffer(columns)
    ensures PopulatedRows(columns, rows)[k] == |set i: nat | i < |rows| && k < |rows[i]| && rows[i][k] != ""|
    ensures columns[k] in EmptyColumns(columns, PopulatedRows(columns, rows)) <==> PopulatedRows(columns, rows)[k] == 0
  {
    var shown := (row: Row) => k < |row| && row[k] != "";
    FilterCounts(shown, rows);
    assert Positions(shown, rows) == set i: nat | i < |rows| && k < |rows[i]| && rows[i][k] != "";
    EmptyColumnsAre(columns, PopulatedRows(columns, rows), columns[k]);
  }

  lemma ReportIsAboutTheRows(sorting: Sorting, columns: seq<Column>, contract: Contract, rows: seq<Row>)
    requires IsSorting(sorting) && contract.operations != map[] && columns != []
    requires var e := BuildContractCsv(sorting, columns, contract);
      e.Exported? && ParseCsv(e.csv) == Some([Header(columns)] + rows)
    ensures var e := BuildContractCsv(sorting, columns, contract);
      && e.rowCount == |rows| == |contract.operations|
      && e.populatedRows == PopulatedRows(columns, rows)
      && e.emptyColumns == EmptyColumns(columns, PopulatedRows(columns, rows))
  {
    var ids := Listing(sorting, contract.operations);
    var printed := Rows(sorting, columns, contract.operations, ids);
    CsvRoundTripIff(Header(columns), printed);
    SameTail(Header(columns), rows, printed);
  }

  /** Reported besides: the number of rows, for each column in how many of them it is not blank, and as empty
      the columns that are blank in all. */
  lemma CoverageIsExact(sorting: Sorting, contract: Contract, rows: seq<Row>, k: nat)
    requires IsSorting(sorting) && contract.operations != map[] && k < |COLUMNS|
    requires var e := BuildContractCsv(sorting, COLUMNS, contract);
      e.Exported? && ParseCsv(e.csv) == Some([HEADER] + rows)
    ensures var e := BuildContractCsv(sorting, COLUMNS, contract);
      && e.rowCount == |rows| == |contract.operations| && |e.populatedRows| == |COLUMNS|
      && e.populatedRows[k] == |set i: nat | i < |rows| && k < |rows[i]| && rows[i][k] != ""|
      && (COLUMNS[k] in e.emptyColumns <==> e.populatedRows[k] == 0)
  {
    HeaderIs();
    ReportIsAboutTheRows(sorting, COLUMNS, contract, rows);
    ColumnsDiffer();
    CountsAre(COLUMNS, rows, k);
  }
}
