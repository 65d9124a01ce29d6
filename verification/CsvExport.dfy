/** Which table is printed for a contract (contracts/csv.mjs, buildContractCsv and its columns). */
module CsvExport {
  import opened Prelude
  import opened JsonSchema
  import opened ContractModel
  import opened Csv

  /** The two sort orders in use: `localeCompare` for operation ids, code units for the rest. */
  datatype Sorting = Sorting(byLocale: set<string> -> seq<string>, byCodeUnit: set<string> -> seq<string>)

  /** Sorting lists each element of the set once. */
  ghost predicate ListsOnce(sort: set<string> -> seq<string>) {
    forall s :: Distinct(sort(s)) && forall x :: x in sort(s) <==> x in s
  }

  ghost predicate IsSorting(sorting: Sorting) {
    ListsOnce(sorting.byLocale) && ListsOnce(sorting.byCodeUnit)
  }

  datatype Column =
    | OperationId
    | Verb
    | Path
    | PathParams
    | PathParamsUnverified
    | BodyKnown
    | RequestBodyRequired
    | RequestBodyFields
    | ResponseFields
    | ErrorFields
    | ProvenanceColumn
    | SummaryColumn
    | Tags
    | Security

  const COLUMNS: seq<Column> :=
    [OperationId, Verb, Path, PathParams, PathParamsUnverified, BodyKnown, RequestBodyRequired, RequestBodyFields,
     ResponseFields, ErrorFields, ProvenanceColumn, SummaryColumn, Tags, Security]

  function ColumnName(c: Column): string {
    match c
    case OperationId => "operation_id"
    case Verb => "verb"
    case Path => "path"
    case PathParams => "path_params"
    case PathParamsUnverified => "path_params_unverified"
    case BodyKnown => "body"
    case RequestBodyRequired => "request_body_required"
    case RequestBodyFields => "request_body_fields"
    case ResponseFields => "response_fields"
    case ErrorFields => "error_fields"
    case ProvenanceColumn => "provenance"
    case SummaryColumn => "summary"
    case Tags => "tags"
    case Security => "security"
  }

  // ------------------------------------------------------------------ cells

  const DECLARED_OPEN: string := "(source-declared: none)"

  function SchemesOf(requirements: seq<set<string>>): set<string> {
    if requirements == [] then {}
    else SchemesOf(requirements[..|requirements| - 1]) + requirements[|requirements| - 1]
  }

  function SecurityCell(sorting: Sorting, security: Option<seq<set<string>>>): string {
    match security
    case None => ""
    case Some(requirements) =>
      if requirements == [] then DECLARED_OPEN else Join(sorting.byCodeUnit(SchemesOf(requirements)), ", ")
  }

  method ExtractSecurity(sorting: Sorting, security: Option<seq<set<string>>>) returns (cell: string)
    ensures cell == SecurityCell(sorting, security)
  {
    if security.None? {
      return "";
    }
    var requirements := security.value;
    if |requirements| == 0 {
      return DECLARED_OPEN;
    }
    var schemeNames: set<string> := {};
    for i := 0 to |requirements|
      invariant schemeNames == SchemesOf(requirements[..i])
    {
      assert requirements[..i + 1][..i] == requirements[..i];
      var keys := requirements[i];
      ghost var before := schemeNames;
      while keys != {}
        invariant keys <= requirements[i]
        invariant schemeNames == before + (requirements[i] - keys)
        decreases keys
      {
        var scheme :| scheme in keys;
        schemeNames := schemeNames + {scheme};
        keys := keys - {scheme};
      }
    }
    assert requirements[..|requirements|] == requirements;
    cell := Join(sorting.byCodeUnit(schemeNames), ", ");
  }

  /** A blank security cell says that nothing is known, except for the one degenerate declaration
      that lists requirements without naming any scheme: only that one prints like an absent one. */
  lemma BlankSecurityIff(sorting: Sorting, security: Option<seq<set<string>>>)
    requires IsSorting(sorting)
    ensures SecurityCell(sorting, security) == "" <==>
      security.None? || (security.value != [] && SchemesOf(security.value) <= {""})
  {
    if security.Some? && security.value != [] {
      var names := SchemesOf(security.value);
      var listed := sorting.byCodeUnit(names);
      if |listed| > 0 { assert listed[0] in listed; }
      if |listed| > 1 {
        assert listed[0] != listed[1] && listed[0] in listed && listed[1] in listed;
      }
      if names <= {""} {
        assert forall x :: x in listed ==> x == "";
        assert |listed| <= 1;
      } else {
        var name :| name in names && name != "";
        assert name in listed;
      }
    }
  }

  function FieldsCell(sorting: Sorting, schema: Option<Schema>): string {
    match schema
    case None => ""
    case Some(s) => Join(sorting.byCodeUnit(s.properties.Keys), ", ")
  }

  function OrBlank(text: Option<string>): string {
    match text
    case None => ""
    case Some(t) => t
  }

  function ListCell(items: Option<seq<string>>): string {
    match items
    case None => ""
    case Some(s) => Join(s, ", ")
  }

  function BodyCell(body: Body): string {
    match body
    case Expected => "true"
    case Absent => "false"
    case Unknown => "unknown"
  }

  function ProvenanceCell(p: Provenance): string {
    match p
    case ScanOnly => "scan"
    case ScanSynthesized => "scan-synthesized"
    case ScanAndOpenapi => "scan+openapi"
    case OpenapiOnly => "openapi"
  }

  function Cell(sorting: Sorting, c: Column, op: Operation, id: string): string {
    match c
    case OperationId => id
    case Verb => op.verb
    case Path => op.path
    case PathParams => FieldsCell(sorting, Some(op.pathParams))
    case PathParamsUnverified => ListCell(op.pathParamsHeuristic)
    case BodyKnown => BodyCell(op.body)
    case RequestBodyRequired =>
      (match op.requestBodyRequired case None => "" case Some(b) => if b then "true" else "false")
    case RequestBodyFields => FieldsCell(sorting, op.requestBodySchema)
    case ResponseFields => FieldsCell(sorting, op.responseSchema)
    case ErrorFields => FieldsCell(sorting, op.errorSchema)
    case ProvenanceColumn => ProvenanceCell(op.provenance)
    case SummaryColumn => OrBlank(op.copied.summary)
    case Tags => ListCell(op.copied.tags)
    case Security => SecurityCell(sorting, op.copied.security)
  }

  // ------------------------------------------------------------------ the table

  function Header(columns: seq<Column>): Row {
    seq(|columns|, i requires 0 <= i < |columns| => ColumnName(columns[i]))
  }

  function RowOf(sorting: Sorting, columns: seq<Column>, op: Operation, id: string): Row {
    seq(|columns|, i requires 0 <= i < |columns| => Cell(sorting, columns[i], op, id))
  }

  function Rows(sorting: Sorting, columns: seq<Column>, operations: map<string, Operation>, ids: seq<string>): seq<Row>
    requires forall i | 0 <= i < |ids| :: ids[i] in operations
  {
    seq(|ids|, i requires 0 <= i < |ids| => RowOf(sorting, columns, operations[ids[i]], ids[i]))
  }

  function Populated(rows: seq<Row>, column: nat): nat {
    |Filter((row: Row) => column < |row| && row[column] != "", rows)|
  }

  /** How many rows show something, column by column. */
  function PopulatedRows(columns: seq<Column>, rows: seq<Row>): seq<nat> {
    seq(|columns|, i requires 0 <= i < |columns| => Populated(rows, i))
  }

  /** The columns whose count is zero. */
  function EmptyColumns(columns: seq<Column>, counts: seq<nat>): seq<Column>
    requires |columns| == |counts|
  {
    if columns == [] then []
    else (if counts[0] == 0 then [columns[0]] else []) + EmptyColumns(columns[1..], counts[1..])
  }

  datatype Export = Refused | Exported(csv: string, rowCount: nat, populatedRows: seq<nat>, emptyColumns: seq<Column>)

  function BuildContractCsv(sorting: Sorting, columns: seq<Column>, contract: Contract): Export
    requires IsSorting(sorting)
  {
    var ids := sorting.byLocale(contract.operations.Keys);
    if |ids| == 0 then Refused
    else
      assert forall i :: 0 <= i < |ids| ==> ids[i] in ids;
      var rows := Rows(sorting, columns, contract.operations, ids);
      Exported(
        ToCsv(Header(columns), rows),
        |rows|,
        PopulatedRows(columns, rows),
        EmptyColumns(columns, PopulatedRows(columns, rows)))
  }

  lemma {:induction false} ListingHasAll(keys: set<string>, listed: seq<string>)
    requires Distinct(listed) && forall x :: x in listed <==> x in keys
    ensures |listed| == |keys|
    decreases |listed|
  {
    if listed == [] {
      assert keys == {};
    } else {
      var x, rest := listed[0], listed[1..];
      forall y | y in rest ensures y in keys - {x} {
        var i :| 0 <= i < |rest| && rest[i] == y;
        assert listed[i + 1] == y && listed[i + 1] in listed;
      }
      forall y | y in keys - {x} ensures y in rest {
        var i :| 0 <= i < |listed| && listed[i] == y;
        assert rest[i - 1] == y;
      }
      ListingHasAll(keys - {x}, rest);
    }
  }

  /** Row by row, the cells of the operations with these ids. */
  ghost predicate ShowsInOrder(
    sorting: Sorting, columns: seq<Column>, operations: map<string, Operation>, ids: seq<string>, rows: seq<Row>) {
    && |rows| == |ids|
    && forall i | 0 <= i < |ids| ::
         ids[i] in operations && rows[i] == RowOf(sorting, columns, operations[ids[i]], ids[i])
  }

  lemma Listing(sorting: Sorting, operations: map<string, Operation>) returns (ids: seq<string>)
    requires IsSorting(sorting)
    ensures ids == sorting.byLocale(operations.Keys) && Distinct(ids) && |ids| == |operations|
    ensures (forall id :: id in ids <==> id in operations) && forall i | 0 <= i < |ids| :: ids[i] in operations
  {
    ids := sorting.byLocale(operations.Keys);
    ListingHasAll(operations.Keys, ids);
    assert |operations.Keys| == |operations|;
    assert forall i | 0 <= i < |ids| :: ids[i] in ids;
  }

  /** The export refuses only a contract without operations. Otherwise parsing its text gives the header
      and one row per operation in the order of the sorted ids, each holding that operation's cells. */
  lemma ExportShowsEveryOperation(sorting: Sorting, columns: seq<Column>, contract: Contract)
    requires IsSorting(sorting) && columns != []
    ensures var e := BuildContractCsv(sorting, columns, contract);
      var ids := sorting.byLocale(contract.operations.Keys);
      && (e.Refused? <==> contract.operations == map[])
      && (e.Exported? ==>
            && e.rowCount == |contract.operations|
            && Distinct(ids) && (forall id :: id in ids <==> id in contract.operations)
            && exists rows: seq<Row> ::
                 && ParseCsv(e.csv) == Some([Header(columns)] + rows)
                 && ShowsInOrder(sorting, columns, contract.operations, ids, rows))
  {
    var ids := Listing(sorting, contract.operations);
    if |ids| > 0 {
      var rows := Rows(sorting, columns, contract.operations, ids);
      CsvRoundTripIff(Header(columns), rows);
      assert ShowsInOrder(sorting, columns, contract.operations, ids, rows);
      assert ParseCsv(BuildContractCsv(sorting, columns, contract).csv) == Some([Header(columns)] + rows);
    }
  }

  lemma SameRowsSameCells(
    sorting: Sorting, columns: seq<Column>, c: map<string, Operation>, ids: seq<string>, d: map<string, Operation>,
    others: seq<string>, rows: seq<Row>)
    requires columns != [] && columns[0] == OperationId
    requires ShowsInOrder(sorting, columns, c, ids, rows) && ShowsInOrder(sorting, columns, d, others, rows)
    ensures ids == others
    ensures forall i, k | 0 <= i < |ids| && 0 <= k < |columns| ::
      Cell(sorting, columns[k], c[ids[i]], ids[i]) == Cell(sorting, columns[k], d[ids[i]], ids[i])
  {
    forall i | 0 <= i < |ids| ensures ids[i] == others[i] {
      assert rows[i][0] == Cell(sorting, columns[0], c[ids[i]], ids[i]) == ids[i];
      assert rows[i][0] == Cell(sorting, columns[0], d[others[i]], others[i]) == others[i];
    }
    forall i, k | 0 <= i < |ids| && 0 <= k < |columns|
      ensures Cell(sorting, columns[k], c[ids[i]], ids[i]) == Cell(sorting, columns[k], d[ids[i]], ids[i]) {
      assert rows[i][k] == Cell(sorting, columns[k], c[ids[i]], ids[i]);
      assert rows[i][k] == Cell(sorting, columns[k], d[others[i]], others[i]);
    }
  }

  /** The operations show the same cells under the same id. */
  ghost predicate SameCells(
    sorting: Sorting, columns: seq<Column>, c: map<string, Operation>, d: map<string, Operation>) {
    && c.Keys == d.Keys
    && forall id, k | id in c && 0 <= k < |columns| ::
       Cell(sorting, columns[k], c[id], id) == Cell(sorting, columns[k], d[id], id)
  }

  lemma SameTableSameCells(
    sorting: Sorting, columns: seq<Column>, c: map<string, Operation>, ids: seq<string>, d: map<string, Operation>,
    others: seq<string>, rows: seq<Row>)
    requires columns != [] && columns[0] == OperationId
    requires ShowsInOrder(sorting, columns, c, ids, rows) && ShowsInOrder(sorting, columns, d, others, rows)
    requires (forall id :: id in ids <==> id in c) && (forall id :: id in others <==> id in d)
    ensures SameCells(sorting, columns, c, d)
  {
    SameRowsSameCells(sorting, columns, c, ids, d, others, rows);
    assert forall id :: id in c <==> id in d;
    forall id, k | id in c && 0 <= k < |columns|
      ensures Cell(sorting, columns[k], c[id], id) == Cell(sorting, columns[k], d[id], id) {
      var i :| 0 <= i < |ids| && ids[i] == id;
    }
  }

  lemma SameTail(header: Row, rows: seq<Row>, more: seq<Row>)
    requires [header] + rows == [header] + more
    ensures rows == more
  {
    assert rows == ([header] + rows)[1..] == ([header] + more)[1..] == more;
  }

  /** The text determines the operation ids and, for each of them, every cell. */
  lemma SameTextSameCells(sorting: Sorting, columns: seq<Column>, c: Contract, d: Contract)
    requires IsSorting(sorting) && columns != [] && columns[0] == OperationId
    requires c.operations != map[] && d.operations != map[]
    requires BuildContractCsv(sorting, columns, c).csv == BuildContractCsv(sorting, columns, d).csv
    ensures SameCells(sorting, columns, c.operations, d.operations)
  {
    ExportShowsEveryOperation(sorting, columns, c);
    ExportShowsEveryOperation(sorting, columns, d);
    var ids, others := sorting.byLocale(c.operations.Keys), sorting.byLocale(d.operations.Keys);
    var text := BuildContractCsv(sorting, columns, c).csv;
    var rows: seq<Row> :| ParseCsv(text) == Some([Header(columns)] + rows) &&
      ShowsInOrder(sorting, columns, c.operations, ids, rows);
    var more: seq<Row> :| ParseCsv(text) == Some([Header(columns)] + more) &&
      ShowsInOrder(sorting, columns, d.operations, others, more);
    SameTail(Header(columns), rows, more);
    SameTableSameCells(sorting, columns, c.operations, ids, d.operations, others, rows);
  }

  /** Every column there is, is exported. */
  lemma AllColumnsAreExported(c: Column)
    ensures exists k :: 0 <= k < |COLUMNS| && COLUMNS[k] == c
  {
    var k := match c
      case OperationId => 0 case Verb => 1 case Path => 2 case PathParams => 3 case PathParamsUnverified => 4
      case BodyKnown => 5 case RequestBodyRequired => 6 case RequestBodyFields => 7 case ResponseFields => 8
      case ErrorFields => 9
      case ProvenanceColumn => 10 case SummaryColumn => 11 case Tags => 12 case Security => 13;
    assert COLUMNS[k] == c;
  }

  lemma CellsTellApart(sorting: Sorting, a: Operation, b: Operation, id: string)
    requires forall c: Column :: Cell(sorting, c, a, id) == Cell(sorting, c, b, id)
    ensures a.verb == b.verb && a.path == b.path && a.body == b.body && a.provenance == b.provenance
  {
    assert Cell(sorting, Verb, a, id) == a.verb && Cell(sorting, Verb, b, id) == b.verb;
    assert Cell(sorting, Path, a, id) == a.path && Cell(sorting, Path, b, id) == b.path;
    assert Cell(sorting, BodyKnown, a, id) == BodyCell(a.body) && Cell(sorting, BodyKnown, b, id) == BodyCell(b.body);
    assert Cell(sorting, ProvenanceColumn, a, id) == ProvenanceCell(a.provenance);
    assert Cell(sorting, ProvenanceColumn, b, id) == ProvenanceCell(b.provenance);
  }

  lemma AllCellsAgree(sorting: Sorting, c: map<string, Operation>, d: map<string, Operation>)
    requires SameCells(sorting, COLUMNS, c, d)
    ensures forall id, column: Column | id in c :: Cell(sorting, column, c[id], id) == Cell(sorting, column, d[id], id)
    ensures forall id | id in c ::
      && c[id].verb == d[id].verb && c[id].path == d[id].path && c[id].body == d[id].body
      && c[id].provenance == d[id].provenance
  {
    forall id, column: Column | id in c ensures Cell(sorting, column, c[id], id) == Cell(sorting, column, d[id], id) {
      AllColumnsAreExported(column);
      var k :| 0 <= k < |COLUMNS| && COLUMNS[k] == column;
    }
    forall id | id in c
      ensures c[id].verb == d[id].verb && c[id].path == d[id].path && c[id].body == d[id].body &&
        c[id].provenance == d[id].provenance
    {
      CellsTellApart(sorting, c[id], d[id], id);
    }
  }

  /** With the fourteen columns in use the text determines the operation ids and, for each of them, verb,
      path, what is known of its body, its provenance, and every other cell. */
  lemma TextDeterminesOperations(sorting: Sorting, c: Contract, d: Contract)
    requires IsSorting(sorting) && c.operations != map[] && d.operations != map[]
    requires BuildContractCsv(sorting, COLUMNS, c).csv == BuildContractCsv(sorting, COLUMNS, d).csv
    ensures c.operations.Keys == d.operations.Keys
    ensures forall id, column: Column | id in c.operations ::
      Cell(sorting, column, c.operations[id], id) == Cell(sorting, column, d.operations[id], id)
    ensures forall id | id in c.operations ::
      var a, b := c.operations[id], d.operations[id];
      a.verb == b.verb && a.path == b.path && a.body == b.body && a.provenance == b.provenance
  {
    assert COLUMNS[0] == OperationId;
    SameTextSameCells(sorting, COLUMNS, c, d);
    AllCellsAgree(sorting, c.operations, d.operations);
  }

  predicate AllBlank(rows: seq<Row>, i: nat)
    requires forall row :: row in rows ==> i < |row|
  {
    forall row :: row in rows ==> row[i] == ""
  }

  lemma PopulatedIff(rows: seq<Row>, i: nat)
    requires forall row :: row in rows ==> i < |row|
    ensures Populated(rows, i) == 0 <==> AllBlank(rows, i)
  {
    var kept := Filter((row: Row) => i < |row| && row[i] != "", rows);
    if |kept| > 0 {
      assert kept[0] in kept;
    }
    forall row | row in rows && row[i] != "" ensures row in kept {
    }
  }

  lemma {:induction false} EmptyColumnsAre(columns: seq<Column>, counts: seq<nat>, c: Column)
    requires |columns| == |counts|
    ensures c in EmptyColumns(columns, counts) <==> exists i | 0 <= i < |columns| :: columns[i] == c && counts[i] == 0
  {
    if columns != [] {
      EmptyColumnsAre(columns[1..], counts[1..], c);
      if i :| 0 <= i < |columns| && columns[i] == c && counts[i] == 0 {
        assert i > 0 ==> columns[1..][i - 1] == c && counts[1..][i - 1] == 0;
      }
    }
  }

  /** A column is blank in all rows iff its cell is blank for all operations. */
  lemma BlankColumnIff(
    sorting: Sorting, columns: seq<Column>, operations: map<string, Operation>, ids: seq<string>, i: nat)
    requires i < |columns| && (forall x :: x in ids <==> x in operations) && forall k | 0 <= k < |ids| ::
      ids[k] in operations
    ensures var rows := Rows(sorting, columns, operations, ids);
      && (forall row :: row in rows ==> i < |row|)
      && (AllBlank(rows, i) <==> forall id :: id in operations ==> Cell(sorting, columns[i], operations[id], id) == "")
  {
    var rows := Rows(sorting, columns, operations, ids);
    forall k | 0 <= k < |ids| ensures i < |rows[k]| &&
      rows[k][i] == Cell(sorting, columns[i], operations[ids[k]], ids[k]) {
    }
    forall id | id in operations && AllBlank(rows, i) ensures Cell(sorting, columns[i], operations[id], id) == "" {
      var k :| 0 <= k < |ids| && ids[k] == id;
      assert rows[k] in rows;
    }
  }

  /** A column is reported as empty iff no operation has anything to show in it. */
  lemma EmptyColumnIff(sorting: Sorting, columns: seq<Column>, contract: Contract, c: Column)
    requires IsSorting(sorting) && c in columns && contract.operations != map[]
    ensures var e := BuildContractCsv(sorting, columns, contract);
      e.Exported? && (c in e.emptyColumns <==>
      forall id :: id in contract.operations ==> Cell(sorting, c, contract.operations[id], id) == "")
  {
    var ids := Listing(sorting, contract.operations);
    var rows := Rows(sorting, columns, contract.operations, ids);
    EmptyColumnsAre(columns, PopulatedRows(columns, rows), c);
    forall i | 0 <= i < |columns| && columns[i] == c
      ensures Populated(rows, i) == 0 <==>
        forall id :: id in contract.operations ==> Cell(sorting, c, contract.operations[id], id) == ""
    {
      BlankColumnIff(sorting, columns, contract.operations, ids, i);
      PopulatedIff(rows, i);
    }
    var i :| 0 <= i < |columns| && columns[i] == c;
  }

  /** For each of the fourteen columns: it is reported as empty iff no operation has anything to show. */
  lemma ContractColumnEmptyIff(sorting: Sorting, contract: Contract, c: Column)
    requires IsSorting(sorting) && contract.operations != map[]
    ensures var e := BuildContractCsv(sorting, COLUMNS, contract);
      e.Exported? && (c in e.emptyColumns <==>
      forall id :: id in contract.operations ==> Cell(sorting, c, contract.operations[id], id) == "")
  {
    AllColumnsAreExported(c);
    EmptyColumnIff(sorting, COLUMNS, contract, c);
  }
}
