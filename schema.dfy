/** The data layout of db/db.hpp: a column is a name, a TEXT|NUMBER tag and a
    sequence of cells kept as text; a table is a name and an ordered sequence
    of columns; a row is only a position shared by the columns. Also the
    `Utils` lookups over them and the failures the engine reports. */
module Schema {
  import opened Wrappers
  import opened Strings

  /** `ColumnType`: TEXT is 0 and NUMBER is 1. */
  datatype ColumnType = Text | Number

  /** The integer `static_cast<int>` gives, as the persistence format writes it. */
  function TypeCode(t: ColumnType): (code: nat)
    ensures code <= 1
    ensures TypeOfCode(code) == t
  {
    match t
    case Text => 0
    case Number => 1
  }

  /** `static_cast<ColumnType>(code)`. Every check in the engine compares a
      type against NUMBER, so a code other than 1 behaves as TEXT. */
  function TypeOfCode(code: int): ColumnType {
    if code == 1 then Number else Text
  }

  /** The type token of CREATE_TABLE and ADD_COLUMN: NUMBER in any letter
      case; any other token, or none, gives TEXT. */
  function TypeOfToken(token: string): ColumnType {
    if Upper(token) == "NUMBER" then Number else Text
  }

  datatype Column = Column(name: string, ctype: ColumnType, data: seq<string>)

  datatype Table = Table(name: string, columns: seq<Column>)

  /** The contents of a `Database`: its name and its ordered tables. */
  datatype DbState = DbState(name: string, tables: seq<Table>)

  /** A column declared with only a name and a type holds no cell. */
  function NewColumn(name: string, ctype: ColumnType): (c: Column)
    ensures c.name == name && c.ctype == ctype && |c.data| == 0
  {
    Column(name, ctype, [])
  }

  // ---------------------------------------------------------------------------
  // Lookups: std::ranges::find_if over the ordered sequences

  /** `getTable`: the position of the first table so named, or |tables| (the
      end iterator) when there is none. */
  function TableIndex(tables: seq<Table>, name: string): (i: nat)
    ensures i <= |tables|
    ensures i < |tables| ==> tables[i].name == name
    ensures forall j :: 0 <= j < i ==> tables[j].name != name
  {
    if tables == [] then 0
    else if tables[0].name == name then 0
    else 1 + TableIndex(tables[1..], name)
  }

  /** `tableExists`. */
  predicate TableExists(tables: seq<Table>, name: string) {
    TableIndex(tables, name) < |tables|
  }

  lemma TableExistsIff(tables: seq<Table>, name: string)
    ensures TableExists(tables, name) <==> exists j :: 0 <= j < |tables| && tables[j].name == name
  {
  }

  /** The table `*getTable(database, name)` denotes. */
  function GetTable(tables: seq<Table>, name: string): Table
    requires TableExists(tables, name)
  {
    tables[TableIndex(tables, name)]
  }

  /** `getColumn`: the position of the first column so named, or |columns|. */
  function ColumnIndex(columns: seq<Column>, name: string): (i: nat)
    ensures i <= |columns|
    ensures i < |columns| ==> columns[i].name == name
    ensures forall j :: 0 <= j < i ==> columns[j].name != name
  {
    if columns == [] then 0
    else if columns[0].name == name then 0
    else 1 + ColumnIndex(columns[1..], name)
  }

  /** `columnExists`. */
  predicate ColumnExists(t: Table, name: string) {
    ColumnIndex(t.columns, name) < |t.columns|
  }

  /** The column `*getColumn(table, name)` denotes. */
  function GetColumn(t: Table, name: string): Column
    requires ColumnExists(t, name)
  {
    t.columns[ColumnIndex(t.columns, name)]
  }

  /** No two columns share a name. */
  predicate DistinctNames(columns: seq<Column>) {
    forall i, j :: 0 <= i < j < |columns| ==> columns[i].name != columns[j].name
  }

  /** A prefix grows by a column whose name it lacks: distinct names stay
      distinct, and a repeat stays a repeat. */
  lemma DistinctExtend(columns: seq<Column>, i: nat)
    requires i < |columns|
    requires forall j :: 0 <= j < i ==> columns[j].name != columns[i].name
    ensures DistinctNames(columns[..i + 1]) <==> DistinctNames(columns[..i])
  {
    var a, b := columns[..i], columns[..i + 1];
    assert forall k :: 0 <= k < i ==> b[k] == a[k];
    assert b[i] == columns[i];
  }

  /** `uniqueColumns`: collect the names in a vector and in a set, and
      compare their sizes. */
  method UniqueColumns(columns: seq<Column>) returns (unique: bool)
    ensures unique <==> DistinctNames(columns)
  {
    var names: seq<string> := [];
    var seen: set<string> := {};
    for i := 0 to |columns|
      invariant |names| == i
      invariant seen == set j | 0 <= j < i :: columns[j].name
      invariant |seen| <= i
      invariant |seen| == i <==> DistinctNames(columns[..i])
    {
      var name := columns[i].name;
      if name in seen {
        var j :| 0 <= j < i && columns[j].name == name;
        assert columns[..i + 1][j].name == columns[..i + 1][i].name;
      } else {
        DistinctExtend(columns, i);
      }
      names := names + [name];
      seen := seen + {name};
    }
    assert columns[..|columns|] == columns;
    unique := |names| == |seen|;
  }

  // ---------------------------------------------------------------------------
  // Rows

  /** The table's row count, read as the engine reads it: from its first column. */
  function RowCount(t: Table): nat {
    if t.columns == [] then 0 else |t.columns[0].data|
  }

  /** Every column holds the same number of cells. */
  predicate Aligned(t: Table) {
    forall j :: 0 <= j < |t.columns| ==> |t.columns[j].data| == RowCount(t)
  }

  /** No column is shorter than the first, so every row the engine counts
      (those below RowCount) is a position in every column. */
  predicate Covered(t: Table) {
    forall j :: 0 <= j < |t.columns| ==> RowCount(t) <= |t.columns[j].data|
  }

  /** `row` is a position in every column of the table. */
  predicate InRange(t: Table, row: nat) {
    forall j :: 0 <= j < |t.columns| ==> row < |t.columns[j].data|
  }

  /** Every row of the list is a position in every column. */
  predicate AllInRange(t: Table, rows: seq<nat>) {
    forall i :: 0 <= i < |rows| ==> InRange(t, rows[i])
  }

  predicate AllAligned(tables: seq<Table>) {
    forall i :: 0 <= i < |tables| ==> Aligned(tables[i])
  }

  // ---------------------------------------------------------------------------
  // Failures: the `std::invalid_argument` messages the engine throws, one
  // variant per message, carrying the names the message shows.

  datatype Error =
    | TableAlreadyExists(table: string)
    | NoSuchTable(table: string)
    | ColumnAlreadyExists(column: string)
    | NoSuchColumn(column: string)
    | DuplicateColumnNames
    | WrongArity(values: nat, columns: nat)
    | NotANumber(value: string, column: string)
    | BadOperator
    | BadDirection(direction: string)
    | MissingCondition
    | UnknownOperation(operation: string)
    | UnknownCommand(command: string)
    | NoTables
    | NoColumns
    /** `std::stod` threw while a stored cell or a literal was compared. */
    | NumericParse
    /** `std::stoi` threw on a count or type line of a database file. */
    | MalformedFile
    | CannotOpen(path: string)
}
