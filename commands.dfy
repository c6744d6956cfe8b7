/** What `Parser::parseQuery` does, as a function of the database, the files
    it can open and the query's whitespace-separated tokens: the reply it
    prints (or the exception it throws), the database it leaves and the
    files it leaves. None marks a query on which the source has undefined
    behaviour. */
module Commands {
  import opened Wrappers
  import opened Strings
  import opened Schema
  import opened Where
  import opened OrderBy
  import opened Rows
  import opened Persistence
  import opened Store

  /** What a command prints on success. A selection is the table's name, the
      columns shown, the rows that passed WHERE in table order, and the
      ORDER_BY keys when there is an ORDER_BY clause; the rows are printed
      after being sorted by those keys. */
  datatype Reply =
    | Done
    | Names(names: string)
    | Size(count: nat)
    | Selection(table: string, header: seq<string>, rows: seq<nat>, order: Option<seq<SortKey>>)

  datatype Outcome = Outcome(result: Result<Reply, Error>, db: DbState, files: map<string, string>)

  function Fail(e: Error, db: DbState, files: map<string, string>): Outcome {
    Outcome(Err(e), db, files)
  }

  /** The token at position i: a `>>` past the last token fails and leaves
      the (fresh, empty) string it reads into as it was. */
  function Tok(ts: seq<string>, i: nat): string {
    if i < |ts| then ts[i] else ""
  }

  /** The tokens from position i on, as `while (stream >> value)` collects them. */
  function Rest(ts: seq<string>, i: nat): seq<string> {
    if i <= |ts| then ts[i..] else []
  }

  function TableNames(tables: seq<Table>): seq<string> {
    seq(|tables|, i requires 0 <= i < |tables| => tables[i].name)
  }

  function ColumnNames(t: Table): seq<string> {
    seq(|t.columns|, j requires 0 <= j < |t.columns| => t.columns[j].name)
  }

  /** A column of `n` empty cells, the back-fill of ADD_COLUMN. */
  function Blank(n: nat): seq<string> {
    seq(n, _ => "")
  }

  // ---------------------------------------------------------------------------
  // Table commands

  /** The `name type` pairs of CREATE_TABLE from token `pos` on; a lone
      last token is read and dropped. */
  function Declared(ts: seq<string>, pos: nat): seq<Column>
    decreases |ts| - pos
  {
    if pos + 2 > |ts| then [] else [NewColumn(ts[pos], TypeOfToken(ts[pos + 1]))] + Declared(ts, pos + 2)
  }

  /** CREATE_TABLE name [column type]... */
  function CreateTable(db: DbState, files: map<string, string>, ts: seq<string>): Outcome {
    var name := Tok(ts, 1);
    var columns := Declared(ts, 2);
    if TableExists(db.tables, name) then Fail(TableAlreadyExists(name), db, files)
    else if !DistinctNames(columns) then Fail(DuplicateColumnNames, db, files)
    else Outcome(Ok(Done), db.(tables := db.tables + [Table(name, columns)]), files)
  }

  /** RENAME_TABLE old new */
  function RenameTable(db: DbState, files: map<string, string>, ts: seq<string>): Outcome {
    var oldName := Tok(ts, 1);
    var newName := Tok(ts, 2);
    if !TableExists(db.tables, oldName) then Fail(NoSuchTable(oldName), db, files)
    else if TableExists(db.tables, newName) then Fail(TableAlreadyExists(newName), db, files)
    else
      var k := TableIndex(db.tables, oldName);
      Outcome(Ok(Done), db.(tables := db.tables[k := db.tables[k].(name := newName)]), files)
  }

  /** DROP_TABLE name */
  function DropTable(db: DbState, files: map<string, string>, ts: seq<string>): Outcome {
    var name := Tok(ts, 1);
    if !TableExists(db.tables, name) then Fail(NoSuchTable(name), db, files)
    else
      var k := TableIndex(db.tables, name);
      Outcome(Ok(Done), db.(tables := db.tables[..k] + db.tables[k + 1..]), files)
  }

  // ---------------------------------------------------------------------------
  // ALTER_TABLE name operation ...: each operation on the named table gives
  // the table it leaves and the exception it throws, if any.

  /** ADD_COLUMN column type: back-filled with "" up to the row count. */
  function AddColumnTo(t: Table, column: string, typeToken: string): (Table, Option<Error>) {
    if ColumnExists(t, column) then (t, Some(ColumnAlreadyExists(column)))
    else (t.(columns := t.columns + [Column(column, TypeOfToken(typeToken), Blank(RowCount(t)))]), None)
  }

  /** RENAME_COLUMN old new */
  function RenameColumnIn(t: Table, oldName: string, newName: string): (Table, Option<Error>) {
    if !ColumnExists(t, oldName) then (t, Some(NoSuchColumn(oldName)))
    else if ColumnExists(t, newName) then (t, Some(ColumnAlreadyExists(newName)))
    else
      var c := ColumnIndex(t.columns, oldName);
      (t.(columns := t.columns[c := t.columns[c].(name := newName)]), None)
  }

  /** DROP_COLUMN column */
  function DropColumnFrom(t: Table, column: string): (Table, Option<Error>) {
    if !ColumnExists(t, column) then (t, Some(NoSuchColumn(column)))
    else
      var c := ColumnIndex(t.columns, column);
      (t.(columns := t.columns[..c] + t.columns[c + 1..]), None)
  }

  /** The first position from i on where a NUMBER column is given a value
      `std::stod` rejects, or |columns| when there is none. */
  function FirstBad(columns: seq<Column>, row: seq<string>, i: nat): (f: nat)
    requires |row| == |columns| && i <= |columns|
    ensures i <= f <= |columns|
    ensures forall j :: i <= j < f ==> columns[j].ctype != Number || ParseNum(row[j]).Some?
    ensures f < |columns| ==> columns[f].ctype == Number && ParseNum(row[f]).None?
    decreases |columns| - i
  {
    if i == |columns| then i
    else if columns[i].ctype == Number && ParseNum(row[i]).None? then i
    else FirstBad(columns, row, i + 1)
  }

  /** INSERT_ROW value...: the arity and every NUMBER value are checked
      before the row is appended. */
  function InsertInto(t: Table, row: seq<string>): (Table, Option<Error>) {
    if |row| != |t.columns| then (t, Some(WrongArity(|row|, |t.columns|)))
    else
      var f := FirstBad(t.columns, row, 0);
      if f < |t.columns| then (t, Some(NotANumber(row[f], t.columns[f].name)))
      else (WithRow(t, row), None)
  }

  /** DELETE_ROW WHERE column op value: both the column and the value must
      be given and the column must exist; then the rows on which the
      condition holds go. None where `removeRow` indexes past a column. */
  function DeleteFrom(t: Table, condColumn: string, op: string, literal: string): Option<(Table, Option<Error>)> {
    if condColumn == "" || literal == "" then Some((t, Some(MissingCondition)))
    else if !ColumnExists(t, condColumn) then Some((t, Some(NoSuchColumn(condColumn))))
    else if !RemoveDefined(t, condColumn) then None
    else if FirstThrow(t, condColumn, op, literal, 0, RowCount(t)) < RowCount(t) then Some((t, Some(NumericParse)))
    else Some((Removed(t, condColumn, op, literal), None))
  }

  /** The operation, already upper-cased, applied to table t. UPDATE_ROW
      reads `column value WHERE condColumn op literal` and never looks at
      the WHERE token; nothing is checked before `updateRow`, so a missing
      column, or a missing condition column once the value has passed the
      type check, is undefined behaviour. */
  function AlterTable(t: Table, op: string, ts: seq<string>): Option<(Table, Option<Error>)> {
    if op == "ADD_COLUMN" then Some(AddColumnTo(t, Tok(ts, 3), Tok(ts, 4)))
    else if op == "RENAME_COLUMN" then Some(RenameColumnIn(t, Tok(ts, 3), Tok(ts, 4)))
    else if op == "DROP_COLUMN" then Some(DropColumnFrom(t, Tok(ts, 3)))
    else if op == "INSERT_ROW" then Some(InsertInto(t, Rest(ts, 3)))
    else if op == "UPDATE_ROW" then
      if UpdateDefined(t, Tok(ts, 3), Tok(ts, 4), Tok(ts, 6))
      then Some(Updated(t, Tok(ts, 3), Tok(ts, 4), Tok(ts, 6), Tok(ts, 7), Tok(ts, 8)))
      else None
    else if op == "DELETE_ROW" then DeleteFrom(t, Tok(ts, 4), Tok(ts, 5), Tok(ts, 6))
    else Some((t, Some(UnknownOperation(op))))
  }

  /** ALTER_TABLE name operation ...: the table is looked up before the
      operation is. */
  function Alter(db: DbState, files: map<string, string>, ts: seq<string>): Option<Outcome> {
    var name := Tok(ts, 1);
    var op := Upper(Tok(ts, 2));
    if !TableExists(db.tables, name) then Some(Fail(NoSuchTable(name), db, files))
    else
      var k := TableIndex(db.tables, name);
      match AlterTable(db.tables[k], op, ts)
      case None => None
      case Some((t, e)) =>
        Some(Outcome(if e.None? then Ok(Done) else Err(e.value), db.(tables := db.tables[k := t]), files))
  }

  // ---------------------------------------------------------------------------
  // SELECT column... FROM table [WHERE ...] [ORDER_BY ...]

  /** The first FROM or from at or after position i, or |ts|. */
  function FromAt(ts: seq<string>, i: nat): (k: nat)
    requires i <= |ts|
    ensures i <= k <= |ts|
    ensures forall j :: i <= j < k ==> ts[j] != "FROM" && ts[j] != "from"
    ensures k < |ts| ==> ts[k] == "FROM" || ts[k] == "from"
    decreases |ts| - i
  {
    if i == |ts| || ts[i] == "FROM" || ts[i] == "from" then i else FromAt(ts, i + 1)
  }

  /** The first name from position i on that is not a column of t, or |names|. */
  function FirstMissing(t: Table, names: seq<string>, i: nat): (m: nat)
    requires i <= |names|
    ensures i <= m <= |names|
    ensures forall j :: i <= j < m ==> ColumnExists(t, names[j])
    ensures m < |names| ==> !ColumnExists(t, names[m])
    decreases |names| - i
  {
    if i == |names| || !ColumnExists(t, names[i]) then i else FirstMissing(t, names, i + 1)
  }

  /** The columns shown: the listed ones, or every column for a lone `*`. */
  function Header(t: Table, listed: seq<string>): seq<string> {
    if listed == ["*"] then ColumnNames(t) else listed
  }

  /** The optional ORDER_BY (or order_by) at token `pos`. */
  function OrderPart(t: Table, name: string, header: seq<string>, ts: seq<string>, pos: nat, rows: seq<nat>): Result<Reply, Error> {
    if Tok(ts, pos) == "ORDER_BY" || Tok(ts, pos) == "order_by" then
      match ScanOrderBy(t, ts, pos + 1, [])
      case Err(e) => Err(e)
      case Ok(keys) => Ok(Selection(name, header, rows, Some(keys)))
    else Ok(Selection(name, header, rows, None))
  }

  /** `parseSelectQuery` on the tokens after SELECT: the listed columns up
      to FROM, the table after it, and every listed column checked. Rows
      must exist in every column, as the filter, the sort and the printing
      index them. */
  function Select(db: DbState, ts: seq<string>): Option<Result<Reply, Error>>
    requires ts != []
  {
    var k := FromAt(ts, 1);
    var name := Tok(ts, k + 1);
    if !TableExists(db.tables, name) then Some(Err(NoSuchTable(name)))
    else
      var t := GetTable(db.tables, name);
      var header := Header(t, ts[1..k]);
      var m := FirstMissing(t, header, 0);
      if m < |header| then Some(Err(NoSuchColumn(header[m])))
      else if t.columns == [] || !Covered(t) then None
      else Filter(t, name, header, ts, k + 2)
  }

  /** Once the table and every listed column are found, a defined SELECT
      is one on a table with columns and all its rows, and it goes on to
      the filter. */
  lemma SelectFilters(db: DbState, ts: seq<string>)
    requires ts != [] && Select(db, ts).Some?
    requires var k := FromAt(ts, 1);
      TableExists(db.tables, Tok(ts, k + 1))
      && var t := GetTable(db.tables, Tok(ts, k + 1));
      FirstMissing(t, Header(t, ts[1..k]), 0) == |Header(t, ts[1..k])|
    ensures var k := FromAt(ts, 1);
      var t := GetTable(db.tables, Tok(ts, k + 1));
      t.columns != [] && Covered(t)
      && Select(db, ts) == Filter(t, Tok(ts, k + 1), Header(t, ts[1..k]), ts, k + 2)
  {
  }

  /** The rest of `parseSelectQuery` from token `pos`: every row below the
      row count, then the optional WHERE (or where), then the optional
      ORDER_BY. */
  function Filter(t: Table, name: string, header: seq<string>, ts: seq<string>, pos: nat): (f: Option<Result<Reply, Error>>)
    requires Covered(t)
    ensures f.Some? && f.value.Ok? ==> f.value.value.Selection? && f.value.value.table == name && f.value.value.header == header
  {
    var rows := Iota(0, RowCount(t));
    assert AllInRange(t, rows);
    if Tok(ts, pos) == "WHERE" || Tok(ts, pos) == "where" then
      if !WhereDefined(t, ts, pos + 1, rows) then None
      else match WhereQuery(t, ts, pos + 1, rows)
        case Err(e) => Some(Err(e))
        case Ok((kept, next)) => Some(OrderPart(t, name, header, ts, next, kept))
    else Some(OrderPart(t, name, header, ts, pos, rows))
  }

  // ---------------------------------------------------------------------------
  // Files: a path names a text; an empty path cannot be opened, and a file
  // can be read only if it exists.

  /** WRITE_DATABASE path: the file holds every line of the database
      followed by a newline. */
  function Write(db: DbState, files: map<string, string>, path: string): Outcome {
    if path == "" then Fail(CannotOpen(path), db, files)
    else Outcome(Ok(Done), db, files[path := JoinLines(Serialize(db))])
  }

  /** READ_DATABASE path: the load replaces the database even when a count
      fails to parse part way. */
  function Read(db: DbState, files: map<string, string>, path: string): Outcome {
    if path == "" || path !in files then Fail(CannotOpen(path), db, files)
    else
      var load := Parse(SplitLines(files[path]));
      Outcome(if load.complete then Ok(Done) else Err(MalformedFile), load.db, files)
  }

  // ---------------------------------------------------------------------------
  // The dispatcher

  /** `parseQuery`: the command is upper-cased before it is matched. */
  function Exec(db: DbState, files: map<string, string>, ts: seq<string>): Option<Outcome> {
    var command := Upper(Tok(ts, 0));
    if command == "CREATE_TABLE" then Some(CreateTable(db, files, ts))
    else if command == "RENAME_TABLE" then Some(RenameTable(db, files, ts))
    else if command == "DROP_TABLE" then Some(DropTable(db, files, ts))
    else if command == "ALTER_TABLE" then Alter(db, files, ts)
    else if command == "SELECT" then
      (match Select(db, ts)
       case None => None
       case Some(r) => Some(Outcome(r, db, files)))
    else Some(Other(db, files, command, ts))
  }

  /** The commands that do not change tables in place: files, listings,
      counts and the database's name. */
  function Other(db: DbState, files: map<string, string>, command: string, ts: seq<string>): (o: Outcome)
    ensures o.result.Ok? ==> !o.result.value.Selection?
  {
    if command == "WRITE_DATABASE" then Write(db, files, Tok(ts, 1))
    else if command == "READ_DATABASE" then Read(db, files, Tok(ts, 1))
    else if command == "RENAME_DATABASE" then
      Outcome(Ok(Done), if |ts| >= 2 then db.(name := ts[1]) else db, files)
    else Outcome(Info(db, command, ts), db, files)
  }

  /** The commands that only report on the database: the table names, a
      table's column names, and their counts. Any other command word is
      unknown. */
  function Info(db: DbState, command: string, ts: seq<string>): (r: Result<Reply, Error>)
    ensures r.Ok? ==> r.value.Names? || r.value.Size?
  {
    if command == "TABLES_NAMES" then
      var names := JoinNames(TableNames(db.tables));
      if names == "" then Err(NoTables) else Ok(Names(names))
    else if command == "COLUMNS_NAMES" then
      var name := Tok(ts, 1);
      if !TableExists(db.tables, name) then Err(NoSuchTable(name))
      else
        var names := JoinNames(ColumnNames(GetTable(db.tables, name)));
        if names == "" then Err(NoColumns) else Ok(Names(names))
    else if command == "TABLES_COUNT" then Ok(Size(|db.tables|))
    else if command == "COLUMNS_COUNT" then
      var name := Tok(ts, 1);
      if !TableExists(db.tables, name) then Err(NoSuchTable(name))
      else Ok(Size(|GetTable(db.tables, name).columns|))
    else Err(UnknownCommand(command))
  }


  // ---------------------------------------------------------------------------
  // What a run of parseQuery may print, given what Exec says

  /** A sorted selection: the rows shown are a permutation of the rows that
      passed WHERE in which no row comes right after one the comparator puts
      behind it, or the sort threw on a pair of those rows. */
  predicate SortedSelection(t: Table, name: string, header: seq<string>, rows: seq<nat>, keys: seq<SortKey>, r: Result<Reply, Error>) {
    KeysValid(t, keys) && AllInRange(t, rows)
    && ((r.Ok? && r.value.Selection? && r.value == Selection(name, header, r.value.rows, Some(keys))
         && multiset(r.value.rows) == multiset(rows) && AllInRange(t, r.value.rows) && Sorted(t, keys, r.value.rows))
        || (r == Err(NumericParse) && SomePairThrows(t, keys, multiset(rows))))
  }

  /** `r` is a result SELECT can give on table t when `expected` is what
      Exec gives: the same, except that a selection with ORDER_BY may come
      out in any sorted order. */
  predicate ShowsIn(t: Table, expected: Result<Reply, Error>, r: Result<Reply, Error>) {
    match expected
    case Ok(Selection(name, header, rows, Some(keys))) => SortedSelection(t, name, header, rows, keys, r)
    case _ => r == expected
  }

  /** `r` is a result the query can give on the database db when `expected`
      is what Exec gives. */
  predicate Shows(db: DbState, expected: Result<Reply, Error>, r: Result<Reply, Error>) {
    match expected
    case Ok(Selection(name, _, _, Some(_))) => TableExists(db.tables, name) && ShowsIn(GetTable(db.tables, name), expected, r)
    case _ => r == expected
  }

  /** A run of parseQuery on `before` agrees with the outcome `o`. */
  predicate Agrees(before: DbState, o: Outcome, r: Result<Reply, Error>, after: DbState, files: map<string, string>) {
    after == o.db && files == o.files && Shows(before, o.result, r)
  }
}
