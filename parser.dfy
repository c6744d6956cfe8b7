/** `Db::Parser`: a reference to a database and the query methods that
    check a command and then change the database through its operations. */
module Query {
  import opened Wrappers
  import opened Strings
  import opened Schema
  import opened Where
  import opened OrderBy
  import opened Rows
  import opened Persistence
  import opened Store
  import opened Commands

  class Parser {
    const database: Database

    constructor(database: Database)
      ensures this.database == database
    {
      this.database := database;
    }

    /** `parseQuery`: one query, as its tokens, against the files there are.
        Returns what it prints or throws, and the files it leaves. */
    method ParseQuery(ts: seq<string>, files: map<string, string>) returns (r: Result<Reply, Error>, written: map<string, string>)
      requires Exec(database.Value(), files, ts).Some?
      modifies database
      ensures Agrees(old(database.Value()), Exec(old(database.Value()), files, ts).value, r, database.Value(), written)
    {
      var command := Upper(Tok(ts, 0));
      written := files;
      if command == "CREATE_TABLE" {
        r := CreateTableCommand(ts, files);
      } else if command == "RENAME_TABLE" {
        r := RenameTableCommand(ts, files);
      } else if command == "DROP_TABLE" {
        r := DropTableCommand(ts, files);
      } else if command == "ALTER_TABLE" {
        r := AlterTableCommand(ts, files);
      } else if command == "SELECT" {
        r := ParseSelect(ts);
      } else {
        r, written := OtherCommand(command, ts, files);
      }
    }

    /** The file, listing, count and renaming commands, and an unknown one. */
    method OtherCommand(command: string, ts: seq<string>, files: map<string, string>) returns (r: Result<Reply, Error>, written: map<string, string>)
      modifies database
      ensures Other(old(database.Value()), files, command, ts) == Outcome(r, database.Value(), written)
    {
      written := files;
      if command == "WRITE_DATABASE" {
        var path := Tok(ts, 1);
        if path == "" {
          r := Err(CannotOpen(path));
        } else {
          var lines := database.WriteToFile();
          written := files[path := JoinLines(lines)];
          r := Ok(Done);
        }
      } else if command == "READ_DATABASE" {
        var path := Tok(ts, 1);
        if path == "" || path !in files {
          r := Err(CannotOpen(path));
        } else {
          var complete := database.ReadFromFile(SplitLines(files[path]));
          r := if complete then Ok(Done) else Err(MalformedFile);
        }
      } else if command == "TABLES_NAMES" {
        var names := JoinedNames(TableNames(database.tables));
        r := if names == "" then Err(NoTables) else Ok(Names(names));
      } else if command == "COLUMNS_NAMES" {
        var name := Tok(ts, 1);
        if !TableExists(database.tables, name) {
          r := Err(NoSuchTable(name));
        } else {
          var names := JoinedNames(ColumnNames(database.tables[TableIndex(database.tables, name)]));
          r := if names == "" then Err(NoColumns) else Ok(Names(names));
        }
      } else if command == "TABLES_COUNT" {
        r := Ok(Size(|database.tables|));
      } else if command == "COLUMNS_COUNT" {
        var name := Tok(ts, 1);
        if !TableExists(database.tables, name) {
          r := Err(NoSuchTable(name));
        } else {
          r := Ok(Size(|database.tables[TableIndex(database.tables, name)].columns|));
        }
      } else if command == "RENAME_DATABASE" {
        if |ts| >= 2 {
          database.name := ts[1];
        }
        r := Ok(Done);
      } else {
        r := Err(UnknownCommand(command));
      }
    }

    /** CREATE_TABLE: the name must be new and the declared columns distinct. */
    method CreateTableCommand(ts: seq<string>, files: map<string, string>) returns (r: Result<Reply, Error>)
      modifies database
      ensures CreateTable(old(database.Value()), files, ts) == Outcome(r, database.Value(), files)
    {
      var name := Tok(ts, 1);
      if TableExists(database.tables, name) {
        return Err(TableAlreadyExists(name));
      }
      var columns := DeclaredColumns(ts);
      var unique := UniqueColumns(columns);
      if !unique {
        return Err(DuplicateColumnNames);
      }
      database.CreateTable(name, columns);
      r := Ok(Done);
    }

    /** RENAME_TABLE: the old name must exist and the new one must not. */
    method RenameTableCommand(ts: seq<string>, files: map<string, string>) returns (r: Result<Reply, Error>)
      modifies database
      ensures RenameTable(old(database.Value()), files, ts) == Outcome(r, database.Value(), files)
    {
      var oldName := Tok(ts, 1);
      if !TableExists(database.tables, oldName) {
        return Err(NoSuchTable(oldName));
      }
      var newName := Tok(ts, 2);
      if TableExists(database.tables, newName) {
        return Err(TableAlreadyExists(newName));
      }
      database.RenameTable(oldName, newName);
      r := Ok(Done);
    }

    /** DROP_TABLE: the name must exist. */
    method DropTableCommand(ts: seq<string>, files: map<string, string>) returns (r: Result<Reply, Error>)
      modifies database
      ensures DropTable(old(database.Value()), files, ts) == Outcome(r, database.Value(), files)
    {
      var name := Tok(ts, 1);
      if !TableExists(database.tables, name) {
        return Err(NoSuchTable(name));
      }
      database.DropTable(name);
      r := Ok(Done);
    }

    /** ALTER_TABLE: the table is looked up, then the operation is chosen. */
    method AlterTableCommand(ts: seq<string>, files: map<string, string>) returns (r: Result<Reply, Error>)
      requires Alter(database.Value(), files, ts).Some?
      modifies database
      ensures Alter(old(database.Value()), files, ts).value == Outcome(r, database.Value(), files)
    {
      var name := Tok(ts, 1);
      var op := Upper(Tok(ts, 2));
      if !TableExists(database.tables, name) {
        return Err(NoSuchTable(name));
      }
      var k := TableIndex(database.tables, name);
      var t := database.tables[k];
      assert database.tables[k := t] == database.tables;
      if op == "ADD_COLUMN" {
        var column := Tok(ts, 3);
        if ColumnExists(t, column) {
          return Err(ColumnAlreadyExists(column));
        }
        var data: seq<string> := [];
        if t.columns != [] && t.columns[0].data != [] {
          data := Blank(|t.columns[0].data|);
        }
        assert data == Blank(RowCount(t));
        database.AddColumn(name, Column(column, TypeOfToken(Tok(ts, 4)), data));
        r := Ok(Done);
      } else if op == "RENAME_COLUMN" {
        var oldName := Tok(ts, 3);
        if !ColumnExists(t, oldName) {
          return Err(NoSuchColumn(oldName));
        }
        var newName := Tok(ts, 4);
        if ColumnExists(t, newName) {
          return Err(ColumnAlreadyExists(newName));
        }
        database.RenameColumn(name, oldName, newName);
        r := Ok(Done);
      } else if op == "DROP_COLUMN" {
        var column := Tok(ts, 3);
        if !ColumnExists(t, column) {
          return Err(NoSuchColumn(column));
        }
        database.RemoveColumn(name, column);
        r := Ok(Done);
      } else if op == "INSERT_ROW" {
        r := InsertRowCommand(name, k, Rest(ts, 3));
      } else if op == "UPDATE_ROW" {
        var error := database.UpdateRow(name, Tok(ts, 3), Tok(ts, 4), Tok(ts, 6), Tok(ts, 7), Tok(ts, 8));
        r := if error.None? then Ok(Done) else Err(error.value);
      } else if op == "DELETE_ROW" {
        r := DeleteRowCommand(name, k, Tok(ts, 4), Tok(ts, 5), Tok(ts, 6));
      } else {
        r := Err(UnknownOperation(op));
      }
    }

    /** INSERT_ROW: the arity, then each NUMBER value, then the append. */
    method InsertRowCommand(name: string, k: nat, row: seq<string>)
        returns (r: Result<Reply, Error>)
      requires k == TableIndex(database.tables, name) && k < |database.tables|
      modifies database
      ensures var (t, e) := InsertInto(old(database.tables)[k], row);
        r == (if e.None? then Ok(Done) else Err(e.value))
        && database.Value() == old(database.Value()).(tables := old(database.tables)[k := t])
    {
      var t := database.tables[k];
      assert database.tables[k := t] == database.tables;
      if |row| != |t.columns| {
        return Err(WrongArity(|row|, |t.columns|));
      }
      var f := CheckRow(t.columns, row);
      if f < |t.columns| {
        return Err(NotANumber(row[f], t.columns[f].name));
      }
      database.InsertRow(name, row);
      r := Ok(Done);
    }

    /** DELETE_ROW: the condition must be complete and name a column. */
    method DeleteRowCommand(name: string, k: nat, condColumn: string, op: string, literal: string)
        returns (r: Result<Reply, Error>)
      requires k == TableIndex(database.tables, name) && k < |database.tables|
      requires DeleteFrom(database.tables[k], condColumn, op, literal).Some?
      modifies database
      ensures var (t, e) := DeleteFrom(old(database.tables)[k], condColumn, op, literal).value;
        r == (if e.None? then Ok(Done) else Err(e.value))
        && database.Value() == old(database.Value()).(tables := old(database.tables)[k := t])
    {
      var t := database.tables[k];
      assert database.tables[k := t] == database.tables;
      if condColumn == "" || literal == "" {
        return Err(MissingCondition);
      }
      if !ColumnExists(t, condColumn) {
        return Err(NoSuchColumn(condColumn));
      }
      var error := database.RemoveRow(name, condColumn, op, literal);
      r := if error.None? then Ok(Done) else Err(error.value);
    }

    /** `parseSelectQuery`: the listed columns up to FROM, the table, the
        check of every column, then WHERE and ORDER_BY on the row list. */
    method ParseSelect(ts: seq<string>) returns (r: Result<Reply, Error>)
      requires ts != [] && Select(database.Value(), ts).Some?
      ensures Shows(database.Value(), Select(database.Value(), ts).value, r)
    {
      var k := 1;
      while k < |ts| && ts[k] != "FROM" && ts[k] != "from"
        invariant 1 <= k <= |ts| && FromAt(ts, k) == FromAt(ts, 1)
      {
        k := k + 1;
      }
      assert k == FromAt(ts, k) == FromAt(ts, 1);
      var listed := ts[1..k];
      var name := Tok(ts, k + 1);
      if !TableExists(database.tables, name) {
        assert Select(database.Value(), ts) == Some(Err(NoSuchTable(name)));
        return Err(NoSuchTable(name));
      }
      var t := database.tables[TableIndex(database.tables, name)];
      var header := if listed == ["*"] then ColumnNames(t) else listed;
      assert t == GetTable(database.tables, name) && header == Header(t, listed);
      for i := 0 to |header|
        invariant FirstMissing(t, header, 0) == FirstMissing(t, header, i)
      {
        if !ColumnExists(t, header[i]) {
          assert Select(database.Value(), ts) == Some(Err(NoSuchColumn(header[i])));
          return Err(NoSuchColumn(header[i]));
        }
      }
      SelectFilters(database.Value(), ts);
      r := FilterRows(t, name, header, ts, k + 2);
    }

    /** The row list of parseSelectQuery: `0..n-1` for the n cells of the
        first column, filtered by WHERE, then sorted by ORDER_BY. */
    method FilterRows(t: Table, name: string, header: seq<string>, ts: seq<string>, pos: nat) returns (r: Result<Reply, Error>)
      requires t.columns != [] && Covered(t) && Filter(t, name, header, ts, pos).Some?
      ensures ShowsIn(t, Filter(t, name, header, ts, pos).value, r)
    {
      var rows := Iota(0, |t.columns[0].data|);
      assert AllInRange(t, rows);
      if Tok(ts, pos) == "WHERE" || Tok(ts, pos) == "where" {
        var filtered := ParseWhere(t, ts, pos + 1, rows);
        if filtered.Err? {
          return Err(filtered.error);
        }
        WhereQueryInRange(t, ts, pos + 1, rows);
        var (kept, next) := filtered.value;
        assert Filter(t, name, header, ts, pos) == Some(OrderPart(t, name, header, ts, next, kept));
        r := OrderRows(t, name, header, ts, next, kept);
      } else {
        r := OrderRows(t, name, header, ts, pos, rows);
      }
    }

    /** The optional ORDER_BY that ends parseSelectQuery. */
    method OrderRows(t: Table, name: string, header: seq<string>, ts: seq<string>, pos: nat, rows: seq<nat>) returns (r: Result<Reply, Error>)
      requires AllInRange(t, rows)
      ensures ShowsIn(t, OrderPart(t, name, header, ts, pos, rows), r)
    {
      if Tok(ts, pos) == "ORDER_BY" || Tok(ts, pos) == "order_by" {
        var a := new nat[|rows|](i requires 0 <= i < |rows| => rows[i]);
        assert a[..] == rows;
        var sorted := ParseOrderBy(t, ts, pos + 1, a);
        if sorted.Err? {
          return Err(sorted.error);
        }
        r := Ok(Selection(name, header, a[..], Some(sorted.value)));
      } else {
        r := Ok(Selection(name, header, rows, None));
      }
    }

    /** `parseWhereQuery`: the token loop reads and checks every triple
        before the row loop rebuilds the list. Returns the kept rows and the
        position of the first token left for ORDER_BY. */
    method ParseWhere(t: Table, ts: seq<string>, pos: nat, rows: seq<nat>) returns (r: Result<(seq<nat>, nat), Error>)
      requires pos <= |ts| && AllInRange(t, rows) && WhereDefined(t, ts, pos, rows)
      ensures r == WhereQuery(t, ts, pos, rows)
    {
      var scan := ReadClause(t, ts, pos);
      if scan.Err? {
        return Err(scan.error);
      }
      var (w, at) := scan.value;
      ScanWhereSound(t, ts, pos, Clause([], []));
      if rows == [] {
        return Ok(([], at));
      }
      var kept := KeepRows(t, w, rows);
      if kept.None? {
        return Err(NumericParse);
      }
      r := Ok((kept.value, at));
    }

    /** `parseOrderByQuery`: the pair loop reads and checks every key, then
        the rows are sorted in place. */
    method ParseOrderBy(t: Table, ts: seq<string>, pos: nat, rows: array<nat>) returns (r: Result<seq<SortKey>, Error>)
      requires pos <= |ts| && AllInRange(t, rows[..])
      modifies rows
      ensures var scan := ScanOrderBy(t, ts, pos, []);
        (scan.Err? ==> r == scan && rows[..] == old(rows[..]))
        && (scan.Ok? ==>
              KeysValid(t, scan.value) && multiset(rows[..]) == multiset(old(rows[..])) && AllInRange(t, rows[..])
              && ((r == scan && Sorted(t, scan.value, rows[..]))
                  || (r == Err(NumericParse) && SomePairThrows(t, scan.value, multiset(old(rows[..]))))))
    {
      var keys: seq<SortKey> := [];
      var at := pos;
      while |ts| - at >= 2
        invariant at <= |ts| && KeysValid(t, keys)
        invariant ScanOrderBy(t, ts, pos, []) == ScanOrderBy(t, ts, at, keys)
        decreases |ts| - at
      {
        var column := ts[at];
        var order := Upper(ts[at + 1]);
        if !ColumnExists(t, column) {
          return Err(NoSuchColumn(column));
        }
        if order == "ASC" || order == "DESC" {
          keys := keys + [SortKey(column, order == "ASC")];
        } else {
          return Err(BadDirection(order));
        }
        at := at + 2;
      }
      var ok := SortRows(t, keys, rows);
      r := if ok then Ok(keys) else Err(NumericParse);
    }
  }

  // ---------------------------------------------------------------------------
  // The inner loops

  /** The `while (stream >> columnName >> type)` loop of CREATE_TABLE. */
  method DeclaredColumns(ts: seq<string>) returns (columns: seq<Column>)
    ensures columns == Declared(ts, 2)
  {
    columns := [];
    var pos := 2;
    while pos + 2 <= |ts|
      invariant columns + Declared(ts, pos) == Declared(ts, 2)
      decreases |ts| - pos
    {
      columns := columns + [NewColumn(ts[pos], TypeOfToken(ts[pos + 1]))];
      pos := pos + 2;
    }
  }

  /** The type check loop of INSERT_ROW: the first NUMBER column whose value
      `std::stod` rejects. */
  method CheckRow(columns: seq<Column>, row: seq<string>) returns (f: nat)
    requires |row| == |columns|
    ensures f == FirstBad(columns, row, 0)
  {
    for i := 0 to |columns|
      invariant FirstBad(columns, row, 0) == FirstBad(columns, row, i)
    {
      if columns[i].ctype == Number && ParseNum(row[i]).None? {
        return i;
      }
    }
    f := |columns|;
  }

  /** `getNamesOfTables` / `getNamesOfColumns`: each name followed by a
      space, then the last character cut off. */
  method JoinedNames(names: seq<string>) returns (s: string)
    ensures s == JoinNames(names)
  {
    var all := "";
    for i := 0 to |names|
      invariant all == SpaceTerminated(names[..i])
    {
      assert names[..i + 1][..i] == names[..i];
      all := all + names[i] + " ";
    }
    assert names[..|names|] == names;
    s := if |all| == 0 then "" else all[..|all| - 1];
  }
}
