/** What the dispatcher promises across commands: a failed command leaves
    the database and the files as they were (apart from the two partial
    updates of the source), the checks keep a well-formed database
    well-formed, the undefined behaviour is confined to UPDATE_ROW and
    SELECT, and what WRITE_DATABASE writes READ_DATABASE reads back. */
module Properties {
  import opened Wrappers
  import opened Strings
  import opened Schema
  import opened Where
  import opened Rows
  import opened Persistence
  import opened Store
  import opened Commands

  // ---------------------------------------------------------------------------
  // Well-formed databases

  predicate DistinctTables(tables: seq<Table>) {
    forall i, j :: 0 <= i < j < |tables| ==> tables[i].name != tables[j].name
  }

  /** Distinct column names, and every column as long as the first. */
  predicate WellFormedTable(t: Table) {
    DistinctNames(t.columns) && Aligned(t)
  }

  predicate WellFormed(db: DbState) {
    DistinctTables(db.tables) && forall i :: 0 <= i < |db.tables| ==> WellFormedTable(db.tables[i])
  }

  /** Two column lists with the same names, position by position. */
  predicate SameNames(a: seq<Column>, b: seq<Column>) {
    |a| == |b| && forall j :: 0 <= j < |a| ==> a[j].name == b[j].name
  }

  lemma SameNamesDistinct(a: seq<Column>, b: seq<Column>)
    requires SameNames(a, b) && DistinctNames(a)
    ensures DistinctNames(b)
  {
    forall i, j | 0 <= i < j < |b| ensures b[i].name != b[j].name {
      assert a[i].name != a[j].name;
    }
  }

  /** A name no column has can be appended without a clash. */
  lemma AppendDistinct(columns: seq<Column>, c: Column)
    requires DistinctNames(columns) && ColumnIndex(columns, c.name) == |columns|
    ensures DistinctNames(columns + [c])
  {
  }

  /** Replacing one table by one of the same name keeps the names distinct. */
  lemma ReplaceTable(tables: seq<Table>, k: nat, t: Table)
    requires k < |tables| && t.name == tables[k].name && DistinctTables(tables)
    ensures DistinctTables(tables[k := t])
  {
  }

  // ---------------------------------------------------------------------------
  // CREATE_TABLE

  /** The declared columns come from the `name type` pairs in order, hold no
      cell, and a lone last token is dropped. */
  lemma {:induction false} DeclaredPairs(ts: seq<string>, pos: nat)
    requires pos <= |ts|
    ensures var cs := Declared(ts, pos);
      |cs| == (|ts| - pos) / 2
      && forall i :: 0 <= i < |cs| ==>
        cs[i].name == ts[pos + 2 * i] && cs[i].ctype == TypeOfToken(ts[pos + 2 * i + 1]) && cs[i].data == []
    decreases |ts| - pos
  {
    if pos + 2 <= |ts| {
      DeclaredPairs(ts, pos + 2);
      var cs := Declared(ts, pos);
      assert cs == [NewColumn(ts[pos], TypeOfToken(ts[pos + 1]))] + Declared(ts, pos + 2);
      forall i | 1 <= i < |cs|
        ensures cs[i].name == ts[pos + 2 * i] && cs[i].ctype == TypeOfToken(ts[pos + 2 * i + 1]) && cs[i].data == []
      {
        assert cs[i] == Declared(ts, pos + 2)[i - 1];
        assert pos + 2 + 2 * (i - 1) == pos + 2 * i;
      }
    }
  }

  /** A created table goes last, under a name no other table had, with the
      declared columns and no row. */
  lemma CreateTableEmpty(db: DbState, files: map<string, string>, ts: seq<string>)
    requires CreateTable(db, files, ts).result.Ok?
    ensures var o := CreateTable(db, files, ts);
      var t := o.db.tables[|db.tables|];
      |o.db.tables| == |db.tables| + 1 && o.db.tables[..|db.tables|] == db.tables
      && t.name == Tok(ts, 1) && !TableExists(db.tables, t.name)
      && t.columns == Declared(ts, 2) && DistinctNames(t.columns)
      && RowCount(t) == 0 && WellFormedTable(t)
  {
    if 2 <= |ts| {
      DeclaredPairs(ts, 2);
    }
  }

  // ---------------------------------------------------------------------------
  // ALTER_TABLE

  /** An operation that throws leaves the table untouched, except an
      UPDATE_ROW whose condition threw part way through. */
  lemma AlterFailureKeepsTable(t: Table, op: string, ts: seq<string>)
    requires AlterTable(t, op, ts).Some? && AlterTable(t, op, ts).value.1.Some?
    requires !(op == "UPDATE_ROW" && AlterTable(t, op, ts).value.1 == Some(NumericParse))
    ensures AlterTable(t, op, ts).value.0 == t
  {
  }

  /** ADD_COLUMN back-fills the new column with "" up to the row count, so
      an aligned table stays aligned and keeps its row count. */
  lemma AddColumnAligned(t: Table, column: string, typeToken: string)
    requires WellFormedTable(t) && !ColumnExists(t, column)
    ensures var r := AddColumnTo(t, column, typeToken).0;
      WellFormedTable(r) && r.name == t.name && RowCount(r) == RowCount(t)
      && r.columns[..|t.columns|] == t.columns
      && r.columns[|t.columns|] == Column(column, TypeOfToken(typeToken), Blank(RowCount(t)))
      && forall i :: 0 <= i < RowCount(t) ==> r.columns[|t.columns|].data[i] == ""
  {
    var r := AddColumnTo(t, column, typeToken).0;
    AppendDistinct(t.columns, Column(column, TypeOfToken(typeToken), Blank(RowCount(t))));
    assert r.columns[..|t.columns|] == t.columns;
  }

  /** INSERT_ROW appends only a row that has one value per column and a
      number for every NUMBER column. */
  lemma InsertChecks(t: Table, row: seq<string>)
    ensures InsertInto(t, row).1.None? <==>
      |row| == |t.columns| && forall j :: 0 <= j < |row| ==> t.columns[j].ctype == Number ==> ParseNum(row[j]).Some?
    ensures InsertInto(t, row).1.None? ==> InsertInto(t, row).0 == WithRow(t, row)
    ensures InsertInto(t, row).1.Some? ==> InsertInto(t, row).0 == t
  {
  }

  lemma RenameColumnKeepsWellFormed(t: Table, oldName: string, newName: string)
    requires WellFormedTable(t)
    ensures var r := RenameColumnIn(t, oldName, newName).0;
      WellFormedTable(r) && r.name == t.name
  {
    var r := RenameColumnIn(t, oldName, newName).0;
    if ColumnExists(t, oldName) && !ColumnExists(t, newName) {
      var c := ColumnIndex(t.columns, oldName);
      forall i, j | 0 <= i < j < |r.columns| ensures r.columns[i].name != r.columns[j].name {
        if i != c && j != c {
          assert r.columns[i].name == t.columns[i].name && r.columns[j].name == t.columns[j].name;
        }
      }
    }
  }

  lemma DropColumnKeepsWellFormed(t: Table, column: string)
    requires WellFormedTable(t)
    ensures var r := DropColumnFrom(t, column).0;
      WellFormedTable(r) && r.name == t.name
  {
    var r := DropColumnFrom(t, column).0;
    if ColumnExists(t, column) {
      var c := ColumnIndex(t.columns, column);
      forall i, j | 0 <= i < j < |r.columns| ensures r.columns[i].name != r.columns[j].name {
        var i' := if i < c then i else i + 1;
        var j' := if j < c then j else j + 1;
        assert r.columns[i] == t.columns[i'] && r.columns[j] == t.columns[j'];
      }
      if r.columns != [] {
        assert RowCount(r) == RowCount(t) by {
          if c == 0 {
            assert r.columns[0] == t.columns[1];
          }
        }
        forall j | 0 <= j < |r.columns| ensures |r.columns[j].data| == RowCount(r) {
          var j' := if j < c then j else j + 1;
          assert r.columns[j] == t.columns[j'];
        }
      }
    }
  }

  lemma InsertKeepsWellFormed(t: Table, row: seq<string>)
    requires WellFormedTable(t)
    ensures var r := InsertInto(t, row).0;
      WellFormedTable(r) && r.name == t.name
  {
    if InsertInto(t, row).1.None? {
      InsertAppends(t, row);
      SameNamesDistinct(t.columns, WithRow(t, row).columns);
    }
  }

  lemma UpdateKeepsWellFormed(t: Table, column: string, value: string, condColumn: string, op: string, literal: string)
    requires WellFormedTable(t) && UpdateDefined(t, column, value, condColumn)
    ensures var r := Updated(t, column, value, condColumn, op, literal).0;
      WellFormedTable(r) && r.name == t.name
  {
    UpdateKeepsShape(t, column, value, condColumn, op, literal);
    var r := Updated(t, column, value, condColumn, op, literal).0;
    assert SameNames(t.columns, r.columns);
    SameNamesDistinct(t.columns, r.columns);
  }

  lemma DeleteKeepsWellFormed(t: Table, condColumn: string, op: string, literal: string)
    requires WellFormedTable(t) && DeleteFrom(t, condColumn, op, literal).Some?
    ensures var r := DeleteFrom(t, condColumn, op, literal).value.0;
      WellFormedTable(r) && r.name == t.name
  {
    var (r, e) := DeleteFrom(t, condColumn, op, literal).value;
    if e.None? {
      RemoveKeepsSurvivors(t, condColumn, op, literal);
      assert SameNames(t.columns, r.columns);
      SameNamesDistinct(t.columns, r.columns);
    }
  }

  /** Every operation keeps a well-formed table well-formed and named as it was. */
  lemma AlterKeepsWellFormed(t: Table, op: string, ts: seq<string>)
    requires WellFormedTable(t) && AlterTable(t, op, ts).Some?
    ensures var r := AlterTable(t, op, ts).value.0;
      WellFormedTable(r) && r.name == t.name
  {
    if op == "ADD_COLUMN" {
      if !ColumnExists(t, Tok(ts, 3)) {
        AddColumnAligned(t, Tok(ts, 3), Tok(ts, 4));
      }
    } else if op == "RENAME_COLUMN" {
      RenameColumnKeepsWellFormed(t, Tok(ts, 3), Tok(ts, 4));
    } else if op == "DROP_COLUMN" {
      DropColumnKeepsWellFormed(t, Tok(ts, 3));
    } else if op == "INSERT_ROW" {
      InsertKeepsWellFormed(t, Rest(ts, 3));
    } else if op == "UPDATE_ROW" {
      UpdateKeepsWellFormed(t, Tok(ts, 3), Tok(ts, 4), Tok(ts, 6), Tok(ts, 7), Tok(ts, 8));
    } else if op == "DELETE_ROW" {
      DeleteKeepsWellFormed(t, Tok(ts, 4), Tok(ts, 5), Tok(ts, 6));
    }
  }

  // ---------------------------------------------------------------------------
  // The dispatcher

  /** The commands handled by Other change the tables only by loading a
      file, and a failure of theirs other than a partial load changes
      nothing. */
  lemma OtherKeepsTables(db: DbState, files: map<string, string>, command: string, ts: seq<string>)
    ensures command != "READ_DATABASE" ==> Other(db, files, command, ts).db.tables == db.tables
    ensures var o := Other(db, files, command, ts);
      o.result.Err? && o.result != Err(MalformedFile) ==> o.db == db && o.files == files
  {
    if command == "WRITE_DATABASE" {
      assert Other(db, files, command, ts) == Write(db, files, Tok(ts, 1));
    } else if command == "READ_DATABASE" {
      assert Other(db, files, command, ts) == Read(db, files, Tok(ts, 1));
    }
  }

  lemma AlterFailureKeepsState(db: DbState, files: map<string, string>, ts: seq<string>)
    requires Alter(db, files, ts).Some?
    requires var o := Alter(db, files, ts).value;
      o.result.Err? && !(Upper(Tok(ts, 2)) == "UPDATE_ROW" && o.result == Err(NumericParse))
    ensures Alter(db, files, ts).value.db == db && Alter(db, files, ts).value.files == files
  {
    var name := Tok(ts, 1);
    if TableExists(db.tables, name) {
      var k := TableIndex(db.tables, name);
      AlterFailureKeepsTable(db.tables[k], Upper(Tok(ts, 2)), ts);
      assert db.tables[k := db.tables[k]] == db.tables;
    }
  }

  /** A command that throws leaves the database and the files as they were.
      The two exceptions are the source's partial updates: UPDATE_ROW whose
      condition threw after earlier rows were written, and READ_DATABASE on
      a file whose counts fail to parse part way. */
  lemma FailureLeavesState(db: DbState, files: map<string, string>, ts: seq<string>)
    requires Exec(db, files, ts).Some?
    requires var o := Exec(db, files, ts).value;
      o.result.Err? && o.result != Err(MalformedFile)
      && !(Upper(Tok(ts, 2)) == "UPDATE_ROW" && o.result == Err(NumericParse))
    ensures Exec(db, files, ts).value.db == db && Exec(db, files, ts).value.files == files
  {
    var command := Upper(Tok(ts, 0));
    if command == "ALTER_TABLE" {
      assert Exec(db, files, ts) == Alter(db, files, ts);
      AlterFailureKeepsState(db, files, ts);
    } else if command !in {"CREATE_TABLE", "RENAME_TABLE", "DROP_TABLE", "SELECT"} {
      assert Exec(db, files, ts) == Some(Other(db, files, command, ts));
      OtherKeepsTables(db, files, command, ts);
    }
  }

  /** Only a WRITE_DATABASE that succeeds changes the files, and it changes
      exactly the file it names. */
  lemma OnlyWriteWrites(db: DbState, files: map<string, string>, ts: seq<string>)
    requires Exec(db, files, ts).Some? && Exec(db, files, ts).value.files != files
    ensures Upper(Tok(ts, 0)) == "WRITE_DATABASE" && Tok(ts, 1) != ""
    ensures Exec(db, files, ts).value == Outcome(Ok(Done), db, files[Tok(ts, 1) := JoinLines(Serialize(db))])
  {
    var command := Upper(Tok(ts, 0));
    TableCommandsKeepFiles(db, files, ts);
    if command !in {"CREATE_TABLE", "RENAME_TABLE", "DROP_TABLE", "ALTER_TABLE", "SELECT"} {
      assert Exec(db, files, ts) == Some(Other(db, files, command, ts));
      OtherKeepsFiles(db, files, command, ts);
    }
  }

  /** The table commands never touch the files. */
  lemma TableCommandsKeepFiles(db: DbState, files: map<string, string>, ts: seq<string>)
    ensures CreateTable(db, files, ts).files == files
    ensures RenameTable(db, files, ts).files == files
    ensures DropTable(db, files, ts).files == files
    ensures Alter(db, files, ts).Some? ==> Alter(db, files, ts).value.files == files
  {
  }

  /** Among the other commands only a WRITE_DATABASE that opens its file
      changes the files. */
  lemma OtherKeepsFiles(db: DbState, files: map<string, string>, command: string, ts: seq<string>)
    ensures var o := Other(db, files, command, ts);
      o.files == files ||
      (command == "WRITE_DATABASE" && Tok(ts, 1) != "" &&
       o == Outcome(Ok(Done), db, files[Tok(ts, 1) := JoinLines(Serialize(db))]))
  {
    if command == "WRITE_DATABASE" {
      assert Other(db, files, command, ts) == Write(db, files, Tok(ts, 1));
    } else if command == "READ_DATABASE" {
      assert Other(db, files, command, ts) == Read(db, files, Tok(ts, 1));
    }
  }

  lemma CreateKeepsWellFormed(db: DbState, files: map<string, string>, ts: seq<string>)
    requires WellFormed(db)
    ensures WellFormed(CreateTable(db, files, ts).db)
  {
    if CreateTable(db, files, ts).result.Ok? {
      CreateTableEmpty(db, files, ts);
      var name := Tok(ts, 1);
      assert forall j :: 0 <= j < |db.tables| ==> db.tables[j].name != name;
    }
  }

  lemma RenameKeepsWellFormed(db: DbState, files: map<string, string>, ts: seq<string>)
    requires WellFormed(db)
    ensures WellFormed(RenameTable(db, files, ts).db)
  {
    if RenameTable(db, files, ts).result.Ok? {
      var newName := Tok(ts, 2);
      assert forall j :: 0 <= j < |db.tables| ==> db.tables[j].name != newName;
    }
  }

  lemma DropKeepsWellFormed(db: DbState, files: map<string, string>, ts: seq<string>)
    requires WellFormed(db)
    ensures WellFormed(DropTable(db, files, ts).db)
  {
    var after := DropTable(db, files, ts).db;
    if DropTable(db, files, ts).result.Ok? {
      var k := TableIndex(db.tables, Tok(ts, 1));
      forall i, j | 0 <= i < j < |after.tables| ensures after.tables[i].name != after.tables[j].name {
        var i' := if i < k then i else i + 1;
        var j' := if j < k then j else j + 1;
        assert after.tables[i] == db.tables[i'] && after.tables[j] == db.tables[j'];
      }
      forall i | 0 <= i < |after.tables| ensures WellFormedTable(after.tables[i]) {
        var i' := if i < k then i else i + 1;
        assert after.tables[i] == db.tables[i'];
      }
    }
  }

  lemma AlterDbKeepsWellFormed(db: DbState, files: map<string, string>, ts: seq<string>)
    requires WellFormed(db) && Alter(db, files, ts).Some?
    ensures WellFormed(Alter(db, files, ts).value.db)
  {
    var name := Tok(ts, 1);
    if TableExists(db.tables, name) {
      var k := TableIndex(db.tables, name);
      var op := Upper(Tok(ts, 2));
      AlterKeepsWellFormed(db.tables[k], op, ts);
      var t := AlterTable(db.tables[k], op, ts).value.0;
      ReplaceTable(db.tables, k, t);
      assert Alter(db, files, ts).value.db.tables == db.tables[k := t];
    }
  }

  /** Every command but READ_DATABASE (which loads whatever the file holds)
      keeps a well-formed database well-formed, whether it succeeds or not. */
  lemma ExecKeepsWellFormed(db: DbState, files: map<string, string>, ts: seq<string>)
    requires WellFormed(db) && Exec(db, files, ts).Some?
    requires Upper(Tok(ts, 0)) != "READ_DATABASE"
    ensures WellFormed(Exec(db, files, ts).value.db)
  {
    var command := Upper(Tok(ts, 0));
    if command == "CREATE_TABLE" {
      CreateKeepsWellFormed(db, files, ts);
    } else if command == "RENAME_TABLE" {
      RenameKeepsWellFormed(db, files, ts);
    } else if command == "DROP_TABLE" {
      DropKeepsWellFormed(db, files, ts);
    } else if command == "ALTER_TABLE" {
      AlterDbKeepsWellFormed(db, files, ts);
    } else if command != "SELECT" {
      assert Exec(db, files, ts) == Some(Other(db, files, command, ts));
      OtherKeepsTables(db, files, command, ts);
    }
  }

  /** UPDATE_ROW with a value its NUMBER column rejects throws NotANumber
      and changes nothing, whether or not the condition column exists: the
      type check comes before the condition column is looked up. */
  lemma UpdateBadValueThrows(t: Table, ts: seq<string>)
    requires ColumnExists(t, Tok(ts, 3)) && !ValueFits(GetColumn(t, Tok(ts, 3)), Tok(ts, 4))
    ensures AlterTable(t, "UPDATE_ROW", ts) == Some((t, Some(NotANumber(Tok(ts, 4), Tok(ts, 3)))))
  {
  }

  /** On a well-formed database only two commands can reach undefined
      behaviour: UPDATE_ROW naming a column the table does not have, or a
      missing condition column once the value passed its type check, and
      SELECT. */
  lemma DefinedOnWellFormed(db: DbState, files: map<string, string>, ts: seq<string>)
    requires WellFormed(db) && Upper(Tok(ts, 0)) != "SELECT"
    requires Upper(Tok(ts, 0)) == "ALTER_TABLE" && Upper(Tok(ts, 2)) == "UPDATE_ROW" && TableExists(db.tables, Tok(ts, 1)) ==>
      var t := GetTable(db.tables, Tok(ts, 1));
      ColumnExists(t, Tok(ts, 3))
      && (Tok(ts, 6) == "" || !ValueFits(GetColumn(t, Tok(ts, 3)), Tok(ts, 4)) || ColumnExists(t, Tok(ts, 6)))
    ensures Exec(db, files, ts).Some?
  {
    if Upper(Tok(ts, 0)) == "ALTER_TABLE" {
      assert Exec(db, files, ts) == Alter(db, files, ts);
      if TableExists(db.tables, Tok(ts, 1)) {
        var k := TableIndex(db.tables, Tok(ts, 1));
        assert WellFormedTable(db.tables[k]);
        AlterTableDefined(db.tables[k], Upper(Tok(ts, 2)), ts);
      }
    }
  }

  /** On a well-formed table every operation but UPDATE_ROW is defined, and
      UPDATE_ROW is when its column exists and, unless the value fails the
      type check first, its condition column does too. */
  lemma AlterTableDefined(t: Table, op: string, ts: seq<string>)
    requires WellFormedTable(t)
    requires op == "UPDATE_ROW" ==>
      ColumnExists(t, Tok(ts, 3))
      && (Tok(ts, 6) == "" || !ValueFits(GetColumn(t, Tok(ts, 3)), Tok(ts, 4)) || ColumnExists(t, Tok(ts, 6)))
    ensures AlterTable(t, op, ts).Some?
  {
    if op == "UPDATE_ROW" && Tok(ts, 6) != "" && ValueFits(GetColumn(t, Tok(ts, 3)), Tok(ts, 4)) {
      assert |GetColumn(t, Tok(ts, 6)).data| == RowCount(t);
    }
  }


  // ---------------------------------------------------------------------------
  // SELECT

  /** WHERE keeps rows of the list in the list's order. */
  lemma {:induction false} SelectedIncreasing(t: Table, w: Clause, rows: seq<nat>)
    requires Complete(w) && AllValid(t, w.conds) && AllInRange(t, rows) && Increasing(rows)
    ensures Increasing(Selected(t, w, rows))
  {
    if rows != [] {
      var init := rows[..|rows| - 1];
      var last := rows[|rows| - 1];
      assert AllInRange(t, init);
      SelectedIncreasing(t, w, init);
      var kept := Selected(t, w, init);
      forall i | 0 <= i < |kept| ensures kept[i] < last {
        SelectedMembers(t, w, init, kept[i]);
      }
    }
  }

  /** The rows a selection shows before ORDER_BY: every row of the table in
      order when there is no WHERE; otherwise exactly the rows on which the
      clause read after WHERE holds, still in order. */
  lemma FilterRowsChosen(t: Table, name: string, header: seq<string>, ts: seq<string>, pos: nat)
    requires Covered(t) && Filter(t, name, header, ts, pos).Some? && Filter(t, name, header, ts, pos).value.Ok?
    ensures var s := Filter(t, name, header, ts, pos).value.value;
      Increasing(s.rows) && (forall i :: 0 <= i < |s.rows| ==> s.rows[i] < RowCount(t))
      && (Tok(ts, pos) != "WHERE" && Tok(ts, pos) != "where" ==> s.rows == Iota(0, RowCount(t)))
      && (Tok(ts, pos) == "WHERE" || Tok(ts, pos) == "where" ==>
        pos + 1 <= |ts| && ScanWhere(t, ts, pos + 1, Clause([], [])).Ok?
        && var w := ScanWhere(t, ts, pos + 1, Clause([], [])).value.0;
        (RowCount(t) > 0 ==>
          Complete(w) && AllValid(t, w.conds)
          && forall x: nat :: x in s.rows <==> x < RowCount(t) && InRange(t, x) && Fold(t, w, x) == Some(true)))
  {
    var rows := Iota(0, RowCount(t));
    FilterRows(t, name, header, ts, pos);
    if (Tok(ts, pos) == "WHERE" || Tok(ts, pos) == "where") && RowCount(t) > 0 {
      SelectedAll(t, ScanWhere(t, ts, pos + 1, Clause([], [])).value.0);
    }
  }

  /** Filter unfolded: the rows it passes on are all the rows, or those the
      clause after WHERE selects from them. */
  lemma FilterRows(t: Table, name: string, header: seq<string>, ts: seq<string>, pos: nat)
    requires Covered(t) && Filter(t, name, header, ts, pos).Some? && Filter(t, name, header, ts, pos).value.Ok?
    ensures var s := Filter(t, name, header, ts, pos).value.value;
      var rows := Iota(0, RowCount(t));
      AllInRange(t, rows)
      && (Tok(ts, pos) != "WHERE" && Tok(ts, pos) != "where" ==> s.rows == rows)
      && (Tok(ts, pos) == "WHERE" || Tok(ts, pos) == "where" ==>
        pos + 1 <= |ts| && ScanWhere(t, ts, pos + 1, Clause([], [])).Ok?
        && var w := ScanWhere(t, ts, pos + 1, Clause([], [])).value.0;
        (RowCount(t) == 0 ==> s.rows == [])
        && (RowCount(t) > 0 ==> Complete(w) && AllValid(t, w.conds) && s.rows == Selected(t, w, rows)))
  {
    var rows := Iota(0, RowCount(t));
    assert AllInRange(t, rows);
    if Tok(ts, pos) == "WHERE" || Tok(ts, pos) == "where" {
      ScanWhereSound(t, ts, pos + 1, Clause([], []));
    }
  }

  /** A clause applied to every row of a table keeps exactly the rows on
      which it holds, in increasing order. */
  lemma SelectedAll(t: Table, w: Clause)
    requires Complete(w) && AllValid(t, w.conds) && AllInRange(t, Iota(0, RowCount(t)))
    ensures var s := Selected(t, w, Iota(0, RowCount(t)));
      Increasing(s) && (forall i :: 0 <= i < |s| ==> s[i] < RowCount(t))
      && forall x: nat :: x in s <==> x < RowCount(t) && InRange(t, x) && Fold(t, w, x) == Some(true)
  {
    var rows := Iota(0, RowCount(t));
    var s := Selected(t, w, rows);
    SelectedIncreasing(t, w, rows);
    forall x: nat ensures x in s <==> x < RowCount(t) && InRange(t, x) && Fold(t, w, x) == Some(true) {
      SelectedMembers(t, w, rows, x);
      if x < RowCount(t) {
        assert rows[x] == x;
      }
    }
    forall i | 0 <= i < |s| ensures s[i] < RowCount(t) {
      SelectedMembers(t, w, rows, s[i]);
    }
  }


  /** A selection names an existing table, shows only columns it has (all of
      them, in order, for `*`), and starts from rows in increasing order
      below its row count. */
  lemma SelectShape(db: DbState, ts: seq<string>)
    requires ts != [] && Select(db, ts).Some? && Select(db, ts).value.Ok?
    ensures var s := Select(db, ts).value.value;
      var k := FromAt(ts, 1);
      s.Selection? && s.table == Tok(ts, k + 1) && TableExists(db.tables, s.table)
      && var t := GetTable(db.tables, s.table);
      (forall i :: 0 <= i < |s.header| ==> ColumnExists(t, s.header[i]))
      && s.header == (if ts[1..k] == ["*"] then ColumnNames(t) else ts[1..k])
      && Increasing(s.rows) && (forall i :: 0 <= i < |s.rows| ==> s.rows[i] < RowCount(t))
      && (Tok(ts, k + 2) != "WHERE" && Tok(ts, k + 2) != "where" ==> s.rows == Iota(0, RowCount(t)))
  {
    var k := FromAt(ts, 1);
    var t := GetTable(db.tables, Tok(ts, k + 1));
    SelectUnfold(db, ts);
    FilterRowsChosen(t, Tok(ts, k + 1), Header(t, ts[1..k]), ts, k + 2);
  }

  /** A SELECT that succeeds names an existing table whose rows are all
      there, lists only its columns, and hands on to Filter. */
  lemma SelectUnfold(db: DbState, ts: seq<string>)
    requires ts != [] && Select(db, ts).Some? && Select(db, ts).value.Ok?
    ensures var k := FromAt(ts, 1);
      var name := Tok(ts, k + 1);
      TableExists(db.tables, name)
      && var t := GetTable(db.tables, name);
      var header := Header(t, ts[1..k]);
      FirstMissing(t, header, 0) == |header| && Covered(t)
      && Select(db, ts) == Filter(t, name, header, ts, k + 2)
  {
  }

  /** What WRITE_DATABASE puts in a file, READ_DATABASE of the same path
      loads back exactly, whatever database it replaces, as long as no name
      or cell holds a newline. */
  lemma WriteThenReadBack(db: DbState, other: DbState, files: map<string, string>, write: seq<string>, read: seq<string>)
    requires NewlineFree(db)
    requires |write| >= 2 && Upper(write[0]) == "WRITE_DATABASE" && write[1] != ""
    requires |read| >= 2 && Upper(read[0]) == "READ_DATABASE" && read[1] == write[1]
    ensures Exec(db, files, write).Some? && Exec(db, files, write).value.result == Ok(Done)
    ensures var written := Exec(db, files, write).value.files;
      Exec(other, written, read) == Some(Outcome(Ok(Done), db, written))
  {
    WriteThenRead(db);
  }
}
