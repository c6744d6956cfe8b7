/** `Db::Database`: a name and an ordered list of tables, changed in place by
    the schema and row operations and by loading a file. The operations
    trust their caller: the checks live in the parser. */
module Store {
  import opened Wrappers
  import opened Strings
  import opened Schema
  import opened Condition
  import opened Rows
  import opened Persistence

  // ---------------------------------------------------------------------------
  // What the row operations leave in a table

  /** The table with column `c` holding the cells `d`. */
  function SetData(t: Table, c: nat, d: seq<string>): (r: Table)
    requires c < |t.columns|
    ensures |r.columns| == |t.columns| && r.columns[c].data == d
  {
    t.(columns := t.columns[c := t.columns[c].(data := d)])
  }

  /** `insertRow`: column j gains `row[j]` at its end. */
  function WithRow(t: Table, row: seq<string>): (r: Table)
    requires |row| >= |t.columns|
    ensures r.name == t.name && |r.columns| == |t.columns|
  {
    t.(columns := seq(|t.columns|, j requires 0 <= j < |t.columns| => t.columns[j].(data := t.columns[j].data + [row[j]])))
  }

  /** A row of the table's arity appended to an aligned table: the columns
      keep their names and types, stay aligned, and each holds its old cells
      followed by the row's cell at its position. */
  lemma InsertAppends(t: Table, row: seq<string>)
    requires Aligned(t) && |row| == |t.columns|
    ensures var r := WithRow(t, row);
      Aligned(r)
      && RowCount(r) == (if t.columns == [] then 0 else RowCount(t) + 1)
      && forall j :: 0 <= j < |t.columns| ==>
        r.columns[j].name == t.columns[j].name && r.columns[j].ctype == t.columns[j].ctype
        && r.columns[j].data[..RowCount(t)] == t.columns[j].data && r.columns[j].data[RowCount(t)] == row[j]
  {
    var r := WithRow(t, row);
    forall j | 0 <= j < |t.columns|
      ensures r.columns[j].data[..RowCount(t)] == t.columns[j].data
    {
      assert r.columns[j].data == t.columns[j].data + [row[j]];
    }
  }

  /** The cells of column `c` after the row loop of `updateRow` ran on rows
      below `upto`: a row there on which the condition holds takes the value. */
  function Overwritten(t: Table, c: nat, value: string, condColumn: string, op: string, literal: string, upto: nat): (d: seq<string>)
    requires c < |t.columns| && ColumnExists(t, condColumn)
    requires upto <= |GetColumn(t, condColumn).data| && upto <= |t.columns[c].data|
    ensures |d| == |t.columns[c].data|
  {
    var data := t.columns[c].data;
    seq(|data|, i requires 0 <= i < |data| =>
      if i < upto && EvaluateCondition(t, condColumn, op, literal, i) == Some(true) then value else data[i])
  }

  /** One more row visited by the row loop of `updateRow`: it takes the
      value when the condition holds on it and keeps its cell otherwise. */
  lemma OverwrittenStep(t: Table, c: nat, value: string, condColumn: string, op: string, literal: string, i: nat)
    requires c < |t.columns| && ColumnExists(t, condColumn)
    requires i < |GetColumn(t, condColumn).data| && i < |t.columns[c].data|
    requires EvaluateCondition(t, condColumn, op, literal, i).Some?
    ensures var d := Overwritten(t, c, value, condColumn, op, literal, i);
      Overwritten(t, c, value, condColumn, op, literal, i + 1) ==
        if EvaluateCondition(t, condColumn, op, literal, i).value then d[i := value] else d
  {
  }

  /** Writing a column twice leaves the second write. */
  lemma SetDataTwice(t: Table, c: nat, d: seq<string>, e: seq<string>)
    requires c < |t.columns|
    ensures SetData(SetData(t, c, d), c, e) == SetData(t, c, e)
  {
  }

  /** `updateRow` when what it dereferences exists: the table it leaves and
      what it throws. The new value is checked against the column type first;
      without a condition column every cell takes the value; otherwise rows
      are visited in order until the condition throws, so a failure leaves
      the rows before the failing one updated. */
  function Updated(t: Table, column: string, value: string, condColumn: string, op: string, literal: string): (Table, Option<Error>)
    requires UpdateDefined(t, column, value, condColumn)
  {
    var c := ColumnIndex(t.columns, column);
    var data := t.columns[c].data;
    if t.columns[c].ctype == Number && ParseNum(value).None? then (t, Some(NotANumber(value, column)))
    else if condColumn == "" then (SetData(t, c, seq(|data|, _ => value)), None)
    else
      var n := |GetColumn(t, condColumn).data|;
      var f := FirstThrow(t, condColumn, op, literal, 0, n);
      (SetData(t, c, Overwritten(t, c, value, condColumn, op, literal, f)), if f < n then Some(NumericParse) else None)
  }

  /** What `updateRow` dereferences and indexes: the column; then, once the
      new value has passed the type check, the condition column when one is
      named, no longer than the target. A value the type check rejects throws
      before the condition column is looked up. */
  predicate UpdateDefined(t: Table, column: string, value: string, condColumn: string) {
    ColumnExists(t, column)
    && (condColumn != "" && ValueFits(GetColumn(t, column), value) ==>
          ColumnExists(t, condColumn) && |GetColumn(t, condColumn).data| <= |GetColumn(t, column).data|)
  }

  /** `validateColumnType`: a NUMBER column takes only values `std::stod` accepts. */
  predicate ValueFits(c: Column, value: string) {
    c.ctype == Number ==> ParseNum(value).Some?
  }

  /** Only the target column's cells change: names, types, the other columns
      and every column's length stay as they were. */
  lemma UpdateKeepsShape(t: Table, column: string, value: string, condColumn: string, op: string, literal: string)
    requires UpdateDefined(t, column, value, condColumn)
    ensures var r := Updated(t, column, value, condColumn, op, literal).0;
      var c := ColumnIndex(t.columns, column);
      r.name == t.name && |r.columns| == |t.columns|
      && (forall j :: 0 <= j < |t.columns| && j != c ==> r.columns[j] == t.columns[j])
      && r.columns[c].name == column && r.columns[c].ctype == t.columns[c].ctype
      && |r.columns[c].data| == |t.columns[c].data|
      && (Aligned(t) ==> Aligned(r) && RowCount(r) == RowCount(t))
  {
  }

  /** A complete update: without a condition every cell holds the value;
      with one, exactly the rows where it holds do, and the others keep their
      cell. A failure comes from a row on which the condition throws; the rows
      before it were updated and the rest are untouched. */
  lemma UpdateCells(t: Table, column: string, value: string, condColumn: string, op: string, literal: string)
    requires UpdateDefined(t, column, value, condColumn)
    ensures var (r, e) := Updated(t, column, value, condColumn, op, literal);
      var c := ColumnIndex(t.columns, column);
      var data := t.columns[c].data;
      var cells := r.columns[c].data;
      (e == Some(NotANumber(value, column)) <==> t.columns[c].ctype == Number && ParseNum(value).None?)
      && (e == Some(NotANumber(value, column)) ==> r == t)
      && (e == None && condColumn == "" ==> forall i :: 0 <= i < |cells| ==> cells[i] == value)
      && (e == None && condColumn != "" ==>
            forall i :: 0 <= i < |cells| ==>
              cells[i] == if i < |GetColumn(t, condColumn).data| && EvaluateCondition(t, condColumn, op, literal, i) == Some(true)
                          then value else data[i])
      && (e == Some(NumericParse) ==>
            condColumn != "" &&
            exists f :: 0 <= f < |GetColumn(t, condColumn).data| && EvaluateCondition(t, condColumn, op, literal, f).None?
              && (forall i :: f <= i < |cells| ==> cells[i] == data[i])
              && (forall i :: 0 <= i < f ==> cells[i] == if EvaluateCondition(t, condColumn, op, literal, i) == Some(true) then value else data[i]))
  {
    var c := ColumnIndex(t.columns, column);
    if condColumn != "" && ValueFits(t.columns[c], value) {
      var n := |GetColumn(t, condColumn).data|;
      var f := FirstThrow(t, condColumn, op, literal, 0, n);
      if f < n {
        var cells := Updated(t, column, value, condColumn, op, literal).0.columns[c].data;
        assert forall i :: f <= i < |cells| ==> cells[i] == t.columns[c].data[i];
      }
    }
  }

  /** The UPDATE_ROW quirk: an operator outside the six matches no row, so a
      complete update with it changes nothing. */
  lemma UpdateUnknownOperator(t: Table, column: string, value: string, condColumn: string, op: string, literal: string)
    requires UpdateDefined(t, column, value, condColumn) && condColumn != "" && !IsOperator(op)
    ensures Updated(t, column, value, condColumn, op, literal).1 == None ==>
      Updated(t, column, value, condColumn, op, literal).0 == t
  {
    var c := ColumnIndex(t.columns, column);
    if !ValueFits(t.columns[c], value) {
      return;
    }
    var n := |GetColumn(t, condColumn).data|;
    var f := FirstThrow(t, condColumn, op, literal, 0, n);
    var d := Overwritten(t, c, value, condColumn, op, literal, f);
    forall i | 0 <= i < |d| ensures d[i] == t.columns[c].data[i] {
      if i < f {
        var col := GetColumn(t, condColumn);
        assert Compare(col.ctype, col.data[i], op, literal) != Some(true);
      }
    }
    assert d == t.columns[c].data;
    assert t.columns[c := t.columns[c].(data := d)] == t.columns;
  }

  /** The rows below the row count on which the condition holds. */
  function Doomed(t: Table, condColumn: string, op: string, literal: string): set<nat>
    requires ColumnExists(t, condColumn) && Covered(t)
  {
    Elems(Matching(t, condColumn, op, literal, RowCount(t)))
  }

  /** What `removeRow` needs: a first column to count rows with, the
      condition column, and no column shorter than the first. */
  predicate RemoveDefined(t: Table, condColumn: string) {
    t.columns != [] && ColumnExists(t, condColumn) && Covered(t)
  }

  /** `removeRow` after a condition that evaluated on every row: each column
      loses the doomed positions. */
  function Removed(t: Table, condColumn: string, op: string, literal: string): (r: Table)
    requires RemoveDefined(t, condColumn)
    ensures r.name == t.name && |r.columns| == |t.columns|
  {
    var doomed := Doomed(t, condColumn, op, literal);
    t.(columns := seq(|t.columns|, j requires 0 <= j < |t.columns| =>
      t.columns[j].(data := Keep(t.columns[j].data, doomed, 0))))
  }

  /** The rows that survive a deletion, in their old order. */
  function Survivors(t: Table, condColumn: string, op: string, literal: string): seq<nat>
    requires RemoveDefined(t, condColumn)
  {
    Keep<nat>(Iota(0, RowCount(t)), Doomed(t, condColumn, op, literal), 0)
  }

  /** Deleting from an aligned table on which the condition evaluates
      everywhere: the survivors are exactly the rows on which the condition is
      false, in increasing order; every column holds the survivors' cells in
      that order, so rows stay whole and the columns stay aligned. */
  lemma RemoveKeepsSurvivors(t: Table, condColumn: string, op: string, literal: string)
    requires RemoveDefined(t, condColumn) && Aligned(t)
    requires FirstThrow(t, condColumn, op, literal, 0, RowCount(t)) == RowCount(t)
    ensures var r := Removed(t, condColumn, op, literal);
      var k := Survivors(t, condColumn, op, literal);
      Increasing(k)
      && (forall x: nat :: x in k <==> x < RowCount(t) && EvaluateCondition(t, condColumn, op, literal, x) == Some(false))
      && Aligned(r) && RowCount(r) == |k|
      && forall j, p :: 0 <= j < |t.columns| && 0 <= p < |k| ==>
        k[p] < RowCount(t) && r.columns[j].data[p] == t.columns[j].data[k[p]]
  {
    var r := Removed(t, condColumn, op, literal);
    var k := Survivors(t, condColumn, op, literal);
    SurvivorsExactly(t, condColumn, op, literal);
    forall j | 0 <= j < |t.columns|
      ensures |r.columns[j].data| == |k|
      ensures forall p :: 0 <= p < |k| ==> k[p] < RowCount(t) && r.columns[j].data[p] == t.columns[j].data[k[p]]
    {
      RemovedColumn(t, condColumn, op, literal, j);
    }
  }

  /** The survivors are the rows on which the condition is false, in order. */
  lemma SurvivorsExactly(t: Table, condColumn: string, op: string, literal: string)
    requires RemoveDefined(t, condColumn)
    requires FirstThrow(t, condColumn, op, literal, 0, RowCount(t)) == RowCount(t)
    ensures var k := Survivors(t, condColumn, op, literal);
      Increasing(k)
      && forall x: nat :: x in k <==> x < RowCount(t) && EvaluateCondition(t, condColumn, op, literal, x) == Some(false)
  {
    var n := RowCount(t);
    var doomed := Doomed(t, condColumn, op, literal);
    MatchingMembers(t, condColumn, op, literal, n);
    SurvivorsMembers(doomed, 0, n);
    forall x: nat | x < n
      ensures x !in doomed <==> EvaluateCondition(t, condColumn, op, literal, x) == Some(false)
    {
    }
  }

  /** Column j after the deletion holds, in order, its cells at the survivors. */
  lemma RemovedColumn(t: Table, condColumn: string, op: string, literal: string, j: nat)
    requires RemoveDefined(t, condColumn) && Aligned(t) && j < |t.columns|
    ensures var r := Removed(t, condColumn, op, literal);
      var k := Survivors(t, condColumn, op, literal);
      |r.columns[j].data| == |k|
      && forall p :: 0 <= p < |k| ==> k[p] < RowCount(t) && r.columns[j].data[p] == t.columns[j].data[k[p]]
  {
    var doomed := Doomed(t, condColumn, op, literal);
    var r := Removed(t, condColumn, op, literal);
    var k := Survivors(t, condColumn, op, literal);
    assert |t.columns[j].data| == RowCount(t);
    assert k == Keep<nat>(Iota(0, |t.columns[j].data|), doomed, 0);
    assert r.columns[j].data == Keep(t.columns[j].data, doomed, 0);
    KeepPositions(t.columns[j].data, doomed, 0);
  }


  // ---------------------------------------------------------------------------
  // The database object

  class Database {
    var name: string
    var tables: seq<Table>

    /** The default member initialisers: named "db1", no table. */
    constructor()
      ensures name == "db1" && tables == []
    {
      name := "db1";
      tables := [];
    }

    function Value(): DbState
      reads this
    {
      DbState(name, tables)
    }

    /** `createTable`: the new table goes last. */
    method CreateTable(tableName: string, columns: seq<Column>)
      modifies this
      ensures name == old(name) && tables == old(tables) + [Table(tableName, columns)]
    {
      tables := tables + [Table(tableName, columns)];
    }

    /** `renameTable`: the first table so named takes the new name. */
    method RenameTable(oldName: string, newName: string)
      requires TableExists(tables, oldName)
      modifies this
      ensures var k := TableIndex(old(tables), oldName);
        name == old(name) && tables == old(tables)[k := old(tables)[k].(name := newName)]
    {
      var k := TableIndex(tables, oldName);
      tables := tables[k := tables[k].(name := newName)];
    }

    /** `dropTable`: the first table so named is erased; the others keep their order. */
    method DropTable(tableName: string)
      requires TableExists(tables, tableName)
      modifies this
      ensures var k := TableIndex(old(tables), tableName);
        name == old(name) && tables == old(tables)[..k] + old(tables)[k + 1..]
    {
      var k := TableIndex(tables, tableName);
      tables := tables[..k] + tables[k + 1..];
    }

    /** `addColumn`: the column goes last in the table. */
    method AddColumn(tableName: string, column: Column)
      requires TableExists(tables, tableName)
      modifies this
      ensures var k := TableIndex(old(tables), tableName);
        name == old(name) && tables == old(tables)[k := old(tables)[k].(columns := old(tables)[k].columns + [column])]
    {
      var k := TableIndex(tables, tableName);
      tables := tables[k := tables[k].(columns := tables[k].columns + [column])];
    }

    /** `renameColumn`: the first column so named takes the new name. */
    method RenameColumn(tableName: string, oldName: string, newName: string)
      requires TableExists(tables, tableName) && ColumnExists(GetTable(tables, tableName), oldName)
      modifies this
      ensures var k := TableIndex(old(tables), tableName);
        var t := old(tables)[k];
        var c := ColumnIndex(t.columns, oldName);
        name == old(name) && tables == old(tables)[k := t.(columns := t.columns[c := t.columns[c].(name := newName)])]
    {
      var k := TableIndex(tables, tableName);
      var t := tables[k];
      var c := ColumnIndex(t.columns, oldName);
      tables := tables[k := t.(columns := t.columns[c := t.columns[c].(name := newName)])];
    }

    /** `removeColumn`: the first column so named is erased with its cells. */
    method RemoveColumn(tableName: string, columnName: string)
      requires TableExists(tables, tableName) && ColumnExists(GetTable(tables, tableName), columnName)
      modifies this
      ensures var k := TableIndex(old(tables), tableName);
        var t := old(tables)[k];
        var c := ColumnIndex(t.columns, columnName);
        name == old(name) && tables == old(tables)[k := t.(columns := t.columns[..c] + t.columns[c + 1..])]
    {
      var k := TableIndex(tables, tableName);
      var t := tables[k];
      var c := ColumnIndex(t.columns, columnName);
      tables := tables[k := t.(columns := t.columns[..c] + t.columns[c + 1..])];
    }

    /** `insertRow`: push `row[i]` onto column i, for every column. */
    method InsertRow(tableName: string, row: seq<string>)
      requires TableExists(tables, tableName) && |row| >= |GetTable(tables, tableName).columns|
      modifies this
      ensures var k := TableIndex(old(tables), tableName);
        name == old(name) && tables == old(tables)[k := WithRow(old(tables)[k], row)]
    {
      var k := TableIndex(tables, tableName);
      var t := tables[k];
      var columns := t.columns;
      for i := 0 to |columns|
        invariant |columns| == |t.columns|
        invariant forall j :: 0 <= j < i ==> columns[j] == t.columns[j].(data := t.columns[j].data + [row[j]])
        invariant forall j :: i <= j < |columns| ==> columns[j] == t.columns[j]
      {
        columns := columns[i := columns[i].(data := columns[i].data + [row[i]])];
      }
      assert columns == WithRow(t, row).columns;
      tables := tables[k := t.(columns := columns)];
    }

    /** `updateRow`. The row loop evaluates the condition on the table as it
        is being changed; only the current row is read, and it has not been
        written yet, so the outcome is `Updated`'s. */
    method UpdateRow(tableName: string, columnName: string, newValue: string,
                     condColumn: string, op: string, literal: string) returns (error: Option<Error>)
      requires TableExists(tables, tableName) && UpdateDefined(GetTable(tables, tableName), columnName, newValue, condColumn)
      modifies this
      ensures var k := TableIndex(old(tables), tableName);
        var (t, e) := Updated(old(tables)[k], columnName, newValue, condColumn, op, literal);
        name == old(name) && tables == old(tables)[k := t] && error == e
    {
      var k := TableIndex(tables, tableName);
      var t := tables[k];
      var c := ColumnIndex(t.columns, columnName);
      if t.columns[c].ctype == Number && ParseNum(newValue).None? {
        return Some(NotANumber(newValue, columnName));
      }
      if condColumn == "" {
        tables := tables[k := SetData(t, c, seq(|t.columns[c].data|, _ => newValue))];
        return None;
      }
      var cur, ok := OverwriteRows(t, c, newValue, condColumn, op, literal);
      tables := tables[k := cur];
      error := if ok then None else Some(NumericParse);
    }

    /** `removeRow`: collect the rows on which the condition holds, then erase
        them from every column, from the highest index down. */
    method RemoveRow(tableName: string, condColumn: string, op: string, literal: string) returns (error: Option<Error>)
      requires TableExists(tables, tableName) && RemoveDefined(GetTable(tables, tableName), condColumn)
      modifies this
      ensures name == old(name)
      ensures var t := GetTable(old(tables), tableName);
        FirstThrow(t, condColumn, op, literal, 0, RowCount(t)) < RowCount(t) ==>
          error == Some(NumericParse) && tables == old(tables)
      ensures var k := TableIndex(old(tables), tableName);
        var t := old(tables)[k];
        FirstThrow(t, condColumn, op, literal, 0, RowCount(t)) == RowCount(t) ==>
          error == None && tables == old(tables)[k := Removed(t, condColumn, op, literal)]
    {
      var k := TableIndex(tables, tableName);
      var t := tables[k];
      var n := |t.columns[0].data|;
      assert n == RowCount(t);
      var indices, ok := MatchingRows(t, condColumn, op, literal, n);
      if !ok {
        assert FirstThrow(t, condColumn, op, literal, 0, RowCount(t)) < RowCount(t);
        return Some(NumericParse);
      }
      MatchingMembers(t, condColumn, op, literal, n);
      var doomed := Doomed(t, condColumn, op, literal);
      var columns := t.columns;
      for j := 0 to |columns|
        invariant name == old(name) && tables == old(tables)
        invariant |columns| == |t.columns|
        invariant forall q :: 0 <= q < j ==> columns[q] == t.columns[q].(data := Keep(t.columns[q].data, doomed, 0))
        invariant forall q :: j <= q < |columns| ==> columns[q] == t.columns[q]
      {
        var data := EraseAll(columns[j].data, indices);
        columns := columns[j := columns[j].(data := data)];
      }
      assert columns == Removed(t, condColumn, op, literal).columns;
      assert t.(columns := columns) == Removed(t, condColumn, op, literal);
      assert FirstThrow(t, condColumn, op, literal, 0, RowCount(t)) == RowCount(t);
      tables := tables[k := t.(columns := columns)];
      error := None;
    }

    /** `writeToFile`: the lines written, in order; each is followed by
        '\n' in the file. */
    method WriteToFile() returns (lines: seq<string>)
      ensures lines == Serialize(Value())
    {
      lines := [name, NatToString(|tables|)];
      for i := 0 to |tables|
        invariant lines == [name, NatToString(|tables|)] + Concat(TableLines, tables[..i])
      {
        var more := WriteTable(tables[i]);
        ConcatNext(TableLines, [name, NatToString(|tables|)], tables, i);
        lines := lines + more;
      }
      assert tables[..|tables|] == tables;
    }

    /** `readFromFile` over the lines of the file: the tables are cleared,
        the name is read, and each table is pushed once all its columns are
        read. When a `std::stoi` throws, what was pushed so far stays. */
    method ReadFromFile(ls: seq<string>) returns (complete: bool)
      modifies this
      ensures Load(Value(), complete) == Parse(ls)
    {
      tables := [];
      name := Line(ls, 0);
      var tableCount := Count(Line(ls, 1));
      if tableCount.None? {
        return false;
      }
      var n := tableCount.value;
      var pos: nat := 2;
      var i := 0;
      while i < n
        invariant i <= n && name == Line(ls, 0)
        invariant ReadTables(ls, 2, n, []) == ReadTables(ls, pos, n - i, tables)
      {
        var table := ReadTableAt(ls, pos);
        if table.None? {
          return false;
        }
        tables := tables + [table.value.0];
        pos := table.value.1;
        i := i + 1;
      }
      complete := true;
    }
  }

  // ---------------------------------------------------------------------------
  // The loops of writeToFile and readFromFile, one level each

  /** The lines of one table: name, column count, then each column. */
  method WriteTable(t: Table) returns (lines: seq<string>)
    ensures lines == TableLines(t)
  {
    lines := [t.name, NatToString(|t.columns|)];
    for j := 0 to |t.columns|
      invariant lines == [t.name, NatToString(|t.columns|)] + Concat(ColumnLines, t.columns[..j])
    {
      var more := WriteColumn(t.columns[j]);
      ConcatNext(ColumnLines, [t.name, NatToString(|t.columns|)], t.columns, j);
      lines := lines + more;
    }
    assert t.columns[..|t.columns|] == t.columns;
  }

  /** The lines of one column: name, type code, cell count, then each cell. */
  method WriteColumn(c: Column) returns (lines: seq<string>)
    ensures lines == ColumnLines(c)
  {
    lines := [c.name, NatToString(TypeCode(c.ctype)), NatToString(|c.data|)];
    for k := 0 to |c.data|
      invariant lines == [c.name, NatToString(TypeCode(c.ctype)), NatToString(|c.data|)] + c.data[..k]
    {
      lines := lines + [c.data[k]];
    }
    assert c.data[..|c.data|] == c.data;
  }

  /** One table from line `pos` on: its name and column count, then its
      columns; None when a `std::stoi` throws. */
  method ReadTableAt(ls: seq<string>, pos: nat) returns (r: Option<(Table, nat)>)
    ensures r == ReadTable(ls, pos)
  {
    var tableName := Line(ls, pos);
    var columnCount := Count(Line(ls, pos + 1));
    if columnCount.None? {
      return None;
    }
    var m := columnCount.value;
    var at: nat := pos + 2;
    var columns: seq<Column> := [];
    var j := 0;
    while j < m
      invariant j <= m
      invariant ReadColumns(ls, pos + 2, m, []) == ReadColumns(ls, at, m - j, columns)
    {
      var column := ReadColumnAt(ls, at);
      if column.None? {
        return None;
      }
      columns := columns + [column.value.0];
      at := column.value.1;
      j := j + 1;
    }
    r := Some((Table(tableName, columns), at));
  }

  /** One column from line `pos` on: name, type code, cell count and cells. */
  method ReadColumnAt(ls: seq<string>, pos: nat) returns (r: Option<(Column, nat)>)
    ensures r == ReadColumn(ls, pos)
  {
    var columnName := Line(ls, pos);
    var code := ParseInt(Line(ls, pos + 1));
    if code.None? {
      return None;
    }
    var size := Count(Line(ls, pos + 2));
    if size.None? {
      return None;
    }
    var data: seq<string> := [];
    for k := 0 to size.value
      invariant data == ReadCells(ls, pos + 3, k)
    {
      data := data + [Line(ls, pos + 3 + k)];
    }
    r := Some((Column(columnName, TypeOfCode(code.value), data), pos + 3 + size.value));
  }

  /** The row loop of `updateRow` over the table `t`, writing `value` into
      column c: it stops at the first row on which the condition throws. */
  method OverwriteRows(t: Table, c: nat, value: string, condColumn: string, op: string, literal: string)
      returns (cur: Table, ok: bool)
    requires c < |t.columns| && ColumnExists(t, condColumn)
    requires |GetColumn(t, condColumn).data| <= |t.columns[c].data|
    ensures var n := |GetColumn(t, condColumn).data|;
      var f := FirstThrow(t, condColumn, op, literal, 0, n);
      cur == SetData(t, c, Overwritten(t, c, value, condColumn, op, literal, f)) && (ok <==> f == n)
  {
    var n := |GetColumn(t, condColumn).data|;
    cur := t;
    assert Overwritten(t, c, value, condColumn, op, literal, 0) == t.columns[c].data;
    assert t.columns[c := t.columns[c]] == t.columns;
    var i := 0;
    while i < n
      invariant i <= n && i <= FirstThrow(t, condColumn, op, literal, 0, n)
      invariant cur == SetData(t, c, Overwritten(t, c, value, condColumn, op, literal, i))
    {
      EvaluateUnchanged(t, c, Overwritten(t, c, value, condColumn, op, literal, i), condColumn, op, literal, i);
      var holds := EvaluateCondition(cur, condColumn, op, literal, i);
      if holds.None? {
        return cur, false;
      }
      FirstThrowBeyond(t, condColumn, op, literal, i, n);
      OverwrittenStep(t, c, value, condColumn, op, literal, i);
      if holds.value {
        SetDataTwice(t, c, Overwritten(t, c, value, condColumn, op, literal, i), Overwritten(t, c, value, condColumn, op, literal, i + 1));
        cur := SetData(cur, c, cur.columns[c].data[i := value]);
      }
      i := i + 1;
    }
    ok := true;
  }

  /** The first loop of `removeRow`: the rows below `n` on which the
      condition holds, unless it throws on one of them. */
  method MatchingRows(t: Table, condColumn: string, op: string, literal: string, n: nat) returns (indices: seq<nat>, ok: bool)
    requires ColumnExists(t, condColumn) && n <= |GetColumn(t, condColumn).data|
    ensures ok <==> FirstThrow(t, condColumn, op, literal, 0, n) == n
    ensures ok ==> indices == Matching(t, condColumn, op, literal, n)
  {
    indices := [];
    for i := 0 to n
      invariant i <= FirstThrow(t, condColumn, op, literal, 0, n)
      invariant indices == Matching(t, condColumn, op, literal, i)
    {
      var holds := EvaluateCondition(t, condColumn, op, literal, i);
      if holds.None? {
        return indices, false;
      }
      FirstThrowBeyond(t, condColumn, op, literal, i, n);
      if holds.value {
        indices := indices + [i as nat];
      }
    }
    ok := true;
  }

  /** The inner loop of `removeRow`: erase the listed positions, from the
      last (highest) to the first. */
  method EraseAll(s: seq<string>, indices: seq<nat>) returns (r: seq<string>)
    requires Increasing(indices) && forall i :: 0 <= i < |indices| ==> indices[i] < |s|
    ensures r == Keep(s, Elems(indices), 0)
  {
    r := s;
    var m := |indices|;
    KeepAgree(s, {}, Elems(indices[m..]), 0);
    assert Keep(s, {}, 0) == s by {
      KeepBelow(s, {}, 0, |s|);
      assert s[|s|..] == [];
    }
    while m > 0
      invariant 0 <= m <= |indices|
      invariant r == Keep(s, Elems(indices[m..]), 0)
    {
      var offset := indices[m - 1];
      KeepErase(s, Elems(indices[m..]), offset);
      r := r[..offset] + r[offset + 1..];
      assert Elems(indices[m - 1..]) == Elems(indices[m..]) + {offset};
      m := m - 1;
    }
    assert indices[0..] == indices;
  }

  /** Evaluating the condition on row i after column c has changed only in
      rows other than i (when the condition reads column c) gives what it
      gave on the table before. */
  lemma EvaluateUnchanged(t: Table, c: nat, d: seq<string>, condColumn: string, op: string, literal: string, i: nat)
    requires c < |t.columns| && |d| == |t.columns[c].data|
    requires ColumnExists(t, condColumn) && i < |GetColumn(t, condColumn).data|
    requires ColumnIndex(t.columns, condColumn) == c ==> d[i] == t.columns[c].data[i]
    ensures ColumnExists(SetData(t, c, d), condColumn)
    ensures ColumnIndex(SetData(t, c, d).columns, condColumn) == ColumnIndex(t.columns, condColumn)
    ensures i < |GetColumn(SetData(t, c, d), condColumn).data|
    ensures EvaluateCondition(SetData(t, c, d), condColumn, op, literal, i) == EvaluateCondition(t, condColumn, op, literal, i)
  {
    SameNamesSameIndex(t.columns, SetData(t, c, d).columns, condColumn);
  }

  lemma {:induction false} SameNamesSameIndex(a: seq<Column>, b: seq<Column>, name: string)
    requires |a| == |b| && forall j :: 0 <= j < |a| ==> a[j].name == b[j].name
    ensures ColumnIndex(a, name) == ColumnIndex(b, name)
    decreases |a|
  {
    if a != [] {
      SameNamesSameIndex(a[1..], b[1..], name);
    }
  }
}
