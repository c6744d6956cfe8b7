/** The text format of `Database::writeToFile` and `Database::readFromFile`:
    one value per line, the database name, the table count, then for each
    table its name and column count, and for each column its name, its type
    code, its cell count and its cells. */
module Persistence {
  import opened Wrappers
  import opened Strings
  import opened Schema

  // ---------------------------------------------------------------------------
  // Writing

  /** The lines of each item of `xs` in turn: the shape of both loops of
      `writeToFile`, over the tables and over the columns of a table. */
  function Concat<T>(lines: T -> seq<string>, xs: seq<T>): seq<string>
    decreases |xs|
  {
    if xs == [] then [] else lines(xs[0]) + Concat(lines, xs[1..])
  }

  function ColumnLines(c: Column): seq<string> {
    [c.name, NatToString(TypeCode(c.ctype)), NatToString(|c.data|)] + c.data
  }

  function TableLines(t: Table): seq<string> {
    [t.name, NatToString(|t.columns|)] + Concat(ColumnLines, t.columns)
  }

  /** The lines `writeToFile` emits, each followed by '\n' in the file. */
  function Serialize(db: DbState): seq<string> {
    [db.name, NatToString(|db.tables|)] + Concat(TableLines, db.tables)
  }

  lemma {:induction false} ConcatSnoc<T>(lines: T -> seq<string>, xs: seq<T>, x: T)
    ensures Concat(lines, xs + [x]) == Concat(lines, xs) + lines(x)
    decreases |xs|
  {
    if xs != [] {
      assert (xs + [x])[1..] == xs[1..] + [x];
      ConcatSnoc(lines, xs[1..], x);
    } else {
      assert Concat(lines, [x]) == lines(x) + Concat(lines, []);
    }
  }

  /** A write loop after item i: the lines so far, then item i's lines, are
      the lines up to and including item i. */
  lemma ConcatNext<T>(lines: T -> seq<string>, head: seq<string>, xs: seq<T>, i: nat)
    requires i < |xs|
    ensures head + Concat(lines, xs[..i]) + lines(xs[i]) == head + Concat(lines, xs[..i + 1])
  {
    assert xs[..i + 1] == xs[..i] + [xs[i]];
    ConcatSnoc(lines, xs[..i], xs[i]);
  }

  // ---------------------------------------------------------------------------
  // Reading

  /** `std::getline` on the line at `i`; past the last line it yields the
      empty string (the target strings start out empty). */
  function Line(ls: seq<string>, i: nat): string {
    if i < |ls| then ls[i] else ""
  }

  /** A count line as the loops `for (i = 0; i < std::stoi(line); ++i)` use
      it: they run max(0, v) times, and throw when `std::stoi` does. */
  function Count(line: string): (r: Option<nat>)
    ensures r.Some? <==> ParseInt(line).Some?
    ensures r.Some? && ParseInt(line).value >= 0 ==> r.value == ParseInt(line).value
  {
    match ParseInt(line)
    case None => None
    case Some(v) => Some(if v < 0 then 0 else v)
  }

  /** The `n` cells starting at line `pos`. */
  function ReadCells(ls: seq<string>, pos: nat, n: nat): (cells: seq<string>)
    ensures |cells| == n
  {
    seq(n, k requires 0 <= k < n => Line(ls, pos + k))
  }

  /** One column: name, type code, cell count, cells. None when a `std::stoi`
      throws; otherwise the column and the line after it. */
  function ReadColumn(ls: seq<string>, pos: nat): Option<(Column, nat)> {
    match ParseInt(Line(ls, pos + 1))
    case None => None
    case Some(code) =>
      match Count(Line(ls, pos + 2))
      case None => None
      case Some(n) => Some((Column(Line(ls, pos), TypeOfCode(code), ReadCells(ls, pos + 3, n)), pos + 3 + n))
  }

  /** `n` more items appended to `acc`, each read by `read` from where the
      one before ended: the shape of both loops of `readFromFile`. Also the
      line reached, and false when `read` fails (a `std::stoi` throws),
      with the items read before the failure. */
  function ReadMany<T>(read: (seq<string>, nat) -> Option<(T, nat)>, ls: seq<string>, pos: nat, n: nat, acc: seq<T>): (seq<T>, nat, bool)
    decreases n
  {
    if n == 0 then (acc, pos, true)
    else
      match read(ls, pos)
      case None => (acc, pos, false)
      case Some((x, next)) => ReadMany(read, ls, next, n - 1, acc + [x])
  }

  /** `n` more columns appended to `acc`; a failure loses the whole table. */
  function ReadColumns(ls: seq<string>, pos: nat, n: nat, acc: seq<Column>): Option<(seq<Column>, nat)> {
    var (cs, next, ok) := ReadMany(ReadColumn, ls, pos, n, acc);
    if ok then Some((cs, next)) else None
  }

  function ReadTable(ls: seq<string>, pos: nat): Option<(Table, nat)> {
    match Count(Line(ls, pos + 1))
    case None => None
    case Some(n) =>
      match ReadColumns(ls, pos + 2, n, [])
      case None => None
      case Some((cs, next)) => Some((Table(Line(ls, pos), cs), next))
  }

  /** `n` more tables appended to `acc`. A table is pushed only once it is
      complete, so a failure keeps the tables read before it. */
  function ReadTables(ls: seq<string>, pos: nat, n: nat, acc: seq<Table>): (seq<Table>, bool) {
    var (ts, _, ok) := ReadMany(ReadTable, ls, pos, n, acc);
    (ts, ok)
  }

  /** What `readFromFile` leaves in the database, and whether it returned
      normally (false: a `std::stoi` threw part way). */
  datatype Load = Load(db: DbState, complete: bool)

  /** `readFromFile` over the lines of a file: the tables are cleared, the
      name is read, and the tables follow. */
  function Parse(ls: seq<string>): Load {
    var name := Line(ls, 0);
    match Count(Line(ls, 1))
    case None => Load(DbState(name, []), false)
    case Some(n) =>
      var (ts, ok) := ReadTables(ls, 2, n, []);
      Load(DbState(name, ts), ok)
  }

  /** A failed load keeps only items read completely: at most as many as
      announced, and the announced number when it succeeds. */
  lemma {:induction false} ReadManyCount<T>(read: (seq<string>, nat) -> Option<(T, nat)>, ls: seq<string>, pos: nat, n: nat, acc: seq<T>)
    ensures var (xs, _, ok) := ReadMany(read, ls, pos, n, acc);
      |acc| <= |xs| <= |acc| + n && xs[..|acc|] == acc && (ok ==> |xs| == |acc| + n)
    decreases n
  {
    if n > 0 {
      match read(ls, pos)
      case None =>
      case Some((x, next)) =>
        ReadManyCount(read, ls, next, n - 1, acc + [x]);
        var xs := ReadMany(read, ls, pos, n, acc).0;
        assert xs[..|acc| + 1][..|acc|] == xs[..|acc|];
    }
  }

  /** An empty file has no table count, so the load fails and leaves an
      empty database with an empty name. */
  lemma EmptyFile()
    ensures Parse(SplitLines("")) == Load(DbState("", []), false)
  {
    assert SplitLines("") == [""];
    NoDigitNotNumber("");
  }

  // ---------------------------------------------------------------------------
  // Round trip

  /** The line `k` places after `pos`. `At` speaks of lines only through
      it, so that a proof sees the lines `At` fixes only where it asks. */
  function Slot(ls: seq<string>, pos: nat, k: nat): string {
    Line(ls, pos + k)
  }

  /** The lines `l` stand in `ls` from position `pos` on. */
  predicate At(ls: seq<string>, pos: nat, l: seq<string>) {
    pos + |l| <= |ls| && forall k {:trigger Slot(ls, pos, k)} :: 0 <= k < |l| ==> Slot(ls, pos, k) == l[k]
  }

  lemma AtPrefix(l: seq<string>, rest: seq<string>)
    ensures At(l + rest, 0, l)
  {
    forall k | 0 <= k < |l|
      ensures Slot(l + rest, 0, k) == l[k]
    {
    }
  }

  lemma AtSplit(ls: seq<string>, pos: nat, a: seq<string>, b: seq<string>)
    requires At(ls, pos, a + b)
    ensures At(ls, pos, a) && At(ls, pos + |a|, b)
  {
    forall k | 0 <= k < |a|
      ensures Slot(ls, pos, k) == a[k]
    {
      assert Slot(ls, pos, k) == (a + b)[k];
    }
    forall k | 0 <= k < |b|
      ensures Slot(ls, pos + |a|, k) == b[k]
    {
      assert Slot(ls, pos, |a| + k) == (a + b)[|a| + k];
    }
  }

  lemma AtLine(ls: seq<string>, pos: nat, l: seq<string>, k: nat)
    requires At(ls, pos, l) && k < |l|
    ensures Line(ls, pos + k) == l[k]
  {
    assert Slot(ls, pos, k) == l[k];
  }

  /** `read` reads back, wherever in `ls` it stands, any item written as
      `lines`, and stops right after it. */
  ghost predicate ReadsBack<T(!new)>(read: (seq<string>, nat) -> Option<(T, nat)>, lines: T -> seq<string>, ls: seq<string>) {
    forall x, p: nat {:trigger At(ls, p, lines(x))} :: At(ls, p, lines(x)) ==> read(ls, p) == Some((x, p + |lines(x)|))
  }

  /** When `read` reads back any item from its lines, it reads back a run of
      items from their lines, and stops where the run ends. */
  lemma {:induction false} ReadManyOf<T(!new)>(read: (seq<string>, nat) -> Option<(T, nat)>, lines: T -> seq<string>, ls: seq<string>, pos: nat, xs: seq<T>, acc: seq<T>)
    requires ReadsBack(read, lines, ls)
    requires At(ls, pos, Concat(lines, xs))
    ensures ReadMany(read, ls, pos, |xs|, acc) == (acc + xs, pos + |Concat(lines, xs)|, true)
    decreases |xs|
  {
    if xs == [] {
      assert acc + xs == acc;
    } else {
      var next := pos + |lines(xs[0])|;
      AtSplit(ls, pos, lines(xs[0]), Concat(lines, xs[1..]));
      ReadManyOf(read, lines, ls, next, xs[1..], acc + [xs[0]]);
      assert acc + [xs[0]] + xs[1..] == acc + xs;
    }
  }

  /** A run read into an empty list is the run itself. */
  lemma ReadAllOf<T(!new)>(read: (seq<string>, nat) -> Option<(T, nat)>, lines: T -> seq<string>, ls: seq<string>, pos: nat, xs: seq<T>)
    requires ReadsBack(read, lines, ls)
    requires At(ls, pos, Concat(lines, xs))
    ensures ReadMany(read, ls, pos, |xs|, []) == (xs, pos + |Concat(lines, xs)|, true)
  {
    ReadManyOf(read, lines, ls, pos, xs, []);
    assert [] + xs == xs;
  }

  lemma ReadColumnOf(ls: seq<string>, pos: nat, c: Column)
    requires At(ls, pos, ColumnLines(c))
    ensures ReadColumn(ls, pos) == Some((c, pos + |ColumnLines(c)|))
  {
    var l := ColumnLines(c);
    AtLine(ls, pos, l, 0);
    AtLine(ls, pos, l, 1);
    AtLine(ls, pos, l, 2);
    ParseIntOfNat(TypeCode(c.ctype));
    ParseIntOfNat(|c.data|);
    forall k | 0 <= k < |c.data|
      ensures Line(ls, pos + 3 + k) == c.data[k]
    {
      AtLine(ls, pos, l, 3 + k);
    }
    assert ReadCells(ls, pos + 3, |c.data|) == c.data;
  }

  /** Any column, wherever its lines stand, is read back by `ReadColumn`. */
  lemma ColumnReadsBack(ls: seq<string>)
    ensures ReadsBack(ReadColumn, ColumnLines, ls)
  {
    forall c, p: nat {:trigger At(ls, p, ColumnLines(c))} | At(ls, p, ColumnLines(c))
      ensures ReadColumn(ls, p) == Some((c, p + |ColumnLines(c)|))
    {
      ReadColumnOf(ls, p, c);
    }
  }

  /** Columns written one after the other are read back by the column loop. */
  lemma ReadColumnsOf(ls: seq<string>, pos: nat, cs: seq<Column>)
    requires At(ls, pos, Concat(ColumnLines, cs))
    ensures ReadColumns(ls, pos, |cs|, []) == Some((cs, pos + |Concat(ColumnLines, cs)|))
  {
    ColumnReadsBack(ls);
    ReadAllOf(ReadColumn, ColumnLines, ls, pos, cs);
  }

  /** The first two lines of a written table give its name and its column
      count; its columns follow. */
  lemma TableHeadOf(ls: seq<string>, pos: nat, t: Table)
    requires At(ls, pos, TableLines(t))
    ensures Line(ls, pos) == t.name && Count(Line(ls, pos + 1)) == Some(|t.columns|)
    ensures At(ls, pos + 2, Concat(ColumnLines, t.columns))
    ensures |TableLines(t)| == 2 + |Concat(ColumnLines, t.columns)|
  {
    var head := [t.name, NatToString(|t.columns|)];
    assert TableLines(t) == head + Concat(ColumnLines, t.columns);
    AtSplit(ls, pos, head, Concat(ColumnLines, t.columns));
    AtLine(ls, pos, head, 0);
    AtLine(ls, pos, head, 1);
    ParseIntOfNat(|t.columns|);
  }

  lemma ReadTableOf(ls: seq<string>, pos: nat, t: Table)
    requires At(ls, pos, TableLines(t))
    ensures ReadTable(ls, pos) == Some((t, pos + |TableLines(t)|))
  {
    TableHeadOf(ls, pos, t);
    ReadColumnsOf(ls, pos + 2, t.columns);
  }

  /** Any table, wherever its lines stand, is read back by `ReadTable`. */
  lemma TablesAt(ls: seq<string>)
    ensures forall t, p: nat {:trigger At(ls, p, TableLines(t))} ::
      At(ls, p, TableLines(t)) ==> ReadTable(ls, p) == Some((t, p + |TableLines(t)|))
  {
    forall t, p: nat {:trigger At(ls, p, TableLines(t))} | At(ls, p, TableLines(t))
      ensures ReadTable(ls, p) == Some((t, p + |TableLines(t)|))
    {
      ReadTableOf(ls, p, t);
    }
  }

  lemma TableReadsBack(ls: seq<string>)
    ensures ReadsBack(ReadTable, TableLines, ls)
  {
    TablesAt(ls);
  }

  /** Tables written one after the other are read back by the table loop. */
  lemma ReadTablesOf(ls: seq<string>, pos: nat, ts: seq<Table>)
    requires At(ls, pos, Concat(TableLines, ts))
    ensures ReadTables(ls, pos, |ts|, []) == (ts, true)
  {
    TableReadsBack(ls);
    ReadAllOf(ReadTable, TableLines, ls, pos, ts);
  }

  /** The first two lines of a written database give its name and its table
      count; its tables follow. */
  lemma SerializedHeadOf(db: DbState, rest: seq<string>)
    ensures var ls := Serialize(db) + rest;
      Line(ls, 0) == db.name && Count(Line(ls, 1)) == Some(|db.tables|) &&
      At(ls, 2, Concat(TableLines, db.tables))
  {
    var ls := Serialize(db) + rest;
    var head := [db.name, NatToString(|db.tables|)];
    AtPrefix(Serialize(db), rest);
    AtSplit(ls, 0, head, Concat(TableLines, db.tables));
    AtLine(ls, 0, head, 0);
    AtLine(ls, 0, head, 1);
    ParseIntOfNat(|db.tables|);
  }

  /** Reading back what was written gives the same database, whatever
      follows the written lines. */
  lemma ParseSerialize(db: DbState, rest: seq<string>)
    ensures Parse(Serialize(db) + rest) == Load(db, true)
  {
    SerializedHeadOf(db, rest);
    ReadTablesOf(Serialize(db) + rest, 2, db.tables);
  }

  // ---------------------------------------------------------------------------
  // The file as text

  predicate ColumnNewlineFree(c: Column) {
    NoNewline(c.name) && forall k :: 0 <= k < |c.data| ==> NoNewline(c.data[k])
  }

  predicate TableNewlineFree(t: Table) {
    NoNewline(t.name) && forall j :: 0 <= j < |t.columns| ==> ColumnNewlineFree(t.columns[j])
  }

  /** No name and no cell holds a line break. Names and cells come from
      whitespace-separated query tokens or from file lines, so none does. */
  predicate NewlineFree(db: DbState) {
    NoNewline(db.name) && forall i :: 0 <= i < |db.tables| ==> TableNewlineFree(db.tables[i])
  }

  predicate LinesNewlineFree(ls: seq<string>) {
    forall i :: 0 <= i < |ls| ==> NoNewline(ls[i])
  }

  lemma DigitsNewlineFree(s: string)
    requires AllDigits(s)
    ensures NoNewline(s)
  {
  }

  lemma {:induction false} ConcatNewlineFree<T>(lines: T -> seq<string>, xs: seq<T>)
    requires forall i :: 0 <= i < |xs| ==> LinesNewlineFree(lines(xs[i]))
    ensures LinesNewlineFree(Concat(lines, xs))
    decreases |xs|
  {
    if xs != [] {
      assert LinesNewlineFree(lines(xs[0]));
      ConcatNewlineFree(lines, xs[1..]);
    }
  }

  lemma ColumnLinesNewlineFree(c: Column)
    requires ColumnNewlineFree(c)
    ensures LinesNewlineFree(ColumnLines(c))
  {
    DigitsNewlineFree(NatToString(TypeCode(c.ctype)));
    DigitsNewlineFree(NatToString(|c.data|));
    var l := ColumnLines(c);
    forall k | 0 <= k < |l|
      ensures NoNewline(l[k])
    {
      if k >= 3 {
        assert l[k] == c.data[k - 3];
      }
    }
  }

  lemma TableLinesNewlineFree(t: Table)
    requires TableNewlineFree(t)
    ensures LinesNewlineFree(TableLines(t))
  {
    forall j | 0 <= j < |t.columns|
      ensures LinesNewlineFree(ColumnLines(t.columns[j]))
    {
      ColumnLinesNewlineFree(t.columns[j]);
    }
    ConcatNewlineFree(ColumnLines, t.columns);
    DigitsNewlineFree(NatToString(|t.columns|));
  }

  /** The text of `WRITE_DATABASE`, cut back into lines by `std::getline`,
      loads the database that was written. */
  lemma WriteThenRead(db: DbState)
    requires NewlineFree(db)
    ensures Parse(SplitLines(JoinLines(Serialize(db)))) == Load(db, true)
  {
    forall i | 0 <= i < |db.tables|
      ensures LinesNewlineFree(TableLines(db.tables[i]))
    {
      TableLinesNewlineFree(db.tables[i]);
    }
    ConcatNewlineFree(TableLines, db.tables);
    DigitsNewlineFree(NatToString(|db.tables|));
    assert LinesNewlineFree(Serialize(db));
    SplitJoin(Serialize(db));
    ParseSerialize(db, [""]);
  }
}
