# A verified model of the simple-database-system query engine

This project models the query engine of `simple-database-system-in-cpp`. The engine is a small in-memory columnar store.

- A `Database` holds a name and an ordered list of tables.
- A table holds an ordered list of columns.
- A column has a name, a TEXT or NUMBER tag and a list of cells kept as text.
- A row is only a position shared by the columns.

`Parser::parseQuery` reads one whitespace-separated command and does the following:

- It checks names, arities and types, then calls the `Database` methods that change the vectors in place.
- A failed check throws `std::invalid_argument`.
- `SELECT` runs a pipeline over the row positions: every row, then WHERE, then ORDER_BY, then print.
- `WRITE_DATABASE` and `READ_DATABASE` save and load the whole database in a line-based text format.

## Modules

- `Wrappers` holds `Option` and `Result`.
- `Strings` models the library behaviour the engine relies on:
  - `toupper`;
  - the order of `std::string`;
  - the decimal prefixes `std::stod` and `std::stoi` accept;
  - decimal count output;
  - `getline` line splitting;
  - the space-separated name lists.
- `Schema` models:
  - the data layout of `db/db.hpp` as datatypes;
  - the `Utils` lookups (`find_if`: the first match, or the end position);
  - `uniqueColumns`;
  - one `Error` variant per exception message.
- `Condition` models `Utils::evaluateCondition`. `None` stands for a `std::stod` that throws.
- `Where` models `parseWhereQuery`:
  - the token scan and its checks (`ScanWhere`);
  - the per-row left fold (`Fold`);
  - the filter (`Selected`, `WhereQuery`).
- `OrderBy` models the key scan of `parseOrderByQuery` and its comparator (`RowLess`). It also sorts an array of row positions in place, in `SortRows`.
- `Rows` holds which rows a single condition selects and the position-erasing surgery of `removeRow`.
- `Persistence` holds the file format as a pure `Serialize` and `Parse` over lines, with the round trip.
- `Store` holds:
  - the `Database` class, whose fields are updated in place by one method per `Database` member function;
  - the pure table transformations those methods are proved against.
- `Commands` gives what `parseQuery` does as a function `Exec` of the database, the files and the query's tokens. `None` marks the inputs on which the source has undefined behaviour.
- `Query` holds the `Parser` class:
  - `ParseQuery` and its per-command helpers;
  - `ParseWhere`, `ParseOrderBy`, `ParseSelect`;
  - the loops of the source, each proved against the `Commands` functions.
- `Properties` holds lemmas across commands:
  - failures change nothing;
  - well-formedness is preserved;
  - the cases where behaviour is defined;
  - the SELECT rows;
  - write-then-read through the dispatcher.

Modelling conventions:

- A query is the sequence of its tokens. Reading past the last token gives `""`, which is what `stream >> s` leaves in an empty `std::string`.
- A file system is a map from path to text.
- A sort that throws is reported as `Err(NumericParse)`, together with a witness pair of rows whose comparison throws.

## Model

| member | source | states |
|---|---|---|
| Schema.TypeCode | db/db.hpp:7-9 | TEXT is written as 0 and NUMBER as 1, and reading the code back gives the type |
| Schema.NewColumn | db/db.hpp:10-14 | a column built from a name and a type has that name and type and no cell |
| Schema.TableIndex | db/db.cpp:32-35 | `getTable` gives the first table with that name, or the end when none has it |
| Schema.TableExistsIff | db/db.cpp:17-21 | `tableExists` holds exactly when some table has that name |
| Schema.ColumnIndex | db/db.cpp:36-39 | `getColumn` gives the first column with that name, or the end when none has it |
| Schema.UniqueColumns | db/db.cpp:40-48 | the vector-size versus set-size test is true exactly when no two columns share a name |
| Store.Database.constructor | db/db.hpp:21-25 | a default database is named "db1" and has no table |
| Strings.LexIrreflexive | db/db.cpp:148-159 | no string is below itself in `std::string` order |
| Strings.LexAsymmetric | db/db.cpp:148-159 | `std::string` order is asymmetric |
| Strings.LexTotal | db/db.cpp:148-159 | two different strings are ordered one way or the other |
| Strings.LexTransitive | db/db.cpp:148-159 | `std::string` order is transitive |
| Strings.NoDigitNotNumber | db/db.cpp:164-171 | a string without a digit is not a number (`isNumber` is false) |
| Strings.ParseIntOfNat | db/db.cpp:245-297 | the count a file line holds, as written by `<<`, reads back with `stoi` as the same number |
| Strings.SplitJoin | db/db.cpp:245-297 | splitting the text of newline-terminated, newline-free lines gives those lines plus an empty last one |
| Strings.JoinNamesEmpty | db/db.cpp:60-73 | a name listing is empty exactly when there is no name, or one empty name |
| Strings.JoinSingle | db/db.cpp:60-73 | a one-name listing is that name |
| Condition.Compare | db/db.cpp:115-163 | TEXT never throws; NUMBER throws exactly when the literal or the cell does not parse; an operator outside the six is never true |
| Condition.OperatorDuality | db/db.cpp:119-160 | `!=`, `>=` and `<=` are the negations of `==`, `<` and `>`, and `>`/`>=` are `<`/`<=` with the operands swapped, for both types |
| Condition.TextTrichotomy | db/db.cpp:141-160 | for TEXT exactly one of `<`, `==`, `>` holds |
| Condition.UnknownOperator | db/db.cpp:162 | any other operator evaluates to false, or throws on a NUMBER cell that does not parse |
| Where.CheckCond | db/db.cpp:553-566 | a WHERE triple passes its checks exactly when the column exists, the operator is one of the six and a NUMBER literal parses |
| Where.ScanWhereSound | db/db.cpp:552-583 | a scan that succeeds reads only valid triples and one connective between each pair, and it stops on a non-connective token or at the end |
| Where.ScanWhereRejects | db/db.cpp:552-566 | a bad triple makes the scan throw that triple's error, so no row is touched |
| Where.ReadClause | db/db.cpp:552-583 | the token loop reads exactly what `ScanWhere` specifies: the checked triples and connectives, or the first check that throws |
| Where.FoldThrows | db/db.cpp:586-597 | a row throws exactly when one of the conditions throws on it, because every condition is evaluated |
| Where.LeftAssociative | db/db.cpp:587-597 | three conditions fold as `(c0 op0 c1) op1 c2` |
| Where.NoPrecedence | db/db.cpp:587-597 | `true OR x AND false` is false: AND does not bind tighter than OR |
| Where.SelectedMembers | db/db.cpp:585-603 | a row is kept exactly when it is in the list and the clause holds on it |
| Where.SelectedAppend | db/db.cpp:585-603 | filtering distributes over concatenation, so kept rows stay in list order |
| Where.WhereQueryInRange | db/db.cpp:541-604 | WHERE keeps rows of its input and leaves the token position inside the query |
| Where.EvaluateRow | db/db.cpp:587-597 | the per-row loop computes the left fold `Fold`, or throws exactly when the fold does |
| Where.FoldNext | db/db.cpp:589-596 | one pass of the inner loop extends the fold by one condition, and a throw there makes the whole row throw |
| Where.KeepRows | db/db.cpp:585-603 | the row loop throws exactly when the clause throws on some row, and otherwise keeps `Selected`: the rows on which the clause holds, in list order |
| Query.Parser.ParseWhere | db/db.cpp:541-604 | the token loop and the row loop give what `WhereQuery` specifies: the first error, or the rows on which the clause holds, in order |
| OrderBy.ScanOrderBySound | db/db.cpp:612-623 | the keys read name existing columns, one key per `column direction` pair |
| OrderBy.RowLessIrreflexive | db/db.cpp:625-647 | the comparator says no row is less than itself |
| OrderBy.RowLessAsymmetric | db/db.cpp:625-647 | the comparator is asymmetric, and it throws on a pair exactly when it throws on the swapped pair |
| OrderBy.NumericTieStops | db/db.cpp:636-643 | two NUMBER cells that differ as text but are equal as numbers make each row "not less" than the other, without looking at later keys |
| OrderBy.RowLessDefined | db/db.cpp:625-647 | the comparator does not throw when every NUMBER key cell of both rows parses |
| OrderBy.SortRows | db/db.cpp:625-647 | the sort permutes the rows and leaves no row right after one the comparator puts behind it; otherwise it reports a pair on which the comparator throws |
| OrderBy.NotBehindTransitive | db/db.cpp:625-647 | when no numeric tie stops the comparator, "not behind" is transitive across three rows |
| OrderBy.SortedOrdered | db/db.cpp:625-647 | a sorted result with no numeric tie among its rows has no row behind any row placed before it, not only its neighbour |
| OrderBy.Insert | db/db.cpp:625-647 | one insertion step permutes the rows and extends the ordered prefix by one row, or reports a pair of rows on which the comparator throws |
| Query.Parser.ParseOrderBy | db/db.cpp:605-648 | a bad key throws before the rows are touched; otherwise the rows are a sorted permutation, or the comparator threw |
| Rows.MatchingMembers | db/db.cpp:231-236 | the rows collected for deletion are exactly those where the condition holds, in increasing order |
| Rows.KeepPositions | db/db.cpp:239-241 | after erasing the doomed positions, element p of a column is the cell at the p-th surviving position |
| Rows.SurvivorsMembers | db/db.cpp:228-243 | the surviving positions are exactly the positions that are not doomed, in increasing order |
| Store.Database.CreateTable | db/db.cpp:179-181 | the new table goes last and nothing else changes |
| Store.Database.RenameTable | db/db.cpp:182-185 | the first table so named takes the new name |
| Store.Database.DropTable | db/db.cpp:186-189 | the first table so named is erased and the others keep their order |
| Store.Database.AddColumn | db/db.cpp:190-193 | the column goes last in its table |
| Store.Database.RenameColumn | db/db.cpp:194-198 | the first column so named takes the new name |
| Store.Database.RemoveColumn | db/db.cpp:199-204 | the first column so named is erased with its cells |
| Store.Database.InsertRow | db/db.cpp:205-210 | each column gets the row's value at its position pushed on |
| Store.InsertAppends | db/db.cpp:205-210 | on an aligned table each column keeps its cells and gains `row[i]` at the end, and the table stays aligned |
| Store.Database.UpdateRow | db/db.cpp:211-227 | the row loop leaves the table `Updated` specifies and throws what it throws |
| Store.UpdateCells | db/db.cpp:211-227 | a bad NUMBER value changes nothing; without a condition every cell takes the value; otherwise exactly the matching rows do; a throw leaves the earlier matches written and the rest untouched |
| Store.UpdateKeepsShape | db/db.cpp:211-227 | only the target column's cells change, and lengths and row count stay the same |
| Store.UpdateUnknownOperator | db/db.cpp:162 | an update whose operator is not one of the six changes no cell |
| Store.Database.RemoveRow | db/db.cpp:228-243 | a condition that throws leaves the table as it was; otherwise the table becomes `Removed` |
| Store.RemoveKeepsSurvivors | db/db.cpp:228-243 | the survivors are the rows where the condition is false, in order; every column keeps exactly their cells and stays aligned |
| Store.SurvivorsExactly | db/db.cpp:228-243 | the surviving positions are increasing and are exactly the rows on which the condition is false |
| Store.RemovedColumn | db/db.cpp:238-242 | after the deletion each column holds, in order, its cells at the surviving positions |
| Store.OverwriteRows | db/db.cpp:217-223 | the row loop writes the value into the rows where the condition holds, up to the first row that throws |
| Store.OverwrittenStep | db/db.cpp:219-223 | one more row visited writes the value exactly when the condition holds on that row |
| Store.MatchingRows | db/db.cpp:230-236 | the index loop succeeds exactly when no row throws, and then collects the matching rows |
| Store.EraseAll | db/db.cpp:239-241 | erasing from the highest index down removes exactly the listed positions |
| Store.EvaluateUnchanged | db/db.cpp:217-223 | writing other cells does not change the condition's value on the current row |
| Store.Database.WriteToFile | db/db.cpp:245-261 | the lines written are `Serialize` of the database |
| Store.WriteTable | db/db.cpp:249-259 | a table is written as its name, its column count and its columns |
| Store.WriteColumn | db/db.cpp:253-258 | a column is written as its name, its type code, its cell count and its cells |
| Store.Database.ReadFromFile | db/db.cpp:263-297 | the nested read loops leave the database `Parse` gives, including a partial load when a count does not parse |
| Store.ReadTableAt | db/db.cpp:270-296 | one pass of the table loop reads what `ReadTable` specifies |
| Store.ReadColumnAt | db/db.cpp:277-293 | one pass of the column loop reads what `ReadColumn` specifies |
| Persistence.Count | db/db.cpp:270 | a count line is usable exactly when `stoi` accepts it |
| Persistence.ReadManyCount | db/db.cpp:270-296 | a counted read loop keeps the items read before a failure, never more than announced, and a complete loop reads exactly the announced number |
| Persistence.ConcatSnoc | db/db.cpp:249-261 | each pass of a write loop appends the lines of one more table or column after those already written |
| Persistence.ReadColumnOf | db/db.cpp:277-293 | the lines written for a column (name, type code, cell count, cells) read back as that column, ending just after them |
| Persistence.ReadManyOf | db/db.cpp:269-296 | a counted read loop over the lines written for a list of items reads back exactly that list, in order, and ends just after it |
| Persistence.ReadColumnsOf | db/db.cpp:277-294 | the column loop reads back a table's columns from their written lines |
| Persistence.ReadTableOf | db/db.cpp:270-295 | the lines written for a table read back as that table, ending just after them |
| Persistence.ReadTablesOf | db/db.cpp:269-296 | the table loop reads back every table from their written lines and completes |
| Persistence.EmptyFile | db/db.cpp:263-269 | an empty file loads an unnamed database with no table, and the load is marked incomplete |
| Persistence.ParseSerialize | db/db.cpp:245-297 | parsing the serialised lines gives back the database: its name, its tables and columns in order, names, types and every cell |
| Persistence.WriteThenRead | db/db.cpp:245-297 | when no name or cell contains a newline, reading the written text gives back the database |
| Commands.FirstBad | db/db.cpp:422-432 | the first NUMBER column whose value does not parse, with every earlier value accepted |
| Commands.FromAt | db/db.cpp:652-654 | the column list ends at the first FROM or from |
| Commands.FirstMissing | db/db.cpp:669-673 | the first listed column the table does not have, with all earlier ones present |
| Commands.Filter | db/db.cpp:675-695 | a selection that succeeds shows the table and header it was asked for |
| Commands.Other | db/db.cpp:473-538 | the file, listing, count and rename commands never produce a selection |
| Commands.Info | db/db.cpp:497-538 | the listing and count commands, and an unknown command, reply with names or a count, never a selection |
| Query.Parser.constructor | db/db.hpp:46-48 | the parser works on the database it is given |
| Query.Parser.ParseQuery | db/db.cpp:299-539 | every command leaves the database, the files and the reply `Exec` specifies, and a sorted selection as `Shows` allows |
| Query.Parser.CreateTableCommand | db/db.cpp:305-326 | CREATE_TABLE rejects an existing name, then duplicate column names, then appends the declared table |
| Query.Parser.RenameTableCommand | db/db.cpp:327-342 | RENAME_TABLE needs the old name to exist and the new one to be absent |
| Query.Parser.DropTableCommand | db/db.cpp:343-352 | DROP_TABLE needs the table to exist |
| Query.Parser.AlterTableCommand | db/db.cpp:353-469 | ALTER_TABLE looks the table up first, then runs the operation `AlterTable` specifies |
| Query.Parser.InsertRowCommand | db/db.cpp:411-436 | INSERT_ROW checks the arity and then every NUMBER value before it appends the row |
| Query.Parser.DeleteRowCommand | db/db.cpp:449-465 | DELETE_ROW needs a condition column and a value, and the column must exist; then it removes the matching rows |
| Query.Parser.OtherCommand | db/db.cpp:473-538 | file, listing, count and rename commands give what `Other` specifies |
| Query.Parser.ParseSelect | db/db.cpp:649-698 | SELECT checks the table and then every shown column, and gives the selection `Select` specifies |
| Query.Parser.FilterRows | db/db.cpp:675-695 | the pipeline starts from every row, then applies WHERE and then ORDER_BY |
| Query.Parser.OrderRows | db/db.cpp:689-695 | an ORDER_BY after the filter sorts the rows it kept |
| Query.DeclaredColumns | db/db.cpp:312-319 | the declaration loop reads `name type` pairs into columns with no cells |
| Query.CheckRow | db/db.cpp:422-432 | the type loop stops at the first NUMBER value `stod` rejects |
| Query.JoinedNames | db/db.cpp:60-73 | the name loop writes every name followed by a space, and the last space is dropped |
| Properties.DeclaredPairs | db/db.cpp:312-319 | the declared columns are the `name type` pairs in order, a lone last token is dropped, and no column has a cell |
| Properties.CreateTableEmpty | db/db.cpp:305-326 | a created table goes last, under a new name, with distinct declared columns and zero rows |
| Properties.AlterFailureKeepsTable | db/db.cpp:365-468 | an ALTER_TABLE operation that throws leaves the table unchanged, unless an UPDATE_ROW condition threw part way |
| Properties.AddColumnAligned | db/db.cpp:365-384 | ADD_COLUMN back-fills `""` up to the row count, so the table stays aligned and keeps its rows |
| Properties.InsertChecks | db/db.cpp:411-436 | INSERT_ROW succeeds exactly when the arity matches and every NUMBER value parses; then it appends the row, otherwise it changes nothing |
| Properties.RenameColumnKeepsWellFormed | db/db.cpp:385-400 | RENAME_COLUMN keeps column names distinct and the table aligned |
| Properties.DropColumnKeepsWellFormed | db/db.cpp:401-410 | DROP_COLUMN keeps column names distinct and the table aligned |
| Properties.InsertKeepsWellFormed | db/db.cpp:411-436 | INSERT_ROW keeps column names distinct and the table aligned |
| Properties.UpdateKeepsWellFormed | db/db.cpp:437-448 | UPDATE_ROW keeps column names distinct and the table aligned, even when it throws part way |
| Properties.DeleteKeepsWellFormed | db/db.cpp:449-465 | DELETE_ROW keeps column names distinct and the table aligned |
| Properties.AlterKeepsWellFormed | db/db.cpp:353-469 | every ALTER_TABLE operation keeps a well-formed table well-formed and keeps its name |
| Properties.OtherKeepsTables | db/db.cpp:473-538 | the other commands change the tables only by a load, and a failure other than a partial load changes nothing |
| Properties.AlterFailureKeepsState | db/db.cpp:353-469 | an ALTER_TABLE that throws changes nothing, except an UPDATE_ROW condition that threw part way |
| Properties.FailureLeavesState | db/db.cpp:299-539 | a command that throws leaves the database and the files as they were, except the two partial updates (UPDATE_ROW, READ_DATABASE) |
| Properties.OnlyWriteWrites | db/db.cpp:473-484 | only a WRITE_DATABASE that succeeds changes the files, and it changes exactly the file it names |
| Properties.TableCommandsKeepFiles | db/db.cpp:305-469 | CREATE_TABLE, RENAME_TABLE, DROP_TABLE and ALTER_TABLE never change the files |
| Properties.OtherKeepsFiles | db/db.cpp:473-538 | among the other commands only a WRITE_DATABASE with a path changes the files, by storing the serialised database under that path |
| Properties.CreateKeepsWellFormed | db/db.cpp:305-326 | CREATE_TABLE keeps table names distinct and every table well-formed |
| Properties.RenameKeepsWellFormed | db/db.cpp:327-342 | RENAME_TABLE keeps table names distinct |
| Properties.DropKeepsWellFormed | db/db.cpp:343-352 | DROP_TABLE keeps table names distinct and every table well-formed |
| Properties.AlterDbKeepsWellFormed | db/db.cpp:353-469 | ALTER_TABLE keeps the database well-formed |
| Properties.ExecKeepsWellFormed | db/db.cpp:299-539 | every command but READ_DATABASE keeps a well-formed database well-formed, whether it succeeds or throws |
| Properties.DefinedOnWellFormed | db/db.cpp:299-539 | on a well-formed database, only SELECT and an UPDATE_ROW naming a missing column can reach undefined behaviour; a missing condition column matters only once the new value has passed its type check |
| Properties.AlterTableDefined | db/db.cpp:353-469 | on a well-formed table every ALTER_TABLE operation is defined, UPDATE_ROW when its columns exist |
| Properties.UpdateBadValueThrows | db/db.cpp:211-218 | UPDATE_ROW with a value its NUMBER column rejects throws that error and changes nothing, whether or not the condition column exists |
| Properties.SelectedIncreasing | db/db.cpp:585-603 | WHERE keeps rows in increasing order |
| Properties.FilterRowsChosen | db/db.cpp:675-688 | without WHERE the rows are `0..n-1`; with it they are exactly the rows below n on which the clause holds, in increasing order |
| Properties.FilterRows | db/db.cpp:675-688 | the pipeline starts from every row; without WHERE it passes them all on, with WHERE it passes on what the clause selects |
| Properties.SelectedAll | db/db.cpp:585-603 | a clause applied to every row of a table keeps exactly the rows on which it holds, in increasing order |
| Properties.SelectShape | db/db.cpp:649-698 | a selection names an existing table, shows only its columns (all of them for `*`), and its rows are increasing and below the row count |
| Properties.WriteThenReadBack | db/db.cpp:473-496 | a WRITE_DATABASE followed by a READ_DATABASE of the same path restores the database, whatever database it replaces, when no name or cell holds a newline |

## Left out

- Tokenisation: the `stringstream` reads, `seekg` and `tellg` are left out. A query is given as its token sequence, and an unread token is left for the caller. The `INSERT_ROW` value loop is modelled as "every remaining token".
- `std::stod` and `std::stoi`: only optional white space, an optional sign and a decimal prefix (`digits[.digits]`) are modelled. Exponents, `inf`, `nan`, hexadecimal and out-of-range throws are not. Values are exact rationals, not doubles.
- Type codes other than 0 and 1 read from a file behave as TEXT, because every check compares against NUMBER. The cast itself is not modelled.
- `std::ranges::sort`: an insertion sort over an array stands in for it. The model claims only what holds for any sort with this comparator: a permutation with no adjacent pair out of order, or a throw. It claims no stability and no particular order among ties.
- The ORDER_BY comparator is not a strict weak order (the numeric-tie quirk), and `std::sort` with such a comparator has undefined behaviour in C++. The model gives it the insertion sort's behaviour instead.
- `Utils::printTable` and every `fmt::println` message are left out. Errors carry the names their messages show, but not the text.
- The invalid-operator message of `parseWhereQuery` shows the last connective read, not the operator. Message texts are not modelled, so `BadOperator` carries no text.
- main.cpp (the console loop) is not part of this model.
- `valueExists`, `uniqueValue`, `getNumberOfTables` and `getNumberOfColumns` are not used by the engine's logic apart from the counts, which are modelled as sequence lengths.
- File opening: a file is a map entry. Writing to an empty path and reading an empty or absent path fail with `CannotOpen`. No other open failure (permissions, directories) is modelled.
- Commands.Select: treats a table whose columns are shorter than its first column as undefined, although the source misbehaves only when a row it touches is past a column's end. A well-formed database never has such a table (`ExecKeepsWellFormed`).
- Commands.DeleteFrom: over-requires in the same way. It treats a table with a column shorter than its first as undefined.
- Store.Database.RemoveRow: requires every column to be at least as long as the first, for the same reason.
- Store.UpdateDefined: requires the condition column to be no longer than the target column, so that the row loop stays inside both. Shorter target columns occur only in tables that are not well-formed.
- Query.Parser.ParseQuery: requires the command to be defined (`Exec(...).Some?`). The undefined cases are a missing target column in UPDATE_ROW, a missing condition column once the new value has passed its type check, a SELECT over a table with no column, and an empty or dangling WHERE clause with rows to filter.
- Strings.Upper: changes only ASCII `a`-`z`, as `toupper` in the "C" locale does. Other locales are not modelled.
