/** The WHERE clause of `Parser::parseWhereQuery`: triples `column op value`
    joined by AND/OR, every triple checked before any row is looked at, and a
    strict left fold with no precedence between AND and OR. */
module Where {
  import opened Wrappers
  import opened Strings
  import opened Schema
  import opened Condition

  datatype Connective = And | Or

  /** A connective token: AND or OR in any letter case. */
  function ConnectiveOf(token: string): Option<Connective> {
    var u := Upper(token);
    if u == "AND" then Some(And) else if u == "OR" then Some(Or) else None
  }

  datatype Cond = Cond(column: string, op: string, literal: string)

  /** The three checks made on each triple as it is read, in their order. */
  function CheckCond(t: Table, c: Cond): (e: Option<Error>)
    ensures e.None? <==> ValidCond(t, c)
  {
    if !ColumnExists(t, c.column) then Some(NoSuchColumn(c.column))
    else if !IsOperator(c.op) then Some(BadOperator)
    else if GetColumn(t, c.column).ctype == Number && ParseNum(c.literal).None? then Some(NotANumber(c.literal, c.column))
    else None
  }

  /** The column exists, the operator is one of the six, and a NUMBER
      column's literal parses. */
  predicate ValidCond(t: Table, c: Cond) {
    ColumnExists(t, c.column) && IsOperator(c.op)
    && (GetColumn(t, c.column).ctype == Number ==> ParseNum(c.literal).Some?)
  }

  /** The conditions read, and the connectives read between them. */
  datatype Clause = Clause(conds: seq<Cond>, ops: seq<Connective>)

  /** At least one condition and no dangling connective. */
  predicate Complete(w: Clause) {
    |w.conds| == |w.ops| + 1
  }

  predicate AllValid(t: Table, conds: seq<Cond>) {
    forall i :: 0 <= i < |conds| ==> ValidCond(t, conds[i])
  }

  /** The token loop of parseWhereQuery, resumed at `pos` with `acc` read so
      far. It reads a triple while three tokens remain (fewer are consumed and
      dropped), checks it, then reads one more token: AND/OR continues the
      loop, anything else is left at the returned position for the caller. */
  function ScanWhere(t: Table, ts: seq<string>, pos: nat, acc: Clause): Result<(Clause, nat), Error>
    requires pos <= |ts|
    decreases |ts| - pos
  {
    if |ts| - pos < 3 then Ok((acc, |ts|))
    else
      var c := Cond(ts[pos], ts[pos + 1], ts[pos + 2]);
      match CheckCond(t, c)
      case Some(e) => Err(e)
      case None =>
        var read := acc.(conds := acc.conds + [c]);
        if pos + 3 == |ts| then Ok((read, pos + 3))
        else match ConnectiveOf(ts[pos + 3])
          case None => Ok((read, pos + 3))
          case Some(k) => ScanWhere(t, ts, pos + 4, read.(ops := read.ops + [k]))
  }

  /** What the token loop promises: every condition it returns passed the
      three checks, connectives sit only between conditions (one may dangle
      at the very end), and it stops at the end or before a token that is
      not a connective. */
  lemma {:induction false} ScanWhereSound(t: Table, ts: seq<string>, pos: nat, acc: Clause)
    requires pos <= |ts|
    requires AllValid(t, acc.conds) && |acc.ops| == |acc.conds|
    requires ScanWhere(t, ts, pos, acc).Ok?
    ensures var (w, next) := ScanWhere(t, ts, pos, acc).value;
      AllValid(t, w.conds)
      && (Complete(w) || (|w.ops| == |w.conds| && next == |ts|))
      && |acc.conds| <= |w.conds| && w.conds[..|acc.conds|] == acc.conds
      && pos <= next <= |ts|
      && (next == |ts| || ConnectiveOf(ts[next]).None?)
    decreases |ts| - pos
  {
    if |ts| - pos >= 3 {
      var c := Cond(ts[pos], ts[pos + 1], ts[pos + 2]);
      var read := acc.(conds := acc.conds + [c]);
      assert AllValid(t, read.conds);
      if pos + 3 < |ts| && ConnectiveOf(ts[pos + 3]).Some? {
        var k := ConnectiveOf(ts[pos + 3]).value;
        ScanWhereSound(t, ts, pos + 4, read.(ops := read.ops + [k]));
        var w := ScanWhere(t, ts, pos, acc).value.0;
        assert w.conds[..|read.conds|][..|acc.conds|] == w.conds[..|acc.conds|];
      }
    }
  }

  /** A triple that fails a check aborts the whole clause with that check's
      error. */
  lemma ScanWhereRejects(t: Table, ts: seq<string>, pos: nat, acc: Clause)
    requires pos + 3 <= |ts|
    requires !ValidCond(t, Cond(ts[pos], ts[pos + 1], ts[pos + 2]))
    ensures ScanWhere(t, ts, pos, acc) == Err(CheckCond(t, Cond(ts[pos], ts[pos + 1], ts[pos + 2])).value)
  {
  }

  // ---------------------------------------------------------------------------
  // Evaluation

  function Combine(acc: bool, k: Connective, next: bool): bool {
    match k
    case And => acc && next
    case Or => acc || next
  }

  /** One condition on one row. */
  function Eval(t: Table, c: Cond, row: nat): Option<bool>
    requires ColumnExists(t, c.column) && InRange(t, row)
  {
    EvaluateCondition(t, c.column, c.op, c.literal, row)
  }

  /** The clause on one row: the first condition, then every (connective,
      condition) pair folded in from the left. Every condition is evaluated,
      so one that throws makes the whole row throw (None). */
  function Fold(t: Table, w: Clause, row: nat): Option<bool>
    requires Complete(w) && AllValid(t, w.conds) && InRange(t, row)
    decreases |w.ops|
  {
    if w.ops == [] then Eval(t, w.conds[0], row)
    else
      var n := |w.ops|;
      var prefix := Fold(t, Clause(w.conds[..n], w.ops[..n - 1]), row);
      match (prefix, Eval(t, w.conds[n], row))
      case (Some(a), Some(b)) => Some(Combine(a, w.ops[n - 1], b))
      case _ => None
  }

  /** The fold as the evaluation loop sees it: the first condition, then
      the pairs up to the `i`-th connective folded in one by one. */
  function FoldTo(t: Table, w: Clause, row: nat, i: nat): Option<bool>
    requires Complete(w) && AllValid(t, w.conds) && InRange(t, row) && i <= |w.ops|
  {
    if i == 0 then Eval(t, w.conds[0], row)
    else match (FoldTo(t, w, row, i - 1), Eval(t, w.conds[i], row))
      case (Some(a), Some(b)) => Some(Combine(a, w.ops[i - 1], b))
      case _ => None
  }

  /** Folding up to the `i`-th connective is folding the clause cut there. */
  lemma {:induction false} FoldToPrefix(t: Table, w: Clause, row: nat, i: nat)
    requires Complete(w) && AllValid(t, w.conds) && InRange(t, row) && i <= |w.ops|
    ensures FoldTo(t, w, row, i) == Fold(t, Clause(w.conds[..i + 1], w.ops[..i]), row)
  {
    var p := Clause(w.conds[..i + 1], w.ops[..i]);
    if i == 0 {
      assert p.ops == [];
    } else {
      FoldToPrefix(t, w, row, i - 1);
      assert p.conds[..i] == w.conds[..i] && p.ops[..i - 1] == w.ops[..i - 1];
      assert p.conds[i] == w.conds[i] && p.ops[i - 1] == w.ops[i - 1];
    }
  }

  /** Folding up to the last connective is the fold of the clause. */
  lemma FoldToWhole(t: Table, w: Clause, row: nat)
    requires Complete(w) && AllValid(t, w.conds) && InRange(t, row)
    ensures FoldTo(t, w, row, |w.ops|) == Fold(t, w, row)
  {
    FoldToPrefix(t, w, row, |w.ops|);
    assert w.conds[..|w.ops| + 1] == w.conds && w.ops[..|w.ops|] == w.ops;
  }

  /** Some condition of the list throws on the row. */
  predicate AnyThrows(t: Table, conds: seq<Cond>, row: nat)
    requires AllValid(t, conds) && InRange(t, row)
  {
    |conds| > 0 && (AnyThrows(t, conds[..|conds| - 1], row) || Eval(t, conds[|conds| - 1], row).None?)
  }

  /** The fold throws exactly when one of the conditions throws: nothing is
      short-circuited. */
  lemma {:induction false} FoldThrows(t: Table, w: Clause, row: nat)
    requires Complete(w) && AllValid(t, w.conds) && InRange(t, row)
    ensures Fold(t, w, row).None? <==> AnyThrows(t, w.conds, row)
    decreases |w.ops|
  {
    if w.ops != [] {
      var n := |w.ops|;
      FoldThrows(t, Clause(w.conds[..n], w.ops[..n - 1]), row);
    } else {
      assert w.conds[..0] == [];
    }
  }

  /** A list throws when a prefix of it does. */
  lemma {:induction false} AnyThrowsPrefix(t: Table, conds: seq<Cond>, row: nat, k: nat)
    requires AllValid(t, conds) && InRange(t, row) && k <= |conds|
    requires AnyThrows(t, conds[..k], row)
    ensures AnyThrows(t, conds, row)
    decreases |conds|
  {
    if k < |conds| {
      var init := conds[..|conds| - 1];
      assert init[..k] == conds[..k];
      AnyThrowsPrefix(t, init, row, k);
    } else {
      assert conds[..k] == conds;
    }
  }

  /** Once a prefix of the clause throws on a row, the whole clause does. */
  lemma FoldPrefixThrows(t: Table, w: Clause, row: nat, n: nat)
    requires Complete(w) && AllValid(t, w.conds) && InRange(t, row) && n <= |w.ops|
    requires Fold(t, Clause(w.conds[..n + 1], w.ops[..n]), row).None?
    ensures Fold(t, w, row).None?
  {
    var p := Clause(w.conds[..n + 1], w.ops[..n]);
    FoldThrows(t, p, row);
    AnyThrowsPrefix(t, w.conds, row, n + 1);
    FoldThrows(t, w, row);
  }

  /** Once the loop's fold throws, so does the clause. */
  lemma FoldToThrows(t: Table, w: Clause, row: nat, i: nat)
    requires Complete(w) && AllValid(t, w.conds) && InRange(t, row) && i <= |w.ops|
    requires FoldTo(t, w, row, i).None?
    ensures Fold(t, w, row).None?
  {
    FoldToPrefix(t, w, row, i);
    FoldPrefixThrows(t, w, row, i);
  }

  /** Strict left association: `a k1 b k2 c` is `(a k1 b) k2 c`. */
  lemma LeftAssociative(t: Table, w: Clause, row: nat, a: bool, b: bool, c: bool)
    requires |w.conds| == 3 && |w.ops| == 2 && AllValid(t, w.conds) && InRange(t, row)
    requires Eval(t, w.conds[0], row) == Some(a)
    requires Eval(t, w.conds[1], row) == Some(b)
    requires Eval(t, w.conds[2], row) == Some(c)
    ensures Fold(t, w, row) == Some(Combine(Combine(a, w.ops[0], b), w.ops[1], c))
  {
    var p := Clause(w.conds[..2], w.ops[..1]);
    var q := Clause(p.conds[..1], p.ops[..0]);
    assert q.conds[0] == w.conds[0] && q.ops == [];
    assert Fold(t, q, row) == Some(a);
    assert p.conds[1] == w.conds[1] && p.ops[0] == w.ops[0];
    assert Fold(t, p, row) == Some(Combine(a, w.ops[0], b));
  }

  /** There is no precedence: `a OR b AND c` with a true and c false is
      false, where AND binding tighter would make it true. */
  lemma NoPrecedence(t: Table, w: Clause, row: nat, b: bool)
    requires |w.conds| == 3 && w.ops == [Or, And] && AllValid(t, w.conds) && InRange(t, row)
    requires Eval(t, w.conds[0], row) == Some(true)
    requires Eval(t, w.conds[1], row) == Some(b)
    requires Eval(t, w.conds[2], row) == Some(false)
    ensures Fold(t, w, row) == Some(false)
    ensures Fold(t, w, row) != Some(true || (b && false))
  {
    LeftAssociative(t, w, row, true, b, false);
  }

  // ---------------------------------------------------------------------------
  // Filtering the row list

  /** No row of the list makes the clause throw. */
  predicate AllEvaluate(t: Table, w: Clause, rows: seq<nat>)
    requires Complete(w) && AllValid(t, w.conds) && AllInRange(t, rows)
  {
    forall i :: 0 <= i < |rows| ==> Fold(t, w, rows[i]).Some?
  }

  /** The rows of the list on which the clause holds, in list order. */
  function Selected(t: Table, w: Clause, rows: seq<nat>): seq<nat>
    requires Complete(w) && AllValid(t, w.conds) && AllInRange(t, rows)
  {
    if rows == [] then []
    else
      var last := rows[|rows| - 1];
      Selected(t, w, rows[..|rows| - 1]) + (if Fold(t, w, last) == Some(true) then [last] else [])
  }

  /** A row is kept exactly when it is in the list and the clause holds on it. */
  lemma {:induction false} SelectedMembers(t: Table, w: Clause, rows: seq<nat>, x: nat)
    requires Complete(w) && AllValid(t, w.conds) && AllInRange(t, rows)
    ensures x in Selected(t, w, rows) <==> x in rows && InRange(t, x) && Fold(t, w, x) == Some(true)
  {
    if rows != [] {
      var init := rows[..|rows| - 1];
      SelectedMembers(t, w, init, x);
      assert rows == init + [rows[|rows| - 1]];
    }
  }

  /** Filtering keeps list order: it distributes over concatenation. */
  lemma {:induction false} SelectedAppend(t: Table, w: Clause, xs: seq<nat>, ys: seq<nat>)
    requires Complete(w) && AllValid(t, w.conds) && AllInRange(t, xs) && AllInRange(t, ys)
    ensures AllInRange(t, xs + ys)
    ensures Selected(t, w, xs + ys) == Selected(t, w, xs) + Selected(t, w, ys)
    decreases |ys|
  {
    assert AllInRange(t, xs + ys) by {
      forall i | 0 <= i < |xs + ys| ensures InRange(t, (xs + ys)[i]) {
        if i >= |xs| {
          assert (xs + ys)[i] == ys[i - |xs|];
        }
      }
    }
    if ys != [] {
      var init := ys[..|ys| - 1];
      SelectedAppend(t, w, xs, init);
      assert (xs + ys)[..|xs + ys| - 1] == xs + init;
    } else {
      assert xs + ys == xs;
    }
  }

  /** `parseWhereQuery` on the row list `rows`, reading from token `pos`: the
      clause is read and checked first, and only then filtered over the rows.
      Returns the kept rows and the position of the first token left over. */
  function WhereQuery(t: Table, ts: seq<string>, pos: nat, rows: seq<nat>): Result<(seq<nat>, nat), Error>
    requires pos <= |ts| && AllInRange(t, rows) && WhereDefined(t, ts, pos, rows)
  {
    match ScanWhere(t, ts, pos, Clause([], []))
    case Err(e) => Err(e)
    case Ok((w, next)) =>
      ScanWhereSound(t, ts, pos, Clause([], []));
      if rows == [] then Ok(([], next))
      else if !AllEvaluate(t, w, rows) then Err(NumericParse)
      else Ok((Selected(t, w, rows), next))
  }

  /** The source indexes the first condition, and the condition after every
      connective, once per row: with a row to filter, an empty clause or a
      dangling AND/OR is undefined behaviour. */
  predicate WhereDefined(t: Table, ts: seq<string>, pos: nat, rows: seq<nat>)
    requires pos <= |ts|
  {
    match ScanWhere(t, ts, pos, Clause([], []))
    case Err(_) => true
    case Ok((w, _)) => rows == [] || Complete(w)
  }

  /** The rows WHERE keeps are rows of the list, and the tokens it leaves
      start inside the query. */
  lemma WhereQueryInRange(t: Table, ts: seq<string>, pos: nat, rows: seq<nat>)
    requires pos <= |ts| && AllInRange(t, rows) && WhereDefined(t, ts, pos, rows)
    requires WhereQuery(t, ts, pos, rows).Ok?
    ensures var (kept, next) := WhereQuery(t, ts, pos, rows).value;
      AllInRange(t, kept) && pos <= next <= |ts|
  {
    ScanWhereSound(t, ts, pos, Clause([], []));
    var (w, next) := ScanWhere(t, ts, pos, Clause([], [])).value;
    if rows != [] {
      var kept := Selected(t, w, rows);
      forall i | 0 <= i < |kept| ensures InRange(t, kept[i]) {
        SelectedMembers(t, w, rows, kept[i]);
      }
    }
  }

  // ---------------------------------------------------------------------------
  // The loops of parseWhereQuery

  /** The token loop of parseWhereQuery: condition triples, each checked
      as it is read, joined by the connective after each. */
  method ReadClause(t: Table, ts: seq<string>, pos: nat) returns (r: Result<(Clause, nat), Error>)
    requires pos <= |ts|
    ensures r == ScanWhere(t, ts, pos, Clause([], []))
  {
    var w := Clause([], []);
    var at := pos;
    var done := false;
    while !done
      invariant at <= |ts|
      invariant !done ==> |w.ops| == |w.conds| && ScanWhere(t, ts, pos, Clause([], [])) == ScanWhere(t, ts, at, w)
      invariant done ==> ScanWhere(t, ts, pos, Clause([], [])) == Ok((w, at))
      decreases |ts| - at, if done then 0 else 1
    {
      if |ts| - at < 3 {
        at, done := |ts|, true;
      } else {
        var c := Cond(ts[at], ts[at + 1], ts[at + 2]);
        var e := CheckCond(t, c);
        if e.Some? {
          return Err(e.value);
        }
        w := w.(conds := w.conds + [c]);
        var k := if at + 3 == |ts| then None else ConnectiveOf(ts[at + 3]);
        if k.None? {
          at, done := at + 3, true;
        } else {
          w, at := w.(ops := w.ops + [k.value]), at + 4;
        }
      }
    }
    r := Ok((w, at));
  }

  /** The row loop of parseWhereQuery: every row is evaluated in list
      order, and those on which the clause holds are kept. */
  method KeepRows(t: Table, w: Clause, rows: seq<nat>) returns (r: Option<seq<nat>>)
    requires Complete(w) && AllValid(t, w.conds) && AllInRange(t, rows)
    ensures r.None? <==> !AllEvaluate(t, w, rows)
    ensures r.Some? ==> r.value == Selected(t, w, rows)
  {
    var kept: seq<nat> := [];
    for i := 0 to |rows|
      invariant AllInRange(t, rows[..i])
      invariant AllEvaluate(t, w, rows[..i])
      invariant kept == Selected(t, w, rows[..i])
    {
      assert rows[..i + 1] == rows[..i] + [rows[i]];
      var holds := EvaluateRow(t, w, rows[i]);
      if holds.None? {
        assert !AllEvaluate(t, w, rows);
        return None;
      }
      if holds.value {
        kept := kept + [rows[i]];
      }
    }
    assert rows[..|rows|] == rows;
    r := Some(kept);
  }

  /** The per-row loop of parseWhereQuery: the first condition, then each
      connective with the next condition, every one of them evaluated. */
  method EvaluateRow(t: Table, w: Clause, row: nat) returns (holds: Option<bool>)
    requires Complete(w) && AllValid(t, w.conds) && InRange(t, row)
    ensures holds == Fold(t, w, row)
  {
    holds := Eval(t, w.conds[0], row);
    if holds.None? {
      FoldToThrows(t, w, row, 0);
      return None;
    }
    for i := 0 to |w.ops|
      invariant holds.Some? && holds == FoldTo(t, w, row, i)
    {
      holds := FoldNext(t, w, row, i, holds.value);
      if holds.None? {
        return None;
      }
    }
    FoldToWhole(t, w, row);
  }

  /** One pass of the row loop: the next condition, combined with what has
      been folded so far by the connective before it. */
  method FoldNext(t: Table, w: Clause, row: nat, i: nat, acc: bool) returns (holds: Option<bool>)
    requires Complete(w) && AllValid(t, w.conds) && InRange(t, row) && i < |w.ops|
    requires FoldTo(t, w, row, i) == Some(acc)
    ensures holds == FoldTo(t, w, row, i + 1)
    ensures holds.None? ==> Fold(t, w, row).None?
  {
    var next := Eval(t, w.conds[i + 1], row);
    if next.None? {
      FoldToThrows(t, w, row, i + 1);
      return None;
    }
    holds := Some(Combine(acc, w.ops[i], next.value));
  }
}
