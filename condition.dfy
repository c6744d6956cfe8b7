/** `Utils::evaluateCondition`: one comparison of a stored cell with a
    literal. NUMBER columns compare the `std::stod` values of both, TEXT
    columns compare the strings themselves. */
module Condition {
  import opened Wrappers
  import opened Strings
  import opened Schema

  /** The six operators the WHERE clause accepts. */
  predicate IsOperator(op: string) {
    op == ">" || op == ">=" || op == "<" || op == "<=" || op == "==" || op == "!="
  }

  function CompareReals(x: real, op: string, y: real): bool {
    if op == ">" then x > y
    else if op == ">=" then x >= y
    else if op == "<" then x < y
    else if op == "<=" then x <= y
    else if op == "==" then x == y
    else if op == "!=" then x != y
    else false
  }

  /** `std::string`'s comparison operators: `>` is the converse of `<`, and
      `>=`, `<=` are the negations of `<`, `>`. */
  function CompareStrings(a: string, op: string, b: string): bool {
    if op == "==" then a == b
    else if op == "!=" then a != b
    else if op == ">" then LexLess(b, a)
    else if op == ">=" then !LexLess(a, b)
    else if op == "<" then LexLess(a, b)
    else if op == "<=" then !LexLess(b, a)
    else false
  }

  /** The comparison `cell op literal` in a column of type `ctype`; None when
      `std::stod` throws on the literal or on the cell. A NUMBER column parses
      both before it looks at the operator; an operator outside the six
      yields false. */
  function Compare(ctype: ColumnType, cell: string, op: string, literal: string): (r: Option<bool>)
    ensures ctype == Text ==> r.Some?
    ensures ctype == Number ==> (r.Some? <==> ParseNum(literal).Some? && ParseNum(cell).Some?)
    ensures !IsOperator(op) ==> r != Some(true)
  {
    match ctype
    case Number =>
      (match (ParseNum(literal), ParseNum(cell))
       case (Some(y), Some(x)) => Some(CompareReals(x, op, y))
       case _ => None)
    case Text => Some(CompareStrings(cell, op, literal))
  }

  /** `evaluateCondition(table, column, op, literal, row)`. */
  function EvaluateCondition(t: Table, column: string, op: string, literal: string, row: nat): Option<bool>
    requires ColumnExists(t, column) && row < |GetColumn(t, column).data|
  {
    var c := GetColumn(t, column);
    Compare(c.ctype, c.data[row], op, literal)
  }

  function Not(r: Option<bool>): Option<bool> {
    match r
    case None => None
    case Some(b) => Some(!b)
  }

  /** The operator set means the same for both types: `!=`, `>=`, `<=` are the
      negations of `==`, `<`, `>`, and `>`, `>=` are `<`, `<=` with the two
      sides exchanged. */
  lemma OperatorDuality(ctype: ColumnType, a: string, b: string)
    ensures Compare(ctype, a, "!=", b) == Not(Compare(ctype, a, "==", b))
    ensures Compare(ctype, a, ">=", b) == Not(Compare(ctype, a, "<", b))
    ensures Compare(ctype, a, "<=", b) == Not(Compare(ctype, a, ">", b))
    ensures Compare(ctype, a, ">", b) == Compare(ctype, b, "<", a)
    ensures Compare(ctype, a, ">=", b) == Compare(ctype, b, "<=", a)
  {
  }

  /** On TEXT exactly one of `<`, `==`, `>` holds. */
  lemma TextTrichotomy(a: string, b: string)
    ensures Compare(Text, a, "<", b) == Some(true) || Compare(Text, a, "==", b) == Some(true) || Compare(Text, a, ">", b) == Some(true)
    ensures !(Compare(Text, a, "<", b) == Some(true) && Compare(Text, a, ">", b) == Some(true))
    ensures Compare(Text, a, "==", b) == Some(true) ==> Compare(Text, a, "<", b) == Some(false)
  {
    LexTotal(a, b);
    LexAsymmetric(a, b);
    LexIrreflexive(a);
  }

  /** An operator outside the six never selects a row: on TEXT it is false,
      on NUMBER it is false once both sides parse (and throws otherwise). */
  lemma UnknownOperator(ctype: ColumnType, cell: string, op: string, literal: string)
    requires !IsOperator(op)
    ensures Compare(ctype, cell, op, literal) ==
      if ctype == Number && (ParseNum(literal).None? || ParseNum(cell).None?) then None else Some(false)
  {
  }
}
