/** Compiling WHERE expressions to row predicates. */
module Predicates {
  import opened Values
  import opened Comparison
  import opened Ast

  datatype WhereError = UnsupportedExpression | LeftNotIdentifier | RightNotLiteral | UnsupportedOperator(op: string)

  /** The cell a name refers to: under its qualified name if it has one, else under its own. */
  function CellOf(row: Row, table: string, name: string): (v: Option<Value>)
  {
    if table != "" && table + "." + name in row then Some(row[table + "." + name])
    else if name in row then Some(row[name])
    else None
  }

  function Build(e: Expr): (r: Result<RowPredicate, WhereError>)
  {
    match e
    case Binary(l, op, r) => BuildComparison(l, op, r)
    case Logical(l, op, r) =>
      var left :- Build(l);
      var right :- Build(r);
      if op == "AND" then Ok((row: Row) => left(row) && right(row))
      else if op == "OR" then Ok((row: Row) => left(row) || right(row))
      else Err(UnsupportedOperator(op))
    case _ => Err(UnsupportedExpression)
  }

  function BuildComparison(l: Expr, op: string, r: Expr): (p: Result<RowPredicate, WhereError>)
  {
    if !l.Identifier? then Err(LeftNotIdentifier)
    else if !r.Literal? then Err(RightNotLiteral)
    else
      var table, name, target := l.table, l.name, r.value;
      Ok((row: Row) =>
        var v := CellOf(row, table, name);
        v.Some? && CompareValues(v.value, op, target))
  }

  // ------------------------------------------------------------------ direct meaning

  /** Comparisons of a column with a literal, under AND and OR in capital letters. */
  predicate Supported(e: Expr)
  {
    match e
    case Binary(l, _, r) => l.Identifier? && r.Literal?
    case Logical(l, op, r) => Supported(l) && Supported(r) && (op == "AND" || op == "OR")
    case _ => false
  }

  /** The truth of a WHERE expression for a row; a column the row lacks makes a comparison
      false, whatever the operator. */
  predicate TrueOf(e: Expr, row: Row)
    requires Supported(e)
  {
    match e
    case Binary(l, op, r) =>
      CellOf(row, l.table, l.name).Some? && CompareValues(CellOf(row, l.table, l.name).value, op, r.value)
    case Logical(l, op, r) => if op == "AND" then TrueOf(l, row) && TrueOf(r, row) else TrueOf(l, row) || TrueOf(r, row)
  }

  /** The builder accepts exactly the supported expressions, and the closure it builds tells
      the truth of the expression for every row. */
  lemma {:induction false} BuildMeaning(e: Expr)
    ensures Build(e).Ok? <==> Supported(e)
    ensures Supported(e) ==> forall row :: Build(e).value(row) == TrueOf(e, row)
  {
    hide CompareValues;
    match e
    case Logical(l, op, r) =>
      BuildMeaning(l);
      BuildMeaning(r);
    case _ =>
  }
}
