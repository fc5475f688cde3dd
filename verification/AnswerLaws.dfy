/** What a SELECT answers, read off the statement: which rows, in which order, with which cells. */
module AnswerLaws {
  import opened Values
  import opened HashIndex
  import opened Comparison
  import opened TableSpec
  import opened JoinSpec
  import opened JoinRows
  import opened Ast
  import opened Predicates
  import opened Projections
  import opened Planner
  import opened Executor
  import opened QueryLaws

  // --------------------------------------------------------------------------- WHERE

  /** The cell that a column name in WHERE stands for: the one of its qualified name if the row
      has it, and else the one of the name alone. */
  ghost predicate NamesCell(row: Row, table: string, name: string, c: string)
  {
    c in row && c == if table != "" && table + "." + name in row then table + "." + name else name
  }

  /** A comparison is true of a row if its cell is there and compares. */
  lemma ComparisonTrue(l: Expr, op: string, r: Expr, row: Row)
    requires l.Identifier? && r.Literal?
    ensures Supported(Binary(l, op, r))
    ensures TrueOf(Binary(l, op, r), row) <==>
      exists c :: NamesCell(row, l.table, l.name, c) && CompareValues(row[c], op, r.value)
  {
    hide CompareValues;
    var c := if l.table != "" && l.table + "." + l.name in row then l.table + "." + l.name else l.name;
    if TrueOf(Binary(l, op, r), row) {
      assert NamesCell(row, l.table, l.name, c);
    }
  }

  lemma LogicalTrue(l: Expr, r: Expr, row: Row)
    requires Supported(l) && Supported(r)
    ensures TrueOf(Logical(l, "AND", r), row) <==> TrueOf(l, row) && TrueOf(r, row)
    ensures TrueOf(Logical(l, "OR", r), row) <==> TrueOf(l, row) || TrueOf(r, row)
  {
  }

  /** Why an expression is no WHERE condition: the first reason from left to right. */
  lemma WhereRefused(l: Expr, op: string, r: Expr, text: string, v: Value, kind: LiteralKind)
    ensures Build(Literal(text, v, kind)) == Build(Identifier("", text)) == Err(UnsupportedExpression)
    ensures !l.Identifier? ==> Build(Binary(l, op, r)) == Err(LeftNotIdentifier)
    ensures l.Identifier? && !r.Literal? ==> Build(Binary(l, op, r)) == Err(RightNotLiteral)
    ensures Build(l).Err? ==> Build(Logical(l, op, r)) == Err(Build(l).error)
    ensures Build(l).Ok? && Build(r).Err? ==> Build(Logical(l, op, r)) == Err(Build(r).error)
    ensures Build(l).Ok? && Build(r).Ok? && op != "AND" && op != "OR" ==>
      Build(Logical(l, op, r)) == Err(UnsupportedOperator(op))
  {
  }

  ghost predicate WhereHolds(where: Option<Expr>, row: Row)
  {
    where.Some? ==> Supported(where.value) && TrueOf(where.value, row)
  }

  lemma {:induction false} SatisfyingKept(where: Option<Expr>, rows: seq<Row>)
    requires where.Some? ==> Supported(where.value)
    ensures Satisfying(where, rows) == Kept(rows, row => !WhereHolds(where, row))
  {
    hide TrueOf, Supported;
    if rows != [] {
      SatisfyingKept(where, rows[..|rows| - 1]);
    }
  }

  // ---------------------------------------------------------------------- select list

  /** The name a field has in the answer. */
  function FieldName(f: Expr): (name: string)
    requires f.Identifier?
  {
    if f.table == "" then f.name else f.table + "." + f.name
  }

  /** The field may be taken from the cell `k`: the one of the field's name, or, for a name without
      a table that the row does not have, one whose qualified name ends in it. */
  ghost predicate Supplies(row: Row, f: Expr, k: string)
    requires f.Identifier?
  {
    && k in row
    && if FieldName(f) in row then k == FieldName(f) else f.table == "" && exists q :: k == q + "." + f.name
  }

  ghost predicate Supplied(row: Row, f: Expr)
    requires f.Identifier?
  {
    exists k :: Supplies(row, f, k)
  }

  /** The answer has the field, with the value of a cell it may be taken from. */
  ghost predicate FieldAnswered(row: Row, f: Expr, out: Row)
    requires f.Identifier?
  {
    FieldName(f) in out && exists k :: Supplies(row, f, k) && out[FieldName(f)] == row[k]
  }

  /** The name is that of a field that the row can supply. */
  ghost predicate Asked(row: Row, fields: seq<Expr>, name: string)
    requires forall f :: f in fields ==> f.Identifier?
  {
    exists i :: 0 <= i < |fields| && FieldName(fields[i]) == name && Supplied(row, fields[i])
  }

  /** All cells for `*`; otherwise a cell for each field that the row can supply, and no other. */
  ghost predicate RowAnswered(row: Row, fields: seq<Expr>, out: Row)
    requires forall f :: f in fields ==> f.Identifier?
  {
    if |fields| == 1 && fields[0].name == "*" then out == row
    else
      && (forall name :: name in out ==> Asked(row, fields, name))
      && (forall i :: 0 <= i < |fields| && Supplied(row, fields[i]) ==> FieldAnswered(row, fields[i], out))
  }

  lemma SourcesExact(row: Row, f: Expr, k: string)
    requires f.Identifier?
    ensures k in Sources(row, ColumnRef(f.table, f.name)) <==> Supplies(row, f, k)
  {
    hide HasSuffix;
    SuffixExact(k, f.name);
  }

  lemma FieldExact(row: Row, f: Expr, out: Row)
    requires f.Identifier?
    ensures var c := ColumnRef(f.table, f.name);
      && OutputName(c) == FieldName(f)
      && (Sources(row, c) != {} <==> Supplied(row, f))
      && (TakenFrom(row, c, out) <==> FieldAnswered(row, f, out))
  {
    var c := ColumnRef(f.table, f.name);
    assert OutputName(c) == FieldName(f);
    hide Sources, Supplies, OutputName, FieldName;
    forall k ensures k in Sources(row, c) <==> Supplies(row, f, k) {
      SourcesExact(row, f, k);
    }
    forall k | Supplies(row, f, k) ensures k in row && k in Sources(row, c) {
      SuppliedInRow(row, f, k);
    }
    if TakenFrom(row, c, out) {
      var k :| k in Sources(row, c) && k in row && out[OutputName(c)] == row[k];
      assert Supplies(row, f, k);
    }
  }

  lemma SuppliedInRow(row: Row, f: Expr, k: string)
    requires f.Identifier?
    ensures Supplies(row, f, k) ==> k in row
  {
  }

  /** The planned projection is what the select list asks for. */
  lemma ProjectionExact(row: Row, fields: seq<Expr>, out: Row)
    requires forall f :: f in fields ==> f.Identifier?
    ensures Projected(row, ProjectionOf(fields), out) <==> RowAnswered(row, fields, out)
  {
    hide Sources, OutputName, FieldName, Supplied, FieldAnswered, TakenFrom;
    var columns := ProjectionOf(fields).columns;
    if !ProjectionOf(fields).selectAll {
      forall i | 0 <= i < |fields|
        ensures OutputName(columns[i]) == FieldName(fields[i])
        ensures Sources(row, columns[i]) != {} <==> Supplied(row, fields[i])
        ensures TakenFrom(row, columns[i], out) <==> FieldAnswered(row, fields[i], out)
      {
        FieldExact(row, fields[i], out);
      }
      FieldsTaken(row, columns, fields, out);
    }
  }

  lemma FieldsTaken(row: Row, columns: seq<ColumnRef>, fields: seq<Expr>, out: Row)
    requires |columns| == |fields| && forall f :: f in fields ==> f.Identifier?
    requires forall i :: 0 <= i < |fields| ==>
      && OutputName(columns[i]) == FieldName(fields[i])
      && (Sources(row, columns[i]) != {} <==> Supplied(row, fields[i]))
      && (TakenFrom(row, columns[i], out) <==> FieldAnswered(row, fields[i], out))
    ensures ProjectedBy(row, columns, out) <==>
      && (forall name :: name in out ==> Asked(row, fields, name))
      && (forall i :: 0 <= i < |fields| && Supplied(row, fields[i]) ==> FieldAnswered(row, fields[i], out))
  {
    hide Sources, OutputName, FieldName, Supplied, TakenFrom, FieldAnswered;
    TakenNamed(row, columns, out);
    if ProjectedBy(row, columns, out) {
      forall name | name in out ensures Asked(row, fields, name) {
        var i :| 0 <= i < |columns| && OutputName(columns[i]) == name && Sources(row, columns[i]) != {};
        assert FieldName(fields[i]) == name;
      }
    }
    if forall name :: name in out ==> Asked(row, fields, name) {
      forall name | name in out
        ensures exists i :: 0 <= i < |columns| && OutputName(columns[i]) == name && Sources(row, columns[i]) != {}
      {
        assert Asked(row, fields, name);
        var i :| 0 <= i < |fields| && FieldName(fields[i]) == name && Supplied(row, fields[i]);
        assert OutputName(columns[i]) == name;
      }
    }
  }

  lemma TakenNamed(row: Row, columns: seq<ColumnRef>, out: Row)
    ensures forall i :: 0 <= i < |columns| && TakenFrom(row, columns[i], out) ==> OutputName(columns[i]) in out
  {
    hide Sources, OutputName;
  }

  // --------------------------------------------------------------------------- answers

  /** From the rows of FROM and its joins: exactly those that WHERE holds of, in their order, each
      with the cells that the select list asks for. */
  ghost predicate RowsAnswered(s: SelectStatement, rows: seq<Row>, out: seq<Row>)
    requires Named(s)
  {
    exists ps: seq<nat> :: AnsweredAt(s, rows, ps, out)
  }

  ghost predicate AnsweredAt(s: SelectStatement, rows: seq<Row>, ps: seq<nat>, out: seq<Row>)
    requires Named(s)
  {
    && Ascending(ps) && |out| == |ps|
    && (forall p :: p in ps <==> 0 <= p < |rows| && WhereHolds(s.where, rows[p]))
    && (forall k :: 0 <= k < |ps| ==> ps[k] < |rows| && RowAnswered(rows[ps[k]], s.fields, out[k]))
  }

  lemma ProjectedExact(s: SelectStatement, rows: seq<Row>, out: seq<Row>)
    requires Named(s) && (s.where.Some? ==> Supported(s.where.value))
    requires ProjectedRows(Satisfying(s.where, rows), ProjectionOf(s.fields), out)
    ensures RowsAnswered(s, rows, out)
  {
    hide Satisfying, WhereHolds, RowAnswered, Projected, ProjectionOf;
    var found := Satisfying(s.where, rows);
    SatisfyingKept(s.where, rows);
    var ps := KeptExact(rows, row => !WhereHolds(s.where, row));
    forall k | 0 <= k < |ps| ensures RowAnswered(rows[ps[k]], s.fields, out[k]) {
      assert found[k] == rows[ps[k]];
      ProjectionExact(found[k], s.fields, out[k]);
    }
    assert AnsweredAt(s, rows, ps, out);
  }

  /** A SELECT answers from the rows of FROM and its joins, or fails as they do. */
  lemma AnswerExact(s: SelectStatement, data: Data, labels: Labels, r: Result<seq<Row>, QueryError>)
    requires Named(s) && Mergeable(data) && Answer(s, data, labels, r)
    ensures s.tableName.name !in data ==> r == Err(TableNotFound(s.tableName.name))
    ensures s.tableName.name in data && s.where.Some? && !Supported(s.where.value) ==>
      Build(s.where.value).Err? && r == Err(BadWhere(Build(s.where.value).error))
    ensures s.tableName.name in data && (s.where.Some? ==> Supported(s.where.value)) ==>
      var from := From(s, data, labels);
      if from.Err? then r == Err(from.error) else r.Ok? && RowsAnswered(s, from.value, r.value)
  {
    hide Supported, Build, Satisfying, From, ProjectedRows, Mergeable, RowsAnswered, ProjectionOf;
    if s.tableName.name in data {
      if s.where.Some? && !Supported(s.where.value) {
        BuildMeaning(s.where.value);
      } else {
        var from := From(s, data, labels);
        if from.Ok? {
          ProjectedExact(s, from.value, r.value);
        }
      }
    }
  }

  /** Without joins these are the rows of the table. */
  lemma TableAnswerExact(s: SelectStatement, data: Data, labels: Labels, r: Result<seq<Row>, QueryError>)
    requires Named(s) && Mergeable(data) && Answer(s, data, labels, r)
    requires s.joins == [] && s.tableName.name in data && (s.where.Some? ==> Supported(s.where.value))
    ensures r.Ok? && RowsAnswered(s, data[s.tableName.name].rows, r.value)
  {
    hide Supported, From, Mergeable, RowsAnswered, Answer;
    PlainMeaning(s, data, labels);
    AnswerExact(s, data, labels, r);
  }
}
