/** What a SELECT returns, said without plans or closures. */
module QueryLaws {
  import opened Values
  import opened Schema
  import opened TableSpec
  import opened Tables
  import opened Ast
  import opened JoinSpec
  import opened Predicates
  import opened Projections
  import opened Planner
  import opened Executor

  // --------------------------------------------------------------------- filtering

  /** The rows a WHERE expression is true of, in order. */
  function Satisfying(where: Option<Expr>, rows: seq<Row>): (r: seq<Row>)
    requires where.Some? ==> Supported(where.value)
  {
    if where.None? then rows
    else if rows == [] then []
    else
      var n := |rows| - 1;
      Satisfying(where, rows[..n]) + if TrueOf(where.value, rows[n]) then [rows[n]] else []
  }

  lemma {:induction false} BuiltFilter(where: Expr, rows: seq<Row>)
    requires Supported(where)
    ensures Build(where).Ok? && Filter(Some(Build(where).value), rows) == Satisfying(Some(where), rows)
  {
    hide Build, Supported, TrueOf;
    BuildMeaning(where);
    if rows != [] {
      BuiltFilter(where, rows[..|rows| - 1]);
    }
  }

  /** Filtered rows may be filtered again. */
  lemma {:induction false} FilterTwice(pred: Option<RowPredicate>, rows: seq<Row>)
    ensures Filter(pred, Filter(pred, rows)) == Filter(pred, rows)
  {
    if rows != [] {
      var n := |rows| - 1;
      FilterTwice(pred, rows[..n]);
      FilterOne(pred, rows[n]);
      var last := if Passes(pred, rows[n]) then [rows[n]] else [];
      FilterConcat(pred, Filter(pred, rows[..n]), last);
    }
  }

  /** Filtering the rows of a join is passing the predicate into the join, and doing both is
      harmless, for all four kinds. */
  lemma FilterAfterJoin(kind: JoinType, c: Condition, pred: Option<RowPredicate>)
    requires Joinable(c)
    ensures Filter(pred, Filter(None, NestedLoop(kind, c))) == Filter(pred, NestedLoop(kind, c))
    ensures Filter(pred, Filter(pred, NestedLoop(kind, c))) == Filter(pred, NestedLoop(kind, c))
  {
    hide NestedLoop;
    FilterNone(NestedLoop(kind, c));
    FilterTwice(pred, NestedLoop(kind, c));
  }

  // ----------------------------------------------------------------------- meaning

  /** A table under the name the query uses for it. */
  function Side(name: string, data: Data): (t: TableData)
    requires name in data
  {
    TempTable(name, Intermediate(data[name].rows, data[name].columns))
  }

  /** The name that the result of some joins goes by in the next one. */
  type Labels = seq<Clause> -> string

  /** FROM and any number of JOINs: the nested loop of what is before each JOIN with its table. */
  ghost function Chain(name: string, cs: seq<Clause>, data: Data, labels: Labels): (r: Result<Intermediate, QueryError>)
    requires Mergeable(data) && name in data && forall k :: 0 <= k < |cs| ==> cs[k].table in data
    ensures r.Ok? ==> Nameable(r.value.rows, if cs == [] then name else labels(cs))
    decreases |cs|
  {
    if cs == [] then Ok(Intermediate(data[name].rows, data[name].columns))
    else
      var n := |cs| - 1;
      var before :- Chain(name, cs[..n], data, labels);
      var left, right := TempTable(if n == 0 then name else labels(cs[..n]), before), Side(cs[n].table, data);
      JoinNameable(left, right, cs[n].kind, cs[n].leftColumn, cs[n].rightColumn, labels(cs));
      JoinResult(left, right, cs[n].kind, cs[n].leftColumn, cs[n].rightColumn)
  }

  ghost function From(s: SelectStatement, data: Data, labels: Labels): (r: Result<seq<Row>, QueryError>)
    requires Named(s) && s.tableName.name in data && Mergeable(data)
  {
    var cs :- ClausesOf(s.joins, data.Keys);
    assert forall k :: 0 <= k < |cs| ==> ClauseOf(s.joins[k], data.Keys) == Ok(cs[k]);
    var all :- Chain(s.tableName.name, cs, data, labels);
    Ok(all.rows)
  }

  /** The rows of a SELECT before projection, or its error. */
  ghost function Meaning(s: SelectStatement, data: Data, labels: Labels): (r: Result<seq<Row>, QueryError>)
    requires Named(s) && Mergeable(data)
  {
    if s.tableName.name !in data then Err(TableNotFound(s.tableName.name))
    else if s.where.Some? && !Supported(s.where.value) then
      BuildMeaning(s.where.value);
      Err(BadWhere(Build(s.where.value).error))
    else
      var rows :- From(s, data, labels);
      Ok(Satisfying(s.where, rows))
  }

  /** With one JOIN the meaning is the nested loop over the two tables, and no label occurs. */
  lemma OneJoin(s: SelectStatement, data: Data, labels: Labels)
    requires Named(s) && |s.joins| == 1 && s.tableName.name in data && Mergeable(data)
    ensures var clause, from := ClauseOf(s.joins[0], data.Keys), From(s, data, labels);
      && (clause.Err? ==> from == Err(clause.error))
      && (clause.Ok? ==>
            var left, right := Side(s.tableName.name, data), Side(clause.value.table, data);
            var c := Resolve(left, right, clause.value.leftColumn, clause.value.rightColumn);
            && (c.Err? ==> from == Err(JoinFailed(c.error)))
            && (c.Ok? ==> from == Ok(NestedLoop(clause.value.kind, c.value))))
  {
    hide ClauseOf, Mergeable, Resolve, NestedLoop;
    var cs := ClausesOf(s.joins, data.Keys);
    if cs.Ok? {
      var name := s.tableName.name;
      assert ClauseOf(s.joins[0], data.Keys) == Ok(cs.value[0]);
      assert cs.value[..0] == [];
      assert Chain(name, [], data, labels) == Ok(Intermediate(data[name].rows, data[name].columns));
    } else {
      var k: nat :| FirstRefused(s.joins, data.Keys, cs.error, k);
      assert k == 0;
    }
  }

  lemma WherePlanned(where: Option<Expr>, rows: seq<Row>)
    requires where.Some? ==> Supported(where.value)
    ensures WherePredicate(where).Ok? && Filter(WherePredicate(where).value, rows) == Satisfying(where, rows)
  {
    if where.Some? {
      BuiltFilter(where.value, rows);
    } else {
      FilterNone(rows);
    }
  }

  lemma WhereUnplanned(where: Expr)
    requires !Supported(where)
    ensures Build(where).Err? && WherePredicate(Some(where)) == Err(BadWhere(Build(where).error))
  {
    BuildMeaning(where);
  }

  /** The labels that the executor's names for join nodes amount to. */
  function LabelsOf(name: string, joinNames: Plan -> string): (labels: Labels)
  {
    cs => joinNames(TreeOf(Scan(name, None), cs))
  }

  /** Executing the planned tree of any number of joins gives the chain of nested loops, or the
      same error. */
  lemma {:induction false} TreeMeaning(name: string, cs: seq<Clause>, data: Data, joinNames: Plan -> string)
    requires Mergeable(data) && name in data && forall k :: 0 <= k < |cs| ==> cs[k].table in data
    ensures NodeResult(TreeOf(Scan(name, None), cs), data, joinNames) ==
      Chain(name, cs, data, LabelsOf(name, joinNames))
    decreases |cs|
  {
    hide JoinResult, Mergeable, Filter;
    if cs == [] {
      FilterNone(data[name].rows);
    } else {
      var n := |cs| - 1;
      TreeMeaning(name, cs[..n], data, joinNames);
      FilterNone(data[cs[n].table].rows);
    }
  }

  /** Planning and execution agree with the meaning, in rows and in errors. */
  lemma PlanMeaning(s: SelectStatement, data: Data, joinNames: Plan -> string)
    requires Named(s) && Mergeable(data)
    ensures var p, meaning := PlanOf(s, data.Keys), Meaning(s, data, LabelsOf(s.tableName.name, joinNames));
      && (p.Err? ==> meaning == Err(p.error))
      && (p.Ok? ==>
            && p.value.proj == ProjectionOf(s.fields)
            && var source := SourceResult(p.value, data, joinNames);
            && (source.Err? ==> meaning == Err(source.error))
            && (source.Ok? ==> meaning == Ok(Filter(p.value.pred, source.value.rows))))
  {
    hide Supported, Build, NodeResult, Mergeable, TreeOf;
    hide ClauseOf, ClausesOf, WherePredicate, Satisfying, Filter, LabelsOf;
    var name := s.tableName.name;
    if name in data {
      if s.where.Some? && !Supported(s.where.value) {
        WhereUnplanned(s.where.value);
      } else {
        WherePlanned(s.where, []);
        var pred := WherePredicate(s.where).value;
        if s.joins == [] {
          WherePlanned(s.where, data[name].rows);
          FilterTwice(pred, data[name].rows);
          PlainMeaning(s, data, LabelsOf(name, joinNames));
        } else {
          JoinedMeaning(s, data, joinNames);
          var from := From(s, data, LabelsOf(name, joinNames));
          if from.Ok? {
            WherePlanned(s.where, from.value);
          }
        }
      }
    }
  }

  lemma JoinedMeaning(s: SelectStatement, data: Data, joinNames: Plan -> string)
    requires Named(s) && s.tableName.name in data && Mergeable(data)
    ensures var cs, from := ClausesOf(s.joins, data.Keys), From(s, data, LabelsOf(s.tableName.name, joinNames));
      && (cs.Err? ==> from == Err(cs.error))
      && (cs.Ok? ==>
            var source := NodeResult(TreeOf(Scan(s.tableName.name, None), cs.value), data, joinNames);
            && (source.Err? ==> from == Err(source.error))
            && (source.Ok? ==> from == Ok(source.value.rows)))
  {
    hide NodeResult, Chain, TreeOf, ClauseOf, ClausesOf, Mergeable, LabelsOf;
    var cs := ClausesOf(s.joins, data.Keys);
    if cs.Ok? {
      assert forall k :: 0 <= k < |s.joins| ==> ClauseOf(s.joins[k], data.Keys) == Ok(cs.value[k]);
      TreeMeaning(s.tableName.name, cs.value, data, joinNames);
    }
  }

  lemma PlainMeaning(s: SelectStatement, data: Data, labels: Labels)
    requires Named(s) && s.joins == [] && s.tableName.name in data && Mergeable(data)
    ensures From(s, data, labels) == Ok(data[s.tableName.name].rows)
  {
    hide Mergeable;
  }

  /** `r` holds the rows the statement means, projected, or the statement's error. */
  ghost predicate Answer(s: SelectStatement, data: Data, labels: Labels, r: Result<seq<Row>, QueryError>)
    requires Named(s) && Mergeable(data)
  {
    var meaning := Meaning(s, data, labels);
    && (meaning.Err? ==> r == Err(meaning.error))
    && (meaning.Ok? ==> r.Ok? && ProjectedRows(meaning.value, ProjectionOf(s.fields), r.value))
  }

  /** Plans and executes. */
  method RunSelect(s: SelectStatement, db: map<string, Table>, ghost data: Data, joinNames: Plan -> string)
    returns (r: Result<seq<Row>, QueryError>)
    requires Named(s) && data == Snapshot(db) && Mergeable(data)
    ensures Answer(s, data, LabelsOf(s.tableName.name, joinNames), r)
  {
    hide Mergeable, Snapshot, Meaning, SourceResult, ProjectedRows, Filter, PlanOf, ProjectionOf, Named, LabelsOf;
    PlanMeaning(s, data, joinNames);
    var plan := PlanSelect(s, db.Keys);
    if plan.Err? {
      return Err(plan.error);
    }
    var out := ExecuteSelect(plan.value, db, data, joinNames);
    if out.Err? {
      return Err(out.error);
    }
    return Ok(out.value.rows);
  }
}
