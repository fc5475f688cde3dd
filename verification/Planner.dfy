/** From a SELECT statement to a plan tree. */
module Planner {
  import opened Values
  import opened Ast
  import opened JoinSpec
  import opened Predicates
  import opened Projections

  datatype Plan =
    | Scan(tableName: string, pred: Option<RowPredicate>)
    | JoinNode(left: Plan, right: Plan, kind: JoinType, leftColumn: string, rightColumn: string)

  /** Without a child the table itself is scanned. */
  datatype SelectPlan = SelectPlan(tableName: string, pred: Option<RowPredicate>, proj: Projection, child: Option<Plan>)

  datatype QueryError =
    | TableNotFound(table: string)
    | BadWhere(e: WhereError)
    | RightTableNotFound(table: string)
    | OnNotComparison
    | OnNotEquality
    | OnLeftNotName
    | OnRightNotName
    | UnsupportedJoin(joinType: string)
    | JoinFailed(cause: JoinError)

  /** The places where the syntax tree can only hold an identifier. */
  predicate Named(s: SelectStatement)
  {
    && s.tableName.Identifier?
    && (forall f :: f in s.fields ==> f.Identifier?)
    && (forall j :: j in s.joins ==> j.rightTable.Identifier?)
  }

  function ProjectionOf(fields: seq<Expr>): (p: Projection)
    requires forall f :: f in fields ==> f.Identifier?
  {
    if |fields| == 1 && fields[0].name == "*" then Projection(true, [])
    else Projection(false, seq(|fields|, i requires 0 <= i < |fields| => ColumnRef(fields[i].table, fields[i].name)))
  }

  /** The column names of an ON condition; their qualifiers are not looked at. */
  function OnColumns(on: Expr): (r: Result<(string, string), QueryError>)
  {
    if !on.Binary? then Err(OnNotComparison)
    else if on.op != "=" then Err(OnNotEquality)
    else if !on.left.Identifier? then Err(OnLeftNotName)
    else if !on.right.Identifier? then Err(OnRightNotName)
    else Ok((on.left.name, on.right.name))
  }

  function KindOf(joinType: string): (r: Result<JoinType, QueryError>)
  {
    if joinType == "INNER" then Ok(Inner)
    else if joinType == "LEFT" then Ok(Left)
    else if joinType == "RIGHT" then Ok(Right)
    else if joinType == "FULL" then Ok(Full)
    else Err(UnsupportedJoin(joinType))
  }

  /** What the planner takes from a join clause. */
  datatype Clause = Clause(table: string, kind: JoinType, leftColumn: string, rightColumn: string)

  function ClauseOf(j: JoinClause, tables: set<string>): (r: Result<Clause, QueryError>)
    requires j.rightTable.Identifier?
    ensures r.Ok? ==> r.value.table == j.rightTable.name && r.value.table in tables
  {
    if j.rightTable.name !in tables then Err(RightTableNotFound(j.rightTable.name))
    else
      var on :- OnColumns(j.onCondition);
      var kind :- KindOf(j.joinType);
      Ok(Clause(j.rightTable.name, kind, on.0, on.1))
  }

  /** The first clause that is refused. */
  ghost predicate FirstRefused(joins: seq<JoinClause>, tables: set<string>, e: QueryError, k: nat)
    requires forall j :: j in joins ==> j.rightTable.Identifier?
  {
    && k < |joins| && ClauseOf(joins[k], tables) == Err(e)
    && forall i :: 0 <= i < k ==> ClauseOf(joins[i], tables).Ok?
  }

  function ClausesOf(joins: seq<JoinClause>, tables: set<string>): (r: Result<seq<Clause>, QueryError>)
    requires forall j :: j in joins ==> j.rightTable.Identifier?
    ensures r.Ok? ==> |r.value| == |joins|
    ensures r.Ok? ==> forall k :: 0 <= k < |joins| ==> ClauseOf(joins[k], tables) == Ok(r.value[k])
    ensures r.Err? ==> exists k: nat :: FirstRefused(joins, tables, r.error, k)
    decreases joins
  {
    if joins == [] then Ok([])
    else
      var n := |joins| - 1;
      var before := ClausesOf(joins[..n], tables);
      if before.Err? then
        assert exists k: nat :: FirstRefused(joins, tables, before.error, k) by {
          ghost var k: nat :| FirstRefused(joins[..n], tables, before.error, k);
          assert FirstRefused(joins, tables, before.error, k);
        }
        before
      else
        var last := ClauseOf(joins[n], tables);
        assert last.Err? ==> FirstRefused(joins, tables, last.error, n);
        if last.Err? then Err(last.error) else Ok(before.value + [last.value])
  }

  /** Each join has everything before it on the left and a plain scan on the right. */
  function TreeOf(scan: Plan, cs: seq<Clause>): (tree: Plan)
    decreases |cs|
  {
    if cs == [] then scan
    else
      var n := |cs| - 1;
      JoinNode(TreeOf(scan, cs[..n]), Scan(cs[n].table, None), cs[n].kind, cs[n].leftColumn, cs[n].rightColumn)
  }

  /** The nodes on the left edge of a tree, from the leaf up. */
  function Spine(tree: Plan): (s: seq<Plan>)
  {
    if tree.Scan? then [tree] else Spine(tree.left) + [tree]
  }

  /** The tree over n clauses is left-deep: above the scan there is one node for each clause,
      in order, joining the node below it with a scan of the clause's table. */
  lemma {:induction false} LeftDeep(scan: Plan, cs: seq<Clause>)
    requires scan.Scan?
    ensures var s := Spine(TreeOf(scan, cs));
      && |s| == |cs| + 1 && s[0] == scan && s[|cs|] == TreeOf(scan, cs)
      && forall k :: 0 <= k < |cs| ==>
        s[k + 1] == JoinNode(s[k], Scan(cs[k].table, None), cs[k].kind, cs[k].leftColumn, cs[k].rightColumn)
    decreases |cs|
  {
    if cs != [] {
      LeftDeep(scan, cs[..|cs| - 1]);
    }
  }

  function WherePredicate(where: Option<Expr>): (r: Result<Option<RowPredicate>, QueryError>)
  {
    if where.None? then Ok(None)
    else
      var p := Build(where.value);
      if p.Err? then Err(BadWhere(p.error)) else Ok(Some(p.value))
  }

  function PlanOf(s: SelectStatement, tables: set<string>): (r: Result<SelectPlan, QueryError>)
    requires Named(s)
  {
    if s.tableName.name !in tables then Err(TableNotFound(s.tableName.name))
    else
      var name := s.tableName.name;
      var pred :- WherePredicate(s.where);
      var proj := ProjectionOf(s.fields);
      if s.joins == [] then Ok(SelectPlan(name, pred, proj, None))
      else
        var cs :- ClausesOf(s.joins, tables);
        Ok(SelectPlan(name, pred, proj, Some(TreeOf(Scan(name, None), cs))))
  }

  method PlanSelect(s: SelectStatement, tables: set<string>) returns (r: Result<SelectPlan, QueryError>)
    requires Named(s)
    ensures r == PlanOf(s, tables)
  {
    var name := s.tableName.name;
    if name !in tables {
      return Err(TableNotFound(name));
    }
    var pred: Option<RowPredicate> := None;
    if s.where.Some? {
      var p := Build(s.where.value);
      if p.Err? {
        return Err(BadWhere(p.error));
      }
      pred := Some(p.value);
    }
    var proj := ProjectionOf(s.fields);
    var node := SelectPlan(name, pred, proj, None);
    if |s.joins| > 0 {
      var tree := PlanJoins(Scan(name, None), s.joins, tables);
      if tree.Err? {
        return Err(tree.error);
      }
      node := node.(child := Some(tree.value));
    }
    return Ok(node);
  }

  /** The node joins what is below it with a scan of the clause's table, as the clause says. */
  ghost predicate JoinsNext(node: Plan, below: Plan, j: JoinClause, tables: set<string>)
    requires j.rightTable.Identifier?
  {
    && node.JoinNode? && node.left == below && node.right == Scan(j.rightTable.name, None)
    && ClauseOf(j, tables) == Ok(Clause(j.rightTable.name, node.kind, node.leftColumn, node.rightColumn))
  }

  method PlanJoins(scan: Plan, joins: seq<JoinClause>, tables: set<string>) returns (r: Result<Plan, QueryError>)
    requires scan.Scan? && forall j :: j in joins ==> j.rightTable.Identifier?
    ensures r.Err? ==> ClausesOf(joins, tables) == Err(r.error)
    ensures r.Ok? ==> ClausesOf(joins, tables).Ok? && r.value == TreeOf(scan, ClausesOf(joins, tables).value)
    ensures r.Ok? ==> var s := Spine(r.value);
      && |s| == |joins| + 1 && s[0] == scan && s[|joins|] == r.value
      && forall k :: 0 <= k < |joins| ==> JoinsNext(s[k + 1], s[k], joins[k], tables)
  {
    hide OnColumns, KindOf;
    var current := scan;
    ghost var cs: seq<Clause> := [];
    for i := 0 to |joins|
      invariant |cs| == i && current == TreeOf(scan, cs)
      invariant forall k :: 0 <= k < i ==> ClauseOf(joins[k], tables) == Ok(cs[k])
    {
      var j := joins[i];
      var clause := PlanJoin(j, tables);
      if clause.Err? {
        FirstRefusal(joins, tables, i, clause.error);
        return Err(clause.error);
      }
      ghost var cs' := cs + [clause.value];
      assert cs'[..i] == cs;
      var c := clause.value;
      current := JoinNode(current, Scan(j.rightTable.name, None), c.kind, c.leftColumn, c.rightColumn);
      cs := cs';
    }
    AllAccepted(joins, tables, cs);
    LeftDeep(scan, cs);
    return Ok(current);
  }

  function JoinName(kind: JoinType): (s: string)
  {
    match kind
    case Inner => "INNER"
    case Left => "LEFT"
    case Right => "RIGHT"
    case Full => "FULL"
  }

  predicate IsEquality(on: Expr)
  {
    on.Binary? && on.op == "="
  }

  predicate NamesEqual(on: Expr)
  {
    IsEquality(on) && on.left.Identifier? && on.right.Identifier?
  }

  /** A clause is accepted if and only if its table exists, its condition is an equality of two
      names and its join type is the name of a kind; the clause says just that.  Each error is
      reported exactly when it is the first thing wrong: an unknown table before the condition's
      form, operator, left side and right side, and those before the join type. */
  method PlanJoin(j: JoinClause, tables: set<string>) returns (r: Result<Clause, QueryError>)
    requires j.rightTable.Identifier?
    ensures r == ClauseOf(j, tables)
    ensures r.Ok? <==>
      j.rightTable.name in tables && NamesEqual(j.onCondition) && exists kind :: j.joinType == JoinName(kind)
    ensures r.Ok? ==> r.value.table == j.rightTable.name && j.joinType == JoinName(r.value.kind)
    ensures r.Ok? ==> r.value.leftColumn == j.onCondition.left.name && r.value.rightColumn == j.onCondition.right.name
    ensures r == Err(RightTableNotFound(j.rightTable.name)) <==> j.rightTable.name !in tables
    ensures r.Err? && r.error.UnsupportedJoin? <==>
      j.rightTable.name in tables && NamesEqual(j.onCondition) && forall kind :: j.joinType != JoinName(kind)
    ensures r == Err(OnNotComparison) <==> j.rightTable.name in tables && !j.onCondition.Binary?
    ensures r == Err(OnNotEquality) <==> j.rightTable.name in tables && j.onCondition.Binary? && j.onCondition.op != "="
    ensures r == Err(OnLeftNotName) <==>
      j.rightTable.name in tables && IsEquality(j.onCondition) && !j.onCondition.left.Identifier?
    ensures r == Err(OnRightNotName) <==>
      && j.rightTable.name in tables && IsEquality(j.onCondition)
      && j.onCondition.left.Identifier? && !j.onCondition.right.Identifier?
  {
    if j.rightTable.name !in tables {
      return Err(RightTableNotFound(j.rightTable.name));
    }
    if !j.onCondition.Binary? {
      return Err(OnNotComparison);
    }
    if j.onCondition.op != "=" {
      return Err(OnNotEquality);
    }
    if !j.onCondition.left.Identifier? {
      return Err(OnLeftNotName);
    }
    if !j.onCondition.right.Identifier? {
      return Err(OnRightNotName);
    }
    var kind := KindOf(j.joinType);
    KindNamed(j.joinType);
    if kind.Err? {
      return Err(kind.error);
    }
    return Ok(Clause(j.rightTable.name, kind.value, j.onCondition.left.name, j.onCondition.right.name));
  }

  /** A join type is accepted exactly when it names a kind, and then as that kind. */
  lemma KindNamed(joinType: string)
    ensures KindOf(joinType).Ok? <==> exists kind :: joinType == JoinName(kind)
    ensures KindOf(joinType).Ok? ==> joinType == JoinName(KindOf(joinType).value)
  {
    assert JoinName(Inner) == "INNER" && JoinName(Left) == "LEFT";
    assert JoinName(Right) == "RIGHT" && JoinName(Full) == "FULL";
    if KindOf(joinType).Ok? {
      assert joinType == JoinName(KindOf(joinType).value);
    }
  }

  lemma FirstRefusal(joins: seq<JoinClause>, tables: set<string>, i: nat, e: QueryError)
    requires forall j :: j in joins ==> j.rightTable.Identifier?
    requires FirstRefused(joins, tables, e, i)
    ensures ClausesOf(joins, tables) == Err(e)
  {
    hide ClauseOf, ClausesOf;
    var r := ClausesOf(joins, tables);
    if r.Err? {
      var k: nat :| FirstRefused(joins, tables, r.error, k);
      assert !(k < i) && !(i < k);
    }
  }

  lemma AllAccepted(joins: seq<JoinClause>, tables: set<string>, cs: seq<Clause>)
    requires forall j :: j in joins ==> j.rightTable.Identifier?
    requires |cs| == |joins| && forall k :: 0 <= k < |joins| ==> ClauseOf(joins[k], tables) == Ok(cs[k])
    ensures ClausesOf(joins, tables) == Ok(cs)
  {
    hide ClauseOf, ClausesOf;
    var r := ClausesOf(joins, tables);
    if r.Ok? {
      assert forall k :: 0 <= k < |cs| ==> ClauseOf(joins[k], tables).value == r.value[k] == cs[k];
      assert r.value == cs;
    }
  }
}
