/** What becomes of the table names in an ON condition, which the planner does not look at. */
module OnQualifiers {
  import opened Values
  import opened Schema
  import opened JoinSpec
  import opened JoinLaws
  import opened Ast
  import opened Planner

  /** An empty qualifier may stand for either table. */
  predicate MayName(qualifier: string, table: string)
  {
    qualifier == "" || qualifier == table
  }

  /** The sides name the tables in FROM-then-JOIN order. */
  predicate InOrder(on: Expr, left: string, right: string)
    requires NamesEqual(on)
  {
    MayName(on.left.table, left) && MayName(on.right.table, right)
  }

  /** The sides name the tables the other way round. */
  predicate Reversed(on: Expr, left: string, right: string)
    requires NamesEqual(on)
  {
    MayName(on.left.table, right) && MayName(on.right.table, left)
  }

  /** The condition the qualifiers ask for, if they name the two tables at all. */
  function NamedCondition(on: Expr, left: TableData, right: TableData): (c: Option<Condition>)
    requires NamesEqual(on)
  {
    if InOrder(on, left.name, right.name) then Accepted(Resolve(left, right, on.left.name, on.right.name))
    else if Reversed(on, left.name, right.name) then Accepted(Resolve(left, right, on.right.name, on.left.name))
    else None
  }

  function Accepted(r: Result<Condition, JoinError>): (c: Option<Condition>)
  {
    if r.Ok? then Some(r.value) else None
  }

  /** The condition the planner and the join make of it. */
  function PlannedCondition(on: Expr, left: TableData, right: TableData): (c: Option<Condition>)
    requires NamesEqual(on)
  {
    var names := OnColumns(on).value;
    Accepted(Resolve(left, right, names.0, names.1))
  }

  ghost predicate Undotted(columns: seq<Column>)
  {
    forall col :: col in columns ==> !Dotted(col.name)
  }

  /** Between two tables, a condition that is accepted at all means what its qualifiers say if
      and only if they name the tables in order, or in reverse order with one column name. */
  lemma QualifiersIgnored(on: Expr, left: TableData, right: TableData)
    requires NamesEqual(on) && Undotted(left.columns) && Undotted(right.columns)
    requires PlannedCondition(on, left, right).Some? || NamedCondition(on, left, right).Some?
    ensures PlannedCondition(on, left, right) == NamedCondition(on, left, right) <==>
      || InOrder(on, left.name, right.name)
      || (Reversed(on, left.name, right.name) && on.left.name == on.right.name)
  {
    hide ResolveColumn;
    UndottedName(left.columns, on.left.name);
    UndottedName(left.columns, on.right.name);
  }

  /** Among names without dots a column answers only to its own name. */
  lemma UndottedName(columns: seq<Column>, name: string)
    requires Undotted(columns)
    ensures var c := ResolveColumn(columns, name); c.Some? ==> c.value.name == name
  {
    var c := ResolveColumn(columns, name);
    if c.Some? {
      var k: nat :| FirstToAnswer(columns, name, k) && c.value == columns[k];
      assert columns[k] in columns && AnswersTo(columns[k], name);
      SuffixDotted(columns[k].name, name);
    }
  }

  lemma SuffixDotted(s: string, name: string)
    ensures HasSuffix(s, "." + name) ==> Dotted(s)
  {
    if HasSuffix(s, "." + name) {
      assert s[|s| - |name| - 1..][0] == ("." + name)[0] == '.';
    }
  }

  // ------------------------------------------------------------------- a reversed condition

  const KEY: Column := Column("id", INT, false, false, false, false)
  const REF: Column := Column("ref", INT, false, false, false, false)

  function TwoColumns(name: string, id: i64, ref: i64): (t: TableData)
  {
    TableData(name, [KEY, REF], [map["id" := Int64(id), "ref" := Int64(ref)]], map[], 0, false)
  }

  /** In `users JOIN orders ON orders.id = users.ref` the one user refers to the one order, but
      the code compares users.id with orders.ref and joins nothing. */
  lemma ReversedOn()
    ensures var on := Binary(Identifier("orders", "id"), "=", Identifier("users", "ref"));
      var users, orders := TwoColumns("users", 1, 7), TwoColumns("orders", 7, 3);
      var named, planned := NamedCondition(on, users, orders), PlannedCondition(on, users, orders);
      && named == Some(Condition(users, orders, "ref", "id"))
      && planned == Some(Condition(users, orders, "id", "ref"))
      && Matches(named.value, users.rows[0], orders.rows[0])
      && Joinable(planned.value) && NestedLoop(Inner, planned.value) == []
  {
    hide ResolveColumn, NestedLoop, Joinable, NamesApart;
    var users, orders := TwoColumns("users", 1, 7), TwoColumns("orders", 7, 3);
    FindsColumn("id");
    FindsColumn("ref");
    var c := Condition(users, orders, "id", "ref");
    UndottedRows(c);
    NamesApartJoinable(c);
    EmptyInner(c);
  }

  lemma UndottedRows(c: Condition)
    requires c == Condition(TwoColumns("users", 1, 7), TwoColumns("orders", 7, 3), "id", "ref")
    ensures NamesApart(c)
  {
  }

  lemma FindsColumn(name: string)
    requires name == "id" || name == "ref"
    ensures ResolveColumn([KEY, REF], name) == Some(if name == "id" then KEY else REF)
  {
    assert [KEY, REF][0] == KEY && [KEY, REF][1..] == [REF];
  }
}
