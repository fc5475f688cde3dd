/** Walking a plan tree over the tables of a database. */
module Executor {
  import opened Values
  import opened Schema
  import opened HashIndex
  import opened TableSpec
  import opened Tables
  import opened JoinSpec
  import opened Join
  import opened Predicates
  import opened Projections
  import opened Planner

  /** What a node hands to the node above it. */
  datatype Intermediate = Intermediate(rows: seq<Row>, columns: seq<Column>)

  type Data = map<string, TableData>

  /** The tables of the database as values. */
  ghost function Snapshot(db: map<string, Table>): (d: Data)
    reads db.Values
    reads set n, i: nat | n in db && i < |db[n].rows| :: db[n].rows[i]
    reads set n, x: IndexMap | n in db && x in db[n].indexes.Values :: x
    ensures d.Keys == db.Keys && forall n :: n in db ==> d[n] == db[n].View()
  {
    map n | n in db :: db[n].View()
  }

  /** Qualifying the columns of any row by its table's name causes no clash. */
  ghost predicate Mergeable(data: Data)
  {
    forall n, row :: n in data && row in data[n].rows ==> QualifiesApart(row, n)
  }

  /** Column names without a dot never clash. */
  lemma UndottedMergeable(data: Data)
    requires forall n, row, c :: n in data && row in data[n].rows && c in row ==> !Dotted(c)
    ensures Mergeable(data)
  {
    forall n, row | n in data && row in data[n].rows ensures QualifiesApart(row, n) {
      PrefixInjective(n);
    }
  }

  /** Join nodes are given made-up names. */
  function NodeName(node: Plan, joinNames: Plan -> string): (name: string)
  {
    if node.Scan? then node.tableName else joinNames(node)
  }

  function TempTable(name: string, r: Intermediate): (t: TableData)
  {
    TableData(name, r.columns, r.rows, map[], 0, false)
  }

  function QualifiedColumns(table: string, columns: seq<Column>): (q: seq<Column>)
    ensures |q| == |columns|
  {
    seq(|columns|, i requires 0 <= i < |columns| =>
      Column(table + "." + columns[i].name, columns[i].typ, false, false, false, false))
  }

  ghost predicate AllDotted(rows: seq<Row>)
  {
    forall row :: row in rows ==> DottedRow(row)
  }

  ghost predicate DottedRow(row: Row)
  {
    forall k :: k in row ==> Dotted(k)
  }

  // ----------------------------------------------------------------- specification

  ghost function ScanResult(tableName: string, pred: Option<RowPredicate>, data: Data)
    : (r: Result<Intermediate, QueryError>)
  {
    if tableName !in data then Err(TableNotFound(tableName))
    else
      var t := data[tableName];
      Ok(Intermediate(Filter(pred, t.rows), t.columns))
  }

  ghost predicate Nameable(rows: seq<Row>, name: string)
  {
    forall row :: row in rows ==> QualifiesApart(row, name)
  }

  ghost function JoinResult(left: TableData, right: TableData, kind: JoinType, leftColumn: string, rightColumn: string)
    : (r: Result<Intermediate, QueryError>)
    requires Nameable(left.rows, left.name) && Nameable(right.rows, right.name)
  {
    var c := Resolve(left, right, leftColumn, rightColumn);
    if c.Err? then Err(JoinFailed(c.error))
    else Ok(Intermediate(
      NestedLoop(kind, c.value),
      QualifiedColumns(left.name, left.columns) + QualifiedColumns(right.name, right.columns)))
  }

  lemma ScanNameable(tableName: string, pred: Option<RowPredicate>, data: Data)
    requires Mergeable(data)
    ensures var r := ScanResult(tableName, pred, data); r.Ok? ==> Nameable(r.value.rows, tableName)
  {
    if tableName in data {
      FilterKeeps(pred, data[tableName].rows);
    }
  }

  lemma {:induction false} FilterKeeps(pred: Option<RowPredicate>, rows: seq<Row>)
    ensures forall row :: row in Filter(pred, rows) ==> row in rows
  {
    if rows != [] {
      FilterKeeps(pred, rows[..|rows| - 1]);
    }
  }

  ghost function NodeResult(node: Plan, data: Data, joinNames: Plan -> string): (r: Result<Intermediate, QueryError>)
    requires Mergeable(data)
    ensures r.Ok? ==> Nameable(r.value.rows, NodeName(node, joinNames))
  {
    match node
    case Scan(tableName, pred) =>
      ScanNameable(tableName, pred, data);
      ScanResult(tableName, pred, data)
    case JoinNode(left, right, kind, leftColumn, rightColumn) =>
      var l :- NodeResult(left, data, joinNames);
      var r :- NodeResult(right, data, joinNames);
      var lt, rt := TempTable(NodeName(left, joinNames), l), TempTable(NodeName(right, joinNames), r);
      JoinNameable(lt, rt, kind, leftColumn, rightColumn, joinNames(node));
      JoinResult(lt, rt, kind, leftColumn, rightColumn)
  }

  /** The rows a select node works on before it filters. */
  ghost function SourceResult(p: SelectPlan, data: Data, joinNames: Plan -> string)
    : (r: Result<Intermediate, QueryError>)
    requires Mergeable(data)
  {
    if p.child.Some? then NodeResult(p.child.value, data, joinNames) else ScanResult(p.tableName, p.pred, data)
  }

  ghost predicate ProjectedRows(rows: seq<Row>, proj: Projection, out: seq<Row>)
  {
    |out| == |rows| && forall i :: 0 <= i < |rows| ==> Projected(rows[i], proj, out[i])
  }

  ghost predicate Answers(p: SelectPlan, source: Intermediate, out: Intermediate)
  {
    out.columns == source.columns && ProjectedRows(Filter(p.pred, source.rows), p.proj, out.rows)
  }

  // --------------------------------------------------------- names in joined rows

  lemma DottedQualified(row: Row, table: string)
    requires QualifiesApart(row, table)
    ensures DottedRow(QualifiedCells(row, table))
  {
  }

  lemma DottedPadded(row: Row, t: TableData)
    ensures DottedRow(Padded(row, t))
  {
    if row == map[] {
      DottedNulls(t.name, t.columns);
    }
  }

  lemma {:induction false} DottedNulls(table: string, columns: seq<Column>)
    ensures DottedRow(NullCells(table, columns))
  {
    if columns != [] {
      DottedNulls(table, columns[..|columns| - 1]);
    }
  }

  lemma {:induction false} DottedProbe(c: Condition, l: Row, m: nat)
    requires Joinable(c) && l in c.left.rows && m <= |c.right.rows|
    ensures AllDotted(ProbeTo(c, l, m))
  {
    hide DottedRow, QualifiedCells, QualifiesApart;
    if m > 0 {
      DottedProbe(c, l, m - 1);
      var r := c.right.rows[m - 1];
      DottedQualified(l, c.left.name);
      DottedQualified(r, c.right.name);
      DottedMerge(QualifiedCells(l, c.left.name), QualifiedCells(r, c.right.name));
    }
  }

  lemma DottedMerge(a: Row, b: Row)
    requires DottedRow(a) && DottedRow(b)
    ensures DottedRow(a + b)
  {
  }

  lemma {:induction false} DottedPairs(c: Condition, n: nat)
    requires Joinable(c) && n <= |c.left.rows|
    ensures AllDotted(Pairs(c, n))
  {
    hide DottedRow, QualifiedCells, QualifiesApart;
    if n > 0 {
      DottedPairs(c, n - 1);
      DottedProbe(c, c.left.rows[n - 1], |c.right.rows|);
    }
  }

  lemma DottedWithNull(c: Condition, l: Row, r: Row)
    ensures DottedRow(CombinedWithNull(c, l, r))
  {
    hide DottedRow;
    DottedPadded(l, c.left);
    DottedPadded(r, c.right);
    DottedMerge(Padded(l, c.left), Padded(r, c.right));
  }

  lemma {:induction false} DottedLeftOnly(c: Condition, n: nat)
    requires n <= |c.left.rows|
    ensures AllDotted(LeftOnly(c, n))
  {
    hide DottedRow, LeftMatched, CombinedWithNull;
    if n > 0 {
      DottedLeftOnly(c, n - 1);
      DottedWithNull(c, c.left.rows[n - 1], map[]);
    }
  }

  lemma {:induction false} DottedRightOnly(c: Condition, m: nat)
    requires m <= |c.right.rows|
    ensures AllDotted(RightOnly(c, m))
  {
    hide DottedRow, RightMatched, CombinedWithNull;
    if m > 0 {
      DottedRightOnly(c, m - 1);
      DottedWithNull(c, map[], c.right.rows[m - 1]);
    }
  }

  /** Every column of a joined row is qualified, so a further join leaves the names alone. */
  lemma JoinedDotted(kind: JoinType, c: Condition)
    requires Joinable(c)
    ensures AllDotted(NestedLoop(kind, c))
  {
    hide DottedRow, Pairs, LeftOnly, RightOnly;
    DottedPairs(c, |c.left.rows|);
    DottedLeftOnly(c, |c.left.rows|);
    DottedRightOnly(c, |c.right.rows|);
  }

  lemma JoinNameable(left: TableData, right: TableData, kind: JoinType, leftColumn: string, rightColumn: string,
                     name: string)
    requires Nameable(left.rows, left.name) && Nameable(right.rows, right.name)
    ensures var r := JoinResult(left, right, kind, leftColumn, rightColumn);
      r.Ok? ==> Nameable(r.value.rows, name)
  {
    hide NestedLoop, ResolveColumn;
    var c := Resolve(left, right, leftColumn, rightColumn);
    if c.Ok? {
      JoinedDotted(kind, c.value);
    }
  }

  // ---------------------------------------------------------------------- execution

  /** Selecting from a table is filtering its rows. */
  lemma {:induction false} SelectedFilter(rows: seq<Row>, pred: RowPredicate)
    ensures Selected(rows, pred) == Filter(Some(pred), rows)
  {
    if rows != [] {
      SelectedFilter(rows[..|rows| - 1], pred);
    }
  }

  method ExecuteScan(tableName: string, pred: Option<RowPredicate>, db: map<string, Table>, ghost data: Data)
    returns (r: Result<Intermediate, QueryError>)
    requires data == Snapshot(db)
    ensures r == ScanResult(tableName, pred, data)
  {
    if tableName !in db {
      return Err(TableNotFound(tableName));
    }
    var table := db[tableName];
    var rows;
    if pred.None? {
      rows := table.SelectAll();
      FilterNone(Cells(rows));
    } else {
      SelectedFilter(Cells(table.rows), pred.value);
      rows := table.Select(pred.value);
    }
    return Ok(Intermediate(Cells(rows), table.columns));
  }

  method ExecuteNode(node: Plan, db: map<string, Table>, ghost data: Data, joinNames: Plan -> string)
    returns (r: Result<Intermediate, QueryError>)
    requires data == Snapshot(db) && Mergeable(data)
    ensures r == NodeResult(node, data, joinNames)
    decreases node
  {
    hide Mergeable, Snapshot, ScanResult, JoinResult;
    match node
    case Scan(tableName, pred) =>
      r := ExecuteScan(tableName, pred, db, data);
    case JoinNode(left, right, kind, leftColumn, rightColumn) =>
      var l := ExecuteNode(left, db, data, joinNames);
      if l.Err? {
        return l;
      }
      var rr := ExecuteNode(right, db, data, joinNames);
      if rr.Err? {
        return rr;
      }
      var leftTable := TempTable(NodeName(left, joinNames), l.value);
      var rightTable := TempTable(NodeName(right, joinNames), rr.value);
      r := ExecuteJoinNode(leftTable, rightTable, kind, leftColumn, rightColumn);
  }

  lemma ResolvedTables(left: TableData, right: TableData, leftColumn: string, rightColumn: string)
    ensures var c := Resolve(left, right, leftColumn, rightColumn);
      c.Ok? ==> c.value.left == left && c.value.right == right
  {
    hide ResolveColumn;
  }

  /** Joins two temporary tables, which have no stored indexes. */
  method ExecuteJoinNode(left: TableData, right: TableData, kind: JoinType, leftColumn: string, rightColumn: string)
    returns (r: Result<Intermediate, QueryError>)
    requires Nameable(left.rows, left.name) && Nameable(right.rows, right.name)
    requires right.indexes == map[]
    ensures r == JoinResult(left, right, kind, leftColumn, rightColumn)
  {
    hide QualifiesApart, NestedLoop, Resolve, Filter;
    var joined := ExecuteJoin(left, right, leftColumn, rightColumn, kind, None);
    if joined.Err? {
      return Err(JoinFailed(joined.error));
    }
    var c := Resolve(left, right, leftColumn, rightColumn).value;
    ResolvedTables(left, right, leftColumn, rightColumn);
    FilterNone(NestedLoop(kind, c));
    var columns: seq<Column> := [];
    for i := 0 to |left.columns|
      invariant columns == QualifiedColumns(left.name, left.columns[..i])
    {
      var col := left.columns[i];
      columns := columns + [Column(left.name + "." + col.name, col.typ, false, false, false, false)];
    }
    assert left.columns[..|left.columns|] == left.columns;
    for i := 0 to |right.columns|
      invariant columns == QualifiedColumns(left.name, left.columns) + QualifiedColumns(right.name, right.columns[..i])
    {
      var col := right.columns[i];
      columns := columns + [Column(right.name + "." + col.name, col.typ, false, false, false, false)];
    }
    assert right.columns[..|right.columns|] == right.columns;
    return Ok(Intermediate(joined.value, columns));
  }

  method ExecuteSelect(p: SelectPlan, db: map<string, Table>, ghost data: Data, joinNames: Plan -> string)
    returns (r: Result<Intermediate, QueryError>)
    requires data == Snapshot(db) && Mergeable(data)
    ensures var source := SourceResult(p, data, joinNames);
      && (source.Err? ==> r == Err(source.error))
      && (source.Ok? ==> r.Ok? && Answers(p, source.value, r.value))
  {
    hide Mergeable, Snapshot, SourceResult, Filter, ProjectedRows;
    var child := ExecuteSource(p, db, data, joinNames);
    if child.Err? {
      return child;
    }
    var rows := child.value.rows;
    FilterNone(rows);
    if p.pred.Some? {
      rows := FilterRows(rows, p.pred.value);
    }
    rows := ProjectRows(rows, p.proj);
    return Ok(Intermediate(rows, child.value.columns));
  }

  method ExecuteSource(p: SelectPlan, db: map<string, Table>, ghost data: Data, joinNames: Plan -> string)
    returns (r: Result<Intermediate, QueryError>)
    requires data == Snapshot(db) && Mergeable(data)
    ensures r == SourceResult(p, data, joinNames)
  {
    hide Mergeable, Snapshot, ScanResult, NodeResult;
    if p.child.Some? {
      r := ExecuteNode(p.child.value, db, data, joinNames);
    } else {
      r := ExecuteScan(p.tableName, p.pred, db, data);
    }
  }

  method FilterRows(rows: seq<Row>, pred: RowPredicate) returns (filtered: seq<Row>)
    ensures filtered == Filter(Some(pred), rows)
  {
    filtered := [];
    for i := 0 to |rows|
      invariant filtered == Filter(Some(pred), rows[..i])
    {
      PrefixStep(rows, i);
      if pred(rows[i]) {
        filtered := filtered + [rows[i]];
      }
    }
    assert rows[..|rows|] == rows;
  }

  method ProjectRows(rows: seq<Row>, proj: Projection) returns (projected: seq<Row>)
    ensures ProjectedRows(rows, proj, projected)
  {
    hide Projected;
    projected := [];
    for i := 0 to |rows|
      invariant |projected| == i && forall k :: 0 <= k < i ==> Projected(rows[k], proj, projected[k])
    {
      var row := ProjectJoinedRow(rows[i], proj);
      projected := projected + [row];
    }
  }
}
