/** What each table operation does to a table seen as a value. */
module TableSpec {
  import opened Values
  import opened Schema
  import opened HashIndex
  import opened Comparison

  // ------------------------------------------------------------------------- Insert

  datatype InsertError =
    | NotAnInteger
    | BehindSequence
    | PrimaryKeyRequired
    | MissingValue(column: string)
    | TypeMismatch(column: string)
    | DuplicateValue(column: string)

  /** Step 1: the row with its auto-increment value, and the counter that goes with it. */
  function Numbered(t: TableData, row: Row): (r: Result<(Row, i64), InsertError>)
  {
    var auto := AutoColumn(t.columns);
    if auto.Some? then
      var col := auto.value.name;
      if col in row then
        var id := NormalizeToInt64(row[col]);
        if id.None? then Err(NotAnInteger)
        else if id.value <= t.lastInsertId then Err(BehindSequence)
        else Ok((row[col := Int64(id.value)], id.value))
      else
        var id := Wrap64(t.lastInsertId + 1);
        Ok((row[col := Int64(id)], id))
    else
      var pk := PrimaryKey(t.columns);
      if pk.Some? && pk.value.name !in row then Err(PrimaryKeyRequired) else Ok((row, t.lastInsertId))
  }

  /** DATE, TIME, EMAIL and unheard-of types accept every value. */
  predicate TypeAccepts(typ: ColumnType, v: Value)
  {
    match typ
    case INT => v.Int64? || v.Int?
    case FLOAT => v.Float?
    case TEXT => v.Str?
    case BOOL => v.Bool?
    case _ => true
  }

  function CellError(col: Column, row: Row): (e: Option<InsertError>)
  {
    if col.name !in row then if col.notNull then Some(MissingValue(col.name)) else None
    else if TypeAccepts(col.typ, row[col.name]) then None
    else Some(TypeMismatch(col.name))
  }

  /** Step 2: the error of the first column that objects. */
  function RowError(columns: seq<Column>, row: Row): (e: Option<InsertError>)
    ensures e.None? <==> forall c :: c in columns ==> CellError(c, row).None?
  {
    if columns == [] then None
    else if CellError(columns[0], row).Some? then CellError(columns[0], row)
    else RowError(columns[1..], row)
  }

  /** Step 3: a unique index already has the row's value. */
  predicate Conflicts(t: TableData, row: Row, col: string)
  {
    col in t.indexes && t.indexes[col].unique && col in row && row[col] in t.indexes[col].data
  }

  ghost predicate Conflicting(t: TableData, row: Row)
  {
    exists col :: Conflicts(t, row, col)
  }

  /** Steps 4 to 7: the row appended and entered into every index. */
  function Appended(t: TableData, row: Row): (t': TableData)
  {
    t.(rows := t.rows + [row],
       indexes := map c | c in t.indexes :: Index(t.indexes[c].unique, AddRow(t.indexes[c].data, row, c, |t.rows|)),
       dirty := true)
  }

  /** Conflicts only depend on the indexes. */
  lemma SameConflicts(t: TableData, t': TableData, row: Row)
    requires t'.indexes == t.indexes
    ensures Conflicting(t, row) <==> Conflicting(t', row)
  {
    assert forall c :: Conflicts(t, row, c) <==> Conflicts(t', row, c);
  }

  /** A table with all the changes Appended asks for. */
  lemma AppendedIs(t: TableData, row: Row, t': TableData)
    requires t'.rows == t.rows + [row] && t'.dirty
    requires t'.name == t.name && t'.columns == t.columns && t'.lastInsertId == t.lastInsertId
    requires t'.indexes.Keys == t.indexes.Keys
    requires forall c :: c in t.indexes ==>
      t'.indexes[c] == Index(t.indexes[c].unique, AddRow(t.indexes[c].data, row, c, |t.rows|))
    ensures t' == Appended(t, row)
  {
    hide AddRow;
    assert t'.indexes == Appended(t, row).indexes;
  }

  /** The table after Insert.  A row refused in steps 2 or 3 has advanced the counter. */
  ghost function AfterInsert(t: TableData, row: Row): (t': TableData)
  {
    var numbered := Numbered(t, row);
    if numbered.Err? then t
    else
      var (full, last) := numbered.value;
      var t1 := t.(lastInsertId := last);
      if RowError(t.columns, full).Some? || Conflicting(t, full) then t1 else Appended(t1, full)
  }

  /** What Insert reports; among several conflicting columns any may be named, because map
      iteration order decides. */
  ghost predicate InsertReports(t: TableData, row: Row, e: Option<InsertError>)
  {
    var numbered := Numbered(t, row);
    if numbered.Err? then e == Some(numbered.error)
    else
      var full := numbered.value.0;
      if RowError(t.columns, full).Some? then e == RowError(t.columns, full)
      else if Conflicting(t, full) then
        e.Some? && e.value.DuplicateValue? && Conflicts(t, full, e.value.column)
      else e == None
  }

  ghost predicate Inserts(t: TableData, row: Row)
  {
    InsertReports(t, row, None)
  }

  // --------------------------------------------------------------- Update and Delete

  function CountMatches(rows: seq<Row>, pred: RowPredicate): (n: nat)
  {
    if rows == [] then 0
    else
      var n := |rows| - 1;
      CountMatches(rows[..n], pred) + if pred(rows[n]) then 1 else 0
  }

  lemma CountStep(rows: seq<Row>, pred: RowPredicate, n: nat)
    requires n < |rows|
    ensures CountMatches(rows[..n + 1], pred) == CountMatches(rows[..n], pred) + if pred(rows[n]) then 1 else 0
  {
    PrefixStep(rows, n);
  }

  lemma {:induction false} CountZero(rows: seq<Row>, pred: RowPredicate)
    ensures CountMatches(rows, pred) == 0 <==> forall i :: 0 <= i < |rows| ==> !pred(rows[i])
  {
    if rows != [] {
      var n := |rows| - 1;
      CountZero(rows[..n], pred);
      assert forall i :: 0 <= i < n ==> rows[..n][i] == rows[i];
    }
  }

  /** The table with new rows and every index built afresh from them. */
  function Rebuilt(t: TableData, rows: seq<Row>): (t': TableData)
  {
    t.(rows := rows,
       indexes := map c | c in t.indexes :: Index(t.indexes[c].unique, IndexOf(rows, c)),
       dirty := true)
  }

  /** What the rows were before does not matter. */
  lemma RebuiltRows(t: TableData, rows: seq<Row>)
    ensures Rebuilt(t.(rows := rows), rows) == Rebuilt(t, rows)
  {
  }

  function UpdatedRows(rows: seq<Row>, pred: RowPredicate, updates: Row): (r: seq<Row>)
  {
    seq(|rows|, i requires 0 <= i < |rows| => if pred(rows[i]) then rows[i] + updates else rows[i])
  }

  function AfterUpdate(t: TableData, pred: RowPredicate, updates: Row): (t': TableData)
  {
    if CountMatches(t.rows, pred) == 0 then t else Rebuilt(t, UpdatedRows(t.rows, pred, updates))
  }

  ghost predicate UpdateAccepted(t: TableData, pred: RowPredicate, updates: Row)
  {
    CountMatches(t.rows, pred) == 0 || forall c :: c in updates ==> KnownColumn(t.columns, c)
  }

  ghost predicate FirstMatch(rows: seq<Row>, pred: RowPredicate, i: nat)
  {
    i < |rows| && pred(rows[i]) && forall k :: 0 <= k < i ==> !pred(rows[k])
  }

  /** Some of the new cells, all of them in known columns, written over a row. */
  ghost predicate PartlyUpdated(columns: seq<Column>, row: Row, updates: Row, done: set<string>, row': Row)
  {
    && done <= updates.Keys
    && (forall c :: c in done ==> KnownColumn(columns, c))
    && row' == row + Restrict(updates, done)
  }

  /** Update met an unknown column: the cells it had already written in the first matching
      row stay written, and no index is rebuilt. */
  ghost predicate UpdateAborted(t: TableData, pred: RowPredicate, updates: Row, t': TableData)
  {
    exists i: nat, done: set<string>, row' ::
      && FirstMatch(t.rows, pred, i)
      && PartlyUpdated(t.columns, t.rows[i], updates, done, row')
      && t' == t.(rows := t.rows[i := row'])
  }

  function Restrict(row: Row, cols: set<string>): (r: Row)
  {
    map c | c in row && c in cols :: row[c]
  }

  lemma RestrictStep(row: Row, updates: Row, done: set<string>, c: string)
    requires c in updates
    ensures (row + Restrict(updates, done))[c := updates[c]] == row + Restrict(updates, done + {c})
  {
  }

  /** The rows Delete keeps, in order. */
  function Kept(rows: seq<Row>, pred: RowPredicate): (r: seq<Row>)
  {
    if rows == [] then []
    else
      var n := |rows| - 1;
      Kept(rows[..n], pred) + if pred(rows[n]) then [] else [rows[n]]
  }

  lemma {:induction false} KeptLength(rows: seq<Row>, pred: RowPredicate)
    ensures |Kept(rows, pred)| == |rows| - CountMatches(rows, pred)
  {
    if rows != [] {
      KeptLength(rows[..|rows| - 1], pred);
    }
  }

  function AfterDelete(t: TableData, pred: RowPredicate): (t': TableData)
  {
    if CountMatches(t.rows, pred) == 0 then t else Rebuilt(t, Kept(t.rows, pred))
  }

  // ------------------------------------------------------------------------- Select

  function Selected(rows: seq<Row>, pred: RowPredicate): (r: seq<Row>)
    ensures forall row :: row in r <==> row in rows && pred(row)
  {
    if rows == [] then []
    else
      var n := |rows| - 1;
      assert rows == rows[..n] + [rows[n]];
      Selected(rows[..n], pred) + if pred(rows[n]) then [rows[n]] else []
  }

  /** The key SelectByIndex looks up: SQL integers become int64. */
  function SearchKey(v: Value): (k: Value)
  {
    if v.Int? then Int64(v.n) else v
  }

  // ------------------------------------------------- rows picked out by their positions

  /** `out` holds the rows at the positions `ps`, in their order. */
  ghost predicate PickedOut(rows: seq<Row>, ps: seq<nat>, out: seq<Row>)
  {
    |ps| == |out| && Ascending(ps) && forall k :: 0 <= k < |ps| ==> ps[k] < |rows| && out[k] == rows[ps[k]]
  }

  /** The positions are those of all rows that do not match. */
  ghost predicate Remain(rows: seq<Row>, pred: RowPredicate, ps: seq<nat>, out: seq<Row>)
  {
    PickedOut(rows, ps, out) && forall p :: p in ps <==> 0 <= p < |rows| && !pred(rows[p])
  }

  /** The positions are those of all rows that match. */
  ghost predicate Match(rows: seq<Row>, pred: RowPredicate, ps: seq<nat>, out: seq<Row>)
  {
    PickedOut(rows, ps, out) && forall p :: p in ps <==> 0 <= p < |rows| && pred(rows[p])
  }

  /** All rows that do not match are left, each once, in their old order. */
  ghost predicate OthersRemain(rows: seq<Row>, pred: RowPredicate, out: seq<Row>)
  {
    exists ps :: Remain(rows, pred, ps, out)
  }

  /** All rows that match are there, each once, in their order. */
  ghost predicate MatchesOf(rows: seq<Row>, pred: RowPredicate, out: seq<Row>)
  {
    exists ps :: Match(rows, pred, ps, out)
  }

  lemma PickedNext(rows: seq<Row>, ps: seq<nat>, out: seq<Row>)
    requires rows != [] && PickedOut(rows[..|rows| - 1], ps, out)
    ensures PickedOut(rows, ps, out)
    ensures PickedOut(rows, ps + [|rows| - 1], out + [rows[|rows| - 1]])
  {
  }

  /** The rows Delete keeps are those that do not match. */
  lemma {:induction false} KeptExact(rows: seq<Row>, pred: RowPredicate) returns (ps: seq<nat>)
    ensures Remain(rows, pred, ps, Kept(rows, pred))
  {
    ps := [];
    if rows != [] {
      var n := |rows| - 1;
      ps := KeptExact(rows[..n], pred);
      PickedNext(rows, ps, Kept(rows[..n], pred));
      assert forall p :: 0 <= p < n ==> rows[..n][p] == rows[p];
      if !pred(rows[n]) {
        ps := ps + [n];
      }
    }
  }

  /** The rows after Delete. */
  lemma DeletedExact(t: TableData, pred: RowPredicate)
    ensures OthersRemain(t.rows, pred, AfterDelete(t, pred).rows)
  {
    hide Remain, CountMatches, IndexOf;
    var ps := KeptExact(t.rows, pred);
    assert OthersRemain(t.rows, pred, Kept(t.rows, pred));
    if CountMatches(t.rows, pred) == 0 {
      KeptAll(t.rows, pred);
    }
  }

  lemma {:induction false} KeptAll(rows: seq<Row>, pred: RowPredicate)
    requires CountMatches(rows, pred) == 0
    ensures Kept(rows, pred) == rows
  {
    if rows != [] {
      KeptAll(rows[..|rows| - 1], pred);
    }
  }

  lemma NotMatching(rows: seq<Row>, pred: RowPredicate, ps: seq<nat>, out: seq<Row>)
    requires Remain(rows, row => !pred(row), ps, out)
    ensures Match(rows, pred, ps, out)
  {
  }

  lemma {:induction false} SelectedKept(rows: seq<Row>, pred: RowPredicate)
    ensures Selected(rows, pred) == Kept(rows, row => !pred(row))
  {
    if rows != [] {
      SelectedKept(rows[..|rows| - 1], pred);
    }
  }

  /** The rows Select returns are those that match. */
  lemma SelectedExact(rows: seq<Row>, pred: RowPredicate)
    ensures MatchesOf(rows, pred, Selected(rows, pred))
  {
    SelectedKept(rows, pred);
    var ps := KeptExact(rows, row => !pred(row));
    hide Selected;
    NotMatching(rows, pred, ps, Selected(rows, pred));
  }

  ghost function MatchingPositions(rows: seq<Row>, pred: RowPredicate): (ps: set<int>)
  {
    set p | 0 <= p < |rows| && pred(rows[p])
  }

  lemma MatchingStep(rows: seq<Row>, pred: RowPredicate)
    requires rows != []
    ensures var n := |rows| - 1;
      var before := MatchingPositions(rows[..n], pred);
      n !in before && MatchingPositions(rows, pred) == if pred(rows[n]) then before + {n} else before
  {
    var n := |rows| - 1;
    assert forall p :: 0 <= p < n ==> rows[..n][p] == rows[p];
  }

  /** The count of Update and Delete is the number of positions that match. */
  lemma {:induction false} CountExact(rows: seq<Row>, pred: RowPredicate)
    ensures CountMatches(rows, pred) == |set p | 0 <= p < |rows| && pred(rows[p])|
  {
    assert MatchingPositions(rows, pred) == set p | 0 <= p < |rows| && pred(rows[p]);
    CountPositions(rows, pred);
  }

  lemma {:induction false} CountPositions(rows: seq<Row>, pred: RowPredicate)
    ensures CountMatches(rows, pred) == |MatchingPositions(rows, pred)|
  {
    if rows == [] {
      assert MatchingPositions(rows, pred) == {};
    } else {
      hide MatchingPositions;
      MatchingStep(rows, pred);
      CountPositions(rows[..|rows| - 1], pred);
    }
  }

  // ------------------------------------------------------------- rows cell by cell

  /** The row has its new cells, and its old ones for all other columns. */
  ghost predicate Overwritten(row: Row, updates: Row, row': Row)
  {
    && row'.Keys == row.Keys + updates.Keys
    && (forall c :: c in updates ==> row'[c] == updates[c])
    && (forall c :: c in row && c !in updates ==> row'[c] == row[c])
  }

  /** Each matching row is overwritten, every other row is as it was. */
  ghost predicate RowsOverwritten(rows: seq<Row>, pred: RowPredicate, updates: Row, rows': seq<Row>)
  {
    && |rows'| == |rows|
    && forall i :: 0 <= i < |rows| ==>
      if pred(rows[i]) then Overwritten(rows[i], updates, rows'[i]) else rows'[i] == rows[i]
  }

  lemma UpdatedExact(rows: seq<Row>, pred: RowPredicate, updates: Row)
    ensures RowsOverwritten(rows, pred, updates, UpdatedRows(rows, pred, updates))
  {
  }

  /** The rows after Update. */
  lemma UpdateExact(t: TableData, pred: RowPredicate, updates: Row)
    ensures RowsOverwritten(t.rows, pred, updates, AfterUpdate(t, pred, updates).rows)
  {
    hide Overwritten, IndexOf, CountMatches;
    CountZero(t.rows, pred);
    UpdatedExact(t.rows, pred, updates);
  }

  /** A partly updated row has some of the new cells, all of known columns, and is otherwise as it
      was. */
  lemma PartlyExact(columns: seq<Column>, row: Row, updates: Row, done: set<string>, row': Row)
    ensures PartlyUpdated(columns, row, updates, done, row') <==>
      && done <= updates.Keys && row'.Keys == row.Keys + done
      && (forall c :: c in done ==> (exists k :: 0 <= k < |columns| && columns[k].name == c) && row'[c] == updates[c])
      && (forall c :: c in row && c !in done ==> row'[c] == row[c])
  {
    KnownColumns(columns, done);
    hide KnownColumn;
    var full := row + Restrict(updates, done);
    if done <= updates.Keys {
      assert full.Keys == row.Keys + done;
    }
  }

  lemma KnownColumns(columns: seq<Column>, names: set<string>)
    ensures (forall c :: c in names ==> KnownColumn(columns, c)) <==>
      forall c :: c in names ==> exists k :: 0 <= k < |columns| && columns[k].name == c
  {
  }
}
