/** Building the indexes of a freshly loaded table. */
module Indexing {
  import opened Values
  import opened Schema
  import opened HashIndex
  import opened Comparison
  import opened Tables

  datatype BuildError =
    | NotNullViolation(column: string, row: nat)
    | BadAutoIncrement(column: string, row: nat)
    | UniqueViolation(column: string, rows: seq<nat>)

  predicate Indexed(col: Column)
  {
    col.primaryKey || col.unique
  }

  predicate IsAuto(col: Column)
  {
    col.autoIncrement && col.primaryKey
  }

  /** The key a row is entered under: auto-increment floats are truncated to int64. */
  function KeyOf(col: Column, v: Value): (k: Value)
  {
    if IsAuto(col) && v.Float? then Int64(Truncate(v.r)) else v
  }

  predicate KeyAccepted(col: Column, v: Value)
  {
    IsAuto(col) ==> v.Int? || v.Int64? || v.Float?
  }

  /** The rows as the index of `col` sees them. */
  function KeyRow(col: Column, row: Row): (r: Row)
  {
    if col.name in row then row[col.name := KeyOf(col, row[col.name])] else row
  }

  function KeyRows(col: Column, rows: seq<Row>): (r: seq<Row>)
    ensures |r| == |rows|
  {
    seq(|rows|, i requires 0 <= i < |rows| => KeyRow(col, rows[i]))
  }

  predicate RowsAccepted(col: Column, rows: seq<Row>)
  {
    forall i :: 0 <= i < |rows| ==>
      if col.name in rows[i] then KeyAccepted(col, rows[i][col.name]) else !col.notNull
  }

  /** When the index of one column can be built. */
  predicate ColumnBuildable(col: Column, rows: seq<Row>)
  {
    RowsAccepted(col, rows) && Distinct(KeyRows(col, rows), col.name)
  }

  predicate Buildable(columns: seq<Column>, rows: seq<Row>)
  {
    forall k :: 0 <= k < |columns| && Indexed(columns[k]) ==> ColumnBuildable(columns[k], rows)
  }

  /** The indexes of all primary key and unique columns. */
  function BuiltIndexes(columns: seq<Column>, rows: seq<Row>): (m: map<string, Index>)
  {
    if columns == [] then map[]
    else
      var n := |columns| - 1;
      var before, col := BuiltIndexes(columns[..n], rows), columns[n];
      if Indexed(col) then before[col.name := Index(true, IndexOf(KeyRows(col, rows), col.name))] else before
  }

  /** What an error says is so: the rows it names break the rule it names. */
  ghost predicate Violates(col: Column, rows: seq<Row>, e: BuildError)
  {
    e.column == col.name &&
    match e
    case NotNullViolation(_, i) => i < |rows| && col.notNull && col.name !in rows[i]
    case BadAutoIncrement(_, i) => i < |rows| && col.name in rows[i] && !KeyAccepted(col, rows[i][col.name])
    case UniqueViolation(_, ps) => |ps| > 1 && Ascending(ps) && exists v :: SharedKey(col, rows, ps, v)
  }

  ghost predicate SharedKey(col: Column, rows: seq<Row>, ps: seq<nat>, v: Value)
  {
    forall p :: p in ps ==> p < |rows| && Holds(KeyRow(col, rows[p]), col.name, v)
  }

  /** The error is about the first column whose index cannot be built. */
  ghost predicate FirstViolation(columns: seq<Column>, rows: seq<Row>, e: BuildError, k: int)
  {
    0 <= k < |columns| && Indexed(columns[k]) && Buildable(columns[..k], rows) && Violates(columns[k], rows, e)
  }

  /** Replaces the table's indexes; stops at the first violation. */
  method BuildIndexes(table: Table) returns (e: Option<BuildError>)
    requires table.Valid()
    modifies table`indexes
    ensures e.None? <==> Buildable(table.columns, Cells(table.rows))
    ensures e.Some? ==> exists k :: FirstViolation(table.columns, Cells(table.rows), e.value, k)
                                  && Contents(table.indexes) == BuiltIndexes(table.columns[..k], Cells(table.rows))
    ensures e.None? ==> table.Valid()
    ensures e.None? ==> forall c :: c in table.indexes ==> fresh(table.indexes[c])
    ensures e.None? ==> Contents(table.indexes) == BuiltIndexes(table.columns, Cells(table.rows))
  {
    hide Cells, Contents, IndexOf, ColumnBuildable, KeyRows, Unaliased;
    ghost var cells := Cells(table.rows);
    table.indexes := map[];
    for k := 0 to |table.columns|
      invariant table.Valid()
      invariant forall c :: c in table.indexes ==> fresh(table.indexes[c])
      invariant forall j :: 0 <= j < k && Indexed(table.columns[j]) ==> ColumnBuildable(table.columns[j], cells)
      invariant Contents(table.indexes) == BuiltIndexes(table.columns[..k], cells)
    {
      var col := table.columns[k];
      assert table.columns[..k + 1][..k] == table.columns[..k];
      if Indexed(col) {
        var built := BuildIndex(col, table.rows);
        if built.Err? {
          assert FirstViolation(table.columns, cells, built.error, k);
          return Some(built.error);
        }
        Attach(table, col.name, built.value);
      }
    }
    assert table.columns[..|table.columns|] == table.columns;
    return None;
  }

  /** Puts a new index under its column's name. */
  method Attach(table: Table, c: string, idx: IndexMap)
    requires table.Valid() && idx !in table.indexes.Values
    modifies table`indexes
    ensures table.Valid() && table.indexes == old(table.indexes)[c := idx]
    ensures Contents(table.indexes) == old(Contents(table.indexes))[c := Index(idx.unique, idx.data)]
  {
    hide Contents, Unaliased;
    table.indexes := table.indexes[c := idx];
  }

  /** The index of one column. */
  method BuildIndex(col: Column, rows: seq<RowMap>) returns (r: Result<IndexMap, BuildError>)
    requires Indexed(col)
    ensures r.Ok? <==> ColumnBuildable(col, Cells(rows))
    ensures r.Ok? ==> fresh(r.value) && r.value.unique
    ensures r.Ok? ==> r.value.data == IndexOf(KeyRows(col, Cells(rows)), col.name)
    ensures r.Err? ==> Violates(col, Cells(rows), r.error)
  {
    hide Cells, IndexOf, KeyOf, KeyAccepted;
    ghost var cells := Cells(rows);
    ghost var keys := KeyRows(col, cells);
    var idx := new IndexMap(col.primaryKey || col.unique);
    IndexOfNone(col.name);
    assert keys[..0] == [];
    for i := 0 to |rows|
      invariant forall j :: 0 <= j < i ==>
        if col.name in cells[j] then KeyAccepted(col, cells[j][col.name]) else !col.notNull
      invariant Distinct(keys[..i], col.name)
      invariant idx.data == IndexOf(keys[..i], col.name)
    {
      assert keys[..i + 1] == keys[..i] + [keys[i]];
      IndexOfNext(keys[..i], keys[i], col.name);
      DistinctStep(keys[..i], keys[i], col.name);
      if col.name !in rows[i].data {
        if col.notNull {
          assert !RowsAccepted(col, cells);
          return Err(NotNullViolation(col.name, i));
        }
      } else {
        var val := rows[i].data[col.name];
        if !KeyAccepted(col, val) {
          assert !RowsAccepted(col, cells);
          return Err(BadAutoIncrement(col.name, i));
        }
        val := KeyOf(col, val);
        idx.data := Append(idx.data, val, i);
        if idx.unique && |idx.data[val]| > 1 {
          NotDistinctPrefix(keys, i, col.name, val);
          assert SharedKey(col, cells, idx.data[val], val);
          return Err(UniqueViolation(col.name, idx.data[val]));
        }
        assert val !in IndexOf(keys[..i], col.name) by {
          IndexIsScan(keys[..i], col.name);
        }
      }
    }
    assert keys[..|rows|] == keys;
    return Ok(idx);
  }

  lemma IndexOfNone(col: string)
    ensures IndexOf([], col) == map[]
  {
  }

  lemma IndexOfNext(rows: seq<Row>, row: Row, col: string)
    ensures IndexOf(rows + [row], col) == AddRow(IndexOf(rows, col), row, col, |rows|)
  {
    assert (rows + [row])[..|rows|] == rows;
  }

  /** A second position for a value means two rows share it. */
  lemma NotDistinctPrefix(keys: seq<Row>, i: nat, col: string, v: Value)
    requires i < |keys| && Holds(keys[i], col, v)
    requires |Lookup(IndexOf(keys[..i], col), v) + [i]| > 1
    ensures !Distinct(keys, col)
    ensures var ps := Lookup(IndexOf(keys[..i], col), v) + [i];
      Ascending(ps) && forall p :: p in ps ==> p < |keys| && Holds(keys[p], col, v)
  {
    hide IndexOf, Ascending;
    IndexExact(keys[..i], col, v);
    assert keys[..i + 1] == keys[..i] + [keys[i]];
    IndexOfNext(keys[..i], keys[i], col);
    IndexExact(keys[..i + 1], col, v);
    var p := Lookup(IndexOf(keys[..i], col), v)[0];
    assert p in Lookup(IndexOf(keys[..i], col), v);
    assert keys[p][col] == keys[i][col];
  }
}
