/** Tables as a database load leaves them: read from disk, checked and indexed. */
module Opening {
  import opened Values
  import opened Schema
  import opened HashIndex
  import opened Comparison
  import opened TableSpec
  import opened TableLaws
  import opened Indexing
  import opened StorageSpec
  import opened Join

  function OpenTable(checks: TextChecks, img: TableImage): (t: Option<TableData>)
  {
    var loaded := LoadImage(checks, img);
    if loaded.Err? || !Buildable(loaded.value.columns, loaded.value.rows) then None
    else Some(loaded.value.(indexes := BuiltIndexes(loaded.value.columns, loaded.value.rows)))
  }

  // --------------------------------------------------------------- where runs begin

  /** The schema declares the column a primary key or unique. */
  ghost predicate Declared(columns: seq<Column>, c: string)
  {
    exists k :: 0 <= k < |columns| && columns[k].name == c && (columns[k].primaryKey || columns[k].unique)
  }

  lemma NoneDeclared()
    ensures forall c :: !Declared([], c)
  {
  }

  lemma DeclaredStep(columns: seq<Column>)
    requires columns != []
    ensures var n := |columns| - 1;
      forall c :: Declared(columns, c) <==> Declared(columns[..n], c) || (Indexed(columns[n]) && columns[n].name == c)
  {
    var n := |columns| - 1;
    forall c
      ensures Declared(columns, c) <==> Declared(columns[..n], c) || (Indexed(columns[n]) && columns[n].name == c)
    {
      if Declared(columns[..n], c) {
        var k :| 0 <= k < n && columns[..n][k].name == c && (columns[..n][k].primaryKey || columns[..n][k].unique);
        assert columns[k].name == c;
      }
      if k :| 0 <= k < n && columns[k].name == c && (columns[k].primaryKey || columns[k].unique) {
        assert columns[..n][k] == columns[k];
      }
    }
  }

  /** Each declared column has its own index, and nothing else has one. */
  lemma {:induction false} BuiltIndexesExact(columns: seq<Column>, rows: seq<Row>)
    requires DistinctNames(columns)
    ensures var m := BuiltIndexes(columns, rows);
      && (forall c :: c in m <==> Declared(columns, c))
      && (forall c :: c in m ==> m[c].unique)
      && (forall k :: 0 <= k < |columns| && Indexed(columns[k]) ==>
            && columns[k].name in m
            && m[columns[k].name] == Index(true, IndexOf(KeyRows(columns[k], rows), columns[k].name)))
  {
    hide IndexOf, KeyRows, Declared, Indexed;
    if columns == [] {
      NoneDeclared();
    } else {
      var n := |columns| - 1;
      BuiltIndexesExact(columns[..n], rows);
      DeclaredStep(columns);
      assert forall k :: 0 <= k < n ==> columns[..n][k] == columns[k];
    }
  }

  /** The truncated keys of an auto-increment FLOAT column are no keys of the rows. */
  predicate KeysAreCells(columns: seq<Column>, rows: seq<Row>)
  {
    forall k :: 0 <= k < |columns| && CutsKeys(columns[k]) ==> NoCells(columns[k], rows)
  }

  /** Exactly the columns declared primary key or unique have an index, which is unique. */
  ghost predicate DeclaredIndexed(t: TableData)
  {
    (forall c :: c in t.indexes <==> Declared(t.columns, c)) && forall c :: c in t.indexes ==> t.indexes[c].unique
  }

  /** No two rows hold the same tagged value in a column declared primary key or unique. */
  ghost predicate DeclaredDistinct(t: TableData)
  {
    forall c :: Declared(t.columns, c) ==> Distinct(t.rows, c)
  }

  /** An opened table has a unique index for each column declared primary key or unique, and no
      other index; no duplicates in those columns; and indexes that agree with its rows if and
      only if no auto-increment FLOAT column holds a cell. */
  lemma OpenedConsistentIff(checks: TextChecks, img: TableImage)
    requires DistinctNames(img.meta.columns) && OpenTable(checks, img).Some?
    ensures var t := OpenTable(checks, img).value;
      && t.columns == img.meta.columns && DeclaredIndexed(t) && DeclaredDistinct(t) && UniqueHolds(t)
      && (Consistent(t) <==> KeysAreCells(t.columns, t.rows))
  {
    hide LoadImage, IndexOf, Distinct, KeyRows, NoCells, Buildable, BuiltIndexes;
    var t := OpenTable(checks, img).value;
    LoadKeepsColumns(checks, img);
    BuiltIndexesExact(t.columns, t.rows);
    assert t.indexes == BuiltIndexes(t.columns, t.rows);
    assert DeclaredIndexed(t);
    OpenedKeys(checks, img);
    forall c | c in t.indexes && t.indexes[c].unique ensures Distinct(t.rows, c) {
      assert Declared(t.columns, c);
      var k :| 0 <= k < |t.columns| && Indexed(t.columns[k]) && t.columns[k].name == c;
      OpenedColumn(t.columns[k], t.rows);
    }
    if KeysAreCells(t.columns, t.rows) {
      forall c | c in t.indexes ensures t.indexes[c].data == IndexOf(t.rows, c) {
        assert Declared(t.columns, c);
        var k :| 0 <= k < |t.columns| && Indexed(t.columns[k]) && t.columns[k].name == c;
        OpenedColumn(t.columns[k], t.rows);
      }
    } else {
      var k :| 0 <= k < |t.columns| && CutsKeys(t.columns[k]) && !NoCells(t.columns[k], t.rows);
      OpenedColumn(t.columns[k], t.rows);
      assert t.indexes[t.columns[k].name].data != IndexOf(t.rows, t.columns[k].name);
    }
  }

  lemma LoadKeepsColumns(checks: TextChecks, img: TableImage)
    requires LoadImage(checks, img).Ok?
    ensures LoadImage(checks, img).value.columns == img.meta.columns
  {
  }

  /** What a load and a successful build say about each indexed column. */
  lemma OpenedKeys(checks: TextChecks, img: TableImage)
    requires DistinctNames(img.meta.columns) && OpenTable(checks, img).Some?
    ensures var t := OpenTable(checks, img).value;
      forall k :: 0 <= k < |t.columns| && Indexed(t.columns[k]) ==>
        && ColumnBuildable(t.columns[k], t.rows)
        && forall i :: 0 <= i < |t.rows| ==> CellFits(t.columns[k], t.rows[i])
  {
    hide NormalizeRow, UnmarshalRow, ColumnBuildable, CellFits;
    var t := OpenTable(checks, img).value;
    LoadedRows(checks, img.meta.columns, img.rows);
    forall k, i | 0 <= k < |t.columns| && 0 <= i < |t.rows| ensures CellFits(t.columns[k], t.rows[i]) {
      LoadedCell(checks, t.columns, img.rows[i], k);
    }
  }

  lemma OpenedColumn(col: Column, rows: seq<Row>)
    requires Indexed(col) && ColumnBuildable(col, rows)
    requires forall i :: 0 <= i < |rows| ==> CellFits(col, rows[i])
    ensures Distinct(rows, col.name)
    ensures IndexOf(KeyRows(col, rows), col.name) == IndexOf(rows, col.name) <==> (CutsKeys(col) ==> NoCells(col, rows))
  {
    hide IndexOf;
    var keys := KeyRows(col, rows);
    LoadedKeys(col, rows);
    forall i, j | 0 <= i < j < |rows| && col.name in rows[i] && col.name in rows[j]
      ensures rows[i][col.name] != rows[j][col.name]
    {
      assert keys[i][col.name] != keys[j][col.name];
    }
    if NoCells(col, rows) {
      assert keys == rows;
    } else if CutsKeys(col) {
      var i :| 0 <= i < |rows| && col.name in rows[i];
      assert CellFits(col, rows[i]);
      var v := rows[i][col.name];
      IndexExact(rows, col.name, v);
      IndexExact(keys, col.name, v);
      assert Holds(rows[i], col.name, v);
      assert v !in IndexOf(keys, col.name) by {
        forall p | 0 <= p < |keys| ensures !Holds(keys[p], col.name, v) {
          assert CellFits(col, rows[p]);
        }
      }
    }
  }

  /** From an opened table on, every index agrees with the rows, the indexes stay those of the
      declared columns, and these stay without duplicates, after any run that keeps to safe
      operations. */
  lemma OpenedRun(checks: TextChecks, img: TableImage, states: seq<TableData>, ops: seq<Op>, k: nat)
    requires Run(states, ops) && k < |states|
    requires DistinctNames(img.meta.columns) && OpenTable(checks, img) == Some(states[0])
    requires KeysAreCells(states[0].columns, states[0].rows)
    requires forall i :: 0 <= i < |ops| ==> IndexSafe(states[i], ops[i])
    ensures Consistent(states[k]) && forall c :: IndexUsable(states[k], c)
    ensures states[k].columns == img.meta.columns && DeclaredIndexed(states[k])
    ensures (forall i :: 0 <= i < |ops| ==> UniqueSafe(states[i], ops[i])) ==> DeclaredDistinct(states[k])
  {
    hide Step, IndexOf, OpenTable;
    OpenedConsistentIff(checks, img);
    RunConsistent(states, ops, k);
    RunColumns(states, ops, k);
    RunIndexes(states, ops, k);
    if forall i :: 0 <= i < |ops| ==> UniqueSafe(states[i], ops[i]) {
      RunUnique(states, ops, k);
    }
  }

  /** The indexes stay those of the same columns. */
  lemma {:induction false} RunIndexes(states: seq<TableData>, ops: seq<Op>, k: nat)
    requires Run(states, ops) && k < |states|
    ensures states[k].indexes.Keys == states[0].indexes.Keys
    ensures forall c :: c in states[0].indexes ==> states[k].indexes[c].unique == states[0].indexes[c].unique
  {
    if k > 0 {
      RunIndexes(states, ops, k - 1);
      StepShape(states[k - 1], ops[k - 1], states[k]);
    }
  }

  const FLOAT_KEY: Column := Column("id", FLOAT, true, true, true, true)

  /** An auto-increment FLOAT key holding 1.5 is indexed under 1. */
  lemma CutKey(checks: TextChecks)
    ensures var img := TableImage(TableMeta("t", [FLOAT_KEY], 0, 1), [map["id" := JsonFloat(1.5)]]);
      && OpenTable(checks, img).Some?
      && OpenTable(checks, img).value.rows == [map["id" := Float(1.5)]]
      && !Consistent(OpenTable(checks, img).value)
  {
    hide IndexOf;
    var j: JsonRow, row: Row := map["id" := JsonFloat(1.5)], map["id" := Float(1.5)];
    var img := TableImage(TableMeta("t", [FLOAT_KEY], 0, 1), [j]);
    assert UnmarshalRow(j) == row && row["id" := Float(1.5)] == row;
    assert [j][..0] == [] && [FLOAT_KEY][1..] == [];
    assert NormalizeRow(checks, [FLOAT_KEY], row) == Ok(row);
    assert NormalizeRows(checks, [FLOAT_KEY], [j]) == Ok([] + [row]);
    assert Distinct(KeyRows(FLOAT_KEY, [row]), "id");
    assert Buildable([FLOAT_KEY], [row]);
    OpenedConsistentIff(checks, img);
    var t := OpenTable(checks, img).value;
    assert CutsKeys(t.columns[0]) && "id" in t.rows[0];
  }

  // ------------------------------------------------------------------ opening a save

  /** Read off the table before the save: each of its rows loads again, and no two cells of an
      indexed column become one key. */
  ghost predicate Reopens(checks: TextChecks, t: TableData)
  {
    && (forall i :: 0 <= i < |t.rows| ==> Reloads(checks, t.columns, t.rows[i]))
    && StaysIndexable(t.columns, t.rows)
  }

  /** Any saved table can be opened again if and only if it reopens in this sense. */
  lemma ReopensIff(checks: TextChecks, t: TableData)
    requires DistinctNames(t.columns)
    ensures OpenTable(checks, ImageOf(t)).Some? <==> Reopens(checks, t)
  {
    hide Reloads, StaysIndexable, ReloadedAs, LoadImage, Buildable;
    TableReloaded(checks, t);
    if LoadImage(checks, ImageOf(t)).Ok? {
      ReloadBuildableIff(checks, t);
    }
  }

  /** In particular the table at any point of any run, whatever its operations wrote. */
  lemma RunReopensIff(checks: TextChecks, img: TableImage, states: seq<TableData>, ops: seq<Op>, k: nat)
    requires Run(states, ops) && k < |states|
    requires DistinctNames(img.meta.columns) && OpenTable(checks, img) == Some(states[0])
    ensures OpenTable(checks, ImageOf(states[k])).Some? <==> Reopens(checks, states[k])
  {
    hide Step, DistinctNames, Reopens, Buildable, LoadImage, BuiltIndexes;
    LoadKeepsColumns(checks, img);
    RunColumns(states, ops, k);
    ReopensIff(checks, states[k]);
  }
}
