/** What a load reads from the files of a table, accepts and indexes, spelled out. */
module LoadLaws {
  import opened Values
  import opened Schema
  import opened HashIndex
  import opened Comparison
  import opened ComparisonLaws
  import opened TableSpec
  import opened Indexing
  import opened StorageSpec
  import opened Disk
  import opened Opening

  // ---------------------------------------------------------------------------- cells

  /** The number in the file, read as a float64. */
  ghost predicate NumberRead(j: JsonValue, x: real)
  {
    || j == JsonFloat(x)
    || exists n: i64 :: j == JsonInt(n) && x == Round(n) as real
  }

  /** A cell that has no column: numbers become floats, and all else is as it was written. */
  ghost predicate CellRead(j: JsonValue, v: Value)
  {
    match j
    case JsonInt(_) => v.Float? && NumberRead(j, v.r)
    case JsonFloat(_) => v.Float? && NumberRead(j, v.r)
    case JsonString(s) => v == Str(s)
    case JsonBool(b) => v == Bool(b)
    case JsonNull => v == Null
  }

  /** A cell of a column: an INT takes a number that is an int64, a FLOAT any number, a TEXT any
      string, the other text types strings of their format, a BOOL Booleans; other types and NULL
      are not accepted. */
  ghost predicate CellLoads(checks: TextChecks, typ: ColumnType, j: JsonValue, v: Value)
  {
    match typ
    case INT => v.Int64? && NumberRead(j, v.n as real) && Round(v.n) == v.n
    case FLOAT => v.Float? && NumberRead(j, v.r)
    case TEXT => v.Str? && j == JsonString(v.s)
    case BOOL => v.Bool? && j == JsonBool(v.b)
    case EMAIL => v.Str? && j == JsonString(v.s) && checks.email(v.s)
    case DATE => v.Str? && j == JsonString(v.s) && checks.date(v.s)
    case TIME => v.Str? && j == JsonString(v.s) && (checks.date(v.s) || checks.timestamp(v.s))
    case Other(_) => false
  }

  lemma CellReadExact(j: JsonValue, v: Value)
    ensures CellRead(j, v) <==> UnmarshalCell(j) == v
  {
    hide Round;
  }

  lemma CellLoadsExact(checks: TextChecks, col: Column, j: JsonValue, v: Value)
    ensures NormalizeCell(checks, col, UnmarshalCell(j)) == Ok(v) <==> CellLoads(checks, col.typ, j, v)
    ensures NormalizeCell(checks, col, UnmarshalCell(j)).Err? ==>
      NormalizeCell(checks, col, UnmarshalCell(j)) == Err(BadCell(col.name))
  {
    hide Round, NormalizeToInt64;
    if col.typ == INT && v.Int64? {
      WholeExact(UnmarshalCell(j), v.n);
    }
  }

  // ----------------------------------------------------------------------------- rows

  ghost predicate ColumnOf(columns: seq<Column>, c: string, k: nat)
  {
    k < |columns| && columns[k].name == c
  }

  /** Required cells are there; each cell of a column loads by the column's type, and the others are
      kept. */
  ghost predicate RowLoads(checks: TextChecks, columns: seq<Column>, j: JsonRow, row: Row)
  {
    && row.Keys == j.Keys
    && (forall k :: 0 <= k < |columns| && columns[k].notNull ==> columns[k].name in j)
    && (forall k :: 0 <= k < |columns| && columns[k].name in j ==>
          CellLoads(checks, columns[k].typ, j[columns[k].name], row[columns[k].name]))
    && (forall c :: c in j && (forall k: nat :: !ColumnOf(columns, c, k)) ==> CellRead(j[c], row[c]))
  }

  lemma {:induction false} ColumnFound(columns: seq<Column>, c: string)
    ensures FindColumn(columns, c).None? <==> forall k: nat :: !ColumnOf(columns, c, k)
  {
    if columns != [] {
      ColumnFound(columns[1..], c);
      if columns[0].name == c {
        assert ColumnOf(columns, c, 0);
      } else {
        forall k: nat | ColumnOf(columns, c, k) ensures k > 0 && ColumnOf(columns[1..], c, k - 1) {
        }
        forall k: nat | ColumnOf(columns[1..], c, k) ensures ColumnOf(columns, c, k + 1) {
        }
      }
    }
  }

  /** A row that is accepted loads in this sense. */
  lemma RowAccepted(checks: TextChecks, columns: seq<Column>, j: JsonRow)
    requires DistinctNames(columns) && NormalizeRow(checks, columns, UnmarshalRow(j)).Ok?
    ensures RowLoads(checks, columns, j, NormalizeRow(checks, columns, UnmarshalRow(j)).value)
  {
    hide NormalizeRow, NormalizeCell, UnmarshalCell, CellLoads, CellRead, DistinctNames;
    var row := NormalizeRow(checks, columns, UnmarshalRow(j)).value;
    NormalizeRowExact(checks, columns, UnmarshalRow(j));
    forall k | 0 <= k < |columns|
      ensures columns[k].notNull ==> columns[k].name in j
      ensures columns[k].name in j ==> CellLoads(checks, columns[k].typ, j[columns[k].name], row[columns[k].name])
    {
      assert ColumnAccepts(checks, columns[k], UnmarshalRow(j));
      FindDistinct(columns, k);
      if columns[k].name in j {
        CellLoadsExact(checks, columns[k], j[columns[k].name], row[columns[k].name]);
      }
    }
    forall c | c in j && (forall k: nat :: !ColumnOf(columns, c, k)) ensures CellRead(j[c], row[c]) {
      ColumnFound(columns, c);
      CellReadExact(j[c], row[c]);
    }
  }

  /** A row that loads in this sense is accepted, as that row. */
  lemma RowReturned(checks: TextChecks, columns: seq<Column>, j: JsonRow, row: Row)
    requires DistinctNames(columns) && RowLoads(checks, columns, j, row)
    ensures NormalizeRow(checks, columns, UnmarshalRow(j)) == Ok(row)
  {
    hide NormalizeRow, NormalizeCell, UnmarshalCell, CellLoads, CellRead, DistinctNames;
    NormalizeRowExact(checks, columns, UnmarshalRow(j));
    forall k | 0 <= k < |columns| ensures ColumnAccepts(checks, columns[k], UnmarshalRow(j)) {
      if columns[k].name in j {
        CellLoadsExact(checks, columns[k], j[columns[k].name], row[columns[k].name]);
      }
    }
    var loaded := NormalizeRow(checks, columns, UnmarshalRow(j)).value;
    forall c | c in j ensures loaded[c] == row[c] {
      ColumnFound(columns, c);
      if FindColumn(columns, c).Some? {
        var k: nat :| ColumnOf(columns, c, k);
        FindDistinct(columns, k);
        CellLoadsExact(checks, columns[k], j[c], row[c]);
      } else {
        CellReadExact(j[c], row[c]);
      }
    }
    assert loaded == row;
  }

  lemma RowLoadsExact(checks: TextChecks, columns: seq<Column>, j: JsonRow, row: Row)
    requires DistinctNames(columns)
    ensures NormalizeRow(checks, columns, UnmarshalRow(j)) == Ok(row) <==> RowLoads(checks, columns, j, row)
  {
    hide NormalizeRow, UnmarshalRow, RowLoads, DistinctNames;
    if NormalizeRow(checks, columns, UnmarshalRow(j)) == Ok(row) {
      RowAccepted(checks, columns, j);
    }
    if RowLoads(checks, columns, j, row) {
      RowReturned(checks, columns, j, row);
    }
  }

  /** The column objects to the row: a cell does not load, or a required one is missing. */
  ghost predicate Objects(checks: TextChecks, col: Column, j: JsonRow)
  {
    if col.name in j then forall v :: !CellLoads(checks, col.typ, j[col.name], v) else col.notNull
  }

  ghost predicate FirstToObject(checks: TextChecks, columns: seq<Column>, row: Row, k: nat)
  {
    && k < |columns| && !ColumnAccepts(checks, columns[k], row)
    && forall i :: 0 <= i < k ==> ColumnAccepts(checks, columns[i], row)
  }

  lemma {:induction false} FirstRefusal(checks: TextChecks, columns: seq<Column>, row: Row)
    requires DistinctNames(columns) && NormalizeRow(checks, columns, row).Err?
    ensures exists k: nat ::
      FirstToObject(checks, columns, row, k) && NormalizeRow(checks, columns, row) == Err(RefusalOf(columns[k], row))
  {
    hide NormalizeCell;
    var first, others := columns[0], columns[1..];
    var r := NormalizeColumn(checks, first, row);
    CellErrorOf(checks, first, row);
    if r.Err? {
      assert FirstToObject(checks, columns, row, 0);
    } else {
      assert forall k :: 0 <= k < |others| ==> others[k] == columns[k + 1] && others[k].name != first.name;
      FirstRefusal(checks, others, r.value);
      var k: nat :| FirstToObject(checks, others, r.value, k)
        && NormalizeRow(checks, others, r.value) == Err(RefusalOf(others[k], r.value));
      assert forall i :: 0 <= i < |others| ==>
        (ColumnAccepts(checks, others[i], r.value) <==> ColumnAccepts(checks, others[i], row));
      assert FirstToObject(checks, columns, row, k + 1);
    }
  }

  function RefusalOf(col: Column, row: Row): (e: LoadError)
  {
    if col.name in row then BadCell(col.name) else MissingCell(col.name)
  }

  lemma CellErrorOf(checks: TextChecks, col: Column, row: Row)
    ensures var r := NormalizeColumn(checks, col, row);
      && (r.Ok? <==> ColumnAccepts(checks, col, row))
      && (r.Err? ==> r == Err(RefusalOf(col, row)))
  {
  }

  lemma ObjectsExact(checks: TextChecks, col: Column, j: JsonRow)
    ensures Objects(checks, col, j) <==> !ColumnAccepts(checks, col, UnmarshalRow(j))
  {
    hide NormalizeCell, UnmarshalCell, CellLoads;
    if col.name in j {
      forall v
        ensures NormalizeCell(checks, col, UnmarshalCell(j[col.name])) == Ok(v) <==>
          CellLoads(checks, col.typ, j[col.name], v)
      {
        CellLoadsExact(checks, col, j[col.name], v);
      }
      var r := NormalizeCell(checks, col, UnmarshalCell(j[col.name]));
      if r.Ok? {
        assert CellLoads(checks, col.typ, j[col.name], r.value);
      }
    }
  }

  /** The error of a row that does not load is about the first column that objects. */
  lemma RowRefused(checks: TextChecks, columns: seq<Column>, j: JsonRow)
    requires DistinctNames(columns) && NormalizeRow(checks, columns, UnmarshalRow(j)).Err?
    ensures exists k: nat ::
      && k < |columns| && Objects(checks, columns[k], j) && (forall i :: 0 <= i < k ==> !Objects(checks, columns[i], j))
      && NormalizeRow(checks, columns, UnmarshalRow(j)) ==
         Err(if columns[k].name in j then BadCell(columns[k].name) else MissingCell(columns[k].name))
  {
    hide NormalizeRow, ColumnAccepts, Objects, DistinctNames;
    FirstRefusal(checks, columns, UnmarshalRow(j));
    forall i | 0 <= i < |columns|
      ensures Objects(checks, columns[i], j) <==> !ColumnAccepts(checks, columns[i], UnmarshalRow(j))
    {
      ObjectsExact(checks, columns[i], j);
    }
  }

  ghost predicate RowsLoad(checks: TextChecks, columns: seq<Column>, js: seq<JsonRow>, rows: seq<Row>)
  {
    |rows| == |js| && forall i :: 0 <= i < |js| ==> RowLoads(checks, columns, js[i], rows[i])
  }

  lemma {:induction false} RowsLoadExact(checks: TextChecks, columns: seq<Column>, js: seq<JsonRow>, rows: seq<Row>)
    requires DistinctNames(columns)
    ensures NormalizeRows(checks, columns, js) == Ok(rows) <==> RowsLoad(checks, columns, js, rows)
  {
    hide NormalizeRow, UnmarshalRow, RowLoads, DistinctNames;
    if js != [] && rows != [] {
      var n, m := |js| - 1, |rows| - 1;
      RowsLoadExact(checks, columns, js[..n], rows[..m]);
      RowLoadsExact(checks, columns, js[n], rows[m]);
      assert rows == rows[..m] + [rows[m]];
      if NormalizeRows(checks, columns, js) == Ok(rows) {
        assert NormalizeRows(checks, columns, js[..n]) == Ok(rows[..m]);
      }
      if RowsLoad(checks, columns, js, rows) {
        assert RowsLoad(checks, columns, js[..n], rows[..m]);
      }
      if NormalizeRows(checks, columns, js) == Ok(rows) {
        forall i | 0 <= i < |js| ensures RowLoads(checks, columns, js[i], rows[i]) {
          if i < n {
            assert js[..n][i] == js[i] && rows[..m][i] == rows[i];
          }
        }
      }
    }
  }

  // ---------------------------------------------------------------------------- tables

  /** The table with the schema and counter of meta.json, and the rows of data.json; without a
      data.json it has no rows. */
  ghost predicate DirLoads(checks: TextChecks, files: Files, dir: string, t: TableData)
  {
    && File(dir, MetaJson) in files && files[File(dir, MetaJson)].Meta?
    && var meta := files[File(dir, MetaJson)].meta;
    && t == TableData(meta.name, meta.columns, t.rows, map[], meta.lastInsertId, false)
    && if File(dir, DataJson) in files then
         files[File(dir, DataJson)].Rows? && RowsLoad(checks, meta.columns, files[File(dir, DataJson)].rows, t.rows)
       else t.rows == []
  }

  lemma DirLoadsExact(checks: TextChecks, files: Files, dir: string, t: TableData)
    requires File(dir, MetaJson) in files && files[File(dir, MetaJson)].Meta? ==>
      DistinctNames(files[File(dir, MetaJson)].meta.columns)
    ensures LoadDir(checks, files, dir) == Ok(t) <==> DirLoads(checks, files, dir, t)
    ensures File(dir, MetaJson) !in files ==> LoadDir(checks, files, dir) == Err(MissingFile)
    ensures File(dir, MetaJson) in files && !files[File(dir, MetaJson)].Meta? ==>
      LoadDir(checks, files, dir) == Err(BadJson)
    ensures File(dir, MetaJson) in files && File(dir, DataJson) in files && !files[File(dir, DataJson)].Rows? ==>
      LoadDir(checks, files, dir) == Err(BadJson)
  {
    hide NormalizeRow, RowsLoad, DistinctNames;
    if File(dir, MetaJson) in files && files[File(dir, MetaJson)].Meta? {
      var columns := files[File(dir, MetaJson)].meta.columns;
      assert NormalizeRows(checks, columns, []) == Ok([]);
      if File(dir, DataJson) in files && files[File(dir, DataJson)].Rows? {
        RowsLoadExact(checks, columns, files[File(dir, DataJson)].rows, t.rows);
      }
    }
  }

  /** What a completed save writes to meta.json; the row count is that of data.json. */
  lemma SavedMeta(files: Files, dir: string, t: TableData)
    requires Written(files, dir, t)
    ensures var meta := files[File(dir, MetaJson)].meta;
      && meta.name == t.name && meta.columns == t.columns && meta.lastInsertId == t.lastInsertId
      && meta.rowCount == |t.rows| == |files[File(dir, DataJson)].rows|
  {
  }

  // ----------------------------------------------------------------------------- keys

  /** The cell is entered into the index of its column as itself, but a float of an auto-increment
      primary key as its whole part. */
  ghost predicate EnteredAs(col: Column, v: Value, key: Value)
  {
    if col.autoIncrement && col.primaryKey && v.Float? then key.Int64? && key.n == Truncate(v.r) else key == v
  }

  /** The index of the column can be built: required cells are there, auto-increment primary keys
      are numbers, and no two rows have one key. */
  ghost predicate KeysFine(col: Column, rows: seq<Row>)
  {
    && (forall i :: 0 <= i < |rows| && col.notNull ==> col.name in rows[i])
    && (forall i :: 0 <= i < |rows| && col.name in rows[i] && col.autoIncrement && col.primaryKey ==>
          rows[i][col.name].Int? || rows[i][col.name].Int64? || rows[i][col.name].Float?)
    && (forall i, j, key :: 0 <= i < j < |rows| && col.name in rows[i] && col.name in rows[j] ==>
          !(EnteredAs(col, rows[i][col.name], key) && EnteredAs(col, rows[j][col.name], key)))
  }

  lemma EnteredExact(col: Column, v: Value, key: Value)
    ensures EnteredAs(col, v, key) <==> KeyOf(col, v) == key
  {
    hide Truncate;
  }

  lemma KeysFineExact(col: Column, rows: seq<Row>)
    ensures ColumnBuildable(col, rows) <==> KeysFine(col, rows)
  {
    hide EnteredAs, KeyOf;
    forall v, key ensures EnteredAs(col, v, key) <==> KeyOf(col, v) == key {
      EnteredExact(col, v, key);
    }
    var keys := KeyRows(col, rows);
    if Distinct(keys, col.name) {
      forall i, j, key | 0 <= i < j < |rows| && col.name in rows[i] && col.name in rows[j]
        ensures !(EnteredAs(col, rows[i][col.name], key) && EnteredAs(col, rows[j][col.name], key))
      {
        assert keys[i][col.name] != keys[j][col.name];
      }
    }
    if KeysFine(col, rows) {
      forall i, j | 0 <= i < j < |keys| && col.name in keys[i] && col.name in keys[j]
        ensures keys[i][col.name] != keys[j][col.name]
      {
        assert EnteredAs(col, rows[i][col.name], keys[i][col.name]);
      }
    }
  }

  /** The indexes of a table can be built exactly when those of all columns that are declared primary
      key or unique can. */
  lemma BuildableExact(columns: seq<Column>, rows: seq<Row>)
    ensures Buildable(columns, rows) <==>
      forall k :: 0 <= k < |columns| && (columns[k].primaryKey || columns[k].unique) ==> KeysFine(columns[k], rows)
  {
    hide ColumnBuildable, KeysFine;
    forall k | 0 <= k < |columns| ensures ColumnBuildable(columns[k], rows) <==> KeysFine(columns[k], rows) {
      KeysFineExact(columns[k], rows);
    }
  }

  /** The index of a declared column lists for each key exactly the rows whose cell is entered as
      it, in their order. */
  lemma OpenedIndex(columns: seq<Column>, rows: seq<Row>, k: nat, key: Value)
    requires DistinctNames(columns) && k < |columns| && (columns[k].primaryKey || columns[k].unique)
    ensures var c, indexes := columns[k].name, BuiltIndexes(columns, rows);
      && c in indexes && indexes[c].unique && Ascending(Lookup(indexes[c].data, key))
      && forall p :: p in Lookup(indexes[c].data, key) <==>
           0 <= p < |rows| && c in rows[p] && EnteredAs(columns[k], rows[p][c], key)
  {
    hide IndexOf, EnteredAs, KeyOf, DistinctNames;
    BuiltIndexesExact(columns, rows);
    var keys := KeyRows(columns[k], rows);
    IndexExact(keys, columns[k].name, key);
    forall p | 0 <= p < |rows| && columns[k].name in rows[p]
      ensures EnteredAs(columns[k], rows[p][columns[k].name], key) <==> Holds(keys[p], columns[k].name, key)
    {
      EnteredExact(columns[k], rows[p][columns[k].name], key);
    }
  }
}
