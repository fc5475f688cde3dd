/** The files of a table as values, and what saving and loading do to its cells. */
module StorageSpec {
  import opened Values
  import opened Schema
  import opened HashIndex
  import opened Comparison
  import opened TableSpec
  import opened Indexing

  // -------------------------------------------------------------------------- files

  /** A cell as JSON.  An integer is written digit by digit; a float is written as the
      shortest number that reads back as itself. */
  datatype JsonValue = JsonInt(n: i64) | JsonFloat(r: real) | JsonString(s: string) | JsonBool(b: bool) | JsonNull

  type JsonRow = map<string, JsonValue>

  datatype TableMeta = TableMeta(name: string, columns: seq<Column>, lastInsertId: i64, rowCount: nat)

  /** The contents of meta.json and data.json. */
  datatype TableImage = TableImage(meta: TableMeta, rows: seq<JsonRow>)

  function MarshalCell(v: Value): (j: JsonValue)
  {
    match v
    case Int(n) => JsonInt(n)
    case Int64(n) => JsonInt(n)
    case Float(r) => JsonFloat(r)
    case Str(s) => JsonString(s)
    case Bool(b) => JsonBool(b)
    case Null => JsonNull
  }

  /** JSON numbers are read as float64, whatever they were. */
  function UnmarshalCell(j: JsonValue): (v: Value)
  {
    match j
    case JsonInt(n) => Float(Round(n) as real)
    case JsonFloat(r) => Float(r)
    case JsonString(s) => Str(s)
    case JsonBool(b) => Bool(b)
    case JsonNull => Null
  }

  function MarshalRow(row: Row): (j: JsonRow)
  {
    map c | c in row :: MarshalCell(row[c])
  }

  function UnmarshalRow(j: JsonRow): (row: Row)
  {
    map c | c in j :: UnmarshalCell(j[c])
  }

  function MarshalRows(rows: seq<Row>): (js: seq<JsonRow>)
    ensures |js| == |rows|
  {
    seq(|rows|, i requires 0 <= i < |rows| => MarshalRow(rows[i]))
  }

  function MetaOf(t: TableData): (m: TableMeta)
  {
    TableMeta(t.name, t.columns, t.lastInsertId, |t.rows|)
  }

  function ImageOf(t: TableData): (img: TableImage)
  {
    TableImage(MetaOf(t), MarshalRows(t.rows))
  }

  // ------------------------------------------------------------------------- loading

  datatype LoadError = MissingFile | BadJson | MissingCell(column: string) | BadCell(column: string)

  /** The text formats that Go's libraries check. */
  datatype TextChecks = TextChecks(email: string -> bool, date: string -> bool, timestamp: string -> bool)

  /** Checks a cell against its column type; integers become int64. */
  function NormalizeCell(checks: TextChecks, col: Column, v: Value): (r: Result<Value, LoadError>)
  {
    match col.typ
    case TEXT => if v.Str? then Ok(v) else Err(BadCell(col.name))
    case INT =>
      if NormalizeToInt64(v).Some? then Ok(Int64(NormalizeToInt64(v).value)) else Err(BadCell(col.name))
    case FLOAT => if v.Float? then Ok(v) else Err(BadCell(col.name))
    case EMAIL => if v.Str? && checks.email(v.s) then Ok(v) else Err(BadCell(col.name))
    case BOOL => if v.Bool? then Ok(v) else Err(BadCell(col.name))
    case DATE => if v.Str? && checks.date(v.s) then Ok(v) else Err(BadCell(col.name))
    case TIME => if v.Str? && (checks.date(v.s) || checks.timestamp(v.s)) then Ok(v) else Err(BadCell(col.name))
    case Other(_) => Err(BadCell(col.name))
  }

  /** The row after one column of ValidateRow's loop. */
  function NormalizeColumn(checks: TextChecks, col: Column, row: Row): (r: Result<Row, LoadError>)
  {
    if col.name !in row then if col.notNull then Err(MissingCell(col.name)) else Ok(row)
    else
      var v :- NormalizeCell(checks, col, row[col.name]);
      Ok(row[col.name := v])
  }

  function NormalizeRow(checks: TextChecks, columns: seq<Column>, row: Row): (r: Result<Row, LoadError>)
  {
    if columns == [] then Ok(row)
    else
      var row' :- NormalizeColumn(checks, columns[0], row);
      NormalizeRow(checks, columns[1..], row')
  }

  function NormalizeRows(checks: TextChecks, columns: seq<Column>, js: seq<JsonRow>): (r: Result<seq<Row>, LoadError>)
  {
    if js == [] then Ok([])
    else
      var n := |js| - 1;
      var before :- NormalizeRows(checks, columns, js[..n]);
      var row :- NormalizeRow(checks, columns, UnmarshalRow(js[n]));
      Ok(before + [row])
  }

  /** The table LoadTable makes of the two files; it has no indexes yet. */
  function LoadImage(checks: TextChecks, img: TableImage): (r: Result<TableData, LoadError>)
  {
    var rows :- NormalizeRows(checks, img.meta.columns, img.rows);
    Ok(TableData(img.meta.name, img.meta.columns, rows, map[], img.meta.lastInsertId, false))
  }

  // ---------------------------------------------------------------- rows, cell by cell

  predicate DistinctNames(columns: seq<Column>)
  {
    forall i, j :: 0 <= i < j < |columns| ==> columns[i].name != columns[j].name
  }

  predicate ColumnAccepts(checks: TextChecks, col: Column, row: Row)
  {
    if col.name in row then NormalizeCell(checks, col, row[col.name]).Ok? else !col.notNull
  }

  /** What becomes of one cell; a cell outside the schema is kept. */
  function NormalCell(checks: TextChecks, columns: seq<Column>, c: string, v: Value): (r: Result<Value, LoadError>)
  {
    var col := FindColumn(columns, c);
    if col.Some? then NormalizeCell(checks, col.value, v) else Ok(v)
  }

  lemma {:induction false} NormalizeRowExact(checks: TextChecks, columns: seq<Column>, row: Row)
    requires DistinctNames(columns)
    ensures var r := NormalizeRow(checks, columns, row);
      && (r.Ok? <==> forall k :: 0 <= k < |columns| ==> ColumnAccepts(checks, columns[k], row))
      && (r.Ok? ==> r.value.Keys == row.Keys)
      && (r.Ok? ==> forall c :: c in row ==> NormalCell(checks, columns, c, row[c]) == Ok(r.value[c]))
  {
    if columns != [] {
      hide NormalizeCell;
      var first, others := columns[0], columns[1..];
      assert forall k :: 0 <= k < |others| ==> others[k] == columns[k + 1];
      var r := NormalizeColumn(checks, first, row);
      assert r.Ok? <==> ColumnAccepts(checks, first, row);
      if r.Ok? {
        NormalizeRowExact(checks, others, r.value);
        assert forall k :: 0 <= k < |others| ==>
          ColumnAccepts(checks, others[k], r.value) == ColumnAccepts(checks, others[k], row);
        assert FindColumn(others, first.name).None?;
      }
    }
  }

  // ----------------------------------------------------------- integers through JSON

  /** An integer comes back as the nearest float64, if that is an int64 at all. */
  lemma IntReload(checks: TextChecks, col: Column, n: i64)
    requires col.typ == INT
    ensures NormalizeCell(checks, col, UnmarshalCell(JsonInt(n))) ==
      if MIN_INT64 <= Round(n) <= MAX_INT64 then Ok(Int64(Round(n))) else Err(BadCell(col.name))
    ensures MIN_INT64 <= Round(n) <= MAX_INT64 + 1
  {
    RoundInRange(n);
    RoundIdempotent(n);
    hide Round;
  }

  lemma RoundInRange(n: i64)
    ensures MIN_INT64 <= Round(n) <= MAX_INT64 + 1
    ensures Round(MIN_INT64) == MIN_INT64
  {
    RoundMonotone(MIN_INT64, n);
    RoundMonotone(n, MAX_INT64 + 1);
    CollisionAtTheEnd(MAX_INT64 + 1);
    hide RoundTo, Ulp;
  }

  /** A normalised cell survives another save and load unchanged. */
  lemma NormalCellStable(checks: TextChecks, col: Column, j: JsonValue)
    requires NormalizeCell(checks, col, UnmarshalCell(j)).Ok?
    ensures var v := NormalizeCell(checks, col, UnmarshalCell(j)).value;
      NormalizeCell(checks, col, UnmarshalCell(MarshalCell(v))) == Ok(v)
  {
    hide Round;
    if col.typ == INT {
      var k := NormalizeToInt64(UnmarshalCell(j)).value;
      RoundInRange(k);
      assert Round(k) == k;
      IntReload(checks, col, k);
    }
  }

  lemma NormalRowStable(checks: TextChecks, columns: seq<Column>, j: JsonRow)
    requires DistinctNames(columns)
    requires NormalizeRow(checks, columns, UnmarshalRow(j)).Ok?
    ensures var row := NormalizeRow(checks, columns, UnmarshalRow(j)).value;
      NormalizeRow(checks, columns, UnmarshalRow(MarshalRow(row))) == Ok(row)
  {
    hide NormalizeCell, NormalizeRow, Round;
    var row0 := UnmarshalRow(j);
    NormalizeRowExact(checks, columns, row0);
    var row := NormalizeRow(checks, columns, row0).value;
    var row1 := UnmarshalRow(MarshalRow(row));
    NormalizeRowExact(checks, columns, row1);
    forall c | c in row ensures NormalCell(checks, columns, c, row1[c]) == Ok(row[c]) {
      var col := FindColumn(columns, c);
      if col.Some? {
        NormalCellStable(checks, col.value, j[c]);
      } else {
        assert row[c] == UnmarshalCell(j[c]);
      }
    }
    forall k | 0 <= k < |columns| ensures ColumnAccepts(checks, columns[k], row1) {
      assert ColumnAccepts(checks, columns[k], row0);
      if columns[k].name in row {
        FindDistinct(columns, k);
      }
    }
    assert NormalizeRow(checks, columns, row1).value == row;
  }

  lemma {:induction false} FindDistinct(columns: seq<Column>, k: nat)
    requires DistinctNames(columns) && k < |columns|
    ensures FindColumn(columns, columns[k].name) == Some(columns[k])
  {
    if k > 0 {
      FindDistinct(columns[1..], k - 1);
      assert columns[0].name != columns[k].name;
    }
  }

  lemma {:induction false} NormalRowsStable(checks: TextChecks, columns: seq<Column>, js: seq<JsonRow>)
    requires DistinctNames(columns)
    requires NormalizeRows(checks, columns, js).Ok?
    ensures var rows := NormalizeRows(checks, columns, js).value;
      |rows| == |js| && NormalizeRows(checks, columns, MarshalRows(rows)) == Ok(rows)
  {
    hide NormalizeRow, MarshalRow, UnmarshalRow;
    if js != [] {
      var n := |js| - 1;
      NormalRowsStable(checks, columns, js[..n]);
      NormalRowStable(checks, columns, js[n]);
      var rows := NormalizeRows(checks, columns, js).value;
      assert MarshalRows(rows)[..n] == MarshalRows(rows[..n]);
      assert rows[..n] == NormalizeRows(checks, columns, js[..n]).value;
    }
  }

  /** A second save and load changes nothing. */
  lemma SecondSaveLoad(checks: TextChecks, img: TableImage)
    requires DistinctNames(img.meta.columns) && LoadImage(checks, img).Ok?
    ensures var t := LoadImage(checks, img).value; LoadImage(checks, ImageOf(t)) == Ok(t)
  {
    hide NormalizeRows;
    NormalRowsStable(checks, img.meta.columns, img.rows);
  }

  // ------------------------------------------------------------ a cell through the files

  predicate IsNumber(v: Value)
  {
    IsInteger(v) || v.Float?
  }

  /** The float64 as which a saved number is read. */
  function NumberOf(v: Value): (x: real)
    requires IsNumber(v)
  {
    if v.Float? then v.r else Round(v.n) as real
  }

  /** The type under which a cell is loaded, if the schema has its column. */
  function TypeOf(columns: seq<Column>, c: string): (typ: Option<ColumnType>)
  {
    var col := FindColumn(columns, c);
    if col.Some? then Some(col.value.typ) else None
  }

  predicate IsText(checks: TextChecks, typ: ColumnType, s: string)
  {
    match typ
    case TEXT => true
    case EMAIL => checks.email(s)
    case DATE => checks.date(s)
    case TIME => checks.date(s) || checks.timestamp(s)
    case _ => false
  }

  /** A cell after a save and a load, or nothing if the load refuses it. */
  function ReloadCell(checks: TextChecks, typ: Option<ColumnType>, v: Value): (w: Option<Value>)
  {
    if IsNumber(v) then
      var x := NumberOf(v);
      if typ.None? || typ == Some(FLOAT) then Some(Float(x))
      else if typ == Some(INT) && x == Round(Truncate(x)) as real then Some(Int64(Truncate(x)))
      else None
    else if typ.None? || (v.Bool? && typ == Some(BOOL)) || (v.Str? && IsText(checks, typ.value, v.s)) then Some(v)
    else None
  }

  lemma CellReloaded(checks: TextChecks, columns: seq<Column>, c: string, v: Value)
    ensures var r := NormalCell(checks, columns, c, UnmarshalCell(MarshalCell(v)));
      && (r.Ok? <==> ReloadCell(checks, TypeOf(columns, c), v).Some?)
      && (r.Ok? ==> ReloadCell(checks, TypeOf(columns, c), v) == Some(r.value))
  {
    hide Round, Truncate, FindColumn;
  }

  /** In an INT column an integer comes back rounded, unless it rounds to 2^63. */
  lemma IntegerReloads(checks: TextChecks, v: Value)
    requires IsInteger(v)
    ensures MIN_INT64 <= Round(v.n)
    ensures ReloadCell(checks, Some(INT), v) == if Round(v.n) <= MAX_INT64 then Some(Int64(Round(v.n))) else None
  {
    hide Round;
    var col := Column("", INT, false, false, false, false);
    IntReload(checks, col, v.n);
    assert FindColumn([col], "") == Some(col);
    CellReloaded(checks, [col], "", v);
  }

  // ------------------------------------------------------------- a table through the files

  /** Every cell of the row can be loaded again, and no required one is missing. */
  ghost predicate Reloads(checks: TextChecks, columns: seq<Column>, row: Row)
  {
    && (forall k :: 0 <= k < |columns| && columns[k].name !in row ==> !columns[k].notNull)
    && (forall c :: c in row ==> ReloadCell(checks, TypeOf(columns, c), row[c]).Some?)
  }

  ghost predicate ReloadedAs(checks: TextChecks, columns: seq<Column>, row: Row, row': Row)
  {
    && row'.Keys == row.Keys
    && forall c :: c in row ==> ReloadCell(checks, TypeOf(columns, c), row[c]) == Some(row'[c])
  }

  lemma RowReloaded(checks: TextChecks, columns: seq<Column>, row: Row)
    requires DistinctNames(columns)
    ensures var r := NormalizeRow(checks, columns, UnmarshalRow(MarshalRow(row)));
      && (r.Ok? <==> Reloads(checks, columns, row))
      && (r.Ok? ==> ReloadedAs(checks, columns, row, r.value))
  {
    hide NormalizeCell, NormalizeRow, NormalCell, ReloadCell, MarshalCell, UnmarshalCell, TypeOf, DistinctNames;
    var row1 := UnmarshalRow(MarshalRow(row));
    NormalizeRowExact(checks, columns, row1);
    forall c | c in row
      ensures NormalCell(checks, columns, c, row1[c]).Ok? <==> ReloadCell(checks, TypeOf(columns, c), row[c]).Some?
      ensures NormalCell(checks, columns, c, row1[c]).Ok? ==>
        ReloadCell(checks, TypeOf(columns, c), row[c]) == Some(NormalCell(checks, columns, c, row1[c]).value)
      ensures NormalCell(checks, columns, c, row1[c]).Err? ==> KnownColumn(columns, c)
    {
      CellReloaded(checks, columns, c, row[c]);
      UnknownKept(checks, columns, c, row1[c]);
    }
    AcceptedCells(checks, columns, row1);
  }

  lemma UnknownKept(checks: TextChecks, columns: seq<Column>, c: string, v: Value)
    ensures NormalCell(checks, columns, c, v).Err? ==> KnownColumn(columns, c)
  {
    hide NormalizeCell;
  }

  /** Accepting a row column by column is accepting it cell by cell. */
  lemma AcceptedCells(checks: TextChecks, columns: seq<Column>, row: Row)
    requires DistinctNames(columns)
    ensures (forall k :: 0 <= k < |columns| ==> ColumnAccepts(checks, columns[k], row)) <==>
      && (forall k :: 0 <= k < |columns| && columns[k].name !in row ==> !columns[k].notNull)
      && (forall c :: c in row ==> NormalCell(checks, columns, c, row[c]).Ok?)
  {
    hide NormalizeCell;
    forall k | 0 <= k < |columns| ensures FindColumn(columns, columns[k].name) == Some(columns[k]) {
      FindDistinct(columns, k);
    }
    forall c | c in row && NormalCell(checks, columns, c, row[c]).Err?
      ensures exists k :: 0 <= k < |columns| && !ColumnAccepts(checks, columns[k], row)
    {
      var k :| 0 <= k < |columns| && columns[k].name == c;
      assert !ColumnAccepts(checks, columns[k], row);
    }
    forall k | 0 <= k < |columns| && !ColumnAccepts(checks, columns[k], row) && columns[k].name in row
      ensures NormalCell(checks, columns, columns[k].name, row[columns[k].name]).Err?
    {
    }
  }

  /** Any saved table loads if and only if each of its rows does, and then each cell comes back
      as ReloadCell says and nothing else changes. */
  lemma TableReloaded(checks: TextChecks, t: TableData)
    requires DistinctNames(t.columns)
    ensures var r := LoadImage(checks, ImageOf(t));
      && (r.Ok? <==> forall i :: 0 <= i < |t.rows| ==> Reloads(checks, t.columns, t.rows[i]))
      && (r.Ok? ==> r.value == t.(rows := r.value.rows, indexes := map[], dirty := false))
      && (r.Ok? ==> |r.value.rows| == |t.rows|)
      && (r.Ok? ==> forall i :: 0 <= i < |t.rows| ==> ReloadedAs(checks, t.columns, t.rows[i], r.value.rows[i]))
  {
    hide NormalizeRow, MarshalRow, UnmarshalRow, Reloads, ReloadedAs, DistinctNames;
    var js := MarshalRows(t.rows);
    RowsAllOk(checks, t.columns, js);
    forall i | 0 <= i < |t.rows|
      ensures NormalizeRow(checks, t.columns, UnmarshalRow(js[i])).Ok? <==> Reloads(checks, t.columns, t.rows[i])
    {
      RowReloaded(checks, t.columns, t.rows[i]);
    }
    if LoadImage(checks, ImageOf(t)).Ok? {
      LoadedRows(checks, t.columns, js);
      forall i | 0 <= i < |t.rows|
        ensures ReloadedAs(checks, t.columns, t.rows[i], LoadImage(checks, ImageOf(t)).value.rows[i])
      {
        RowReloaded(checks, t.columns, t.rows[i]);
      }
    }
  }

  lemma {:induction false} RowsAllOk(checks: TextChecks, columns: seq<Column>, js: seq<JsonRow>)
    ensures NormalizeRows(checks, columns, js).Ok? <==>
      forall i :: 0 <= i < |js| ==> NormalizeRow(checks, columns, UnmarshalRow(js[i])).Ok?
  {
    hide NormalizeRow, UnmarshalRow;
    if js != [] {
      var n := |js| - 1;
      RowsAllOk(checks, columns, js[..n]);
      assert forall i :: 0 <= i < n ==> js[..n][i] == js[i];
    }
  }

  // ------------------------------------------------------------------- lossless saves

  function WidenCell(v: Value): (w: Value)
  {
    if v.Int? then Int64(v.n) else v
  }

  /** The row with its integers as int64. */
  function Widen(row: Row): (r: Row)
  {
    map c | c in row :: WidenCell(row[c])
  }

  function WidenRows(rows: seq<Row>): (r: seq<Row>)
    ensures |r| == |rows|
  {
    seq(|rows|, i requires 0 <= i < |rows| => Widen(rows[i]))
  }

  /** The cell has the kind its column asks for, and is no integer outside float64; outside the
      schema any cell will do that is no integer. */
  predicate CellSurvives(checks: TextChecks, typ: Option<ColumnType>, v: Value)
  {
    if typ.None? then !IsInteger(v)
    else
      match typ.value
      case INT => IsInteger(v) && Round(v.n) == v.n
      case FLOAT => v.Float?
      case BOOL => v.Bool?
      case _ => v.Str? && IsText(checks, typ.value, v.s)
  }

  ghost predicate Survives(checks: TextChecks, columns: seq<Column>, row: Row)
  {
    && (forall k :: 0 <= k < |columns| && columns[k].name !in row ==> !columns[k].notNull)
    && (forall c :: c in row ==> CellSurvives(checks, TypeOf(columns, c), row[c]))
  }

  lemma CellSurvivesIff(checks: TextChecks, typ: Option<ColumnType>, v: Value)
    ensures CellSurvives(checks, typ, v) <==> ReloadCell(checks, typ, v) == Some(WidenCell(v))
  {
    if IsInteger(v) && typ == Some(INT) {
      IntegerReloads(checks, v);
    }
    hide Round, Truncate;
  }

  /** Saving and loading any table gives back its schema, counter and rows, with integers as
      int64, exactly when no required cell is missing and every cell survives. */
  lemma SaveLoadIff(checks: TextChecks, t: TableData)
    requires DistinctNames(t.columns)
    ensures LoadImage(checks, ImageOf(t)) == Ok(t.(rows := WidenRows(t.rows), indexes := map[], dirty := false)) <==>
      forall i :: 0 <= i < |t.rows| ==> Survives(checks, t.columns, t.rows[i])
  {
    hide LoadImage, Survives, DistinctNames, Reloads, ReloadedAs, Widen;
    TableReloaded(checks, t);
    forall i | 0 <= i < |t.rows|
      ensures Survives(checks, t.columns, t.rows[i]) <==>
        Reloads(checks, t.columns, t.rows[i]) && ReloadedAs(checks, t.columns, t.rows[i], Widen(t.rows[i]))
    {
      SurvivesIff(checks, t.columns, t.rows[i]);
    }
    var r := LoadImage(checks, ImageOf(t));
    if forall i :: 0 <= i < |t.rows| ==> Survives(checks, t.columns, t.rows[i]) {
      forall i | 0 <= i < |t.rows| ensures r.value.rows[i] == Widen(t.rows[i]) {
        SameReload(checks, t.columns, t.rows[i], r.value.rows[i], Widen(t.rows[i]));
      }
      assert r.value.rows == WidenRows(t.rows);
    }
  }

  lemma SurvivesIff(checks: TextChecks, columns: seq<Column>, row: Row)
    ensures Survives(checks, columns, row) <==>
      Reloads(checks, columns, row) && ReloadedAs(checks, columns, row, Widen(row))
  {
    hide CellSurvives, ReloadCell, TypeOf, WidenCell;
    forall c | c in row
      ensures CellSurvives(checks, TypeOf(columns, c), row[c]) <==>
        ReloadCell(checks, TypeOf(columns, c), row[c]) == Some(WidenCell(row[c]))
    {
      CellSurvivesIff(checks, TypeOf(columns, c), row[c]);
    }
  }

  lemma SameReload(checks: TextChecks, columns: seq<Column>, row: Row, a: Row, b: Row)
    requires ReloadedAs(checks, columns, row, a) && ReloadedAs(checks, columns, row, b)
    ensures a == b
  {
    hide ReloadCell, TypeOf;
    assert a.Keys == b.Keys;
    forall c | c in a ensures a[c] == b[c] {
      assert ReloadCell(checks, TypeOf(columns, c), row[c]) == Some(a[c]);
    }
  }

  /** Insert takes a cell that has no column, and Update an integer for a FLOAT column; both come
      back as floats. */
  lemma IntegersTurnFloat(checks: TextChecks)
    ensures var x := Column("x", FLOAT, false, false, false, false);
      var t := TableData("t", [x], [], map[], 0, false);
      var updated := AfterUpdate(t.(rows := [map["x" := Float(1.0)]]), _ => true, map["x" := Int(5)]);
      && Inserts(t, map["nosuch" := Int(5)])
      && AfterInsert(t, map["nosuch" := Int(5)]).rows == [map["nosuch" := Int(5)]]
      && LoadImage(checks, ImageOf(AfterInsert(t, map["nosuch" := Int(5)]))).Ok?
      && LoadImage(checks, ImageOf(AfterInsert(t, map["nosuch" := Int(5)]))).value.rows == [map["nosuch" := Float(5.0)]]
      && updated.rows == [map["x" := Int(5)]]
      && LoadImage(checks, ImageOf(updated)).Ok?
      && LoadImage(checks, ImageOf(updated)).value.rows == [map["x" := Float(5.0)]]
  {
    hide LoadImage, Round;
    var x := Column("x", FLOAT, false, false, false, false);
    var t := TableData("t", [x], [], map[], 0, false);
    var before: Row := map["x" := Float(1.0)];
    var updated := AfterUpdate(t.(rows := [before]), _ => true, map["x" := Int(5)]);
    assert AutoColumn([x]).None? && PrimaryKey([x]).None? && [x][1..] == [];
    assert Numbered(t, map["nosuch" := Int(5)]) == Ok((map["nosuch" := Int(5)], 0));
    assert [before][..0] == [] && CountMatches([before], _ => true) == 1;
    assert before + map["x" := Int(5)] == map["x" := Int(5)];
    assert updated.rows == [map["x" := Int(5)]];
    OneCellReloads(checks, x, AfterInsert(t, map["nosuch" := Int(5)]), "nosuch");
    OneCellReloads(checks, x, updated, "x");
  }

  lemma OneCellReloads(checks: TextChecks, x: Column, t: TableData, c: string)
    requires x.name == "x" && x.typ == FLOAT && !x.notNull && t.columns == [x]
    requires (c == "x" || c == "nosuch") && t.rows == [map[c := Int(5)]]
    ensures LoadImage(checks, ImageOf(t)).Ok? && LoadImage(checks, ImageOf(t)).value.rows == [map[c := Float(5.0)]]
  {
    hide LoadImage, Round;
    RoundMonotone(5, 5);
    TableReloaded(checks, t);
    assert FindColumn([x], "x") == Some(x) && FindColumn([x], "nosuch").None?;
    assert Reloads(checks, t.columns, t.rows[0]);
    var row := LoadImage(checks, ImageOf(t)).value.rows[0];
    assert ReloadedAs(checks, t.columns, t.rows[0], row);
    assert row[c] == Float(5.0) && row == map[c := Float(5.0)];
  }

  // -------------------------------------------------------------- indexes after loading

  /** The keys of an auto-increment FLOAT column are cut to whole numbers. */
  predicate CutsKeys(col: Column)
  {
    IsAuto(col) && col.typ == FLOAT
  }

  /** An auto-increment column of another type than INT and FLOAT may hold no cell at all. */
  predicate TakesNoKeys(col: Column)
  {
    IsAuto(col) && col.typ != INT && col.typ != FLOAT
  }

  predicate NoCells(col: Column, rows: seq<Row>)
  {
    forall i :: 0 <= i < |rows| ==> col.name !in rows[i]
  }

  /** The indexes of a loaded table can be built exactly when no indexed column holds a key
      twice, where the keys are the cells themselves except in auto-increment FLOAT columns. */
  lemma LoadedBuildable(checks: TextChecks, img: TableImage)
    requires DistinctNames(img.meta.columns) && LoadImage(checks, img).Ok?
    ensures var t := LoadImage(checks, img).value;
      && (Buildable(t.columns, t.rows) <==> forall k :: 0 <= k < |t.columns| && Indexed(t.columns[k]) ==>
            if TakesNoKeys(t.columns[k]) then NoCells(t.columns[k], t.rows)
            else Distinct(KeyRows(t.columns[k], t.rows), t.columns[k].name))
      && (forall k :: 0 <= k < |t.columns| && !CutsKeys(t.columns[k]) && !TakesNoKeys(t.columns[k]) ==>
            KeyRows(t.columns[k], t.rows) == t.rows)
  {
    hide NormalizeRow, UnmarshalRow, Distinct, KeyRows;
    var t := LoadImage(checks, img).value;
    LoadedRows(checks, img.meta.columns, img.rows);
    forall k | 0 <= k < |t.columns|
      ensures RowsAccepted(t.columns[k], t.rows) <==> (TakesNoKeys(t.columns[k]) ==> NoCells(t.columns[k], t.rows))
      ensures !CutsKeys(t.columns[k]) && !TakesNoKeys(t.columns[k]) ==> KeyRows(t.columns[k], t.rows) == t.rows
      ensures NoCells(t.columns[k], t.rows) ==> Distinct(KeyRows(t.columns[k], t.rows), t.columns[k].name)
    {
      forall i | 0 <= i < |t.rows| ensures CellFits(t.columns[k], t.rows[i]) {
        LoadedCell(checks, t.columns, img.rows[i], k);
      }
      LoadedKeys(t.columns[k], t.rows);
    }
  }

  /** What loading leaves in one column of a row. */
  ghost predicate CellFits(col: Column, row: Row)
  {
    if col.name !in row then !col.notNull
    else
      match col.typ
      case INT => row[col.name].Int64?
      case FLOAT => row[col.name].Float?
      case _ => !IsInteger(row[col.name]) && !row[col.name].Float?
  }

  lemma LoadedKeys(col: Column, rows: seq<Row>)
    requires forall i :: 0 <= i < |rows| ==> CellFits(col, rows[i])
    ensures RowsAccepted(col, rows) <==> (TakesNoKeys(col) ==> NoCells(col, rows))
    ensures !CutsKeys(col) && !TakesNoKeys(col) ==> KeyRows(col, rows) == rows
    ensures NoCells(col, rows) ==> Distinct(KeyRows(col, rows), col.name)
  {
    if !CutsKeys(col) && !TakesNoKeys(col) {
      forall i | 0 <= i < |rows| ensures KeyRow(col, rows[i]) == rows[i] {
        assert CellFits(col, rows[i]);
      }
      assert KeyRows(col, rows) == rows;
    }
    if RowsAccepted(col, rows) && TakesNoKeys(col) {
      forall i | 0 <= i < |rows| ensures col.name !in rows[i] {
        assert CellFits(col, rows[i]);
      }
    }
    forall i | 0 <= i < |rows| && col.name !in rows[i] ensures !col.notNull {
      assert CellFits(col, rows[i]);
    }
    if !TakesNoKeys(col) {
      forall i | 0 <= i < |rows| && col.name in rows[i] ensures KeyAccepted(col, rows[i][col.name]) {
        assert CellFits(col, rows[i]);
      }
    }
  }

  lemma {:induction false} LoadedRows(checks: TextChecks, columns: seq<Column>, js: seq<JsonRow>)
    requires NormalizeRows(checks, columns, js).Ok?
    ensures var rows := NormalizeRows(checks, columns, js).value;
      |rows| == |js| && forall i :: 0 <= i < |js| ==> NormalizeRow(checks, columns, UnmarshalRow(js[i])) == Ok(rows[i])
  {
    if js != [] {
      hide NormalizeRow, UnmarshalRow;
      LoadedRows(checks, columns, js[..|js| - 1]);
    }
  }

  lemma LoadedCell(checks: TextChecks, columns: seq<Column>, j: JsonRow, k: nat)
    requires DistinctNames(columns) && k < |columns|
    requires NormalizeRow(checks, columns, UnmarshalRow(j)).Ok?
    ensures CellFits(columns[k], NormalizeRow(checks, columns, UnmarshalRow(j)).value)
  {
    hide NormalizeRow, Round;
    NormalizeRowExact(checks, columns, UnmarshalRow(j));
    FindDistinct(columns, k);
    assert ColumnAccepts(checks, columns[k], UnmarshalRow(j));
  }

  // ------------------------------------------------------ indexing a saved table again

  /** Two cells of a column become one key by a save and a load: the same float64, which an
      auto-increment FLOAT column cuts to a whole number, or the same other value. */
  predicate KeysMeet(col: Column, v: Value, w: Value)
  {
    if IsNumber(v) && IsNumber(w) then
      if CutsKeys(col) then Truncate(NumberOf(v)) == Truncate(NumberOf(w)) else NumberOf(v) == NumberOf(w)
    else v == w
  }

  predicate KeysApart(col: Column, rows: seq<Row>)
  {
    forall i, j :: 0 <= i < j < |rows| && col.name in rows[i] && col.name in rows[j] ==>
      !KeysMeet(col, rows[i][col.name], rows[j][col.name])
  }

  /** When a saved and loaded table can be indexed, read off the table before the save. */
  ghost predicate StaysIndexable(columns: seq<Column>, rows: seq<Row>)
  {
    forall k :: 0 <= k < |columns| && Indexed(columns[k]) ==>
      if TakesNoKeys(columns[k]) then NoCells(columns[k], rows) else KeysApart(columns[k], rows)
  }

  /** A saved table that loads can be indexed again if and only if no two rows' cells in an
      indexed column become one key. */
  lemma ReloadBuildableIff(checks: TextChecks, t: TableData)
    requires DistinctNames(t.columns) && LoadImage(checks, ImageOf(t)).Ok?
    ensures Buildable(t.columns, LoadImage(checks, ImageOf(t)).value.rows) <==> StaysIndexable(t.columns, t.rows)
  {
    hide LoadImage, ReloadedAs, KeysApart, Distinct, KeyRows, NoCells, MarshalRows;
    TableReloaded(checks, t);
    LoadedBuildable(checks, ImageOf(t));
    var rows := LoadImage(checks, ImageOf(t)).value.rows;
    forall k | 0 <= k < |t.columns|
      ensures NoCells(t.columns[k], rows) <==> NoCells(t.columns[k], t.rows)
      ensures Distinct(KeyRows(t.columns[k], rows), t.columns[k].name) <==> KeysApart(t.columns[k], t.rows)
    {
      ReloadedColumn(checks, t.columns, k, t.rows, rows);
    }
  }

  lemma ReloadedColumn(checks: TextChecks, columns: seq<Column>, k: nat, rows: seq<Row>, rows': seq<Row>)
    requires DistinctNames(columns) && k < |columns| && |rows'| == |rows|
    requires forall i :: 0 <= i < |rows| ==> ReloadedAs(checks, columns, rows[i], rows'[i])
    ensures NoCells(columns[k], rows') <==> NoCells(columns[k], rows)
    ensures Distinct(KeyRows(columns[k], rows'), columns[k].name) <==> KeysApart(columns[k], rows)
  {
    hide ReloadCell, KeysMeet, KeyOf, DistinctNames;
    var col := columns[k];
    var keys := KeyRows(col, rows');
    FindDistinct(columns, k);
    forall i | 0 <= i < |rows|
      ensures (col.name in keys[i] <==> col.name in rows[i]) && (col.name in rows'[i] <==> col.name in rows[i])
    {
      assert ReloadedAs(checks, columns, rows[i], rows'[i]);
    }
    forall i, j | 0 <= i < j < |rows| && col.name in rows[i] && col.name in rows[j]
      ensures keys[i][col.name] == keys[j][col.name] <==> KeysMeet(col, rows[i][col.name], rows[j][col.name])
    {
      assert ReloadedAs(checks, columns, rows[i], rows'[i]) && ReloadedAs(checks, columns, rows[j], rows'[j]);
      KeysMeetIff(checks, col, rows[i][col.name], rows[j][col.name]);
    }
  }

  lemma KeysMeetIff(checks: TextChecks, col: Column, v: Value, w: Value)
    requires ReloadCell(checks, Some(col.typ), v).Some? && ReloadCell(checks, Some(col.typ), w).Some?
    ensures KeyOf(col, ReloadCell(checks, Some(col.typ), v).value) ==
      KeyOf(col, ReloadCell(checks, Some(col.typ), w).value)
      <==> KeysMeet(col, v, w)
  {
    hide Round, Truncate, NumberOf;
  }

  /** Where the save loses nothing, the condition is that the column has no duplicates once its
      integers are all int64. */
  lemma ExactKeysApart(checks: TextChecks, columns: seq<Column>, k: nat, rows: seq<Row>)
    requires DistinctNames(columns) && k < |columns| && !CutsKeys(columns[k])
    requires forall i :: 0 <= i < |rows| ==> Survives(checks, columns, rows[i])
    ensures KeysApart(columns[k], rows) <==> Distinct(WidenRows(rows), columns[k].name)
  {
    hide WidenCell, CellSurvives, KeysMeet, DistinctNames;
    var col, wide := columns[k], WidenRows(rows);
    FindDistinct(columns, k);
    forall i, j | 0 <= i < j < |rows| && col.name in rows[i] && col.name in rows[j]
      ensures KeysMeet(col, rows[i][col.name], rows[j][col.name]) <==> wide[i][col.name] == wide[j][col.name]
    {
      assert Survives(checks, columns, rows[i]) && Survives(checks, columns, rows[j]);
      ExactKeysMeet(checks, col, rows[i][col.name], rows[j][col.name]);
    }
  }

  lemma ExactKeysMeet(checks: TextChecks, col: Column, v: Value, w: Value)
    requires !CutsKeys(col) && CellSurvives(checks, Some(col.typ), v) && CellSurvives(checks, Some(col.typ), w)
    ensures KeysMeet(col, v, w) <==> WidenCell(v) == WidenCell(w)
  {
    hide Round;
  }

  const TWIN_COLUMN: Column := Column("id", INT, true, true, true, false)

  /** A table holding 5 as it is loaded from disk, with the index built for it. */
  function LoadedFive(): (t: TableData)
  {
    var rows := [map["id" := Int64(5)]];
    TableData("t", [TWIN_COLUMN], rows, map["id" := Index(true, IndexOf(rows, "id"))], 0, false)
  }

  /** An INSERT of the same 5, which the parser tags as int, is no conflict for the index. */
  lemma TwinInserted()
    ensures Inserts(LoadedFive(), map["id" := Int(5)])
    ensures AfterInsert(LoadedFive(), map["id" := Int(5)]).rows == [map["id" := Int64(5)], map["id" := Int(5)]]
  {
    var t, row := LoadedFive(), map["id" := Int(5)];
    assert AutoColumn(t.columns).None?;
    assert PrimaryKey(t.columns) == Some(TWIN_COLUMN);
    assert Numbered(t, row) == Ok((row, 0));
    IndexExact(t.rows, "id", Int(5));
    assert !Conflicting(t, row);
    assert CellError(TWIN_COLUMN, row).None?;
    assert t.columns[1..] == [];
  }

  /** The same number under two integer tags is two index keys: a table that accepted the second
      is saved, loaded, and can no longer be indexed. */
  lemma NumericTwins(checks: TextChecks)
    ensures var t := AfterInsert(LoadedFive(), map["id" := Int(5)]);
      && Inserts(LoadedFive(), map["id" := Int(5)])
      && LoadImage(checks, ImageOf(t)).Ok?
      && !Buildable(t.columns, LoadImage(checks, ImageOf(t)).value.rows)
  {
    hide Round, AfterInsert, Inserts;
    var id := TWIN_COLUMN;
    var t := AfterInsert(LoadedFive(), map["id" := Int(5)]);
    TwinInserted();
    TwinColumns();
    RoundMonotone(5, 5);
    assert t.rows[0]["id"] == Int64(5) && t.rows[1]["id"] == Int(5);
    assert FindColumn([id], "id") == Some(id);
    SaveLoadIff(checks, t);
    var rows := WidenRows(t.rows);
    assert rows[0]["id"] == rows[1]["id"] == Int64(5);
    var keys := KeyRows(id, rows);
    assert keys[0]["id"] == keys[1]["id"];
    assert !ColumnBuildable(id, rows);
    assert [id][0] == id;
  }

  lemma TwinColumns()
    ensures AfterInsert(LoadedFive(), map["id" := Int(5)]).columns == [TWIN_COLUMN]
  {
    hide IndexOf;
  }

  /** Two different integers that round to one: no twins before the save, but a duplicate after. */
  lemma RoundedTwins(checks: TextChecks)
    ensures var rows: seq<Row> := [map["id" := Int64(TWO_53)], map["id" := Int64(TWO_53 + 1)]];
      var t := TableData("t", [TWIN_COLUMN], rows, map[], 0, true);
      && Distinct(t.rows, "id")
      && LoadImage(checks, ImageOf(t)).Ok?
      && LoadImage(checks, ImageOf(t)).value.rows == [map["id" := Int64(TWO_53)], map["id" := Int64(TWO_53)]]
      && !Buildable(t.columns, LoadImage(checks, ImageOf(t)).value.rows)
  {
    hide Round, LoadImage, Buildable;
    var rows: seq<Row> := [map["id" := Int64(TWO_53)], map["id" := Int64(TWO_53 + 1)]];
    var t := TableData("t", [TWIN_COLUMN], rows, map[], 0, true);
    TwoKeysOneFloat();
    assert FindColumn([TWIN_COLUMN], "id") == Some(TWIN_COLUMN);
    IntegerReloads(checks, t.rows[0]["id"]);
    IntegerReloads(checks, t.rows[1]["id"]);
    hide ReloadCell;
    TableReloaded(checks, t);
    assert Reloads(checks, t.columns, t.rows[0]) && Reloads(checks, t.columns, t.rows[1]);
    assert ReloadedAs(checks, t.columns, t.rows[0], LoadImage(checks, ImageOf(t)).value.rows[0]);
    assert ReloadedAs(checks, t.columns, t.rows[1], LoadImage(checks, ImageOf(t)).value.rows[1]);
    var loaded := LoadImage(checks, ImageOf(t)).value.rows;
    assert loaded[0]["id"] == loaded[1]["id"] == Int64(TWO_53);
    assert loaded[0] == loaded[1] == map["id" := Int64(TWO_53)];
    ReloadBuildableIff(checks, t);
    assert KeysMeet(TWIN_COLUMN, t.rows[0]["id"], t.rows[1]["id"]);
    assert !KeysApart(t.columns[0], t.rows);
  }
}
