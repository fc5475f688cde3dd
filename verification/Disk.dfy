/** The file system as a map, a table save as a sequence of steps on it, and what a save that
    stops half-way leaves behind. */
module Disk {
  import opened Values
  import opened Schema
  import opened Comparison
  import opened TableSpec
  import opened TableLaws
  import opened StorageSpec

  datatype FileName = MetaJson | DataJson | MetaTmp | DataTmp

  datatype File = File(dir: string, name: FileName)

  /** Junk stands for a file that was only partly written. */
  datatype Content =
    | Meta(meta: TableMeta)
    | Rows(rows: seq<JsonRow>)
    | DatabaseMeta(name: string, tables: set<string>)
    | Junk

  type Files = map<File, Content>

  datatype DiskStep = WriteFile(file: File, content: Content) | Rename(from: File, to: File)

  function Apply(files: Files, step: DiskStep): (files': Files)
  {
    match step
    case WriteFile(f, c) => files[f := c]
    case Rename(from, to) => if from in files then files[to := files[from]] - {from} else files
  }

  function ApplyAll(files: Files, steps: seq<DiskStep>): (files': Files)
    decreases |steps|
  {
    if steps == [] then files else ApplyAll(Apply(files, steps[0]), steps[1..])
  }

  /** SaveTable: each file goes to a temporary file that then replaces it, meta.json first. */
  function SaveSteps(dir: string, t: TableData): (steps: seq<DiskStep>)
  {
    [WriteFile(File(dir, MetaTmp), Meta(MetaOf(t))), Rename(File(dir, MetaTmp), File(dir, MetaJson)),
     WriteFile(File(dir, DataTmp), Rows(MarshalRows(t.rows))), Rename(File(dir, DataTmp), File(dir, DataJson))]
  }

  /** A write that was cut off. */
  ghost predicate CutOff(files: Files, step: DiskStep, files': Files)
  {
    step.WriteFile? && step.file in files' && files' == files[step.file := files'[step.file]]
  }

  /** What can be on disk when the steps stop at any point; a write that is cut off leaves
      anything in its file, a rename happens wholly or not at all. */
  ghost predicate Interrupted(files: Files, steps: seq<DiskStep>, files': Files)
    decreases |steps|
  {
    || files' == files
    || (steps != [] && CutOff(files, steps[0], files'))
    || (steps != [] && Interrupted(Apply(files, steps[0]), steps[1..], files'))
  }

  function StepFiles(step: DiskStep): (fs: set<File>)
  {
    match step
    case WriteFile(f, _) => {f}
    case Rename(from, to) => {from, to}
  }

  /** No step touches the directory. */
  ghost predicate Untouched(steps: seq<DiskStep>, dir: string)
  {
    forall i, f :: 0 <= i < |steps| && f in StepFiles(steps[i]) ==> f.dir != dir
  }

  /** A directory holds the same files with the same contents. */
  ghost predicate SameDir(files: Files, files': Files, dir: string)
  {
    forall name :: (File(dir, name) in files <==> File(dir, name) in files')
      && (File(dir, name) in files ==> files[File(dir, name)] == files'[File(dir, name)])
  }

  lemma {:induction false} InterruptedElsewhere(files: Files, steps: seq<DiskStep>, files': Files, dir: string)
    requires Interrupted(files, steps, files') && Untouched(steps, dir)
    ensures SameDir(files, files', dir)
    decreases |steps|
  {
    if steps != [] {
      assert forall f :: f in StepFiles(steps[0]) ==> f.dir != dir;
      assert forall i :: 0 <= i < |steps[1..]| ==> steps[1..][i] == steps[i + 1];
      if Interrupted(Apply(files, steps[0]), steps[1..], files') {
        InterruptedElsewhere(Apply(files, steps[0]), steps[1..], files', dir);
      }
    }
  }

  lemma {:induction false} ApplyAllInterrupted(files: Files, steps: seq<DiskStep>)
    ensures Interrupted(files, steps, ApplyAll(files, steps))
    decreases |steps|
  {
    if steps != [] {
      ApplyAllInterrupted(Apply(files, steps[0]), steps[1..]);
    }
  }

  lemma {:induction false} ApplyAllConcat(files: Files, a: seq<DiskStep>, b: seq<DiskStep>)
    ensures ApplyAll(files, a + b) == ApplyAll(ApplyAll(files, a), b)
    decreases |a|
  {
    if a == [] {
      assert a + b == b;
    } else {
      assert (a + b)[1..] == a[1..] + b;
      ApplyAllConcat(Apply(files, a[0]), a[1..], b);
    }
  }

  lemma MetaSteps(files: Files, tmp: File, target: File, meta: Content)
    ensures ApplyAll(files, [WriteFile(tmp, meta), Rename(tmp, target)]) ==
      Apply(Apply(files, WriteFile(tmp, meta)), Rename(tmp, target))
  {
    var steps := [WriteFile(tmp, meta), Rename(tmp, target)];
    assert steps[1..] == [Rename(tmp, target)] && steps[1..][1..] == [];
    assert ApplyAll(Apply(files, steps[0]), steps[1..]) == Apply(Apply(files, steps[0]), steps[1]);
  }

  /** A run of two parts stops in the first, or does all of it and stops in the second. */
  lemma {:induction false} InterruptedConcat(files: Files, a: seq<DiskStep>, b: seq<DiskStep>, files': Files)
    requires Interrupted(files, a + b, files')
    ensures Interrupted(files, a, files') || Interrupted(ApplyAll(files, a), b, files')
    decreases |a|
  {
    if a == [] {
      assert a + b == b;
    } else {
      assert (a + b)[1..] == a[1..] + b && (a + b)[0] == a[0];
      if Interrupted(Apply(files, a[0]), (a + b)[1..], files') {
        InterruptedConcat(Apply(files, a[0]), a[1..], b, files');
      }
    }
  }

  // --------------------------------------------------------------------- one table

  /** data.json holds the rows; without it there are none. */
  ghost predicate RowsOnDisk(files: Files, dir: string, rows: seq<Row>)
  {
    if File(dir, DataJson) in files then files[File(dir, DataJson)] == Rows(MarshalRows(rows)) else rows == []
  }

  /** meta.json holds the table's meta data; a table that is not on disk yet has no rows. */
  ghost predicate MetaOnDisk(files: Files, dir: string, t: TableData)
  {
    if File(dir, MetaJson) in files then files[File(dir, MetaJson)] == Meta(MetaOf(t)) else t.rows == []
  }

  /** The directory holds the table, or nothing yet of a table without rows. */
  ghost predicate Saved(files: Files, dir: string, t: TableData)
  {
    MetaOnDisk(files, dir, t) && RowsOnDisk(files, dir, t.rows)
  }

  ghost predicate MetaWritten(files: Files, dir: string, t: TableData)
  {
    File(dir, MetaJson) in files && files[File(dir, MetaJson)] == Meta(MetaOf(t))
  }

  ghost predicate RowsWritten(files: Files, dir: string, t: TableData)
  {
    File(dir, DataJson) in files && files[File(dir, DataJson)] == Rows(MarshalRows(t.rows))
  }

  /** The directory holds both files of the table. */
  ghost predicate Written(files: Files, dir: string, t: TableData)
  {
    MetaWritten(files, dir, t) && RowsWritten(files, dir, t)
  }

  /** Each file is wholly old or wholly new, and new rows come with the new meta data. */
  ghost predicate Whole(files: Files, dir: string, old_: TableData, new_: TableData)
  {
    && (MetaOnDisk(files, dir, old_) || MetaWritten(files, dir, new_))
    && (RowsOnDisk(files, dir, old_.rows) || (RowsWritten(files, dir, new_) && MetaWritten(files, dir, new_)))
  }

  /** However a table save is interrupted, the table's files are whole. */
  lemma InterruptedSaveWhole(files: Files, dir: string, old_: TableData, new_: TableData, files': Files)
    requires Saved(files, dir, old_) && Interrupted(files, SaveSteps(dir, new_), files')
    ensures Whole(files', dir, old_, new_)
  {
    hide MetaOf, MarshalRows;
    var s := SaveSteps(dir, new_);
    var s1, s2, s3 := s[1..], s[2..], s[3..];
    var f1 := Apply(files, s[0]);
    var f2 := Apply(f1, s[1]);
    var f3 := Apply(f2, s[2]);
    assert s1[1..] == s2 && s2[1..] == s3 && s3[1..] == [];
    assert Interrupted(files, s, files') <==>
      files' == files || CutOff(files, s[0], files') || Interrupted(f1, s1, files');
    assert Interrupted(f1, s1, files') <==> files' == f1 || Interrupted(f2, s2, files');
    assert Interrupted(f2, s2, files') <==> files' == f2 || CutOff(f2, s[2], files') || Interrupted(f3, s3, files');
    assert Interrupted(f3, s3, files') <==> files' == f3 || files' == Apply(f3, s[3]);
  }

  /** A save that is not interrupted leaves both files new, and neither temporary file. */
  lemma CompletedSave(files: Files, dir: string, t: TableData)
    ensures Written(ApplyAll(files, SaveSteps(dir, t)), dir, t)
    ensures File(dir, MetaTmp) !in ApplyAll(files, SaveSteps(dir, t))
    ensures File(dir, DataTmp) !in ApplyAll(files, SaveSteps(dir, t))
  {
    hide MetaOf, MarshalRows;
    var s := SaveSteps(dir, t);
    var s1, s2, s3 := s[1..], s[2..], s[3..];
    assert s1[1..] == s2 && s2[1..] == s3 && s3[1..] == [];
    var f1 := Apply(files, s[0]);
    var f2 := Apply(f1, s[1]);
    var f3 := Apply(f2, s[2]);
    assert ApplyAll(files, s) == ApplyAll(f1, s1) == ApplyAll(f2, s2) == ApplyAll(f3, s3) == Apply(f3, s[3]);
  }

  // ------------------------------------------------------------------------ reload

  /** What LoadTable reads from a directory; a missing data.json is an empty table. */
  function LoadDir(checks: TextChecks, files: Files, dir: string): (r: Result<TableData, LoadError>)
  {
    if File(dir, MetaJson) !in files then Err(MissingFile)
    else if !files[File(dir, MetaJson)].Meta? then Err(BadJson)
    else if File(dir, DataJson) !in files then LoadImage(checks, TableImage(files[File(dir, MetaJson)].meta, []))
    else if !files[File(dir, DataJson)].Rows? then Err(BadJson)
    else LoadImage(checks, TableImage(files[File(dir, MetaJson)].meta, files[File(dir, DataJson)].rows))
  }

  ghost predicate IdsAreInt64(t: TableData, col: string)
  {
    forall row: Row :: row in t.rows && col in row ==> row[col].Int64?
  }

  /** The ids are int64, and what they become by a save and a load is at most the counter. */
  ghost predicate IdsStayBounded(t: TableData, col: string)
  {
    forall row: Row :: row in t.rows && col in row ==> row[col].Int64? && Round(row[col].n) <= t.lastInsertId
  }

  ghost predicate IntAuto(t: TableData, col: string)
  {
    AutoIs(t, col) && AutoColumn(t.columns).value.typ == INT && DistinctNames(t.columns)
  }

  lemma {:induction false} AutoColumnIndex(columns: seq<Column>) returns (k: nat)
    requires AutoColumn(columns).Some?
    ensures k < |columns| && columns[k] == AutoColumn(columns).value
  {
    if columns[0].autoIncrement && columns[0].primaryKey {
      k := 0;
    } else {
      var j := AutoColumnIndex(columns[1..]);
      k := j + 1;
    }
  }

  /** An id comes back as the nearest float64. */
  lemma IdReload(checks: TextChecks, columns: seq<Column>, row: Row, col: Column)
    requires DistinctNames(columns) && col in columns && col.typ == INT
    requires NormalizeRow(checks, columns, UnmarshalRow(MarshalRow(row))).Ok?
    requires col.name in row ==> row[col.name].Int64?
    ensures var row' := NormalizeRow(checks, columns, UnmarshalRow(MarshalRow(row))).value;
      && (col.name in row <==> col.name in row')
      && (col.name in row ==> row'[col.name].Int64? && row'[col.name].n == Round(row[col.name].n))
  {
    hide NormalizeRow, NormalizeCell, Round;
    var row1 := UnmarshalRow(MarshalRow(row));
    NormalizeRowExact(checks, columns, row1);
    var k :| 0 <= k < |columns| && columns[k] == col;
    FindDistinct(columns, k);
    if col.name in row {
      IntReload(checks, col, row[col.name].n);
    }
  }

  /** Rows loaded with a counter have their ids at most that counter if and only if the ids
      round to at most that counter. */
  lemma ReloadBoundedIff(checks: TextChecks, t: TableData, meta: TableMeta, col: string)
    requires IntAuto(t, col) && IdsAreInt64(t, col) && meta.columns == t.columns
    requires LoadImage(checks, TableImage(meta, MarshalRows(t.rows))).Ok?
    ensures IdsBounded(LoadImage(checks, TableImage(meta, MarshalRows(t.rows))).value, col) <==>
      forall row: Row :: row in t.rows && col in row ==> Round(row[col].n) <= meta.lastInsertId
  {
    hide NormalizeRow, MarshalRow, UnmarshalRow, Round;
    var t' := LoadImage(checks, TableImage(meta, MarshalRows(t.rows))).value;
    LoadedRows(checks, t.columns, MarshalRows(t.rows));
    var k := AutoColumnIndex(t.columns);
    forall i | 0 <= i < |t.rows|
      ensures col in t.rows[i] <==> col in t'.rows[i]
      ensures col in t.rows[i] ==> t'.rows[i][col].Int64? && t'.rows[i][col].n == Round(t.rows[i][col].n)
    {
      assert MarshalRows(t.rows)[i] == MarshalRow(t.rows[i]);
      IdReload(checks, t.columns, t.rows[i], t.columns[k]);
    }
    SameBound(t.rows, t'.rows, col, meta.lastInsertId);
  }

  lemma SameBound(rows: seq<Row>, rows': seq<Row>, col: string, last: int)
    requires |rows| == |rows'|
    requires forall row: Row :: row in rows && col in row ==> row[col].Int64?
    requires forall i :: 0 <= i < |rows| ==> (col in rows[i] <==> col in rows'[i])
    requires forall i :: 0 <= i < |rows| && col in rows[i] ==>
      rows'[i][col].Int64? && rows'[i][col].n == Round(rows[i][col].n)
    ensures (forall row: Row :: row in rows' && col in row ==> row[col].Int64? && row[col].n <= last) <==>
      forall row: Row :: row in rows && col in row ==> Round(row[col].n) <= last
  {
    hide Round;
    if forall row: Row :: row in rows' && col in row ==> row[col].Int64? && row[col].n <= last {
      forall row: Row | row in rows && col in row ensures Round(row[col].n) <= last {
        var i :| 0 <= i < |rows| && rows[i] == row;
        assert rows'[i] in rows';
      }
    }
    if forall row: Row :: row in rows && col in row ==> Round(row[col].n) <= last {
      forall row: Row | row in rows' && col in row ensures row[col].Int64? && row[col].n <= last {
        var i :| 0 <= i < |rows'| && rows'[i] == row;
        assert rows[i] in rows;
      }
    }
  }

  /** The table loads from the files it was saved to, with its ids at most its counter. */
  ghost predicate LoadsBounded(checks: TextChecks, t: TableData, col: string)
  {
    LoadImage(checks, ImageOf(t)).Ok? ==> IdsStayBounded(t, col)
  }

  /** However a save is interrupted, a table that loads again has every id at most its counter,
      if and only if this holds of the save that never began and of the one that completed: the
      ids of the old and of the new table, rounded to float64, are at most their counters. */
  lemma InterruptedSaveBounded(checks: TextChecks, files: Files, dir: string, old_: TableData, new_: TableData,
                               col: string)
    requires Saved(files, dir, old_)
    requires IntAuto(old_, col) && new_.columns == old_.columns && old_.lastInsertId <= new_.lastInsertId
    requires IdsAreInt64(old_, col) && IdsAreInt64(new_, col)
    ensures (forall files' :: Interrupted(files, SaveSteps(dir, new_), files') && LoadDir(checks, files', dir).Ok? ==>
        IdsBounded(LoadDir(checks, files', dir).value, col)) <==>
      LoadsBounded(checks, old_, col) && LoadsBounded(checks, new_, col)
  {
    hide Interrupted, LoadImage, MarshalRows, IdsBounded, LoadsBounded, SaveSteps, IdsAreInt64;
    if LoadsBounded(checks, old_, col) && LoadsBounded(checks, new_, col) {
      forall files' | Interrupted(files, SaveSteps(dir, new_), files') && LoadDir(checks, files', dir).Ok?
        ensures IdsBounded(LoadDir(checks, files', dir).value, col)
      {
        InterruptedSaveWhole(files, dir, old_, new_, files');
        WholeLoadsBounded(checks, files', dir, old_, new_, col);
      }
    }
    NotBegun(files, SaveSteps(dir, new_));
    ApplyAllInterrupted(files, SaveSteps(dir, new_));
    CompletedSave(files, dir, new_);
    SavedBoundedIff(checks, files, dir, old_, col);
    WrittenSaved(ApplyAll(files, SaveSteps(dir, new_)), dir, new_);
    SavedBoundedIff(checks, ApplyAll(files, SaveSteps(dir, new_)), dir, new_, col);
  }

  lemma NotBegun(files: Files, steps: seq<DiskStep>)
    ensures Interrupted(files, steps, files)
  {
  }

  lemma SavedBoundedIff(checks: TextChecks, files: Files, dir: string, t: TableData, col: string)
    requires Saved(files, dir, t) && IntAuto(t, col) && IdsAreInt64(t, col)
    ensures (LoadDir(checks, files, dir).Ok? ==> IdsBounded(LoadDir(checks, files, dir).value, col)) <==>
      LoadsBounded(checks, t, col)
  {
    hide LoadImage, MarshalRows, Round;
    if LoadDir(checks, files, dir).Ok? {
      DirImage(checks, files, dir, t.rows);
      ReloadBoundedIff(checks, t, MetaOf(t), col);
    }
  }

  /** A directory loads as the rows on disk under its meta data. */
  lemma DirImage(checks: TextChecks, files: Files, dir: string, rows: seq<Row>)
    requires LoadDir(checks, files, dir).Ok? && RowsOnDisk(files, dir, rows)
    ensures files[File(dir, MetaJson)].Meta?
    ensures LoadDir(checks, files, dir) ==
      LoadImage(checks, TableImage(files[File(dir, MetaJson)].meta, MarshalRows(rows)))
  {
    hide LoadImage;
    assert rows == [] ==> MarshalRows(rows) == [];
  }

  /** Whole files load with every id at most the counter, because the counter never decreases
      and meta.json is replaced first. */
  lemma WholeLoadsBounded(checks: TextChecks, files: Files, dir: string, old_: TableData, new_: TableData, col: string)
    requires Whole(files, dir, old_, new_) && LoadDir(checks, files, dir).Ok?
    requires IntAuto(old_, col) && new_.columns == old_.columns && old_.lastInsertId <= new_.lastInsertId
    requires IdsAreInt64(old_, col) && IdsAreInt64(new_, col)
    requires LoadsBounded(checks, old_, col) && LoadsBounded(checks, new_, col)
    ensures IdsBounded(LoadDir(checks, files, dir).value, col)
  {
    hide NormalizeRows, MarshalRows, Round;
    var meta := files[File(dir, MetaJson)].meta;
    if RowsOnDisk(files, dir, old_.rows) {
      DirImage(checks, files, dir, old_.rows);
      ReloadBoundedIff(checks, old_, meta, col);
    } else {
      ReloadBoundedIff(checks, new_, meta, col);
    }
  }

  /** The table of a run saved over the table the run began with, with the save cut short. */
  lemma InterruptedSaveAfterRun(checks: TextChecks, files: Files, dir: string, states: seq<TableData>, ops: seq<Op>,
                                col: string)
    requires Run(states, ops) && IntAuto(states[0], col) && IdsBounded(states[0], col)
    requires forall i :: 0 <= i < |ops| ==> IdSafe(states[i], ops[i], col)
    requires Saved(files, dir, states[0])
    ensures (forall files' ::
        Interrupted(files, SaveSteps(dir, states[|ops|]), files') && LoadDir(checks, files', dir).Ok? ==>
        IdsBounded(LoadDir(checks, files', dir).value, col)) <==>
      LoadsBounded(checks, states[0], col) && LoadsBounded(checks, states[|ops|], col)
  {
    hide Interrupted, Step, LoadDir, Saved, LoadsBounded, SaveSteps;
    RunIds(states, ops, col, 0, |ops|);
    RunColumns(states, ops, |ops|);
    InterruptedSaveBounded(checks, files, dir, states[0], states[|ops|], col);
  }

  /** A counter that is a float64 bounds the ids it bounds after a load, too. */
  lemma ExactCounterBounds(t: TableData, col: string)
    requires IdsBounded(t, col) && Round(t.lastInsertId) <= t.lastInsertId
    ensures IdsStayBounded(t, col)
  {
    hide Round;
    forall row: Row | row in t.rows && col in row ensures Round(row[col].n) <= t.lastInsertId {
      RoundMonotone(row[col].n, t.lastInsertId);
    }
  }

  /** The id 2^53 + 3 with the counter at it: even a completed save loads with an id above the
      counter. */
  lemma RoundedId(checks: TextChecks)
    ensures var id := Column("id", INT, true, true, true, true);
      var last := TWO_53 + 3;
      var t := TableData("t", [id], [map["id" := Int64(last)]], map[], last, true);
      var files := ApplyAll(map[], SaveSteps("t", t));
      && IdsBounded(t, "id")
      && LoadDir(checks, files, "t").Ok?
      && LoadDir(checks, files, "t").value.rows == [map["id" := Int64(TWO_53 + 4)]]
      && LoadDir(checks, files, "t").value.lastInsertId == TWO_53 + 3
  {
    hide LoadImage, Round;
    var id := Column("id", INT, true, true, true, true);
    var last := TWO_53 + 3;
    var t := TableData("t", [id], [map["id" := Int64(last)]], map[], last, true);
    CompletedSave(map[], "t", t);
    RoundsUp();
    assert FindColumn([id], "id") == Some(id);
    IntegerReloads(checks, t.rows[0]["id"]);
    hide ReloadCell;
    TableReloaded(checks, t);
    assert Reloads(checks, t.columns, t.rows[0]);
    var row := LoadImage(checks, ImageOf(t)).value.rows[0];
    assert ReloadedAs(checks, t.columns, t.rows[0], row);
    assert row == map["id" := Int64(TWO_53 + 4)];
  }

  lemma RoundsUp()
    ensures Round(TWO_53 + 3) == TWO_53 + 4
  {
    RoundHalves(TWO_53 + 3);
  }

  /** The order matters: with data.json replaced first, a save that stops between the two
      renames leaves an id above the counter. */
  lemma DataFirstBreaksBound(checks: TextChecks)
    ensures var id := Column("id", INT, true, true, true, true);
      var old_ := TableData("t", [id], [], map[], 0, false);
      var new_ := TableData("t", [id], [map["id" := Int64(1)]], map[], 1, true);
      var files := map[File("t", MetaJson) := Meta(MetaOf(old_)), File("t", DataJson) := Rows(MarshalRows(old_.rows))];
      var steps := SaveSteps("t", new_)[2..] + SaveSteps("t", new_)[..2];
      var files' := ApplyAll(files, steps[..2]);
      && Interrupted(files, steps, files')
      && LoadDir(checks, files', "t").Ok? && !IdsBounded(LoadDir(checks, files', "t").value, "id")
  {
    var id := Column("id", INT, true, true, true, true);
    var old_ := TableData("t", [id], [], map[], 0, false);
    var new_ := TableData("t", [id], [map["id" := Int64(1)]], map[], 1, true);
    var files := map[File("t", MetaJson) := Meta(MetaOf(old_)), File("t", DataJson) := Rows(MarshalRows(old_.rows))];
    var steps := SaveSteps("t", new_)[2..] + SaveSteps("t", new_)[..2];
    var files' := ApplyAll(files, steps[..2]);
    FirstPart(files, steps, 2);
    var f1 := Apply(files, steps[0]);
    assert steps[..2] == [steps[0], steps[1]] && steps[..2][1..] == [steps[1]] && [steps[1]][1..] == [];
    assert ApplyAll(f1, [steps[1]]) == Apply(f1, steps[1]);
    assert files' == Apply(f1, steps[1]);
    var rows := MarshalRows(new_.rows);
    assert MarshalRow(new_.rows[0]) == map["id" := JsonInt(1)];
    assert rows == [map["id" := JsonInt(1)]];
    assert files'[File("t", DataJson)] == Rows(rows) && files'[File("t", MetaJson)] == Meta(MetaOf(old_));
    OneRowLoads(checks, MetaOf(old_), id);
    var t := LoadDir(checks, files', "t").value;
    assert t.rows[0] in t.rows;
  }

  lemma OneRowLoads(checks: TextChecks, meta: TableMeta, id: Column)
    requires meta.columns == [id] && id.typ == INT && id.name == "id"
    ensures LoadImage(checks, TableImage(meta, [map["id" := JsonInt(1)]])) ==
      Ok(TableData(meta.name, [id], [map["id" := Int64(1)]], map[], meta.lastInsertId, false))
  {
    RoundMonotone(1, 1);
    hide Round, NormalizeCell;
    IntReload(checks, id, 1);
    var j: JsonRow, row: Row := map["id" := JsonInt(1)], map["id" := Int64(1)];
    var row0 := UnmarshalRow(j);
    assert row0["id"] == UnmarshalCell(JsonInt(1));
    assert row0["id" := Int64(1)] == row;
    assert NormalizeColumn(checks, id, row0) == Ok(row);
    assert [id][1..] == [] && NormalizeRow(checks, [], row) == Ok(row);
    assert NormalizeRow(checks, [id], row0) == Ok(row);
    assert [j][..0] == [] && NormalizeRows(checks, [id], []) == Ok([]);
    assert [j][0] == j && [] + [row] == [row];
    assert NormalizeRows(checks, [id], [j]) == Ok([] + [row]);
  }

  lemma {:induction false} FirstPart(files: Files, steps: seq<DiskStep>, n: nat)
    requires n <= |steps|
    ensures Interrupted(files, steps, ApplyAll(files, steps[..n]))
    decreases n
  {
    if n > 0 {
      assert steps[..n][1..] == steps[1..][..n - 1];
      FirstPart(Apply(files, steps[0]), steps[1..], n - 1);
    }
  }

  // ---------------------------------------------------------------------- databases

  datatype Entry = Entry(dir: string, old_: TableData, new_: TableData)

  /** SaveDatabase: the tables one after the other, then the database's own meta.json. */
  function TablesSteps(entries: seq<Entry>): (steps: seq<DiskStep>)
  {
    if entries == [] then [] else SaveSteps(entries[0].dir, entries[0].new_) + TablesSteps(entries[1..])
  }

  function DatabaseSteps(entries: seq<Entry>, dbDir: string, meta: Content): (steps: seq<DiskStep>)
  {
    TablesSteps(entries) + [WriteFile(File(dbDir, MetaTmp), meta), Rename(File(dbDir, MetaTmp), File(dbDir, MetaJson))]
  }

  ghost predicate DistinctDirs(entries: seq<Entry>, dbDir: string)
  {
    && (forall i, j :: 0 <= i < j < |entries| ==> entries[i].dir != entries[j].dir)
    && (forall i :: 0 <= i < |entries| ==> entries[i].dir != dbDir)
  }

  ghost function Dirs(entries: seq<Entry>): (dirs: set<string>)
  {
    set i | 0 <= i < |entries| :: entries[i].dir
  }

  lemma SaveStepsDir(dir: string, t: TableData, other: string)
    requires dir != other
    ensures Untouched(SaveSteps(dir, t), other)
  {
    hide MetaOf, MarshalRows;
  }

  lemma {:induction false} TablesStepsDirs(entries: seq<Entry>, dir: string)
    requires forall i :: 0 <= i < |entries| ==> entries[i].dir != dir
    ensures Untouched(TablesSteps(entries), dir)
  {
    if entries != [] {
      SaveStepsDir(entries[0].dir, entries[0].new_, dir);
      assert forall i :: 0 <= i < |entries[1..]| ==> entries[1..][i] == entries[i + 1];
      TablesStepsDirs(entries[1..], dir);
    }
  }

  /** In whatever order the tables are saved, and wherever the save stops, the files of every
      table are whole. */
  lemma {:induction false} InterruptedDatabaseWhole(files: Files, entries: seq<Entry>, dbDir: string, meta: Content,
                                                    files': Files, i: nat)
    requires DistinctDirs(entries, dbDir) && i < |entries|
    requires forall k :: 0 <= k < |entries| ==> Saved(files, entries[k].dir, entries[k].old_)
    requires Interrupted(files, DatabaseSteps(entries, dbDir, meta), files')
    ensures Whole(files', entries[i].dir, entries[i].old_, entries[i].new_)
    decreases |entries|
  {
    hide Saved, Written, Whole, SaveSteps, Interrupted, Untouched, ApplyAll;
    var e, others := entries[0], entries[1..];
    var first := SaveSteps(e.dir, e.new_);
    var later := DatabaseSteps(others, dbDir, meta);
    assert DatabaseSteps(entries, dbDir, meta) == first + later;
    InterruptedConcat(files, first, later, files');
    if Interrupted(files, first, files') {
      if i == 0 {
        InterruptedSaveWhole(files, e.dir, e.old_, e.new_, files');
      } else {
        SaveStepsDir(e.dir, e.new_, entries[i].dir);
        InterruptedElsewhere(files, first, files', entries[i].dir);
        SavedIsWhole(files, files', entries[i].dir, entries[i].old_, entries[i].new_);
      }
    } else {
      var mid := ApplyAll(files, first);
      if i == 0 {
        CompletedSave(files, e.dir, e.new_);
        assert forall k :: 0 <= k < |others| ==> others[k] == entries[k + 1];
        LaterElsewhere(others, dbDir, meta, e.dir);
        InterruptedElsewhere(mid, later, files', e.dir);
        WrittenIsWhole(mid, files', e.dir, e.old_, e.new_);
      } else {
        forall k | 0 <= k < |others| ensures Saved(mid, others[k].dir, others[k].old_) {
          assert others[k] == entries[k + 1];
          SaveStepsDir(e.dir, e.new_, others[k].dir);
          ApplyAllInterrupted(files, first);
          InterruptedElsewhere(files, first, mid, others[k].dir);
          SavedElsewhere(files, mid, others[k].dir, others[k].old_);
        }
        InterruptedDatabaseWhole(mid, others, dbDir, meta, files', i - 1);
      }
    }
  }

  lemma LaterElsewhere(entries: seq<Entry>, dbDir: string, meta: Content, dir: string)
    requires dir != dbDir && forall k :: 0 <= k < |entries| ==> entries[k].dir != dir
    ensures Untouched(DatabaseSteps(entries, dbDir, meta), dir)
  {
    hide TablesSteps;
    TablesStepsDirs(entries, dir);
  }

  lemma SavedElsewhere(files: Files, files': Files, dir: string, t: TableData)
    requires Saved(files, dir, t) && SameDir(files, files', dir)
    ensures Saved(files', dir, t)
  {
    hide MetaOf, MarshalRows;
  }

  lemma WrittenElsewhere(files: Files, files': Files, dir: string, t: TableData)
    requires Written(files, dir, t) && SameDir(files, files', dir)
    ensures Written(files', dir, t)
  {
    hide MetaOf, MarshalRows;
  }

  lemma SavedIsWhole(files: Files, files': Files, dir: string, old_: TableData, new_: TableData)
    requires Saved(files, dir, old_) && SameDir(files, files', dir)
    ensures Whole(files', dir, old_, new_)
  {
    hide MetaOf, MarshalRows, SameDir;
    SavedElsewhere(files, files', dir, old_);
  }

  lemma WrittenIsWhole(files: Files, files': Files, dir: string, old_: TableData, new_: TableData)
    requires Written(files, dir, new_) && SameDir(files, files', dir)
    ensures Whole(files', dir, old_, new_)
  {
    hide MetaOf, MarshalRows, SameDir;
    WrittenElsewhere(files, files', dir, new_);
  }

  /** However a database save is interrupted, a table of it that loads again has every id at
      most its counter, if and only if the condition of InterruptedSaveBounded holds of it,
      whatever the other tables are. */
  lemma InterruptedDatabaseBounded(checks: TextChecks, files: Files, entries: seq<Entry>, dbDir: string, meta: Content,
                                   i: nat, col: string)
    requires DistinctDirs(entries, dbDir) && i < |entries|
    requires forall k :: 0 <= k < |entries| ==> Saved(files, entries[k].dir, entries[k].old_)
    requires IntAuto(entries[i].old_, col) && entries[i].new_.columns == entries[i].old_.columns
    requires entries[i].old_.lastInsertId <= entries[i].new_.lastInsertId
    requires IdsAreInt64(entries[i].old_, col) && IdsAreInt64(entries[i].new_, col)
    ensures (forall files' ::
        && Interrupted(files, DatabaseSteps(entries, dbDir, meta), files')
        && LoadDir(checks, files', entries[i].dir).Ok? ==>
        IdsBounded(LoadDir(checks, files', entries[i].dir).value, col)) <==>
      LoadsBounded(checks, entries[i].old_, col) && LoadsBounded(checks, entries[i].new_, col)
  {
    hide Saved, Written, Interrupted, Whole, IdsAreInt64;
    hide LoadsBounded, LoadDir, IdsBounded, DatabaseSteps, DistinctDirs;
    var e, steps := entries[i], DatabaseSteps(entries, dbDir, meta);
    if LoadsBounded(checks, e.old_, col) && LoadsBounded(checks, e.new_, col) {
      forall files' | Interrupted(files, steps, files') && LoadDir(checks, files', e.dir).Ok?
        ensures IdsBounded(LoadDir(checks, files', e.dir).value, col)
      {
        InterruptedDatabaseWhole(files, entries, dbDir, meta, files', i);
        WholeLoadsBounded(checks, files', e.dir, e.old_, e.new_, col);
      }
    }
    NotBegun(files, steps);
    ApplyAllInterrupted(files, steps);
    CompletedDatabase(files, entries, dbDir, meta);
    SavedBoundedIff(checks, files, e.dir, e.old_, col);
    WrittenSaved(ApplyAll(files, steps), e.dir, e.new_);
    SavedBoundedIff(checks, ApplyAll(files, steps), e.dir, e.new_, col);
  }

  lemma WrittenSaved(files: Files, dir: string, t: TableData)
    requires Written(files, dir, t)
    ensures Saved(files, dir, t)
  {
    hide MetaOf, MarshalRows;
  }

  /** A completed database save leaves every table and the database's meta.json saved. */
  lemma {:induction false} CompletedDatabase(files: Files, entries: seq<Entry>, dbDir: string, meta: Content)
    requires DistinctDirs(entries, dbDir)
    ensures var files' := ApplyAll(files, DatabaseSteps(entries, dbDir, meta));
      && (forall i :: 0 <= i < |entries| ==> Written(files', entries[i].dir, entries[i].new_))
      && File(dbDir, MetaJson) in files' && files'[File(dbDir, MetaJson)] == meta
    decreases |entries|
  {
    hide Written, SaveSteps, Untouched, ApplyAll;
    if entries == [] {
      CompletedMeta(files, dbDir, meta);
    } else {
      var e, others := entries[0], entries[1..];
      var first, later := SaveSteps(e.dir, e.new_), DatabaseSteps(others, dbDir, meta);
      assert DatabaseSteps(entries, dbDir, meta) == first + later;
      ApplyAllConcat(files, first, later);
      var mid := ApplyAll(files, first);
      assert forall k :: 0 <= k < |others| ==> others[k] == entries[k + 1];
      CompletedDatabase(mid, others, dbDir, meta);
      CompletedSave(files, e.dir, e.new_);
      LaterElsewhere(others, dbDir, meta, e.dir);
      ApplyAllInterrupted(mid, later);
      InterruptedElsewhere(mid, later, ApplyAll(mid, later), e.dir);
      WrittenElsewhere(mid, ApplyAll(mid, later), e.dir, e.new_);
    }
  }

  lemma CompletedMeta(files: Files, dbDir: string, meta: Content)
    ensures var files' := ApplyAll(files, DatabaseSteps([], dbDir, meta));
      File(dbDir, MetaJson) in files' && files'[File(dbDir, MetaJson)] == meta
  {
    assert DatabaseSteps([], dbDir, meta) ==
      [WriteFile(File(dbDir, MetaTmp), meta), Rename(File(dbDir, MetaTmp), File(dbDir, MetaJson))];
    MetaSteps(files, File(dbDir, MetaTmp), File(dbDir, MetaJson), meta);
  }

  /** The database's own meta.json is replaced last: once it has changed, every table is written. */
  lemma DatabaseMetaLast(files: Files, entries: seq<Entry>, dbDir: string, meta: Content, files': Files)
    requires DistinctDirs(entries, dbDir) && Interrupted(files, DatabaseSteps(entries, dbDir, meta), files')
    requires !SameDir(files, files', dbDir)
    ensures forall i :: 0 <= i < |entries| ==> Written(files', entries[i].dir, entries[i].new_)
  {
    hide Written, SaveSteps, Untouched, ApplyAll, TablesSteps, Interrupted, SameDir, DatabaseSteps;
    var first, last := TablesSteps(entries),
      [WriteFile(File(dbDir, MetaTmp), meta), Rename(File(dbDir, MetaTmp), File(dbDir, MetaJson))];
    DatabaseParts(entries, dbDir, meta);
    InterruptedConcat(files, first, last, files');
    if Interrupted(files, first, files') {
      TablesStepsDirs(entries, dbDir);
      InterruptedElsewhere(files, first, files', dbDir);
    } else {
      var mid := ApplyAll(files, first);
      TablesWritten(files, entries, dbDir);
      forall i | 0 <= i < |entries| ensures Written(files', entries[i].dir, entries[i].new_) {
        MetaElsewhere(dbDir, meta, entries[i].dir);
        InterruptedElsewhere(mid, last, files', entries[i].dir);
        WrittenElsewhere(mid, files', entries[i].dir, entries[i].new_);
      }
    }
  }

  lemma DatabaseParts(entries: seq<Entry>, dbDir: string, meta: Content)
    ensures DatabaseSteps(entries, dbDir, meta) ==
      TablesSteps(entries)
      + [WriteFile(File(dbDir, MetaTmp), meta), Rename(File(dbDir, MetaTmp), File(dbDir, MetaJson))]
  {
  }

  lemma MetaElsewhere(dbDir: string, meta: Content, dir: string)
    requires dir != dbDir
    ensures Untouched([WriteFile(File(dbDir, MetaTmp), meta), Rename(File(dbDir, MetaTmp), File(dbDir, MetaJson))], dir)
  {
  }

  /** After the steps of all tables each is written. */
  lemma {:induction false} TablesWritten(files: Files, entries: seq<Entry>, dbDir: string)
    requires DistinctDirs(entries, dbDir)
    ensures forall i :: 0 <= i < |entries| ==>
      Written(ApplyAll(files, TablesSteps(entries)), entries[i].dir, entries[i].new_)
    decreases |entries|
  {
    hide Written, SaveSteps, Untouched, ApplyAll;
    if entries != [] {
      var e, others := entries[0], entries[1..];
      var first, later := SaveSteps(e.dir, e.new_), TablesSteps(others);
      var mid := ApplyAll(files, first);
      ApplyAllConcat(files, first, later);
      assert forall k :: 0 <= k < |others| ==> others[k] == entries[k + 1];
      TablesWritten(mid, others, dbDir);
      CompletedSave(files, e.dir, e.new_);
      TablesStepsDirs(others, e.dir);
      ApplyAllInterrupted(mid, later);
      InterruptedElsewhere(mid, later, ApplyAll(mid, later), e.dir);
      WrittenElsewhere(mid, ApplyAll(mid, later), e.dir, e.new_);
    }
  }
}
