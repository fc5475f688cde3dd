/** Saving tables to and loading them from the file system. */
module Storage {
  import opened Values
  import opened Schema
  import opened Tables
  import opened Indexing
  import opened StorageSpec
  import opened Disk

  class FileSystem {
    var files: Files

    method Write(file: File, content: Content)
      modifies this
      ensures files == Apply(old(files), WriteFile(file, content))
    {
      files := files[file := content];
    }

    /** Replaces the target with the source in one step. */
    method Move(from: File, to: File)
      modifies this
      ensures files == Apply(old(files), Rename(from, to))
    {
      if from in files {
        files := files[to := files[from]] - {from};
      }
    }
  }

  /** Writes both files of the table to temporary files and moves them into place. */
  method SaveTable(fs: FileSystem, dir: string, t: Table)
    modifies fs
    ensures fs.files == ApplyAll(old(fs.files), SaveSteps(dir, t.View()))
  {
    hide MetaOf, MarshalRows, Cells, Contents;
    ghost var steps := SaveSteps(dir, t.View());
    var list := [(MetaTmp, MetaJson, Meta(MetaOf(t.View()))), (DataTmp, DataJson, Rows(MarshalRows(t.View().rows)))];
    assert steps[0..] == steps;
    for i := 0 to |list|
      invariant ApplyAll(fs.files, steps[2 * i..]) == ApplyAll(old(fs.files), steps)
    {
      var (tmp, target, content) := list[i];
      assert steps[2 * i..][0] == WriteFile(File(dir, tmp), content);
      assert steps[2 * i..][1..] == steps[2 * i + 1..];
      fs.Write(File(dir, tmp), content);
      assert steps[2 * i + 1..][0] == Rename(File(dir, tmp), File(dir, target));
      assert steps[2 * i + 1..][1..] == steps[2 * (i + 1)..];
      fs.Move(File(dir, tmp), File(dir, target));
    }
    assert steps[4..] == [];
  }

  /** The entries list each of the tables once, as it was saved. */
  ghost predicate Lists(entries: seq<Entry>, tables: map<string, Table>)
    reads tables.Values
    reads set n, i: nat | n in tables && i < |tables[n].rows| :: tables[n].rows[i]
    reads set n, x: IndexMap | n in tables && x in tables[n].indexes.Values :: x
  {
    && (forall i, j :: 0 <= i < j < |entries| ==> entries[i].dir != entries[j].dir)
    && (forall i :: 0 <= i < |entries| ==> entries[i].dir in tables && entries[i].new_ == tables[entries[i].dir].View())
  }

  /** Saves the tables in map order, whatever that is, and then the database's meta.json;
      `entries` lists the tables in the order they were saved. */
  method SaveDatabase(fs: FileSystem, dbDir: string, name: string, tables: map<string, Table>)
    returns (ghost entries: seq<Entry>)
    modifies fs
    ensures fs.files == ApplyAll(old(fs.files), DatabaseSteps(entries, dbDir, DatabaseMeta(name, tables.Keys)))
    ensures Lists(entries, tables) && Dirs(entries) == tables.Keys
  {
    hide Lists, SaveSteps, Dirs, TablesSteps, ApplyAll, Apply;
    entries := SaveTables(fs, tables);
    var meta := DatabaseMeta(name, tables.Keys);
    var tmp, target := File(dbDir, MetaTmp), File(dbDir, MetaJson);
    ghost var before := fs.files;
    fs.Write(tmp, meta);
    fs.Move(tmp, target);
    MetaSteps(before, tmp, target, meta);
    ApplyAllConcat(old(fs.files), TablesSteps(entries), [WriteFile(tmp, meta), Rename(tmp, target)]);
  }

  method SaveTables(fs: FileSystem, tables: map<string, Table>) returns (ghost entries: seq<Entry>)
    modifies fs
    ensures fs.files == ApplyAll(old(fs.files), TablesSteps(entries))
    ensures Lists(entries, tables) && Dirs(entries) == tables.Keys
  {
    hide SaveSteps, Cells, Contents, Dirs, TablesSteps, ApplyAll;
    entries := [];
    NoSteps(fs.files);
    var todo := tables.Keys;
    while todo != {}
      invariant todo <= tables.Keys
      invariant fs.files == ApplyAll(old(fs.files), TablesSteps(entries))
      invariant forall i, j :: 0 <= i < j < |entries| ==> entries[i].dir != entries[j].dir
      invariant Dirs(entries) == tables.Keys - todo
      invariant forall i :: 0 <= i < |entries| ==>
        entries[i].dir in tables && entries[i].new_ == tables[entries[i].dir].View()
    {
      var dir :| dir in todo;
      ghost var saved := Entry(dir, tables[dir].View(), tables[dir].View());
      SaveTable(fs, dir, tables[dir]);
      TablesStepsAppend(entries, saved);
      ApplyAllConcat(old(fs.files), TablesSteps(entries), SaveSteps(dir, saved.new_));
      DirsAppend(entries, saved);
      entries := entries + [saved];
      todo := todo - {dir};
    }
  }

  lemma NoSteps(files: Files)
    ensures ApplyAll(files, TablesSteps([])) == files && Dirs([]) == {}
  {
  }

  lemma DirsAppend(entries: seq<Entry>, e: Entry)
    ensures Dirs(entries + [e]) == Dirs(entries) + {e.dir}
    ensures forall i :: 0 <= i < |entries| ==> entries[i].dir in Dirs(entries)
  {
    var all := entries + [e];
    assert all[|entries|] == e;
    assert forall i :: 0 <= i < |entries| ==> all[i] == entries[i];
    forall d | d in Dirs(entries) ensures d in Dirs(all) {
      var i :| 0 <= i < |entries| && entries[i].dir == d;
      assert all[i].dir == d;
    }
  }

  lemma {:induction false} TablesStepsAppend(entries: seq<Entry>, e: Entry)
    ensures TablesSteps(entries + [e]) == TablesSteps(entries) + SaveSteps(e.dir, e.new_)
  {
    hide SaveSteps;
    if entries == [] {
      assert ([] + [e])[1..] == [];
    } else {
      assert (entries + [e])[1..] == entries[1..] + [e];
      TablesStepsAppend(entries[1..], e);
    }
  }

  /** Checks a loaded row against the columns and makes its integers int64, in place. */
  method ValidateRow(checks: TextChecks, columns: seq<Column>, row: RowMap) returns (e: Option<LoadError>)
    modifies row
    ensures var r := NormalizeRow(checks, columns, old(row.data));
      if e.None? then r == Ok(row.data) else r == Err(e.value)
  {
    hide NormalizeCell;
    assert columns[0..] == columns;
    for i := 0 to |columns|
      invariant NormalizeRow(checks, columns, old(row.data)) == NormalizeRow(checks, columns[i..], row.data)
    {
      var col := columns[i];
      assert columns[i..][1..] == columns[i + 1..];
      if col.name !in row.data {
        if col.notNull {
          return Some(MissingCell(col.name));
        }
        continue;
      }
      var v := NormalizeCell(checks, col, row.data[col.name]);
      if v.Err? {
        return Some(v.error);
      }
      row.data := row.data[col.name := v.value];
    }
    return None;
  }

  /** Builds the table in a directory; its rows are new maps that nothing else refers to. */
  method LoadTable(checks: TextChecks, fs: FileSystem, dir: string) returns (r: Result<Table, LoadError>)
    ensures r.Ok? <==> LoadDir(checks, fs.files, dir).Ok?
    ensures r.Ok? ==> fresh(r.value) && fresh(r.value.rows) && r.value.Valid()
    ensures r.Ok? ==> r.value.View() == LoadDir(checks, fs.files, dir).value
    ensures r.Err? ==> LoadDir(checks, fs.files, dir) == Err(r.error)
  {
    var metaFile, dataFile := File(dir, MetaJson), File(dir, DataJson);
    if metaFile !in fs.files {
      return Err(MissingFile);
    }
    if !fs.files[metaFile].Meta? {
      return Err(BadJson);
    }
    var meta := fs.files[metaFile].meta;
    var js: seq<JsonRow> := [];
    if dataFile in fs.files {
      if !fs.files[dataFile].Rows? {
        return Err(BadJson);
      }
      js := fs.files[dataFile].rows;
    }
    var rows :- LoadRows(checks, meta.columns, js);
    var t := new Table(meta.name, meta.columns, rows, meta.lastInsertId);
    return Ok(t);
  }

  /** Loads a table and builds its indexes, as a database load does for each of its tables. */
  method OpenTable(checks: TextChecks, fs: FileSystem, dir: string) returns (r: Option<Table>)
    ensures var loaded := LoadDir(checks, fs.files, dir);
      && (r.Some? <==> loaded.Ok? && Buildable(loaded.value.columns, loaded.value.rows))
      && (r.Some? ==> r.value.View() == loaded.value.(indexes := BuiltIndexes(loaded.value.columns, loaded.value.rows)))
    ensures r.Some? ==> fresh(r.value) && fresh(r.value.rows) && r.value.Valid()
  {
    hide LoadDir, Buildable, BuiltIndexes;
    var t := LoadTable(checks, fs, dir);
    if t.Err? {
      return None;
    }
    var e := BuildIndexes(t.value);
    return if e.None? then Some(t.value) else None;
  }

  /** A new row map for each JSON row, validated. */
  method LoadRows(checks: TextChecks, columns: seq<Column>, js: seq<JsonRow>)
    returns (r: Result<seq<RowMap>, LoadError>)
    ensures r.Ok? <==> NormalizeRows(checks, columns, js).Ok?
    ensures r.Ok? ==> fresh(r.value) && Unaliased(r.value) && Ok(Cells(r.value)) == NormalizeRows(checks, columns, js)
    ensures r.Err? ==> NormalizeRows(checks, columns, js) == Err(r.error)
  {
    hide NormalizeRow, UnmarshalRow, Cells;
    var rows: seq<RowMap> := [];
    assert js[..0] == [] && Cells(rows) == [];
    for i := 0 to |js|
      invariant fresh(rows) && Unaliased(rows)
      invariant Ok(Cells(rows)) == NormalizeRows(checks, columns, js[..i])
    {
      assert js[..i + 1][..i] == js[..i] && js[..i + 1][i] == js[i];
      ghost var before := Cells(rows);
      var row := new RowMap(UnmarshalRow(js[i]));
      assert forall k :: 0 <= k < |rows| ==> rows[k] != row;
      var e := ValidateRow(checks, columns, row);
      if e.Some? {
        ErrorStays(checks, columns, js, i + 1);
        return Err(e.value);
      }
      rows := rows + [row];
      assert Cells(rows) == before + [row.data];
    }
    assert js[..|js|] == js;
    return Ok(rows);
  }

  /** The first row that fails decides. */
  lemma {:induction false} ErrorStays(checks: TextChecks, columns: seq<Column>, js: seq<JsonRow>, n: nat)
    requires n <= |js| && NormalizeRows(checks, columns, js[..n]).Err?
    ensures NormalizeRows(checks, columns, js) == Err(NormalizeRows(checks, columns, js[..n]).error)
    decreases |js| - n
  {
    if n < |js| {
      hide NormalizeRow, UnmarshalRow;
      assert js[..n + 1][..n] == js[..n];
      ErrorStays(checks, columns, js, n + 1);
    } else {
      assert js[..n] == js;
    }
  }
}
