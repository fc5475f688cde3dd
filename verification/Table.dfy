/** The table object: rows are maps shared by reference, indexes are updated in place. */
module Tables {
  import opened Values
  import opened Schema
  import opened HashIndex
  import opened Comparison
  import opened TableSpec

  /** A row whose cells can be overwritten in place. */
  class RowMap {
    var data: Row

    constructor (data: Row)
      ensures this.data == data
    {
      this.data := data;
    }

    method Copy() returns (copy: RowMap)
      ensures fresh(copy) && copy.data == data
    {
      var cells: Row := map[];
      var todo := data.Keys;
      while todo != {}
        invariant todo <= data.Keys && cells.Keys == data.Keys - todo
        invariant forall c :: c in cells ==> cells[c] == data[c]
      {
        var c :| c in todo;
        cells := cells[c := data[c]];
        todo := todo - {c};
      }
      copy := new RowMap(cells);
    }
  }

  class IndexMap {
    const unique: bool
    var data: map<Value, seq<nat>>

    constructor (unique: bool)
      ensures this.unique == unique && data == map[]
    {
      this.unique := unique;
      this.data := map[];
    }
  }

  /** The cells of a list of row objects. */
  function Cells(rows: seq<RowMap>): (r: seq<Row>)
    reads rows
    ensures |r| == |rows| && forall i :: 0 <= i < |rows| ==> r[i] == rows[i].data
  {
    seq(|rows|, i requires 0 <= i < |rows| reads rows => rows[i].data)
  }

  ghost predicate Unaliased(rows: seq<RowMap>)
  {
    forall i, j :: 0 <= i < j < |rows| ==> rows[i] != rows[j]
  }

  /** The contents of the index objects. */
  function Contents(indexes: map<string, IndexMap>): (r: map<string, Index>)
    reads indexes.Values
    ensures r.Keys == indexes.Keys
    ensures forall c :: c in indexes ==> r[c] == Index(indexes[c].unique, indexes[c].data)
  {
    map c | c in indexes :: Index(indexes[c].unique, indexes[c].data)
  }

  class Table {
    const name: string
    const columns: seq<Column>
    var rows: seq<RowMap>
    var indexes: map<string, IndexMap>
    var lastInsertId: i64
    var dirty: bool

    /** No row map and no index is shared. */
    ghost predicate Valid()
      reads this
    {
      && Unaliased(rows)
      && (forall c, d :: c in indexes && d in indexes && c != d ==> indexes[c] != indexes[d])
    }

    /** The table as a value. */
    function View(): (t: TableData)
      reads this, rows, indexes.Values
    {
      TableData(name, columns, Cells(rows), Contents(indexes), lastInsertId, dirty)
    }

    constructor (name: string, columns: seq<Column>, rows: seq<RowMap>, lastInsertId: i64)
      requires Unaliased(rows)
      ensures Valid() && this.rows == rows && indexes == map[]
      ensures View() == TableData(name, columns, Cells(rows), map[], lastInsertId, false)
    {
      this.name, this.columns, this.rows, this.indexes := name, columns, rows, map[];
      this.lastInsertId, this.dirty := lastInsertId, false;
    }

    /** Adds a copy of the row, or reports why not. */
    method Insert(mutRow: RowMap) returns (e: Option<InsertError>)
      requires Valid()
      modifies this, indexes.Values
      ensures Valid() && indexes == old(indexes)
      ensures forall r :: r in rows ==> r in old(rows) || fresh(r)
      ensures View() == AfterInsert(old(View()), old(mutRow.data))
      ensures InsertReports(old(View()), old(mutRow.data), e)
    {
      hide Cells, Contents, Numbered, RowError, Appended, Conflicting;
      ghost var before := View();
      var row := mutRow.Copy();
      e := AssignId(row);
      ghost var numbered := View();
      assert numbered == before.(lastInsertId := lastInsertId);
      if e.Some? {
        return;
      }
      e := ValidateRow(row);
      if e.Some? {
        return;
      }
      e := CheckUnique(row);
      SameConflicts(before, numbered, row.data);
      if e.Some? {
        return;
      }
      Append(row);
    }

    /** Step 1: draws the auto-increment value, or asks for the primary key. */
    method AssignId(row: RowMap) returns (e: Option<InsertError>)
      modifies this`lastInsertId, row
      ensures Numbered(old(View()), old(row.data)) ==
        if e.Some? then Err(e.value) else Ok((row.data, lastInsertId))
      ensures e.Some? ==> lastInsertId == old(lastInsertId)
    {
      var auto := AutoColumn(columns);
      if auto.Some? {
        var col := auto.value.name;
        var nextId := Wrap64(lastInsertId + 1);
        if col in row.data {
          var userId := NormalizeToInt64(row.data[col]);
          if userId.None? {
            return Some(NotAnInteger);
          }
          if userId.value <= lastInsertId {
            return Some(BehindSequence);
          }
          nextId := userId.value;
        }
        row.data := row.data[col := Int64(nextId)];
        lastInsertId := nextId;
      } else {
        var pk := PrimaryKey(columns);
        if pk.Some? && pk.value.name !in row.data {
          return Some(PrimaryKeyRequired);
        }
      }
      return None;
    }

    /** Step 3: looks the row's values up in the unique indexes, in no particular order. */
    method CheckUnique(row: RowMap) returns (e: Option<InsertError>)
      ensures e.None? <==> !Conflicting(View(), row.data)
      ensures e.Some? ==> e.value.DuplicateValue? && Conflicts(View(), row.data, e.value.column)
    {
      var todo := indexes.Keys;
      while todo != {}
        invariant todo <= indexes.Keys
        invariant forall c :: c in indexes && c !in todo ==> !Conflicts(View(), row.data, c)
      {
        var c :| c in todo;
        if c in row.data && indexes[c].unique && row.data[c] in indexes[c].data {
          assert Conflicts(View(), row.data, c);
          return Some(DuplicateValue(c));
        }
        todo := todo - {c};
      }
      return None;
    }

    /** Steps 4 to 7: appends the row and enters it into the indexes. */
    method Append(row: RowMap)
      requires Valid() && row !in rows
      modifies this`rows, this`dirty, indexes.Values
      ensures rows == old(rows) + [row]
      ensures View() == Appended(old(View()), row.data)
    {
      hide Cells, Contents, AddRow, Appended;
      ghost var before := View();
      var newRowPos := |rows|;
      rows := rows + [row];
      EnterRow(row, newRowPos);
      dirty := true;
      assert Cells(rows) == before.rows + [row.data];
      AppendedIs(before, row.data, View());
    }

    /** The error of the first column that does not accept the row. */
    method ValidateRow(row: RowMap) returns (e: Option<InsertError>)
      ensures e == RowError(columns, row.data)
    {
      for i := 0 to |columns|
        invariant RowError(columns, row.data) == RowError(columns[i..], row.data)
      {
        var col := columns[i];
        assert columns[i..][1..] == columns[i + 1..];
        if col.notNull && col.name !in row.data {
          return Some(MissingValue(col.name));
        }
        if col.name in row.data && !TypeAccepts(col.typ, row.data[col.name]) {
          return Some(TypeMismatch(col.name));
        }
      }
      return None;
    }

    /** Enters one row into every index. */
    method EnterRow(row: RowMap, pos: nat)
      requires Valid()
      modifies indexes.Values
      ensures forall c :: c in indexes ==> indexes[c].data == AddRow(old(indexes[c].data), row.data, c, pos)
    {
      var todo := indexes.Keys;
      while todo != {}
        invariant todo <= indexes.Keys
        invariant forall c :: c in todo ==> indexes[c].data == old(indexes[c].data)
        invariant forall c :: c in indexes && c !in todo ==>
          indexes[c].data == AddRow(old(indexes[c].data), row.data, c, pos)
      {
        var c :| c in todo;
        if c in row.data {
          indexes[c].data := HashIndex.Append(indexes[c].data, row.data[c], pos);
        }
        todo := todo - {c};
      }
    }

    /** All rows; the list is new, the row maps are the table's own. */
    method SelectAll() returns (result: seq<RowMap>)
      ensures result == rows
    {
      result := rows;
    }

    /** The rows matching the predicate, in order; the row maps are the table's own. */
    method Select(pred: RowPredicate) returns (result: seq<RowMap>)
      ensures Cells(result) == Selected(Cells(rows), pred)
      ensures MatchesOf(Cells(rows), pred, Cells(result))
      ensures forall r :: r in result ==> r in rows
    {
      hide MatchesOf;
      result := [];
      SelectedExact(Cells(rows), pred);
      assert Cells(rows)[..0] == [];
      for i := 0 to |rows|
        invariant Cells(result) == Selected(Cells(rows)[..i], pred)
        invariant forall r :: r in result ==> r in rows
      {
        PrefixStep(Cells(rows), i);
        if pred(rows[i].data) {
          result := result + [rows[i]];
          assert Cells(result) == Selected(Cells(rows)[..i], pred) + [rows[i].data];
        }
      }
      assert Cells(rows)[..|rows|] == Cells(rows);
    }

    /** The row a unique index has first for the key. */
    method SelectByIndex(colName: string, value: Value) returns (r: Option<RowMap>)
      requires forall c, v :: c in indexes && v in indexes[c].data ==>
        forall k :: 0 <= k < |indexes[c].data[v]| ==> indexes[c].data[v][k] < |rows|
      ensures r.Some? <==>
        && colName in indexes && indexes[colName].unique
        && Lookup(indexes[colName].data, SearchKey(value)) != []
      ensures r.Some? ==> r.value == rows[Lookup(indexes[colName].data, SearchKey(value))[0]]
    {
      if colName !in indexes || !indexes[colName].unique {
        return None;
      }
      var key := if value.Int? then Int64(value.n) else value;
      var data := indexes[colName].data;
      if key !in data || |data[key]| == 0 {
        return None;
      }
      return Some(rows[data[key][0]]);
    }

    /** Overwrites the given cells in every matching row.  An unknown column ends the work at
        the first matching row. */
    method Update(pred: RowPredicate, updates: Row) returns (r: Result<nat, string>)
      requires Valid()
      modifies this, rows, indexes.Values
      ensures Valid() && rows == old(rows) && indexes == old(indexes)
      ensures r.Ok? <==> UpdateAccepted(old(View()), pred, updates)
      ensures r.Ok? ==> r.value == |set p | 0 <= p < |old(View()).rows| && pred(old(View()).rows[p])|
      ensures r.Ok? ==> RowsOverwritten(old(View()).rows, pred, updates, View().rows)
      ensures r.Ok? ==> View() == AfterUpdate(old(View()), pred, updates)
      ensures r.Err? ==> r.error in updates && !KnownColumn(columns, r.error)
      ensures r.Err? ==> UpdateAborted(old(View()), pred, updates, View())
    {
      hide Cells, Contents, Unaliased, KnownColumn, IndexOf, UpdatedRows, PartlyUpdated, CountMatches, Rebuilt;
      hide RowsOverwritten;
      ghost var before := View();
      UpdateExact(before, pred, updates);
      CountExact(before.rows, pred);
      r := OverwriteMatching(pred, updates);
      if r.Err? {
        ghost var i: nat, done :| FirstMatch(before.rows, pred, i)
          && PartlyUpdated(columns, before.rows[i], updates, done, rows[i].data)
          && Cells(rows) == before.rows[i := rows[i].data];
        assert View() == before.(rows := before.rows[i := rows[i].data]);
        return;
      }
      assert View() == before.(rows := Cells(rows));
      RebuiltRows(before, Cells(rows));
      if r.value > 0 {
        Refresh();
      }
    }

    /** The row loop of Update. */
    method OverwriteMatching(pred: RowPredicate, updates: Row) returns (r: Result<nat, string>)
      requires Unaliased(rows)
      modifies rows
      ensures r.Ok? ==> r.value == CountMatches(old(Cells(rows)), pred)
      ensures r.Ok? ==> Cells(rows) == UpdatedRows(old(Cells(rows)), pred, updates)
      ensures r.Ok? ==> RowsOverwritten(old(Cells(rows)), pred, updates, Cells(rows))
      ensures r == Ok(0) ==> Cells(rows) == old(Cells(rows))
      ensures r.Ok? <==>
        CountMatches(old(Cells(rows)), pred) == 0 || forall c :: c in updates ==> KnownColumn(columns, c)
      ensures r.Err? ==> r.error in updates && !KnownColumn(columns, r.error)
      ensures r.Err? ==> exists i: nat, done: set<string> ::
        && FirstMatch(old(Cells(rows)), pred, i)
        && PartlyUpdated(columns, old(Cells(rows))[i], updates, done, rows[i].data)
        && Cells(rows) == old(Cells(rows))[i := rows[i].data]
    {
      hide Cells, PartlyUpdated, KnownColumn, CountMatches, RowsOverwritten;
      ghost var before := Cells(rows);
      ghost var after := UpdatedRows(before, pred, updates);
      UpdatedExact(before, pred, updates);
      var count := 0;
      CountZero(before[..0], pred);
      for i := 0 to |rows|
        invariant count == CountMatches(before[..i], pred)
        invariant count > 0 ==> forall c :: c in updates ==> KnownColumn(columns, c)
        invariant forall k :: 0 <= k < i ==> rows[k].data == after[k]
        invariant forall k :: i <= k < |rows| ==> rows[k].data == before[k]
      {
        CountStep(before, pred, i);
        CountZero(before[..i], pred);
        if pred(rows[i].data) {
          assert forall k :: 0 <= k < |rows| && k != i ==> rows[k] != rows[i];
          var unknown := OverwriteCells(rows[i], updates);
          if unknown.Some? {
            ghost var done :| PartlyUpdated(columns, before[i], updates, done, rows[i].data);
            assert FirstMatch(before, pred, i);
            CountZero(before, pred);
            assert Cells(rows) == before[i := rows[i].data];
            return Err(unknown.value);
          }
          count := count + 1;
        }
      }
      assert before[..|rows|] == before;
      CountZero(before, pred);
      assert Cells(rows) == after;
      return Ok(count);
    }

    /** Writes the new cells into one row, in no particular order, up to an unknown column. */
    method OverwriteCells(row: RowMap, updates: Row) returns (unknown: Option<string>)
      modifies row
      ensures unknown.None? ==> row.data == old(row.data) + updates
      ensures unknown.None? <==> forall c :: c in updates ==> KnownColumn(columns, c)
      ensures unknown.Some? ==> unknown.value in updates && !KnownColumn(columns, unknown.value)
      ensures unknown.Some? ==> exists written :: PartlyUpdated(columns, old(row.data), updates, written, row.data)
    {
      var todo := updates.Keys;
      ghost var done: set<string> := {};
      while todo != {}
        invariant todo + done == updates.Keys
        invariant forall c :: c in done ==> KnownColumn(columns, c)
        invariant row.data == old(row.data) + Restrict(updates, done)
      {
        var c :| c in todo;
        if !KnownColumn(columns, c) {
          assert PartlyUpdated(columns, old(row.data), updates, done, row.data);
          return Some(c);
        }
        RestrictStep(old(row.data), updates, done, c);
        row.data := row.data[c := updates[c]];
        todo, done := todo - {c}, done + {c};
      }
      assert Restrict(updates, done) == updates;
      return None;
    }

    /** Drops the matching rows. */
    method Delete(pred: RowPredicate) returns (deleted: nat)
      requires Valid()
      modifies this, indexes.Values
      ensures Valid() && indexes == old(indexes)
      ensures forall r :: r in rows ==> r in old(rows)
      ensures deleted == |set p | 0 <= p < |old(View()).rows| && pred(old(View()).rows[p])|
      ensures OthersRemain(old(View()).rows, pred, View().rows)
      ensures View() == AfterDelete(old(View()), pred)
    {
      hide Cells, Contents, Unaliased, IndexOf, Kept, CountMatches, Rebuilt, OthersRemain;
      DeletedExact(View(), pred);
      CountExact(View().rows, pred);
      KeptLength(Cells(rows), pred);
      ghost var before := View();
      var newRows := Unmatched(pred);
      deleted := |rows| - |newRows|;
      if deleted > 0 {
        rows := newRows;
        assert View() == before.(rows := Cells(newRows));
        RebuiltRows(before, Cells(newRows));
        Refresh();
      }
    }

    /** The row loop of Delete. */
    method Unmatched(pred: RowPredicate) returns (newRows: seq<RowMap>)
      requires Unaliased(rows)
      ensures Cells(newRows) == Kept(Cells(rows), pred)
      ensures OthersRemain(Cells(rows), pred, Cells(newRows))
      ensures forall r :: r in newRows ==> r in rows
      ensures Unaliased(newRows)
    {
      hide Remain;
      ghost var before := Cells(rows);
      ghost var ps := KeptExact(before, pred);
      newRows := [];
      assert Cells(newRows) == Kept(before[..0], pred);
      for i := 0 to |rows|
        invariant Cells(newRows) == Kept(before[..i], pred)
        invariant forall r :: r in newRows ==> r in rows[..i]
        invariant Unaliased(newRows)
      {
        PrefixStep(before, i);
        if !pred(rows[i].data) {
          assert rows[i] !in rows[..i] && forall j :: 0 <= j < |newRows| ==> newRows[j] in newRows;
          newRows := newRows + [rows[i]];
          assert Cells(newRows) == Kept(before[..i], pred) + [before[i]];
        }
      }
      assert before[..|rows|] == before;
    }

    /** Builds the indexes again and marks the table as changed. */
    method Refresh()
      requires Valid()
      modifies this`dirty, indexes.Values
      ensures View() == Rebuilt(old(View()), Cells(rows))
    {
      hide Cells, Contents, Unaliased, IndexOf;
      ghost var before := View();
      RebuildIndexes();
      dirty := true;
      assert View().indexes == Rebuilt(before, Cells(rows)).indexes;
    }

    /** Builds every index again from the current rows. */
    method RebuildIndexes()
      requires Valid()
      modifies indexes.Values
      ensures forall c :: c in indexes ==> indexes[c].data == IndexOf(Cells(rows), c)
    {
      var todo := indexes.Keys;
      while todo != {}
        invariant todo <= indexes.Keys
        invariant forall c :: c in indexes && c !in todo ==> indexes[c].data == map[]
      {
        var c :| c in todo;
        indexes[c].data := map[];
        todo := todo - {c};
      }
      for i := 0 to |rows|
        invariant forall c :: c in indexes ==> indexes[c].data == IndexOf(Cells(rows)[..i], c)
      {
        PrefixStep(Cells(rows), i);
        EnterRow(rows[i], i);
      }
      assert Cells(rows)[..|rows|] == Cells(rows);
    }
  }
}
