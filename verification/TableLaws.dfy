/** What every run of Insert, Update and Delete keeps. */
module TableLaws {
  import opened Values
  import opened Schema
  import opened HashIndex
  import opened Comparison
  import opened TableSpec

  // -------------------------------------------------------------------------- runs

  datatype Op =
    | InsertOp(row: Row)
    | UpdateOp(pred: RowPredicate, updates: Row)
    | DeleteOp(pred: RowPredicate)

  ghost predicate Step(t: TableData, op: Op, t': TableData)
  {
    match op
    case InsertOp(row) => t' == AfterInsert(t, row)
    case UpdateOp(pred, updates) =>
      if UpdateAccepted(t, pred, updates) then t' == AfterUpdate(t, pred, updates)
      else UpdateAborted(t, pred, updates, t')
    case DeleteOp(pred) => t' == AfterDelete(t, pred)
  }

  /** states[i + 1] is the table after ops[i]. */
  ghost predicate Run(states: seq<TableData>, ops: seq<Op>)
  {
    && |states| == |ops| + 1
    && forall i :: 0 <= i < |ops| ==> Step(states[i], ops[i], states[i + 1])
  }

  lemma StepShape(t: TableData, op: Op, t': TableData)
    requires Step(t, op, t')
    ensures t'.columns == t.columns && t'.name == t.name
    ensures t'.indexes.Keys == t.indexes.Keys
    ensures forall c :: c in t.indexes ==> t'.indexes[c].unique == t.indexes[c].unique
    ensures !op.InsertOp? ==> t'.lastInsertId == t.lastInsertId
  {
  }

  lemma {:induction false} RunColumns(states: seq<TableData>, ops: seq<Op>, k: nat)
    requires Run(states, ops) && k < |states|
    ensures states[k].columns == states[0].columns
  {
    if k > 0 {
      RunColumns(states, ops, k - 1);
      StepShape(states[k - 1], ops[k - 1], states[k]);
    }
  }

  // ------------------------------------------------------- indexes agree with scans

  /** Every index is the index of the current rows: see HashIndex.IndexExact. */
  ghost predicate Consistent(t: TableData)
  {
    forall c :: c in t.indexes ==> t.indexes[c].data == IndexOf(t.rows, c)
  }

  lemma AppendedConsistent(t: TableData, row: Row)
    requires Consistent(t)
    ensures Consistent(Appended(t, row))
  {
    assert (t.rows + [row])[..|t.rows|] == t.rows;
  }

  /** Overwriting cells of one row by what it holds already keeps the indexes right. */
  lemma AbortedConsistent(t: TableData, updates: Row, i: nat, done: set<string>, row': Row)
    requires Consistent(t) && i < |t.rows| && PartlyUpdated(t.columns, t.rows[i], updates, done, row')
    requires forall c :: c in updates && c in t.indexes && KnownColumn(t.columns, c) ==> Holds(t.rows[i], c, updates[c])
    ensures Consistent(t.(rows := t.rows[i := row']))
  {
    hide KnownColumn, IndexOf;
    var t' := t.(rows := t.rows[i := row']);
    forall c | c in t'.indexes ensures t'.indexes[c].data == IndexOf(t'.rows, c) {
      SameColumnSameIndex(t.rows, t'.rows, c);
    }
  }

  /** Overwriting an indexed cell by another value does not. */
  lemma AbortedStale(t: TableData, pred: RowPredicate, updates: Row, i: nat, c: string)
    requires Consistent(t) && !UpdateAccepted(t, pred, updates) && FirstMatch(t.rows, pred, i)
    requires c in updates && c in t.indexes && KnownColumn(t.columns, c) && !Holds(t.rows[i], c, updates[c])
    ensures exists t' :: UpdateAborted(t, pred, updates, t') && !Consistent(t')
  {
    hide KnownColumn, IndexOf;
    var row' := t.rows[i] + Restrict(updates, {c});
    var t' := t.(rows := t.rows[i := row']);
    assert PartlyUpdated(t.columns, t.rows[i], updates, {c}, row');
    assert UpdateAborted(t, pred, updates, t');
    IndexExact(t.rows, c, updates[c]);
    IndexExact(t'.rows, c, updates[c]);
    assert Holds(t'.rows[i], c, updates[c]);
    assert i in Lookup(IndexOf(t'.rows, c), updates[c]) && i !in Lookup(IndexOf(t.rows, c), updates[c]);
  }

  lemma FirstMatchUnique(rows: seq<Row>, pred: RowPredicate, i: nat, k: nat)
    requires FirstMatch(rows, pred, i) && FirstMatch(rows, pred, k)
    ensures i == k
  {
  }

  /** Writing known and unknown columns in one Update is safe for the indexes, whatever the
      order of the writes, exactly when the first matching row already holds the new values
      of all indexed known columns. */
  lemma AbortConsistent(t: TableData, pred: RowPredicate, updates: Row, i: nat)
    requires Consistent(t) && !UpdateAccepted(t, pred, updates)
    requires FirstMatch(t.rows, pred, i)
    ensures (forall t' :: UpdateAborted(t, pred, updates, t') ==> Consistent(t')) <==>
      forall c :: c in updates && c in t.indexes && KnownColumn(t.columns, c) ==> Holds(t.rows[i], c, updates[c])
  {
    hide KnownColumn, IndexOf, Consistent, PartlyUpdated, UpdateAccepted;
    if forall c :: c in updates && c in t.indexes && KnownColumn(t.columns, c) ==> Holds(t.rows[i], c, updates[c]) {
      forall t' | UpdateAborted(t, pred, updates, t') ensures Consistent(t') {
        var k: nat, done, row' :| FirstMatch(t.rows, pred, k)
          && PartlyUpdated(t.columns, t.rows[k], updates, done, row')
          && t' == t.(rows := t.rows[k := row']);
        FirstMatchUnique(t.rows, pred, i, k);
        AbortedConsistent(t, updates, i, done, row');
      }
    } else {
      var c :| c in updates && c in t.indexes && KnownColumn(t.columns, c) && !Holds(t.rows[i], c, updates[c]);
      AbortedStale(t, pred, updates, i, c);
    }
  }

  /** A failed Update leaves the whole table as it was, whatever the order of the writes, exactly
      when the first matching row already holds the new values of all known columns. */
  lemma AbortUnchanged(t: TableData, pred: RowPredicate, updates: Row, i: nat)
    requires !UpdateAccepted(t, pred, updates) && FirstMatch(t.rows, pred, i)
    ensures (forall t' :: UpdateAborted(t, pred, updates, t') ==> t' == t) <==>
      forall c :: c in updates && KnownColumn(t.columns, c) ==> Holds(t.rows[i], c, updates[c])
  {
    hide KnownColumn;
    if forall c :: c in updates && KnownColumn(t.columns, c) ==> Holds(t.rows[i], c, updates[c]) {
      forall t' | UpdateAborted(t, pred, updates, t') ensures t' == t {
        var k: nat, done, row' :| FirstMatch(t.rows, pred, k)
          && PartlyUpdated(t.columns, t.rows[k], updates, done, row')
          && t' == t.(rows := t.rows[k := row']);
        assert k == i;
        assert row' == t.rows[i];
        assert t.rows[i := row'] == t.rows;
      }
    } else {
      var c :| c in updates && KnownColumn(t.columns, c) && !Holds(t.rows[i], c, updates[c]);
      var row' := t.rows[i] + Restrict(updates, {c});
      var t' := t.(rows := t.rows[i := row']);
      assert PartlyUpdated(t.columns, t.rows[i], updates, {c}, row');
      assert UpdateAborted(t, pred, updates, t');
      assert Holds(t'.rows[i], c, updates[c]);
    }
  }

  /** One row, no index, and an Update of a name and an unheard-of column. */
  lemma AbortedUpdateWrites()
    ensures var name := Column("name", TEXT, false, false, false, false);
      var before, after: Row := map["name" := Str("a")], map["name" := Str("b")];
      var t := TableData("t", [name], [before], map[], 0, false);
      var updates: Row := map["name" := Str("b"), "nosuch" := Int(1)];
      && !UpdateAccepted(t, _ => true, updates)
      && UpdateAborted(t, _ => true, updates, t.(rows := [after]))
  {
    var name := Column("name", TEXT, false, false, false, false);
    var before, after: Row := map["name" := Str("a")], map["name" := Str("b")];
    var t := TableData("t", [name], [before], map[], 0, false);
    var updates: Row := map["name" := Str("b"), "nosuch" := Int(1)];
    assert [before][..0] == [];
    assert "nosuch" in updates && !KnownColumn([name], "nosuch");
    assert before + Restrict(updates, {"name"}) == after;
    assert KnownColumn([name], "name");
    assert FirstMatch(t.rows, _ => true, 0);
    assert PartlyUpdated(t.columns, before, updates, {"name"}, after);
    assert [before][0 := after] == [after];
  }

  /** One row with id 1, a unique index, and an Update of id and an unheard-of column. */
  lemma AbortedUpdateStale()
    ensures var id := Column("id", INT, true, true, true, false);
      var before, after: Row := map["id" := Int64(1)], map["id" := Int64(2)];
      var t := TableData("t", [id], [before], map["id" := Index(true, IndexOf([before], "id"))], 0, false);
      var t' := t.(rows := [after]);
      && Consistent(t) && UpdateAborted(t, _ => true, map["id" := Int64(2), "nosuch" := Int64(3)], t')
      && Lookup(t'.indexes["id"].data, Int64(2)) == [] && Lookup(t'.indexes["id"].data, Int64(1)) == [0]
      && !Consistent(t')
  {
    var id := Column("id", INT, true, true, true, false);
    var before, after: Row := map["id" := Int64(1)], map["id" := Int64(2)];
    var t := TableData("t", [id], [before], map["id" := Index(true, IndexOf([before], "id"))], 0, false);
    var updates: Row := map["id" := Int64(2), "nosuch" := Int64(3)];
    assert KnownColumn([id], "id");
    assert before + Restrict(updates, {"id"}) == after;
    assert FirstMatch(t.rows, _ => true, 0);
    assert PartlyUpdated(t.columns, before, updates, {"id"}, after);
    assert [before][0 := after] == [after];
    assert [before][..0] == [];
    OneRowIndex(before, Int64(1));
    OneRowIndex(after, Int64(2));
  }

  lemma OneRowIndex(row: Row, v: Value)
    requires row == map["id" := v]
    ensures IndexOf([row], "id") == map[v := [0]]
  {
    assert [row][..0] == [];
    assert IndexOf([row], "id") == AddRow(IndexOf([], "id"), row, "id", 0) == Append(map[], v, 0);
    assert Lookup(map[], v) + [0] == [0];
  }

  ghost predicate SameColumn(rows: seq<Row>, rows': seq<Row>, c: string)
  {
    && |rows| == |rows'|
    && forall k :: 0 <= k < |rows| ==>
      (c in rows[k] <==> c in rows'[k]) && (c in rows[k] ==> rows[k][c] == rows'[k][c])
  }

  lemma {:induction false} SameColumnSameIndex(rows: seq<Row>, rows': seq<Row>, c: string)
    requires SameColumn(rows, rows', c)
    ensures IndexOf(rows, c) == IndexOf(rows', c)
  {
    if rows != [] {
      var n := |rows| - 1;
      SameColumnSameIndex(rows[..n], rows'[..n], c);
    }
  }

  /** The operation writes no indexed column unless it is sure to rebuild the indexes. */
  ghost predicate IndexSafe(t: TableData, op: Op)
  {
    op.UpdateOp? ==> UpdateAccepted(t, op.pred, op.updates) || op.updates.Keys !! t.indexes.Keys
  }

  lemma StepConsistent(t: TableData, op: Op, t': TableData)
    requires Step(t, op, t') && IndexSafe(t, op) && Consistent(t)
    ensures Consistent(t')
  {
    match op
    case InsertOp(row) =>
      var numbered := Numbered(t, row);
      if numbered.Ok? {
        AppendedConsistent(t.(lastInsertId := numbered.value.1), numbered.value.0);
      }
    case UpdateOp(pred, updates) =>
      if !UpdateAccepted(t, pred, updates) {
        var i: nat, done, row' :| FirstMatch(t.rows, pred, i)
          && PartlyUpdated(t.columns, t.rows[i], updates, done, row')
          && t' == t.(rows := t.rows[i := row']);
        AbortConsistent(t, pred, updates, i);
      }
    case DeleteOp(pred) =>
  }

  /** After any run every index of the table agrees with a scan of its rows. */
  lemma {:induction false} RunConsistent(states: seq<TableData>, ops: seq<Op>, k: nat)
    requires Run(states, ops) && k < |states|
    requires Consistent(states[0])
    requires forall i :: 0 <= i < |ops| ==> IndexSafe(states[i], ops[i])
    ensures Consistent(states[k])
  {
    hide Step, Consistent, IndexSafe;
    if k > 0 {
      RunConsistent(states, ops, k - 1);
      StepConsistent(states[k - 1], ops[k - 1], states[k]);
    }
  }

  /** On a consistent table the answer of SelectByIndex is the first row a scan finds. */
  lemma FirstOfScan(t: TableData, col: string, key: Value)
    requires Consistent(t) && col in t.indexes
    ensures var ps, found := Lookup(t.indexes[col].data, key), Selected(t.rows, row => Holds(row, col, key));
      && (ps == [] <==> found == [])
      && (ps != [] ==> ps[0] < |t.rows| && t.rows[ps[0]] == found[0])
  {
    IndexIsScan(t.rows, col);
    ScanRows(t.rows, col, key);
    PositionsExact(t.rows, col, key);
    var ps := Positions(t.rows, col, key);
    if ps != [] {
      assert ps[0] in ps;
    }
  }

  lemma {:induction false} ScanRows(rows: seq<Row>, col: string, key: Value)
    ensures var ps, found := Positions(rows, col, key), Selected(rows, row => Holds(row, col, key));
      && |ps| == |found|
      && forall i :: 0 <= i < |ps| ==> ps[i] < |rows| && rows[ps[i]] == found[i]
  {
    if rows != [] {
      ScanRows(rows[..|rows| - 1], col, key);
    }
  }

  // -------------------------------------------------------------------- uniqueness

  /** No two rows hold the same tagged value in a column with a unique index. */
  ghost predicate UniqueHolds(t: TableData)
  {
    forall c :: c in t.indexes && t.indexes[c].unique ==> Distinct(t.rows, c)
  }

  /** The updates leave the unique columns alone. */
  ghost predicate UniqueSafe(t: TableData, op: Op)
  {
    op.UpdateOp? ==> forall c :: c in op.updates ==> !(c in t.indexes && t.indexes[c].unique)
  }

  lemma InsertUnique(t: TableData, row: Row)
    requires Consistent(t) && UniqueHolds(t)
    ensures UniqueHolds(AfterInsert(t, row))
  {
    hide IndexOf, Numbered, RowError;
    var t' := AfterInsert(t, row);
    if Inserts(t, row) {
      var (full, last) := Numbered(t, row).value;
      var t1 := t.(lastInsertId := last);
      assert !Conflicting(t, full);
      assert forall c :: Conflicts(t1, full, c) ==> Conflicts(t, full, c);
      forall c | c in t'.indexes && t'.indexes[c].unique ensures Distinct(t'.rows, c) {
        assert !Conflicts(t1, full, c);
        DistinctStep(t.rows, full, c);
      }
    }
  }

  lemma {:induction false} KeptDistinct(rows: seq<Row>, pred: RowPredicate, c: string)
    requires Distinct(rows, c)
    ensures Distinct(Kept(rows, pred), c)
    ensures forall row :: row in Kept(rows, pred) ==> row in rows
  {
    if rows != [] {
      var n := |rows| - 1;
      KeptDistinct(rows[..n], pred, c);
      var kept := Kept(rows[..n], pred);
      forall i | 0 <= i < |kept| && c in kept[i] && c in rows[n] ensures kept[i][c] != rows[n][c] {
        assert kept[i] in rows[..n];
      }
    }
  }

  lemma SameColumnDistinct(rows: seq<Row>, rows': seq<Row>, c: string)
    requires SameColumn(rows, rows', c) && Distinct(rows, c)
    ensures Distinct(rows', c)
  {
  }

  lemma StepUnique(t: TableData, op: Op, t': TableData)
    requires Step(t, op, t') && UniqueSafe(t, op)
    requires Consistent(t) && UniqueHolds(t)
    ensures UniqueHolds(t')
  {
    match op
    case InsertOp(row) => InsertUnique(t, row);
    case UpdateOp(pred, updates) =>
      forall c | c in t'.indexes && t'.indexes[c].unique ensures Distinct(t'.rows, c) {
        SameColumnDistinct(t.rows, t'.rows, c);
      }
    case DeleteOp(pred) =>
      forall c | c in t.indexes && t.indexes[c].unique ensures Distinct(Kept(t.rows, pred), c) {
        KeptDistinct(t.rows, pred, c);
      }
  }

  /** Over runs whose updates leave unique columns alone, uniqueness is never lost. */
  lemma {:induction false} RunUnique(states: seq<TableData>, ops: seq<Op>, k: nat)
    requires Run(states, ops) && k < |states|
    requires Consistent(states[0]) && UniqueHolds(states[0])
    requires forall i :: 0 <= i < |ops| ==> IndexSafe(states[i], ops[i]) && UniqueSafe(states[i], ops[i])
    ensures UniqueHolds(states[k])
  {
    hide Step, Consistent, UniqueHolds, IndexSafe, UniqueSafe;
    if k > 0 {
      RunUnique(states, ops, k - 1);
      RunConsistent(states, ops, k - 1);
      StepUnique(states[k - 1], ops[k - 1], states[k]);
    }
  }

  /** An accepted Update that writes `v` into a unique column keeps it unique exactly when at
      most one row ends up with `v`: the matching rows and those that held it before. */
  lemma UpdateUniqueIff(t: TableData, pred: RowPredicate, updates: Row, c: string)
    requires Distinct(t.rows, c) && c in updates
    ensures Distinct(UpdatedRows(t.rows, pred, updates), c) <==>
      forall i, j :: 0 <= i < j < |t.rows| ==>
        !(GetsValue(t.rows[i], pred, c, updates[c]) && GetsValue(t.rows[j], pred, c, updates[c]))
  {
    var rows' := UpdatedRows(t.rows, pred, updates);
    forall k | 0 <= k < |t.rows|
      ensures GetsValue(t.rows[k], pred, c, updates[c]) <==> Holds(rows'[k], c, updates[c])
    {
    }
  }

  /** Two rows with ids 1 and 2, and an Update that writes 7 into both. */
  lemma UpdateMakesDuplicates()
    ensures var id := Column("id", INT, true, true, true, false);
      var t := TableData("t", [id], [map["id" := Int64(1)], map["id" := Int64(2)]], map[], 0, false);
      && UpdateAccepted(t, _ => true, map["id" := Int64(7)])
      && Distinct(t.rows, "id")
      && !Distinct(AfterUpdate(t, _ => true, map["id" := Int64(7)]).rows, "id")
  {
    var id := Column("id", INT, true, true, true, false);
    var rows: seq<Row> := [map["id" := Int64(1)], map["id" := Int64(2)]];
    var t := TableData("t", [id], rows, map[], 0, false);
    assert KnownColumn([id], "id");
    CountZero(rows, _ => true);
    var after := UpdatedRows(rows, _ => true, map["id" := Int64(7)]);
    assert after[0]["id"] == after[1]["id"] == Int64(7);
  }

  predicate GetsValue(row: Row, pred: RowPredicate, c: string, v: Value)
  {
    pred(row) || Holds(row, c, v)
  }

  // ---------------------------------------------------------------- failed inserts

  /** The row gets an id: it has none yet, or it has an integer above the counter. */
  predicate DrawsId(t: TableData, row: Row)
  {
    var auto := AutoColumn(t.columns);
    auto.Some? &&
      (auto.value.name !in row ||
       (NormalizeToInt64(row[auto.value.name]).Some? && NormalizeToInt64(row[auto.value.name]).value > t.lastInsertId))
  }

  /** A refused row changes nothing but the counter, and uses up an id exactly when it draws
      one; an accepted row is appended. */
  lemma InsertAllOrNothing(t: TableData, row: Row)
    ensures !Inserts(t, row) ==> AfterInsert(t, row) == t.(lastInsertId := AfterInsert(t, row).lastInsertId)
    ensures !Inserts(t, row) ==> (AfterInsert(t, row) != t <==> DrawsId(t, row))
    ensures Inserts(t, row) ==>
      && Numbered(t, row).Ok?
      && AfterInsert(t, row).rows == t.rows + [Numbered(t, row).value.0]
      && AfterInsert(t, row).dirty
  {
    hide NormalizeToInt64, RowError, Conflicting;
    var numbered := Numbered(t, row);
    if numbered.Ok? {
      assert numbered.value.1 != t.lastInsertId <==> DrawsId(t, row);
    } else {
      assert !DrawsId(t, row);
    }
  }

  /** A table with an id and a required name, and no rows. */
  function Named(lastInsertId: i64): (t: TableData)
  {
    TableData("t", [Column("id", INT, true, true, true, true), Column("name", TEXT, false, false, true, false)], [],
      map[], lastInsertId, false)
  }

  /** A row without a name is refused and leaves the counter one higher, or, at the last int64,
      at the first one. */
  lemma RefusedRowCounts(last: i64)
    ensures !Inserts(Named(last), map[])
    ensures AfterInsert(Named(last), map[]) ==
      Named(last).(lastInsertId := if last == MAX_INT64 then MIN_INT64 else last + 1)
  {
    var t := Named(last);
    var full: Row := map["id" := Int64(Wrap64(last + 1))];
    assert Numbered(t, map[]) == Ok((full, Wrap64(last + 1)));
    assert t.columns[1] in t.columns && CellError(t.columns[1], full) == Some(MissingValue("name"));
    assert RowError(t.columns, full).Some?;
  }

  // ---------------------------------------------------------------- auto-increment

  /** The ids present in the auto-increment column. */
  ghost function Ids(t: TableData, col: string): (ids: set<int>)
  {
    set i, n | 0 <= i < |t.rows| && n in IdOf(t.rows[i], col) :: n
  }

  function IdOf(row: Row, col: string): (ids: set<int>)
  {
    if col in row && row[col].Int64? then {row[col].n} else {}
  }

  /** All ids are int64 and at most the counter. */
  ghost predicate IdsBounded(t: TableData, col: string)
  {
    forall row: Row :: row in t.rows && col in row ==> row[col].Int64? && row[col].n <= t.lastInsertId
  }

  ghost predicate AutoIs(t: TableData, col: string)
  {
    AutoColumn(t.columns).Some? && AutoColumn(t.columns).value.name == col
  }

  /** The next id the table would draw does not wrap around. */
  ghost predicate IdSafe(t: TableData, op: Op, col: string)
  {
    && (op.InsertOp? ==> col in op.row || t.lastInsertId < MAX_INT64)
    && (op.UpdateOp? ==> col !in op.updates)
  }

  /** Insert lowers the counter exactly when it draws an id after the last int64. */
  lemma CounterFallsIff(t: TableData, row: Row, col: string)
    requires AutoIs(t, col)
    ensures AfterInsert(t, row).lastInsertId < t.lastInsertId <==> col !in row && t.lastInsertId == MAX_INT64
  {
    hide NormalizeToInt64, RowError;
  }

  lemma StepIds(t: TableData, op: Op, t': TableData, col: string)
    requires Step(t, op, t') && AutoIs(t, col) && IdSafe(t, op, col) && IdsBounded(t, col)
    ensures IdsBounded(t', col) && AutoIs(t', col)
    ensures t.lastInsertId <= t'.lastInsertId
    ensures forall n :: n in Ids(t', col) ==> n in Ids(t, col) || t.lastInsertId < n
    ensures op.InsertOp? && Inserts(t, op.row) ==>
      t'.lastInsertId in Ids(t', col) && t.lastInsertId < t'.lastInsertId
  {
    hide AfterInsert, Inserts, CountMatches, IndexOf, KnownColumn;
    StepShape(t, op, t');
    match op
    case InsertOp(row) => InsertIds(t, row, col);
    case UpdateOp(pred, updates) => OldCellsOldIds(t, t', col);
    case DeleteOp(pred) => KeptIds(t.rows, pred);
  }

  /** Rows whose id cell is untouched. */
  lemma OldCellsOldIds(t: TableData, t': TableData, col: string)
    requires SameColumn(t.rows, t'.rows, col) && t'.lastInsertId == t.lastInsertId
    requires IdsBounded(t, col)
    ensures IdsBounded(t', col) && Ids(t', col) == Ids(t, col)
  {
    assert forall i :: 0 <= i < |t.rows| ==> IdOf(t'.rows[i], col) == IdOf(t.rows[i], col);
    forall row: Row | row in t'.rows && col in row ensures row[col].Int64? && row[col].n <= t.lastInsertId {
      var i :| 0 <= i < |t'.rows| && t'.rows[i] == row;
      assert t.rows[i] in t.rows;
    }
  }

  lemma {:induction false} KeptIds(rows: seq<Row>, pred: RowPredicate)
    ensures forall row :: row in Kept(rows, pred) ==> row in rows
  {
    if rows != [] {
      KeptIds(rows[..|rows| - 1], pred);
    }
  }

  lemma InsertIds(t: TableData, row: Row, col: string)
    requires AutoIs(t, col) && IdSafe(t, InsertOp(row), col) && IdsBounded(t, col)
    ensures var t' := AfterInsert(t, row);
      && IdsBounded(t', col)
      && t.lastInsertId <= t'.lastInsertId
      && (forall n :: n in Ids(t', col) ==> n in Ids(t, col) || t.lastInsertId < n)
      && (Inserts(t, row) ==> t'.lastInsertId in Ids(t', col) && t.lastInsertId < t'.lastInsertId)
  {
    hide NormalizeToInt64, RowError;
    var t' := AfterInsert(t, row);
    if t'.rows != t.rows {
      var full := Numbered(t, row).value.0;
      assert t'.rows == t.rows + [full];
      assert IdOf(full, col) == {t'.lastInsertId as int};
      assert t'.rows[|t.rows|] == full;
      assert forall i :: 0 <= i < |t.rows| ==> t'.rows[i] == t.rows[i];
    }
  }

  /** Along a run the ids stay bounded by a counter that never decreases, and ids only appear
      above the counter. */
  lemma {:induction false} RunIds(states: seq<TableData>, ops: seq<Op>, col: string, j: nat, k: nat)
    requires Run(states, ops) && j <= k < |states|
    requires AutoIs(states[0], col) && IdsBounded(states[0], col)
    requires forall i :: 0 <= i < |ops| ==> IdSafe(states[i], ops[i], col)
    ensures IdsBounded(states[k], col) && AutoIs(states[k], col)
    ensures states[j].lastInsertId <= states[k].lastInsertId
    ensures forall n :: n in Ids(states[k], col) ==> n in Ids(states[j], col) || states[j].lastInsertId < n
    decreases k
  {
    if k > 0 {
      var i := if j < k then j else k - 1;
      RunIds(states, ops, col, i, k - 1);
      StepIds(states[k - 1], ops[k - 1], states[k], col);
    }
  }

  /** Each successful insert gets an id greater than every id ever present before it. */
  lemma FreshIds(states: seq<TableData>, ops: seq<Op>, col: string, j: nat, k: nat, n: int)
    requires Run(states, ops) && j <= k < |ops|
    requires AutoIs(states[0], col) && IdsBounded(states[0], col)
    requires forall i :: 0 <= i < |ops| ==> IdSafe(states[i], ops[i], col)
    requires ops[k].InsertOp? && Inserts(states[k], ops[k].row)
    requires n in Ids(states[j], col)
    ensures states[k + 1].lastInsertId in Ids(states[k + 1], col) && n < states[k + 1].lastInsertId
  {
    RunIds(states, ops, col, j, k);
    RunIds(states, ops, col, j, j);
    StepIds(states[k], ops[k], states[k + 1], col);
  }

  /** An id that was present and is gone never comes back. */
  lemma NoReuse(states: seq<TableData>, ops: seq<Op>, col: string, j: nat, k: nat, m: nat, n: int)
    requires Run(states, ops) && j <= k <= m < |states|
    requires AutoIs(states[0], col) && IdsBounded(states[0], col)
    requires forall i :: 0 <= i < |ops| ==> IdSafe(states[i], ops[i], col)
    requires n in Ids(states[j], col) && n !in Ids(states[k], col)
    ensures n !in Ids(states[m], col)
  {
    RunIds(states, ops, col, j, j);
    RunIds(states, ops, col, j, k);
    RunIds(states, ops, col, k, m);
  }

  // ------------------------------------------------------------ a lagging counter

  /** The table after `k` attempts to insert the same row. */
  ghost function AfterAttempts(t: TableData, row: Row, k: nat): (t': TableData)
  {
    if k == 0 then t else AfterInsert(AfterAttempts(t, row, k - 1), row)
  }

  /** How many rows carry an id above `last`. */
  function CountAbove(rows: seq<Row>, col: string, last: int): (n: nat)
  {
    if rows == [] then 0
    else
      var r := |rows| - 1;
      CountAbove(rows[..r], col, last) +
      if col in rows[r] && rows[r][col].Int64? && rows[r][col].n > last then 1 else 0
  }

  /** The row lacks an id and is refused for no other reason than a taken id. */
  ghost predicate OnlyIdMatters(t: TableData, row: Row, col: string)
  {
    && col !in row
    && col in t.indexes && t.indexes[col].unique
    && (forall n: i64 :: RowError(t.columns, row[col := Int64(n)]).None?)
    && (forall c :: c != col ==> !Conflicts(t, row, c))
  }

  lemma {:induction false} CountAboveFalls(rows: seq<Row>, col: string, last: int, p: nat)
    requires p < |rows| && col in rows[p] && rows[p][col].Int64? && rows[p][col].n == last + 1
    ensures CountAbove(rows, col, last + 1) < CountAbove(rows, col, last)
  {
    var r := |rows| - 1;
    if p < r {
      CountAboveFalls(rows[..r], col, last, p);
    } else {
      CountAboveAntitone(rows[..r], col, last);
    }
  }

  lemma {:induction false} CountAboveAntitone(rows: seq<Row>, col: string, last: int)
    ensures CountAbove(rows, col, last + 1) <= CountAbove(rows, col, last)
  {
    if rows != [] {
      CountAboveAntitone(rows[..|rows| - 1], col, last);
    }
  }

  /** One attempt either succeeds or moves the counter past one taken id. */
  lemma Attempt(t: TableData, row: Row, col: string)
    requires AutoIs(t, col) && Consistent(t) && OnlyIdMatters(t, row, col)
    requires t.lastInsertId < MAX_INT64
    ensures Inserts(t, row) <==> Int64(t.lastInsertId + 1) !in t.indexes[col].data
    ensures !Inserts(t, row) ==>
      && AfterInsert(t, row) == t.(lastInsertId := t.lastInsertId + 1)
      && CountAbove(t.rows, col, t.lastInsertId + 1) < CountAbove(t.rows, col, t.lastInsertId)
  {
    hide RowError, CountAbove, IndexOf, Conflicts;
    var id: i64 := t.lastInsertId + 1;
    var full := row[col := Int64(id)];
    assert Numbered(t, row) == Ok((full, id));
    assert RowError(t.columns, full).None?;
    NumberedConflicts(t, row, col, id);
    if Int64(id) in t.indexes[col].data {
      TakenIdCounted(t, col, id);
    }
  }

  /** The id drawn is the only thing that can conflict. */
  lemma NumberedConflicts(t: TableData, row: Row, col: string, id: i64)
    requires OnlyIdMatters(t, row, col)
    ensures Conflicting(t, row[col := Int64(id)]) <==> Int64(id) in t.indexes[col].data
  {
    hide RowError;
    var full := row[col := Int64(id)];
    assert Conflicts(t, full, col) <==> Int64(id) in t.indexes[col].data;
    forall c | c != col ensures !Conflicts(t, full, c) {
      assert !Conflicts(t, row, c);
    }
  }

  lemma TakenIdCounted(t: TableData, col: string, id: i64)
    requires Consistent(t) && col in t.indexes && Int64(id) in t.indexes[col].data
    ensures CountAbove(t.rows, col, id) < CountAbove(t.rows, col, id - 1)
  {
    hide CountAbove, IndexOf;
    IndexExact(t.rows, col, Int64(id));
    var p :| 0 <= p < |t.rows| && Holds(t.rows[p], col, Int64(id));
    CountAboveFalls(t.rows, col, id - 1, p);
  }

  /** When the counter lags behind ids already present, an insert without an id succeeds after
      at most as many failures as there are rows with an id above the counter. */
  lemma {:induction false} LaggingCounterRecovers(t: TableData, row: Row, col: string) returns (k: nat)
    requires AutoIs(t, col) && Consistent(t) && OnlyIdMatters(t, row, col)
    requires t.lastInsertId + CountAbove(t.rows, col, t.lastInsertId) < MAX_INT64
    ensures k <= CountAbove(t.rows, col, t.lastInsertId)
    ensures forall j :: 0 <= j < k ==> !Inserts(AfterAttempts(t, row, j), row)
    ensures Inserts(AfterAttempts(t, row, k), row)
    decreases CountAbove(t.rows, col, t.lastInsertId)
  {
    hide RowError, Numbered, AfterInsert;
    Attempt(t, row, col);
    if Inserts(t, row) {
      k := 0;
    } else {
      var t1 := AfterInsert(t, row);
      forall c | c != col ensures !Conflicts(t1, row, c) {
        assert !Conflicts(t, row, c);
      }
      var k1 := LaggingCounterRecovers(t1, row, col);
      k := k1 + 1;
      forall j | 0 <= j < k ensures !Inserts(AfterAttempts(t, row, j), row) {
        if j > 0 {
          AttemptsShift(t, row, j - 1);
        }
      }
      AttemptsShift(t, row, k1);
    }
  }

  lemma {:induction false} AttemptsShift(t: TableData, row: Row, k: nat)
    ensures AfterAttempts(t, row, k + 1) == AfterAttempts(AfterInsert(t, row), row, k)
  {
    if k > 0 {
      AttemptsShift(t, row, k - 1);
    }
  }
}
