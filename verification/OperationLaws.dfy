/** What Insert, Update and Delete do to a table, read off its schema, rows, counter and flags. */
module OperationLaws {
  import opened Values
  import opened Schema
  import opened HashIndex
  import opened Comparison
  import opened ComparisonLaws
  import opened TableSpec
  import opened TableLaws

  // -------------------------------------------------------------------------- columns

  /** The first column that is both auto-increment and primary key. */
  ghost predicate FirstAuto(columns: seq<Column>, k: nat)
  {
    && k < |columns| && columns[k].autoIncrement && columns[k].primaryKey
    && forall j :: 0 <= j < k ==> !(columns[j].autoIncrement && columns[j].primaryKey)
  }

  ghost predicate FirstKey(columns: seq<Column>, k: nat)
  {
    k < |columns| && columns[k].primaryKey && forall j :: 0 <= j < k ==> !columns[j].primaryKey
  }

  lemma {:induction false} AutoExact(columns: seq<Column>)
    ensures AutoColumn(columns).None? <==>
      forall k :: 0 <= k < |columns| ==> !(columns[k].autoIncrement && columns[k].primaryKey)
    ensures forall k: nat :: FirstAuto(columns, k) ==> AutoColumn(columns) == Some(columns[k])
    ensures AutoColumn(columns).Some? ==> exists k: nat :: FirstAuto(columns, k)
  {
    if columns != [] {
      AutoExact(columns[1..]);
      if columns[0].autoIncrement && columns[0].primaryKey {
        assert FirstAuto(columns, 0);
      } else {
        forall k: nat | FirstAuto(columns, k) ensures k > 0 && FirstAuto(columns[1..], k - 1) {
        }
        if AutoColumn(columns).Some? {
          var k: nat :| FirstAuto(columns[1..], k);
          assert FirstAuto(columns, k + 1);
        }
        assert forall k :: 0 < k < |columns| ==> columns[k] == columns[1..][k - 1];
      }
    }
  }

  lemma {:induction false} KeyExact(columns: seq<Column>)
    ensures PrimaryKey(columns).None? <==> forall k :: 0 <= k < |columns| ==> !columns[k].primaryKey
    ensures forall k: nat :: FirstKey(columns, k) ==> PrimaryKey(columns) == Some(columns[k])
    ensures PrimaryKey(columns).Some? ==> exists k: nat :: FirstKey(columns, k)
  {
    if columns != [] {
      KeyExact(columns[1..]);
      if columns[0].primaryKey {
        assert FirstKey(columns, 0);
      } else {
        forall k: nat | FirstKey(columns, k) ensures k > 0 && FirstKey(columns[1..], k - 1) {
        }
        if PrimaryKey(columns).Some? {
          var k: nat :| FirstKey(columns[1..], k);
          assert FirstKey(columns, k + 1);
        }
        assert forall k :: 0 < k < |columns| ==> columns[k] == columns[1..][k - 1];
      }
    }
  }

  // ------------------------------------------------------------------------- numbering

  /** The row is stored with the integer it brings, which must be above the counter, or else with
      the next one; the counter follows. */
  ghost predicate AutoNumbered(t: TableData, row: Row, c: string, full: Row, last: i64)
  {
    && full == row[c := Int64(last)]
    && if c in row then IsWhole(row[c], last) && last > t.lastInsertId
       else last == if t.lastInsertId == MAX_INT64 then MIN_INT64 else t.lastInsertId + 1
  }

  /** The row is stored as it is, and must have the primary key if there is one. */
  ghost predicate Unnumbered(t: TableData, row: Row, full: Row, last: i64)
  {
    full == row && last == t.lastInsertId && forall k: nat :: FirstKey(t.columns, k) ==> t.columns[k].name in row
  }

  ghost predicate NumberedTo(t: TableData, row: Row, full: Row, last: i64)
  {
    if k: nat :| FirstAuto(t.columns, k) then AutoNumbered(t, row, t.columns[k].name, full, last)
    else Unnumbered(t, row, full, last)
  }

  lemma FirstAutoUnique(columns: seq<Column>, j: nat, k: nat)
    requires FirstAuto(columns, j) && FirstAuto(columns, k)
    ensures j == k
  {
  }

  lemma NumberedExact(t: TableData, row: Row, full: Row, last: i64)
    ensures Numbered(t, row) == Ok((full, last)) <==> NumberedTo(t, row, full, last)
  {
    hide Numbered, AutoNumbered, Unnumbered, FirstAuto;
    if k: nat :| FirstAuto(t.columns, k) {
      forall j: nat | FirstAuto(t.columns, j) ensures j == k {
        FirstAutoUnique(t.columns, j, k);
      }
      AutoNumber(t, row, full, last, k);
    } else {
      NoNumber(t, row, full, last);
    }
  }

  lemma AutoNumber(t: TableData, row: Row, full: Row, last: i64, k: nat)
    requires FirstAuto(t.columns, k)
    ensures Numbered(t, row) == Ok((full, last)) <==> AutoNumbered(t, row, t.columns[k].name, full, last)
  {
    hide NormalizeToInt64, IsWhole, AutoColumn, PrimaryKey;
    AutoExact(t.columns);
    WholeHolds(row, last);
    SameLast(row, t.columns[k].name, full, last);
  }

  lemma NoNumber(t: TableData, row: Row, full: Row, last: i64)
    requires forall k: nat :: !FirstAuto(t.columns, k)
    ensures Numbered(t, row) == Ok((full, last)) <==> Unnumbered(t, row, full, last)
  {
    hide NormalizeToInt64, AutoColumn, PrimaryKey;
    AutoExact(t.columns);
    KeyExact(t.columns);
  }

  lemma WholeHolds(row: Row, n: i64)
    ensures forall c :: c in row ==> (NormalizeToInt64(row[c]) == Some(n) <==> IsWhole(row[c], n))
  {
    forall c | c in row ensures NormalizeToInt64(row[c]) == Some(n) <==> IsWhole(row[c], n) {
      WholeExact(row[c], n);
    }
  }

  /** The stored id is the counter. */
  lemma SameLast(row: Row, c: string, full: Row, last: i64)
    ensures forall n: i64 :: full == row[c := Int64(n)] && full == row[c := Int64(last)] ==> n == last
  {
    forall n: i64 | full == row[c := Int64(n)] && full == row[c := Int64(last)] ensures n == last {
      assert full[c] == Int64(n) && full[c] == Int64(last);
    }
  }

  /** Why a row is given no number. */
  lemma NumberErrors(t: TableData, row: Row, k: nat)
    ensures FirstAuto(t.columns, k) ==> var c := t.columns[k].name;
      && (Numbered(t, row) == Err(NotAnInteger) <==> c in row && forall n: i64 :: !IsWhole(row[c], n))
      && (Numbered(t, row) == Err(BehindSequence) <==>
            c in row && exists n: i64 :: IsWhole(row[c], n) && n <= t.lastInsertId)
      && Numbered(t, row) != Err(PrimaryKeyRequired)
    ensures (forall j: nat :: !FirstAuto(t.columns, j)) && FirstKey(t.columns, k) ==>
      if t.columns[k].name in row then Numbered(t, row).Ok? else Numbered(t, row) == Err(PrimaryKeyRequired)
  {
    hide NormalizeToInt64, IsWhole, AutoColumn, PrimaryKey;
    AutoExact(t.columns);
    KeyExact(t.columns);
    if FirstAuto(t.columns, k) && t.columns[k].name in row {
      var v := row[t.columns[k].name];
      forall n: i64 ensures NormalizeToInt64(v) == Some(n) <==> IsWhole(v, n) {
        WholeExact(v, n);
      }
      if NormalizeToInt64(v).Some? {
        assert IsWhole(v, NormalizeToInt64(v).value);
      }
    }
  }

  // ------------------------------------------------------------------------ validation

  /** A required cell is there, and a cell of an INT, FLOAT, TEXT or BOOL column is of its type. */
  ghost predicate Suits(col: Column, row: Row)
  {
    && (col.notNull ==> col.name in row)
    && (col.name in row && col.typ == INT ==> row[col.name].Int64? || row[col.name].Int?)
    && (col.name in row && col.typ == FLOAT ==> row[col.name].Float?)
    && (col.name in row && col.typ == TEXT ==> row[col.name].Str?)
    && (col.name in row && col.typ == BOOL ==> row[col.name].Bool?)
  }

  ghost predicate FirstUnsuited(columns: seq<Column>, row: Row, k: nat)
  {
    k < |columns| && !Suits(columns[k], row) && forall j :: 0 <= j < k ==> Suits(columns[j], row)
  }

  function Unsuited(col: Column, row: Row): (e: InsertError)
  {
    if col.name in row then TypeMismatch(col.name) else MissingValue(col.name)
  }

  lemma CellErrorExact(col: Column, row: Row)
    ensures CellError(col, row) == if Suits(col, row) then None else Some(Unsuited(col, row))
  {
  }

  lemma {:induction false} RowErrorExact(columns: seq<Column>, row: Row)
    ensures RowError(columns, row).None? <==> forall k :: 0 <= k < |columns| ==> Suits(columns[k], row)
    ensures RowError(columns, row).Some? ==>
      exists k: nat :: FirstUnsuited(columns, row, k) && RowError(columns, row).value == Unsuited(columns[k], row)
  {
    hide Suits, CellError, Unsuited;
    if columns != [] {
      var others := columns[1..];
      RowErrorExact(others, row);
      CellErrorExact(columns[0], row);
      assert forall k :: 0 < k < |columns| ==> columns[k] == others[k - 1];
      if CellError(columns[0], row).Some? {
        assert FirstUnsuited(columns, row, 0);
      } else if RowError(columns, row).Some? {
        var k: nat :| FirstUnsuited(others, row, k) && RowError(others, row).value == Unsuited(others[k], row);
        assert FirstUnsuited(columns, row, k + 1);
      }
    }
  }

  // --------------------------------------------------------------------------- Insert

  /** A unique index already has the row's value. */
  ghost predicate Taken(t: TableData, row: Row, c: string)
  {
    c in t.indexes && t.indexes[c].unique && c in row && row[c] in t.indexes[c].data
  }

  /** Insert accepts exactly the rows that can be numbered, and with their number suit all columns
      and repeat no value of a unique index. */
  lemma InsertExact(t: TableData, row: Row)
    ensures Inserts(t, row) <==> exists full: Row, last: i64 ::
      && NumberedTo(t, row, full, last)
      && (forall k :: 0 <= k < |t.columns| ==> Suits(t.columns[k], full))
      && (forall c :: !Taken(t, full, c))
  {
    hide Numbered, RowError, NumberedTo, Suits;
    if Numbered(t, row).Ok? {
      var (full, last) := Numbered(t, row).value;
      NumberedExact(t, row, full, last);
      RowErrorExact(t.columns, full);
      assert forall c :: Taken(t, full, c) <==> Conflicts(t, full, c);
    }
    forall full: Row, last: i64 ensures NumberedTo(t, row, full, last) <==> Numbered(t, row) == Ok((full, last)) {
      NumberedExact(t, row, full, last);
    }
  }

  /** On a table whose indexes agree with its rows a value is taken when a row holds it. */
  lemma TakenExact(t: TableData, row: Row, c: string)
    requires Consistent(t)
    ensures Taken(t, row, c) <==>
      c in t.indexes && t.indexes[c].unique && c in row && exists i :: 0 <= i < |t.rows| && Holds(t.rows[i], c, row[c])
  {
    hide IndexOf;
    if c in t.indexes && c in row {
      IndexExact(t.rows, c, row[c]);
    }
  }

  /** Nothing but the rows, the counter, the dirty flag and the contents of indexes differs. */
  ghost predicate SameSchema(t: TableData, t': TableData)
  {
    && t'.name == t.name && t'.columns == t.columns && t'.indexes.Keys == t.indexes.Keys
    && forall c :: c in t.indexes ==> t'.indexes[c].unique == t.indexes[c].unique
  }

  function NewPosition(t: TableData, row: Row, c: string, v: Value): (ps: seq<nat>)
  {
    if c in row && row[c] == v then [|t.rows|] else []
  }

  /** The row is stored last, every index knows its position, and the table is to be saved. */
  lemma InsertedExact(t: TableData, row: Row, full: Row, last: i64, c: string, v: Value)
    requires Inserts(t, row) && NumberedTo(t, row, full, last)
    ensures var t' := AfterInsert(t, row);
      && SameSchema(t, t') && t'.rows == t.rows + [full] && t'.lastInsertId == last && t'.dirty
      && (c in t.indexes ==> Lookup(t'.indexes[c].data, v) == Lookup(t.indexes[c].data, v) + NewPosition(t, full, c, v))
  {
    hide Numbered, RowError, NumberedTo;
    NumberedExact(t, row, full, last);
    SameConflicts(t, t.(lastInsertId := last), full);
  }

  /** The error of a row that is refused after it got its number: that of the first column it does
      not suit, or else a value that is taken. */
  lemma RefusedExact(t: TableData, row: Row, full: Row, last: i64, e: InsertError)
    requires NumberedTo(t, row, full, last) && InsertReports(t, row, Some(e))
    ensures if exists k: nat :: FirstUnsuited(t.columns, full, k) then
        exists k: nat :: FirstUnsuited(t.columns, full, k) && e == Unsuited(t.columns[k], full)
      else e.DuplicateValue? && Taken(t, full, e.column)
    ensures AfterInsert(t, row) == t.(lastInsertId := last)
  {
    hide Numbered, RowError, NumberedTo, Suits;
    NumberedExact(t, row, full, last);
    RowErrorExact(t.columns, full);
  }

  // ----------------------------------------------------------------- Update and Delete

  /** When nothing matches nothing changes; otherwise the table is to be saved, and every index is
      that of its new rows, see IndexExact. */
  ghost predicate Refreshed(t: TableData, t': TableData, matched: bool)
  {
    if !matched then t' == t
    else
      && SameSchema(t, t') && t'.lastInsertId == t.lastInsertId && t'.dirty
      && forall c :: c in t.indexes ==> t'.indexes[c].data == IndexOf(t'.rows, c)
  }

  /** An Update that is accepted overwrites the matching rows, and is refused exactly when a row
      matches and a column is unknown. */
  lemma UpdatedTable(t: TableData, pred: RowPredicate, updates: Row)
    ensures UpdateAccepted(t, pred, updates) <==>
      || (forall i :: 0 <= i < |t.rows| ==> !pred(t.rows[i]))
      || (forall c :: c in updates ==> exists k :: 0 <= k < |t.columns| && t.columns[k].name == c)
    ensures RowsOverwritten(t.rows, pred, updates, AfterUpdate(t, pred, updates).rows)
    ensures Refreshed(t, AfterUpdate(t, pred, updates), exists i :: 0 <= i < |t.rows| && pred(t.rows[i]))
  {
    hide IndexOf, CountMatches, KnownColumn, RowsOverwritten;
    CountZero(t.rows, pred);
    UpdateExact(t, pred, updates);
    KnownColumns(t.columns, updates.Keys);
  }

  lemma DeletedTable(t: TableData, pred: RowPredicate)
    ensures OthersRemain(t.rows, pred, AfterDelete(t, pred).rows)
    ensures Refreshed(t, AfterDelete(t, pred), exists i :: 0 <= i < |t.rows| && pred(t.rows[i]))
  {
    hide IndexOf, CountMatches, OthersRemain;
    CountZero(t.rows, pred);
    DeletedExact(t, pred);
  }

  /** A table whose rows have changed is to be saved, unless the change was made by an Update that
      was refused: that one leaves the flag as it was. */
  lemma ChangedIsDirty(t: TableData, op: Op, t': TableData)
    requires Step(t, op, t') && t'.rows != t.rows
    ensures t'.dirty || (op.UpdateOp? && !UpdateAccepted(t, op.pred, op.updates))
    ensures op.UpdateOp? && !UpdateAccepted(t, op.pred, op.updates) ==> t'.dirty == t.dirty
  {
    hide IndexOf, Numbered, RowError, UpdateAccepted, CountMatches;
  }

  /** The key that SelectByIndex looks up for a literal: an integer is looked up as int64, as drawn
      and loaded numbers are, and so misses a cell that holds it as Go `int`. */
  lemma SearchExact(t: TableData, c: string, n: i64)
    requires Consistent(t) && c in t.indexes
    ensures SearchKey(Int(n)) == SearchKey(Int64(n)) == Int64(n)
    ensures forall v: Value :: !v.Int? ==> SearchKey(v) == v
    ensures forall p :: p in Lookup(t.indexes[c].data, SearchKey(Int(n))) <==>
      0 <= p < |t.rows| && Holds(t.rows[p], c, Int64(n))
  {
    hide IndexOf;
    IndexExact(t.rows, c, Int64(n));
  }
}
