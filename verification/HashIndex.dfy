/** The hash index of one column, built row by row, and what it means for a scan. */
module HashIndex {
  import opened Values

  function Lookup(data: map<Value, seq<nat>>, v: Value): (ps: seq<nat>)
  {
    if v in data then data[v] else []
  }

  /** Go's `data[v] = append(data[v], pos)`. */
  function Append(data: map<Value, seq<nat>>, v: Value, pos: nat): (d: map<Value, seq<nat>>)
  {
    data[v := Lookup(data, v) + [pos]]
  }

  /** The index entry for a row at position `pos`, if the row has the column. */
  function AddRow(data: map<Value, seq<nat>>, row: Row, col: string, pos: nat): (d: map<Value, seq<nat>>)
  {
    if col in row then Append(data, row[col], pos) else data
  }

  /** The index of column `col` after all rows, in order. */
  function IndexOf(rows: seq<Row>, col: string): (d: map<Value, seq<nat>>)
  {
    if rows == [] then map[]
    else AddRow(IndexOf(rows[..|rows| - 1], col), rows[|rows| - 1], col, |rows| - 1)
  }

  predicate Holds(row: Row, col: string, v: Value)
  {
    col in row && row[col] == v
  }

  /** The positions a full scan finds, in scan order. */
  function Positions(rows: seq<Row>, col: string, v: Value): (ps: seq<nat>)
  {
    if rows == [] then []
    else
      var n := |rows| - 1;
      Positions(rows[..n], col, v) + if Holds(rows[n], col, v) then [n] else []
  }

  ghost predicate Ascending(ps: seq<nat>)
  {
    forall i, j :: 0 <= i < j < |ps| ==> ps[i] < ps[j]
  }

  /** A scan lists, in strictly ascending order, exactly the positions of the rows that hold
      the value. */
  lemma {:induction false} PositionsExact(rows: seq<Row>, col: string, v: Value)
    ensures Ascending(Positions(rows, col, v))
    ensures forall p :: p in Positions(rows, col, v) <==> 0 <= p < |rows| && Holds(rows[p], col, v)
  {
    if rows != [] {
      var n := |rows| - 1;
      var before := Positions(rows[..n], col, v);
      PositionsExact(rows[..n], col, v);
      forall i | 0 <= i < |before| ensures before[i] < n { assert before[i] in before; }
      forall p: nat ensures p in Positions(rows, col, v) <==> p < |rows| && Holds(rows[p], col, v) {
        assert p in Positions(rows, col, v) <==> p in before || (Holds(rows[n], col, v) && p == n);
        if p < n { assert rows[..n][p] == rows[p]; }
      }
    }
  }

  lemma {:induction false} IndexIsScan(rows: seq<Row>, col: string)
    ensures forall v :: Lookup(IndexOf(rows, col), v) == Positions(rows, col, v)
    ensures forall v :: v in IndexOf(rows, col) <==> Positions(rows, col, v) != []
  {
    if rows != [] {
      IndexIsScan(rows[..|rows| - 1], col);
    }
  }

  /** The index maps each value to exactly the strictly ascending list of positions whose row
      holds it, and has no other key. */
  lemma IndexExact(rows: seq<Row>, col: string, v: Value)
    ensures v in IndexOf(rows, col) <==> exists p :: 0 <= p < |rows| && Holds(rows[p], col, v)
    ensures Ascending(Lookup(IndexOf(rows, col), v))
    ensures forall p :: p in Lookup(IndexOf(rows, col), v) <==> 0 <= p < |rows| && Holds(rows[p], col, v)
  {
    var ps := Positions(rows, col, v);
    IndexIsScan(rows, col);
    PositionsExact(rows, col, v);
    if ps != [] {
      assert ps[0] in ps;
    }
    if p :| 0 <= p < |rows| && Holds(rows[p], col, v) {
      assert p in ps;
    }
  }

  /** No two rows hold the same value in the column. */
  predicate Distinct(rows: seq<Row>, col: string)
  {
    forall i, j :: 0 <= i < j < |rows| && col in rows[i] && col in rows[j] ==> rows[i][col] != rows[j][col]
  }

  /** Distinctness read off the index: no value has two positions. */
  lemma DistinctInIndex(rows: seq<Row>, col: string)
    ensures Distinct(rows, col) <==> forall v :: v in IndexOf(rows, col) ==> |IndexOf(rows, col)[v]| == 1
  {
    var d := IndexOf(rows, col);
    if v :| v in d && |d[v]| != 1 {
      IndexExact(rows, col, v);
      var ps := Lookup(d, v);
      assert ps != [] && ps[0] in ps && ps[1] in ps;
      assert rows[ps[0]][col] == rows[ps[1]][col];
    }
    if i, j :| 0 <= i < j < |rows| && col in rows[i] && col in rows[j] && rows[i][col] == rows[j][col] {
      IndexExact(rows, col, rows[i][col]);
      assert i in d[rows[i][col]] && j in d[rows[i][col]];
    }
  }

  /** A row may be added exactly when the index does not know its value yet. */
  lemma DistinctStep(rows: seq<Row>, row: Row, col: string)
    ensures Distinct(rows + [row], col) <==>
      Distinct(rows, col) && (col in row ==> row[col] !in IndexOf(rows, col))
  {
    var all := rows + [row];
    if Distinct(all, col) {
      assert forall i :: 0 <= i < |rows| ==> all[i] == rows[i];
      if col in row {
        IndexExact(rows, col, row[col]);
        assert all[|rows|] == row;
      }
    } else if Distinct(rows, col) {
      var i, j :| 0 <= i < j < |all| && col in all[i] && col in all[j] && all[i][col] == all[j][col];
      assert j == |rows|;
      IndexExact(rows, col, row[col]);
      assert Holds(rows[i], col, row[col]);
    }
  }

  /** Dropping the last row. */
  lemma PrefixStep(rows: seq<Row>, n: nat)
    requires n < |rows|
    ensures rows[..n + 1][..n] == rows[..n] && rows[..n + 1][n] == rows[n]
  {
  }
}
