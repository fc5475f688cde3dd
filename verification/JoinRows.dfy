/** The rows of a join one by one: which pairs and rows they come from, in which order, and with
    which cells. */
module JoinRows {
  import opened Values
  import opened Schema
  import opened HashIndex
  import opened JoinSpec
  import opened JoinLaws

  type Pair = (nat, nat)

  /** The rows at the two positions hold the same tagged value in the join columns. */
  ghost predicate Partners(c: Condition, i: nat, j: nat)
  {
    && i < |c.left.rows| && j < |c.right.rows|
    && c.leftColumn in c.left.rows[i] && c.rightColumn in c.right.rows[j]
    && c.left.rows[i][c.leftColumn] == c.right.rows[j][c.rightColumn]
  }

  /** By left position, then by right position. */
  predicate Before(p: Pair, q: Pair)
  {
    p.0 < q.0 || (p.0 == q.0 && p.1 < q.1)
  }

  // ---------------------------------------------------------------------------- pairs

  /** `rows` are the merged rows of exactly the pairs of partners among the first `n` left rows, each
      once, in order. */
  ghost predicate PairsAt(c: Condition, n: nat, ps: seq<Pair>, rows: seq<JoinedRow>)
    requires Joinable(c)
  {
    && |ps| == |rows| && (forall a, b :: 0 <= a < b < |ps| ==> Before(ps[a], ps[b]))
    && (forall p :: p in ps <==> p.0 < n && Partners(c, p.0, p.1))
    && (forall k :: 0 <= k < |ps| ==> MergedAt(c, ps[k], rows[k]))
  }

  ghost predicate MergedAt(c: Condition, p: Pair, row: JoinedRow)
    requires Joinable(c)
  {
    p.0 < |c.left.rows| && p.1 < |c.right.rows| && row == Combined(c, c.left.rows[p.0], c.right.rows[p.1])
  }

  /** The same for the first `m` right rows and one left row. */
  ghost predicate ProbedAt(c: Condition, i: nat, m: nat, ps: seq<Pair>, rows: seq<JoinedRow>)
    requires Joinable(c)
  {
    && |ps| == |rows| && (forall a, b :: 0 <= a < b < |ps| ==> Before(ps[a], ps[b]))
    && (forall p :: p in ps <==> p.0 == i && p.1 < m && Partners(c, p.0, p.1))
    && (forall k :: 0 <= k < |ps| ==> MergedAt(c, ps[k], rows[k]))
  }

  lemma {:induction false} ProbeExact(c: Condition, i: nat, m: nat) returns (ps: seq<Pair>)
    requires Joinable(c) && i < |c.left.rows| && m <= |c.right.rows|
    ensures ProbedAt(c, i, m, ps, ProbeTo(c, c.left.rows[i], m))
  {
    hide Joinable, Combined;
    ps := [];
    if m > 0 {
      ps := ProbeExact(c, i, m - 1);
      forall k | 0 <= k < |ps| ensures Before(ps[k], (i, m - 1)) {
        assert ps[k] in ps;
      }
      if Matches(c, c.left.rows[i], c.right.rows[m - 1]) {
        ps := ps + [(i, m - 1)];
      }
    }
  }

  lemma {:induction false} PairsExact(c: Condition, n: nat) returns (ps: seq<Pair>)
    requires Joinable(c) && n <= |c.left.rows|
    ensures PairsAt(c, n, ps, Pairs(c, n))
  {
    hide Joinable, MergedAt, ProbeTo;
    ps := [];
    if n > 0 {
      var before := PairsExact(c, n - 1);
      var last := ProbeExact(c, n - 1, |c.right.rows|);
      ps := before + last;
      forall a, b | 0 <= a < b < |ps| ensures Before(ps[a], ps[b]) {
        if a < |before| <= b {
          assert ps[a] in before && ps[b] in last;
        }
      }
    }
  }

  // ------------------------------------------------------------------------- unmatched

  /** `rows` are the padded rows of exactly the left rows without a partner, in order. */
  ghost predicate LeftAt(c: Condition, n: nat, ps: seq<nat>, rows: seq<JoinedRow>)
  {
    && |ps| == |rows| && Ascending(ps)
    && (forall p: nat :: p in ps <==> p < n && p < |c.left.rows| && forall j: nat :: !Partners(c, p, j))
    && (forall k :: 0 <= k < |ps| ==>
      ps[k] < |c.left.rows| && rows[k] == CombinedWithNull(c, c.left.rows[ps[k]], map[]))
  }

  ghost predicate RightAt(c: Condition, m: nat, ps: seq<nat>, rows: seq<JoinedRow>)
  {
    && |ps| == |rows| && Ascending(ps)
    && (forall p: nat :: p in ps <==> p < m && p < |c.right.rows| && forall i: nat :: !Partners(c, i, p))
    && (forall k :: 0 <= k < |ps| ==>
      ps[k] < |c.right.rows| && rows[k] == CombinedWithNull(c, map[], c.right.rows[ps[k]]))
  }

  lemma MatchedExact(c: Condition)
    ensures forall i :: 0 <= i < |c.left.rows| ==> (LeftMatched(c, i) <==> exists j: nat :: Partners(c, i, j))
    ensures forall j :: 0 <= j < |c.right.rows| ==> (RightMatched(c, j) <==> exists i: nat :: Partners(c, i, j))
  {
    forall i, j | 0 <= i < |c.left.rows| && 0 <= j < |c.right.rows|
      ensures Matches(c, c.left.rows[i], c.right.rows[j]) <==> Partners(c, i, j)
    {
    }
    hide Matches;
  }

  lemma {:induction false} LeftExact(c: Condition, n: nat) returns (ps: seq<nat>)
    requires n <= |c.left.rows|
    ensures LeftAt(c, n, ps, LeftOnly(c, n))
  {
    hide CombinedWithNull, LeftMatched, Partners;
    ps := [];
    if n > 0 {
      ps := LeftExact(c, n - 1);
      MatchedExact(c);
      forall k | 0 <= k < |ps| ensures ps[k] < n - 1 {
        assert ps[k] in ps;
      }
      if !LeftMatched(c, n - 1) {
        ps := ps + [n - 1];
      }
    }
  }

  lemma {:induction false} RightExact(c: Condition, m: nat) returns (ps: seq<nat>)
    requires m <= |c.right.rows|
    ensures RightAt(c, m, ps, RightOnly(c, m))
  {
    hide CombinedWithNull, RightMatched, Partners;
    ps := [];
    if m > 0 {
      ps := RightExact(c, m - 1);
      MatchedExact(c);
      forall k | 0 <= k < |ps| ensures ps[k] < m - 1 {
        assert ps[k] in ps;
      }
      if !RightMatched(c, m - 1) {
        ps := ps + [m - 1];
      }
    }
  }

  // -------------------------------------------------------------------------- the join

  /** The merged pairs; then, for LEFT and FULL, the padded left rows without a partner; then, for
      RIGHT and FULL, the padded right rows without one. */
  ghost predicate JoinedAs(kind: JoinType, c: Condition, rows: seq<JoinedRow>, ps: seq<Pair>, ls: seq<nat>,
                           rs: seq<nat>, a: nat, b: nat)
    requires Joinable(c)
  {
    && a <= b <= |rows| && PairsAt(c, |c.left.rows|, ps, rows[..a])
    && (if kind == Left || kind == Full then LeftAt(c, |c.left.rows|, ls, rows[a..b]) else a == b)
    && (if kind == Right || kind == Full then RightAt(c, |c.right.rows|, rs, rows[b..]) else b == |rows|)
  }

  lemma JoinExact(kind: JoinType, c: Condition)
    returns (ps: seq<Pair>, ls: seq<nat>, rs: seq<nat>, a: nat, b: nat)
    requires Joinable(c)
    ensures JoinedAs(kind, c, NestedLoop(kind, c), ps, ls, rs, a, b)
  {
    hide Joinable, PairsAt, LeftAt, RightAt, Pairs, LeftOnly, RightOnly;
    ps := PairsExact(c, |c.left.rows|);
    ls := LeftExact(c, |c.left.rows|);
    rs := RightExact(c, |c.right.rows|);
    var pairs := Pairs(c, |c.left.rows|);
    var left := if kind.Left? || kind.Full? then LeftOnly(c, |c.left.rows|) else [];
    var right := if kind.Right? || kind.Full? then RightOnly(c, |c.right.rows|) else [];
    var rows := NestedLoop(kind, c);
    a, b := |pairs|, |pairs| + |left|;
    assert rows == pairs + left + right;
    assert rows[..a] == pairs && rows[a..b] == left && rows[b..] == right;
  }

  // ----------------------------------------------------------------------------- cells

  /** The joined row has the row's cells under the table's name. */
  ghost predicate HasCells(joined: JoinedRow, table: string, row: Row)
  {
    forall c :: c in row ==> table + "." + c in joined && joined[table + "." + c] == row[c]
  }

  /** The joined row has NULL in all columns of the table. */
  ghost predicate HasNulls(joined: JoinedRow, t: TableData)
  {
    forall k :: 0 <= k < |t.columns| ==>
      t.name + "." + t.columns[k].name in joined && joined[t.name + "." + t.columns[k].name] == Null
  }

  ghost predicate CellName(table: string, row: Row, k: string)
  {
    exists c :: c in row && k == table + "." + c
  }

  ghost predicate ColumnName(t: TableData, k: string)
  {
    exists i :: 0 <= i < |t.columns| && k == t.name + "." + t.columns[i].name
  }

  /** The cells are those of the row under the table's name, and no other. */
  ghost predicate CellsOf(cells: JoinedRow, table: string, row: Row)
  {
    HasCells(cells, table, row) && forall k :: k in cells ==> CellName(table, row, k)
  }

  ghost predicate NullsOf(cells: JoinedRow, t: TableData)
  {
    HasNulls(cells, t) && forall k :: k in cells ==> ColumnName(t, k)
  }

  lemma QualifiedExact(row: Row, table: string)
    requires QualifiesApart(row, table) && forall c :: c in row ==> !Dotted(c)
    ensures CellsOf(QualifiedCells(row, table), table, row)
  {
    hide Dotted;
  }

  lemma PrefixedExact(row: Row, table: string)
    ensures CellsOf(PrefixedCells(row, table), table, row)
  {
    PrefixInjective(table);
  }

  lemma {:induction false} NullsExact(t: TableData, n: nat)
    requires n <= |t.columns|
    ensures var cells := NullCells(t.name, t.columns[..n]);
      && (forall k :: 0 <= k < n ==>
            t.name + "." + t.columns[k].name in cells && cells[t.name + "." + t.columns[k].name] == Null)
      && forall k :: k in cells ==> ColumnName(t, k)
  {
    if n > 0 {
      NullsExact(t, n - 1);
      assert t.columns[..n][..n - 1] == t.columns[..n - 1] && t.columns[..n][n - 1] == t.columns[n - 1];
    }
  }

  /** All names begin with the table's. */
  ghost predicate Under(cells: JoinedRow, table: string)
  {
    forall k :: k in cells ==> exists c :: k == table + "." + c
  }

  lemma CellsUnder(cells: JoinedRow, table: string, row: Row)
    requires CellsOf(cells, table, row)
    ensures Under(cells, table)
  {
    forall k | k in cells ensures exists c :: k == table + "." + c {
      assert CellName(table, row, k);
    }
  }

  lemma NullsUnder(cells: JoinedRow, t: TableData)
    requires NullsOf(cells, t)
    ensures Under(cells, t.name)
  {
    forall k | k in cells ensures exists c :: k == t.name + "." + c {
      assert ColumnName(t, k);
    }
  }

  /** Cells under different names do not overwrite each other. */
  lemma Disjoint(a: JoinedRow, b: JoinedRow, x: string, y: string)
    requires Under(a, x) && Under(b, y) && x != y && !Dotted(x) && !Dotted(y)
    ensures a.Keys !! b.Keys
  {
    hide Dotted, Prefixed;
    forall k | k in a ensures k !in b {
      var c :| k == x + "." + c;
      if k in b {
        var d :| k == y + "." + d;
        NamesDisjoint(x, y, c, d);
      }
    }
  }

  lemma NamesDisjoint(a: string, b: string, c: string, d: string)
    requires a != b && !Dotted(a) && !Dotted(b)
    ensures a + "." + c != b + "." + d
  {
    PrefixesApart(a, b);
    assert Prefixed(a, c) != Prefixed(b, d);
  }

  /** A merged pair has the cells of both rows and no other. */
  lemma MergedCells(c: Condition, l: Row, r: Row)
    requires NamesApart(c) && l in c.left.rows && r in c.right.rows
    requires QualifiesApart(l, c.left.name) && QualifiesApart(r, c.right.name)
    ensures var j := Combined(c, l, r);
      && HasCells(j, c.left.name, l) && HasCells(j, c.right.name, r)
      && forall k :: k in j ==> CellName(c.left.name, l, k) || CellName(c.right.name, r, k)
  {
    hide QualifiedCells, QualifiesApart, Dotted, CellName, Under;
    QualifiedExact(l, c.left.name);
    QualifiedExact(r, c.right.name);
    CellsUnder(QualifiedCells(l, c.left.name), c.left.name, l);
    CellsUnder(QualifiedCells(r, c.right.name), c.right.name, r);
    Disjoint(QualifiedCells(l, c.left.name), QualifiedCells(r, c.right.name), c.left.name, c.right.name);
  }

  /** What one side gives to a padded row: its cells, or NULLs when its row is empty. */
  lemma PaddedSide(row: Row, t: TableData)
    ensures row != map[] ==> CellsOf(Padded(row, t), t.name, row)
    ensures row == map[] ==> NullsOf(Padded(row, t), t)
    ensures Under(Padded(row, t), t.name)
  {
    hide CellsOf, Under;
    if row != map[] {
      PrefixedExact(row, t.name);
      CellsUnder(Padded(row, t), t.name, row);
    } else {
      assert t.columns[..|t.columns|] == t.columns;
      NullsExact(t, |t.columns|);
      NullsUnder(Padded(row, t), t);
    }
  }

  /** A padded row has the cells of its row, NULL in all columns of the other table, and no other
      cell. */
  lemma PaddedCells(c: Condition, l: Row, r: Row)
    requires NamesApart(c)
    ensures var j := CombinedWithNull(c, l, r);
      && (if l != map[] then HasCells(j, c.left.name, l) else HasNulls(j, c.left))
      && (if r != map[] then HasCells(j, c.right.name, r) else HasNulls(j, c.right))
      && (forall k :: k in j ==>
            || (if l != map[] then CellName(c.left.name, l, k) else ColumnName(c.left, k))
            || (if r != map[] then CellName(c.right.name, r, k) else ColumnName(c.right, k)))
  {
    hide Padded, Dotted, CellName, ColumnName, Under;
    PaddedSide(l, c.left);
    PaddedSide(r, c.right);
    Disjoint(Padded(l, c.left), Padded(r, c.right), c.left.name, c.right.name);
  }

  // --------------------------------------------------------------------- the ON columns

  lemma SuffixExact(k: string, name: string)
    ensures HasSuffix(k, "." + name) <==> exists q :: k == q + "." + name
  {
    var suffix := "." + name;
    if HasSuffix(k, suffix) {
      var q := k[..|k| - |suffix|];
      assert k == q + suffix == q + "." + name;
    }
    if q :| k == q + "." + name {
      assert k == q + suffix;
      assert k[|k| - |suffix|..] == suffix;
    }
  }

  /** A column answers to its name, and a qualified one to the name after a dot. */
  lemma AnswersExact(col: Column, name: string)
    ensures AnswersTo(col, name) <==> col.name == name || exists q :: col.name == q + "." + name
  {
    hide HasSuffix;
    SuffixExact(col.name, name);
  }
}
