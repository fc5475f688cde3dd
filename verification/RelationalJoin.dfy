/** The join of an already joined table with one more, by table-qualified names, and what the
    executor makes of it. */
module RelationalJoins {
  import opened Values
  import opened Schema
  import opened JoinSpec
  import opened JoinLaws

  // ----------------------------------------------------------------- qualified names

  predicate OnlyDot(name: string, i: nat)
  {
    i < |name| && name[i] == '.' && forall j :: 0 <= j < |name| && name[j] == '.' ==> j == i
  }

  /** A column name qualified once, such as "users.id". */
  ghost predicate OneDot(name: string)
  {
    exists i: nat :: OnlyDot(name, i)
  }

  ghost predicate OneDotRow(row: Row)
  {
    forall k :: k in row ==> OneDot(k)
  }

  ghost predicate OneDotRows(rows: seq<Row>)
  {
    forall row :: row in rows ==> OneDotRow(row)
  }

  ghost predicate OneDotColumns(columns: seq<Column>)
  {
    forall col :: col in columns ==> OneDot(col.name)
  }

  /** No dot in the names of a table, of its columns and of its cells. */
  ghost predicate PlainTable(t: TableData)
  {
    && !Dotted(t.name)
    && (forall col :: col in t.columns ==> !Dotted(col.name))
    && (forall row, k :: row in t.rows && k in row ==> !Dotted(k))
  }

  lemma QualifiedOnce(table: string, column: string)
    requires !Dotted(table) && !Dotted(column)
    ensures OneDot(Prefixed(table, column))
  {
    assert OnlyDot(Prefixed(table, column), |table|);
  }

  /** Qualifying a qualified name again gives a second dot. */
  lemma QualifiedTwice(alias: string, name: string)
    requires Dotted(name)
    ensures !OneDot(Prefixed(alias, name))
  {
    var p :| 0 <= p < |name| && name[p] == '.';
    var s := Prefixed(alias, name);
    assert s[|alias|] == '.' && s[|alias| + 1 + p] == name[p];
  }

  lemma OneDotDotted(row: Row, table: string)
    requires OneDotRow(row)
    ensures QualifiesApart(row, table) && QualifiedCells(row, table) == row
  {
    assert forall k :: k in row ==> Dotted(k) by {
      forall k | k in row ensures Dotted(k) {
        assert OneDot(k);
      }
    }
  }

  lemma PlainQualified(row: Row, table: string)
    requires !Dotted(table) && forall k :: k in row ==> !Dotted(k)
    ensures QualifiesApart(row, table) && QualifiedCells(row, table) == PrefixedCells(row, table)
    ensures OneDotRow(PrefixedCells(row, table))
  {
    hide OneDot;
    PrefixInjective(table);
    forall k | k in row ensures OneDot(Prefixed(table, k)) {
      QualifiedOnce(table, k);
    }
  }

  lemma {:induction false} NullCellsOneDot(table: string, columns: seq<Column>)
    requires !Dotted(table) && forall col :: col in columns ==> !Dotted(col.name)
    ensures OneDotRow(NullCells(table, columns))
  {
    hide OneDot, Dotted, Prefixed;
    if columns != [] {
      var n := |columns| - 1;
      NullCellsOneDot(table, columns[..n]);
      QualifiedOnce(table, columns[n].name);
    }
  }

  lemma PaddedOneDot(row: Row, t: TableData)
    requires PlainTable(t) && (row in t.rows || row == map[])
    ensures OneDotRow(Padded(row, t))
  {
    hide OneDotRow;
    if row == map[] {
      NullCellsOneDot(t.name, t.columns);
    } else {
      PlainQualified(row, t.name);
    }
  }

  // ------------------------------------------------------------------- the reference

  /** NULL in every column, under the names the columns already have. */
  function Nulls(columns: seq<Column>): (cells: JoinedRow)
  {
    if columns == [] then map[]
    else Nulls(columns[..|columns| - 1])[columns[|columns| - 1].name := Null]
  }

  /** The cells of a joined row under the names they already have. */
  function OwnCells(row: Row, columns: seq<Column>): (cells: JoinedRow)
  {
    if row != map[] then row else Nulls(columns)
  }

  ghost function LeftKept(c: Condition, n: nat): (s: seq<JoinedRow>)
    requires n <= |c.left.rows|
  {
    if n == 0 then []
    else
      LeftKept(c, n - 1) +
      if LeftMatched(c, n - 1) then []
      else [OwnCells(c.left.rows[n - 1], c.left.columns) + NullCells(c.right.name, c.right.columns)]
  }

  ghost function RightKept(c: Condition, m: nat): (s: seq<JoinedRow>)
    requires m <= |c.right.rows|
  {
    if m == 0 then []
    else
      RightKept(c, m - 1) +
      if RightMatched(c, m - 1) then []
      else [Nulls(c.left.columns) + Padded(c.right.rows[m - 1], c.right)]
  }

  /** The join whose left side has qualified names already: they stay as they are in matched
      rows, in unmatched rows, and in the NULLs for unmatched rows of the other side. */
  ghost function RelationalJoin(kind: JoinType, c: Condition): (s: seq<JoinedRow>)
    requires Joinable(c)
  {
    Pairs(c, |c.left.rows|)
    + (if kind.Left? || kind.Full? then LeftKept(c, |c.left.rows|) else [])
    + (if kind.Right? || kind.Full? then RightKept(c, |c.right.rows|) else [])
  }

  ghost predicate AllLeftMatched(c: Condition)
  {
    forall i :: 0 <= i < |c.left.rows| ==> LeftMatched(c, i)
  }

  ghost predicate AllRightMatched(c: Condition)
  {
    forall j :: 0 <= j < |c.right.rows| ==> RightMatched(c, j)
  }

  ghost predicate NothingMatches(c: Condition)
  {
    forall l, r :: l in c.left.rows && r in c.right.rows ==> !Matches(c, l, r)
  }

  /** An outer join keeps no row unmatched on a side that it preserves. */
  ghost predicate NonePadded(kind: JoinType, c: Condition)
  {
    && (kind.Left? || kind.Full? ==> AllLeftMatched(c))
    && (kind.Right? || kind.Full? ==> AllRightMatched(c))
  }

  /** The left side is the result of joins, the right side a table. */
  ghost predicate JoinedLeft(c: Condition)
  {
    OneDotRows(c.left.rows) && OneDotColumns(c.left.columns) && PlainTable(c.right)
  }

  lemma JoinedLeftJoinable(c: Condition)
    requires OneDotRows(c.left.rows) && PlainTable(c.right)
    ensures Joinable(c)
  {
    hide OneDotRow, QualifiesApart, Dotted;
    forall row | row in c.left.rows ensures QualifiesApart(row, c.left.name) {
      OneDotDotted(row, c.left.name);
    }
    forall row | row in c.right.rows ensures QualifiesApart(row, c.right.name) {
      PlainQualified(row, c.right.name);
    }
  }

  // --------------------------------------------------------- names in its result

  lemma {:induction false} NullsOneDot(columns: seq<Column>)
    requires OneDotColumns(columns)
    ensures OneDotRow(Nulls(columns))
  {
    hide OneDot;
    if columns != [] {
      NullsOneDot(columns[..|columns| - 1]);
    }
  }

  lemma MergedOneDot(a: Row, b: Row)
    requires OneDotRow(a) && OneDotRow(b)
    ensures OneDotRow(a + b)
  {
    hide OneDot;
  }

  lemma CombinedOneDot(c: Condition, l: Row, r: Row)
    requires OneDotRows(c.left.rows) && PlainTable(c.right) && l in c.left.rows && r in c.right.rows
    ensures QualifiesApart(l, c.left.name) && QualifiesApart(r, c.right.name)
    ensures Combined(c, l, r) == l + PrefixedCells(r, c.right.name) && OneDotRow(Combined(c, l, r))
  {
    hide OneDotRow, QualifiesApart, Dotted, QualifiedCells, PrefixedCells;
    OneDotDotted(l, c.left.name);
    PlainQualified(r, c.right.name);
    MergedOneDot(l, PrefixedCells(r, c.right.name));
  }

  lemma {:induction false} ProbeOneDot(c: Condition, l: Row, m: nat)
    requires JoinedLeft(c) && Joinable(c) && l in c.left.rows && m <= |c.right.rows|
    ensures OneDotRows(ProbeTo(c, l, m))
  {
    hide OneDotRow, QualifiesApart, PlainTable, Combined, Joinable, Matches;
    if m > 0 {
      ProbeOneDot(c, l, m - 1);
      CombinedOneDot(c, l, c.right.rows[m - 1]);
    }
  }

  lemma {:induction false} PairsOneDot(c: Condition, n: nat)
    requires JoinedLeft(c) && Joinable(c) && n <= |c.left.rows|
    ensures OneDotRows(Pairs(c, n))
  {
    hide OneDotRow, JoinedLeft, Joinable, ProbeTo;
    if n > 0 {
      PairsOneDot(c, n - 1);
      ProbeOneDot(c, c.left.rows[n - 1], |c.right.rows|);
    }
  }

  lemma {:induction false} LeftKeptOneDot(c: Condition, n: nat)
    requires JoinedLeft(c) && n <= |c.left.rows|
    ensures OneDotRows(LeftKept(c, n))
  {
    hide OneDotRow, Dotted, LeftMatched, Nulls, NullCells;
    if n > 0 {
      LeftKeptOneDot(c, n - 1);
      NullsOneDot(c.left.columns);
      NullCellsOneDot(c.right.name, c.right.columns);
      MergedOneDot(OwnCells(c.left.rows[n - 1], c.left.columns), NullCells(c.right.name, c.right.columns));
    }
  }

  lemma {:induction false} RightKeptOneDot(c: Condition, m: nat)
    requires JoinedLeft(c) && m <= |c.right.rows|
    ensures OneDotRows(RightKept(c, m))
  {
    hide OneDotRow, Dotted, RightMatched, Nulls, Padded;
    if m > 0 {
      RightKeptOneDot(c, m - 1);
      NullsOneDot(c.left.columns);
      PaddedOneDot(c.right.rows[m - 1], c.right);
      MergedOneDot(Nulls(c.left.columns), Padded(c.right.rows[m - 1], c.right));
    }
  }

  /** Every name in the result is qualified once. */
  lemma RelationalOneDot(kind: JoinType, c: Condition)
    requires JoinedLeft(c) && Joinable(c)
    ensures OneDotRows(RelationalJoin(kind, c))
  {
    hide OneDotRow, JoinedLeft, Joinable, Pairs, LeftKept, RightKept;
    PairsOneDot(c, |c.left.rows|);
    LeftKeptOneDot(c, |c.left.rows|);
    RightKeptOneDot(c, |c.right.rows|);
  }

  // ------------------------------------------------------- conditions that agree

  /** Two conditions over as many rows that match the same pairs and merge them alike. */
  ghost predicate Agree(c: Condition, d: Condition)
    requires Joinable(c) && Joinable(d)
  {
    && |c.left.rows| == |d.left.rows| && c.right == d.right
    && forall i, j :: 0 <= i < |c.left.rows| && 0 <= j < |c.right.rows| ==> AgreeAt(c, d, i, j)
  }

  ghost predicate AgreeAt(c: Condition, d: Condition, i: nat, j: nat)
    requires Joinable(c) && Joinable(d)
    requires i < |c.left.rows| == |d.left.rows| && j < |c.right.rows| && c.right == d.right
  {
    var l, l', r := c.left.rows[i], d.left.rows[i], c.right.rows[j];
    (Matches(c, l, r) <==> Matches(d, l', r)) && (Matches(c, l, r) ==> Combined(c, l, r) == Combined(d, l', r))
  }

  lemma {:induction false} ProbesAgree(c: Condition, d: Condition, i: nat, m: nat)
    requires Joinable(c) && Joinable(d) && Agree(c, d) && i < |c.left.rows| && m <= |c.right.rows|
    ensures ProbeTo(c, c.left.rows[i], m) == ProbeTo(d, d.left.rows[i], m)
  {
    hide Joinable, Matches, Combined;
    if m > 0 {
      ProbesAgree(c, d, i, m - 1);
      assert AgreeAt(c, d, i, m - 1);
    }
  }

  lemma {:induction false} PairsAgree(c: Condition, d: Condition, n: nat)
    requires Joinable(c) && Joinable(d) && Agree(c, d) && n <= |c.left.rows|
    ensures Pairs(c, n) == Pairs(d, n)
  {
    hide Joinable, AgreeAt, ProbeTo;
    if n > 0 {
      PairsAgree(c, d, n - 1);
      ProbesAgree(c, d, n - 1, |c.right.rows|);
    }
  }

  lemma MatchedAgree(c: Condition, d: Condition)
    requires Joinable(c) && Joinable(d) && Agree(c, d)
    ensures forall i :: 0 <= i < |c.left.rows| ==> (LeftMatched(c, i) <==> LeftMatched(d, i))
    ensures forall j :: 0 <= j < |c.right.rows| ==> (RightMatched(c, j) <==> RightMatched(d, j))
  {
    hide Joinable, Matches, Combined;
    forall i, j | 0 <= i < |c.left.rows| && 0 <= j < |c.right.rows|
      ensures Matches(c, c.left.rows[i], c.right.rows[j]) <==> Matches(d, d.left.rows[i], d.right.rows[j])
    {
      assert AgreeAt(c, d, i, j);
    }
  }

  // -------------------------------------------------------------- the executor's join

  /** The executor's view of the same join: the left side has some other name, and the column
      names of its schema may have been qualified again. */
  ghost predicate Relabelled(e: Condition, c: Condition)
  {
    && e.left.rows == c.left.rows && e.right == c.right && e.rightColumn == c.rightColumn
    && DottedColumns(e.left.columns)
    && (e.leftColumn == c.leftColumn || !OneDot(e.leftColumn))
  }

  predicate DottedColumns(columns: seq<Column>)
  {
    columns != [] && forall col :: col in columns ==> Dotted(col.name)
  }

  lemma TwiceInRow(alias: string, row: Row, k: string)
    requires k in row && Dotted(k)
    ensures Prefixed(alias, k) in PrefixedCells(row, alias)
  {
  }

  lemma {:induction false} NullCellsKeys(table: string, columns: seq<Column>, i: nat)
    requires i < |columns|
    ensures Prefixed(table, columns[i].name) in NullCells(table, columns)
  {
    hide Prefixed;
    var n := |columns| - 1;
    if i < n {
      NullCellsKeys(table, columns[..n], i);
    }
  }

  /** Padding an already joined row qualifies its names again. */
  lemma PaddedTwice(row: Row, t: TableData)
    requires OneDotRow(row) && DottedColumns(t.columns)
    ensures exists k :: k in Padded(row, t) && !OneDot(k)
  {
    hide PrefixedCells, NullCells, OneDot;
    if row == map[] {
      NullCellsKeys(t.name, t.columns, 0);
      QualifiedTwice(t.name, t.columns[0].name);
      assert Prefixed(t.name, t.columns[0].name) in Padded(row, t);
    } else {
      var k :| k in row;
      OneDotIsDotted(k);
      TwiceInRow(t.name, row, k);
      QualifiedTwice(t.name, k);
      assert Prefixed(t.name, k) in Padded(row, t);
    }
  }

  lemma OneDotIsDotted(k: string)
    requires OneDot(k)
    ensures Dotted(k)
  {
  }

  /** A padded row of the executor is no row of the reference. */
  lemma PaddedApart(e: Condition, l: Row, r: Row)
    requires OneDotRow(l) && DottedColumns(e.left.columns)
    ensures !OneDotRow(CombinedWithNull(e, l, r))
  {
    hide Padded, Dotted, OneDot;
    PaddedTwice(l, e.left);
    var k :| k in Padded(l, e.left) && !OneDot(k);
    assert k in CombinedWithNull(e, l, r);
  }

  lemma {:induction false} LeftOnlyApart(e: Condition, n: nat)
    requires OneDotRows(e.left.rows) && n <= |e.left.rows|
    requires DottedColumns(e.left.columns)
    ensures OneDotRows(LeftOnly(e, n)) <==> forall i :: 0 <= i < n ==> LeftMatched(e, i)
    ensures (forall i :: 0 <= i < n ==> LeftMatched(e, i)) ==> LeftOnly(e, n) == []
  {
    hide OneDotRow, LeftMatched, CombinedWithNull, Dotted;
    if n > 0 {
      LeftOnlyApart(e, n - 1);
      PaddedApart(e, e.left.rows[n - 1], map[]);
      var last := CombinedWithNull(e, e.left.rows[n - 1], map[]);
      assert !LeftMatched(e, n - 1) ==> LeftOnly(e, n) == LeftOnly(e, n - 1) + [last] && last in LeftOnly(e, n);
    }
  }

  lemma {:induction false} RightOnlyApart(e: Condition, m: nat)
    requires m <= |e.right.rows|
    requires DottedColumns(e.left.columns)
    ensures OneDotRows(RightOnly(e, m)) <==> forall j :: 0 <= j < m ==> RightMatched(e, j)
    ensures (forall j :: 0 <= j < m ==> RightMatched(e, j)) ==> RightOnly(e, m) == []
  {
    hide OneDotRow, RightMatched, CombinedWithNull, Dotted;
    if m > 0 {
      RightOnlyApart(e, m - 1);
      EmptyOneDot();
      PaddedApart(e, map[], e.right.rows[m - 1]);
      var last := CombinedWithNull(e, map[], e.right.rows[m - 1]);
      assert !RightMatched(e, m - 1) ==> RightOnly(e, m) == RightOnly(e, m - 1) + [last] && last in RightOnly(e, m);
    }
  }

  lemma EmptyOneDot()
    ensures OneDotRow(map[])
  {
  }

  lemma {:induction false} LeftKeptNone(c: Condition, n: nat)
    requires n <= |c.left.rows|
    ensures |LeftKept(c, n)| == 0 <==> forall i :: 0 <= i < n ==> LeftMatched(c, i)
  {
    hide LeftMatched, OwnCells, NullCells;
    if n > 0 {
      LeftKeptNone(c, n - 1);
    }
  }

  lemma {:induction false} RightKeptNone(c: Condition, m: nat)
    requires m <= |c.right.rows|
    ensures |RightKept(c, m)| == 0 <==> forall j :: 0 <= j < m ==> RightMatched(c, j)
  {
    hide RightMatched, Nulls, Padded;
    if m > 0 {
      RightKeptNone(c, m - 1);
    }
  }

  /** The executor's join has only once-qualified names if and only if it pads no row, and is
      then just its pairs. */
  lemma ExecutorOneDot(kind: JoinType, e: Condition)
    requires Joinable(e) && OneDotRows(e.left.rows) && PlainTable(e.right)
    requires DottedColumns(e.left.columns)
    ensures OneDotRows(NestedLoop(kind, e)) ==> NonePadded(kind, e)
    ensures NonePadded(kind, e) ==> NestedLoop(kind, e) == Pairs(e, |e.left.rows|)
  {
    hide OneDotRow, Joinable, Pairs, LeftOnly, RightOnly, LeftMatched, RightMatched, Dotted, PlainTable;
    LeftOnlyApart(e, |e.left.rows|);
    RightOnlyApart(e, |e.right.rows|);
    if OneDotRows(NestedLoop(kind, e)) {
      PartsOneDot(kind, e);
    }
  }

  lemma PartsOneDot(kind: JoinType, e: Condition)
    requires Joinable(e) && OneDotRows(NestedLoop(kind, e))
    ensures kind.Left? || kind.Full? ==> OneDotRows(LeftOnly(e, |e.left.rows|))
    ensures kind.Right? || kind.Full? ==> OneDotRows(RightOnly(e, |e.right.rows|))
  {
    hide OneDotRow, Joinable, Pairs, LeftOnly, RightOnly;
    var l, r := LeftOnly(e, |e.left.rows|), RightOnly(e, |e.right.rows|);
    assert kind.Left? || kind.Full? ==> forall row :: row in l ==> row in NestedLoop(kind, e);
    assert kind.Right? || kind.Full? ==> forall row :: row in r ==> row in NestedLoop(kind, e);
  }

  lemma {:induction false} ProbeNone(c: Condition, l: Row, m: nat)
    requires Joinable(c) && l in c.left.rows && m <= |c.right.rows| && ProbeTo(c, l, m) == []
    ensures forall j :: 0 <= j < m ==> !Matches(c, l, c.right.rows[j])
  {
    hide Joinable, Matches, Combined;
    if m > 0 {
      ProbeNone(c, l, m - 1);
    }
  }

  lemma {:induction false} PairsNone(c: Condition, n: nat)
    requires Joinable(c) && n <= |c.left.rows| && Pairs(c, n) == []
    ensures forall i, j :: 0 <= i < n && 0 <= j < |c.right.rows| ==> !Matches(c, c.left.rows[i], c.right.rows[j])
  {
    hide Joinable, Matches, ProbeTo;
    if n > 0 {
      PairsNone(c, n - 1);
      ProbeNone(c, c.left.rows[n - 1], |c.right.rows|);
    }
  }

  lemma NonePaired(c: Condition)
    requires Joinable(c) && Pairs(c, |c.left.rows|) == []
    ensures NothingMatches(c)
  {
    hide Joinable, Matches, Pairs;
    PairsNone(c, |c.left.rows|);
  }

  /** Under a twice-qualified name no row has a cell. */
  lemma HiddenNothing(e: Condition)
    requires OneDotRows(e.left.rows) && !OneDot(e.leftColumn)
    ensures NothingMatches(e)
  {
    hide OneDot;
  }

  lemma RelabelledAgree(e: Condition, c: Condition)
    requires OneDotRows(c.left.rows) && PlainTable(c.right) && Joinable(c) && Joinable(e)
    requires Relabelled(e, c) && (e.leftColumn == c.leftColumn || NothingMatches(c))
    ensures Agree(e, c)
  {
    hide Joinable, PlainTable, Combined, OneDot, DottedColumns, OneDotRows;
    if e.leftColumn != c.leftColumn {
      HiddenNothing(e);
    }
    forall i, j | 0 <= i < |e.left.rows| && 0 <= j < |e.right.rows| ensures AgreeAt(e, c, i, j) {
      CombinedOneDot(c, c.left.rows[i], c.right.rows[j]);
      CombinedOneDot(e, e.left.rows[i], e.right.rows[j]);
    }
  }

  lemma KeptNone(kind: JoinType, c: Condition)
    requires Joinable(c)
    ensures NonePadded(kind, c) ==> RelationalJoin(kind, c) == Pairs(c, |c.left.rows|)
  {
    hide Joinable, Pairs, LeftKept, RightKept, LeftMatched, RightMatched;
    LeftKeptNone(c, |c.left.rows|);
    RightKeptNone(c, |c.right.rows|);
  }

  /** The executor's join of joined rows is the relational join if and only if it pads no row, and
      its left column was not qualified again or else has no match at all. */
  lemma RelabelledIff(kind: JoinType, e: Condition, c: Condition)
    requires JoinedLeft(c) && Relabelled(e, c) && Joinable(c) && Joinable(e)
    ensures NestedLoop(kind, e) == RelationalJoin(kind, c) <==>
      (e.leftColumn == c.leftColumn || NothingMatches(c)) && NonePadded(kind, c)
  {
    hide Joinable, NestedLoop, RelationalJoin, Agree, NothingMatches, NonePadded, OneDotRows, OneDot, DottedColumns;
    ExecutorOneDot(kind, e);
    RelationalOneDot(kind, c);
    KeptNone(kind, c);
    if NestedLoop(kind, e) == RelationalJoin(kind, c) && e.leftColumn != c.leftColumn {
      HiddenNothing(e);
      PairsEmpty(e);
      PairsPart(kind, c);
      NonePaired(c);
    }
    if e.leftColumn == c.leftColumn || NothingMatches(c) {
      RelabelledAgree(e, c);
      PairsAgree(e, c, |e.left.rows|);
      SamePadding(kind, e, c);
    }
  }

  lemma SamePadding(kind: JoinType, e: Condition, c: Condition)
    requires Joinable(c) && Joinable(e) && Agree(e, c)
    ensures NonePadded(kind, e) <==> NonePadded(kind, c)
  {
    hide Joinable, LeftMatched, RightMatched, AgreeAt;
    MatchedAgree(e, c);
  }

  lemma PairsEmpty(e: Condition)
    requires Joinable(e) && NothingMatches(e)
    ensures Pairs(e, |e.left.rows|) == []
  {
    hide Joinable, Matches, Pairs;
    NoMatches(e, |e.left.rows|);
  }

  lemma PairsPart(kind: JoinType, c: Condition)
    requires Joinable(c) && RelationalJoin(kind, c) == []
    ensures Pairs(c, |c.left.rows|) == []
  {
    hide Joinable, Pairs, LeftKept, RightKept;
  }
}
