/** The meaning of the four joins: a nested loop over both tables. */
module JoinSpec {
  import opened Values
  import opened Schema

  datatype JoinType = Inner | Left | Right | Full

  /** Cells by qualified column name, such as "users.id". */
  type JoinedRow = Row

  /** Two tables and the column of each that must be equal. */
  datatype Condition = Condition(left: TableData, right: TableData, leftColumn: string, rightColumn: string)

  // ------------------------------------------------------------------ column names

  predicate Dotted(name: string)
  {
    '.' in name
  }

  function Prefixed(table: string, column: string): (name: string)
  {
    table + "." + column
  }

  /** combineRows leaves names that already contain a dot alone. */
  function Qualified(table: string, column: string): (name: string)
  {
    if Dotted(column) then column else Prefixed(table, column)
  }

  /** Qualification maps no two columns of the row to one name. */
  ghost predicate QualifiesApart(row: Row, table: string)
  {
    forall c, d :: c in row && d in row && Qualified(table, c) == Qualified(table, d) ==> c == d
  }

  lemma PrefixedInjective(table: string, c: string, d: string)
    requires Prefixed(table, c) == Prefixed(table, d)
    ensures c == d
  {
    assert c == Prefixed(table, c)[|table| + 1..];
    assert d == Prefixed(table, d)[|table| + 1..];
  }

  lemma PrefixInjective(table: string)
    ensures forall c, d :: Prefixed(table, c) == Prefixed(table, d) ==> c == d
  {
    forall c, d | Prefixed(table, c) == Prefixed(table, d) ensures c == d {
      PrefixedInjective(table, c, d);
    }
  }

  // ----------------------------------------------------------------- combined rows

  ghost function QualifiedCells(row: Row, table: string): (cells: JoinedRow)
    requires QualifiesApart(row, table)
  {
    map c | c in row :: Qualified(table, c) := row[c]
  }

  ghost function PrefixedCells(row: Row, table: string): (cells: JoinedRow)
  {
    PrefixInjective(table);
    map c | c in row :: Prefixed(table, c) := row[c]
  }

  /** A matching pair, merged. */
  ghost function Combined(c: Condition, l: Row, r: Row): (j: JoinedRow)
    requires QualifiesApart(l, c.left.name) && QualifiesApart(r, c.right.name)
  {
    QualifiedCells(l, c.left.name) + QualifiedCells(r, c.right.name)
  }

  function NullCells(table: string, columns: seq<Column>): (cells: JoinedRow)
  {
    if columns == [] then map[]
    else NullCells(table, columns[..|columns| - 1])[Prefixed(table, columns[|columns| - 1].name) := Null]
  }

  /** A row's cells, or NULL in all columns of the table when the row has no cells. */
  ghost function Padded(row: Row, t: TableData): (cells: JoinedRow)
  {
    if row != map[] then PrefixedCells(row, t.name) else NullCells(t.name, t.columns)
  }

  ghost function CombinedWithNull(c: Condition, l: Row, r: Row): (j: JoinedRow)
  {
    Padded(l, c.left) + Padded(r, c.right)
  }

  // ------------------------------------------------------------------- nested loop

  /** All rows of both tables can be qualified without collisions. */
  ghost predicate Joinable(c: Condition)
  {
    && (forall row :: row in c.left.rows ==> QualifiesApart(row, c.left.name))
    && (forall row :: row in c.right.rows ==> QualifiesApart(row, c.right.name))
  }

  /** Rows without the join column never match. */
  predicate Matches(c: Condition, l: Row, r: Row)
  {
    c.leftColumn in l && c.rightColumn in r && l[c.leftColumn] == r[c.rightColumn]
  }

  /** The first `m` right rows that match one left row, in order. */
  ghost function ProbeTo(c: Condition, l: Row, m: nat): (s: seq<JoinedRow>)
    requires Joinable(c) && l in c.left.rows && m <= |c.right.rows|
  {
    if m == 0 then []
    else
      ProbeTo(c, l, m - 1) +
      if Matches(c, l, c.right.rows[m - 1]) then [Combined(c, l, c.right.rows[m - 1])] else []
  }

  ghost function Probe(c: Condition, l: Row): (s: seq<JoinedRow>)
    requires Joinable(c) && l in c.left.rows
  {
    ProbeTo(c, l, |c.right.rows|)
  }

  /** Matching pairs of the first `n` left rows, in left-then-right order. */
  ghost function Pairs(c: Condition, n: nat): (s: seq<JoinedRow>)
    requires Joinable(c) && n <= |c.left.rows|
  {
    if n == 0 then [] else Pairs(c, n - 1) + Probe(c, c.left.rows[n - 1])
  }

  ghost predicate LeftMatched(c: Condition, i: nat)
    requires i < |c.left.rows|
  {
    exists j :: 0 <= j < |c.right.rows| && Matches(c, c.left.rows[i], c.right.rows[j])
  }

  ghost predicate RightMatched(c: Condition, j: nat)
    requires j < |c.right.rows|
  {
    exists i :: 0 <= i < |c.left.rows| && Matches(c, c.left.rows[i], c.right.rows[j])
  }

  /** The unmatched ones of the first `n` left rows. */
  ghost function LeftOnly(c: Condition, n: nat): (s: seq<JoinedRow>)
    requires n <= |c.left.rows|
  {
    if n == 0 then []
    else LeftOnly(c, n - 1) + if LeftMatched(c, n - 1) then [] else [CombinedWithNull(c, c.left.rows[n - 1], map[])]
  }

  ghost function RightOnly(c: Condition, m: nat): (s: seq<JoinedRow>)
    requires m <= |c.right.rows|
  {
    if m == 0 then []
    else RightOnly(c, m - 1) + if RightMatched(c, m - 1) then [] else [CombinedWithNull(c, map[], c.right.rows[m - 1])]
  }

  /** Matching pairs, then unmatched left rows, then unmatched right rows. */
  ghost function NestedLoop(kind: JoinType, c: Condition): (s: seq<JoinedRow>)
    requires Joinable(c)
  {
    Pairs(c, |c.left.rows|)
    + (if kind.Left? || kind.Full? then LeftOnly(c, |c.left.rows|) else [])
    + (if kind.Right? || kind.Full? then RightOnly(c, |c.right.rows|) else [])
  }

  // -------------------------------------------------------------------- predicates

  predicate Passes(pred: Option<RowPredicate>, row: JoinedRow)
  {
    pred.Some? ==> pred.value(row)
  }

  function Filter(pred: Option<RowPredicate>, rows: seq<JoinedRow>): (s: seq<JoinedRow>)
  {
    if rows == [] then []
    else
      var n := |rows| - 1;
      Filter(pred, rows[..n]) + if Passes(pred, rows[n]) then [rows[n]] else []
  }

  lemma {:induction false} FilterConcat(pred: Option<RowPredicate>, a: seq<JoinedRow>, b: seq<JoinedRow>)
    ensures Filter(pred, a + b) == Filter(pred, a) + Filter(pred, b)
  {
    if b == [] {
      assert a + b == a;
    } else {
      var n := |b| - 1;
      assert (a + b)[..|a| + n] == a + b[..n];
      FilterConcat(pred, a, b[..n]);
    }
  }

  lemma FilterOne(pred: Option<RowPredicate>, row: JoinedRow)
    ensures Filter(pred, [row]) == if Passes(pred, row) then [row] else []
  {
    assert [row][..0] == [];
  }

  lemma {:induction false} FilterNone(rows: seq<JoinedRow>)
    ensures Filter(None, rows) == rows
  {
    if rows != [] {
      FilterNone(rows[..|rows| - 1]);
    }
  }

  // -------------------------------------------------------------- the ON condition

  datatype JoinError = LeftColumnNotFound | RightColumnNotFound | IncompatibleTypes

  predicate HasSuffix(s: string, suffix: string)
  {
    |suffix| <= |s| && s[|s| - |suffix|..] == suffix
  }

  /** The column has the name, or a qualified name that ends in it. */
  predicate AnswersTo(col: Column, name: string)
  {
    col.name == name || HasSuffix(col.name, "." + name)
  }

  ghost predicate FirstToAnswer(columns: seq<Column>, name: string, k: nat)
  {
    k < |columns| && AnswersTo(columns[k], name) && forall j :: 0 <= j < k ==> !AnswersTo(columns[j], name)
  }

  function ResolveColumn(columns: seq<Column>, name: string): (c: Option<Column>)
    ensures c.None? <==> forall col :: col in columns ==> !AnswersTo(col, name)
    ensures c.Some? ==> exists k: nat :: FirstToAnswer(columns, name, k) && c.value == columns[k]
  {
    if columns == [] then None
    else if AnswersTo(columns[0], name) then
      assert FirstToAnswer(columns, name, 0);
      Some(columns[0])
    else
      var c := ResolveColumn(columns[1..], name);
      assert c.Some? ==> exists k: nat :: FirstToAnswer(columns, name, k) && c.value == columns[k] by {
        if c.Some? {
          ghost var k: nat :| FirstToAnswer(columns[1..], name, k) && c.value == columns[1..][k];
          assert FirstToAnswer(columns, name, k + 1);
        }
      }
      c
  }

  function Resolve(left: TableData, right: TableData, leftColumn: string, rightColumn: string)
    : (r: Result<Condition, JoinError>)
  {
    var l, r := ResolveColumn(left.columns, leftColumn), ResolveColumn(right.columns, rightColumn);
    if l.None? then Err(LeftColumnNotFound)
    else if r.None? then Err(RightColumnNotFound)
    else if l.value.typ != r.value.typ then Err(IncompatibleTypes)
    else Ok(Condition(left, right, l.value.name, r.value.name))
  }
}
