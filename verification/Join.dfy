/** The hash joins. */
module Join {
  import opened Values
  import opened Schema
  import opened HashIndex
  import opened JoinSpec

  /** Where an index exists it agrees with the rows, which TableLaws.RunConsistent provides. */
  ghost predicate IndexUsable(t: TableData, column: string)
  {
    column in t.indexes ==> t.indexes[column].data == IndexOf(t.rows, column)
  }

  /** The stored index of the column if there is one, and a new one otherwise. */
  method BuildJoinIndex(table: TableData, columnName: string)
    returns (hashIndex: map<Value, seq<nat>>, reused: bool)
    requires IndexUsable(table, columnName)
    ensures hashIndex == IndexOf(table.rows, columnName)
    ensures reused <==> columnName in table.indexes
  {
    if columnName in table.indexes {
      return table.indexes[columnName].data, true;
    }
    hashIndex, reused := map[], false;
    for i := 0 to |table.rows|
      invariant hashIndex == IndexOf(table.rows[..i], columnName)
    {
      PrefixStep(table.rows, i);
      if columnName in table.rows[i] {
        hashIndex := Append(hashIndex, table.rows[i][columnName], i);
      }
    }
    assert table.rows[..|table.rows|] == table.rows;
  }

  /** Adds a row's cells under qualified names. */
  method AddQualified(joined: JoinedRow, row: Row, table: string) returns (r: JoinedRow)
    requires QualifiesApart(row, table)
    ensures r == joined + QualifiedCells(row, table)
  {
    hide QualifiedCells, QualifiesApart;
    r := joined;
    var todo := row.Keys;
    ghost var done: Row := map[];
    QualifiedNone(table);
    while todo != {}
      invariant todo !! done.Keys && todo + done.Keys == row.Keys
      invariant forall d :: d in done ==> done[d] == row[d]
      invariant QualifiesApart(done, table)
      invariant r == joined + QualifiedCells(done, table)
    {
      var c :| c in todo;
      var qualifiedName := c;
      if '.' !in c {
        qualifiedName := table + "." + c;
      }
      QualifiedStep(row, done, table, c);
      r := r[qualifiedName := row[c]];
      todo, done := todo - {c}, done[c := row[c]];
    }
    assert done == row;
  }

  lemma QualifiedNone(table: string)
    ensures QualifiesApart(map[], table) && QualifiedCells(map[], table) == map[]
  {
  }

  lemma QualifiedStep(row: Row, done: Row, table: string, c: string)
    requires QualifiesApart(row, table) && QualifiesApart(done, table) && c in row
    requires forall d :: d in done ==> d in row
    ensures QualifiesApart(done[c := row[c]], table)
    ensures QualifiedCells(done[c := row[c]], table) == QualifiedCells(done, table)[Qualified(table, c) := row[c]]
  {
    assert forall d :: d in done[c := row[c]] ==> d in row;
  }

  method CombineRows(ghost c: Condition, leftRow: Row, rightRow: Row, leftTableName: string, rightTableName: string)
    returns (joined: JoinedRow)
    requires leftTableName == c.left.name && rightTableName == c.right.name
    requires QualifiesApart(leftRow, leftTableName) && QualifiesApart(rightRow, rightTableName)
    ensures joined == Combined(c, leftRow, rightRow)
  {
    joined := AddQualified(map[], leftRow, leftTableName);
    joined := AddQualified(joined, rightRow, rightTableName);
  }

  /** Adds a row's cells under the table's name, or NULLs for all columns of the table. */
  method AddPadded(joined: JoinedRow, row: Row, table: TableData) returns (r: JoinedRow)
    ensures r == joined + Padded(row, table)
  {
    if |row| > 0 {
      r := AddPrefixed(joined, row, table.name);
    } else {
      r := AddNulls(joined, table.name, table.columns);
    }
  }

  method AddNulls(joined: JoinedRow, table: string, columns: seq<Column>) returns (r: JoinedRow)
    ensures r == joined + NullCells(table, columns)
  {
    r := joined;
    for k := 0 to |columns|
      invariant r == joined + NullCells(table, columns[..k])
    {
      assert columns[..k + 1][..k] == columns[..k];
      r := r[table + "." + columns[k].name := Null];
    }
    assert columns[..|columns|] == columns;
  }

  method AddPrefixed(joined: JoinedRow, row: Row, table: string) returns (r: JoinedRow)
    ensures r == joined + PrefixedCells(row, table)
  {
    hide PrefixedCells;
    r := joined;
    var todo := row.Keys;
    ghost var done: Row := map[];
    PrefixedNone(table);
    while todo != {}
      invariant todo !! done.Keys && todo + done.Keys == row.Keys
      invariant forall d :: d in done ==> done[d] == row[d]
      invariant r == joined + PrefixedCells(done, table)
    {
      var c :| c in todo;
      PrefixedStep(done, table, c, row[c]);
      r := r[table + "." + c := row[c]];
      todo, done := todo - {c}, done[c := row[c]];
    }
    assert done == row;
  }

  lemma PrefixedNone(table: string)
    ensures PrefixedCells(map[], table) == map[]
  {
  }

  lemma PrefixedStep(done: Row, table: string, c: string, v: Value)
    ensures PrefixedCells(done[c := v], table) == PrefixedCells(done, table)[Prefixed(table, c) := v]
  {
    PrefixInjective(table);
  }

  method CombineRowsWithNull(c: Condition, leftRow: Row, rightRow: Row) returns (joined: JoinedRow)
    ensures joined == CombinedWithNull(c, leftRow, rightRow)
  {
    joined := AddPadded(map[], leftRow, c.left);
    joined := AddPadded(joined, rightRow, c.right);
  }

  lemma FilterNothing(pred: Option<RowPredicate>)
    ensures Filter(pred, []) == []
  {
  }

  // ------------------------------------------------------------------------ phases

  /** Pairs picked by index positions. */
  ghost function PairsAt(c: Condition, l: Row, ps: seq<nat>): (s: seq<JoinedRow>)
    requires Joinable(c) && l in c.left.rows
    requires forall k :: 0 <= k < |ps| ==> ps[k] < |c.right.rows|
  {
    if ps == [] then []
    else PairsAt(c, l, ps[..|ps| - 1]) + [Combined(c, l, c.right.rows[ps[|ps| - 1]])]
  }

  /** Following the index positions of a left value gives what the nested loop gives. */
  lemma {:induction false} PositionsProbe(c: Condition, l: Row, m: nat)
    requires Joinable(c) && l in c.left.rows && m <= |c.right.rows| && c.leftColumn in l
    ensures var ps := Positions(c.right.rows[..m], c.rightColumn, l[c.leftColumn]);
      && (forall k :: 0 <= k < |ps| ==> ps[k] < |c.right.rows|)
      && PairsAt(c, l, ps) == ProbeTo(c, l, m)
  {
    if m > 0 {
      PositionsProbe(c, l, m - 1);
      PrefixStep(c.right.rows, m - 1);
      var v := l[c.leftColumn];
      var before := Positions(c.right.rows[..m - 1], c.rightColumn, v);
      assert before + [] == before && (before + [m - 1])[..|before|] == before;
    }
  }

  lemma {:induction false} NoProbe(c: Condition, l: Row, m: nat)
    requires Joinable(c) && l in c.left.rows && m <= |c.right.rows| && c.leftColumn !in l
    ensures ProbeTo(c, l, m) == []
    ensures m == |c.right.rows| ==> Probe(c, l) == []
  {
    if m > 0 {
      NoProbe(c, l, m - 1);
    }
  }

  /** What a probe of the index of the right column finds. */
  lemma ProbeFacts(c: Condition, l: Row)
    requires Joinable(c) && l in c.left.rows && c.leftColumn in l
    ensures var index, v := IndexOf(c.right.rows, c.rightColumn), l[c.leftColumn];
      && (forall k :: 0 <= k < |Lookup(index, v)| ==> Lookup(index, v)[k] < |c.right.rows|)
      && PairsAt(c, l, Lookup(index, v)) == Probe(c, l)
      && (forall j :: j in Lookup(index, v) <==> 0 <= j < |c.right.rows| && Matches(c, l, c.right.rows[j]))
      && (v in index <==> exists j :: 0 <= j < |c.right.rows| && Matches(c, l, c.right.rows[j]))
      && (v !in index ==> Probe(c, l) == [])
  {
    var v := l[c.leftColumn];
    IndexExact(c.right.rows, c.rightColumn, v);
    IndexIsScan(c.right.rows, c.rightColumn);
    assert c.right.rows[..|c.right.rows|] == c.right.rows;
    PositionsProbe(c, l, |c.right.rows|);
    assert forall j :: 0 <= j < |c.right.rows| ==>
      (Matches(c, l, c.right.rows[j]) <==> Holds(c.right.rows[j], c.rightColumn, v));
  }

  ghost predicate MatchedBefore(c: Condition, n: nat, j: nat)
    requires n <= |c.left.rows| && j < |c.right.rows|
  {
    exists i :: 0 <= i < n && Matches(c, c.left.rows[i], c.right.rows[j])
  }

  /** Phase 1 of every join: probes the index with each left row and notes who matched. */
  method ProbePhase(c: Condition, hashIndex: map<Value, seq<nat>>, pred: Option<RowPredicate>)
    returns (results: seq<JoinedRow>, matchedLeft: map<nat, bool>, matchedRight: map<nat, bool>)
    requires Joinable(c) && hashIndex == IndexOf(c.right.rows, c.rightColumn)
    ensures results == Filter(pred, Pairs(c, |c.left.rows|))
    ensures forall i :: 0 <= i < |c.left.rows| ==> (i in matchedLeft <==> LeftMatched(c, i))
    ensures forall j :: 0 <= j < |c.right.rows| ==> (j in matchedRight <==> RightMatched(c, j))
  {
    hide IndexOf, Probe, PairsAt, Filter, Passes, QualifiesApart, MatchedBefore, RightMatched, LeftMatched;
    var lefts := c.left.rows;
    results, matchedLeft, matchedRight := [], map[], map[];
    FilterNothing(pred);
    NothingMatchedBefore(c);
    for i := 0 to |lefts|
      invariant results == Filter(pred, Pairs(c, i))
      invariant forall k :: 0 <= k < |lefts| ==> (k in matchedLeft <==> k < i && LeftMatched(c, k))
      invariant forall j :: 0 <= j < |c.right.rows| ==> (j in matchedRight <==> MatchedBefore(c, i, j))
    {
      var leftRow := lefts[i];
      MatchedStep(c, i);
      FilterConcat(pred, Pairs(c, i), Probe(c, leftRow));
      if c.leftColumn !in leftRow {
        NoProbe(c, leftRow, |c.right.rows|);
        continue;
      }
      ProbeFacts(c, leftRow);
      if leftRow[c.leftColumn] in hashIndex {
        matchedLeft := matchedLeft[i := true];
        var more;
        more, matchedRight := ProbeRow(c, leftRow, hashIndex[leftRow[c.leftColumn]], pred, matchedRight);
        results := results + more;
      }
    }
  }

  lemma NothingMatchedBefore(c: Condition)
    ensures forall j :: 0 <= j < |c.right.rows| ==> !MatchedBefore(c, 0, j)
    ensures forall j :: 0 <= j < |c.right.rows| ==> (MatchedBefore(c, |c.left.rows|, j) <==> RightMatched(c, j))
  {
  }

  lemma MatchedStep(c: Condition, i: nat)
    requires i < |c.left.rows|
    ensures forall j :: 0 <= j < |c.right.rows| ==>
      (MatchedBefore(c, i + 1, j) <==> MatchedBefore(c, i, j) || Matches(c, c.left.rows[i], c.right.rows[j]))
    ensures LeftMatched(c, i) <==> exists j :: 0 <= j < |c.right.rows| && Matches(c, c.left.rows[i], c.right.rows[j])
  {
  }

  /** The inner loop: one left row against its right positions. */
  method ProbeRow(c: Condition, leftRow: Row, ps: seq<nat>, pred: Option<RowPredicate>, matched: map<nat, bool>)
    returns (results: seq<JoinedRow>, matchedRight: map<nat, bool>)
    requires Joinable(c) && leftRow in c.left.rows
    requires forall k :: 0 <= k < |ps| ==> ps[k] < |c.right.rows|
    ensures results == Filter(pred, PairsAt(c, leftRow, ps))
    ensures forall j :: j in matchedRight <==> j in matched || j in ps
  {
    hide QualifiesApart;
    results, matchedRight := [], matched;
    for k := 0 to |ps|
      invariant results == Filter(pred, PairsAt(c, leftRow, ps[..k]))
      invariant forall j :: j in matchedRight <==> j in matched || j in ps[..k]
    {
      matchedRight := matchedRight[ps[k] := true];
      var rightRow := c.right.rows[ps[k]];
      var joined := CombineRows(c, leftRow, rightRow, c.left.name, c.right.name);
      assert ps[..k + 1] == ps[..k] + [ps[k]];
      assert PairsAt(c, leftRow, ps[..k + 1]) == PairsAt(c, leftRow, ps[..k]) + [joined];
      FilterConcat(pred, PairsAt(c, leftRow, ps[..k]), [joined]);
      if pred.None? || pred.value(joined) {
        results := results + [joined];
      }
    }
    assert ps[..|ps|] == ps;
  }

  /** Phase 2 of LEFT and FULL: the left rows that matched nothing. */
  method UnmatchedLeftPhase(c: Condition, matchedLeft: map<nat, bool>, pred: Option<RowPredicate>)
    returns (results: seq<JoinedRow>)
    requires forall i :: 0 <= i < |c.left.rows| ==> (i in matchedLeft <==> LeftMatched(c, i))
    ensures results == Filter(pred, LeftOnly(c, |c.left.rows|))
  {
    hide Filter, LeftMatched, CombinedWithNull;
    results := [];
    FilterNothing(pred);
    for i := 0 to |c.left.rows|
      invariant results == Filter(pred, LeftOnly(c, i))
    {
      assert LeftOnly(c, i) + [] == LeftOnly(c, i);
      if i !in matchedLeft {
        var joined := CombineRowsWithNull(c, c.left.rows[i], map[]);
        FilterConcat(pred, LeftOnly(c, i), [joined]);
        FilterOne(pred, joined);
        if pred.None? || pred.value(joined) {
          results := results + [joined];
        }
      }
    }
  }

  /** The last phase of RIGHT and FULL: the right rows that matched nothing. */
  method UnmatchedRightPhase(c: Condition, matchedRight: map<nat, bool>, pred: Option<RowPredicate>)
    returns (results: seq<JoinedRow>)
    requires forall j :: 0 <= j < |c.right.rows| ==> (j in matchedRight <==> RightMatched(c, j))
    ensures results == Filter(pred, RightOnly(c, |c.right.rows|))
  {
    hide Filter, RightMatched, CombinedWithNull;
    results := [];
    FilterNothing(pred);
    for j := 0 to |c.right.rows|
      invariant results == Filter(pred, RightOnly(c, j))
    {
      assert RightOnly(c, j) + [] == RightOnly(c, j);
      if j !in matchedRight {
        var joined := CombineRowsWithNull(c, map[], c.right.rows[j]);
        FilterConcat(pred, RightOnly(c, j), [joined]);
        FilterOne(pred, joined);
        if pred.None? || pred.value(joined) {
          results := results + [joined];
        }
      }
    }
  }

  // ------------------------------------------------------------------------- joins

  /** The hash join of the given kind: the nested loop's rows that pass the predicate, in the
      nested loop's order. */
  method RunJoin(kind: JoinType, c: Condition, pred: Option<RowPredicate>) returns (results: seq<JoinedRow>)
    requires Joinable(c) && IndexUsable(c.right, c.rightColumn)
    ensures results == Filter(pred, NestedLoop(kind, c))
  {
    hide LeftOnly, RightOnly, Pairs, Filter, IndexOf, Joinable;
    var hashIndex, _ := BuildJoinIndex(c.right, c.rightColumn);
    var matchedLeft, matchedRight;
    results, matchedLeft, matchedRight := ProbePhase(c, hashIndex, pred);
    ghost var loop := Pairs(c, |c.left.rows|);
    if kind.Left? || kind.Full? {
      var lefts := UnmatchedLeftPhase(c, matchedLeft, pred);
      FilterConcat(pred, loop, LeftOnly(c, |c.left.rows|));
      results, loop := results + lefts, loop + LeftOnly(c, |c.left.rows|);
    }
    if kind.Right? || kind.Full? {
      var rights := UnmatchedRightPhase(c, matchedRight, pred);
      FilterConcat(pred, loop, RightOnly(c, |c.right.rows|));
      results, loop := results + rights, loop + RightOnly(c, |c.right.rows|);
    }
    assert loop == NestedLoop(kind, c);
  }

  /** Checks the ON condition and writes the full names of the columns back. */
  method ValidateJoinCondition(left: TableData, right: TableData, leftColumn: string, rightColumn: string)
    returns (r: Result<Condition, JoinError>)
    ensures r == Resolve(left, right, leftColumn, rightColumn)
    ensures r == Err(LeftColumnNotFound) <==> forall col :: col in left.columns ==> !AnswersTo(col, leftColumn)
    ensures r == Err(RightColumnNotFound) ==> forall col :: col in right.columns ==> !AnswersTo(col, rightColumn)
    ensures r == Err(IncompatibleTypes) ==> exists i: nat, j: nat ::
      && FirstToAnswer(left.columns, leftColumn, i) && FirstToAnswer(right.columns, rightColumn, j)
      && left.columns[i].typ != right.columns[j].typ
    ensures r.Ok? ==> exists i: nat, j: nat ::
      && FirstToAnswer(left.columns, leftColumn, i) && FirstToAnswer(right.columns, rightColumn, j)
      && left.columns[i].typ == right.columns[j].typ
      && r.value == Condition(left, right, left.columns[i].name, right.columns[j].name)
  {
    var l := FindJoinColumn(left.columns, leftColumn);
    var m := FindJoinColumn(right.columns, rightColumn);
    if l.None? {
      return Err(LeftColumnNotFound);
    }
    if m.None? {
      return Err(RightColumnNotFound);
    }
    if l.value.typ != m.value.typ {
      return Err(IncompatibleTypes);
    }
    return Ok(Condition(left, right, l.value.name, m.value.name));
  }

  method FindJoinColumn(columns: seq<Column>, name: string) returns (c: Option<Column>)
    ensures c == ResolveColumn(columns, name)
    ensures c.None? <==> forall col :: col in columns ==> !AnswersTo(col, name)
    ensures c.Some? ==> exists k: nat :: FirstToAnswer(columns, name, k) && c.value == columns[k]
  {
    for i := 0 to |columns|
      invariant ResolveColumn(columns, name) == ResolveColumn(columns[i..], name)
    {
      assert columns[i..][1..] == columns[i + 1..];
      if columns[i].name == name || HasSuffix(columns[i].name, "." + name) {
        return Some(columns[i]);
      }
    }
    return None;
  }

  method ExecuteJoin(left: TableData, right: TableData, leftColumn: string, rightColumn: string,
                     kind: JoinType, pred: Option<RowPredicate>)
    returns (r: Result<seq<JoinedRow>, JoinError>)
    requires Joinable(Condition(left, right, leftColumn, rightColumn))
    requires forall column :: IndexUsable(right, column)
    ensures var resolved := Resolve(left, right, leftColumn, rightColumn);
      if resolved.Err? then r == Err(resolved.error)
      else r == Ok(Filter(pred, NestedLoop(kind, resolved.value)))
  {
    hide QualifiesApart, NestedLoop, Filter, ResolveColumn;
    var resolved := ValidateJoinCondition(left, right, leftColumn, rightColumn);
    if resolved.Err? {
      return Err(resolved.error);
    }
    var results := RunJoin(kind, resolved.value, pred);
    return Ok(results);
  }
}
