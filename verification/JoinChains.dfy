/** Several joins in one SELECT against the relational joins they are meant to be. */
module JoinChains {
  import opened Values
  import opened Schema
  import opened JoinSpec
  import opened JoinLaws
  import opened OnQualifiers
  import opened Ast
  import opened Planner
  import opened Executor
  import opened QueryLaws
  import opened RelationalJoins

  /** No dot in any name of the database. */
  ghost predicate PlainData(data: Data)
  {
    forall n :: n in data ==> PlainTable(Side(n, data))
  }

  ghost predicate PlainClauses(name: string, cs: seq<Clause>, data: Data)
  {
    name in data && forall k :: 0 <= k < |cs| ==> cs[k].table in data && !Dotted(cs[k].leftColumn)
  }

  lemma PlainMergeable(data: Data)
    requires PlainData(data)
    ensures Mergeable(data)
  {
    forall n, row, k | n in data && row in data[n].rows && k in row ensures !Dotted(k) {
      assert PlainTable(Side(n, data)) && row in Side(n, data).rows;
    }
    UndottedMergeable(data);
  }

  // ------------------------------------------------------------------- the reference

  /** The rows of a table under qualified names. */
  ghost function OwnRows(t: TableData): (rows: seq<Row>)
    ensures |rows| == |t.rows|
  {
    seq(|t.rows|, i requires 0 <= i < |t.rows| => PrefixedCells(t.rows[i], t.name))
  }

  /** The columns of all tables, each qualified once. */
  function QualifiedSchema(name: string, cs: seq<Clause>, data: Data): (columns: seq<Column>)
    requires name in data && forall k :: 0 <= k < |cs| ==> cs[k].table in data
    decreases |cs|
  {
    if cs == [] then QualifiedColumns(name, data[name].columns)
    else
      var n := |cs| - 1;
      QualifiedSchema(name, cs[..n], data) + QualifiedColumns(cs[n].table, data[cs[n].table].columns)
  }

  /** The last of the joins, given the rows before it. */
  ghost function NextJoin(before: seq<Row>, name: string, cs: seq<Clause>, data: Data)
    : (r: Result<Condition, QueryError>)
    requires PlainData(data) && PlainClauses(name, cs, data) && cs != [] && OneDotRows(before)
    ensures r.Ok? ==> JoinedLeft(r.value) && Joinable(r.value)
  {
    var n := |cs| - 1;
    var left := TempTable("", Intermediate(before, QualifiedSchema(name, cs[..n], data)));
    var c := Resolve(left, Side(cs[n].table, data), cs[n].leftColumn, cs[n].rightColumn);
    if c.Err? then Err(JoinFailed(c.error))
    else
      SchemaOneDot(name, cs[..n], data);
      ResolvedTables(left, Side(cs[n].table, data), cs[n].leftColumn, cs[n].rightColumn);
      JoinedLeftJoinable(c.value);
      Ok(c.value)
  }

  /** FROM and any number of JOINs by table-qualified names alone. The cells of a table that is
      joined twice have one name, and the later ones are kept. */
  ghost function Relational(name: string, cs: seq<Clause>, data: Data): (r: Result<seq<Row>, QueryError>)
    requires PlainData(data) && PlainClauses(name, cs, data)
    ensures r.Ok? ==> OneDotRows(r.value)
    decreases |cs|
  {
    if cs == [] then
      OwnRowsOneDot(Side(name, data));
      Ok(OwnRows(Side(name, data)))
    else
      var before :- Relational(name, cs[..|cs| - 1], data);
      var c :- NextJoin(before, name, cs, data);
      RelationalOneDot(cs[|cs| - 1].kind, c);
      Ok(RelationalJoin(cs[|cs| - 1].kind, c))
  }

  /** The last of the joins: what is before it, and its table. */
  ghost function LastJoin(name: string, cs: seq<Clause>, data: Data): (r: Result<Condition, QueryError>)
    requires PlainData(data) && PlainClauses(name, cs, data) && cs != []
    ensures r.Ok? ==> JoinedLeft(r.value) && Joinable(r.value)
  {
    var before :- Relational(name, cs[..|cs| - 1], data);
    NextJoin(before, name, cs, data)
  }

  lemma OwnRowsOneDot(t: TableData)
    requires PlainTable(t)
    ensures OneDotRows(OwnRows(t))
  {
    hide OneDotRow, Dotted, PrefixedCells;
    forall i | 0 <= i < |t.rows| ensures OneDotRow(OwnRows(t)[i]) {
      PlainQualified(t.rows[i], t.name);
    }
  }

  lemma QualifiedOneDot(table: string, columns: seq<Column>)
    requires !Dotted(table) && forall col :: col in columns ==> !Dotted(col.name)
    ensures OneDotColumns(QualifiedColumns(table, columns))
  {
    hide OneDot, Dotted;
    forall i | 0 <= i < |columns| ensures OneDot(QualifiedColumns(table, columns)[i].name) {
      QualifiedOnce(table, columns[i].name);
    }
  }

  lemma {:induction false} SchemaOneDot(name: string, cs: seq<Clause>, data: Data)
    requires PlainData(data) && PlainClauses(name, cs, data)
    ensures OneDotColumns(QualifiedSchema(name, cs, data))
    decreases |cs|
  {
    hide OneDot, Dotted, QualifiedColumns;
    if cs == [] {
      assert PlainTable(Side(name, data));
      QualifiedOneDot(name, data[name].columns);
    } else {
      var n := |cs| - 1;
      SchemaOneDot(name, cs[..n], data);
      assert PlainTable(Side(cs[n].table, data));
      QualifiedOneDot(cs[n].table, data[cs[n].table].columns);
    }
  }

  /** An ON column of the third or a later join that is found in a table before the last one
      joined. */
  ghost predicate Hidden(name: string, cs: seq<Clause>, data: Data)
    requires PlainClauses(name, cs, data)
  {
    |cs| >= 3 && ResolveColumn(QualifiedSchema(name, cs[..|cs| - 2], data), cs[|cs| - 1].leftColumn).Some?
  }

  /** The last join finds its columns and pads no row. */
  ghost predicate KeepsMeaning(name: string, cs: seq<Clause>, data: Data)
    requires PlainData(data) && PlainClauses(name, cs, data) && cs != []
  {
    var c := LastJoin(name, cs, data);
    c.Ok? ==> (Hidden(name, cs, data) ==> NothingMatches(c.value)) && NonePadded(cs[|cs| - 1].kind, c.value)
  }

  // ---------------------------------------------------------- the executor's schema

  /** A column of the executor's schema and the column it stands for. */
  ghost predicate StandsFor(e: Column, s: Column, hidden: bool)
  {
    && e.typ == s.typ && Dotted(e.name) && OneDot(s.name)
    && (if hidden then !OneDot(e.name) else e.name == s.name)
    && forall a :: !Dotted(a) ==> (AnswersTo(e, a) <==> AnswersTo(s, a))
  }

  /** The first `h` columns are hidden. */
  ghost predicate Tracks(e: seq<Column>, s: seq<Column>, h: nat)
  {
    |e| == |s| && h <= |s| && forall i :: 0 <= i < |s| ==> StandsFor(e[i], s[i], i < h)
  }

  /** After the dot of an undotted suffix there is no other dot. */
  lemma LastDot(s: string, a: string)
    requires HasSuffix(s, "." + a) && !Dotted(a)
    ensures forall i :: |s| - |a| <= i < |s| ==> s[i] != '.'
  {
    forall i | |s| - |a| <= i < |s| ensures s[i] != '.' {
      assert s[i] == s[|s| - |a| - 1..][i - (|s| - |a| - 1)] == a[i - (|s| - |a|)];
      assert a[i - (|s| - |a|)] in a;
    }
  }

  lemma RequalifiedAnswers(alias: string, name: string, a: string)
    requires Dotted(name) && !Dotted(a)
    ensures HasSuffix(Prefixed(alias, name), "." + a) <==> HasSuffix(name, "." + a)
  {
    var s, t := Prefixed(alias, name), "." + a;
    var p :| 0 <= p < |name| && name[p] == '.';
    assert s[|alias| + 1 + p] == '.';
    if |t| <= |name| {
      assert s[|s| - |t|..] == name[|name| - |t|..];
    } else if HasSuffix(s, t) {
      LastDot(s, a);
    }
  }

  lemma Requalified(alias: string, e: Column, e': Column, s: Column, hidden: bool)
    requires StandsFor(e, s, hidden) && e'.typ == e.typ && e'.name == Prefixed(alias, e.name)
    ensures StandsFor(e', s, true)
  {
    hide OneDot, HasSuffix;
    QualifiedTwice(alias, e.name);
    forall a | !Dotted(a) ensures AnswersTo(e', a) <==> AnswersTo(s, a) {
      RequalifiedAnswers(alias, e.name, a);
    }
  }

  lemma QualifiedStands(table: string, columns: seq<Column>)
    requires !Dotted(table) && forall col :: col in columns ==> !Dotted(col.name)
    ensures Tracks(QualifiedColumns(table, columns), QualifiedColumns(table, columns), 0)
  {
    hide OneDot, AnswersTo;
    forall i | 0 <= i < |columns|
      ensures StandsFor(QualifiedColumns(table, columns)[i], QualifiedColumns(table, columns)[i], false)
    {
      QualifiedOnce(table, columns[i].name);
    }
  }

  lemma RequalifiedTracks(alias: string, e: seq<Column>, s: seq<Column>, h: nat)
    requires Tracks(e, s, h)
    ensures Tracks(QualifiedColumns(alias, e), s, |s|)
  {
    hide StandsFor;
    forall i | 0 <= i < |s| ensures StandsFor(QualifiedColumns(alias, e)[i], s[i], true) {
      Requalified(alias, e[i], QualifiedColumns(alias, e)[i], s[i], i < h);
    }
  }

  lemma TracksConcat(e: seq<Column>, s: seq<Column>, h: nat, last: seq<Column>)
    requires Tracks(e, s, h) && Tracks(last, last, 0)
    ensures Tracks(e + last, s + last, h)
  {
    hide StandsFor;
    forall i | 0 <= i < |s| + |last| ensures StandsFor((e + last)[i], (s + last)[i], i < h) {
      if i >= |s| {
        assert (e + last)[i] == last[i - |s|] == (s + last)[i];
      }
    }
  }

  /** Columns that answer alike are found at one place. */
  lemma {:induction false} ResolveTogether(e: seq<Column>, s: seq<Column>, a: string) returns (k: nat)
    requires |e| == |s| && forall i :: 0 <= i < |s| ==> (AnswersTo(e[i], a) <==> AnswersTo(s[i], a))
    ensures ResolveColumn(e, a).None? <==> ResolveColumn(s, a).None?
    ensures ResolveColumn(s, a).Some? ==>
      FirstToAnswer(s, a, k) && ResolveColumn(e, a) == Some(e[k]) && ResolveColumn(s, a) == Some(s[k])
  {
    hide AnswersTo;
    k := 0;
    if s != [] && !AnswersTo(s[0], a) {
      var j := ResolveTogether(e[1..], s[1..], a);
      k := j + 1;
    }
  }

  /** Both schemas resolve a name to the same column, which is hidden or not by its place. */
  lemma ResolveTracks(e: seq<Column>, s: seq<Column>, h: nat, a: string)
    requires Tracks(e, s, h) && !Dotted(a)
    ensures var x, y := ResolveColumn(e, a), ResolveColumn(s, a);
      && (x.None? <==> y.None?)
      && (x.Some? ==> StandsFor(x.value, y.value, ResolveColumn(s[..h], a).Some?))
  {
    hide AnswersTo, OneDot, Dotted, ResolveColumn;
    forall i | 0 <= i < |s| ensures AnswersTo(e[i], a) <==> AnswersTo(s[i], a) {
      assert StandsFor(e[i], s[i], i < h);
    }
    var k := ResolveTogether(e, s, a);
    if ResolveColumn(s, a).Some? {
      FirstPart(s, a, h, k);
    }
  }

  lemma FirstPart(s: seq<Column>, a: string, h: nat, k: nat)
    requires h <= |s| && FirstToAnswer(s, a, k)
    ensures ResolveColumn(s[..h], a).Some? <==> k < h
  {
    hide AnswersTo;
    if k < h {
      assert s[..h][k] == s[k] && s[k] in s[..h];
    }
  }

  // ------------------------------------------------------------ chains and references

  /** The last join as the executor sees it. */
  ghost function ExecutorJoin(name: string, cs: seq<Clause>, data: Data, labels: Labels)
    : (r: Result<Condition, JoinError>)
    requires Mergeable(data) && PlainClauses(name, cs, data) && cs != []
    requires Chain(name, cs[..|cs| - 1], data, labels).Ok?
  {
    var n := |cs| - 1;
    var left := TempTable(if n == 0 then name else labels(cs[..n]), Chain(name, cs[..n], data, labels).value);
    Resolve(left, Side(cs[n].table, data), cs[n].leftColumn, cs[n].rightColumn)
  }

  /** How many columns of the executor's schema are hidden after the joins. */
  function HiddenColumns(name: string, cs: seq<Clause>, data: Data): (h: nat)
    requires PlainClauses(name, cs, data)
  {
    if |cs| <= 1 then 0 else |QualifiedSchema(name, cs[..|cs| - 1], data)|
  }

  lemma ChainStep(name: string, cs: seq<Clause>, data: Data, labels: Labels)
    requires Mergeable(data) && PlainClauses(name, cs, data) && cs != []
    requires Chain(name, cs[..|cs| - 1], data, labels).Ok?
    ensures var c, r := ExecutorJoin(name, cs, data, labels), Chain(name, cs, data, labels);
      && (c.Err? ==> r == Err(JoinFailed(c.error)))
      && (c.Ok? ==>
            && c.value.left.name == (if |cs| == 1 then name else labels(cs[..|cs| - 1]))
            && Joinable(c.value) && c.value.right == Side(cs[|cs| - 1].table, data)
            && c.value.left.rows == Chain(name, cs[..|cs| - 1], data, labels).value.rows
            && r.Ok? && r.value.rows == NestedLoop(cs[|cs| - 1].kind, c.value)
            && r.value.columns == QualifiedColumns(c.value.left.name, c.value.left.columns)
                                  + QualifiedColumns(cs[|cs| - 1].table, data[cs[|cs| - 1].table].columns)
            && c.value.left.columns == Chain(name, cs[..|cs| - 1], data, labels).value.columns)
  {
    hide NestedLoop, ResolveColumn, QualifiedColumns, QualifiesApart;
  }

  lemma ChainBefore(name: string, cs: seq<Clause>, data: Data, labels: Labels)
    requires Mergeable(data) && PlainClauses(name, cs, data) && cs != []
    ensures Chain(name, [], data, labels) == Ok(Intermediate(data[name].rows, data[name].columns))
    ensures Chain(name, cs, data, labels).Ok? ==> Chain(name, cs[..|cs| - 1], data, labels).Ok?
    ensures var before := Chain(name, cs[..|cs| - 1], data, labels);
      before.Err? ==> Chain(name, cs, data, labels) == Err(before.error)
  {
    hide JoinResult, Mergeable;
  }

  /** After the first join a schema is qualified once, and after each further join all of it but
      the last table's columns once more. */
  lemma {:induction false} ChainSchema(name: string, cs: seq<Clause>, data: Data, labels: Labels)
    requires PlainData(data) && Mergeable(data) && PlainClauses(name, cs, data) && cs != []
    requires Chain(name, cs, data, labels).Ok?
    ensures var e := Chain(name, cs, data, labels).value.columns;
      Tracks(e, QualifiedSchema(name, cs, data), HiddenColumns(name, cs, data))
    decreases |cs|
  {
    hide Chain, Mergeable, Tracks, PlainTable, QualifiedColumns, PlainData, Joinable, NestedLoop;
    var n := |cs| - 1;
    ChainBefore(name, cs, data, labels);
    ChainStep(name, cs, data, labels);
    var s, last := QualifiedSchema(name, cs[..n], data), QualifiedColumns(cs[n].table, data[cs[n].table].columns);
    PlainStands(cs[n].table, data);
    if n == 0 {
      assert cs[..0] == [];
      PlainStands(name, data);
      TracksConcat(s, s, 0, last);
    } else {
      ChainSchema(name, cs[..n], data, labels);
      var e := Chain(name, cs[..n], data, labels).value.columns;
      RequalifiedTracks(labels(cs[..n]), e, s, HiddenColumns(name, cs[..n], data));
      TracksConcat(QualifiedColumns(labels(cs[..n]), e), s, |s|, last);
    }
  }

  lemma PlainStands(table: string, data: Data)
    requires PlainData(data) && table in data
    ensures Tracks(QualifiedColumns(table, data[table].columns), QualifiedColumns(table, data[table].columns), 0)
  {
    hide Tracks, QualifiedColumns, Dotted;
    assert PlainTable(Side(table, data));
    QualifiedStands(table, data[table].columns);
  }

  /** Before the first join a name is found where it is found among the qualified columns. */
  lemma ResolvePlain(t: TableData, a: string)
    requires PlainTable(t) && !Dotted(a)
    ensures var x, y := ResolveColumn(t.columns, a), ResolveColumn(QualifiedColumns(t.name, t.columns), a);
      && (x.None? <==> y.None?)
      && (x.Some? ==> x.value.typ == y.value.typ && y.value.name == Prefixed(t.name, x.value.name))
  {
    hide AnswersTo, ResolveColumn;
    var q := QualifiedColumns(t.name, t.columns);
    forall i | 0 <= i < |q| ensures AnswersTo(t.columns[i], a) <==> AnswersTo(q[i], a) {
      PlainAnswers(t.name, t.columns[i], q[i], a);
    }
    var k := ResolveTogether(t.columns, q, a);
  }

  lemma PlainAnswers(table: string, col: Column, q: Column, a: string)
    requires !Dotted(table) && !Dotted(col.name) && !Dotted(a) && q.name == Prefixed(table, col.name)
    ensures AnswersTo(col, a) <==> AnswersTo(q, a)
  {
    var d := |q.name| - |a| - 1;
    assert forall i :: 0 <= i < |col.name| ==> q.name[|table| + 1 + i] == col.name[i] && col.name[i] != '.';
    assert q.name[|table|] == '.';
    SuffixDotted(col.name, a);
    if HasSuffix(q.name, "." + a) {
      LastDot(q.name, a);
      assert q.name[d..][0] == '.';
      assert d == |table|;
      assert q.name[d + 1..] == q.name[d..][1..];
    }
    if col.name == a {
      assert q.name[d..] == "." + a;
    }
  }

  /** The first join is relational, in rows and errors. */
  lemma FirstErrors(name: string, cs: seq<Clause>, data: Data, labels: Labels)
    requires PlainData(data) && Mergeable(data) && PlainClauses(name, cs, data) && |cs| == 1
    requires Chain(name, cs[..0], data, labels).Ok?
    ensures var e, c := ExecutorJoin(name, cs, data, labels), LastJoin(name, cs, data);
      && (e.Err? ==> c == Err(JoinFailed(e.error)))
      && (e.Ok? ==>
            && c.Ok? && e.value.right == c.value.right && e.value.rightColumn == c.value.rightColumn
            && e.value.left == Side(name, data) && c.value.left.rows == OwnRows(Side(name, data))
            && c.value.left.columns == QualifiedColumns(name, data[name].columns)
            && c.value.leftColumn == Prefixed(name, e.value.leftColumn))
  {
    hide ResolveColumn, QualifiedColumns, Joinable, JoinedLeft, Prefixed, Mergeable;
    assert cs[..0] == [];
    ChainBefore(name, cs, data, labels);
    assert PlainTable(Side(name, data));
    ResolvePlain(Side(name, data), cs[0].leftColumn);
  }

  /** What a further join resolves its condition to, in the executor and in the reference. */
  lemma LaterErrors(name: string, cs: seq<Clause>, data: Data, labels: Labels)
    requires PlainData(data) && Mergeable(data) && PlainClauses(name, cs, data) && |cs| >= 2
    requires Chain(name, cs[..|cs| - 1], data, labels).Ok? && Relational(name, cs[..|cs| - 1], data).Ok?
    ensures var e, c := ExecutorJoin(name, cs, data, labels), LastJoin(name, cs, data);
      && (e.Err? ==> c == Err(JoinFailed(e.error)))
      && (e.Ok? ==>
            && c.Ok? && e.value.right == c.value.right && e.value.rightColumn == c.value.rightColumn
            && DottedColumns(e.value.left.columns) && OneDot(c.value.leftColumn)
            && c.value.left.rows == Relational(name, cs[..|cs| - 1], data).value
            && (if Hidden(name, cs, data) then !OneDot(e.value.leftColumn)
                else e.value.leftColumn == c.value.leftColumn))
  {
    hide ResolveColumn, Joinable, JoinedLeft, Mergeable, Chain;
    hide Relational, PlainData, OneDot, Tracks, Dotted, AnswersTo;
    hide QualifiedSchema, HiddenColumns, Hidden, DottedColumns;
    var n := |cs| - 1;
    var e, s := Chain(name, cs[..n], data, labels).value.columns, QualifiedSchema(name, cs[..n], data);
    var h := HiddenColumns(name, cs[..n], data);
    ChainSchema(name, cs[..n], data, labels);
    ResolveTracks(e, s, h, cs[n].leftColumn);
    HiddenPart(name, cs, data);
    TracksDotted(e, s, h);
  }

  lemma TracksDotted(e: seq<Column>, s: seq<Column>, h: nat)
    requires Tracks(e, s, h)
    ensures e != [] ==> DottedColumns(e)
  {
    hide OneDot, AnswersTo;
    forall col | col in e ensures Dotted(col.name) {
      var i :| 0 <= i < |e| && e[i] == col;
      assert StandsFor(e[i], s[i], i < h);
    }
  }

  lemma HiddenPart(name: string, cs: seq<Clause>, data: Data)
    requires PlainClauses(name, cs, data) && |cs| >= 2
    ensures var n := |cs| - 1;
      var s, h := QualifiedSchema(name, cs[..n], data), HiddenColumns(name, cs[..n], data);
      && h <= |s|
      && (Hidden(name, cs, data) <==> ResolveColumn(s[..h], cs[n].leftColumn).Some?)
  {
    hide ResolveColumn, QualifiedColumns;
    var n := |cs| - 1;
    if n >= 2 {
      assert cs[..n][..n - 1] == cs[..n - 1];
      var s := QualifiedSchema(name, cs[..n - 1], data);
      assert QualifiedSchema(name, cs[..n], data)[..|s|] == s;
    } else {
      NothingResolved(cs[n].leftColumn);
      assert QualifiedSchema(name, cs[..n], data)[..0] == [];
    }
  }

  lemma NothingResolved(a: string)
    ensures ResolveColumn([], a).None?
  {
  }

  // ------------------------------------------------------------------- the first join

  /** A first join and its reference: the left table, and its rows under qualified names. */
  ghost predicate FirstPair(e: Condition, c: Condition)
  {
    && PlainTable(e.left) && PlainTable(e.right) && e.right == c.right && e.rightColumn == c.rightColumn
    && c.left.rows == OwnRows(e.left) && c.left.columns == QualifiedColumns(e.left.name, e.left.columns)
    && c.leftColumn == Prefixed(e.left.name, e.leftColumn)
  }

  lemma {:induction false} OwnNulls(table: string, columns: seq<Column>)
    ensures Nulls(QualifiedColumns(table, columns)) == NullCells(table, columns)
  {
    if columns != [] {
      var n := |columns| - 1;
      assert QualifiedColumns(table, columns)[..n] == QualifiedColumns(table, columns[..n]);
      OwnNulls(table, columns[..n]);
    }
  }

  lemma OwnPadded(row: Row, t: TableData)
    ensures OwnCells(PrefixedCells(row, t.name), QualifiedColumns(t.name, t.columns)) == Padded(row, t)
  {
    hide Nulls, NullCells, QualifiedColumns;
    OwnNulls(t.name, t.columns);
    if row != map[] {
      var k :| k in row;
      assert Prefixed(t.name, k) in PrefixedCells(row, t.name);
    }
  }

  lemma OwnMatches(e: Condition, c: Condition, i: nat, j: nat)
    requires FirstPair(e, c) && i < |e.left.rows| && j < |e.right.rows|
    ensures Matches(e, e.left.rows[i], e.right.rows[j]) <==> Matches(c, c.left.rows[i], c.right.rows[j])
  {
    hide PlainTable, Prefixed, QualifiedColumns;
    PrefixInjective(e.left.name);
    assert c.left.rows[i] == PrefixedCells(e.left.rows[i], e.left.name);
  }

  lemma FirstAgree(e: Condition, c: Condition)
    requires FirstPair(e, c) && Joinable(e) && Joinable(c) && OneDotRows(c.left.rows)
    ensures Agree(e, c)
  {
    hide Joinable, Combined, Matches, OneDotRow, PrefixedCells, QualifiedCells, QualifiedColumns;
    forall i, j | 0 <= i < |e.left.rows| && 0 <= j < |e.right.rows| ensures AgreeAt(e, c, i, j) {
      OwnMatches(e, c, i, j);
      FirstCombined(e, c, i, j);
    }
  }

  lemma FirstCombined(e: Condition, c: Condition, i: nat, j: nat)
    requires FirstPair(e, c) && Joinable(e) && Joinable(c) && OneDotRows(c.left.rows)
    requires i < |e.left.rows| && j < |e.right.rows|
    ensures Combined(e, e.left.rows[i], e.right.rows[j]) == Combined(c, c.left.rows[i], c.right.rows[j])
  {
    hide OneDotRow, PrefixedCells, QualifiedCells, QualifiedColumns, QualifiesApart, Dotted;
    PlainQualified(e.left.rows[i], e.left.name);
    PlainQualified(e.right.rows[j], e.right.name);
    CombinedOneDot(c, c.left.rows[i], c.right.rows[j]);
  }

  lemma {:induction false} FirstLeftKept(e: Condition, c: Condition, n: nat)
    requires FirstPair(e, c) && Joinable(e) && Joinable(c) && Agree(e, c) && n <= |e.left.rows|
    ensures LeftOnly(e, n) == LeftKept(c, n)
  {
    hide PlainTable, Prefixed, QualifiedColumns, Joinable, Agree;
    hide LeftMatched, PrefixedCells, Padded, OwnCells, NullCells;
    if n > 0 {
      FirstLeftKept(e, c, n - 1);
      MatchedAgree(e, c);
      OwnPadded(e.left.rows[n - 1], e.left);
      NothingPadded(e.right);
    }
  }

  lemma NothingPadded(t: TableData)
    ensures Padded(map[], t) == NullCells(t.name, t.columns)
  {
  }

  lemma {:induction false} FirstRightKept(e: Condition, c: Condition, m: nat)
    requires FirstPair(e, c) && Joinable(e) && Joinable(c) && Agree(e, c) && m <= |e.right.rows|
    ensures RightOnly(e, m) == RightKept(c, m)
  {
    hide PlainTable, Prefixed, QualifiedColumns, Joinable, Agree, RightMatched, PrefixedCells, Padded, Nulls, NullCells;
    if m > 0 {
      FirstRightKept(e, c, m - 1);
      MatchedAgree(e, c);
      OwnNulls(e.left.name, e.left.columns);
      NothingPadded(e.left);
    }
  }

  /** The first join of two plain tables is relational. */
  lemma FirstRows(kind: JoinType, e: Condition, c: Condition)
    requires FirstPair(e, c) && Joinable(e) && Joinable(c) && OneDotRows(c.left.rows)
    ensures NestedLoop(kind, e) == RelationalJoin(kind, c)
  {
    hide FirstPair, Joinable, OneDotRows, Agree, Pairs, LeftOnly, RightOnly, LeftKept, RightKept;
    FirstAgree(e, c);
    PairsAgree(e, c, |e.left.rows|);
    FirstLeftKept(e, c, |e.left.rows|);
    FirstRightKept(e, c, |e.right.rows|);
    SameSides(e, c);
  }

  lemma SameSides(e: Condition, c: Condition)
    requires FirstPair(e, c)
    ensures |e.left.rows| == |c.left.rows| && e.right == c.right
  {
  }

  // -------------------------------------------------------------------- main results

  lemma RelationalBefore(name: string, cs: seq<Clause>, data: Data)
    requires PlainData(data) && PlainClauses(name, cs, data) && cs != []
    ensures Relational(name, [], data).Ok?
    ensures var before, r := Relational(name, cs[..|cs| - 1], data), Relational(name, cs, data);
      && (before.Err? ==> r == Err(before.error) && LastJoin(name, cs, data) == Err(before.error))
      && (before.Ok? && LastJoin(name, cs, data).Err? ==> r == Err(LastJoin(name, cs, data).error))
      && (LastJoin(name, cs, data).Ok? ==>
            r == Ok(RelationalJoin(cs[|cs| - 1].kind, LastJoin(name, cs, data).value)))
  {
    hide RelationalJoin, ResolveColumn, JoinedLeft, OneDotRows, PlainTable, QualifiedSchema;
  }

  /** Several joins fail where the relational joins fail, with the same error. */
  lemma {:induction false} ChainErrors(name: string, cs: seq<Clause>, data: Data, labels: Labels)
    requires PlainData(data) && Mergeable(data) && PlainClauses(name, cs, data) && cs != []
    ensures var chain, relational := Chain(name, cs, data, labels), Relational(name, cs, data);
      && (chain.Ok? <==> relational.Ok?)
      && (chain.Err? ==> relational == Err(chain.error))
    decreases |cs|
  {
    hide Chain, Relational, LastJoin, ExecutorJoin, Mergeable;
    hide PlainData, RelationalJoin, NestedLoop, Joinable, JoinedLeft;
    var n := |cs| - 1;
    ChainBefore(name, cs, data, labels);
    RelationalBefore(name, cs, data);
    if n == 0 {
      assert cs[..0] == [];
      ChainStep(name, cs, data, labels);
      FirstErrors(name, cs, data, labels);
    } else {
      ChainErrors(name, cs[..n], data, labels);
      if Chain(name, cs[..n], data, labels).Ok? {
        ChainStep(name, cs, data, labels);
        LaterErrors(name, cs, data, labels);
      }
    }
  }

  /** The rows after the joins are the relational ones. */
  ghost predicate SameRows(name: string, cs: seq<Clause>, data: Data, labels: Labels)
    requires PlainData(data) && Mergeable(data) && PlainClauses(name, cs, data)
  {
    var chain, relational := Chain(name, cs, data, labels), Relational(name, cs, data);
    chain.Ok? && relational.Ok? && chain.value.rows == relational.value
  }

  /** One join is relational for all tables. */
  lemma OneJoinRelational(name: string, cs: seq<Clause>, data: Data, labels: Labels)
    requires PlainData(data) && Mergeable(data) && PlainClauses(name, cs, data) && |cs| == 1
    requires Chain(name, cs, data, labels).Ok?
    ensures SameRows(name, cs, data, labels)
  {
    hide Chain, Relational, LastJoin, ExecutorJoin, Mergeable;
    hide RelationalJoin, NestedLoop, Joinable, PlainTable, OneDotRows;
    hide OneDotColumns, QualifiedColumns;
    assert cs[..0] == [];
    ChainBefore(name, cs, data, labels);
    RelationalBefore(name, cs, data);
    ChainErrors(name, cs, data, labels);
    ChainStep(name, cs, data, labels);
    FirstErrors(name, cs, data, labels);
    assert PlainTable(Side(name, data)) && PlainTable(Side(cs[0].table, data));
    FirstRows(cs[0].kind, ExecutorJoin(name, cs, data, labels).value, LastJoin(name, cs, data).value);
  }

  /** A further join of relational rows is relational if and only if it pads no row, and its ON
      column is not hidden or has no match at all. */
  lemma FurtherJoinIff(name: string, cs: seq<Clause>, data: Data, labels: Labels)
    requires PlainData(data) && Mergeable(data) && PlainClauses(name, cs, data) && |cs| >= 2
    requires SameRows(name, cs[..|cs| - 1], data, labels) && Chain(name, cs, data, labels).Ok?
    ensures SameRows(name, cs, data, labels) <==> KeepsMeaning(name, cs, data)
  {
    hide Chain, Relational, LastJoin, ExecutorJoin, Mergeable, RelationalJoin, NestedLoop, Joinable, JoinedLeft, OneDot;
    hide Hidden, NothingMatches, NonePadded, DottedColumns, PlainData;
    RelationalBefore(name, cs, data);
    ChainErrors(name, cs, data, labels);
    ChainStep(name, cs, data, labels);
    LaterErrors(name, cs, data, labels);
    RelabelledIff(cs[|cs| - 1].kind, ExecutorJoin(name, cs, data, labels).value, LastJoin(name, cs, data).value);
  }

  /** Any number of joins that succeed are relational after each join if and only if each join
      from the second on keeps its meaning. */
  lemma {:induction false} ChainIff(name: string, cs: seq<Clause>, data: Data, labels: Labels)
    requires PlainData(data) && Mergeable(data) && PlainClauses(name, cs, data) && cs != []
    requires Chain(name, cs, data, labels).Ok?
    ensures (forall m :: 1 <= m <= |cs| ==> SameRows(name, cs[..m], data, labels)) <==>
      forall m :: 2 <= m <= |cs| ==> KeepsMeaning(name, cs[..m], data)
    decreases |cs|
  {
    hide Chain, Mergeable, SameRows, KeepsMeaning, PlainData;
    var n := |cs| - 1;
    assert cs[..|cs|] == cs;
    if n == 0 {
      OneJoinRelational(name, cs, data, labels);
    } else {
      ChainBefore(name, cs, data, labels);
      ChainIff(name, cs[..n], data, labels);
      assert forall m :: 1 <= m <= n ==> cs[..n][..m] == cs[..m];
      if SameRows(name, cs[..n], data, labels) {
        FurtherJoinIff(name, cs, data, labels);
      }
    }
  }

  /** A SELECT with joins fails where the relational joins fail. Where they succeed it works on
      their rows, no label among their names, if each join from the second on keeps its meaning;
      with two joins only if. */
  lemma SelectRelational(s: SelectStatement, cs: seq<Clause>, data: Data, labels: Labels)
    requires Named(s) && s.joins != [] && s.tableName.name in data && PlainData(data) && Mergeable(data)
    requires ClausesOf(s.joins, data.Keys) == Ok(cs) && PlainClauses(s.tableName.name, cs, data)
    ensures var from, relational := From(s, data, labels), Relational(s.tableName.name, cs, data);
      && (relational.Err? ==> from == Err(relational.error))
      && (relational.Ok? ==> from.Ok?)
      && ((forall m :: 2 <= m <= |cs| ==> KeepsMeaning(s.tableName.name, cs[..m], data)) ==> from == relational)
      && (relational.Ok? && |cs| == 2 ==> (from == relational <==> KeepsMeaning(s.tableName.name, cs, data)))
  {
    hide Chain, Relational, Mergeable, KeepsMeaning, PlainData, ClauseOf, ClausesOf;
    var name := s.tableName.name;
    FromChain(s, cs, data, labels);
    ChainErrors(name, cs, data, labels);
    if Chain(name, cs, data, labels).Ok? {
      ChainIff(name, cs, data, labels);
      assert cs[..|cs|] == cs;
      if |cs| == 2 {
        ChainBefore(name, cs, data, labels);
        OneJoinRelational(name, cs[..1], data, labels);
        FurtherJoinIff(name, cs, data, labels);
      }
    }
  }

  lemma FromChain(s: SelectStatement, cs: seq<Clause>, data: Data, labels: Labels)
    requires Named(s) && s.tableName.name in data && Mergeable(data)
    requires ClausesOf(s.joins, data.Keys) == Ok(cs) && PlainClauses(s.tableName.name, cs, data)
    ensures |cs| == |s.joins|
    ensures var from, chain := From(s, data, labels), Chain(s.tableName.name, cs, data, labels);
      && (chain.Err? ==> from == Err(chain.error))
      && (chain.Ok? ==> from == Ok(chain.value.rows))
  {
    hide Chain, Mergeable, ClauseOf, ClausesOf;
  }

  // ------------------------------------------------------------ what goes wrong

  /** A left row that a further join pads loses each of its names. */
  lemma PaddedLoses(e: Condition, l: Row, k: string)
    requires OneDotRow(l) && DottedColumns(e.left.columns) && k in l && k !in NullCells(e.right.name, e.right.columns)
    ensures k !in CombinedWithNull(e, l, map[])
  {
    hide OneDot, Dotted, NullCells;
    forall c | c in l ensures Prefixed(e.left.name, c) != k {
      OneDotIsDotted(c);
      QualifiedTwice(e.left.name, c);
    }
  }

  /** An INNER join on a hidden column gives no rows at all. */
  lemma HiddenInner(name: string, cs: seq<Clause>, data: Data, labels: Labels)
    requires PlainData(data) && Mergeable(data) && PlainClauses(name, cs, data) && |cs| >= 2
    requires SameRows(name, cs[..|cs| - 1], data, labels) && Chain(name, cs, data, labels).Ok?
    requires Hidden(name, cs, data) && cs[|cs| - 1].kind.Inner?
    ensures Chain(name, cs, data, labels).value.rows == []
  {
    hide Chain, Relational, LastJoin, ExecutorJoin, Mergeable, RelationalJoin, NestedLoop, Joinable, JoinedLeft, OneDot;
    hide Hidden, NothingMatches, DottedColumns, PlainData, OneDotRows;
    ChainStep(name, cs, data, labels);
    LaterErrors(name, cs, data, labels);
    var e := ExecutorJoin(name, cs, data, labels).value;
    HiddenNothing(e);
    EmptyPairs(e);
  }

  lemma EmptyPairs(e: Condition)
    requires Joinable(e) && NothingMatches(e)
    ensures NestedLoop(Inner, e) == []
  {
    hide Joinable, Matches, NestedLoop;
    EmptyInner(e);
  }

  const X: Column := Column("x", INT, false, false, false, false)
  const ONE: Row := map["x" := Int64(1)]

  /** Four tables with the column x; `c` holds the given rows and each other table the number 1. */
  function Ones(c: seq<Row>): (data: Data)
  {
    map["a" := TableData("a", [X], [ONE], map[], 0, false), "b" := TableData("b", [X], [ONE], map[], 0, false),
        "c" := TableData("c", [X], c, map[], 0, false), "d" := TableData("d", [X], [ONE], map[], 0, false)]
  }

  lemma OnesPlain(c: seq<Row>)
    requires c == [] || c == [ONE]
    ensures PlainData(Ones(c)) && Mergeable(Ones(c))
  {
    forall n | n in Ones(c) ensures PlainTable(Side(n, Ones(c))) {
    }
    hide PlainTable, Mergeable;
    PlainMergeable(Ones(c));
  }

  function On(table: string, kind: JoinType): (clause: Clause)
  {
    Clause(table, kind, "x", "x")
  }

  lemma OnesResolve(columns: seq<Column>)
    requires columns != [] && columns[0].name == "a.x"
    ensures ResolveColumn(columns, "x") == Some(columns[0]) && ResolveColumn([X], "x") == Some(X)
  {
    assert "a.x"[1..] == ".x";
  }

  lemma {:induction false} OnesSchema(cs: seq<Clause>, data: Data)
    requires PlainClauses("a", cs, data) && data["a"].columns == [X]
    ensures var s := QualifiedSchema("a", cs, data); s != [] && s[0].name == "a.x" && s[0].typ == INT
    decreases |cs|
  {
    if cs == [] {
      assert "a" + "." + "x" == "a.x";
    } else {
      OnesSchema(cs[..|cs| - 1], data);
    }
  }

  lemma OnePair(c: Condition, l: Row, r: Row)
    requires c.left.rows == [l] && c.right.rows == [r] && Joinable(c) && Matches(c, l, r)
    ensures Pairs(c, 1) == [Combined(c, l, r)]
  {
    hide Joinable, Matches, Combined;
    assert l in c.left.rows;
    assert ProbeTo(c, l, 0) == [] && Pairs(c, 0) == [];
    assert Probe(c, l) == ProbeTo(c, l, 1);
  }

  /** What the reference resolves a last join of these tables to. */
  lemma OnesLast(cs: seq<Clause>, data: Data, l: Row)
    requires PlainData(data) && PlainClauses("a", cs, data) && cs != []
    requires data["a"].columns == [X] && data[cs[|cs| - 1].table].columns == [X]
    requires cs[|cs| - 1].leftColumn == "x" && cs[|cs| - 1].rightColumn == "x"
    requires Relational("a", cs[..|cs| - 1], data) == Ok([l])
    ensures var c := LastJoin("a", cs, data);
      && c.Ok? && c.value.left.rows == [l] && c.value.right == Side(cs[|cs| - 1].table, data)
      && c.value.leftColumn == "a.x" && c.value.rightColumn == "x"
  {
    hide Relational, ResolveColumn, QualifiedSchema, PlainTable, JoinedLeft, Joinable, OneDotRows;
    var n := |cs| - 1;
    OnesSchema(cs[..n], data);
    OnesResolve(QualifiedSchema("a", cs[..n], data));
  }

  /** An INNER join with a table that holds the number 1 adds its cell. */
  lemma OnesInner(cs: seq<Clause>, data: Data, l: Row)
    requires PlainData(data) && PlainClauses("a", cs, data) && cs != []
    requires data["a"].columns == [X] && data[cs[|cs| - 1].table].columns == [X]
    requires cs[|cs| - 1] == On(cs[|cs| - 1].table, Inner) && data[cs[|cs| - 1].table].rows == [ONE]
    requires Relational("a", cs[..|cs| - 1], data) == Ok([l]) && "a.x" in l && l["a.x"] == Int64(1)
    ensures Relational("a", cs, data) == Ok([l[Prefixed(cs[|cs| - 1].table, "x") := Int64(1)]])
  {
    hide PlainTable, JoinedLeft, Joinable, PlainData, Pairs, Combined, OneDotRow, QualifiesApart, Relational, LastJoin;
    OnesLast(cs, data, l);
    RelationalBefore("a", cs, data);
    var c := LastJoin("a", cs, data).value;
    OnePair(c, l, ONE);
    assert l in c.left.rows && ONE in c.right.rows;
    OnesCombined(c, l);
    assert RelationalJoin(Inner, c) == Pairs(c, 1);
  }

  lemma OnesCombined(c: Condition, l: Row)
    requires JoinedLeft(c) && l in c.left.rows && ONE in c.right.rows
    ensures QualifiesApart(l, c.left.name) && QualifiesApart(ONE, c.right.name)
    ensures Combined(c, l, ONE) == l[Prefixed(c.right.name, "x") := Int64(1)]
  {
    hide Combined, QualifiesApart, Prefixed, OneDotRow, PrefixedCells;
    CombinedOneDot(c, l, ONE);
    OneQualified(c.right.name);
  }

  lemma OneQualified(table: string)
    ensures PrefixedCells(ONE, table) == map[Prefixed(table, "x") := Int64(1)]
  {
    hide Prefixed;
    var cells := PrefixedCells(ONE, table);
    assert "x" in ONE && Prefixed(table, "x") in cells;
    assert forall k :: k in cells ==> k == Prefixed(table, "x");
  }

  lemma OnesFirst(data: Data)
    requires PlainData(data) && "a" in data && data["a"].rows == [ONE]
    ensures Relational("a", [], data) == Ok([map["a.x" := Int64(1)]])
  {
    hide PlainTable, OneDotRows, PrefixedCells, PlainData;
    assert Prefixed("a", "x") == "a.x";
    OneQualified("a");
    assert OwnRows(Side("a", data)) == [PrefixedCells(ONE, "a")];
  }

  /** `a JOIN b JOIN c JOIN d`, all on x = x, where each table holds the number 1: the third join
      asks for a.x by a name that no row has, and the SELECT has no rows. */
  lemma ThirdJoinEmpty(labels: Labels)
    ensures var data, cs := Ones([ONE]), [On("b", Inner), On("c", Inner), On("d", Inner)];
      && PlainData(data) && Mergeable(data) && PlainClauses("a", cs, data)
      && Chain("a", cs, data, labels).Ok? && Chain("a", cs, data, labels).value.rows == []
      && Relational("a", cs, data) ==
         Ok([map["a.x" := Int64(1), "b.x" := Int64(1), "c.x" := Int64(1), "d.x" := Int64(1)]])
  {
    hide Chain, Relational, Mergeable, PlainData, SameRows, Hidden, OneDotRows, KeepsMeaning;
    var data, cs := Ones([ONE]), [On("b", Inner), On("c", Inner), On("d", Inner)];
    OnesPlain([ONE]);
    OnesInners(data, cs);
    ChainErrors("a", cs, data, labels);
    ChainBefore("a", cs, data, labels);
    ThirdHidden(data, cs);
    ThirdBefore(data, cs, labels);
    HiddenInner("a", cs, data, labels);
  }

  lemma OnesInners(data: Data, cs: seq<Clause>)
    requires data == Ones([ONE]) && PlainData(data) && cs == [On("b", Inner), On("c", Inner), On("d", Inner)]
    ensures Relational("a", cs, data) ==
      Ok([map["a.x" := Int64(1), "b.x" := Int64(1), "c.x" := Int64(1), "d.x" := Int64(1)]])
  {
    hide Relational, PlainData, OneDotRows;
    OnesFirst(data);
    assert cs[..1][..0] == [] && cs[..2][..1] == cs[..1] && cs[..2] == cs[..|cs| - 1];
    assert Prefixed("b", "x") == "b.x" && Prefixed("c", "x") == "c.x" && Prefixed("d", "x") == "d.x";
    OnesInner(cs[..1], data, map["a.x" := Int64(1)]);
    OnesInner(cs[..2], data, map["a.x" := Int64(1), "b.x" := Int64(1)]);
    OnesInner(cs, data, map["a.x" := Int64(1), "b.x" := Int64(1), "c.x" := Int64(1)]);
  }

  lemma ThirdHidden(data: Data, cs: seq<Clause>)
    requires PlainClauses("a", cs, data) && data["a"].columns == [X] && |cs| == 3 && cs[2].leftColumn == "x"
    ensures Hidden("a", cs, data)
  {
    hide QualifiedSchema, ResolveColumn;
    OnesSchema(cs[..1], data);
    OnesResolve(QualifiedSchema("a", cs[..1], data));
  }

  /** Two INNER joins keep their meaning. */
  lemma ThirdBefore(data: Data, cs: seq<Clause>, labels: Labels)
    requires PlainData(data) && Mergeable(data) && PlainClauses("a", cs, data) && |cs| == 3
    requires cs[1].kind.Inner? && Chain("a", cs, data, labels).Ok?
    ensures SameRows("a", cs[..2], data, labels)
  {
    hide Chain, Relational, LastJoin, Mergeable, PlainData, SameRows, OneDotRows, NothingMatches;
    assert cs[..|cs| - 1] == cs[..2] && cs[..2][..1] == cs[..1];
    ChainBefore("a", cs, data, labels);
    ChainBefore("a", cs[..2], data, labels);
    OneJoinRelational("a", cs[..1], data, labels);
    assert KeepsMeaning("a", cs[..2], data);
    FurtherJoinIff("a", cs[..2], data, labels);
  }

  lemma LonelyRow(c: Condition, l: Row)
    requires c.left.rows == [l] && c.right.rows == [] && Joinable(c)
    ensures NestedLoop(Left, c) == [CombinedWithNull(c, l, map[])]
    ensures RelationalJoin(Left, c) == [OwnCells(l, c.left.columns) + NullCells(c.right.name, c.right.columns)]
  {
    hide Joinable, Matches, CombinedWithNull, OwnCells, NullCells;
    assert l in c.left.rows;
    assert Pairs(c, 1) == Pairs(c, 0) + Probe(c, l) && Pairs(c, 0) == [] && Probe(c, l) == [];
    assert !LeftMatched(c, 0);
    assert LeftOnly(c, 0) == [] && LeftKept(c, 0) == [];
  }

  lemma OneNull(table: string)
    ensures NullCells(table, [X]) == map[Prefixed(table, "x") := Null]
  {
    assert [X][..0] == [] && NullCells(table, []) == map[];
  }

  /** `a JOIN b LEFT JOIN c`, both on x = x, where `a` and `b` hold the number 1 and `c` has no rows:
      the one row of the SELECT has lost its a.x. */
  lemma SecondLeftJoin(labels: Labels)
    ensures var data, cs := Ones([]), [On("b", Inner), On("c", Left)];
      && PlainData(data) && Mergeable(data) && PlainClauses("a", cs, data)
      && Chain("a", cs, data, labels).Ok?
      && var rows := Chain("a", cs, data, labels).value.rows;
      && |rows| == 1 && "a.x" !in rows[0]
      && Relational("a", cs, data) == Ok([map["a.x" := Int64(1), "b.x" := Int64(1), "c.x" := Null]])
  {
    hide Chain, Relational, Mergeable, PlainData, LastJoin, ExecutorJoin;
    var data, cs := Ones([]), [On("b", Inner), On("c", Left)];
    var l: Row := map["a.x" := Int64(1), "b.x" := Int64(1)];
    OnesPlain([]);
    SecondRelational(data, cs, l);
    ChainErrors("a", cs, data, labels);
    ChainBefore("a", cs, data, labels);
    SecondRow(data, cs, labels, l);
  }

  lemma SecondRelational(data: Data, cs: seq<Clause>, l: Row)
    requires PlainData(data) && PlainClauses("a", cs, data) && data == Ones([])
    requires cs == [On("b", Inner), On("c", Left)] && l == map["a.x" := Int64(1), "b.x" := Int64(1)]
    ensures Relational("a", cs[..1], data) == Ok([l])
    ensures Relational("a", cs, data) == Ok([map["a.x" := Int64(1), "b.x" := Int64(1), "c.x" := Null]])
  {
    hide Relational, PlainData, OneDotRows, LastJoin, RelationalJoin, JoinedLeft, Joinable, PlainTable;
    OnesFirst(data);
    assert cs[..1][..0] == [] && cs[..|cs| - 1] == cs[..1];
    assert Prefixed("b", "x") == "b.x" && Prefixed("c", "x") == "c.x";
    OnesInner(cs[..1], data, map["a.x" := Int64(1)]);
    OnesLast(cs, data, l);
    RelationalBefore("a", cs, data);
    LonelyRow(LastJoin("a", cs, data).value, l);
    OneNull("c");
    assert "a.x" in l && OwnCells(l, LastJoin("a", cs, data).value.left.columns) == l;
    assert l + map["c.x" := Null] == map["a.x" := Int64(1), "b.x" := Int64(1), "c.x" := Null];
  }

  lemma SecondRow(data: Data, cs: seq<Clause>, labels: Labels, l: Row)
    requires PlainData(data) && Mergeable(data) && PlainClauses("a", cs, data)
    requires cs == [On("b", Inner), On("c", Left)] && data["c"].rows == [] && data["c"].columns == [X]
    requires Chain("a", cs, data, labels).Ok? && Relational("a", cs[..1], data) == Ok([l]) && "a.x" in l
    ensures var rows := Chain("a", cs, data, labels).value.rows; |rows| == 1 && "a.x" !in rows[0]
  {
    hide Chain, Relational, Mergeable, PlainData, LastJoin;
    hide ExecutorJoin, NestedLoop, CombinedWithNull, OneDotRow, Joinable, OneDot;
    hide DottedColumns, JoinedLeft;
    assert cs[..|cs| - 1] == cs[..1];
    ChainBefore("a", cs, data, labels);
    OneJoinRelational("a", cs[..1], data, labels);
    ChainStep("a", cs, data, labels);
    LaterErrors("a", cs, data, labels);
    var e := ExecutorJoin("a", cs, data, labels).value;
    assert l in [l];
    OneNull("c");
    assert Prefixed("c", "x") == "c.x";
    LonelyRow(e, l);
    PaddedLoses(e, l, "a.x");
  }
}
