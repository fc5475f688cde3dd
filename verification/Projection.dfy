/** Projection of joined rows. */
module Projections {
  import opened Values
  import opened JoinSpec

  datatype ColumnRef = ColumnRef(table: string, column: string)

  datatype Projection = Projection(selectAll: bool, columns: seq<ColumnRef>)

  /** The name a column has in the row and in the result. */
  function OutputName(c: ColumnRef): (name: string)
  {
    if c.table != "" then c.table + "." + c.column else c.column
  }

  predicate IsFallback(key: string, c: ColumnRef)
  {
    key == c.column || HasSuffix(key, "." + c.column)
  }

  /** The cells a column may be taken from: the one of that name, or, for an unqualified name
      that is not there, any cell whose qualified name ends in it. */
  function Sources(row: Row, c: ColumnRef): (keys: set<string>)
  {
    if OutputName(c) in row then {OutputName(c)}
    else if c.table == "" then set k | k in row && IsFallback(k, c)
    else {}
  }

  /** The result has exactly the requested columns that the row has, each with the value of one
      of its sources. */
  ghost predicate ProjectedBy(row: Row, columns: seq<ColumnRef>, out: Row)
  {
    && (forall name :: name in out ==>
      exists i :: 0 <= i < |columns| && OutputName(columns[i]) == name && Sources(row, columns[i]) != {})
    && (forall i :: 0 <= i < |columns| && Sources(row, columns[i]) != {} ==> OutputName(columns[i]) in out)
    && (forall i :: 0 <= i < |columns| && Sources(row, columns[i]) != {} ==> TakenFrom(row, columns[i], out))
  }

  ghost predicate TakenFrom(row: Row, c: ColumnRef, out: Row)
  {
    OutputName(c) in out && exists k :: k in Sources(row, c) && k in row && out[OutputName(c)] == row[k]
  }

  ghost predicate Projected(row: Row, proj: Projection, out: Row)
  {
    if proj.selectAll then out == row else ProjectedBy(row, proj.columns, out)
  }

  /** Picks the requested columns; an ambiguous unqualified name takes whichever cell map
      iteration meets first. */
  method ProjectJoinedRow(row: Row, proj: Projection) returns (out: Row)
    ensures Projected(row, proj, out)
  {
    hide ProjectedBy, Sources, OutputName;
    if proj.selectAll {
      return row;
    }
    out := map[];
    ProjectNothing(row);
    assert proj.columns[..0] == [];
    for i := 0 to |proj.columns|
      invariant ProjectedBy(row, proj.columns[..i], out)
    {
      var c := proj.columns[i];
      var source := FindSource(row, c);
      ProjectStep(row, proj.columns, i, out, source);
      if source.Some? {
        out := out[OutputName(c) := row[source.value]];
      }
    }
    assert proj.columns[..|proj.columns|] == proj.columns;
  }

  lemma ProjectNothing(row: Row)
    ensures ProjectedBy(row, [], map[])
  {
  }

  method FindSource(row: Row, c: ColumnRef) returns (source: Option<string>)
    ensures source.Some? ==> source.value in Sources(row, c) && source.value in row
    ensures source.None? ==> Sources(row, c) == {}
  {
    var name := OutputName(c);
    if name in row {
      return Some(name);
    }
    if c.table != "" {
      return None;
    }
    var todo := row.Keys;
    while todo != {}
      invariant todo <= row.Keys
      invariant forall k :: k in row && k !in todo ==> !IsFallback(k, c)
    {
      var k :| k in todo;
      if IsFallback(k, c) {
        return Some(k);
      }
      todo := todo - {k};
    }
    return None;
  }

  /** Two requests with the same output name have the same sources. */
  lemma SameNameSameSources(row: Row, c: ColumnRef, d: ColumnRef)
    requires OutputName(c) == OutputName(d) && Sources(row, c) != {} && Sources(row, d) != {}
    ensures Sources(row, c) == Sources(row, d)
  {
  }

  lemma ProjectStep(row: Row, columns: seq<ColumnRef>, i: nat, out: Row, source: Option<string>)
    requires i < |columns| && ProjectedBy(row, columns[..i], out)
    requires source.Some? ==> source.value in Sources(row, columns[i]) && source.value in row
    requires source.None? ==> Sources(row, columns[i]) == {}
    ensures ProjectedBy(row, columns[..i + 1],
      if source.Some? then out[OutputName(columns[i]) := row[source.value]] else out)
  {
    hide Sources, OutputName;
    var out' := if source.Some? then out[OutputName(columns[i]) := row[source.value]] else out;
    var before, after := columns[..i], columns[..i + 1];
    assert forall j :: 0 <= j < i ==> before[j] == after[j];
    assert after[i] == columns[i];
    forall j | 0 <= j <= i && Sources(row, after[j]) != {} ensures TakenFrom(row, after[j], out') {
      if j < i {
        assert TakenFrom(row, before[j], out);
        if source.Some? && OutputName(before[j]) == OutputName(columns[i]) {
          SameNameSameSources(row, before[j], columns[i]);
        }
      }
    }
    forall name | name in out'
      ensures exists j :: 0 <= j < |after| && OutputName(after[j]) == name && Sources(row, after[j]) != {}
    {
      if name in out {
        var j :| 0 <= j < |before| && OutputName(before[j]) == name && Sources(row, before[j]) != {};
        assert OutputName(after[j]) == name;
      } else {
        assert OutputName(after[i]) == name;
      }
    }
  }

  /** When no requested name is ambiguous the projection is determined. */
  lemma ProjectionUnique(row: Row, columns: seq<ColumnRef>, a: Row, b: Row)
    requires forall i :: 0 <= i < |columns| ==> |Sources(row, columns[i])| <= 1
    requires ProjectedBy(row, columns, a) && ProjectedBy(row, columns, b)
    ensures a == b
  {
    hide Sources, OutputName;
    forall name | name in a ensures name in b && a[name] == b[name] {
      var i :| 0 <= i < |columns| && OutputName(columns[i]) == name && Sources(row, columns[i]) != {};
      assert TakenFrom(row, columns[i], a) && TakenFrom(row, columns[i], b);
      var k :| k in Sources(row, columns[i]) && k in row && a[name] == row[k];
      var m :| m in Sources(row, columns[i]) && m in row && b[name] == row[m];
      OneElement(Sources(row, columns[i]), k, m);
    }
    forall name | name in b ensures name in a {
      var i :| 0 <= i < |columns| && OutputName(columns[i]) == name && Sources(row, columns[i]) != {};
    }
    assert a.Keys == b.Keys;
  }

  lemma OneElement(s: set<string>, k: string, m: string)
    requires k in s && m in s && |s| <= 1
    ensures k == m
  {
    if k != m {
      assert {k, m} <= s && |{k, m}| == 2;
      SubsetSize({k, m}, s);
    }
  }

  lemma {:induction false} SubsetSize(a: set<string>, b: set<string>)
    requires a <= b
    ensures |a| <= |b|
    decreases a
  {
    if a != {} {
      var x :| x in a;
      SubsetSize(a - {x}, b - {x});
    }
  }
}
