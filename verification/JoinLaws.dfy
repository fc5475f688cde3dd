/** Laws of the joins: mirror images, sizes, and joins onto unique columns. */
module JoinLaws {
  import opened Values
  import opened Schema
  import opened HashIndex
  import opened JoinSpec

  // ------------------------------------------------------------------ mirror images

  function Mirror(c: Condition): (d: Condition)
  {
    Condition(c.right, c.left, c.rightColumn, c.leftColumn)
  }

  function MirrorKind(kind: JoinType): (k: JoinType)
  {
    match kind
    case Left => Right
    case Right => Left
    case _ => kind
  }

  /** Two tables with different names, and no dot in the names of tables and columns. */
  ghost predicate NamesApart(c: Condition)
  {
    && c.left.name != c.right.name && !Dotted(c.left.name) && !Dotted(c.right.name)
    && (forall row, col :: row in c.left.rows && col in row ==> !Dotted(col))
    && (forall row, col :: row in c.right.rows && col in row ==> !Dotted(col))
  }

  lemma NamesApartJoinable(c: Condition)
    requires NamesApart(c)
    ensures Joinable(c) && Joinable(Mirror(c))
  {
    PrefixInjective(c.left.name);
    PrefixInjective(c.right.name);
  }

  lemma PrefixesApart(a: string, b: string)
    requires a != b && !Dotted(a) && !Dotted(b)
    ensures forall c, d :: Prefixed(a, c) != Prefixed(b, d)
  {
    forall c, d ensures Prefixed(a, c) != Prefixed(b, d) {
      var x, y := Prefixed(a, c), Prefixed(b, d);
      assert x[..|a|] == a && y[..|b|] == b && x[|a|] == '.' && y[|b|] == '.';
      assert |a| < |b| ==> b[|a|] == y[|a|];
      assert |b| < |a| ==> a[|b|] == x[|b|];
    }
  }

  /** Merging a pair does not depend on which side comes first. */
  lemma CombinedMirror(c: Condition, l: Row, r: Row)
    requires NamesApart(c) && Joinable(c) && l in c.left.rows && r in c.right.rows
    ensures QualifiesApart(l, c.left.name) && QualifiesApart(r, c.right.name)
    ensures Combined(c, l, r) == Combined(Mirror(c), r, l)
  {
    hide QualifiesApart, Prefixed, Dotted;
    assert forall col :: col in l ==> Qualified(c.left.name, col) == Prefixed(c.left.name, col);
    assert forall col :: col in r ==> Qualified(c.right.name, col) == Prefixed(c.right.name, col);
    PrefixesApart(c.left.name, c.right.name);
    var a, b := QualifiedCells(l, c.left.name), QualifiedCells(r, c.right.name);
    assert a.Keys !! b.Keys;
  }

  lemma {:induction false} NullKeys(table: string, columns: seq<Column>)
    ensures forall k :: k in NullCells(table, columns) ==> exists col :: k == Prefixed(table, col)
  {
    if columns != [] {
      NullKeys(table, columns[..|columns| - 1]);
    }
  }

  lemma PaddedMirror(c: Condition, l: Row, r: Row)
    requires NamesApart(c)
    ensures CombinedWithNull(c, l, r) == CombinedWithNull(Mirror(c), r, l)
  {
    hide Prefixed, Dotted;
    PrefixesApart(c.left.name, c.right.name);
    NullKeys(c.left.name, c.left.columns);
    NullKeys(c.right.name, c.right.columns);
    assert Padded(l, c.left).Keys !! Padded(r, c.right).Keys;
  }

  lemma {:induction false} OnlyMirror(c: Condition, n: nat)
    requires NamesApart(c) && n <= |c.left.rows|
    ensures LeftOnly(c, n) == RightOnly(Mirror(c), n)
  {
    if n > 0 {
      hide Combined, CombinedWithNull;
      OnlyMirror(c, n - 1);
      PaddedMirror(c, c.left.rows[n - 1], map[]);
      var d, i := Mirror(c), n - 1;
      assert forall j :: 0 <= j < |c.right.rows| ==>
        (Matches(c, c.left.rows[i], c.right.rows[j]) <==> Matches(d, d.left.rows[j], d.right.rows[i]));
      assert LeftMatched(c, i) <==> RightMatched(d, i);
    }
  }

  /** The matches of the first n left rows with the first m right rows. */
  ghost function Block(c: Condition, n: nat, m: nat): (b: multiset<JoinedRow>)
    requires Joinable(c) && n <= |c.left.rows| && m <= |c.right.rows|
  {
    if n == 0 then multiset{} else Block(c, n - 1, m) + multiset(ProbeTo(c, c.left.rows[n - 1], m))
  }

  lemma {:induction false} PairsBlock(c: Condition, n: nat)
    requires Joinable(c) && n <= |c.left.rows|
    ensures multiset(Pairs(c, n)) == Block(c, n, |c.right.rows|)
  {
    hide ProbeTo, Joinable, Pairs;
    if n == 0 {
      NoPairs(c);
    } else {
      PairsBlock(c, n - 1);
      PairsStep(c, n);
    }
  }

  lemma NoPairs(c: Condition)
    requires Joinable(c)
    ensures Pairs(c, 0) == []
  {
  }

  lemma PairsStep(c: Condition, n: nat)
    requires Joinable(c) && 0 < n <= |c.left.rows|
    ensures multiset(Pairs(c, n)) == multiset(Pairs(c, n - 1)) + multiset(Probe(c, c.left.rows[n - 1]))
  {
    hide Probe;
    assert Pairs(c, n) == Pairs(c, n - 1) + Probe(c, c.left.rows[n - 1]);
  }

  /** The joined row of a pair, if it matches. */
  ghost function Match(c: Condition, l: Row, r: Row): (s: seq<JoinedRow>)
    requires QualifiesApart(l, c.left.name) && QualifiesApart(r, c.right.name)
  {
    if Matches(c, l, r) then [Combined(c, l, r)] else []
  }

  lemma ProbeStep(c: Condition, l: Row, m: nat)
    requires Joinable(c) && l in c.left.rows && 0 < m <= |c.right.rows|
    ensures multiset(ProbeTo(c, l, m)) == multiset(ProbeTo(c, l, m - 1)) + multiset(Match(c, l, c.right.rows[m - 1]))
  {
    hide Combined;
    assert ProbeTo(c, l, m) == ProbeTo(c, l, m - 1) + Match(c, l, c.right.rows[m - 1]);
  }

  /** If the left sums are x == a + b and y == c + d, they can be added crosswise. */
  lemma Regroup(x: multiset<JoinedRow>, y: multiset<JoinedRow>, z: multiset<JoinedRow>,
                a: multiset<JoinedRow>, b: multiset<JoinedRow>, c: multiset<JoinedRow>, d: multiset<JoinedRow>)
    requires x == a + b && y == c + d && z == b + d
    ensures x + y == (a + c) + z
  {
  }

  /** Adding a right row to the block adds that row's matches. */
  lemma {:induction false} BlockColumn(c: Condition, n: nat, m: nat)
    requires NamesApart(c) && Joinable(c) && Joinable(Mirror(c))
    requires n <= |c.left.rows| && 0 < m <= |c.right.rows|
    ensures Block(c, n, m) == Block(c, n, m - 1) + multiset(ProbeTo(Mirror(c), c.right.rows[m - 1], n))
  {
    hide NamesApart, Joinable, ProbeTo;
    var r := c.right.rows[m - 1];
    if n == 0 {
      NothingProbed(Mirror(c), r);
    } else {
      var l := c.left.rows[n - 1];
      BlockColumn(c, n - 1, m);
      var corner := BlockCorner(c, n, m);
      Regroup(Block(c, n - 1, m), multiset(ProbeTo(c, l, m)), multiset(ProbeTo(Mirror(c), r, n)),
              Block(c, n - 1, m - 1), multiset(ProbeTo(Mirror(c), r, n - 1)),
              multiset(ProbeTo(c, l, m - 1)), corner);
    }
  }

  lemma NothingProbed(c: Condition, l: Row)
    requires Joinable(c) && l in c.left.rows
    ensures ProbeTo(c, l, 0) == []
  {
  }

  /** The last left and the last right row extend both probes by the same joined rows. */
  lemma BlockCorner(c: Condition, n: nat, m: nat) returns (corner: multiset<JoinedRow>)
    requires NamesApart(c) && Joinable(c) && Joinable(Mirror(c))
    requires 0 < n <= |c.left.rows| && 0 < m <= |c.right.rows|
    ensures var l, r := c.left.rows[n - 1], c.right.rows[m - 1];
      && multiset(ProbeTo(c, l, m)) == multiset(ProbeTo(c, l, m - 1)) + corner
      && multiset(ProbeTo(Mirror(c), r, n)) == multiset(ProbeTo(Mirror(c), r, n - 1)) + corner
  {
    hide NamesApart, Joinable, ProbeTo, Match;
    var l, r := c.left.rows[n - 1], c.right.rows[m - 1];
    MatchMirror(c, l, r);
    ProbeStep(c, l, m);
    ProbeStep(Mirror(c), r, n);
    corner := multiset(Match(c, l, r));
  }

  lemma MatchMirror(c: Condition, l: Row, r: Row)
    requires NamesApart(c) && Joinable(c) && l in c.left.rows && r in c.right.rows
    ensures QualifiesApart(l, c.left.name) && QualifiesApart(r, c.right.name)
    ensures Match(c, l, r) == Match(Mirror(c), r, l)
  {
    hide Combined, NamesApart, QualifiesApart;
    CombinedMirror(c, l, r);
  }

  /** Both enumerations of the pairs list the same joined rows. */
  lemma {:induction false} Exchange(c: Condition, n: nat, m: nat)
    requires NamesApart(c) && Joinable(c) && Joinable(Mirror(c))
    requires n <= |c.left.rows| && m <= |c.right.rows|
    ensures Block(c, n, m) == Block(Mirror(c), m, n)
  {
    hide Joinable, NamesApart, ProbeTo;
    if m == 0 {
      EmptyBlock(c, n);
    } else {
      Exchange(c, n, m - 1);
      BlockColumn(c, n, m);
    }
  }

  lemma {:induction false} EmptyBlock(c: Condition, n: nat)
    requires Joinable(c) && n <= |c.left.rows|
    ensures Block(c, n, 0) == multiset{}
  {
    if n > 0 {
      EmptyBlock(c, n - 1);
    }
  }

  lemma {:induction false} FilterMultiset(pred: Option<RowPredicate>, s: seq<JoinedRow>)
    ensures forall x :: multiset(Filter(pred, s))[x] == if Passes(pred, x) then multiset(s)[x] else 0
  {
    if s != [] {
      var n := |s| - 1;
      FilterMultiset(pred, s[..n]);
      assert s == s[..n] + [s[n]];
    }
  }

  lemma FilterSame(pred: Option<RowPredicate>, s: seq<JoinedRow>, t: seq<JoinedRow>)
    requires multiset(s) == multiset(t)
    ensures multiset(Filter(pred, s)) == multiset(Filter(pred, t))
  {
    hide Filter, Passes;
    FilterMultiset(pred, s);
    FilterMultiset(pred, t);
    forall x ensures multiset(Filter(pred, s))[x] == multiset(Filter(pred, t))[x] {
    }
  }

  lemma LoopMultiset(kind: JoinType, c: Condition)
    requires Joinable(c)
    ensures multiset(NestedLoop(kind, c)) == multiset(Pairs(c, |c.left.rows|))
      + (if kind.Left? || kind.Full? then multiset(LeftOnly(c, |c.left.rows|)) else multiset{})
      + (if kind.Right? || kind.Full? then multiset(RightOnly(c, |c.right.rows|)) else multiset{})
  {
    hide Joinable, Pairs, LeftOnly, RightOnly;
  }

  /** RIGHT JOIN is LEFT JOIN with the tables swapped, and INNER and FULL are symmetric: the
      same joined rows, equally often, whatever the predicate. */
  lemma JoinMirror(kind: JoinType, c: Condition, pred: Option<RowPredicate>)
    requires NamesApart(c)
    ensures Joinable(c) && Joinable(Mirror(c))
    ensures multiset(Filter(pred, NestedLoop(kind, c))) ==
      multiset(Filter(pred, NestedLoop(MirrorKind(kind), Mirror(c))))
  {
    NamesApartJoinable(c);
    hide Joinable, NamesApart, Filter, Passes, Pairs, LeftOnly, RightOnly, NestedLoop, Block;
    var d := Mirror(c);
    PairsBlock(c, |c.left.rows|);
    PairsBlock(d, |d.left.rows|);
    Exchange(c, |c.left.rows|, |c.right.rows|);
    OnlyMirror(c, |c.left.rows|);
    NamesApartMirror(c);
    OnlyMirror(d, |d.left.rows|);
    LoopMultiset(kind, c);
    LoopMultiset(MirrorKind(kind), d);
    FilterSame(pred, NestedLoop(kind, c), NestedLoop(MirrorKind(kind), d));
  }

  lemma NamesApartMirror(c: Condition)
    requires NamesApart(c)
    ensures NamesApart(Mirror(c)) && Mirror(Mirror(c)) == c
  {
  }

  /** Swapping the tables and the columns of an ON condition mirrors what it resolves to. */
  lemma ResolveMirror(left: TableData, right: TableData, leftColumn: string, rightColumn: string)
    ensures var r, s := Resolve(left, right, leftColumn, rightColumn), Resolve(right, left, rightColumn, leftColumn);
      && (r.Ok? <==> s.Ok?)
      && (r.Ok? ==> s.value == Mirror(r.value))
  {
  }

  // -------------------------------------------------------------------------- sizes

  /** How many rows hold the value. */
  function Count(rows: seq<Row>, col: string, v: Value): (n: nat)
  {
    |Positions(rows, col, v)|
  }

  /** The sum, over the listed keys, of left count times right count. */
  function KeyProducts(keys: seq<Value>, ls: seq<Row>, lc: string, rs: seq<Row>, rc: string): (n: nat)
  {
    if keys == [] then 0
    else
      var k := keys[|keys| - 1];
      KeyProducts(keys[..|keys| - 1], ls, lc, rs, rc) + Count(ls, lc, k) * Count(rs, rc, k)
  }

  ghost predicate NoDuplicates(keys: seq<Value>)
  {
    forall i, j :: 0 <= i < j < |keys| ==> keys[i] != keys[j]
  }

  lemma {:induction false} ProbeSize(c: Condition, l: Row, m: nat)
    requires Joinable(c) && l in c.left.rows && m <= |c.right.rows|
    ensures |ProbeTo(c, l, m)| ==
      if c.leftColumn in l then Count(c.right.rows[..m], c.rightColumn, l[c.leftColumn]) else 0
  {
    if m > 0 {
      ProbeSize(c, l, m - 1);
      PrefixStep(c.right.rows, m - 1);
    }
  }

  /** One more left row raises the sum by the right count of its value. */
  lemma {:induction false} ProductsStep(keys: seq<Value>, ls: seq<Row>, l: Row, lc: string, rs: seq<Row>, rc: string)
    requires NoDuplicates(keys)
    ensures KeyProducts(keys, ls + [l], lc, rs, rc) == KeyProducts(keys, ls, lc, rs, rc) +
      if lc in l && l[lc] in keys then Count(rs, rc, l[lc]) else 0
  {
    if keys != [] {
      var n := |keys| - 1;
      ProductsStep(keys[..n], ls, l, lc, rs, rc);
      assert (ls + [l])[..|ls|] == ls;
      var extra := if Holds(l, lc, keys[n]) then 1 else 0;
      assert Count(ls + [l], lc, keys[n]) == Count(ls, lc, keys[n]) + extra;
      assert (Count(ls, lc, keys[n]) + extra) * Count(rs, rc, keys[n]) ==
        Count(ls, lc, keys[n]) * Count(rs, rc, keys[n]) + extra * Count(rs, rc, keys[n]);
      assert keys == keys[..n] + [keys[n]];
      if lc in l && l[lc] == keys[n] {
        assert l[lc] !in keys[..n];
      }
    }
  }

  lemma {:induction false} NoRowsNoProducts(keys: seq<Value>, lc: string, rs: seq<Row>, rc: string)
    ensures KeyProducts(keys, [], lc, rs, rc) == 0
  {
    if keys != [] {
      NoRowsNoProducts(keys[..|keys| - 1], lc, rs, rc);
    }
  }

  lemma {:induction false} PairsSize(c: Condition, keys: seq<Value>, n: nat)
    requires Joinable(c) && n <= |c.left.rows| && NoDuplicates(keys)
    requires forall l :: l in c.left.rows && c.leftColumn in l ==> l[c.leftColumn] in keys
    ensures |Pairs(c, n)| == KeyProducts(keys, c.left.rows[..n], c.leftColumn, c.right.rows, c.rightColumn)
  {
    hide KeyProducts, Count, ProbeTo, Joinable, NoDuplicates;
    if n == 0 {
      assert c.left.rows[..0] == [];
      NoRowsNoProducts(keys, c.leftColumn, c.right.rows, c.rightColumn);
    } else {
      PairsSize(c, keys, n - 1);
      ProbeSize(c, c.left.rows[n - 1], |c.right.rows|);
      assert c.right.rows[..|c.right.rows|] == c.right.rows;
      assert c.left.rows[..n] == c.left.rows[..n - 1] + [c.left.rows[n - 1]];
      ProductsStep(keys, c.left.rows[..n - 1], c.left.rows[n - 1], c.leftColumn, c.right.rows, c.rightColumn);
    }
  }

  /** INNER has one row for each pair of equal keys, and FULL counts each of LEFT and RIGHT
      once: for any list of distinct keys that covers the left column. */
  lemma JoinSizes(c: Condition, keys: seq<Value>)
    requires Joinable(c) && NoDuplicates(keys)
    requires forall l :: l in c.left.rows && c.leftColumn in l ==> l[c.leftColumn] in keys
    ensures |NestedLoop(Inner, c)| == KeyProducts(keys, c.left.rows, c.leftColumn, c.right.rows, c.rightColumn)
    ensures |NestedLoop(Full, c)| == |NestedLoop(Left, c)| + |NestedLoop(Right, c)| - |NestedLoop(Inner, c)|
  {
    PairsSize(c, keys, |c.left.rows|);
    assert c.left.rows[..|c.left.rows|] == c.left.rows;
  }

  // ------------------------------------------------------------- unique right column

  /** The one joined row a left row gives when the right column is unique. */
  ghost function Partner(c: Condition, i: nat): (j: JoinedRow)
    requires Joinable(c) && i < |c.left.rows|
  {
    if LeftMatched(c, i) then
      var j :| 0 <= j < |c.right.rows| && Matches(c, c.left.rows[i], c.right.rows[j]);
      Combined(c, c.left.rows[i], c.right.rows[j])
    else CombinedWithNull(c, c.left.rows[i], map[])
  }

  ghost function Partners(c: Condition, n: nat): (s: seq<JoinedRow>)
    requires Joinable(c) && n <= |c.left.rows|
    ensures |s| == n
  {
    if n == 0 then [] else Partners(c, n - 1) + [Partner(c, n - 1)]
  }

  /** A probe with a single match finds it. */
  lemma {:induction false} ProbeUnique(c: Condition, l: Row, j: nat, m: nat)
    requires Joinable(c) && l in c.left.rows && j < |c.right.rows| && m <= |c.right.rows|
    requires forall k :: 0 <= k < |c.right.rows| ==> (Matches(c, l, c.right.rows[k]) <==> k == j)
    ensures ProbeTo(c, l, m) == if j < m then [Combined(c, l, c.right.rows[j])] else []
  {
    hide Combined, Matches, QualifiesApart, Joinable;
    if m > 0 {
      ProbeUnique(c, l, j, m - 1);
      assert Matches(c, l, c.right.rows[m - 1]) <==> m - 1 == j;
    }
  }

  lemma {:induction false} ProbeUnmatched(c: Condition, i: nat, m: nat)
    requires Joinable(c) && i < |c.left.rows| && m <= |c.right.rows| && !LeftMatched(c, i)
    ensures ProbeTo(c, c.left.rows[i], m) == []
  {
    if m > 0 {
      ProbeUnmatched(c, i, m - 1);
    }
  }

  lemma {:induction false} LeftPartners(c: Condition, n: nat)
    requires Joinable(c) && Distinct(c.right.rows, c.rightColumn) && n <= |c.left.rows|
    ensures multiset(Pairs(c, n)) + multiset(LeftOnly(c, n)) == multiset(Partners(c, n))
  {
    if n > 0 {
      hide Probe, Partner, Pairs, LeftOnly, Partners, Unmatched, Joinable, Distinct;
      LeftPartners(c, n - 1);
      PartnerExact(c, n - 1);
      PairsStep(c, n);
      ListSteps(c, n);
      Regroup(multiset(Pairs(c, n)), multiset(LeftOnly(c, n)), multiset([Partner(c, n - 1)]),
              multiset(Pairs(c, n - 1)), multiset(Probe(c, c.left.rows[n - 1])),
              multiset(LeftOnly(c, n - 1)), multiset(Unmatched(c, n - 1)));
    }
  }

  lemma ListSteps(c: Condition, n: nat)
    requires Joinable(c) && 0 < n <= |c.left.rows|
    ensures multiset(LeftOnly(c, n)) == multiset(LeftOnly(c, n - 1)) + multiset(Unmatched(c, n - 1))
    ensures multiset(Partners(c, n)) == multiset(Partners(c, n - 1)) + multiset([Partner(c, n - 1)])
  {
    hide Probe, Partner, CombinedWithNull, LeftMatched;
    assert LeftOnly(c, n) == LeftOnly(c, n - 1) + Unmatched(c, n - 1);
  }

  ghost function Unmatched(c: Condition, i: nat): (s: seq<JoinedRow>)
    requires i < |c.left.rows|
  {
    if LeftMatched(c, i) then [] else [CombinedWithNull(c, c.left.rows[i], map[])]
  }

  /** A left row is either matched by its partner alone or listed as unmatched. */
  lemma PartnerExact(c: Condition, i: nat)
    requires Joinable(c) && Distinct(c.right.rows, c.rightColumn) && i < |c.left.rows|
    ensures multiset(Probe(c, c.left.rows[i])) + multiset(Unmatched(c, i)) == multiset([Partner(c, i)])
  {
    hide ProbeTo, Combined, CombinedWithNull;
    if LeftMatched(c, i) {
      forall j | 0 <= j < |c.right.rows| && Matches(c, c.left.rows[i], c.right.rows[j])
        ensures Probe(c, c.left.rows[i]) == [Combined(c, c.left.rows[i], c.right.rows[j])]
      {
        assert forall k :: 0 <= k < |c.right.rows| ==> (Matches(c, c.left.rows[i], c.right.rows[k]) <==> k == j);
        ProbeUnique(c, c.left.rows[i], j, |c.right.rows|);
      }
    } else {
      ProbeUnmatched(c, i, |c.right.rows|);
    }
  }

  /** A LEFT JOIN onto a unique column gives exactly one row for each left row: the row with
      its one match, or with NULLs. */
  lemma LeftJoinUnique(c: Condition)
    requires Joinable(c) && Distinct(c.right.rows, c.rightColumn)
    ensures multiset(NestedLoop(Left, c)) == multiset(Partners(c, |c.left.rows|))
    ensures |NestedLoop(Left, c)| == |c.left.rows|
  {
    LeftPartners(c, |c.left.rows|);
    assert |multiset(NestedLoop(Left, c))| == |multiset(Partners(c, |c.left.rows|))|;
  }

  // --------------------------------------------------------------------- nothing matches

  lemma EmptyInner(c: Condition)
    requires Joinable(c) && forall l, r :: l in c.left.rows && r in c.right.rows ==> !Matches(c, l, r)
    ensures NestedLoop(Inner, c) == []
  {
    hide Joinable, Matches, Pairs;
    NoMatches(c, |c.left.rows|);
  }

  lemma {:induction false} NoMatches(c: Condition, n: nat)
    requires Joinable(c) && n <= |c.left.rows|
    requires forall l, r :: l in c.left.rows && r in c.right.rows ==> !Matches(c, l, r)
    ensures Pairs(c, n) == []
  {
    hide Joinable, Matches;
    if n > 0 {
      NoMatches(c, n - 1);
      assert c.left.rows[n - 1] in c.left.rows;
      ProbeUnmatched(c, n - 1, |c.right.rows|);
    }
  }
}
