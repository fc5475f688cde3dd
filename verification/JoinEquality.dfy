/** The joins' equality of keys against the `=` of WHERE. */
module JoinEquality {
  import opened Values
  import opened Schema
  import opened Comparison
  import opened JoinSpec
  import opened JoinLaws

  /** The pair matches as `left.column = right.column` would in WHERE. */
  predicate WhereMatches(c: Condition, l: Row, r: Row)
  {
    c.leftColumn in l && c.rightColumn in r && Compare(l[c.leftColumn], Equal, r[c.rightColumn])
  }

  ghost function WhereProbe(c: Condition, l: Row, m: nat): (s: seq<JoinedRow>)
    requires Joinable(c) && l in c.left.rows && m <= |c.right.rows|
  {
    if m == 0 then []
    else
      WhereProbe(c, l, m - 1) +
      if WhereMatches(c, l, c.right.rows[m - 1]) then [Combined(c, l, c.right.rows[m - 1])] else []
  }

  /** The nested loop that compares as WHERE does. */
  ghost function WherePairs(c: Condition, n: nat): (s: seq<JoinedRow>)
    requires Joinable(c) && n <= |c.left.rows|
  {
    if n == 0 then [] else WherePairs(c, n - 1) + WhereProbe(c, c.left.rows[n - 1], |c.right.rows|)
  }

  /** The column holds integers only, each with a float64 of its own. */
  ghost predicate ExactIntegers(rows: seq<Row>, col: string)
  {
    forall row: Row :: row in rows && col in row ==> IsInteger(row[col]) && FloatUnique(row[col].n)
  }

  /** The same number under two tags. */
  predicate TagsDiffer(c: Condition, l: Row, r: Row)
    requires c.leftColumn in l && IsInteger(l[c.leftColumn])
    requires c.rightColumn in r && IsInteger(r[c.rightColumn])
  {
    l[c.leftColumn].n == r[c.rightColumn].n && l[c.leftColumn].Int? != r[c.rightColumn].Int?
  }

  /** No number stands in one join column as Int and in the other as Int64. */
  ghost predicate NoMixedNumbers(c: Condition)
    requires ExactIntegers(c.left.rows, c.leftColumn) && ExactIntegers(c.right.rows, c.rightColumn)
  {
    forall i, j :: 0 <= i < |c.left.rows| && 0 <= j < |c.right.rows| ==> !Mixed(c, i, j)
  }

  ghost predicate Mixed(c: Condition, i: nat, j: nat)
    requires i < |c.left.rows| && j < |c.right.rows|
    requires ExactIntegers(c.left.rows, c.leftColumn) && ExactIntegers(c.right.rows, c.rightColumn)
  {
    var l, r := c.left.rows[i], c.right.rows[j];
    c.leftColumn in l && c.rightColumn in r && TagsDiffer(c, l, r)
  }

  /** How the two equalities treat one pair. */
  lemma PairEquality(c: Condition, l: Row, r: Row)
    requires l in c.left.rows && r in c.right.rows
    requires ExactIntegers(c.left.rows, c.leftColumn) && ExactIntegers(c.right.rows, c.rightColumn)
    ensures Matches(c, l, r) ==> WhereMatches(c, l, r)
    ensures WhereMatches(c, l, r) && !Matches(c, l, r) <==>
      c.leftColumn in l && c.rightColumn in r && TagsDiffer(c, l, r)
  {
    hide Compare, FloatUnique;
    if c.leftColumn in l && c.rightColumn in r {
      TagsDecide(l[c.leftColumn], r[c.rightColumn]);
    }
  }

  /** One probe finds at least what the other finds, and the same if no pair has two tags. */
  lemma {:induction false} ProbeEquality(c: Condition, i: nat, m: nat)
    requires Joinable(c) && i < |c.left.rows| && m <= |c.right.rows|
    requires ExactIntegers(c.left.rows, c.leftColumn) && ExactIntegers(c.right.rows, c.rightColumn)
    ensures var l := c.left.rows[i];
      && |ProbeTo(c, l, m)| <= |WhereProbe(c, l, m)|
      && ((forall j :: 0 <= j < m ==> (Matches(c, l, c.right.rows[j]) <==> WhereMatches(c, l, c.right.rows[j]))) ==>
            ProbeTo(c, l, m) == WhereProbe(c, l, m))
      && (|ProbeTo(c, l, m)| == |WhereProbe(c, l, m)| ==>
            forall j :: 0 <= j < m ==> (Matches(c, l, c.right.rows[j]) <==> WhereMatches(c, l, c.right.rows[j])))
  {
    hide Joinable, ExactIntegers, Matches, WhereMatches, Combined;
    if m > 0 {
      ProbeEquality(c, i, m - 1);
      PairEquality(c, c.left.rows[i], c.right.rows[m - 1]);
    }
  }

  ghost predicate SameMatches(c: Condition, i: nat)
    requires i < |c.left.rows|
  {
    forall j :: 0 <= j < |c.right.rows| ==>
      (Matches(c, c.left.rows[i], c.right.rows[j]) <==> WhereMatches(c, c.left.rows[i], c.right.rows[j]))
  }

  lemma FullProbeEquality(c: Condition, i: nat)
    requires Joinable(c) && i < |c.left.rows|
    requires ExactIntegers(c.left.rows, c.leftColumn) && ExactIntegers(c.right.rows, c.rightColumn)
    ensures var found, wanted := Probe(c, c.left.rows[i]), WhereProbe(c, c.left.rows[i], |c.right.rows|);
      && |found| <= |wanted|
      && (SameMatches(c, i) ==> found == wanted)
      && (|found| == |wanted| ==> SameMatches(c, i))
  {
    hide Joinable, ExactIntegers, Matches, WhereMatches, ProbeTo, WhereProbe;
    ProbeEquality(c, i, |c.right.rows|);
  }

  lemma {:induction false} PairsEquality(c: Condition, n: nat)
    requires Joinable(c) && n <= |c.left.rows|
    requires ExactIntegers(c.left.rows, c.leftColumn) && ExactIntegers(c.right.rows, c.rightColumn)
    ensures |Pairs(c, n)| <= |WherePairs(c, n)|
    ensures (forall i :: 0 <= i < n ==> SameMatches(c, i)) ==> Pairs(c, n) == WherePairs(c, n)
    ensures |Pairs(c, n)| == |WherePairs(c, n)| ==> forall i :: 0 <= i < n ==> SameMatches(c, i)
  {
    hide Joinable, ExactIntegers, Probe, WhereProbe, SameMatches;
    if n > 0 {
      PairsEquality(c, n - 1);
      FullProbeEquality(c, n - 1);
    }
  }

  lemma NoMixedIff(c: Condition)
    requires ExactIntegers(c.left.rows, c.leftColumn) && ExactIntegers(c.right.rows, c.rightColumn)
    ensures NoMixedNumbers(c) <==> forall i :: 0 <= i < |c.left.rows| ==> SameMatches(c, i)
  {
    hide ExactIntegers, Matches, WhereMatches, TagsDiffer;
    forall i, j | 0 <= i < |c.left.rows| && 0 <= j < |c.right.rows|
      ensures var l, r := c.left.rows[i], c.right.rows[j];
        Mixed(c, i, j) <==> !(Matches(c, l, r) <==> WhereMatches(c, l, r))
    {
      PairEquality(c, c.left.rows[i], c.right.rows[j]);
    }
    if forall i :: 0 <= i < |c.left.rows| ==> SameMatches(c, i) {
      forall i, j | 0 <= i < |c.left.rows| && 0 <= j < |c.right.rows| ensures !Mixed(c, i, j) {
        assert SameMatches(c, i);
      }
    }
  }

  /** Over integers with floats of their own, the hash join finds the pairs that WHERE's `=`
      accepts if and only if no number stands in the join columns under both tags. */
  lemma JoinIsWhereEquality(c: Condition)
    requires Joinable(c)
    requires ExactIntegers(c.left.rows, c.leftColumn) && ExactIntegers(c.right.rows, c.rightColumn)
    ensures NestedLoop(Inner, c) == WherePairs(c, |c.left.rows|) <==> NoMixedNumbers(c)
  {
    hide Joinable, ExactIntegers, Pairs, WherePairs, SameMatches, NoMixedNumbers;
    PairsEquality(c, |c.left.rows|);
    NoMixedIff(c);
    assert NestedLoop(Inner, c) == Pairs(c, |c.left.rows|);
  }

  /** A user loaded from disk and an order just inserted, both with the number 1: WHERE calls the
      cells equal, and the join finds no pair. */
  lemma MixedTagsJoin()
    ensures var id := Column("id", INT, false, false, false, false);
      var c := Condition(TableData("users", [id], [map["id" := Int64(1)]], map[], 0, false),
                         TableData("orders", [id], [map["id" := Int(1)]], map[], 0, false), "id", "id");
      && Compare(Int64(1), Equal, Int(1)) && WhereMatches(c, c.left.rows[0], c.right.rows[0])
      && Joinable(c) && NestedLoop(Inner, c) == []
  {
    var id := Column("id", INT, false, false, false, false);
    var c := Condition(TableData("users", [id], [map["id" := Int64(1)]], map[], 0, false),
                       TableData("orders", [id], [map["id" := Int(1)]], map[], 0, false), "id", "id");
    hide NestedLoop, Joinable, NamesApart, Round;
    UndottedIds(c);
    NamesApartJoinable(c);
    EmptyInner(c);
  }

  lemma UndottedIds(c: Condition)
    requires c.left.name == "users" && c.right.name == "orders"
    requires forall row, col :: (row in c.left.rows || row in c.right.rows) && col in row ==> col == "id"
    ensures NamesApart(c)
  {
  }
}
