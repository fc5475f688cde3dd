/** The operators of WHERE by the text they are written with. */
module ComparisonLaws {
  import opened Values
  import opened Comparison

  /** The number that WHERE takes a cell for: an integer counts as its nearest float64. */
  ghost predicate Denotes(v: Value, x: real)
  {
    || v == Float(x)
    || exists n: i64 :: (v == Int(n) || v == Int64(n)) && x == Round(n) as real
  }

  ghost predicate IsNumeric(v: Value)
  {
    exists x :: Denotes(v, x)
  }

  lemma DenotesExact(v: Value, x: real)
    ensures Denotes(v, x) <==> NormalizeToFloat(v) == Some(x)
  {
    hide Round;
  }

  lemma NumericExact(v: Value)
    ensures IsNumeric(v) <==> v.Int? || v.Int64? || v.Float?
  {
    hide Round;
    if v.Int? || v.Int64? {
      assert Denotes(v, Round(v.n) as real);
    } else if v.Float? {
      assert Denotes(v, v.r);
    }
  }

  /** Up to 2^53 the number is the integer itself. */
  lemma DenotesInteger(n: i64)
    requires -TWO_53 <= n <= TWO_53
    ensures Denotes(Int(n), n as real) && Denotes(Int64(n), n as real)
  {
    RoundMonotone(n, n);
    hide Round;
  }

  /** Between numbers each operator is the relation it spells. */
  lemma NumberOperators(v: Value, w: Value, x: real, y: real)
    requires Denotes(v, x) && Denotes(w, y)
    ensures CompareValues(v, "=", w) <==> x == y
    ensures CompareValues(v, "!=", w) <==> x != y
    ensures CompareValues(v, "<>", w) <==> x != y
    ensures CompareValues(v, "<", w) <==> x < y
    ensures CompareValues(v, ">", w) <==> x > y
    ensures CompareValues(v, "<=", w) <==> x <= y
    ensures CompareValues(v, ">=", w) <==> x >= y
  {
    hide NormalizeToFloat;
    DenotesExact(v, x);
    DenotesExact(w, y);
    Spellings();
  }

  lemma Spellings()
    ensures RelationOf("=") == Some(Equal) && RelationOf("!=") == RelationOf("<>") == Some(NotEqual)
    ensures RelationOf("<") == Some(Less) && RelationOf(">") == Some(Greater)
    ensures RelationOf("<=") == Some(AtMost) && RelationOf(">=") == Some(AtLeast)
  {
  }

  // ------------------------------------------------------------------------- strings

  /** The strings agree up to position `k`, where the first one ends or has the smaller byte. */
  ghost predicate LessAt(a: string, b: string, k: nat)
  {
    k <= |a| && k < |b| && a[..k] == b[..k] && (k == |a| || a[k] < b[k])
  }

  lemma {:induction false} StringLessExact(a: string, b: string)
    ensures StringLess(a, b) <==> exists k: nat :: LessAt(a, b, k)
  {
    if b != [] && a == [] {
      assert LessAt(a, b, 0);
    } else if b != [] && a[0] < b[0] {
      assert LessAt(a, b, 0);
    } else if b != [] {
      StringLessExact(a[1..], b[1..]);
      if a[0] == b[0] && StringLess(a[1..], b[1..]) {
        var k: nat :| LessAt(a[1..], b[1..], k);
        assert a[..k + 1] == [a[0]] + a[1..][..k] && b[..k + 1] == [b[0]] + b[1..][..k];
        assert LessAt(a, b, k + 1);
      }
      if k: nat :| LessAt(a, b, k) {
        if k > 0 {
          assert a[0] == a[..k][0] == b[..k][0] == b[0];
          assert a[1..][..k - 1] == a[..k][1..] && b[1..][..k - 1] == b[..k][1..];
          assert LessAt(a[1..], b[1..], k - 1);
        }
      }
    }
  }

  /** Exactly one of a < b, a = b and b < a. */
  lemma {:induction false} StringsTotal(a: string, b: string)
    ensures StringLess(a, b) ==> a != b && !StringLess(b, a)
    ensures StringLess(a, b) || a == b || StringLess(b, a)
  {
    if a != [] && b != [] {
      StringsTotal(a[1..], b[1..]);
      if a[0] == b[0] && a[1..] == b[1..] {
        assert a == [a[0]] + a[1..] && b == [b[0]] + b[1..];
      }
    }
  }

  lemma {:induction false} StringsTransitive(a: string, b: string, c: string)
    requires StringLess(a, b) && StringLess(b, c)
    ensures StringLess(a, c)
  {
    if a != [] && a[0] == b[0] == c[0] {
      StringsTransitive(a[1..], b[1..], c[1..]);
    }
  }

  /** Between strings `<` asks for the first position that differs, or a proper prefix; it is a
      strict total order, and the other operators follow from it. */
  lemma StringOperators(a: string, b: string, c: string)
    ensures CompareValues(Str(a), "<", Str(b)) <==> exists k: nat :: LessAt(a, b, k)
    ensures CompareValues(Str(a), "=", Str(b)) <==> a == b
    ensures CompareValues(Str(a), "<", Str(b)) ==> a != b && !CompareValues(Str(b), "<", Str(a))
    ensures CompareValues(Str(a), "<", Str(b)) || a == b || CompareValues(Str(b), "<", Str(a))
    ensures CompareValues(Str(a), "<", Str(b)) && CompareValues(Str(b), "<", Str(c)) ==>
      CompareValues(Str(a), "<", Str(c))
  {
    hide StringLess, RelationOf;
    Spellings();
    StringLessExact(a, b);
    StringsTotal(a, b);
    if StringLess(a, b) && StringLess(b, c) {
      StringsTransitive(a, b, c);
    }
  }

  // ---------------------------------------------------------------- any two values

  /** Both are numbers or both are strings. */
  ghost predicate Comparable(v: Value, w: Value)
  {
    (IsNumeric(v) && IsNumeric(w)) || (v.Str? && w.Str?)
  }

  /** `!=` and `<>` negate `=`; `<=` is `<` or `=` on comparable values; `>` and `>=` turn `<` and
      `<=` round. */
  lemma OperatorsRelated(v: Value, w: Value)
    ensures CompareValues(v, "!=", w) <==> !CompareValues(v, "=", w)
    ensures CompareValues(v, "<>", w) <==> !CompareValues(v, "=", w)
    ensures CompareValues(v, ">", w) <==> CompareValues(w, "<", v)
    ensures CompareValues(v, ">=", w) <==> CompareValues(w, "<=", v)
    ensures Comparable(v, w) ==> (CompareValues(v, "<=", w) <==> CompareValues(v, "<", w) || CompareValues(v, "=", w))
  {
    hide StringLess, RelationOf, Round;
    Spellings();
    NumericExact(v);
    NumericExact(w);
    if v.Str? && w.Str? {
      StringsTotal(v.s, w.s);
    }
  }

  /** Values of different kinds, Booleans and NULL are equal when they are the same and are not
      ordered. */
  lemma Incomparable(v: Value, w: Value)
    requires !Comparable(v, w)
    ensures CompareValues(v, "=", w) <==> v == w
    ensures !CompareValues(v, "<", w) && !CompareValues(v, "<=", w)
  {
    hide RelationOf, Round;
    Spellings();
    NumericExact(v);
    NumericExact(w);
  }

  const OPERATORS: seq<string> := ["=", "!=", "<>", "<", ">", "<=", ">="]

  /** No other text is an operator. */
  lemma OtherOperators(v: Value, op: string, w: Value)
    requires op !in OPERATORS
    ensures !CompareValues(v, op, w)
  {
    assert OPERATORS[0] == "=" && OPERATORS[1] == "!=" && OPERATORS[2] == "<>" && OPERATORS[3] == "<";
    assert OPERATORS[4] == ">" && OPERATORS[5] == "<=" && OPERATORS[6] == ">=";
  }

  // ------------------------------------------------------------------------ integers

  /** Truncation drops the fraction; a number out of range becomes the smallest int64. */
  lemma TruncateExact(r: real)
    ensures var t := Truncate(r);
      if MIN_INT64 as real - 1.0 < r < MAX_INT64 as real + 1.0 then
        if r >= 0.0 then t as real <= r < t as real + 1.0 && t >= 0 else t as real - 1.0 < r <= t as real && t <= 0
      else t == MIN_INT64
  {
  }

  /** The value is the integer, as Go `int`, as `int64` or as a float64. */
  ghost predicate IsWhole(v: Value, n: i64)
  {
    v == Int(n) || v == Int64(n) || (v == Float(n as real) && Round(n) == n)
  }

  /** Insert and load take for an int64 exactly the integers and the floats that are one. */
  lemma WholeExact(v: Value, n: i64)
    ensures NormalizeToInt64(v) == Some(n) <==> IsWhole(v, n)
  {
    hide Round, Truncate;
    if v.Float? {
      SmallestRounds();
      if v.r == Round(Truncate(v.r)) as real {
        WholeTruncated(v.r, Round(Truncate(v.r)));
      }
      if v.r == n as real {
        WholeTruncated(v.r, n);
      }
    }
  }

  lemma SmallestRounds()
    ensures Round(MIN_INT64) == MIN_INT64
  {
    CollisionAtTheEnd(MAX_INT64 + 1);
    hide RoundTo, Ulp;
  }

  /** A whole number in range is its own truncation. */
  lemma WholeTruncated(r: real, m: int)
    requires r == m as real
    ensures Truncate(r) == if MIN_INT64 <= m <= MAX_INT64 then m else MIN_INT64
  {
  }
}
