/** Value comparison as WHERE does it: both sides become float64 when they are numbers. */
module Comparison {
  import opened Values

  const TWO_53: int := 0x20_0000_0000_0000
  const TWO_54: int := 0x40_0000_0000_0000

  // ---------------------------------------------------------------- int64 to float64

  /** The distance between neighbouring float64 values at magnitude `m`. */
  function Ulp(m: nat): (u: nat)
    ensures m < TWO_53 ==> u == 1
    ensures m >= TWO_53 ==> u >= 2 && 0x10_0000_0000_0000 * u <= m
    ensures m < TWO_53 * u
  {
    if m < TWO_53 then 1 else 2 * Ulp(m / 2)
  }

  /** Rounds the magnitude q * u + rem to the nearest multiple of `u`, ties to the even one. */
  function RoundParts(q: nat, rem: nat, u: nat): (r: int)
    ensures r >= 0
  {
    if 2 * rem < u || (2 * rem == u && q % 2 == 0) then q * u else (q + 1) * u
  }

  function RoundTo(m: nat, u: nat): (r: int)
    requires u >= 1
    ensures r >= 0
  {
    RoundParts(m / u, m % u, u)
  }

  /** `float64(n)`: round to nearest, ties to even (section 4.3.1 of IEEE 754-2019).
      The result is a whole number, so it is given as an int. */
  function Round(n: int): (r: int)
  {
    if n >= 0 then RoundTo(n, Ulp(n)) else -RoundTo(-n, Ulp(-n))
  }

  /** `int64(v)` of a float64: truncation toward zero, and for a value out of range the
      most negative int64, as on amd64. */
  function Truncate(v: real): (t: i64)
  {
    var t := if v >= 0.0 then v.Floor else -((-v).Floor);
    if MIN_INT64 <= t <= MAX_INT64 then t else MIN_INT64
  }

  // ---------------------------------------------------------------- the comparison

  function NormalizeToFloat(v: Value): (f: Option<real>)
  {
    match v
    case Int(n) => Some(Round(n) as real)
    case Int64(n) => Some(Round(n) as real)
    case Float(r) => Some(r)
    case _ => None
  }

  function NormalizeToInt64(v: Value): (i: Option<i64>)
  {
    match v
    case Float(r) => if r == Round(Truncate(r)) as real then Some(Truncate(r)) else None
    case Int64(n) => Some(n)
    case Int(n) => Some(n)
    case _ => None
  }

  /** Byte-wise lexicographic order on strings. */
  predicate StringLess(a: string, b: string)
  {
    b != [] && (a == [] || a[0] < b[0] || (a[0] == b[0] && StringLess(a[1..], b[1..])))
  }

  datatype Relation = Equal | NotEqual | Less | Greater | AtMost | AtLeast

  /** The comparison that an operator string names. */
  function RelationOf(op: string): (r: Option<Relation>)
  {
    if op == "=" then Some(Equal)
    else if op == "!=" || op == "<>" then Some(NotEqual)
    else if op == "<" then Some(Less)
    else if op == ">" then Some(Greater)
    else if op == "<=" then Some(AtMost)
    else if op == ">=" then Some(AtLeast)
    else None
  }

  predicate CompareFloats(a: real, rel: Relation, b: real)
  {
    match rel
    case Equal => a == b
    case NotEqual => a != b
    case Less => a < b
    case Greater => a > b
    case AtMost => a <= b
    case AtLeast => a >= b
  }

  predicate CompareStrings(a: string, rel: Relation, b: string)
  {
    match rel
    case Equal => a == b
    case NotEqual => a != b
    case Less => StringLess(a, b)
    case Greater => StringLess(b, a)
    case AtMost => !StringLess(b, a)
    case AtLeast => !StringLess(a, b)
  }

  /** The value of `left rel right`: numbers as float64, then strings, then plain equality,
      under which values of different kinds are unequal and not ordered. */
  predicate Compare(left: Value, rel: Relation, right: Value)
  {
    var n1, n2 := NormalizeToFloat(left), NormalizeToFloat(right);
    if n1.Some? && n2.Some? then CompareFloats(n1.value, rel, n2.value)
    else if left.Str? && right.Str? then CompareStrings(left.s, rel, right.s)
    else if rel.Equal? then left == right
    else if rel.NotEqual? then left != right
    else false
  }

  /** An operator that names no comparison is false of all values. */
  predicate CompareValues(left: Value, op: string, right: Value)
  {
    var rel := RelationOf(op);
    rel.Some? && Compare(left, rel.value, right)
  }

  // ---------------------------------------------------------------- rounding laws

  lemma RoundToBounds(m: nat, u: nat)
    requires u >= 1
    ensures m / u * u <= m < (m / u + 1) * u
    ensures RoundTo(m, u) == m / u * u || RoundTo(m, u) == (m / u + 1) * u
    ensures 0 <= m / u * u < (m / u + 1) * u
  {
    assert m == m / u * u + m % u;
    assert (m / u + 1) * u == m / u * u + u;
    MulMonotone(0, m / u, u);
  }

  /** Rounding the number written as q units and a remainder. */
  lemma RoundToParts(q: nat, rem: nat, u: nat)
    requires rem < u
    ensures q * u + rem >= 0 && RoundTo(q * u + rem, u) == RoundParts(q, rem, u)
  {
    MulMonotone(0, q, u);
    QuotientUnique(q, rem, u);
  }

  lemma QuotientUnique(q: nat, rem: nat, u: nat)
    requires rem < u
    ensures (q * u + rem) / u == q && (q * u + rem) % u == rem
  {
    var q', r' := (q * u + rem) / u, (q * u + rem) % u;
    assert q' * u + r' == q * u + rem;
    if q' < q {
      MulMonotone(q' + 1, q, u);
    } else if q' > q {
      MulMonotone(q + 1, q', u);
    }
  }

  lemma MulMonotone(a: nat, b: nat, u: nat)
    requires a <= b
    ensures a * u <= b * u
  {
    assert (b - a) * u >= 0;
    assert b * u == a * u + (b - a) * u;
  }

  /** The rounded magnitude stays inside its binade, whose upper end is included. */
  lemma RoundStaysInBinade(m: nat)
    ensures var u := Ulp(m);
      && u >= 1
      && RoundTo(m, u) <= TWO_53 * u
      && (m >= TWO_53 ==> 0x10_0000_0000_0000 * u <= RoundTo(m, u))
      && (m <= TWO_53 ==> RoundTo(m, u) == m)
  {
    var u := Ulp(m);
    RoundToBounds(m, u);
    if m / u + 1 > TWO_53 {
      MulMonotone(TWO_53, m / u, u);
    }
    MulMonotone(m / u + 1, TWO_53, u);
    if m >= TWO_53 {
      if m / u < 0x10_0000_0000_0000 {
        MulMonotone(m / u + 1, 0x10_0000_0000_0000, u);
      }
      MulMonotone(0x10_0000_0000_0000, m / u, u);
    }
    if m == TWO_53 {
      assert u == 2 * Ulp(m / 2) == 2;
    }
  }

  /** Along the magnitudes the float spacing either stays or at least doubles. */
  lemma {:induction false} UlpGrows(a: nat, b: nat)
    requires a <= b
    ensures Ulp(a) == Ulp(b) || 2 * Ulp(a) <= Ulp(b)
  {
    if a >= TWO_53 {
      UlpGrows(a / 2, b / 2);
    }
  }

  lemma RoundToSameUnit(a: nat, b: nat, u: nat)
    requires a <= b && u >= 1
    ensures RoundTo(a, u) <= RoundTo(b, u)
  {
    hide RoundParts;
    RoundToBounds(a, u);
    RoundToBounds(b, u);
    var qa, qb := a / u, b / u;
    if qa < qb {
      MulMonotone(qa + 1, qb, u);
    } else if qa > qb {
      MulMonotone(qb + 1, qa, u);
    } else {
      assert a == qa * u + a % u && b == qa * u + b % u;
      RoundPartsMonotone(qa, a % u, b % u, u);
    }
  }

  lemma RoundPartsMonotone(q: nat, r: nat, s: nat, u: nat)
    requires r <= s < u
    ensures RoundParts(q, r, u) <= RoundParts(q, s, u)
  {
    assert (q + 1) * u == q * u + u;
  }

  lemma RoundToMonotone(a: nat, b: nat)
    requires a <= b
    ensures RoundTo(a, Ulp(a)) <= RoundTo(b, Ulp(b))
  {
    UlpGrows(a, b);
    RoundStaysInBinade(a);
    RoundStaysInBinade(b);
    if Ulp(b) == Ulp(a) {
      RoundToSameUnit(a, b, Ulp(a));
    }
  }

  /** Converting to float64 keeps the order of all integers, and changes none of them up
      to magnitude 2^53. */
  lemma RoundMonotone(a: int, b: int)
    requires a <= b
    ensures Round(a) <= Round(b)
    ensures -TWO_53 <= a <= TWO_53 ==> Round(a) == a
  {
    hide RoundTo;
    if a >= 0 {
      RoundToMonotone(a, b);
      RoundStaysInBinade(a);
    } else {
      RoundStaysInBinade(-a);
      if b < 0 {
        RoundToMonotone(-b, -a);
      }
    }
  }

  /** On integer cells no comparison contradicts the order of the integers, and up to
      magnitude 2^53 the comparison is that order. */
  lemma ComparisonFollowsOrder(a: i64, b: i64)
    requires a <= b
    ensures Compare(Int64(a), AtMost, Int64(b))
    ensures !Compare(Int64(a), Greater, Int64(b))
    ensures -TWO_53 <= a && b <= TWO_53 ==>
      (Compare(Int64(a), Less, Int64(b)) <==> a < b)
  {
    RoundMonotone(a, b);
    RoundMonotone(b, b);
  }

  /** A float64 is converted to itself. */
  lemma RoundIdempotent(n: int)
    ensures Round(Round(n)) == Round(n)
  {
    hide RoundTo, Ulp;
    RoundToIdempotent(if n >= 0 then n else -n);
  }

  lemma RoundToIdempotent(m: nat)
    ensures RoundTo(RoundTo(m, Ulp(m)), Ulp(RoundTo(m, Ulp(m)))) == RoundTo(m, Ulp(m))
  {
    hide RoundTo, RoundParts, Ulp;
    var u := Ulp(m);
    var r := RoundTo(m, u);
    RoundStaysInBinade(m);
    RoundStaysInBinade(r);
    if TWO_53 < r < TWO_53 * u {
      RoundToBounds(m, u);
      var q := if r == m / u * u then m / u else m / u + 1;
      UlpOfBinade(m, r);
      MultipleExact(q, u);
    } else if TWO_53 < r {
      UlpTop(m);
      MultipleExact(TWO_53 / 2, 2 * u);
    }
  }

  lemma MultipleExact(q: nat, u: nat)
    requires u >= 1
    ensures q * u >= 0 && RoundTo(q * u, u) == q * u
  {
    RoundToParts(q, 0, u);
  }

  /** The upper end of a binade belongs to the next one. */
  lemma UlpTop(m: nat)
    requires Ulp(m) >= 2
    ensures Ulp(TWO_53 * Ulp(m)) == 2 * Ulp(m)
  {
    var u := Ulp(m);
    UlpOfBinade(m, 0x10_0000_0000_0000 * u);
    assert TWO_53 * u / 2 == 0x10_0000_0000_0000 * u;
  }

  // ------------------------------------------------- where `=` is the equality of keys

  /** The integers whose float64 is shared with no other integer.  Between 2^53 and 2^54
      every other even number still is one: its odd neighbours are ties that round away. */
  predicate FloatUnique(a: int)
  {
    var m := if a >= 0 then a else -a;
    m < TWO_53 || (TWO_53 < m < TWO_54 && m % 4 == 2)
  }

  predicate IsInteger(v: Value)
  {
    v.Int? || v.Int64?
  }

  /** Among int64 cells, WHERE's `=` agrees with the key equality that indexes and joins use for
      exactly the integers of FloatUnique. */
  lemma EqualityIsKeyEquality(a: i64)
    ensures (forall b: i64 :: Compare(Int64(a), Equal, Int64(b)) <==> Int64(a) == Int64(b)) <==> FloatUnique(a)
  {
    if FloatUnique(a) {
      forall b: i64 ensures Compare(Int64(a), Equal, Int64(b)) <==> Int64(a) == Int64(b) {
        if Compare(Int64(a), Equal, Int64(b)) {
          UniqueFloat(a, b);
        }
      }
    } else {
      var b := Collision(a);
      assert Compare(Int64(a), Equal, Int64(b));
    }
  }

  /** Among all integer cells, `=` and key equality agree about a pair with such a number exactly
      when the two are not the same number under both tags. */
  lemma TagsDecide(v: Value, w: Value)
    requires IsInteger(v) && IsInteger(w) && FloatUnique(v.n)
    ensures (Compare(v, Equal, w) <==> v == w) <==> (v.n == w.n ==> v.Int? == w.Int?)
    ensures Compare(v, Equal, w) <==> v.n == w.n
  {
    hide Round, FloatUnique;
    if Compare(v, Equal, w) {
      UniqueFloat(v.n, w.n);
    }
  }

  /** 2^53 and its successor are equal in WHERE and different keys. */
  lemma TwoKeysOneFloat()
    ensures Compare(Int64(TWO_53), Equal, Int64(TWO_53 + 1)) && Int64(TWO_53) != Int64(TWO_53 + 1)
    ensures Round(TWO_53) == Round(TWO_53 + 1) == TWO_53
  {
    RoundHalves(TWO_53);
    RoundHalves(TWO_53 + 1);
  }

  lemma UniqueFloat(a: int, b: int)
    requires FloatUnique(a)
    requires Round(a) == Round(b)
    ensures a == b
  {
    hide RoundTo, Ulp;
    RoundStaysInBinade(if a < 0 then -a else a);
    RoundStaysInBinade(if b < 0 then -b else b);
    if a < 0 && b < 0 {
      UniqueMagnitude(-a, -b);
    } else if a >= 0 && b >= 0 {
      UniqueMagnitude(a, b);
    }
  }

  lemma UniqueMagnitude(a: nat, b: nat)
    requires FloatUnique(a)
    requires RoundTo(a, Ulp(a)) == RoundTo(b, Ulp(b))
    ensures a == b
  {
    RoundStaysInBinade(a);
    RoundStaysInBinade(b);
    if TWO_53 < a {
      RoundHalves(a);
      if TWO_53 <= b < TWO_54 {
        RoundHalves(b);
      }
    }
  }

  /** Between 2^53 and 2^54 floats are the even numbers, and an odd number goes to the
      neighbour divisible by four. */
  lemma RoundHalves(m: nat)
    requires TWO_53 <= m < TWO_54
    ensures Ulp(m) == 2
    ensures RoundTo(m, 2) == if m % 4 == 1 then m - 1 else if m % 4 == 3 then m + 1 else m
  {
    assert m / 2 < TWO_53;
  }

  /** Another int64 with the same float64. */
  lemma Collision(a: i64) returns (b: i64)
    requires !FloatUnique(a)
    ensures b != a && Round(b) == Round(a)
  {
    hide RoundTo, Ulp;
    var m: int := if a >= 0 then a else 0 - a;
    var c := MagnitudeCollision(m);
    b := if a >= 0 then c else 0 - c;
  }

  lemma UlpOfBinade(m: nat, c: nat)
    requires Ulp(m) >= 2
    requires 0x10_0000_0000_0000 * Ulp(m) <= c < TWO_53 * Ulp(m)
    ensures Ulp(c) == Ulp(m)
  {
    UlpGrows(if m <= c then m else c, if m <= c then c else m);
  }

  lemma MagnitudeCollision(m: nat) returns (c: int)
    requires m <= 0x8000_0000_0000_0000
    requires !FloatUnique(m)
    ensures c != m && c > 0 && RoundTo(c, Ulp(c)) == RoundTo(m, Ulp(m))
    ensures c <= 0x8000_0000_0000_0000
    ensures m <= MAX_INT64 ==> c <= MAX_INT64
  {
    hide RoundTo, Ulp;
    if m >= MAX_INT64 {
      c := m - 1;
      CollisionAtTheEnd(m);
      CollisionAtTheEnd(c);
    } else if m < TWO_54 {
      c := OddCollision(m);
    } else {
      c := BlockCollision(m);
    }
  }

  /** Between 2^53 and 2^54 an odd number shares the float of a multiple of four. */
  lemma OddCollision(m: nat) returns (c: nat)
    requires TWO_53 <= m < TWO_54 && m % 4 != 2
    ensures c != m && 0 < c <= MAX_INT64 && RoundTo(c, Ulp(c)) == RoundTo(m, Ulp(m))
  {
    hide RoundTo, Ulp;
    RoundHalves(m);
    c := if m % 4 == 1 then m - 1 else m + 1;
    if c < TWO_54 {
      RoundHalves(c);
    } else {
      TwoPow54();
    }
  }

  lemma TwoPow54()
    ensures RoundTo(TWO_54, Ulp(TWO_54)) == TWO_54
  {
    assert Ulp(TWO_54) == 2 * Ulp(TWO_53);
    RoundHalves(TWO_53);
  }

  /** From 2^54 on the float spacing is at least four, so each float stands for at least two
      adjacent integers of one binade. */
  lemma BlockCollision(m: nat) returns (c: nat)
    requires TWO_54 <= m < MAX_INT64
    ensures c != m && 0 < c <= MAX_INT64 && RoundTo(c, Ulp(c)) == RoundTo(m, Ulp(m))
  {
    hide RoundTo, RoundParts, Ulp;
    var u := Ulp(m);
    UlpDivisible(m);
    var q, rem := m / u, m % u;
    QuotientInBinade(m, u);
    var q', rem' := Neighbour(q, rem, u);
    c := q' * u + rem';
    InBinade(q', rem', u);
    UlpOfBinade(m, c);
    RoundToParts(q, rem, u);
    RoundToParts(q', rem', u);
  }

  lemma UlpDivisible(m: nat)
    requires m >= TWO_54
    ensures Ulp(m) % 4 == 0
  {
    assert Ulp(m) == 2 * Ulp(m / 2);
    assert m / 2 >= TWO_53;
  }

  lemma InBinade(q: nat, rem: nat, u: nat)
    requires 0x10_0000_0000_0000 <= q < TWO_53 && rem < u
    ensures 0x10_0000_0000_0000 * u <= q * u + rem < TWO_53 * u
  {
    MulMonotone(0x10_0000_0000_0000, q, u);
    MulMonotone(q + 1, TWO_53, u);
    assert (q + 1) * u == q * u + u;
  }

  lemma QuotientInBinade(m: nat, u: nat)
    requires u >= 1 && 0x10_0000_0000_0000 * u <= m < TWO_53 * u
    ensures 0x10_0000_0000_0000 <= m / u < TWO_53
    ensures m == m / u * u + m % u
  {
    RoundToBounds(m, u);
    if m / u < 0x10_0000_0000_0000 {
      MulMonotone(m / u + 1, 0x10_0000_0000_0000, u);
    } else if m / u >= TWO_53 {
      MulMonotone(TWO_53, m / u, u);
    }
  }

  /** The integer next to q * u + rem, above or below, that rounds the same way. */
  lemma Neighbour(q: nat, rem: nat, u: nat) returns (q': nat, rem': nat)
    requires u % 4 == 0 && rem < u && 0 < q < TWO_53
    ensures 0 < q' < TWO_53 && rem' < u && (q == q' || q + 1 == q')
    ensures q' * u + rem' == q * u + rem + 1 || q' * u + rem' == q * u + rem - 1
    ensures RoundParts(q', rem', u) == RoundParts(q, rem, u)
  {
    q', rem' := q, rem;
    if 2 * rem < u {
      rem' := if rem == 0 then 1 else rem - 1;
    } else if 2 * rem == u {
      rem' := if q % 2 == 0 then rem - 1 else rem + 1;
    } else if rem < u - 1 {
      rem' := rem + 1;
    } else if u > 4 || q % 2 == 1 {
      rem' := rem - 1;
    } else {
      q', rem' := q + 1, 0;
      assert (q + 1) * u == q * u + u;
    }
  }

  /** The last two int64 magnitudes share a float with 2^63. */
  lemma CollisionAtTheEnd(m: nat)
    requires 0x7FFF_FFFF_FFFF_FFFE <= m <= 0x8000_0000_0000_0000
    ensures RoundTo(m, Ulp(m)) == 0x8000_0000_0000_0000
  {
    hide RoundTo;
    UlpNearTheEnd(m);
    if m == 0x8000_0000_0000_0000 {
      RoundToParts(TWO_53 / 2, 0, 0x800);
    } else {
      RoundToParts(TWO_53 - 1, m - (TWO_53 - 1) * 0x400, 0x400);
    }
  }

  lemma UlpNearTheEnd(m: nat)
    requires 0x7FFF_FFFF_FFFF_FFFE <= m <= 0x8000_0000_0000_0000
    ensures Ulp(m) == if m == 0x8000_0000_0000_0000 then 0x800 else 0x400
  {
    hide Ulp;
    UlpOfPower(10);
    UlpOfPower(11);
    assert Power(10) == 0x400 && Power(11) == 0x800;
    if m < 0x8000_0000_0000_0000 {
      UlpOfBinade(0x4000_0000_0000_0000, m);
    }
  }

  function Power(k: nat): (p: nat)
    ensures p >= 1
  {
    if k == 0 then 1 else 2 * Power(k - 1)
  }

  lemma {:induction false} UlpOfPower(k: nat)
    ensures Ulp(0x10_0000_0000_0000 * Power(k)) == Power(k)
  {
    if k > 0 {
      UlpOfPower(k - 1);
      assert 0x10_0000_0000_0000 * Power(k) / 2 == 0x10_0000_0000_0000 * Power(k - 1);
    }
  }
}
