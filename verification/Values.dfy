/** Cell values, rows, and the two small result types every other module uses. */
module Values {

  datatype Option<+T> = None | Some(value: T)

  datatype Result<+T, +E> = Ok(value: T) | Err(error: E) {
    predicate IsFailure() {
      Err?
    }

    function PropagateFailure<U>(): Result<U, E>
      requires Err?
    {
      Err(error)
    }

    function Extract(): T
      requires Ok?
    {
      value
    }
  }

  const MAX_INT64: int := 0x7FFF_FFFF_FFFF_FFFF
  const MIN_INT64: int := -0x8000_0000_0000_0000

  /** Go's `int64`; `int` has the same width on the platforms the program runs on. */
  type i64 = n: int | -0x8000_0000_0000_0000 <= n <= 0x7FFF_FFFF_FFFF_FFFF

  /** A cell of a row, tagged with its dynamic Go type.  Map keys compare by tag and
      payload, so Int(5) and Int64(5) are different keys.  Floats come from literals and
      from JSON and are therefore finite, which makes a real number stand for each. */
  datatype Value =
    | Int(n: i64)
    | Int64(n: i64)
    | Float(r: real)
    | Str(s: string)
    | Bool(b: bool)
    | Null

  /** A row: the cells that are present, by column name. */
  type Row = map<string, Value>

  type RowPredicate = Row -> bool

  /** Two's complement wrap-around of a 64-bit addition. */
  function Wrap64(n: int): (w: i64)
    ensures (w - n) % 0x1_0000_0000_0000_0000 == 0
    ensures MIN_INT64 <= n <= MAX_INT64 ==> w == n
  {
    (n + 0x8000_0000_0000_0000) % 0x1_0000_0000_0000_0000 - 0x8000_0000_0000_0000
  }
}
