/** Columns, and a table as a plain value: what a reader holding the table's lock sees. */
module Schema {
  import opened Values

  datatype ColumnType = INT | FLOAT | TEXT | BOOL | DATE | TIME | EMAIL | Other(name: string)

  datatype Column = Column(
    name: string,
    typ: ColumnType,
    primaryKey: bool,
    unique: bool,
    notNull: bool,
    autoIncrement: bool)

  /** One hash index: the positions of the rows holding each value. */
  datatype Index = Index(unique: bool, data: map<Value, seq<nat>>)

  datatype TableData = TableData(
    name: string,
    columns: seq<Column>,
    rows: seq<Row>,
    indexes: map<string, Index>,
    lastInsertId: i64,
    dirty: bool)

  function FindColumn(columns: seq<Column>, name: string): (c: Option<Column>)
    ensures c.Some? <==> exists k :: 0 <= k < |columns| && columns[k].name == name
    ensures c.Some? ==> c.value in columns && c.value.name == name
  {
    if columns == [] then None
    else if columns[0].name == name then Some(columns[0])
    else FindColumn(columns[1..], name)
  }

  predicate KnownColumn(columns: seq<Column>, name: string)
  {
    FindColumn(columns, name).Some?
  }

  /** The first auto-increment primary key column. */
  function AutoColumn(columns: seq<Column>): (c: Option<Column>)
    ensures c.Some? ==> c.value in columns && c.value.autoIncrement && c.value.primaryKey
  {
    if columns == [] then None
    else if columns[0].autoIncrement && columns[0].primaryKey then Some(columns[0])
    else AutoColumn(columns[1..])
  }

  function PrimaryKey(columns: seq<Column>): (c: Option<Column>)
    ensures c.Some? ==> c.value in columns && c.value.primaryKey
  {
    if columns == [] then None
    else if columns[0].primaryKey then Some(columns[0])
    else PrimaryKey(columns[1..])
  }
}
