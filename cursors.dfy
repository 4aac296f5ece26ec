/** The two shapes of row a mysql-connector cursor hands back, and what reading a column does
    with each: `conn.cursor()` fetches tuples, indexed by column position, and
    `conn.cursor(dictionary=True)` fetches dictionaries, keyed by column name. */
module Cursors {
  import opened Results

  datatype CursorKind = TupleRows | DictRows

  /** `str(e)` of the KeyError that `row[0]` raises on a dictionary row. */
  const NoKeyZero: string := "0"

  /** `str(e)` of the AttributeError that `row.get(name)` raises on a tuple row. */
  const TupleHasNoGet: string := "'tuple' object has no attribute 'get'"

  /** `row[0]` on a fetched row whose first selected column holds `value`: a tuple gives the
      value; a dictionary has no key 0 and raises. */
  function FirstColumn<T>(kind: CursorKind, value: T): (r: Result<T>)
    ensures r.Ok? <==> kind == TupleRows
    ensures r.Ok? ==> r.value == value
    ensures r.Err? ==> r.error == Raised(NoKeyZero)
  {
    match kind
    case TupleRows => Ok(value)
    case DictRows => Err(Raised(NoKeyZero))
  }

  /** `row.get(name)` on a fetched row holding `value` under that column: a dictionary gives the
      value; a tuple has no `get` and raises. */
  function ColumnGet<T>(kind: CursorKind, value: T): (r: Result<T>)
    ensures r.Ok? <==> kind == DictRows
    ensures r.Ok? ==> r.value == value
    ensures r.Err? ==> r.error == Raised(TupleHasNoGet)
  {
    match kind
    case DictRows => Ok(value)
    case TupleRows => Err(Raised(TupleHasNoGet))
  }
}
