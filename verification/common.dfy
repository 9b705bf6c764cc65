/** Values shared by every part of the model: optional values, results, form
    and query-string fields, and the id-keyed tables that stand for the
    relational store. */
module Common {

  /** A value that may be absent: Python's `None` or SQL's NULL. */
  datatype Option<+T> = None | Some(value: T) {
    function GetOr(default: T): T {
      if Some? then value else default
    }
  }

  /** The outcome of an operation: a value or the error that stopped it. */
  datatype Result<+T, +E> = Ok(value: T) | Err(error: E)

  /** `s or None` on a string: only the empty string becomes None. */
  function NoneIfEmpty(s: string): (r: Option<string>)
    ensures r.None? <==> s == ""
    ensures r.Some? ==> r.value == s
  {
    if s == "" then None else Some(s)
  }

  /** `form.get(key) or None`: a missing field and an empty one both become None. */
  function Blank(field: Option<string>): (r: Option<string>)
    ensures r.None? <==> (field.None? || field.value == "")
    ensures r.Some? ==> r == field
  {
    if field.Some? && field.value == "" then None else field
  }

  /** `float(field) if field else None`: None for an absent or empty
      field, otherwise the parsed number, or an error when `float()` would
      raise. */
  function OptionalReal(field: Option<string>, parseReal: string -> Option<real>): (r: Result<Option<real>, ()>)
    ensures Blank(field).None? ==> r == Ok(None)
    ensures Blank(field).Some? ==> (r.Ok? <==> parseReal(field.value).Some?)
    ensures Blank(field).Some? && r.Ok? ==> r.value == Some(parseReal(field.value).value)
  {
    match Blank(field)
    case None => Ok(None)
    case Some(text) =>
      match parseReal(text)
      case None => Err(())
      case Some(x) => Ok(Some(x))
  }

  /** `args.get(key, default)` on a query string. */
  function Arg(args: map<string, string>, key: string, default: string): string {
    if key in args then args[key] else default
  }

  /** A table before its invariant: rows keyed by id and the next serial value. */
  datatype RawTable<T> = RawTable(rows: map<int, T>, next: int)

  /** A table whose serial counter lies above every id in use, so that an
      insert always receives an id no row has. */
  type Table<T> = t: RawTable<T> | forall k :: k in t.rows ==> k < t.next
    witness RawTable(map[], 0)

  /** INSERT with a serial key: the new row gets a fresh id and no other row moves. */
  function Insert<T>(t: Table<T>, v: T): (r: (Table<T>, int))
    ensures r.1 !in t.rows
    ensures r.0.rows == t.rows[r.1 := v]
    ensures |r.0.rows| == |t.rows| + 1
  {
    (RawTable(t.rows[t.next := v], t.next + 1), t.next)
  }

  /** DELETE ... WHERE id = k. */
  function Delete<T>(t: Table<T>, k: int): (r: Table<T>)
    ensures r.rows.Keys == t.rows.Keys - {k}
    ensures forall j :: j in r.rows ==> r.rows[j] == t.rows[j]
  {
    RawTable(t.rows - {k}, t.next)
  }

  /** UPDATE ... WHERE id = k on a row that exists. */
  function Update<T>(t: Table<T>, k: int, v: T): (r: Table<T>)
    requires k in t.rows
    ensures r.rows.Keys == t.rows.Keys
    ensures r.rows[k] == v
    ensures forall j :: j in t.rows && j != k ==> r.rows[j] == t.rows[j]
  {
    RawTable(t.rows[k := v], t.next)
  }
}
