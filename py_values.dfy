/** The Python values that flow through the scraper's dictionaries, and the SQLite values
    they become when bound as statement parameters. */
module PyValues {
  import opened Base

  datatype PyValue = PyNone | PyStr(s: string) | PyInt(i: int) | PyList(items: seq<PyValue>)

  /** What a SQLite column holds after a parameter was bound to it. */
  datatype SqlValue = Null | Text(text: string) | Integer(n: int)

  /** sqlite3's parameter binding: `None`, `str` and `int` are supported, a `list` is not
      (binding one raises before the statement runs). */
  function Bind(v: PyValue): (r: Option<SqlValue>)
    ensures r.None? <==> v.PyList?
    ensures r == Some(Null) <==> v == PyNone
  {
    match v
    case PyNone => Some(Null)
    case PyStr(s) => Some(Text(s))
    case PyInt(i) => Some(Integer(i))
    case PyList(_) => None
  }

  /** A Python optional string: the value, or `None` when it is missing. */
  function OptionalStr(o: Option<string>): PyValue {
    if o.Some? then PyStr(o.value) else PyNone
  }

  function OptionalInt(o: Option<int>): PyValue {
    if o.Some? then PyInt(o.value) else PyNone
  }
}
