/** Small shared vocabulary: optional values and the outcome of one database statement. */
module Base {

  datatype Option<+T> = None | Some(value: T)

  /** What happened to one statement sent to PostgreSQL: whether `DatabaseConnection`
      could connect for this call, and whether `execute_query` (or the cursor call)
      succeeded once connected. A failed statement is rolled back: the table is unchanged. */
  datatype Attempt = Attempt(connected: bool, executeOk: bool) {
    predicate Takes() { connected && executeOk }
  }

  /** Timestamps are counted in seconds. */
  const SecondsPerDay: int := 86400

  /** The number of pauses taken between `n` items processed one after another, with none
      after the last. */
  function Gaps(n: nat): nat {
    if n == 0 then 0 else n - 1
  }

  /** Python's `min` on two integers. */
  function Min(a: int, b: int): int { if a <= b then a else b }

  /** Python slicing `s[:n]` for a non-negative `n`: the first `n` elements, or all of them. */
  function Take<T>(s: seq<T>, n: nat): (r: seq<T>)
    ensures |r| == Min(|s|, n)
    ensures r == s[..|r|]
  {
    if |s| <= n then s else s[..n]
  }
}

/** The JSON-like values the Python code handles as `dict`/`list`/`str`/numbers/`None`. */
module Json {

  /** A parsed JSON value. Numbers are kept as reals: the modelled code only passes them along. */
  datatype Value =
    | Null
    | Bool(b: bool)
    | Num(x: real)
    | Str(s: string)
    | List(items: seq<Value>)
    | Obj(fields: map<string, Value>)

  /** A `dict` with string keys. */
  type Record = map<string, Value>

  /** Python truthiness: `None`, `False`, zero, `""`, `[]` and `{}` are false. */
  predicate Truthy(v: Value) {
    match v
    case Null => false
    case Bool(b) => b
    case Num(x) => x != 0.0
    case Str(s) => s != ""
    case List(items) => items != []
    case Obj(fields) => fields != map[]
  }

  /** `d.get(key)`: the value stored under `key`, or `None` when the key is absent. */
  function Get(d: Record, key: string): Value {
    if key in d then d[key] else Null
  }
}
