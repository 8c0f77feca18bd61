/** Python data as the auditor handles it: parsed JSON/TOML documents
    (registry metadata, configuration, offline feeds), truthiness, len()
    and dict.get, and the outcome of a call that may raise. */
module Values {

  datatype Option<+T> = None | Some(value: T) {
    /** The value, or `default` when None. */
    function GetOr(default: T): T {
      match this
      case Some(v) => v
      case None => default
    }
  }

  /** A parsed JSON value; objects are dicts with string keys. */
  datatype Value =
    | Null
    | Bool(b: bool)
    | Int(i: int)
    | Str(s: string)
    | List(items: seq<Value>)
    | Object(fields: map<string, Value>)

  /** The empty dict `{}`. */
  const Empty: Value := Object(map[])

  /** Python's `bool(v)`. */
  predicate Truthy(v: Value) {
    match v
    case Null => false
    case Bool(b) => b
    case Int(i) => i != 0
    case Str(s) => s != ""
    case List(xs) => xs != []
    case Object(m) => m != map[]
  }

  /** Python's `len(v)`; None where `len` raises TypeError. */
  function Len(v: Value): (r: Option<nat>)
    ensures r.Some? <==> (v.Str? || v.List? || v.Object?)
    ensures r.Some? ==> (r.value == 0 <==> !Truthy(v))
  {
    match v
    case Str(s) => Some(|s|)
    case List(xs) => Some(|xs|)
    case Object(m) =>
      assert m != map[] ==> exists k :: k in m;
      Some(|m|)
    case _ => None
  }

  /** Python's `d.get(k, default)`. */
  function Get(d: map<string, Value>, k: string, default: Value): Value {
    if k in d then d[k] else default
  }

  /** What a call into an adapter does: return a value or raise. */
  datatype Outcome = Returned(value: Value) | Raised
}
