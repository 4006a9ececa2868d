/**
 * JSON values: the shape of everything the pipeline reads from and writes
 * to its cache and its `*.json` files (artifact records, API payloads,
 * cached bodies). Python's `None` is `Null`; a dict is an `Object`.
 */
module Json {
  import opened Wrappers

  datatype Json =
    | Null
    | Bool(b: bool)
    | Int(i: int)
    | Str(s: string)
    | List(items: seq<Json>)
    | Object(fields: map<string, Json>)

  /** A Python dict of JSON values, such as one artifact record. */
  type Record = map<string, Json>

  /** Python truthiness: `None`, `False`, `0`, `''`, `[]` and `{}` are false. */
  predicate Truthy(j: Json)
  {
    match j
    case Null => false
    case Bool(b) => b
    case Int(i) => i != 0
    case Str(s) => s != ""
    case List(items) => |items| > 0
    case Object(fields) => |fields| > 0
  }

  /** The value of `key` in a dict, `default` when it is missing. */
  function GetOr(d: Record, key: string, default: Json): Json
  {
    if key in d then d[key] else default
  }

  /** The value of `key` in a dict, `None` when it is missing. */
  function Get(d: Record, key: string): Json
  {
    GetOr(d, key, Null)
  }

  /** The value of `key` when the value is a dict holding it, `default` otherwise. */
  function Field(j: Json, key: string, default: Json): Json
  {
    if j.Object? then GetOr(j.fields, key, default) else default
  }

  /** A numeric field with falsy values read as 0 and `True` as 1. */
  function NumOf(j: Json): int
  {
    match j
    case Int(i) => i
    case Bool(b) => if b then 1 else 0
    case _ => 0
  }

  /** A text field with falsy values read as the empty text. */
  function OrEmpty(j: Json): (r: Json)
    ensures Truthy(j) ==> r == j
    ensures !Truthy(j) ==> r == Str("")
  {
    if Truthy(j) then j else Str("")
  }

  /** The text of a string value, `None` for anything else. */
  function AsStr(j: Json): Option<string>
  {
    if j.Str? then Some(j.s) else None
  }
}
