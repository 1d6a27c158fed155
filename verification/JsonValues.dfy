/** JSON documents, numbers being integers. */
module JsonValues {
  datatype Json =
    Null | Bool(b: bool) | Num(n: int) | Str(s: string) | Arr(items: seq<Json>) | Obj(fields: map<string, Json>)

  type Fields = map<string, Json>

  /** isinstance(v, int), which holds of booleans too. */
  predicate IsInt(v: Json) {
    v.Num? || v.Bool?
  }

  function IntOf(v: Json): int
    requires IsInt(v)
  {
    if v.Num? then v.n else if v.b then 1 else 0
  }

  function Get(p: Fields, k: string): Json {
    if k in p then p[k] else Null
  }

  predicate Truthy(v: Json) {
    match v
    case Null => false
    case Bool(b) => b
    case Num(n) => n != 0
    case Str(s) => s != ""
    case Arr(items) => items != []
    case Obj(fields) => fields != map[]
  }
}
