/** JSON values and Python dictionaries of them, with the truthiness the source's conditions rely on. */
module Json {
  datatype Value =
    | Null
    | Bool(b: bool)
    | Num(n: int)
    | Str(s: string)
    | List(items: seq<Value>)
    | Obj(fields: map<string, Value>)

  type Dict = map<string, Value>

  predicate Truthy(v: Value) {
    match v
    case Null => false
    case Bool(b) => b
    case Num(n) => n != 0
    case Str(s) => s != ""
    case List(items) => items != []
    case Obj(fields) => fields != map[]
  }

  /** Python's falsy values, and no others. */
  lemma FalsyValues(v: Value)
    ensures !Truthy(v) <==> v in {Null, Bool(false), Num(0), Str(""), List([]), Obj(map[])}
  {
  }

  /** d.get(key, default) */
  function Get(d: Dict, key: string, default: Value := Null): Value {
    if key in d then d[key] else default
  }

  /** a or b */
  function Or(a: Value, b: Value): Value {
    if Truthy(a) then a else b
  }
}
