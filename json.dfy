/** The free-form values stored in a block's `properties` (whatever `JSON.parse` can produce,
    numbers restricted to integers) and the JavaScript truthiness the source tests them with. */
module Json {
  import opened Base

  datatype Value =
    | Null
    | Bool(b: bool)
    | Num(n: int)
    | Str(s: string)
    | Arr(items: seq<Value>)
    | Obj(fields: map<string, Value>)

  /** A property bag, `Record<string, unknown>`. */
  type Props = map<string, Value>

  /** `!!v`: `null`, `false`, `0` and `""` are falsy; everything else, empty arrays and objects included, is truthy. */
  predicate Truthy(v: Value) {
    match v
    case Null => false
    case Bool(b) => b
    case Num(n) => n != 0
    case Str(s) => s != ""
    case Arr(_) => true
    case Obj(_) => true
  }

  /** `props[key]`, with `undefined` for a missing key. */
  function Get(props: Props, key: string): Option<Value> {
    if key in props then Some(props[key]) else None
  }
}
