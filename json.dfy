/** The values a field of a parsed JSON message can hold, and JavaScript truthiness on them. */
module Json {

  /** A field read by destructuring a parsed JSON record. A field the record
      does not have reads as `Undefined`; JSON itself never produces it.
      Numbers are restricted to integers. */
  datatype Value =
    | Undefined
    | Null
    | Bool(b: bool)
    | Number(n: int)
    | String(s: string)
    | Array(items: seq<Value>)
    | Object(fields: seq<(string, Value)>)

  /** JavaScript's `ToBoolean`: `undefined`, `null`, `false`, `0` and `""` are
      falsy; every array and object is truthy, even an empty one. */
  predicate Truthy(v: Value)
  {
    match v
    case Undefined => false
    case Null => false
    case Bool(b) => b
    case Number(n) => n != 0
    case String(s) => s != ""
    case Array(_) => true
    case Object(_) => true
  }
}
