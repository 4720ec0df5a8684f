/** Values as the route handler sees them: the output of `JSON.parse`, thrown
    errors it inspects with optional chaining, and JavaScript's notion of
    truthiness that `||` and `!` rely on. */
module JsValues {

  /** `undefined` / a present value. */
  datatype Option<+T> = None | Some(value: T) {
    /** The `??` operator: the value, or the fallback when absent. */
    function GetOr(default: T): T {
      match this
      case Some(v) => v
      case None => default
    }
  }

  datatype Result<+T, +E> = Success(value: T) | Failure(error: E)

  /** A JSON value. Objects are maps (duplicate keys collapse to the last one,
      as `JSON.parse` does); numbers are reals, since nothing here computes
      with them. */
  datatype Json =
    | JNull
    | JBool(b: bool)
    | JNum(n: real)
    | JStr(s: string)
    | JArr(elems: seq<Json>)
    | JObj(fields: map<string, Json>)

  /** `v?.[key]`: undefined unless `v` is an object that has `key`. Strings,
      arrays, numbers and booleans carry none of the property names this
      code asks for, and `null?.[key]` is undefined. */
  function Prop(v: Option<Json>, key: string): Option<Json> {
    match v
    case Some(JObj(fs)) => if key in fs then Some(fs[key]) else None
    case _ => None
  }

  /** JavaScript truthiness of a possibly-undefined JSON value. */
  predicate Truthy(v: Option<Json>) {
    match v
    case None => false
    case Some(JNull) => false
    case Some(JBool(b)) => b
    case Some(JNum(n)) => n != 0.0
    case Some(JStr(s)) => |s| > 0
    case Some(JArr(_)) => true
    case Some(JObj(_)) => true
  }

  /** `a || b`: the left operand when truthy, otherwise the right one, falsy or not. */
  function Or(a: Option<Json>, b: Option<Json>): Option<Json> {
    if Truthy(a) then a else b
  }
}
