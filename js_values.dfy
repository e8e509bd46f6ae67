/** Values as they arrive in a parsed JSON request body, and JavaScript's
    notion of truthiness, which the order handlers use for their presence
    checks and `||` defaults. */
module JsValues {

  datatype Option<+T> = None | Some(value: T)

  /** A scalar JSON value of a request body. `Missing` is a key the body does
      not have (JavaScript `undefined`). Numbers are integers in this model. */
  datatype Value = Missing | Null | Bool(b: bool) | Number(n: int) | Text(s: string)

  /** JavaScript truthiness: `undefined`, `null`, `false`, `0` and `""` are
      falsy, every other value is truthy. */
  predicate Truthy(v: Value) {
    match v
    case Missing => false
    case Null => false
    case Bool(b) => b
    case Number(n) => n != 0
    case Text(s) => s != ""
  }
}
