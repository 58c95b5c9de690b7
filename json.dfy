/**
 * The values a request body or the scores file can hold, as the JavaScript
 * handlers see them after JSON parsing.
 */
module Json {

  datatype Option<T> = None | Some(value: T)

  /**
   * A JSON value. `Absent` is a field that is not there at all (`undefined`);
   * `Composite` stands for any array or object. Numbers are integers here.
   */
  datatype Value =
    | Absent
    | Null
    | Bool(b: bool)
    | Num(n: int)
    | Str(s: string)
    | Composite

  /** JavaScript truthiness: what `if (v)` tests. */
  predicate Truthy(v: Value)
  {
    match v
    case Absent => false
    case Null => false
    case Bool(b) => b
    case Num(n) => n != 0
    case Str(s) => s != ""
    case Composite => true
  }
}
