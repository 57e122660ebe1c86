/** Values as `JSON.parse` hands them to the message handler, and the
    JavaScript truthiness that `||` and `if` apply to them. */
module Json {
  import opened Wrappers

  /** A parsed JSON value. Arrays and objects are folded into `Composite`,
      which keeps only that they are truthy (every array and every object
      is): a truthy array or object status is shown as `Composite`, without
      its content. `JSON.parse` never yields NaN,
      so a number is falsy exactly when it is zero. */
  datatype Value = Null | Bool(b: bool) | Number(n: real) | Str(s: string) | Composite

  /** ToBoolean of ECMA-262 (section 7.1.2) restricted to parsed JSON values. */
  predicate Truthy(v: Value) {
    match v
    case Null => false
    case Bool(b) => b
    case Number(n) => n != 0.0
    case Str(s) => s != ""
    case Composite => true
  }

  /** Truthiness of a property read that may be `undefined`. */
  predicate PresentAndTruthy(v: Option<Value>) {
    v.Some? && Truthy(v.value)
  }

  /** JavaScript `a || b`: the left operand when it is truthy, the right
      operand otherwise (`undefined` is falsy). */
  function Or(a: Option<Value>, b: Value): (r: Value)
    ensures PresentAndTruthy(a) ==> r == a.value
    ensures r == b || (a == Some(r) && Truthy(r))
    ensures Truthy(b) ==> Truthy(r)
  {
    if PresentAndTruthy(a) then a.value else b
  }
}
