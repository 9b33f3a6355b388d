/** JavaScript values as the component loader sees them: optional values
    (`undefined` versus a value) and the values an options attribute can
    evaluate to, with JavaScript's notion of falsiness. */
module Js {

  datatype Option<+T> = None | Some(value: T)

  /** The value of an expression, or the TypeError it throws (reading a
      property of `undefined` or `null`). */
  datatype Result<+T> = Ok(value: T) | TypeError

  /** A JavaScript value. Numbers are integers here; NaN and fractions are
      not modelled. */
  datatype Value =
    | Undefined
    | Null
    | Bool(b: bool)
    | Num(n: int)
    | Str(s: string)
    | Obj(props: map<string, Value>)

  /** The values `||` treats as false: undefined, null, false, 0 and "". */
  predicate Falsy(v: Value)
  {
    match v
    case Undefined => true
    case Null => true
    case Bool(b) => !b
    case Num(n) => n == 0
    case Str(s) => s == ""
    case Obj(_) => false
  }

  /** The object literal `{}`. */
  const EmptyObject: Value := Obj(map[])
}
