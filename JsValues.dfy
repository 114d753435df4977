/** JavaScript values as the dashboard's handlers see them after JSON.parse.
    A missing property reads as `Undefined`; `Truthy` is JavaScript's boolean
    coercion, which the handlers use for `x || default` and `!x` tests. */
module JsValues {

  datatype Option<+T> = None | Some(value: T)

  /** A parsed JSON value, plus `undefined` for a property that is absent.
      Only finite numbers are modelled, as exact reals: JSON.parse never
      yields NaN, and the ±Infinity it gives for an overflowing literal is
      not represented. */
  datatype Value =
    | Undefined
    | Null
    | Bool(b: bool)
    | Num(x: real)
    | Str(s: string)
    | Arr(items: seq<Value>)
    | Obj(fields: map<string, Value>)

  /** JavaScript's ToBoolean: undefined, null, false, 0 and "" are falsy. */
  predicate Truthy(v: Value)
  {
    match v
    case Undefined => false
    case Null => false
    case Bool(b) => b
    case Num(x) => x != 0.0
    case Str(s) => s != ""
    case Arr(_) => true
    case Obj(_) => true
  }

  /** `typeof v === "number"`. */
  predicate IsNumber(v: Value)
  {
    v.Num?
  }

  /** The result of JavaScript's Number(...) conversion: a finite number,
      NaN or an infinity; `Missing` stands for `undefined`. */
  datatype Numeric = Missing | Finite(x: real) | NaN | PosInfinity | NegInfinity

  /** `Number.isFinite(v)`. */
  predicate IsFinite(v: Numeric)
  {
    v.Finite?
  }
}
