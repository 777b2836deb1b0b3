/** Optional values and results, for absence and for error returns. */
module Wrappers {
  datatype Option<+T> = None | Some(value: T)

  datatype Result<+T, +E> = Ok(value: T) | Err(error: E)
}

/** JSON values. Objects are maps: two that hold the same fields are equal, in
    whatever order the fields were written. */
module Json {
  import opened Wrappers

  datatype Value =
    | Null
    | Bool(b: bool)
    | Int(n: int)
    | Float(x: real)
    | Str(s: string)
    | Arr(items: seq<Value>)
    | Obj(fields: map<string, Value>)
  {
    /** `as_f64`, on exact numbers. */
    function AsReal(): Option<real> {
      match this
      case Int(n) => Some(n as real)
      case Float(x) => Some(x)
      case _ => None
    }

    /** `Value::get` with a field name. */
    function Get(name: string): Option<Value> {
      if Obj? && name in fields then Some(fields[name]) else None
    }
  }
}
