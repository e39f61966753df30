/** Option and Result, used for the nullable values and the error returns of the handlers. */
module Wrappers {

  /** A value that may be absent: JavaScript's `null` / `undefined`. */
  datatype Option<+T> = None | Some(value: T)

  /** The value of `o`, or `default` when it is absent. */
  function GetOr<T>(o: Option<T>, default: T): T
  {
    match o
    case Some(v) => v
    case None => default
  }

  /** An operation that either succeeds with a value or fails with an error. */
  datatype Result<+R, +E> = Success(value: R) | Failure(error: E)

  /** `map.get(key)` in JavaScript: the entry when present, `undefined` otherwise. */
  function Get<K, V>(m: map<K, V>, key: K): (r: Option<V>)
    ensures r.Some? <==> key in m
    ensures r.Some? ==> r.value == m[key]
  {
    if key in m then Some(m[key]) else None
  }
}

/** The JavaScript values the core inspects: numbers after `Number(...)` and nullable strings. */
module Js {
  import opened Wrappers

  /** A JavaScript number: a finite value, `NaN` or one of the infinities.
      Finite values are modelled as exact reals; floating-point rounding is not modelled. */
  datatype JsNumber = Finite(value: real) | NaN | PositiveInfinity | NegativeInfinity

  /** `Number.isFinite(n)`. */
  predicate IsFinite(n: JsNumber)
  {
    n.Finite?
  }

  /** JavaScript truthiness of a nullable string: present and non-empty. */
  predicate Truthy(s: Option<string>)
  {
    s.Some? && s.value != ""
  }
}
