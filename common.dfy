/** Small shared vocabulary: an optional value (Python's `None`) and absolute value on reals. */
module Common {

  datatype Option<+T> = None | Some(value: T)

  /** Python's `abs` on a price, in exact arithmetic. */
  function Abs(x: real): (r: real)
    ensures r >= 0.0 && (r == x || r == -x)
  {
    if x < 0.0 then -x else x
  }

  /** Python truthiness of an optional string parameter: `None` and `""` are false. */
  predicate Truthy(s: Option<string>)
  {
    s.Some? && s.value != ""
  }
}
