/** Option and Result values used for the scheduler's optional cells and its error paths. */
module Wrappers {

  datatype Option<+T> = None | Some(value: T)

  datatype Result<+R, +E> = Ok(value: R) | Err(error: E)

  /** `dict.get(key, default)` for a value that may be absent. */
  function GetOr(o: Option<int>, default: int): (r: int)
    ensures o.None? ==> r == default
    ensures o.Some? ==> r == o.value
  {
    match o
    case Some(v) => v
    case None => default
  }

  function Max(a: int, b: int): (r: int)
    ensures r >= a && r >= b
    ensures r == a || r == b
  {
    if a >= b then a else b
  }

  function Abs(x: int): (r: nat)
    ensures r == x || r == -x
  {
    if x < 0 then -x else x
  }
}
