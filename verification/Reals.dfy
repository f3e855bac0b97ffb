/** Real numbers. */
module Reals {

  function Max(a: real, b: real): (r: real)
  {
    if a < b then b else a
  }

  function Min(a: real, b: real): (r: real)
  {
    if b < a then b else a
  }

  /** A C++ conversion from double to a signed integer. */
  function Trunc(x: real): (r: int)
  {
    if x >= 0.0 then x.Floor else -((-x).Floor)
  }
}
