/** The larger and the smaller of two integers, Python's `max` and `min`
    on two arguments. */
module Extrema {

  function Max(a: int, b: int): (m: int)
  {
    if a >= b then a else b
  }

  function Min(a: int, b: int): (m: int)
  {
    if a <= b then a else b
  }
}
