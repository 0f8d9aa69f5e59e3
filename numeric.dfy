/** Rounding and small arithmetic helpers shared by the planner and the data classes. */
module Numeric {

  /** Stands for Python's round(x, 4). On reals it rounds to the nearest multiple of 0.0001,
      with ties upward; Python rounds half to even. */
  function Round4(x: real): (r: real)
    ensures -0.00005 < r - x <= 0.00005
  {
    ((x * 10000.0 + 0.5).Floor as real) / 10000.0
  }

  /** Stands for Python's round(x, 2). On reals it rounds to the nearest multiple of 0.01,
      with ties upward; Python rounds half to even. */
  function Round2(x: real): (r: real)
    ensures -0.005 < r - x <= 0.005
  {
    ((x * 100.0 + 0.5).Floor as real) / 100.0
  }

  function Abs(x: real): (r: real)
    ensures r >= 0.0 && (r == x || r == -x)
  {
    if x < 0.0 then -x else x
  }
}
