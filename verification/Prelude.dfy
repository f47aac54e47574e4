/** Go's integer division, and what several components share. */
module Prelude {

  datatype Option<T> = None | Some(value: T)

  /** Division rounding toward zero. */
  function TruncDiv(a: int, b: int): int
    requires b != 0
  {
    if a >= 0 then a / b else -((-a) / b)
  }

  /** The remainder that goes with it: it has the sign of the dividend. */
  function TruncRem(a: int, b: int): int
    requires b != 0
  {
    a - TruncDiv(a, b) * b
  }

  lemma LessByMultiple(x: int, y: int, d: int)
    requires d > 0 && x * d < y * d
    ensures x < y
  {
  }
}
