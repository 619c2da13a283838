/** `Math.min`, `Math.max` and `Math.ceil` on exact numbers. */
module Arithmetic {

  function MinInt(x: int, y: int): int { if x <= y then x else y }

  function MaxInt(x: int, y: int): int { if x >= y then x else y }

  function MinReal(x: real, y: real): real { if x <= y then x else y }

  function MaxReal(x: real, y: real): real { if x >= y then x else y }

  function Ceil(x: real): int { -((-x).Floor) }
}
