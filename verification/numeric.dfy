/** `Math.min` and `Math.max` on the number types the model uses. */
module Numeric {
  function MinNat(x: nat, y: nat): nat { if x <= y then x else y }
  function MaxNat(x: nat, y: nat): nat { if x >= y then x else y }
  function MinInt(x: int, y: int): int { if x <= y then x else y }
  function MaxInt(x: int, y: int): int { if x >= y then x else y }
  function MinReal(x: real, y: real): real { if x <= y then x else y }
  function MaxReal(x: real, y: real): real { if x >= y then x else y }
}
