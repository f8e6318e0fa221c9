/** Integer division as the program's language does it. */
module Ints {
  // Division that truncates toward zero.
  function Quo(a: int, b: int): int
    requires b > 0
  {
    if a >= 0 then a / b else -((-a) / b)
  }

  function Rem(a: int, b: int): int
    requires b > 0
  {
    a - b * Quo(a, b)
  }
}
