/** The octets all components work on. */
module Bytes {
  type byte = x: int | 0 <= x < 256

  function Sgn(x: int): int {
    if x < 0 then -1 else if x > 0 then 1 else 0
  }

  function Cmp(x: int, y: int): int {
    Sgn(x - y)
  }
}
