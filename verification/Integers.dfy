/** C's signed arithmetic where Dafny's differs. */
module Integers {

  function Abs(x: int): nat {
    if x < 0 then -x else x
  }

  /** Division in C rounds toward zero. */
  function TruncDiv(a: int, b: int): int
    requires b > 0
  {
    if a >= 0 then a / b else -(-a / b)
  }
}
