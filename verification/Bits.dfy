/** Bitwise or, three bits at a time. */
module Bits {
  function OrBit(a: nat, b: nat): nat {
    if a % 2 == 1 || b % 2 == 1 then 1 else 0
  }

  /** `a | b` for numbers of three bits. */
  function Or3(a: nat, b: nat): (r: nat)
    requires a < 8 && b < 8
    ensures r < 8 && (b == 0 ==> r == a) && (a == 0 ==> r == b) && (a == 7 ==> r == 7)
    ensures a < 4 && b < 4 ==> r < 4
  {
    if b == 0 then a
    else if a == 0 then b
    else 4 * OrBit(a / 4, b / 4) + 2 * OrBit(a / 2, b / 2) + OrBit(a, b)
  }
}
