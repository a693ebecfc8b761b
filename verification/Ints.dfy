/**
 The 32-bit int of the machine: what is left of an integer in it.
 */
module Ints {

  function Wrap32(x: int): int {
    var y := x % 0x1_0000_0000;
    if y >= 0x8000_0000 then y - 0x1_0000_0000 else y
  }

  lemma WrapSmall(x: nat)
    requires x < 0x8000_0000
    ensures Wrap32(x) == x
  {
  }
}
