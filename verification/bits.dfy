/** Bit-level vocabulary for 32-bit instruction words.

    `Bit(x, i)` is the reference reading of a word used by every field
    contract in this project: a field is specified by saying which bit of the
    instruction word each of its bits comes from, independently of the
    shift-and-mask expression that computes it.
 */
module Bits {

  /** True iff bit `i` (bit 0 = least significant) of `x` is set. */
  predicate Bit(x: bv32, i: bv32)
    requires i < 32
  {
    (x >> i) & 1 == 1
  }

  /** The two's-complement reading of a 32-bit word as a signed integer. */
  function Signed(x: bv32): (v: int)
    ensures -0x8000_0000 <= v < 0x8000_0000
    ensures v < 0 <==> Bit(x, 31)
    ensures v == x as int || v == x as int - 0x1_0000_0000
  {
    assert x < 0x8000_0000 <==> !Bit(x, 31);
    if x < 0x8000_0000 then x as int else x as int - 0x1_0000_0000
  }

  /** Two words are equal exactly when they agree on every bit. */
  lemma BitsDetermine(x: bv32, y: bv32)
    requires forall i: bv32 :: i < 32 ==> (Bit(x, i) <==> Bit(y, i))
    ensures x == y
  {
    var i: bv32 := 0;
    while i < 32
      invariant i <= 32
      invariant (x ^ y) & ((1 << i) - 1) == 0
    {
      assert Bit(x, i) <==> Bit(y, i);
      i := i + 1;
    }
  }
}
