/** The values of the decoded immediates against the weighted sums the
    RISC-V immediate tables give (section 2.3 of the RISC-V Unprivileged ISA,
    "Immediate Encoding Variants"): every field of the word contributes its
    bits at their place in the immediate, and the sign bit 31 counts
    negatively at the top of the immediate's natural width. The sums are
    stated in wrapping 32-bit arithmetic, which is exact for a 32-bit
    immediate; the ranges of the signed readings (`Bits.Signed`) follow.
 */
module Immediates {
  import opened Bits
  import opened Types
  import opened Fields

  /** The signed reading of a 12-bit sign-extended word. */
  lemma SignedRange12(x: bv32)
    requires x <= 0x7FF || x >= 0xFFFF_F800
    ensures -0x800 <= Signed(x) <= 0x7FF
  {
  }

  /** The signed reading of an even 13-bit sign-extended word. */
  lemma SignedRange13(x: bv32)
    requires x <= 0xFFE || x >= 0xFFFF_F000
    ensures -0x1000 <= Signed(x) <= 0xFFE
  {
  }

  /** The signed reading of an even 21-bit sign-extended word. */
  lemma SignedRange21(x: bv32)
    requires x <= 0xF_FFFE || x >= 0xFFF0_0000
    ensures -0x10_0000 <= Signed(x) <= 0xF_FFFE
  {
    if x <= 0xF_FFFE {
      assert x as int <= 0xF_FFFE;
    } else {
      assert x as int >= 0xFFF0_0000;
    }
  }

  /** I-type: imm is word[30:20] minus 2^11 times the sign bit, so the
      12-bit field word[31:20] read in two's complement. */
  lemma ImmIValue(w: bv32)
    ensures ImmI(w) == ((w >> 20) & 0x7FF) - ((w >> 31) << 11)
    ensures SignExtended(ImmI(w), 12)
    ensures -0x800 <= Signed(ImmI(w)) <= 0x7FF
  {
    assert ImmI(w) <= 0x7FF || ImmI(w) >= 0xFFFF_F800;
    SignedRange12(ImmI(w));
  }

  /** S-type: word[31:25] above word[11:7], read as a 12-bit two's-complement
      number. */
  lemma ImmSValue(w: bv32)
    ensures ImmS(w) ==
      ((w >> 7) & 0x1F) + (((w >> 25) & 0x3F) << 5) - ((w >> 31) << 11)
    ensures SignExtended(ImmS(w), 12)
    ensures -0x800 <= Signed(ImmS(w)) <= 0x7FF
  {
    assert ImmS(w) <= 0x7FF || ImmS(w) >= 0xFFFF_F800;
    SignedRange12(ImmS(w));
  }

  /** B-type: a 13-bit two's-complement offset with bit 0 clear, so an even
      number of bytes in [-4096, 4094]. */
  lemma ImmBValue(w: bv32)
    ensures ImmB(w) ==
      (((w >> 8) & 0xF) << 1) + (((w >> 25) & 0x3F) << 5)
      + (((w >> 7) & 0x1) << 11) - ((w >> 31) << 12)
    ensures ImmB(w) & 1 == 0 && SignExtended(ImmB(w), 13)
    ensures -0x1000 <= Signed(ImmB(w)) <= 0xFFE
  {
    assert ImmB(w) <= 0xFFE || ImmB(w) >= 0xFFFF_F000;
    SignedRange13(ImmB(w));
  }

  /** J-type: a 21-bit two's-complement offset with bit 0 clear, so an even
      number of bytes in [-2^20, 2^20 - 2]. */
  lemma ImmJValue(w: bv32)
    ensures ImmJ(w) ==
      (((w >> 21) & 0x3FF) << 1) + (((w >> 20) & 0x1) << 11)
      + (((w >> 12) & 0xFF) << 12) - ((w >> 31) << 20)
    ensures ImmJ(w) & 1 == 0 && SignExtended(ImmJ(w), 21)
    ensures -0x10_0000 <= Signed(ImmJ(w)) <= 0xF_FFFE
  {
    assert ImmJ(w) <= 0xF_FFFE || ImmJ(w) >= 0xFFF0_0000;
    SignedRange21(ImmJ(w));
  }
}
