/** The R arm of `RVType::decode` as written (src/instruction/types.rs:68-69)
    masks the source registers with the hexadecimal literal `0xb11111`
    where the other arms use the 5-bit binary mask `0b11111`, and then casts
    to `u8`, keeping the low 8 bits. Of `0xb11111` those are `0x11`, so only
    bits 0 and 4 of the shifted field survive. The decoder of this project
    uses the 5-bit mask (`Fields.Rs1`, `Fields.Rs2`); this module models the
    expression as written and shows where the two part.
 */
module Findings {
  import opened Bits
  import opened Types
  import opened Fields

  /** rs1 as the R arm computes it: `((w >> 15) & 0xb11111) as u8`. It
      keeps word bits 15 and 19 and nothing else. */
  function Rs1AsWritten(w: bv32): (rs1: bv32)
    ensures rs1 == (if Bit(w, 15) then 0x01 else 0) | (if Bit(w, 19) then 0x10 else 0)
  {
    ((w >> 15) & 0xb11111) & 0xFF
  }

  /** rs2 as the R arm computes it: `((w >> 20) & 0xb11111) as u8`. It
      keeps word bits 20 and 24 and nothing else. */
  function Rs2AsWritten(w: bv32): (rs2: bv32)
    ensures rs2 == (if Bit(w, 20) then 0x01 else 0) | (if Bit(w, 24) then 0x10 else 0)
  {
    ((w >> 20) & 0xb11111) & 0xFF
  }

  /** The as-written rs1 agrees with the 5-bit field exactly when the middle
      bits 16..18 of the word are clear. */
  lemma Rs1AsWrittenAgrees(w: bv32)
    ensures Rs1AsWritten(w) == Rs1(w) <==> !Bit(w, 16) && !Bit(w, 17) && !Bit(w, 18)
  {
  }

  /** The as-written rs2 agrees with the 5-bit field exactly when the middle
      bits 21..23 of the word are clear. */
  lemma Rs2AsWrittenAgrees(w: bv32)
    ensures Rs2AsWritten(w) == Rs2(w) <==> !Bit(w, 21) && !Bit(w, 22) && !Bit(w, 23)
  {
  }

  /** `add x1, x2, x3` is the word 0x003100B3. The 5-bit masks read rs1 = 2
      and rs2 = 3; the R arm as written reads rs1 = 0 and rs2 = 1. */
  lemma AddMisdecoded()
    ensures Rs1(0x0031_00B3) == 2 && Rs2(0x0031_00B3) == 3
    ensures Rs1AsWritten(0x0031_00B3) == 0 && Rs2AsWritten(0x0031_00B3) == 1
  {
  }
}
