/** The inverse direction of the decoder: laying the fields of a decoded
    instruction back into a 32-bit word by the layouts of the RISC-V base
    formats. The source has no encoder; this one is the reference the decoder
    is proved against (module Decoder), and each field is masked to its width
    so that it cannot spill into its neighbours.
 */
module Encoding {
  import opened Types

  /** Bits 7..31 shared by the R, I, S and B formats: func3 at 12..14, rs1 at
      15..19 and, for R, S and B, rs2 at 20..24. */
  function RegisterBits(func3: bv32, rs1: bv32, rs2: bv32): (w: bv32)
    ensures w & 0xFFF == 0
    ensures w >> 25 == 0
  {
    ((func3 & 0x7) << 12) | ((rs1 & 0x1F) << 15) | ((rs2 & 0x1F) << 20)
  }

  /** The word whose decoding is `ins`; an `Unknown` value carries its word. */
  function Encode(ins: Instruction): (w: bv32)
    ensures !ins.Unknown? ==> w & 0x7F == ins.opcode
    ensures ins.Unknown? ==> w == ins.word
  {
    match ins
    case RType(op, rd, func3, rs1, rs2, func7) =>
      op | ((rd & 0x1F) << 7) | RegisterBits(func3, rs1, rs2) | ((func7 & 0x7F) << 25)
    case IType(op, rd, func3, rs1, imm) =>
      op | ((rd & 0x1F) << 7) | RegisterBits(func3, rs1, 0) | ((imm & 0xFFF) << 20)
    case SType(op, func3, rs1, rs2, imm) =>
      op | ((imm & 0x1F) << 7) | RegisterBits(func3, rs1, rs2) | (((imm >> 5) & 0x7F) << 25)
    case BType(op, func3, rs1, rs2, imm) =>
      op
      | (((imm >> 11) & 0x1) << 7)
      | (((imm >> 1) & 0xF) << 8)
      | RegisterBits(func3, rs1, rs2)
      | (((imm >> 5) & 0x3F) << 25)
      | (((imm >> 12) & 0x1) << 31)
    case UType(op, rd, imm) =>
      op | ((rd & 0x1F) << 7) | (imm & 0xFFFF_F000)
    case JType(op, rd, imm) =>
      op
      | ((rd & 0x1F) << 7)
      | (imm & 0x000F_F000)
      | (((imm >> 11) & 0x1) << 20)
      | (((imm >> 1) & 0x3FF) << 21)
      | (((imm >> 20) & 0x1) << 31)
    case Unknown(word) => word
  }
}
