/** The decoded-instruction value: one variant per base encoding format of
    the RISC-V Unprivileged ISA (section 2.2, "Base Instruction Formats", and
    section 2.3, "Immediate Encoding Variants"), plus `Unknown` for a word
    whose opcode the registry does not recognise.

    Every field is kept as a 32-bit word, so that the widths the formats give
    them (5 bits for a register index, 3 for func3, 7 for func7) are
    properties stated by `WellFormed`, not facts hidden in the field types.
    The opcode is the 7-bit pattern itself: the conversion from those bits to
    an opcode identity is not implemented in the source.
 */
module Types {

  datatype Option<+T> = None | Some(value: T)

  /** The six base encoding formats. */
  datatype Format = R | I | S | B | U | J

  /** A 7-bit opcode pattern, kept in a 32-bit word. */
  type OpcodeBits = x: bv32 | x < 128

  /** The opcode registry: maps the low 7 bits of a word to the format of the
      operation they name, or `None` for an unassigned pattern. */
  type Registry = OpcodeBits -> Option<Format>

  datatype Instruction =
    | RType(opcode: OpcodeBits, rd: bv32, func3: bv32, rs1: bv32, rs2: bv32, func7: bv32)
    | IType(opcode: OpcodeBits, rd: bv32, func3: bv32, rs1: bv32, imm: bv32)
    | SType(opcode: OpcodeBits, func3: bv32, rs1: bv32, rs2: bv32, imm: bv32)
    | BType(opcode: OpcodeBits, func3: bv32, rs1: bv32, rs2: bv32, imm: bv32)
    | UType(opcode: OpcodeBits, rd: bv32, imm: bv32)
    | JType(opcode: OpcodeBits, rd: bv32, imm: bv32)
    | Unknown(word: bv32)

  /** The format a decoded instruction belongs to; `None` for `Unknown`. */
  function FormatOf(ins: Instruction): (f: Option<Format>)
    ensures f.None? <==> ins.Unknown?
    ensures f == Some(R) <==> ins.RType?
    ensures f == Some(J) <==> ins.JType?
  {
    match ins
    case RType(_, _, _, _, _, _) => Some(R)
    case IType(_, _, _, _, _) => Some(I)
    case SType(_, _, _, _, _) => Some(S)
    case BType(_, _, _, _, _) => Some(B)
    case UType(_, _, _) => Some(U)
    case JType(_, _, _) => Some(J)
    case Unknown(_) => None
  }

  /** A 32-bit immediate that is the sign extension of its low `width` bits. */
  predicate SignExtended(imm: bv32, width: bv32)
    requires 1 <= width <= 32
  {
    var half: bv32 := 1 << (width - 1);
    imm < half || imm >= -half
  }

  /** Register index, func3 and func7 fields fit their widths, and each
      immediate has the shape its format gives it. */
  predicate WellFormed(ins: Instruction)
  {
    match ins
    case RType(_, rd, func3, rs1, rs2, func7) =>
      rd < 32 && func3 < 8 && rs1 < 32 && rs2 < 32 && func7 < 128
    case IType(_, rd, func3, rs1, imm) =>
      rd < 32 && func3 < 8 && rs1 < 32 && SignExtended(imm, 12)
    case SType(_, func3, rs1, rs2, imm) =>
      func3 < 8 && rs1 < 32 && rs2 < 32 && SignExtended(imm, 12)
    case BType(_, func3, rs1, rs2, imm) =>
      func3 < 8 && rs1 < 32 && rs2 < 32 && imm & 1 == 0 && SignExtended(imm, 13)
    case UType(_, rd, imm) =>
      rd < 32 && imm & 0xFFF == 0
    case JType(_, rd, imm) =>
      rd < 32 && imm & 1 == 0 && SignExtended(imm, 21)
    case Unknown(_) => true
  }
}
