/** Concrete decodings, for any registry that assigns the standard base-ISA
    opcodes to their formats: OP-IMM (0b0010011) is I-type, LUI (0b0110111)
    is U-type, BRANCH (0b1100011) is B-type and JAL (0b1101111) is J-type.
 */
module Examples {
  import opened Bits
  import opened Types
  import opened Decoder

  /** `addi x5, x6, -1`: an immediate field of 0xFFF is -1. */
  lemma AddiMinusOne(registry: Registry)
    requires registry(0x13) == Some(I)
    ensures Decode(registry, 0xFFF3_0293) == IType(0x13, 5, 0, 6, 0xFFFF_FFFF)
    ensures Signed(Decode(registry, 0xFFF3_0293).imm) == -1
  {
  }

  /** `addi x5, x6, 10`: an immediate field of 0x00A is 10. */
  lemma AddiTen(registry: Registry)
    requires registry(0x13) == Some(I)
    ensures Decode(registry, 0x00A3_0293) == IType(0x13, 5, 0, 6, 10)
  {
  }

  /** `lui x1, 0x12345`: the upper 20 bits in place. */
  lemma LuiUpper(registry: Registry)
    requires registry(0x37) == Some(U)
    ensures Decode(registry, 0x1234_50B7) == UType(0x37, 1, 0x1234_5000)
  {
  }

  /** `beq x0, x0, +16`: imm[4:1] = 0b1000 sits in word bits 11..8. */
  lemma BranchForward16(registry: Registry)
    requires registry(0x63) == Some(B)
    ensures Decode(registry, 0x0000_0863) == BType(0x63, 0, 0, 0, 16)
  {
  }

  /** `bne x1, x2, -4`: every scattered field is set, and the sign bit fills
      the rest. */
  lemma BranchBack4(registry: Registry)
    requires registry(0x63) == Some(B)
    ensures Decode(registry, 0xFE20_9EE3) == BType(0x63, 1, 1, 2, 0xFFFF_FFFC)
    ensures Signed(Decode(registry, 0xFE20_9EE3).imm) == -4
  {
  }

  /** `jal x0, +4`: imm[10:1] = 2 sits in word bits 30..21. */
  lemma JumpForward4(registry: Registry)
    requires registry(0x6F) == Some(J)
    ensures Decode(registry, 0x0040_006F) == JType(0x6F, 0, 4)
  {
  }

  /** A word whose opcode the registry does not know comes back unchanged
      inside `Unknown`. */
  lemma UnknownOpcode(registry: Registry)
    requires registry(0x7F) == None
    ensures Decode(registry, 0xFFFF_FFFF) == Unknown(0xFFFF_FFFF)
  {
  }
}
