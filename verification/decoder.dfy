/** `RVType::decode` (src/instruction/types.rs:60-113): take the opcode from
    the low 7 bits, ask the registry for its format, and fill that format's
    fields from the same word.

    The registry (src/instruction/opcodes.rs) is not implemented in the
    source, so it is a parameter here. Where the source panics for an
    unrecognised opcode (types.rs:107-108), this decoder returns `Unknown`
    carrying the word.
 */
module Decoder {
  import opened Bits
  import opened Types
  import opened Fields
  import opened Encoding

  /** The registry agrees with a decoded instruction: its opcode maps to its
      format, or, for `Unknown`, the opcode of its word maps to nothing. */
  predicate Consistent(registry: Registry, ins: Instruction)
  {
    if ins.Unknown? then registry(Opcode(ins.word)) == None
    else registry(ins.opcode) == FormatOf(ins)
  }

  /** Decodes one instruction word. The result is well formed, agrees with
      the registry, and is `Unknown`, carrying the word, exactly when the
      opcode is unregistered; `EncodeDecode` shows it loses nothing. */
  function Decode(registry: Registry, w: bv32): (ins: Instruction)
    ensures ins.Unknown? <==> registry(Opcode(w)) == None
    ensures ins.Unknown? ==> ins.word == w
    ensures !ins.Unknown? ==> ins.opcode == Opcode(w) && FormatOf(ins) == registry(Opcode(w))
    ensures WellFormed(ins)
    ensures Consistent(registry, ins)
  {
    var op := Opcode(w);
    match registry(op)
    case None => Unknown(w)
    case Some(R) => RType(op, Rd(w), Func3(w), Rs1(w), Rs2(w), Func7(w))
    case Some(I) => IType(op, Rd(w), Func3(w), Rs1(w), ImmI(w))
    case Some(S) => SType(op, Func3(w), Rs1(w), Rs2(w), ImmS(w))
    case Some(B) => BType(op, Func3(w), Rs1(w), Rs2(w), ImmB(w))
    case Some(U) => UType(op, Rd(w), ImmU(w))
    case Some(J) => JType(op, Rd(w), ImmJ(w))
  }

  /** Encoding a decoded word gives the word back: the fields of each format
      tile bits 0..31 (for I, `opcode | rd << 7 | func3 << 12 | rs1 << 15 |
      (imm & 0xFFF) << 20` is the word). */
  lemma EncodeDecode(registry: Registry, w: bv32)
    ensures Encode(Decode(registry, w)) == w
  {
    match registry(Opcode(w))
    case None =>
    case Some(R) => RoundTripR(w);
    case Some(I) => RoundTripI(w);
    case Some(S) => RoundTripS(w);
    case Some(B) => RoundTripB(w);
    case Some(U) => RoundTripU(w);
    case Some(J) => RoundTripJ(w);
  }

  lemma RoundTripR(w: bv32)
    ensures Encode(RType(Opcode(w), Rd(w), Func3(w), Rs1(w), Rs2(w), Func7(w))) == w
  {
  }

  lemma RoundTripI(w: bv32)
    ensures Encode(IType(Opcode(w), Rd(w), Func3(w), Rs1(w), ImmI(w))) == w
  {
  }

  lemma RoundTripS(w: bv32)
    ensures Encode(SType(Opcode(w), Func3(w), Rs1(w), Rs2(w), ImmS(w))) == w
  {
  }

  lemma RoundTripB(w: bv32)
    ensures Encode(BType(Opcode(w), Func3(w), Rs1(w), Rs2(w), ImmB(w))) == w
  {
  }

  lemma RoundTripU(w: bv32)
    ensures Encode(UType(Opcode(w), Rd(w), ImmU(w))) == w
  {
  }

  lemma RoundTripJ(w: bv32)
    ensures Encode(JType(Opcode(w), Rd(w), ImmJ(w))) == w
  {
  }

  /** Decoding inverts encoding on every well-formed instruction the
      registry agrees with: together with `EncodeDecode` this makes `Decode`
      a bijection between words and such instructions. */
  lemma DecodeEncode(registry: Registry, ins: Instruction)
    requires WellFormed(ins) && Consistent(registry, ins)
    ensures Decode(registry, Encode(ins)) == ins
  {
    match ins
    case RType(op, rd, func3, rs1, rs2, func7) => FieldsOfR(op, rd, func3, rs1, rs2, func7);
    case IType(op, rd, func3, rs1, imm) => FieldsOfI(op, rd, func3, rs1, imm);
    case SType(op, func3, rs1, rs2, imm) => FieldsOfS(op, func3, rs1, rs2, imm);
    case BType(op, func3, rs1, rs2, imm) => FieldsOfB(op, func3, rs1, rs2, imm);
    case UType(op, rd, imm) => FieldsOfU(op, rd, imm);
    case JType(op, rd, imm) => FieldsOfJ(op, rd, imm);
    case Unknown(word) =>
  }

  lemma FieldsOfR(op: OpcodeBits, rd: bv32, func3: bv32, rs1: bv32, rs2: bv32, func7: bv32)
    requires WellFormed(RType(op, rd, func3, rs1, rs2, func7))
    ensures var w := Encode(RType(op, rd, func3, rs1, rs2, func7));
      Opcode(w) == op && Rd(w) == rd && Func3(w) == func3 && Rs1(w) == rs1 && Rs2(w) == rs2 && Func7(w) == func7
  {
  }

  lemma FieldsOfI(op: OpcodeBits, rd: bv32, func3: bv32, rs1: bv32, imm: bv32)
    requires WellFormed(IType(op, rd, func3, rs1, imm))
    ensures var w := Encode(IType(op, rd, func3, rs1, imm));
      Opcode(w) == op && Rd(w) == rd && Func3(w) == func3 && Rs1(w) == rs1 && ImmI(w) == imm
  {
  }

  lemma FieldsOfS(op: OpcodeBits, func3: bv32, rs1: bv32, rs2: bv32, imm: bv32)
    requires WellFormed(SType(op, func3, rs1, rs2, imm))
    ensures var w := Encode(SType(op, func3, rs1, rs2, imm));
      Opcode(w) == op && Func3(w) == func3 && Rs1(w) == rs1 && Rs2(w) == rs2 && ImmS(w) == imm
  {
  }

  lemma FieldsOfB(op: OpcodeBits, func3: bv32, rs1: bv32, rs2: bv32, imm: bv32)
    requires WellFormed(BType(op, func3, rs1, rs2, imm))
    ensures var w := Encode(BType(op, func3, rs1, rs2, imm));
      Opcode(w) == op && Func3(w) == func3 && Rs1(w) == rs1 && Rs2(w) == rs2 && ImmB(w) == imm
  {
    var w := Encode(BType(op, func3, rs1, rs2, imm));
    assert imm < 0x1000 || imm >= 0xFFFF_F000;
    assert Opcode(w) == op && Func3(w) == func3 && Rs1(w) == rs1 && Rs2(w) == rs2;
    assert ImmB(w) == imm;
  }

  lemma FieldsOfU(op: OpcodeBits, rd: bv32, imm: bv32)
    requires WellFormed(UType(op, rd, imm))
    ensures var w := Encode(UType(op, rd, imm));
      Opcode(w) == op && Rd(w) == rd && ImmU(w) == imm
  {
  }

  lemma FieldsOfJ(op: OpcodeBits, rd: bv32, imm: bv32)
    requires WellFormed(JType(op, rd, imm))
    ensures var w := Encode(JType(op, rd, imm));
      Opcode(w) == op && Rd(w) == rd && ImmJ(w) == imm
  {
  }

  /** Distinct words never decode to the same instruction. */
  lemma DecodeInjective(registry: Registry, w1: bv32, w2: bv32)
    requires Decode(registry, w1) == Decode(registry, w2)
    ensures w1 == w2
  {
    EncodeDecode(registry, w1);
    EncodeDecode(registry, w2);
  }
}
