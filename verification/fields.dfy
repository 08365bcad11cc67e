/** Field extraction for `RVType::decode` (src/instruction/types.rs:60-113).

    Each function computes one field with the shift-and-mask expression of
    the source, in wrapping 32-bit arithmetic (Dafny's `bv32` wraps like
    Rust's `u32`; Rust's `<<` discards the bits shifted out and only checks
    the shift amount). Each contract states the field bit by bit against the
    layout of the RISC-V base formats: bit `i` of the result is bit `k` of
    the word, or the word's sign bit 31, or zero.

    The layout comments of the source write bit ranges half-open: "bits 7-12"
    is bits 7 to 11.
 */
module Fields {
  import opened Bits
  import opened Types

  /** The opcode: bits 0..6 of the word (types.rs:61). Together with the
      bits above it, it gives the word back. */
  function Opcode(w: bv32): (op: OpcodeBits)
    ensures forall i: bv32 :: i < 7 ==> (Bit(op, i) <==> Bit(w, i))
    ensures ((w >> 7) << 7) | op == w
  {
    w & 0x7F
  }

  /** Destination register: bits 7..11 (types.rs:66, 74). */
  function Rd(w: bv32): (rd: bv32)
    ensures rd < 32
    ensures forall i: bv32 :: i < 5 ==> (Bit(rd, i) <==> Bit(w, 7 + i))
  {
    (w >> 7) & 0x1F
  }

  /** func3: bits 12..14 (types.rs:67, 75, 83, 94). */
  function Func3(w: bv32): (f: bv32)
    ensures f < 8
    ensures forall i: bv32 :: i < 3 ==> (Bit(f, i) <==> Bit(w, 12 + i))
  {
    (w >> 12) & 0x7
  }

  /** First source register: bits 15..19 (types.rs:76, 84, 95). The R arm
      of the source uses the literal `0xb11111` instead of `0b11111`
      (types.rs:68); this is the 5-bit mask the other arms and the field
      comment (types.rs:9) give. The as-written mask is in module Findings. */
  function Rs1(w: bv32): (rs1: bv32)
    ensures rs1 < 32
    ensures forall i: bv32 :: i < 5 ==> (Bit(rs1, i) <==> Bit(w, 15 + i))
  {
    (w >> 15) & 0x1F
  }

  /** Second source register: bits 20..24 (types.rs:85, 96), with the
      5-bit mask also for the R arm (types.rs:69, see `Rs1`). */
  function Rs2(w: bv32): (rs2: bv32)
    ensures rs2 < 32
    ensures forall i: bv32 :: i < 5 ==> (Bit(rs2, i) <==> Bit(w, 20 + i))
  {
    (w >> 20) & 0x1F
  }

  /** func7: bits 25..31, taken by a bare shift (types.rs:70). */
  function Func7(w: bv32): (f: bv32)
    ensures f < 128
    ensures forall i: bv32 :: i < 7 ==> (Bit(f, i) <==> Bit(w, 25 + i))
  {
    w >> 25
  }

  /** The sign-fill trick the source uses for the I, S and B immediates
      (types.rs:78, 88, 99): in wrapping arithmetic, `(1 << 20) - s` shifted
      left by 12 is zero when the sign bit `s` is 0 (the set bit 20 is shifted
      out) and sets exactly bits 12..31 when it is 1. */
  function SignFill(w: bv32): (fill: bv32)
    ensures fill == if Bit(w, 31) then 0xFFFF_F000 else 0
  {
    ((1 << 20) - (w >> 31)) << 12
  }

  /** The I-type immediate layout: imm[11:0] is word[31:20], and every bit
      above is the sign bit 31. */
  ghost predicate LayoutI(w: bv32, imm: bv32)
  {
    && (forall i: bv32 :: i < 12 ==> (Bit(imm, i) <==> Bit(w, 20 + i)))
    && (forall i: bv32 :: 12 <= i < 32 ==> (Bit(imm, i) <==> Bit(w, 31)))
  }

  /** The I-type immediate as the I arm computes it (types.rs:77-78). */
  function ImmI(w: bv32): (imm: bv32)
    ensures LayoutI(w, imm)
  {
    var imm := (w >> 20) | SignFill(w);
    assert (forall i: bv32 :: i < 12 ==> (Bit(imm, i) <==> Bit(w, 20 + i)));
    assert (forall i: bv32 :: 12 <= i < 32 ==> (Bit(imm, i) <==> Bit(w, 31)));
    imm
  }

  /** The S-type immediate layout: imm[4:0] is word[11:7], imm[11:5] is
      word[31:25], and every bit above is the sign bit 31. */
  ghost predicate LayoutS(w: bv32, imm: bv32)
  {
    && (forall i: bv32 :: i < 5 ==> (Bit(imm, i) <==> Bit(w, 7 + i)))
    && (forall i: bv32 :: 5 <= i < 12 ==> (Bit(imm, i) <==> Bit(w, 20 + i)))
    && (forall i: bv32 :: 12 <= i < 32 ==> (Bit(imm, i) <==> Bit(w, 31)))
  }

  /** The S-type immediate as the S arm computes it (types.rs:82, 86, 88). */
  function ImmS(w: bv32): (imm: bv32)
    ensures LayoutS(w, imm)
  {
    var imm := ((w >> 7) & 0x1F) | ((w >> 25) << 5) | SignFill(w);
    assert (forall i: bv32 :: i < 5 ==> (Bit(imm, i) <==> Bit(w, 7 + i)));
    assert (forall i: bv32 :: 5 <= i < 12 ==> (Bit(imm, i) <==> Bit(w, 20 + i)));
    assert (forall i: bv32 :: 12 <= i < 32 ==> (Bit(imm, i) <==> Bit(w, 31)));
    imm
  }

  /** The B-type immediate layout: bit 0 is zero, imm[4:1] is word[11:8],
      imm[10:5] is word[30:25], imm[11] is word[7], and imm[12] and every bit
      above is the sign bit 31. */
  ghost predicate LayoutB(w: bv32, imm: bv32)
  {
    && !Bit(imm, 0)
    && (forall i: bv32 :: 1 <= i < 5 ==> (Bit(imm, i) <==> Bit(w, 7 + i)))
    && (forall i: bv32 :: 5 <= i < 11 ==> (Bit(imm, i) <==> Bit(w, 20 + i)))
    && (Bit(imm, 11) <==> Bit(w, 7))
    && (forall i: bv32 :: 12 <= i < 32 ==> (Bit(imm, i) <==> Bit(w, 31)))
  }

  /** The B-type immediate as the B arm computes it (types.rs:92-93, 97,
      99). The field comment at types.rs:38 says 11 bits for imm[10:5]; the
      code takes 6, as the format does, and so does this function. */
  function ImmB(w: bv32): (imm: bv32)
    ensures LayoutB(w, imm)
  {
    var imm :=
      (((w >> 8) & 0xF) << 1)
      | (((w >> 7) & 0x1) << 11)
      | (((w >> 25) & 0x3F) << 5)
      | SignFill(w);
    assert !Bit(imm, 0);
    assert (forall i: bv32 :: 1 <= i < 5 ==> (Bit(imm, i) <==> Bit(w, 7 + i)));
    assert (forall i: bv32 :: 5 <= i < 11 ==> (Bit(imm, i) <==> Bit(w, 20 + i)));
    assert (Bit(imm, 11) <==> Bit(w, 7));
    assert (forall i: bv32 :: 12 <= i < 32 ==> (Bit(imm, i) <==> Bit(w, 31)));
    imm
  }

  /** The U-type immediate layout: the word's bits 12..31 in place, bits
      0..11 zero. */
  ghost predicate LayoutU(w: bv32, imm: bv32)
  {
    && (forall i: bv32 :: i < 12 ==> !Bit(imm, i))
    && (forall i: bv32 :: 12 <= i < 32 ==> (Bit(imm, i) <==> Bit(w, i)))
  }

  /** The U-type immediate. The U arm of the source extracts nothing
      (types.rs:101-103); this follows the layout comment at types.rs:45. */
  function ImmU(w: bv32): (imm: bv32)
    ensures LayoutU(w, imm)
  {
    var imm := w & 0xFFFF_F000;
    assert (forall i: bv32 :: i < 12 ==> !Bit(imm, i));
    assert (forall i: bv32 :: 12 <= i < 32 ==> (Bit(imm, i) <==> Bit(w, i)));
    imm
  }

  /** The J-type immediate layout: bit 0 is zero, imm[10:1] is word[30:21],
      imm[11] is word[20], imm[19:12] is word[19:12], and imm[20] and every
      bit above is the sign bit 31. */
  ghost predicate LayoutJ(w: bv32, imm: bv32)
  {
    && !Bit(imm, 0)
    && (forall i: bv32 :: 1 <= i < 11 ==> (Bit(imm, i) <==> Bit(w, 20 + i)))
    && (Bit(imm, 11) <==> Bit(w, 20))
    && (forall i: bv32 :: 12 <= i < 20 ==> (Bit(imm, i) <==> Bit(w, i)))
    && (forall i: bv32 :: 20 <= i < 32 ==> (Bit(imm, i) <==> Bit(w, 31)))
  }

  /** The J-type immediate. The J arm of the source extracts nothing
      (types.rs:104-106); this follows the layout comments at
      types.rs:50-54, with the sign fill written in the style of the other
      arms (bits 20..31 here). */
  function ImmJ(w: bv32): (imm: bv32)
    ensures LayoutJ(w, imm)
  {
    var imm :=
      (((w >> 21) & 0x3FF) << 1)
      | (((w >> 20) & 0x1) << 11)
      | (w & 0x000F_F000)
      | (((1 << 12) - (w >> 31)) << 20);
    assert !Bit(imm, 0);
    assert (forall i: bv32 :: 1 <= i < 11 ==> (Bit(imm, i) <==> Bit(w, 20 + i)));
    assert (Bit(imm, 11) <==> Bit(w, 20));
    assert (forall i: bv32 :: 12 <= i < 20 ==> (Bit(imm, i) <==> Bit(w, i)));
    assert (forall i: bv32 :: 20 <= i < 32 ==> (Bit(imm, i) <==> Bit(w, 31)));
    imm
  }

  /** The layouts above are complete: each determines the immediate, so the
      decoder's value is the only one that fits the format's table. */
  lemma LayoutIDetermines(w: bv32, imm: bv32)
    requires LayoutI(w, imm)
    ensures imm == ImmI(w)
  {
    BitsDetermine(imm, ImmI(w));
  }

  lemma LayoutSDetermines(w: bv32, imm: bv32)
    requires LayoutS(w, imm)
    ensures imm == ImmS(w)
  {
    BitsDetermine(imm, ImmS(w));
  }

  lemma LayoutBDetermines(w: bv32, imm: bv32)
    requires LayoutB(w, imm)
    ensures imm == ImmB(w)
  {
    BitsDetermine(imm, ImmB(w));
  }

  lemma LayoutUDetermines(w: bv32, imm: bv32)
    requires LayoutU(w, imm)
    ensures imm == ImmU(w)
  {
    BitsDetermine(imm, ImmU(w));
  }

  lemma LayoutJDetermines(w: bv32, imm: bv32)
    requires LayoutJ(w, imm)
    ensures imm == ImmJ(w)
  {
    BitsDetermine(imm, ImmJ(w));
  }
}
