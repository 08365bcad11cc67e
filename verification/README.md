# RISC-V instruction-word decoder, modelled in Dafny

This project models `RVType::decode` of the `ristcv-emu` emulator and the
`RVType` enum it fills. The decoder takes a raw 32-bit RISC-V instruction word
and returns one of the six base encoding formats (R, I, S, B, U, J) of section
2.2 of the RISC-V Unprivileged ISA Specification, Volume I ("Base Instruction
Formats"). It works in three steps:

- it takes the opcode from bits 0..6;
- it slices out `rd`, `func3`, `rs1`, `rs2` and `func7`;
- it reassembles each format's split immediate and sign-extends it from bit
  31, as section 2.3 ("Immediate Encoding Variants") describes.

Modules, one per concern:

- `Bits` (bits.dfy): the bit-level reading `Bit(x, i)` that every field
  contract is stated in, the two's-complement reading `Signed`, and the fact
  that a word is determined by its bits.
- `Types` (types.dfy): the `Instruction` datatype with one variant per format
  plus `Unknown`, the `Format` enumeration and the `Registry` type. It also
  defines `WellFormed`: every field fits its width and every immediate has its
  format's shape.
- `Fields` (fields.dfy): one function per field, computed with the source's
  shift-and-mask expressions in wrapping 32-bit arithmetic. Each function's
  contract gives the field bit by bit. Each immediate has a layout predicate
  from the format table, and a lemma shows that the layout determines the
  immediate.
- `Immediates` (immediates.dfy): each immediate's value as the weighted sum of
  its word fields, and the signed range that follows.
- `Encoding` (encoding.dfy): the inverse direction, fields back into a word.
  The source has no encoder. It is the partner the decoder is proved against.
- `Decoder` (decoder.dfy): `Decode` and the two round trips. Together they make
  decoding a bijection between words and well-formed instructions the
  registry agrees with.
- `Findings` (findings.dfy): the R arm's register mask as written.
- `Examples` (examples.dfy): concrete words decoded under any registry that
  assigns the standard opcodes.

Where the model departs from the code as written:

- The opcode-to-format registry (`src/instruction/opcodes.rs`) is `todo!()` in
  the source. `Decode` therefore takes it as a parameter `Registry`, a total
  function from the 7-bit opcode to `Option<Format>`. No concrete table is
  assumed.
- The `Unknown` arm panics (types.rs:107-108). Here an unregistered opcode
  yields `Unknown(word)`.
- The U and J arms set only the opcode (types.rs:101-106). Their `rd` and
  immediate follow the layout comments at types.rs:42-55, with the J sign fill
  written in the same style as the other arms.
- The R arm masks `rs1` and `rs2` with `0xb11111` (types.rs:68-69). The model
  uses the 5-bit mask `0b11111`, as the other arms and the field comments do.
  The code as written is kept in `Findings` (see below).
- The B-type comment at types.rs:38 gives imm[10:5] 11 bits. The code takes 6
  bits (types.rs:97), and so does the model.
- Bit ranges in the source's layout comments are half-open: "bits 7-12" means
  bits 7 to 11.
- Rust's `<<` on `u32` drops the bits shifted out and checks only the shift
  amount. So the sign-fill expression `((1 << 20) - s) << 12` is 0 for s = 0.
  Dafny's `bv32` has the same wrap-around.

## Model

| member | source | states |
|---|---|---|
| Fields.Opcode | src/instruction/types.rs:61 | the opcode is bits 0..6 of the word and below 128; with the bits above it, it gives the word back |
| Fields.Rd | src/instruction/types.rs:66 | rd is below 32 and its bit i is word bit 7+i |
| Fields.Func3 | src/instruction/types.rs:67 | func3 is below 8 and its bit i is word bit 12+i |
| Fields.Rs1 | src/instruction/types.rs:76 | rs1 is below 32 and its bit i is word bit 15+i; this is the 5-bit mask, also used for the R arm |
| Fields.Rs2 | src/instruction/types.rs:85 | rs2 is below 32 and its bit i is word bit 20+i; this is the 5-bit mask, also used for the R arm |
| Fields.Func7 | src/instruction/types.rs:70 | func7 is below 128 and its bit i is word bit 25+i |
| Fields.SignFill | src/instruction/types.rs:78 | in wrapping u32 arithmetic, `((1 << 20) - s) << 12` is 0xFFFFF000 when word bit 31 is set and 0 otherwise |
| Fields.ImmI | src/instruction/types.rs:77-78 | imm[11:0] is word[31:20] and bits 12..31 all equal word bit 31 |
| Fields.ImmS | src/instruction/types.rs:82-88 | imm[4:0] is word[11:7], imm[11:5] is word[31:25], and bits 12..31 equal word bit 31 |
| Fields.ImmB | src/instruction/types.rs:92-99 | bit 0 is clear, imm[4:1] is word[11:8], imm[10:5] is word[30:25], imm[11] is word[7], and bits 12..31 equal word bit 31 |
| Fields.ImmU | src/instruction/types.rs:42-46 | bits 0..11 are clear and bits 12..31 are the word's own |
| Fields.ImmJ | src/instruction/types.rs:47-55 | bit 0 is clear, imm[10:1] is word[30:21], imm[11] is word[20], imm[19:12] is word[19:12], and bits 20..31 equal word bit 31 |
| Fields.LayoutIDetermines | src/instruction/types.rs:14-20 | any word satisfying the I layout is the decoded I immediate |
| Fields.LayoutSDetermines | src/instruction/types.rs:22-29 | any word satisfying the S layout is the decoded S immediate |
| Fields.LayoutBDetermines | src/instruction/types.rs:31-40 | any word satisfying the B layout is the decoded B immediate |
| Fields.LayoutUDetermines | src/instruction/types.rs:42-46 | any word satisfying the U layout is the decoded U immediate |
| Fields.LayoutJDetermines | src/instruction/types.rs:48-55 | any word satisfying the J layout is the decoded J immediate |
| Immediates.ImmIValue | src/instruction/types.rs:77-78 | the I immediate equals word[30:20] minus 2^11 times the sign bit; it is sign-extended from 12 bits, and its signed value lies in [-2048, 2047] |
| Immediates.ImmSValue | src/instruction/types.rs:82-88 | the S immediate equals word[11:7] plus 2^5 times word[30:25] minus 2^11 times the sign bit; its signed value lies in [-2048, 2047] |
| Immediates.ImmBValue | src/instruction/types.rs:92-99 | the B immediate is the weighted sum of word[11:8], word[30:25] and word[7], minus 2^12 times the sign bit; it is even, and its signed value lies in [-4096, 4094] |
| Immediates.ImmJValue | src/instruction/types.rs:50-54 | the J immediate is the weighted sum of word[30:21], word[20] and word[19:12], minus 2^20 times the sign bit; it is even, and its signed value lies in [-2^20, 2^20 - 2] |
| Decoder.Decode | src/instruction/types.rs:60-113 | the result is `Unknown(word)` exactly when the registry does not know the opcode; otherwise it has the registry's format and the word's opcode; every register field is below 32, func3 is below 8, func7 is below 128, and each immediate has its format's shape |
| Decoder.EncodeDecode | src/instruction/types.rs:3-57 | laying the decoded fields back into a word gives the original word, for every word and every registry |
| Decoder.RoundTripI | src/instruction/types.rs:72-78 | `opcode \| rd << 7 \| func3 << 12 \| rs1 << 15 \| (imm & 0xFFF) << 20` of a decoded I word is the word |
| Decoder.DecodeEncode | src/instruction/types.rs:3-57 | decoding the encoding of any well-formed instruction the registry agrees with gives that instruction back |
| Decoder.DecodeInjective | src/instruction/types.rs:60-113 | two different words never decode to the same instruction |
| Findings.Rs1AsWritten | src/instruction/types.rs:68 | as written, the R arm's rs1 keeps only word bits 15 and 19 |
| Findings.Rs2AsWritten | src/instruction/types.rs:69 | as written, the R arm's rs2 keeps only word bits 20 and 24 |
| Findings.Rs1AsWrittenAgrees | src/instruction/types.rs:68 | the as-written rs1 equals the 5-bit field exactly when word bits 16..18 are clear |
| Findings.Rs2AsWrittenAgrees | src/instruction/types.rs:69 | the as-written rs2 equals the 5-bit field exactly when word bits 21..23 are clear |
| Findings.AddMisdecoded | src/instruction/types.rs:64-70 | `add x1, x2, x3` (0x003100B3) has rs1 = 2 and rs2 = 3, but the R arm as written reads 0 and 1 |
| Examples.AddiMinusOne | src/instruction/types.rs:72-78 | an I word with immediate field 0xFFF, rd = 5 and rs1 = 6 decodes to imm 0xFFFFFFFF, signed -1 |
| Examples.AddiTen | src/instruction/types.rs:72-78 | an I word with immediate field 0x00A decodes to imm 10 |
| Examples.LuiUpper | src/instruction/types.rs:42-46 | a U word with bits 31..12 = 0x12345 decodes to imm 0x12345000 |
| Examples.BranchForward16 | src/instruction/types.rs:90-99 | the B encoding of offset +16 decodes to imm 16 |
| Examples.BranchBack4 | src/instruction/types.rs:90-99 | the B encoding of offset -4 decodes to imm 0xFFFFFFFC, signed -4 |
| Examples.JumpForward4 | src/instruction/types.rs:48-55 | the J encoding of offset +4 decodes to imm 4 |
| Examples.UnknownOpcode | src/instruction/types.rs:107-108 | a word whose opcode is unregistered decodes to `Unknown` carrying the word, instead of a panic |

## Left out

- The opcode registry of src/instruction/opcodes.rs: both of its functions
  are `todo!()`. Its single `ADDI = 1` variant is not the OP-IMM opcode
  0b0010011. `Decode` takes the registry as a parameter instead of
  inventing a table.
- The opcode identity (`RVOpcode`) and the `From<u8>` conversion: both are
  unimplemented. A decoded instruction carries the 7-bit opcode pattern.
- The panic in the `Unknown` arm and the `todo!()` control flow: both are
  replaced by the `Unknown` result.
- Rust mechanics: the "build a default variant, then overwrite its fields
  through `&mut`" pattern (types.rs:62-63), and the `u8`/`u32` storage types.
  Fields are 32-bit words whose widths are stated by `WellFormed`.
- Instruction fetch, endianness, execution, the register file, memory and
  disassembly text do not appear in the modelled source.
- Immediates.ImmBValue: evenness is stated on the word (bit 0 clear), not as
  a remainder of the signed integer value. The two are equivalent, but the
  solver handles the word form reliably.
- Immediates.ImmJValue: evenness is stated on the word (bit 0 clear), for the
  same reason.
- Immediates.ImmIValue: the weighted sum is an equation in wrapping 32-bit
  arithmetic. The signed integer reading enters only through the range. A
  wrapping equation fixes all 32 bits of the immediate, so nothing is lost.

## Findings

| source | as written | input that shows it | evidently intended | confidence | as-written member | corrected member |
|---|---|---|---|---|---|---|
| src/instruction/types.rs:68 | rs1 is masked with the hex literal 0xb11111 and cast to u8, keeping word bits 15 and 19 only | 0x003100B3 (`add x1, x2, x3`) gives rs1 = 0 | rs1 = word bits 15..19 = 2, the 5-bit mask the other arms use | not executed; high (the literal differs from the binary mask `0b11111` by one letter) | Findings.Rs1AsWritten | Fields.Rs1 |
| src/instruction/types.rs:69 | rs2 is masked with the hex literal 0xb11111 and cast to u8, keeping word bits 20 and 24 only | 0x003100B3 (`add x1, x2, x3`) gives rs2 = 1 | rs2 = word bits 20..24 = 3 | not executed; high | Findings.Rs2AsWritten | Fields.Rs2 |
