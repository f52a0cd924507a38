/**
 * The instruction decoder of src/ins.rs. A 32-bit word is split into the
 * R/I/S/B/U/J descriptor of sections 2.2-2.3 of the RISC-V Unprivileged ISA
 * manual; a 16-bit word of the "C" extension (chapter 16 of the same manual)
 * is turned into the descriptor of its 32-bit equivalent.
 *
 * Every field is computed the way the source computes it (masks, shifts,
 * casts). The partner of the decoder is the manual's encoding, `Encode`:
 * decoding inverts it on every well-formed descriptor, and encoding inverts
 * decoding on every word with a known opcode. The partner of the compressed
 * decoder is the manual's expansion table, `Expand16`.
 *
 * An `i16` or `i32` immediate is held as its two's-complement pattern; its
 * value is `Sext16(imm)` (for `i16`) or `imm` itself (for `i32`) read as a
 * signed 32-bit number.
 */
module Ins {
  import opened Words
  import opened Wrappers
  import opened Device

  datatype InstructionFormat =
    | R(opcode: bv8, rd: bv8, funct3: bv8, rs1: bv8, rs2: bv8, funct7: bv8)
    | I(opcode: bv8, rd: bv8, funct3: bv8, rs1: bv8, imm: bv16)
    | S(opcode: bv8, funct3: bv8, rs1: bv8, rs2: bv8, imm: bv16)
    | B(opcode: bv8, funct3: bv8, rs1: bv8, rs2: bv8, imm: bv16)
    | U(opcode: bv8, rd: bv8, imm32: bv32)
    | J(opcode: bv8, rd: bv8, imm32: bv32)

  const OP_REG: bv8 := 0x33
  const OP_AMO: bv8 := 0x2f
  const OP_IMM: bv8 := 0x13
  const OP_LOAD: bv8 := 0x03
  const OP_JALR: bv8 := 0x67
  const OP_SYSTEM: bv8 := 0x73
  const OP_FENCE: bv8 := 0x0f
  const OP_STORE: bv8 := 0x23
  const OP_BRANCH: bv8 := 0x63
  const OP_JAL: bv8 := 0x6f
  const OP_LUI: bv8 := 0x37
  const OP_AUIPC: bv8 := 0x17

  /** Added to a 3-bit compressed register field: x8..x15. */
  const RVC_REG_OFFSET: bv8 := 8

  /** Length in bytes of the instruction. */
  function Size(ins: Instruction): (n: nat)
    ensures n == 4 <==> ins.IRV32?
    ensures n == 2 <==> ins.CRV32?
  {
    match ins
    case IRV32(_) => 4
    case CRV32(_) => 2
  }

  // ---------------------------------------------------------------------------
  // Which descriptor each major opcode gets

  predicate IsROpcode(op: bv8) { op == OP_REG || op == OP_AMO }
  predicate IsIOpcode(op: bv8)
  {
    op == OP_IMM || op == OP_LOAD || op == OP_JALR || op == OP_SYSTEM || op == OP_FENCE
  }
  predicate IsUOpcode(op: bv8) { op == OP_LUI || op == OP_AUIPC }

  /** The major opcodes the decoder knows. */
  predicate KnownOpcode(op: bv8)
  {
    IsROpcode(op) || IsIOpcode(op) || op == OP_STORE || op == OP_BRANCH || op == OP_JAL || IsUOpcode(op)
  }

  // ---------------------------------------------------------------------------
  // 32-bit immediates: the source's expression, and the manual's layout

  /** I-type: `((ins as i32) >> 20) as i16` is bits 31:20, sign-extended. */
  function ImmI(ins: bv32): (r: bv16)
    ensures Sext16(r) == Sext12(ins >> 20)
  {
    (Asr20(ins) & 0xFFFF) as bv16
  }

  /** S-type: bits 31:25 joined with bits 11:7, sign-extended. The source
      computes `(x as i32 as u64 >> 20) as i16`, which is `(x as i32 >> 20) as i16`
      (Words.WideShift20). */
  function ImmS(ins: bv32): (r: bv16)
    ensures Sext16(r) == Sext12(((ins >> 25) << 5) | ((ins >> 7) & 0x1F))
  {
    var imm7 := (ins >> 7) & 0x1F;
    var imm25 := ins & 0xfe00_0000;
    (Asr20(imm25 + (imm7 << 20)) & 0xFFFF) as bv16
  }

  /** B-type: offset[12|10:5] from bits 31:25 and offset[4:1|11] from bits 11:7, sign-extended. */
  function ImmB(ins: bv32): (r: bv16)
    ensures Sext16(r) == Sext13(((ins >> 31) << 12) | (((ins >> 7) & 1) << 11)
                                | (((ins >> 25) & 0x3F) << 5) | (((ins >> 8) & 0xF) << 1))
  {
    var imm := ((ins & 0x8000_0000) >> 19) | ((ins & 0x7e00_0000) >> 20)
               | ((ins & 0x0000_0f00) >> 7) | ((ins & 0x0000_0080) << 4);
    assert imm == ((ins >> 31) << 12) | (((ins >> 7) & 1) << 11)
                  | (((ins >> 25) & 0x3F) << 5) | (((ins >> 8) & 0xF) << 1);
    (Asr19(imm << 19) & 0xFFFF) as bv16
  }

  /** J-type: offset[20|10:1|11|19:12] from bits 31:12, sign-extended. */
  function ImmJ(ins: bv32): (r: bv32)
    ensures r == Sext21(((ins >> 31) << 20) | (((ins >> 12) & 0xFF) << 12)
                        | (((ins >> 20) & 1) << 11) | (((ins >> 21) & 0x3FF) << 1))
  {
    var imm := ((ins & 0x8000_0000) >> 11) | ((ins & 0x7fe0_0000) >> 20)
               | ((ins & 0x0010_0000) >> 9) | (ins & 0x000f_f000);
    assert imm == ((ins >> 31) << 20) | (((ins >> 12) & 0xFF) << 12)
                  | (((ins >> 20) & 1) << 11) | (((ins >> 21) & 0x3FF) << 1);
    Asr11(imm << 11)
  }

  /** U-type: bits 31:12 as a signed 20-bit number (not shifted back into
      place). The source computes `((ins & 0xfffff800) as i32 as u64 >> 12) as i32`,
      which is `(ins & 0xfffff800) as i32 >> 12` (Words.WideShift12). */
  function ImmU(ins: bv32): (r: bv32)
    ensures r == Sext20(ins >> 12)
  {
    Asr12(ins & 0xffff_f800)
  }

  /** Shifting the U-type immediate back into place restores bits 31:12. */
  lemma UpperBits(ins: bv32)
    ensures ImmU(ins) << 12 == ins & 0xFFFF_F000
  {
  }

  // ---------------------------------------------------------------------------
  // decode_32

  /** Instruction::decode: the descriptor paired with the instruction it came
      from, or IllegalOpcode naming the instruction. */
  function Decode(ins: Instruction): (r: Result<(Instruction, InstructionFormat), Fault>)
    requires ins.CRV32? ==> ins.half & 3 != 3
    ensures r.Ok? ==> r.value.0 == ins
    ensures r.Err? ==> r.error == IllegalOpcode(ins)
  {
    var res := match ins
      case IRV32(w) => Decode32(w)
      case CRV32(h) => Decode16(h);
    match res
    case Ok(d) => Ok((ins, d))
    case Err(_) => Err(IllegalOpcode(ins))
  }

  function Decode32(ins: bv32): (r: Result<InstructionFormat, Fault>)
    ensures r.Err? <==> !KnownOpcode((ins & 0x7F) as bv8)
    ensures r.Err? ==> r.error == InstructionDecodingError
  {
    var opcode := (ins & 0x7F) as bv8;
    if IsROpcode(opcode) then Ok(DecodeR(ins))
    else if IsIOpcode(opcode) then Ok(DecodeI(ins))
    else if opcode == OP_STORE then Ok(DecodeS(ins))
    else if opcode == OP_BRANCH then Ok(DecodeB(ins))
    else if opcode == OP_JAL then Ok(DecodeJ(ins))
    else if IsUOpcode(opcode) then Ok(DecodeU(ins))
    else Err(InstructionDecodingError)
  }

  // The arms of decode_32, one per format.

  function DecodeR(ins: bv32): InstructionFormat
  {
    R((ins & 0x7F) as bv8, ((ins >> 7) & 0x1F) as bv8, ((ins >> 12) & 7) as bv8,
      ((ins >> 15) & 0x1F) as bv8, ((ins >> 20) & 0x1F) as bv8, (ins >> 25) as bv8)
  }

  function DecodeI(ins: bv32): InstructionFormat
  {
    I((ins & 0x7F) as bv8, ((ins & 0x0F80) >> 7) as bv8, ((ins & 0x7000) >> 12) as bv8,
      ((ins & 0xF8000) >> 15) as bv8, ImmI(ins))
  }

  function DecodeS(ins: bv32): InstructionFormat
  {
    S((ins & 0x7F) as bv8, ((ins >> 12) & 7) as bv8, ((ins >> 15) & 0x1F) as bv8,
      ((ins >> 20) & 0x1F) as bv8, ImmS(ins))
  }

  function DecodeB(ins: bv32): InstructionFormat
  {
    B((ins & 0x7F) as bv8, ((ins >> 12) & 7) as bv8, ((ins >> 15) & 0x1F) as bv8,
      ((ins >> 20) & 0x1F) as bv8, ImmB(ins))
  }

  function DecodeJ(ins: bv32): InstructionFormat
  {
    J((ins & 0x7F) as bv8, ((ins & 0x0F80) >> 7) as bv8, ImmJ(ins))
  }

  function DecodeU(ins: bv32): InstructionFormat
  {
    U((ins & 0x7F) as bv8, ((ins >> 7) & 0x1F) as bv8, ImmU(ins))
  }

  // ---------------------------------------------------------------------------
  // The immediates of the compressed formats as the manual lays them out, read
  // from the 16-bit parcel widened to 32 bits.

  /** c.lw/c.sw: uimm[5:3] from bits 12:10, uimm[2] from bit 6, uimm[6] from bit 5. */
  function UimmCL(x: bv32): bv32
  {
    (((x >> 10) & 7) << 3) | (((x >> 6) & 1) << 2) | (((x >> 5) & 1) << 6)
  }

  /** c.addi4spn: nzuimm[5:4|9:6|2|3] from bits 12:5. */
  function NzuimmCIW(x: bv32): bv32
  {
    (((x >> 11) & 3) << 4) | (((x >> 7) & 0xF) << 6) | (((x >> 6) & 1) << 2) | (((x >> 5) & 1) << 3)
  }

  /** c.addi/c.li/c.lui/c.andi/shifts: imm[5] from bit 12, imm[4:0] from bits 6:2, unextended. */
  function Imm6(x: bv32): bv32
  {
    (((x >> 12) & 1) << 5) | ((x >> 2) & 0x1F)
  }

  /** c.addi16sp: nzimm[9] from bit 12, nzimm[4|6|8:7|5] from bits 6:2, sign-extended. */
  function NzimmAddi16sp(x: bv32): bv32
  {
    Sext10((((x >> 12) & 1) << 9) | (((x >> 6) & 1) << 4) | (((x >> 5) & 1) << 6)
           | (((x >> 3) & 3) << 7) | (((x >> 2) & 1) << 5))
  }

  /** c.j/c.jal: offset[11|4|9:8|10|6|7|3:1|5] from bits 12:2, sign-extended. */
  function OffsetCJ(x: bv32): bv32
  {
    Sext12((((x >> 12) & 1) << 11) | (((x >> 11) & 1) << 4) | (((x >> 9) & 3) << 8)
           | (((x >> 8) & 1) << 10) | (((x >> 7) & 1) << 6) | (((x >> 6) & 1) << 7)
           | (((x >> 3) & 7) << 1) | (((x >> 2) & 1) << 5))
  }

  /** c.beqz/c.bnez: offset[8|4:3] from bits 12:10, offset[7:6|2:1|5] from bits 6:2, sign-extended. */
  function OffsetCB(x: bv32): bv32
  {
    Sext9((((x >> 12) & 1) << 8) | (((x >> 10) & 3) << 3) | (((x >> 5) & 3) << 6)
          | (((x >> 3) & 3) << 1) | (((x >> 2) & 1) << 5))
  }

  /** c.lwsp: uimm[5] from bit 12, uimm[4:2|7:6] from bits 6:2. */
  function UimmLwsp(x: bv32): bv32
  {
    (((x >> 2) & 3) << 6) | (((x >> 12) & 1) << 5) | (((x >> 4) & 7) << 2)
  }

  /** c.swsp: uimm[5:2|7:6] from bits 12:7. */
  function UimmSwsp(x: bv32): bv32
  {
    (((x >> 9) & 0xF) << 2) | (((x >> 7) & 3) << 6)
  }

  // ---------------------------------------------------------------------------
  // decode_16: how the source assembles each immediate. `(h >> k) as u8` keeps
  // the low byte, written `((h >> k) & 0xFF) as bv8`. Each contract says the
  // result sign-extends to the manual's immediate.

  function CLwImm(h: bv16): (r: bv16)
    ensures Sext16(r) == UimmCL(h as bv32)
  {
    var imm := ((((h >> 6) & 0xFF) as bv8 & 1) << 3) | ((((h >> 5) & 0xFF) as bv8 & 1) << 7)
               | ((((h >> 10) & 0xFF) as bv8 & 7) << 4);
    (imm >> 1) as bv16
  }

  function CAddi4spnImm(h: bv16): (r: bv16)
    ensures Sext16(r) == NzuimmCIW(h as bv32)
  {
    var imm := ((((h >> 7) & 0xFF) as bv8 & 0xF) << 4) | ((((h >> 11) & 0xFF) as bv8 & 3) << 2)
               | ((((h >> 5) & 0xFF) as bv8 & 1) << 1) | (((h >> 6) & 0xFF) as bv8 & 1);
    (imm as bv16) * 4
  }

  /** The byte holding imm[5] (bit 12) in bit 7 and imm[4:0] (bits 6:2) in bits
      6:2. The source assembles it in three textually different ways (c.addi,
      c.li/c.lui, and the shifts and c.andi); all give this byte. */
  function CiByte(h: bv16): bv8
  {
    (((h >> 5) & 0xFF) as bv8 & 0x80) | ((h & 0xFF) as bv8 & 0x7C)
  }

  /** `(CiByte(h) as i8 >> 2) as i16`. */
  function CiImm(h: bv16): (r: bv16)
    ensures Sext16(r) == Sext6(Imm6(h as bv32))
  {
    Sext8(Asr2Byte(CiByte(h)))
  }

  function CAddi16spImm(h: bv16): (r: bv16)
    ensures Sext16(r) == NzimmAddi16sp(h as bv32)
  {
    var imm := ((((h >> 12) & 0xFF) as bv8 & 1) << 7) | ((((h >> 6) & 0xFF) as bv8 & 1) << 2)
               | ((((h >> 5) & 0xFF) as bv8 & 1) << 4) | ((((h >> 3) & 0xFF) as bv8 & 3) << 5)
               | ((((h >> 2) & 0xFF) as bv8 & 1) << 3);
    Sext8(imm) << 2
  }

  /** c.srai: shamt[4:0] from bits 6:2 under the funct7 0x20 of srai; bit 12 is dropped. */
  function CSraiImm(h: bv16): (r: bv16)
    ensures Sext16(r) == ((h as bv32 >> 2) & 0x1F) | 0x400
  {
    (((CiByte(h) >> 2) as bv16) & 0x1F) | (0x20 << 5)
  }

  function CJImm(h: bv16): (r: bv32)
    ensures r == OffsetCJ(h as bv32)
  {
    var imm := (((h >> 12) & 1) << 15) | (((h >> 11) & 1) << 8) | (((h >> 9) & 3) << 12)
               | (((h >> 8) & 1) << 14) | (((h >> 7) & 1) << 10) | (((h >> 6) & 1) << 11)
               | (((h >> 3) & 7) << 5) | (((h >> 2) & 1) << 9);
    Sext16(2 * Asr5Half(imm))
  }

  function CBImm(h: bv16): (r: bv16)
    ensures Sext16(r) == OffsetCB(h as bv32)
  {
    var imm := ((((h >> 12) & 0xFF) as bv8 & 1) << 7) | ((((h >> 10) & 0xFF) as bv8 & 3) << 2)
               | ((((h >> 5) & 0xFF) as bv8 & 3) << 5) | (((h >> 3) & 0xFF) as bv8 & 3)
               | ((((h >> 2) & 0xFF) as bv8 & 1) << 4);
    Sext8(imm) << 1
  }

  function CLwspImm(h: bv16): (r: bv16)
    ensures Sext16(r) == UimmLwsp(h as bv32)
  {
    var imm := ((((h >> 2) & 0xFF) as bv8 & 3) << 6) | ((((h >> 12) & 0xFF) as bv8 & 1) << 5)
               | ((((h >> 4) & 0xFF) as bv8 & 7) << 2);
    imm as bv16
  }

  function CSwspImm(h: bv16): (r: bv16)
    ensures Sext16(r) == UimmSwsp(h as bv32)
  {
    var imm := ((((h >> 9) & 0xFF) as bv8 & 0xF) << 2) | ((((h >> 7) & 0xFF) as bv8 & 3) << 6);
    imm as bv16
  }

  // ---------------------------------------------------------------------------
  // decode_16

  /** Decodes a 16-bit parcel; quadrant 3 (low bits 11) is a 32-bit
      instruction, on which the source panics. */
  function Decode16(h: bv16): (r: Result<InstructionFormat, Fault>)
    requires h & 3 != 3
    ensures r.Err? ==> r.error == InstructionDecodingError
  {
    var op := h & 3;
    if op == 0 then DecodeC0(h) else if op == 1 then DecodeC1(h) else DecodeC2(h)
  }

  /** Quadrant 0: c.addi4spn, c.lw, c.sw. */
  function DecodeC0(h: bv16): Result<InstructionFormat, Fault>
  {
    var funct3 := h >> 13;
    var low := ((h >> 2) & 7) as bv8;
    var high := ((h >> 7) & 7) as bv8;
    if funct3 == 2 then Ok(I(OP_LOAD, low + RVC_REG_OFFSET, 2, high + RVC_REG_OFFSET, CLwImm(h)))
    else if funct3 == 6 then Ok(S(OP_STORE, 2, high + RVC_REG_OFFSET, low + RVC_REG_OFFSET, CLwImm(h)))
    else if funct3 == 0 then Ok(I(OP_IMM, low + RVC_REG_OFFSET, 0, 2, CAddi4spnImm(h)))
    else Err(InstructionDecodingError)
  }

  /** Quadrant 1: c.addi, c.jal, c.li, c.addi16sp/c.lui, the arithmetic group, c.j, c.beqz, c.bnez. */
  function DecodeC1(h: bv16): Result<InstructionFormat, Fault>
  {
    var funct3 := h >> 13;
    var rd := ((h >> 7) & 0x1F) as bv8;
    if funct3 == 0 then Ok(I(OP_IMM, rd, 0, rd, CiImm(h)))
    else if funct3 == 2 then Ok(I(OP_IMM, rd, 0, 0, CiImm(h)))
    else if funct3 == 3 then
      if rd == 2 then Ok(I(OP_IMM, rd, 0, 2, CAddi16spImm(h)))
      else Ok(U(OP_LUI, rd, Sext16(CiImm(h))))
    else if funct3 == 4 then DecodeC1Arith(h)
    else if funct3 == 5 then Ok(J(OP_JAL, 0, CJImm(h)))
    else if funct3 == 1 then Ok(J(OP_JAL, 1, CJImm(h)))
    else
      var rs1 := ((h >> 7) & 0xFF) as bv8 & 7;
      Ok(B(OP_BRANCH, if funct3 == 6 then 0 else 1, rs1 + RVC_REG_OFFSET, 0, CBImm(h)))
  }

  /** Quadrant 1, funct3 100: c.srli, c.srai, c.andi, c.sub, c.xor, c.or, c.and. */
  function DecodeC1Arith(h: bv16): Result<InstructionFormat, Fault>
  {
    var funct2 := (h >> 10) & 3;
    var rd := (((h >> 7) & 0xFF) as bv8 & 7) + RVC_REG_OFFSET;
    if funct2 == 0 then Ok(I(OP_IMM, rd, 5, rd, CiImm(h)))
    else if funct2 == 1 then Ok(I(OP_IMM, rd, 5, rd, CSraiImm(h)))
    else if funct2 == 2 then Ok(I(OP_IMM, rd, 7, rd, CiImm(h)))
    else
      var funct6 := ((h >> 10) & 0xFF) as bv8 & 0x3F;
      var funct2 := ((h >> 5) & 0xFF) as bv8 & 3;
      var rs2 := (((h >> 2) & 0xFF) as bv8 & 7) + RVC_REG_OFFSET;
      if funct6 != 0x23 then Err(InstructionDecodingError)
      else if funct2 == 3 then Ok(R(OP_REG, rd, 7, rd, rs2, 0))
      else if funct2 == 2 then Ok(R(OP_REG, rd, 6, rd, rs2, 0))
      else if funct2 == 1 then Ok(R(OP_REG, rd, 4, rd, rs2, 0))
      else Ok(R(OP_REG, rd, 0, rd, rs2, 0x20))
  }

  /** Quadrant 2: c.slli, c.lwsp, c.jr/c.mv, c.jalr/c.ebreak/c.add, c.swsp. */
  function DecodeC2(h: bv16): Result<InstructionFormat, Fault>
  {
    var funct4 := h >> 12;
    var rs1 := ((h >> 7) & 0x1F) as bv8;
    var rs2 := ((h >> 2) & 0x1F) as bv8;
    if funct4 == 0 || funct4 == 1 then Ok(I(OP_IMM, rs1, 1, rs1, CiImm(h)))
    else if funct4 == 8 then
      if rs1 != 0 && rs2 == 0 then Ok(I(OP_JALR, 0, 0, rs1, 0))
      else Ok(I(OP_IMM, rs1, 0, rs2, 0))
    else if funct4 == 9 then
      if rs1 != 0 && rs2 == 0 then Ok(I(OP_JALR, 1, 0, rs1, 0))
      else if rs1 == 0 && rs2 == 0 then Ok(I(OP_SYSTEM, 0, 0, 0, 1))
      else Ok(R(OP_REG, rs1, 0, rs1, rs2, 0))
    else if funct4 == 4 || funct4 == 5 then Ok(I(OP_LOAD, rs1, 2, 2, CLwspImm(h)))
    else if funct4 == 12 || funct4 == 13 then Ok(S(OP_STORE, 2, 2, rs2, CSwspImm(h)))
    else Err(InstructionDecodingError)
  }

  // ---------------------------------------------------------------------------
  // The manual's RV32C expansion table: the partner of Decode16

  /** The 32-bit instruction a 16-bit parcel expands to under RV32IC, or None
      for the parcels the manual reserves, those of other extensions (F, D) or
      of RV64/RV128 only. c.mv is expanded to `addi rd, rs2, 0`, which writes
      the same value as the manual's `add rd, x0, rs2`. */
  function Expand16(h: bv16): Option<bv32>
    requires h & 3 != 3
  {
    var x := h as bv32;
    var funct3 := x >> 13;
    var b12 := (x >> 12) & 1;
    var rd := ((x >> 7) & 0x1F) as bv8;
    var rs2 := ((x >> 2) & 0x1F) as bv8;
    var rdLow := (((x >> 2) & 7) + 8) as bv8;
    var rdHigh := (((x >> 7) & 7) + 8) as bv8;
    if x & 3 == 0 then
      if funct3 == 0 then
        if NzuimmCIW(x) == 0 then None else Some(EncI(OP_IMM, rdLow, 0, 2, NzuimmCIW(x)))
      else if funct3 == 2 then Some(EncI(OP_LOAD, rdLow, 2, rdHigh, UimmCL(x)))
      else if funct3 == 6 then Some(EncS(OP_STORE, 2, rdHigh, rdLow, UimmCL(x)))
      else None
    else if x & 3 == 1 then
      if funct3 == 0 then Some(EncI(OP_IMM, rd, 0, rd, Sext6(Imm6(x))))
      else if funct3 == 1 then Some(EncJ(OP_JAL, 1, OffsetCJ(x)))
      else if funct3 == 2 then Some(EncI(OP_IMM, rd, 0, 0, Sext6(Imm6(x))))
      else if funct3 == 3 then
        if rd == 2 then
          if NzimmAddi16sp(x) == 0 then None else Some(EncI(OP_IMM, 2, 0, 2, NzimmAddi16sp(x)))
        else if Imm6(x) == 0 then None
        else Some(EncU(OP_LUI, rd, Sext6(Imm6(x))))
      else if funct3 == 4 then Expand16Arith(x)
      else if funct3 == 5 then Some(EncJ(OP_JAL, 0, OffsetCJ(x)))
      else if funct3 == 6 then Some(EncB(OP_BRANCH, 0, rdHigh, 0, OffsetCB(x)))
      else Some(EncB(OP_BRANCH, 1, rdHigh, 0, OffsetCB(x)))
    else
      if funct3 == 0 then
        if b12 == 1 then None else Some(EncI(OP_IMM, rd, 1, rd, Imm6(x)))
      else if funct3 == 2 then
        if rd == 0 then None else Some(EncI(OP_LOAD, rd, 2, 2, UimmLwsp(x)))
      else if funct3 == 4 then
        if b12 == 0 then
          if rs2 != 0 then Some(EncI(OP_IMM, rd, 0, rs2, 0))
          else if rd == 0 then None
          else Some(EncI(OP_JALR, 0, 0, rd, 0))
        else if rs2 != 0 then Some(EncR(OP_REG, rd, 0, rd, rs2, 0))
        else if rd == 0 then Some(EncI(OP_SYSTEM, 0, 0, 0, 1))
        else Some(EncI(OP_JALR, 1, 0, rd, 0))
      else if funct3 == 6 then Some(EncS(OP_STORE, 2, 2, rs2, UimmSwsp(x)))
      else None
  }

  /** Quadrant 1, funct3 100, of the expansion table: c.srli, c.srai, c.andi,
      c.sub, c.xor, c.or, c.and. A shift amount with bit 5 set is reserved
      under RV32C; bit 12 set in the register-register group is RV64 only. */
  function Expand16Arith(x: bv32): Option<bv32>
  {
    var rd := (((x >> 7) & 7) + 8) as bv8;
    var rs2 := (((x >> 2) & 7) + 8) as bv8;
    var b12 := (x >> 12) & 1;
    var funct2 := (x >> 10) & 3;
    if funct2 == 0 then
      if b12 == 1 then None else Some(EncI(OP_IMM, rd, 5, rd, Imm6(x)))
    else if funct2 == 1 then
      if b12 == 1 then None else Some(EncI(OP_IMM, rd, 5, rd, Imm6(x) | 0x400))
    else if funct2 == 2 then Some(EncI(OP_IMM, rd, 7, rd, Sext6(Imm6(x))))
    else if b12 == 1 then None
    else
      var funct2 := (x >> 5) & 3;
      if funct2 == 0 then Some(EncR(OP_REG, rd, 0, rd, rs2, 0x20))
      else if funct2 == 1 then Some(EncR(OP_REG, rd, 4, rd, rs2, 0))
      else if funct2 == 2 then Some(EncR(OP_REG, rd, 6, rd, rs2, 0))
      else Some(EncR(OP_REG, rd, 7, rd, rs2, 0))
  }

  /** The parcels the manual reserves (or, for RV32C, marks as custom) that the
      source nevertheless decodes: c.addi4spn with a zero immediate (among
      them the all-zero parcel the manual makes illegal), c.addi16sp and c.lui
      with a zero immediate, c.lwsp into x0, c.jr of x0, and c.srli, c.srai and
      c.slli with shift-amount bit 5 set. */
  predicate Reserved16(h: bv16)
  {
    var x := h as bv32;
    var funct3 := x >> 13;
    var b12 := (x >> 12) & 1;
    var rd := (x >> 7) & 0x1F;
    var rs2 := (x >> 2) & 0x1F;
    (x & 3 == 0 && funct3 == 0 && NzuimmCIW(x) == 0)
    || (x & 3 == 1 && funct3 == 3 && rd == 2 && NzimmAddi16sp(x) == 0)
    || (x & 3 == 1 && funct3 == 3 && rd != 2 && Imm6(x) == 0)
    || (x & 3 == 1 && funct3 == 4 && (x >> 10) & 3 < 2 && b12 == 1)
    || (x & 3 == 2 && funct3 == 0 && b12 == 1)
    || (x & 3 == 2 && funct3 == 2 && rd == 0)
    || (x & 3 == 2 && funct3 == 4 && b12 == 0 && rd == 0 && rs2 == 0)
  }

  /** The decoder agrees with the expansion table on one parcel: a parcel with
      an expansion decodes to a well-formed descriptor whose encoding is that
      expansion; a parcel without one is decoded only if it is reserved. */
  predicate Agrees(h: bv16)
    requires h & 3 != 3
  {
    match Expand16(h)
    case Some(w) => Decode16(h).Ok? && WellFormed(Decode16(h).value) && Encode(Decode16(h).value) == w
    case None => Decode16(h).Ok? <==> Reserved16(h)
  }

  /** Decoding a 16-bit parcel gives what decoding its RV32IC expansion gives;
      a parcel the manual does not expand is decoded exactly when it is
      reserved, so the source accepts every reserved parcel. */
  lemma Decode16Expand16(h: bv16)
    requires h & 3 != 3
    ensures Expand16(h).Some? ==> Decode16(h) == Decode32(Expand16(h).value)
    ensures Expand16(h).None? ==> (Decode16(h).Ok? <==> Reserved16(h))
    ensures Reserved16(h) ==> Expand16(h).None? && Decode16(h).Ok?
  {
    AgreesEverywhere(h);
    ReservedUnexpanded(h);
    if Expand16(h).Some? {
      DecodeEncode(Decode16(h).value);
    }
  }

  lemma ReservedUnexpanded(h: bv16)
    requires h & 3 != 3
    ensures Reserved16(h) ==> Expand16(h).None?
  {
  }

  lemma AgreesEverywhere(h: bv16)
    requires h & 3 != 3
    ensures Agrees(h)
  {
    var q := h & 3;
    var funct3 := h >> 13;
    if q == 0 {
      if funct3 == 0 { AgreesC0AddiSpn(h); }
      else if funct3 == 2 { AgreesC0Lw(h); }
      else if funct3 == 6 { AgreesC0Sw(h); }
      else { AgreesC0Other(h); }
    } else if q == 1 {
      if funct3 == 0 { AgreesC1Addi(h); }
      else if funct3 == 1 { AgreesC1Jal(h); }
      else if funct3 == 2 { AgreesC1Li(h); }
      else if funct3 == 3 {
        if (h >> 7) & 0x1F == 2 { AgreesC1Addi16sp(h); } else { AgreesC1Lui(h); }
      }
      else if funct3 == 4 { AgreesC1Arith(h); }
      else if funct3 == 5 { AgreesC1J(h); }
      else if funct3 == 6 { AgreesC1Beqz(h); }
      else { AgreesC1Bnez(h); }
    } else {
      if funct3 == 0 { AgreesC2Slli(h); }
      else if funct3 == 2 { AgreesC2Lwsp(h); }
      else if funct3 == 4 {
        if (h >> 12) & 1 == 0 { AgreesC2Jr(h); } else { AgreesC2Add(h); }
      }
      else if funct3 == 6 { AgreesC2Swsp(h); }
      else { AgreesC2Other(h); }
    }
  }

  lemma AgreesC1Arith(h: bv16)
    requires h & 3 == 1 && h >> 13 == 4
    ensures Agrees(h)
  {
    var funct2 := (h >> 10) & 3;
    if funct2 == 0 { AgreesC1Srli(h); }
    else if funct2 == 1 { AgreesC1Srai(h); }
    else if funct2 == 2 { AgreesC1Andi(h); }
    else if (h >> 12) & 1 == 1 { AgreesC1Wide(h); }
    else {
      var funct2 := (h >> 5) & 3;
      if funct2 == 0 { AgreesC1Sub(h); }
      else if funct2 == 1 { AgreesC1Xor(h); }
      else if funct2 == 2 { AgreesC1Or(h); }
      else { AgreesC1And(h); }
    }
  }

  // One lemma per row of the expansion table.

  lemma AgreesC0AddiSpn(h: bv16)
    requires h & 3 == 0 && h >> 13 == 0
    ensures Agrees(h)
  {
  }

  lemma AgreesC0Lw(h: bv16)
    requires h & 3 == 0 && h >> 13 == 2
    ensures Agrees(h)
  {
  }

  lemma AgreesC0Sw(h: bv16)
    requires h & 3 == 0 && h >> 13 == 6
    ensures Agrees(h)
  {
  }

  lemma AgreesC0Other(h: bv16)
    requires h & 3 == 0 && h >> 13 != 0 && h >> 13 != 2 && h >> 13 != 6
    ensures Agrees(h)
  {
  }

  lemma AgreesC1Addi(h: bv16)
    requires h & 3 == 1 && h >> 13 == 0
    ensures Agrees(h)
  {
  }

  lemma AgreesC1Jal(h: bv16)
    requires h & 3 == 1 && h >> 13 == 1
    ensures Agrees(h)
  {
    OffsetCJFits(h as bv32);
  }

  lemma AgreesC1Li(h: bv16)
    requires h & 3 == 1 && h >> 13 == 2
    ensures Agrees(h)
  {
  }

  lemma AgreesC1Addi16sp(h: bv16)
    requires h & 3 == 1 && h >> 13 == 3 && (h >> 7) & 0x1F == 2
    ensures Agrees(h)
  {
  }

  lemma AgreesC1Lui(h: bv16)
    requires h & 3 == 1 && h >> 13 == 3 && (h >> 7) & 0x1F != 2
    ensures Agrees(h)
  {
  }

  lemma AgreesC1Srli(h: bv16)
    requires h & 3 == 1 && h >> 13 == 4 && (h >> 10) & 3 == 0
    ensures Agrees(h)
  {
  }

  lemma AgreesC1Srai(h: bv16)
    requires h & 3 == 1 && h >> 13 == 4 && (h >> 10) & 3 == 1
    ensures Agrees(h)
  {
  }

  lemma AgreesC1Andi(h: bv16)
    requires h & 3 == 1 && h >> 13 == 4 && (h >> 10) & 3 == 2
    ensures Agrees(h)
  {
  }

  lemma AgreesC1Wide(h: bv16)
    requires h & 3 == 1 && h >> 13 == 4 && (h >> 10) & 3 == 3 && (h >> 12) & 1 == 1
    ensures Agrees(h)
  {
  }

  lemma AgreesC1Sub(h: bv16)
    requires h & 3 == 1 && h >> 13 == 4 && (h >> 10) & 3 == 3 && (h >> 12) & 1 == 0 && (h >> 5) & 3 == 0
    ensures Agrees(h)
  {
  }

  lemma AgreesC1Xor(h: bv16)
    requires h & 3 == 1 && h >> 13 == 4 && (h >> 10) & 3 == 3 && (h >> 12) & 1 == 0 && (h >> 5) & 3 == 1
    ensures Agrees(h)
  {
  }

  lemma AgreesC1Or(h: bv16)
    requires h & 3 == 1 && h >> 13 == 4 && (h >> 10) & 3 == 3 && (h >> 12) & 1 == 0 && (h >> 5) & 3 == 2
    ensures Agrees(h)
  {
  }

  lemma AgreesC1And(h: bv16)
    requires h & 3 == 1 && h >> 13 == 4 && (h >> 10) & 3 == 3 && (h >> 12) & 1 == 0 && (h >> 5) & 3 == 3
    ensures Agrees(h)
  {
  }

  lemma AgreesC1J(h: bv16)
    requires h & 3 == 1 && h >> 13 == 5
    ensures Agrees(h)
  {
    OffsetCJFits(h as bv32);
  }

  lemma AgreesC1Beqz(h: bv16)
    requires h & 3 == 1 && h >> 13 == 6
    ensures Agrees(h)
  {
    OffsetCBFits(h as bv32);
  }

  lemma AgreesC1Bnez(h: bv16)
    requires h & 3 == 1 && h >> 13 == 7
    ensures Agrees(h)
  {
    OffsetCBFits(h as bv32);
  }

  lemma OffsetCJFits(x: bv32)
    ensures Sext21(OffsetCJ(x)) == OffsetCJ(x) && OffsetCJ(x) & 1 == 0
  {
  }

  lemma OffsetCBFits(x: bv32)
    ensures Sext13(OffsetCB(x)) == OffsetCB(x) && OffsetCB(x) & 1 == 0
  {
  }

  lemma UimmSwspFits(x: bv32)
    ensures Sext12(UimmSwsp(x)) == UimmSwsp(x)
  {
  }

  lemma AgreesC2Slli(h: bv16)
    requires h & 3 == 2 && h >> 13 == 0
    ensures Agrees(h)
  {
  }

  lemma AgreesC2Lwsp(h: bv16)
    requires h & 3 == 2 && h >> 13 == 2
    ensures Agrees(h)
  {
  }

  lemma AgreesC2Jr(h: bv16)
    requires h & 3 == 2 && h >> 13 == 4 && (h >> 12) & 1 == 0
    ensures Agrees(h)
  {
  }

  lemma AgreesC2Add(h: bv16)
    requires h & 3 == 2 && h >> 13 == 4 && (h >> 12) & 1 == 1
    ensures Agrees(h)
  {
  }

  lemma AgreesC2Swsp(h: bv16)
    requires h & 3 == 2 && h >> 13 == 6
    ensures Agrees(h)
  {
    UimmSwspFits(h as bv32);
  }

  lemma AgreesC2Other(h: bv16)
    requires h & 3 == 2 && h >> 13 != 0 && h >> 13 != 2 && h >> 13 != 4 && h >> 13 != 6
    ensures Agrees(h)
  {
  }

  // ---------------------------------------------------------------------------
  // The manual's encoding: the partner of Decode32

  /** Field placement of an R-type word. */
  function EncR(opcode: bv8, rd: bv8, funct3: bv8, rs1: bv8, rs2: bv8, funct7: bv8): bv32
  {
    ((funct7 as bv32) << 25) | ((rs2 as bv32) << 20) | ((rs1 as bv32) << 15)
    | ((funct3 as bv32) << 12) | ((rd as bv32) << 7) | (opcode as bv32)
  }

  /** Field placement of an I-type word: imm[11:0] in bits 31:20. */
  function EncI(opcode: bv8, rd: bv8, funct3: bv8, rs1: bv8, imm: bv32): bv32
  {
    ((imm & 0xFFF) << 20) | ((rs1 as bv32) << 15) | ((funct3 as bv32) << 12)
    | ((rd as bv32) << 7) | (opcode as bv32)
  }

  /** Field placement of an S-type word: imm[11:5] in bits 31:25, imm[4:0] in bits 11:7. */
  function EncS(opcode: bv8, funct3: bv8, rs1: bv8, rs2: bv8, imm: bv32): bv32
  {
    (((imm >> 5) & 0x7F) << 25) | ((rs2 as bv32) << 20) | ((rs1 as bv32) << 15)
    | ((funct3 as bv32) << 12) | ((imm & 0x1F) << 7) | (opcode as bv32)
  }

  /** Field placement of a B-type word: imm[12|10:5] in bits 31:25, imm[4:1|11] in bits 11:7. */
  function EncB(opcode: bv8, funct3: bv8, rs1: bv8, rs2: bv8, imm: bv32): bv32
  {
    (((imm >> 12) & 1) << 31) | (((imm >> 5) & 0x3F) << 25) | ((rs2 as bv32) << 20)
    | ((rs1 as bv32) << 15) | ((funct3 as bv32) << 12) | (((imm >> 1) & 0xF) << 8)
    | (((imm >> 11) & 1) << 7) | (opcode as bv32)
  }

  /** Field placement of a U-type word: the 20-bit immediate in bits 31:12. */
  function EncU(opcode: bv8, rd: bv8, imm: bv32): bv32
  {
    (imm << 12) | ((rd as bv32) << 7) | (opcode as bv32)
  }

  /** Field placement of a J-type word: imm[20|10:1|11|19:12] in bits 31:12. */
  function EncJ(opcode: bv8, rd: bv8, imm: bv32): bv32
  {
    (((imm >> 20) & 1) << 31) | (((imm >> 1) & 0x3FF) << 21) | (((imm >> 11) & 1) << 20)
    | (((imm >> 12) & 0xFF) << 12) | ((rd as bv32) << 7) | (opcode as bv32)
  }

  /** The 32-bit word a descriptor stands for. */
  function Encode(f: InstructionFormat): bv32
  {
    match f
    case R(op, rd, f3, rs1, rs2, f7) => EncR(op, rd, f3, rs1, rs2, f7)
    case I(op, rd, f3, rs1, imm) => EncI(op, rd, f3, rs1, Sext16(imm))
    case S(op, f3, rs1, rs2, imm) => EncS(op, f3, rs1, rs2, Sext16(imm))
    case B(op, f3, rs1, rs2, imm) => EncB(op, f3, rs1, rs2, Sext16(imm))
    case U(op, rd, imm) => EncU(op, rd, imm)
    case J(op, rd, imm) => EncJ(op, rd, imm)
  }

  /** A descriptor the decoder can produce: every field fits its slot and the
      opcode selects the descriptor's format. */
  predicate WellFormed(f: InstructionFormat)
  {
    match f
    case R(op, rd, f3, rs1, rs2, f7) =>
      IsROpcode(op) && rd < 32 && f3 < 8 && rs1 < 32 && rs2 < 32 && f7 < 128
    case I(op, rd, f3, rs1, imm) =>
      IsIOpcode(op) && rd < 32 && f3 < 8 && rs1 < 32 && Sext12(Sext16(imm)) == Sext16(imm)
    case S(op, f3, rs1, rs2, imm) =>
      op == OP_STORE && f3 < 8 && rs1 < 32 && rs2 < 32 && Sext12(Sext16(imm)) == Sext16(imm)
    case B(op, f3, rs1, rs2, imm) =>
      op == OP_BRANCH && f3 < 8 && rs1 < 32 && rs2 < 32
      && Sext13(Sext16(imm)) == Sext16(imm) && imm & 1 == 0
    case U(op, rd, imm) =>
      IsUOpcode(op) && rd < 32 && Sext20(imm) == imm
    case J(op, rd, imm) =>
      op == OP_JAL && rd < 32 && Sext21(imm) == imm && imm & 1 == 0
  }

  // ---------------------------------------------------------------------------
  // Decoding inverts encoding

  /** Decoding the manual's encoding of a well-formed descriptor gives it back. */
  lemma DecodeEncode(f: InstructionFormat)
    requires WellFormed(f)
    ensures Decode32(Encode(f)) == Ok(f)
  {
    match f
    case R(op, rd, f3, rs1, rs2, f7) =>
      EncRFields(op, rd, f3, rs1, rs2, f7);
      Decode32R(Encode(f));
    case I(op, rd, f3, rs1, imm) =>
      EncIFields(op, rd, f3, rs1, Sext16(imm));
      Decode32I(Encode(f));
      DecodeIOf(op, rd, f3, rs1, imm);
    case S(op, f3, rs1, rs2, imm) =>
      EncSFields(op, f3, rs1, rs2, Sext16(imm));
      Decode32S(Encode(f));
      DecodeSOf(op, f3, rs1, rs2, imm);
    case B(op, f3, rs1, rs2, imm) =>
      EncBFields(op, f3, rs1, rs2, Sext16(imm));
      Decode32B(Encode(f));
      DecodeBOf(op, f3, rs1, rs2, imm);
    case U(op, rd, imm) =>
      EncUFields(op, rd, imm);
      Decode32U(Encode(f));
      DecodeUOf(op, rd, imm);
    case J(op, rd, imm) =>
      EncJFields(op, rd, imm);
      Decode32J(Encode(f));
      DecodeJOf(op, rd, imm);
  }

  /** Encoding a decoded word gives the word back: the decoder loses no bit. */
  lemma EncodeDecode(w: bv32)
    requires Decode32(w).Ok?
    ensures Encode(Decode32(w).value) == w
  {
    var op := (w & 0x7F) as bv8;
    if IsROpcode(op) {
      Decode32R(w);
      EncodeDecodeR(w);
    } else if IsIOpcode(op) {
      Decode32I(w);
      EncodeDecodeI(w);
    } else if op == OP_STORE {
      Decode32S(w);
      EncodeDecodeS(w);
    } else if op == OP_BRANCH {
      Decode32B(w);
      EncodeDecodeB(w);
    } else if op == OP_JAL {
      Decode32J(w);
      EncodeDecodeJ(w);
    } else {
      Decode32U(w);
      EncodeDecodeU(w);
    }
  }

  /** Every descriptor the decoder produces is well-formed. */
  lemma DecodeWellFormed(w: bv32)
    requires Decode32(w).Ok?
    ensures WellFormed(Decode32(w).value)
  {
    var op := (w & 0x7F) as bv8;
    if IsROpcode(op) {
      Decode32R(w);
    } else if IsIOpcode(op) {
      Decode32I(w);
      Sext12Idempotent(w >> 20);
    } else if op == OP_STORE {
      Decode32S(w);
      Sext12Idempotent(((w >> 25) << 5) | ((w >> 7) & 0x1F));
    } else if op == OP_BRANCH {
      Decode32B(w);
      ImmBEven(w);
    } else if op == OP_JAL {
      Decode32J(w);
      ImmJEven(w);
    } else {
      Decode32U(w);
      Sext20Idempotent(w >> 12);
    }
  }

  lemma EncodeDecodeR(w: bv32)
    ensures Encode(DecodeR(w)) == w
  {
  }

  lemma EncodeDecodeI(w: bv32)
    ensures Encode(DecodeI(w)) == w
  {
    Sext12Low(w >> 20);
  }

  lemma EncodeDecodeS(w: bv32)
    ensures Encode(DecodeS(w)) == w
  {
  }

  lemma EncodeDecodeB(w: bv32)
    ensures Encode(DecodeB(w)) == w
  {
  }

  lemma EncodeDecodeJ(w: bv32)
    ensures Encode(DecodeJ(w)) == w
  {
  }

  lemma EncodeDecodeU(w: bv32)
    ensures Encode(DecodeU(w)) == w
  {
  }

  lemma ImmBEven(w: bv32)
    ensures Sext13(Sext16(ImmB(w))) == Sext16(ImmB(w)) && ImmB(w) & 1 == 0
  {
  }

  lemma ImmJEven(w: bv32)
    ensures Sext21(ImmJ(w)) == ImmJ(w) && ImmJ(w) & 1 == 0
  {
  }

  lemma Sext12Idempotent(x: bv32)
    ensures Sext12(Sext12(x)) == Sext12(x)
  {
  }

  lemma Sext20Idempotent(x: bv32)
    ensures Sext20(Sext20(x)) == Sext20(x)
  {
  }

  // Which arm decode_32 takes.

  lemma Decode32R(w: bv32)
    requires IsROpcode((w & 0x7F) as bv8)
    ensures Decode32(w) == Ok(DecodeR(w))
  {
  }

  lemma Decode32I(w: bv32)
    requires IsIOpcode((w & 0x7F) as bv8)
    ensures Decode32(w) == Ok(DecodeI(w))
  {
  }

  lemma Decode32S(w: bv32)
    requires (w & 0x7F) as bv8 == OP_STORE
    ensures Decode32(w) == Ok(DecodeS(w))
  {
  }

  lemma Decode32B(w: bv32)
    requires (w & 0x7F) as bv8 == OP_BRANCH
    ensures Decode32(w) == Ok(DecodeB(w))
  {
  }

  lemma Decode32J(w: bv32)
    requires (w & 0x7F) as bv8 == OP_JAL
    ensures Decode32(w) == Ok(DecodeJ(w))
  {
  }

  lemma Decode32U(w: bv32)
    requires IsUOpcode((w & 0x7F) as bv8)
    ensures Decode32(w) == Ok(DecodeU(w))
  {
  }

  // The fields each encoder places where the decoder reads them.

  lemma EncRFields(op: bv8, rd: bv8, f3: bv8, rs1: bv8, rs2: bv8, f7: bv8)
    requires op < 0x80 && rd < 32 && f3 < 8 && rs1 < 32 && rs2 < 32 && f7 < 0x80
    ensures DecodeR(EncR(op, rd, f3, rs1, rs2, f7)) == R(op, rd, f3, rs1, rs2, f7)
    ensures (EncR(op, rd, f3, rs1, rs2, f7) & 0x7F) as bv8 == op
  {
  }

  lemma EncIFields(op: bv8, rd: bv8, f3: bv8, rs1: bv8, imm: bv32)
    requires op < 0x80 && rd < 32 && f3 < 8 && rs1 < 32
    ensures var w := EncI(op, rd, f3, rs1, imm);
            (w & 0x7F) as bv8 == op && ((w & 0x0F80) >> 7) as bv8 == rd
            && ((w & 0x7000) >> 12) as bv8 == f3 && ((w & 0xF8000) >> 15) as bv8 == rs1
            && w >> 20 == imm & 0xFFF
  {
  }

  lemma EncSFields(op: bv8, f3: bv8, rs1: bv8, rs2: bv8, imm: bv32)
    requires op < 0x80 && f3 < 8 && rs1 < 32 && rs2 < 32
    ensures var w := EncS(op, f3, rs1, rs2, imm);
            (w & 0x7F) as bv8 == op && ((w >> 12) & 7) as bv8 == f3
            && ((w >> 15) & 0x1F) as bv8 == rs1 && ((w >> 20) & 0x1F) as bv8 == rs2
            && (((w >> 25) << 5) | ((w >> 7) & 0x1F)) == imm & 0xFFF
  {
  }

  lemma EncBFields(op: bv8, f3: bv8, rs1: bv8, rs2: bv8, imm: bv32)
    requires op < 0x80 && f3 < 8 && rs1 < 32 && rs2 < 32
    ensures var w := EncB(op, f3, rs1, rs2, imm);
            (w & 0x7F) as bv8 == op && ((w >> 12) & 7) as bv8 == f3
            && ((w >> 15) & 0x1F) as bv8 == rs1 && ((w >> 20) & 0x1F) as bv8 == rs2
            && (((w >> 31) << 12) | (((w >> 7) & 1) << 11) | (((w >> 25) & 0x3F) << 5)
                | (((w >> 8) & 0xF) << 1)) == imm & 0x1FFE
  {
  }

  lemma EncUFields(op: bv8, rd: bv8, imm: bv32)
    requires op < 0x80 && rd < 32
    ensures var w := EncU(op, rd, imm);
            (w & 0x7F) as bv8 == op && ((w >> 7) & 0x1F) as bv8 == rd && w >> 12 == imm & 0xF_FFFF
  {
  }

  lemma EncJFields(op: bv8, rd: bv8, imm: bv32)
    requires op < 0x80 && rd < 32
    ensures var w := EncJ(op, rd, imm);
            (w & 0x7F) as bv8 == op && ((w & 0x0F80) >> 7) as bv8 == rd
            && (((w >> 31) << 20) | (((w >> 12) & 0xFF) << 12) | (((w >> 20) & 1) << 11)
                | (((w >> 21) & 0x3FF) << 1)) == imm & 0x1F_FFFE
  {
  }

  // Each arm recovers the immediate the encoder placed.

  lemma DecodeIOf(op: bv8, rd: bv8, f3: bv8, rs1: bv8, imm: bv16)
    requires op < 0x80 && rd < 32 && f3 < 8 && rs1 < 32
    requires Sext12(Sext16(imm)) == Sext16(imm)
    ensures DecodeI(EncI(op, rd, f3, rs1, Sext16(imm))) == I(op, rd, f3, rs1, imm)
  {
    var w := EncI(op, rd, f3, rs1, Sext16(imm));
    EncIFields(op, rd, f3, rs1, Sext16(imm));
    Sext12Low(Sext16(imm));
    Sext16Injective(ImmI(w), imm);
  }

  lemma DecodeSOf(op: bv8, f3: bv8, rs1: bv8, rs2: bv8, imm: bv16)
    requires op < 0x80 && f3 < 8 && rs1 < 32 && rs2 < 32
    requires Sext12(Sext16(imm)) == Sext16(imm)
    ensures DecodeS(EncS(op, f3, rs1, rs2, Sext16(imm))) == S(op, f3, rs1, rs2, imm)
  {
    var w := EncS(op, f3, rs1, rs2, Sext16(imm));
    EncSFields(op, f3, rs1, rs2, Sext16(imm));
    Recover12(ImmS(w), imm, ((w >> 25) << 5) | ((w >> 7) & 0x1F));
  }

  /** An S-type immediate is recovered from its 12-bit field. */
  lemma Recover12(r: bv16, imm: bv16, field: bv32)
    ensures (Sext16(r) == Sext12(field) && field == Sext16(imm) & 0xFFF
             && Sext12(Sext16(imm)) == Sext16(imm)) ==> r == imm
  {
    Sext12Low(Sext16(imm));
    Sext16Injective(r, imm);
  }

  lemma DecodeBOf(op: bv8, f3: bv8, rs1: bv8, rs2: bv8, imm: bv16)
    requires op < 0x80 && f3 < 8 && rs1 < 32 && rs2 < 32
    requires Sext13(Sext16(imm)) == Sext16(imm) && imm & 1 == 0
    ensures DecodeB(EncB(op, f3, rs1, rs2, Sext16(imm))) == B(op, f3, rs1, rs2, imm)
  {
    var w := EncB(op, f3, rs1, rs2, Sext16(imm));
    EncBFields(op, f3, rs1, rs2, Sext16(imm));
    Recover13(ImmB(w), imm, ((w >> 31) << 12) | (((w >> 7) & 1) << 11) | (((w >> 25) & 0x3F) << 5)
                            | (((w >> 8) & 0xF) << 1));
  }

  /** A B-type offset is recovered from its 13-bit field, whose bit 0 is not encoded. */
  lemma Recover13(r: bv16, imm: bv16, field: bv32)
    ensures (Sext16(r) == Sext13(field) && field == Sext16(imm) & 0x1FFE
             && Sext13(Sext16(imm)) == Sext16(imm) && imm & 1 == 0) ==> r == imm
  {
    Sext13Even(Sext16(imm));
    Sext16Even(imm);
    Sext16Injective(r, imm);
  }

  lemma DecodeUOf(op: bv8, rd: bv8, imm: bv32)
    requires op < 0x80 && rd < 32
    requires Sext20(imm) == imm
    ensures DecodeU(EncU(op, rd, imm)) == U(op, rd, imm)
  {
    EncUFields(op, rd, imm);
    Sext20Low(imm);
  }

  lemma DecodeJOf(op: bv8, rd: bv8, imm: bv32)
    requires op < 0x80 && rd < 32
    requires Sext21(imm) == imm && imm & 1 == 0
    ensures DecodeJ(EncJ(op, rd, imm)) == J(op, rd, imm)
  {
    EncJFields(op, rd, imm);
    Sext21Even(imm);
  }

  // Sign extension looks only at the bits below the sign bit and the sign bit.

  lemma Sext12Low(x: bv32)
    ensures Sext12(x & 0xFFF) == Sext12(x)
  {
  }

  lemma Sext13Even(x: bv32)
    ensures Sext13(x) == x && x & 1 == 0 ==> Sext13(x & 0x1FFE) == x
  {
  }

  lemma Sext20Low(x: bv32)
    ensures Sext20(x & 0xF_FFFF) == Sext20(x)
  {
  }

  lemma Sext21Even(x: bv32)
    requires Sext21(x) == x && x & 1 == 0
    ensures Sext21(x & 0x1F_FFFE) == x
  {
  }

  lemma Sext16Even(x: bv16)
    ensures x & 1 == 0 ==> Sext16(x) & 1 == 0
  {
  }

  /** Sext16 is injective. */
  lemma Sext16Injective(a: bv16, b: bv16)
    ensures Sext16(a) == Sext16(b) ==> a == b
  {
  }

  // ---------------------------------------------------------------------------
  // Instruction::decode

  /** A compressed instruction with an RV32IC expansion decodes to the same
      descriptor as its expansion. */
  lemma DecodeCompressed(h: bv16)
    requires h & 3 != 3 && Expand16(h).Some?
    ensures Decode(CRV32(h)).Ok? <==> Decode(IRV32(Expand16(h).value)).Ok?
    ensures Decode(CRV32(h)).Ok? ==>
              Decode(CRV32(h)).value.1 == Decode(IRV32(Expand16(h).value)).value.1
  {
    Decode16Expand16(h);
  }

  // The unit tests of ins.rs, as facts about the model.

  lemma DecodeSw()
    ensures Decode(IRV32(0x0181a023)) == Ok((IRV32(0x0181a023), S(OP_STORE, 2, 3, 24, 0)))
  {
  }

  lemma DecodeAdd()
    ensures Decode(IRV32(0x015a8ab3)) == Ok((IRV32(0x015a8ab3), R(OP_REG, 21, 0, 21, 21, 0)))
  {
  }

  lemma DecodeAddiNegative()
    ensures Decode(IRV32(0xffe00b13)) == Ok((IRV32(0xffe00b13), I(OP_IMM, 22, 0, 0, 0xFFFE)))
    ensures I16(0xFFFE) == -2
  {
  }

  lemma DecodeLw()
    ensures Decode(IRV32(0x17812483)) == Ok((IRV32(0x17812483), I(OP_LOAD, 9, 2, 2, 376)))
  {
  }

  lemma DecodeJal()
    ensures Decode(IRV32(0x0200006f)) == Ok((IRV32(0x0200006f), J(OP_JAL, 0, 32)))
  {
  }

  lemma DecodeSwNegative()
    ensures Decode(IRV32(0xd41f2023)) == Ok((IRV32(0xd41f2023), S(OP_STORE, 2, 30, 1, 0xFD40)))
    ensures I16(0xFD40) == -704
  {
  }

  lemma DecodeAddi()
    ensures Decode(IRV32(0x00258593)) == Ok((IRV32(0x00258593), I(OP_IMM, 11, 0, 11, 2)))
  {
  }

  lemma DecodeCAddi4spn()
    ensures Decode(CRV32(0x0878)) == Ok((CRV32(0x0878), I(OP_IMM, 14, 0, 2, 28)))
  {
  }

  lemma DecodeCLi()
    ensures Decode(CRV32(0x5501)) == Ok((CRV32(0x5501), I(OP_IMM, 10, 0, 0, 0xFFE0)))
    ensures I16(0xFFE0) == -32
  {
  }

  lemma DecodeCLw()
    ensures Decode(CRV32(0x5a10)) == Ok((CRV32(0x5a10), I(OP_LOAD, 12, 2, 12, 48)))
    ensures Decode(CRV32(0x40d8)) == Ok((CRV32(0x40d8), I(OP_LOAD, 14, 2, 9, 4)))
    ensures Decode(CRV32(0x41a0)) == Ok((CRV32(0x41a0), I(OP_LOAD, 8, 2, 11, 64)))
  {
  }

  // ---------------------------------------------------------------------------
  // Ranges of the decoded immediates, as signed integers

  /** A B-type offset is even and lies in [-4096, 4094]. */
  lemma ImmBRange(w: bv32)
    ensures -4096 <= I16(ImmB(w)) <= 4094 && I16(ImmB(w)) % 2 == 0
  {
    ImmBBits(w);
    I16Range13(ImmB(w));
  }

  /** A J-type offset is even (its low bit is clear) and lies in [-2^20, 2^20 - 2]. */
  lemma ImmJRange(w: bv32)
    ensures -0x10_0000 <= I32(ImmJ(w)) <= 0xF_FFFE && ImmJ(w) & 1 == 0
  {
    ImmJBits(w);
    I32Range21(ImmJ(w));
  }

  /** c.lw and c.sw address x8..x15 with an offset that is a multiple of 4 in [0, 124]. */
  lemma CLwOperands(h: bv16)
    requires h & 3 == 0 && (h >> 13 == 2 || h >> 13 == 6)
    ensures Decode16(h).Ok?
    ensures var f := Decode16(h).value;
            (f.I? || f.S?) && 8 <= f.rs1 < 16 && (f.I? ==> 8 <= f.rd < 16) && (f.S? ==> 8 <= f.rs2 < 16)
    ensures 0 <= I16(Decode16(h).value.imm) <= 124 && I16(Decode16(h).value.imm) % 4 == 0
  {
    CLwImmBits(h);
    I16Range7(CLwImm(h));
  }

  lemma ImmBBits(w: bv32)
    ensures (ImmB(w) < 0x1000 || ImmB(w) >= 0xF000) && ImmB(w) & 1 == 0
  {
    ImmBEven(w);
  }

  lemma ImmJBits(w: bv32)
    ensures (ImmJ(w) < 0x10_0000 || ImmJ(w) >= 0xFFF0_0000) && ImmJ(w) & 1 == 0
  {
    ImmJEven(w);
  }

  lemma CLwImmBits(h: bv16)
    ensures CLwImm(h) <= 124 && CLwImm(h) & 3 == 0
  {
  }

  lemma I16Range13(x: bv16)
    requires (x < 0x1000 || x >= 0xF000) && x & 1 == 0
    ensures -4096 <= I16(x) <= 4094 && I16(x) % 2 == 0
  {
    Even16(x);
    var h := (x >> 1) as int;
    if x < 0x1000 {
      assert I16(x) == 2 * h && x as int <= 4094;
      Twice(h);
    } else {
      assert I16(x) == 2 * (h - 0x8000) && x >= 0xF000;
      Twice(h - 0x8000);
    }
  }

  lemma Twice(k: int)
    ensures (2 * k) % 2 == 0
  {
  }

  lemma I16Range7(x: bv16)
    requires x <= 124 && x & 3 == 0
    ensures 0 <= I16(x) <= 124 && I16(x) % 4 == 0
  {
    assert x as int == 4 * ((x >> 2) as int);
  }

  lemma I32Range21(x: bv32)
    requires (x < 0x10_0000 || x >= 0xFFF0_0000) && x & 1 == 0
    ensures -0x10_0000 <= I32(x) <= 0xF_FFFE
  {
  }

  lemma Even16(x: bv16)
    requires x & 1 == 0
    ensures (x as int) % 2 == 0 && x as int == 2 * ((x >> 1) as int)
  {
    assert x == (x >> 1) << 1;
    assert x as int == 2 * ((x >> 1) as int);
  }
}
