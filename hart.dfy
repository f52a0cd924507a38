/**
 * The hart of src/hart.rs: 32 registers, a pc and a RAM, stepped by `tick`
 * (fetch, decode, execute) through seven RV32I operations: ADD, ADDI, LB,
 * SB, BEQ, JAL and AUIPC. The hart's own decoder masks rs1 and rs2 to four
 * bits and builds the S, B, J and U immediates differently from the RISC-V
 * manual (section 2.3 of the Unprivileged ISA); both are modelled as
 * written, beside the corrected decoder of src/ins.rs. Arithmetic wraps, as
 * a release build does. A panic (`set_register(0)`, an unknown opcode, an
 * operation the hart does not implement, an access past the end of the RAM)
 * is excluded by a precondition.
 *
 * The execution state is also given as a value, `State`, with the step
 * `Step` on it; the class's methods are proved against these functions.
 */
module Hart {
  import opened Words
  import opened Ins
  import opened RamStore

  datatype State = State(regs: seq<bv32>, pc: bv32, mem: seq<bv8>)

  // ---------------------------------------------------------------------------
  // decode_instruction

  /** The opcodes decode_instruction knows; any other one panics. */
  predicate HartOpcode(w: bv32)
  {
    var op := (w & 0x7F) as bv8;
    op == OP_REG || op == OP_IMM || op == OP_LOAD || op == OP_JALR || op == OP_SYSTEM
    || op == OP_STORE || op == OP_BRANCH || op == OP_JAL || op == OP_LUI || op == OP_AUIPC
  }

  /** The S- and B-type immediate as written: bits 11:7 are added to bits
      31:20 (not 31:25), then sign-extended from bit 11. */
  function ImmSB(w: bv32): bv16
  {
    var imm7 := (w >> 7) & 0x1F;
    var imm25 := w & 0xfff0_0000;
    (Asr20(imm25 + (imm7 << 20)) & 0xFFFF) as bv16
  }

  /** The J- and U-type immediate as written: bits 30:12 of the word, from
      `(w & 0x7ffff800) as i32 >> 12`; bit 31 is masked off. */
  function ImmUpper(w: bv32): bv32
  {
    Asr12(w & 0x7fff_f800)
  }

  /** `(imm as u32) << 12`: a U-type immediate moved into bits 31:12. */
  function Shl12(imm: bv32): bv32
  {
    imm << 12
  }

  /** decode_instruction: the descriptor of a word with a known opcode. */
  function DecodeInstruction(w: bv32): (r: InstructionFormat)
    requires HartOpcode(w)
    ensures r.opcode == (w & 0x7F) as bv8
  {
    var opcode := (w & 0x7F) as bv8;
    if opcode == OP_REG then
      R(opcode, ((w >> 7) & 0x1F) as bv8, ((w >> 12) & 7) as bv8,
        ((w >> 15) & 0xF) as bv8, ((w >> 20) & 0xF) as bv8, (w >> 25) as bv8)
    else if opcode == OP_IMM || opcode == OP_LOAD || opcode == OP_JALR || opcode == OP_SYSTEM then
      DecodeI(w)
    else if opcode == OP_STORE then
      S(opcode, ((w >> 12) & 7) as bv8, ((w >> 15) & 0xF) as bv8, ((w >> 20) & 0xF) as bv8, ImmSB(w))
    else if opcode == OP_BRANCH then
      B(opcode, ((w >> 12) & 7) as bv8, ((w >> 15) & 0xF) as bv8, ((w >> 20) & 0xF) as bv8, ImmSB(w))
    else if opcode == OP_JAL then
      J(opcode, ((w & 0x0F80) >> 7) as bv8, ImmUpper(w))
    else
      U(opcode, ((w >> 7) & 0x1F) as bv8, ImmUpper(w))
  }

  /** The decoder with the register fields and immediates of the RISC-V
      manual: the 32-bit decoder of src/ins.rs. */
  function DecodeFixed(w: bv32): (r: InstructionFormat)
    requires HartOpcode(w)
    ensures r.opcode == (w & 0x7F) as bv8
  {
    Decode32(w).value
  }

  /** Register fields are read with four bits in R, S and B words, so x16..x31
      name x0..x15; ins.rs reads five. I-type words decode as in ins.rs. */
  lemma DecodeRegisterFields(w: bv32)
    requires HartOpcode(w)
    ensures DecodeInstruction(w).R? || DecodeInstruction(w).S? || DecodeInstruction(w).B? ==>
      DecodeInstruction(w).rs1 == DecodeFixed(w).rs1 & 0xF && DecodeInstruction(w).rs2 == DecodeFixed(w).rs2 & 0xF
    ensures DecodeInstruction(w).I? ==> DecodeInstruction(w) == DecodeFixed(w)
    ensures DecodeInstruction(w).R? ==> DecodeInstruction(w).rd == DecodeFixed(w).rd && DecodeInstruction(w).funct7 == DecodeFixed(w).funct7
  {
  }

  /** As written, the S/B immediate is the manual's S immediate plus the rs2
      field, modulo 2^12. */
  lemma ImmSBLeaksRs2(w: bv32)
    ensures ImmSB(w) & 0xFFF == (ImmS(w) + ((w >> 20) & 0x1F) as bv16) & 0xFFF
    ensures (w >> 20) & 0x1F == 0 ==> ImmSB(w) == ImmS(w)
  {
  }

  /** As written, the J/U immediate shifted into place is bits 30:12 of the
      word: bit 31 is lost, where the manual keeps bits 31:12. */
  lemma ImmUpperDropsBit31(w: bv32)
    ensures ImmUpper(w) << 12 == w & 0x7FFF_F000
    ensures ImmUpper(w) < 0x8_0000
  {
  }

  /** The immediates of four words as written, against the manual's: sb
      x2,0(x1) gets offset 2, beq x0,x0,-4 gets -3, jal x1,8 gets 2048, and
      auipc x1,0x80000 adds 0. */
  lemma ImmediatesAsWritten()
    ensures DecodeInstruction(0x0020_8023) == S(OP_STORE, 0, 1, 2, 2)
    ensures DecodeInstruction(0xFE00_0EE3).imm == 0xFFFD
    ensures DecodeInstruction(0x0080_00EF) == J(OP_JAL, 1, 0x800)
    ensures DecodeInstruction(0x8000_0097) == U(OP_AUIPC, 1, 0)
  {
  }

  /** The same four words decoded as the manual lays them out. */
  lemma ImmediatesFixed()
    ensures DecodeFixed(0x0020_8023) == S(OP_STORE, 0, 1, 2, 0)
    ensures DecodeFixed(0xFE00_0EE3).imm == 0xFFFC
    ensures DecodeFixed(0x0080_00EF) == J(OP_JAL, 1, 8)
    ensures DecodeFixed(0x8000_0097).imm32 << 12 == 0x8000_0000
  {
    UpperBits(0x8000_0097);
  }

  /** add x1, x16, x17 reads x0 and x1 as written. */
  lemma AddHighRegisters()
    ensures DecodeInstruction(0x0118_00B3) == R(OP_REG, 1, 0, 0, 1, 0)
    ensures DecodeFixed(0x0118_00B3) == R(OP_REG, 1, 0, 16, 17, 0)
  {
  }

  // ---------------------------------------------------------------------------
  // execute_instruction

  /** The byte address rs1 + imm of a load or store, wrapping. */
  function Address(base: bv32, imm: bv16): nat
  {
    WrappingAdd(base, Sext16(imm)) as nat
  }

  /** The descriptors execute_instruction handles without panicking: one of
      the seven operations, with rd != 0 where it writes a register and the
      byte address inside memory. Every other descriptor reaches `todo!()`. */
  predicate Executable(s: State, f: InstructionFormat)
  {
    |s.regs| == 32 &&
    match f
    case R(op, rd, f3, rs1, rs2, f7) =>
      op == OP_REG && f3 == 0 && f7 == 0 && 0 < rd < 32 && rs1 < 32 && rs2 < 32
    case I(op, rd, f3, rs1, imm) =>
      (op == OP_IMM || op == OP_LOAD) && f3 == 0 && 0 < rd < 32 && rs1 < 32
      && (op == OP_LOAD ==> Address(s.regs[rs1], imm) < |s.mem|)
    case S(op, f3, rs1, rs2, imm) =>
      op == OP_STORE && f3 == 0 && rs1 < 32 && rs2 & 0xF < 32 && Address(s.regs[rs1], imm) < |s.mem|
    case B(op, f3, rs1, rs2, _) =>
      op == OP_BRANCH && f3 == 0 && rs1 < 32 && rs2 < 32
    case J(op, rd, _) => op == OP_JAL && 0 < rd < 32
    case U(op, rd, _) => op == OP_AUIPC && 0 < rd < 32
  }

  /** execute_instruction on a state whose pc has already been advanced past
      the instruction. `origin` is the pc that BEQ, JAL and AUIPC are relative
      to: the advanced pc as written. */
  function Execute(s: State, f: InstructionFormat, origin: bv32): (t: State)
    requires Executable(s, f)
    ensures |t.regs| == 32 && |t.mem| == |s.mem|
  {
    match f
    case R(_, rd, _, rs1, rs2, _) =>
      s.(regs := s.regs[rd := WrappingAdd(s.regs[rs1], s.regs[rs2])])
    case I(op, rd, _, rs1, imm) =>
      if op == OP_IMM then s.(regs := s.regs[rd := WrappingAdd(s.regs[rs1], Sext16(imm))])
      else s.(regs := s.regs[rd := s.mem[Address(s.regs[rs1], imm)] as bv32])
    case S(_, _, rs1, rs2, imm) =>
      s.(mem := s.mem[Address(s.regs[rs1], imm) := (s.regs[rs2 & 0xF] & 0xFF) as bv8])
    case B(_, _, rs1, rs2, imm) =>
      if s.regs[rs1] == s.regs[rs2] then s.(pc := WrappingAdd(origin, Sext16(imm))) else s
    case J(_, rd, imm) =>
      s.(regs := s.regs[rd := WrappingAdd(origin, 4)], pc := WrappingAdd(origin, imm))
    case U(_, rd, imm) =>
      s.(regs := s.regs[rd := WrappingAdd(origin, Shl12(imm))])
  }

  /** ADD writes rs1 + rs2 and ADDI rs1 + imm, both wrapping, with the
      immediate sign-extended from 16 bits (`imm as u32`); no other register,
      no byte and not the pc changes. */
  lemma ExecuteArith(s: State, f: InstructionFormat, origin: bv32)
    requires Executable(s, f) && (f.R? || (f.I? && f.opcode == OP_IMM))
    ensures f.R? ==> Execute(s, f, origin).regs[f.rd] == WrappingAdd(s.regs[f.rs1], s.regs[f.rs2])
    ensures f.I? ==> Execute(s, f, origin).regs[f.rd] == WrappingAdd(s.regs[f.rs1], Sext16(f.imm))
    ensures forall i :: 0 <= i < 32 && i != f.rd as int ==> Execute(s, f, origin).regs[i] == s.regs[i]
    ensures Execute(s, f, origin).pc == s.pc && Execute(s, f, origin).mem == s.mem
  {
  }

  /** LB loads the byte at rs1 + imm zero-extended; SB stores the low byte of
      rs2 there and changes no other byte, no register and not the pc. */
  lemma ExecuteMemory(s: State, f: InstructionFormat, origin: bv32)
    requires Executable(s, f) && (f.S? || (f.I? && f.opcode == OP_LOAD))
    ensures f.I? ==> Execute(s, f, origin).regs[f.rd] >> 8 == 0
    ensures f.I? ==> Execute(s, f, origin).regs[f.rd] as bv8 == s.mem[Address(s.regs[f.rs1], f.imm)]
    ensures f.S? ==> Execute(s, f, origin).mem[Address(s.regs[f.rs1], f.imm)] as bv32 == s.regs[f.rs2 & 0xF] & 0xFF
    ensures f.S? ==> Execute(s, f, origin).regs == s.regs
    ensures forall i :: 0 <= i < |s.mem| && (f.I? || i != Address(s.regs[f.rs1], f.imm)) ==>
      Execute(s, f, origin).mem[i] == s.mem[i]
    ensures Execute(s, f, origin).pc == s.pc
  {
  }

  /** BEQ changes only the pc, and only when the two registers are equal. */
  lemma ExecuteBranch(s: State, f: InstructionFormat, origin: bv32)
    requires Executable(s, f) && f.B?
    ensures Execute(s, f, origin).regs == s.regs && Execute(s, f, origin).mem == s.mem
    ensures s.regs[f.rs1] != s.regs[f.rs2] ==> Execute(s, f, origin).pc == s.pc
    ensures s.regs[f.rs1] == s.regs[f.rs2] ==> Execute(s, f, origin).pc == WrappingAdd(origin, Sext16(f.imm))
  {
  }

  /** JAL links origin + 4 into rd and jumps to origin + imm; AUIPC writes
      origin + (imm << 12) to rd. No other register and no byte changes. */
  lemma ExecuteUpper(s: State, f: InstructionFormat, origin: bv32)
    requires Executable(s, f) && (f.J? || f.U?)
    ensures f.J? ==> Execute(s, f, origin).regs[f.rd] == WrappingAdd(origin, 4)
    ensures f.J? ==> Execute(s, f, origin).pc == WrappingAdd(origin, f.imm32)
    ensures f.U? ==> Execute(s, f, origin).regs[f.rd] == WrappingAdd(origin, Shl12(f.imm32))
    ensures f.U? ==> Execute(s, f, origin).pc == s.pc
    ensures forall i :: 0 <= i < 32 && i != f.rd as int ==> Execute(s, f, origin).regs[i] == s.regs[i]
    ensures Execute(s, f, origin).mem == s.mem
  {
  }

  // ---------------------------------------------------------------------------
  // tick

  /** The little-endian word at addr. */
  function WordAt(mem: seq<bv8>, addr: nat): bv32
    requires addr + 3 < |mem|
  {
    LeWord(mem[addr], mem[addr + 1], mem[addr + 2], mem[addr + 3])
  }

  /** The state after fetch_instruction: pc advanced by 4. */
  function Fetched(s: State): (t: State)
    ensures t.regs == s.regs && t.mem == s.mem
    ensures t.pc - s.pc == 4
  {
    s.(pc := WrappingAdd(s.pc, 4))
  }

  /** A tick that does not panic: the word at pc is in memory, has a known
      opcode, and its descriptor is executable. */
  predicate CanStep(s: State)
  {
    |s.regs| == 32 && s.pc as int + 3 < |s.mem|
    && HartOpcode(WordAt(s.mem, s.pc as nat))
    && Executable(Fetched(s), DecodeInstruction(WordAt(s.mem, s.pc as nat)))
  }

  /** tick as written: pc-relative operations start from the advanced pc. */
  function Step(s: State): State
    requires CanStep(s)
  {
    Execute(Fetched(s), DecodeInstruction(WordAt(s.mem, s.pc as nat)), Fetched(s).pc)
  }

  predicate CanStepFixed(s: State)
  {
    |s.regs| == 32 && s.pc as int + 3 < |s.mem|
    && HartOpcode(WordAt(s.mem, s.pc as nat))
    && Executable(Fetched(s), DecodeFixed(WordAt(s.mem, s.pc as nat)))
  }

  /** tick with the manual's decoder and with pc-relative operations
      starting from the instruction's own address; the execution of each
      instruction (SB, LB and the rest) is otherwise as written. */
  function StepFixed(s: State): State
    requires CanStepFixed(s)
  {
    Execute(Fetched(s), DecodeFixed(WordAt(s.mem, s.pc as nat)), s.pc)
  }

  /** x0 can never be written, since set_register(0) panics: a step leaves
      it as it was. */
  lemma StepKeepsZero(s: State)
    requires CanStep(s)
    ensures Step(s).regs[0] == s.regs[0]
  {
  }

  /** A word jal x1, 8 at pc can be stepped both as written and corrected. */
  lemma JalSteps(s: State)
    requires |s.regs| == 32 && s.pc as int + 3 < |s.mem| && WordAt(s.mem, s.pc as nat) == 0x0080_00EF
    ensures CanStep(s) && CanStepFixed(s)
  {
    assert DecodeInstruction(0x0080_00EF) == J(OP_JAL, 1, 0x800);
    assert DecodeFixed(0x0080_00EF) == J(OP_JAL, 1, 8);
  }

  lemma JalLinkAsWritten(s: State)
    requires CanStep(s) && WordAt(s.mem, s.pc as nat) == 0x0080_00EF
    ensures Step(s).regs[1] == s.pc + 8
  {
    assert DecodeInstruction(0x0080_00EF) == J(OP_JAL, 1, 0x800);
  }

  lemma JalTargetAsWritten(s: State)
    requires CanStep(s) && WordAt(s.mem, s.pc as nat) == 0x0080_00EF
    ensures Step(s).pc == s.pc + 2052
  {
    assert DecodeInstruction(0x0080_00EF) == J(OP_JAL, 1, 0x800);
  }

  lemma JalLinkFixed(s: State)
    requires CanStepFixed(s) && WordAt(s.mem, s.pc as nat) == 0x0080_00EF
    ensures StepFixed(s).regs[1] == s.pc + 4
  {
    assert DecodeFixed(0x0080_00EF) == J(OP_JAL, 1, 8);
  }

  lemma JalTargetFixed(s: State)
    requires CanStepFixed(s) && WordAt(s.mem, s.pc as nat) == 0x0080_00EF
    ensures StepFixed(s).pc == s.pc + 8
  {
    assert DecodeFixed(0x0080_00EF) == J(OP_JAL, 1, 8);
  }

  /** jal x1, 8 at pc p, as written, links p + 8 and jumps to p + 2052: the
      J-type word is read with the U layout, and the advanced pc is the base. */
  lemma JalAsWritten(s: State)
    requires |s.regs| == 32 && s.pc as int + 3 < |s.mem| && WordAt(s.mem, s.pc as nat) == 0x0080_00EF
    ensures CanStep(s)
    ensures Step(s).regs[1] == s.pc + 8
    ensures Step(s).pc == s.pc + 2052
  {
    JalSteps(s);
    JalLinkAsWritten(s);
    JalTargetAsWritten(s);
  }

  /** The same jal, corrected, links p + 4 and jumps to p + 8. */
  lemma JalFixed(s: State)
    requires |s.regs| == 32 && s.pc as int + 3 < |s.mem| && WordAt(s.mem, s.pc as nat) == 0x0080_00EF
    ensures CanStepFixed(s)
    ensures StepFixed(s).regs[1] == s.pc + 4
    ensures StepFixed(s).pc == s.pc + 8
  {
    JalSteps(s);
    JalLinkFixed(s);
    JalTargetFixed(s);
  }

  /** Stepping an AUIPC word adds its decoded immediate, moved into bits
      31:12, to the origin. */
  lemma AuipcStep(s: State)
    requires CanStep(s) && DecodeInstruction(WordAt(s.mem, s.pc as nat)).U?
    ensures var w := WordAt(s.mem, s.pc as nat);
      Step(s).regs[(w >> 7) & 0x1F] == WrappingAdd(WrappingAdd(s.pc, 4), Shl12(ImmUpper(w)))
  {
  }

  lemma AuipcStepFixed(s: State)
    requires CanStepFixed(s) && DecodeFixed(WordAt(s.mem, s.pc as nat)).U?
    ensures var w := WordAt(s.mem, s.pc as nat);
      StepFixed(s).regs[(w >> 7) & 0x1F] == WrappingAdd(s.pc, Shl12(DecodeFixed(w).imm32))
  {
  }

  /** A word at pc that executes as AUIPC, as written: rd receives pc + 4 +
      bits 30:12 of the word. */
  lemma AuipcAsWritten(s: State)
    requires CanStep(s) && DecodeInstruction(WordAt(s.mem, s.pc as nat)).U?
    ensures var w := WordAt(s.mem, s.pc as nat);
      Step(s).regs[(w >> 7) & 0x1F] == WrappingAdd(WrappingAdd(s.pc, 4), w & 0x7FFF_F000)
  {
    AuipcStep(s);
    ImmUpperDropsBit31(WordAt(s.mem, s.pc as nat));
  }

  /** The same word corrected: rd receives pc + bits 31:12. */
  lemma AuipcFixed(s: State)
    requires CanStepFixed(s) && DecodeFixed(WordAt(s.mem, s.pc as nat)).U?
    ensures var w := WordAt(s.mem, s.pc as nat);
      StepFixed(s).regs[(w >> 7) & 0x1F] == WrappingAdd(s.pc, w & 0xFFFF_F000)
  {
    AuipcStepFixed(s);
    UpperBits(WordAt(s.mem, s.pc as nat));
  }

  // ---------------------------------------------------------------------------
  // The Hart object

  class Hart {
    var memory: Ram
    var registers: array<bv32>
    var pc: bv32

    /** 32 registers, the RAM of Ram::new, and x0 = 0: set_register never
        writes x0. */
    ghost predicate Valid()
      reads this, registers, memory
    {
      registers.Length == 32 && memory.ram.Length == DRAM_SIZE && registers[0] == 0
    }

    /** The hart's state as a value. */
    function Snapshot(): State
      reads this, registers, memory, memory.ram
    {
      State(registers[..], pc, memory.ram[..])
    }

    /** Hart::new: the given RAM, every register 0 and pc 0. */
    constructor (ram: Ram)
      requires ram.ram.Length == DRAM_SIZE
      ensures Valid() && fresh(registers)
      ensures memory == ram && registers[..] == seq(32, _ => 0) && pc == 0
    {
      memory := ram;
      registers := new bv32[32](_ => 0);
      pc := 0;
    }

    /** set_register: registers 1..31 are written; 0 and anything above 31 panic. */
    method SetRegister(reg: bv8, val: bv32)
      requires Valid() && 1 <= reg <= 31
      modifies registers
      ensures Valid()
      ensures registers[..] == old(registers[..])[reg := val]
    {
      registers[reg] := val;
    }

    /** get_register: registers 0..31 are read, x0 always as 0; above 31 panics. */
    function GetRegister(reg: bv8): (v: bv32)
      requires Valid() && reg <= 31
      reads this, registers, memory
      ensures v == registers[reg]
      ensures reg == 0 ==> v == 0
    {
      registers[reg]
    }

    /** fetch_instruction: the little-endian word at pc; pc advances by 4. */
    method FetchInstruction() returns (ins: bv32)
      requires Valid() && pc as int + 3 < DRAM_SIZE
      modifies this
      ensures Valid() && memory == old(memory) && registers == old(registers)
      ensures ins == WordAt(memory.ram[..], old(pc) as nat)
      ensures pc == WrappingAdd(old(pc), 4)
    {
      ins := memory.ReadWord(pc as nat);
      pc := WrappingAdd(pc, 4);
    }

    /** read_byte, on the byte store of the RAM; past its end it panics. */
    function ReadByte(addr: nat): (b: bv8)
      requires Valid() && addr < DRAM_SIZE
      reads this, registers, memory, memory.ram
      ensures b == Snapshot().mem[addr]
    {
      memory.ram[addr]
    }

    /** write_byte: byte addr becomes val, no other byte changes. */
    method WriteByte(addr: nat, val: bv8)
      requires Valid() && addr < DRAM_SIZE
      modifies memory.ram
      ensures Valid()
      ensures memory.ram[..] == old(memory.ram[..])[addr := val]
    {
      memory.ram[addr] := val;
    }

    /** execute_instruction, with pc-relative operations from the current pc:
        one method per arm of the source's match. */
    method ExecuteInstruction(f: InstructionFormat)
      requires Valid() && Executable(Snapshot(), f)
      modifies this, registers, memory.ram
      ensures Valid() && memory == old(memory) && registers == old(registers)
      ensures Snapshot() == Execute(old(Snapshot()), f, old(pc))
    {
      match f {
        case R(_, _, _, _, _, _) => Add(f);
        case I(op, _, _, _, _) =>
          if op == OP_IMM {
            Addi(f);
          } else {
            Lb(f);
          }
        case S(_, _, _, _, _) => Sb(f);
        case B(_, _, _, _, _) => Beq(f);
        case J(_, _, _) => Jal(f);
        case U(_, _, _) => Auipc(f);
      }
    }

    /** ADD: rd := rs1 + rs2, wrapping. */
    method Add(f: InstructionFormat)
      requires Valid() && Executable(Snapshot(), f) && f.R?
      modifies registers
      ensures Valid() && Snapshot() == Execute(old(Snapshot()), f, old(pc))
    {
      var val := WrappingAdd(GetRegister(f.rs1), GetRegister(f.rs2));
      SetRegister(f.rd, val);
    }

    /** ADDI: rd := rs1 + imm, wrapping, with the immediate sign-extended. */
    method Addi(f: InstructionFormat)
      requires Valid() && Executable(Snapshot(), f) && f.I? && f.opcode == OP_IMM
      modifies registers
      ensures Valid() && Snapshot() == Execute(old(Snapshot()), f, old(pc))
    {
      var val := WrappingAdd(GetRegister(f.rs1), Sext16(f.imm));
      SetRegister(f.rd, val);
    }

    /** LB: rd := the byte at rs1 + imm, zero-extended. */
    method Lb(f: InstructionFormat)
      requires Valid() && Executable(Snapshot(), f) && f.I? && f.opcode == OP_LOAD
      modifies registers
      ensures Valid() && Snapshot() == Execute(old(Snapshot()), f, old(pc))
    {
      var addr := Address(GetRegister(f.rs1), f.imm);
      var val := ReadByte(addr);
      SetRegister(f.rd, val as bv32);
    }

    /** SB: the byte at rs1 + imm := the low byte of rs2 & 0xF. */
    method Sb(f: InstructionFormat)
      requires Valid() && Executable(Snapshot(), f) && f.S?
      modifies memory.ram
      ensures Valid() && Snapshot() == Execute(old(Snapshot()), f, old(pc))
    {
      var addr := Address(GetRegister(f.rs1), f.imm);
      var val := (GetRegister(f.rs2 & 0xF) & 0xFF) as bv8;
      WriteByte(addr, val);
    }

    /** BEQ: pc := pc + imm when rs1 == rs2. */
    method Beq(f: InstructionFormat)
      requires Valid() && Executable(Snapshot(), f) && f.B?
      modifies this
      ensures Valid() && memory == old(memory) && registers == old(registers)
      ensures Snapshot() == Execute(old(Snapshot()), f, old(pc))
    {
      if GetRegister(f.rs1) == GetRegister(f.rs2) {
        pc := WrappingAdd(pc, Sext16(f.imm));
      }
    }

    /** JAL: rd := pc + 4, then pc := pc + imm. */
    method Jal(f: InstructionFormat)
      requires Valid() && Executable(Snapshot(), f) && f.J?
      modifies this, registers
      ensures Valid() && memory == old(memory) && registers == old(registers)
      ensures Snapshot() == Execute(old(Snapshot()), f, old(pc))
    {
      SetRegister(f.rd, WrappingAdd(pc, 4));
      pc := WrappingAdd(pc, f.imm32);
    }

    /** AUIPC: rd := pc + (imm << 12). */
    method Auipc(f: InstructionFormat)
      requires Valid() && Executable(Snapshot(), f) && f.U?
      modifies registers
      ensures Valid() && Snapshot() == Execute(old(Snapshot()), f, old(pc))
    {
      SetRegister(f.rd, WrappingAdd(pc, Shl12(f.imm32)));
    }

    /** tick: fetch, decode, execute. */
    method Tick()
      requires Valid() && CanStep(Snapshot())
      modifies this, registers, memory.ram
      ensures Valid() && memory == old(memory) && registers == old(registers)
      ensures Snapshot() == Step(old(Snapshot()))
    {
      var ins := FetchInstruction();
      var f := DecodeInstruction(ins);
      ExecuteInstruction(f);
    }
  }

  // ---------------------------------------------------------------------------
  // The unit tests of src/hart.rs

  /** The program of `it_works`, little-endian. */
  const PROGRAM: seq<bv8> := [
    0x93, 0x00, 0x80, 0x3e,   // li   ra, 1000
    0x13, 0x81, 0x00, 0x7d,   // addi sp, ra, 2000
    0x93, 0x01, 0x81, 0xc1,   // addi gp, sp, -1000
    0x13, 0x82, 0x01, 0x83,   // addi tp, gp, -2000
    0x93, 0x02, 0x82, 0x3e,   // addi t0, tp, 1000
    0x13, 0x03, 0x00, 0x04,   // li   t1, 64
    0x13, 0x03, 0x43, 0x00    // addi t1, t1, 4
  ]

  /** One tick on an ADDI word whose descriptor is known. */
  lemma AddiAt(s: State, rd: bv8, rs1: bv8, imm: bv16)
    requires |s.regs| == 32 && s.pc as int + 3 < |s.mem| && HartOpcode(WordAt(s.mem, s.pc as nat))
    requires DecodeInstruction(WordAt(s.mem, s.pc as nat)) == I(OP_IMM, rd, 0, rs1, imm)
    requires 0 < rd < 32 && rs1 < 32
    ensures CanStep(s)
      && Step(s) == State(s.regs[rd := WrappingAdd(s.regs[rs1], Sext16(imm))], WrappingAdd(s.pc, 4), s.mem)
  {
  }

  /** The register each instruction of `it_works` writes, and the value. */
  const IT_WORKS_RD: seq<bv8> := [1, 2, 3, 4, 5, 6, 6]
  const IT_WORKS_VALUE: seq<bv32> := [1000, 3000, 2000, 0, 1000, 64, 68]
  /** The pc before each tick, and after the last. */
  const IT_WORKS_PC: seq<bv32> := [0, 4, 8, 12, 16, 20, 24, 28]

  /** The register file of `it_works` after k ticks. */
  function ItWorksRegs(k: nat): (r: seq<bv32>)
    requires k <= 7
    ensures |r| == 32
  {
    if k == 0 then seq(32, _ => 0)
    else ItWorksRegs(k - 1)[IT_WORKS_RD[k - 1] := IT_WORKS_VALUE[k - 1]]
  }

  /** The state of `it_works` after k ticks: the program loaded, pc at
      instruction k, and the registers that k ticks have written. */
  predicate ItWorksAfter(s: State, k: nat)
  {
    k <= 7 && |s.mem| == DRAM_SIZE && s.mem[..28] == PROGRAM
    && s.pc == IT_WORKS_PC[k] && s.regs == ItWorksRegs(k)
  }

  /** The word each tick of `it_works` fetches, and its rs1 and immediate. */
  const IT_WORKS_WORD: seq<bv32> :=
    [0x3e80_0093, 0x7d00_8113, 0xc181_0193, 0x8301_8213, 0x3e82_0293, 0x0400_0313, 0x0043_0313]
  const IT_WORKS_RS1: seq<bv8> := [0, 1, 2, 3, 4, 0, 6]
  const IT_WORKS_IMM: seq<bv16> := [0x3E8, 0x7D0, 0xFC18, 0xF830, 0x3E8, 0x40, 4]

  /** The word at byte p of memory holding the program is the word PROGRAM holds there. */
  lemma ItWorksWord(mem: seq<bv8>, p: nat)
    requires |mem| == DRAM_SIZE && mem[..28] == PROGRAM && p + 3 < 28
    ensures WordAt(mem, p) == LeWord(PROGRAM[p], PROGRAM[p + 1], PROGRAM[p + 2], PROGRAM[p + 3])
  {
    assert mem[p] == PROGRAM[p] && mem[p + 1] == PROGRAM[p + 1];
    assert mem[p + 2] == PROGRAM[p + 2] && mem[p + 3] == PROGRAM[p + 3];
  }

  lemma ItWorksWords(k: nat)
    requires k < 7
    ensures LeWord(PROGRAM[4 * k], PROGRAM[4 * k + 1], PROGRAM[4 * k + 2], PROGRAM[4 * k + 3]) == IT_WORKS_WORD[k]
  {
    if k == 0 {
      assert PROGRAM[0] == 0x93 && PROGRAM[1] == 0x00 && PROGRAM[2] == 0x80 && PROGRAM[3] == 0x3e;
    } else if k == 1 {
      assert PROGRAM[4] == 0x13 && PROGRAM[5] == 0x81 && PROGRAM[6] == 0x00 && PROGRAM[7] == 0x7d;
    } else if k == 2 {
      assert PROGRAM[8] == 0x93 && PROGRAM[9] == 0x01 && PROGRAM[10] == 0x81 && PROGRAM[11] == 0xc1;
    } else if k == 3 {
      assert PROGRAM[12] == 0x13 && PROGRAM[13] == 0x82 && PROGRAM[14] == 0x01 && PROGRAM[15] == 0x83;
    } else if k == 4 {
      assert PROGRAM[16] == 0x93 && PROGRAM[17] == 0x02 && PROGRAM[18] == 0x82 && PROGRAM[19] == 0x3e;
    } else if k == 5 {
      assert PROGRAM[20] == 0x13 && PROGRAM[21] == 0x03 && PROGRAM[22] == 0x00 && PROGRAM[23] == 0x04;
    } else {
      assert PROGRAM[24] == 0x13 && PROGRAM[25] == 0x03 && PROGRAM[26] == 0x43 && PROGRAM[27] == 0x00;
    }
  }

  /** Each word is an ADDI writing the register the test expects. */
  lemma ItWorksDecodes(k: nat)
    requires k < 7
    ensures HartOpcode(IT_WORKS_WORD[k])
      && DecodeInstruction(IT_WORKS_WORD[k]) == I(OP_IMM, IT_WORKS_RD[k], 0, IT_WORKS_RS1[k], IT_WORKS_IMM[k])
  {
  }

  lemma ItWorksFields(k: nat)
    requires k < 7
    ensures 0 < IT_WORKS_RD[k] < 32 && IT_WORKS_RS1[k] < 32
  {
  }

  /** Each ADDI computes the value the test expects. */
  lemma ItWorksSums(k: nat)
    requires k < 7
    ensures WrappingAdd(ItWorksRegs(k)[IT_WORKS_RS1[k]], Sext16(IT_WORKS_IMM[k])) == IT_WORKS_VALUE[k]
  {
    if k == 0 { assert ItWorksRegs(0)[0] == 0; }
    else if k == 1 { assert ItWorksRegs(1)[1] == 1000; }
    else if k == 2 { assert ItWorksRegs(2)[2] == 3000; }
    else if k == 3 { assert ItWorksRegs(3)[3] == 2000; }
    else if k == 4 { assert ItWorksRegs(4)[4] == 0; }
    else if k == 5 { assert ItWorksRegs(5)[0] == 0; }
    else { assert ItWorksRegs(6)[6] == 64; }
  }

  lemma ItWorksPcs(k: nat)
    requires k < 7
    ensures IT_WORKS_PC[k] as nat == 4 * k && WrappingAdd(IT_WORKS_PC[k], 4) == IT_WORKS_PC[k + 1]
  {
  }

  /** Any tick of `it_works`: the word at pc is the ADDI the program holds there. */
  lemma ItWorksStep(s: State, k: nat)
    requires k < 7 && ItWorksAfter(s, k)
    ensures CanStep(s) && ItWorksAfter(Step(s), k + 1)
  {
    ItWorksPcs(k);
    ItWorksWord(s.mem, 4 * k);
    ItWorksWords(k);
    assert WordAt(s.mem, s.pc as nat) == IT_WORKS_WORD[k];
    ItWorksDecodes(k);
    ItWorksFields(k);
    ItWorksSums(k);
    AddiAt(s, IT_WORKS_RD[k], IT_WORKS_RS1[k], IT_WORKS_IMM[k]);
  }

  /** After the seven ticks, x0..x6 hold the values `it_works` expects. */
  lemma ItWorksDone(s: State)
    requires ItWorksAfter(s, 7)
    ensures s.regs[..7] == [0, 1000, 3000, 2000, 0, 1000, 68]
  {
  }

  /** Tick k of `it_works` on the hart, whose register array and RAM bytes
      are named by regs and bytes. */
  method ItWorksTick(m: Hart, regs: array<bv32>, bytes: array<bv8>, k: nat)
    requires m.registers == regs && m.memory.ram == bytes
    requires k < 7 && m.Valid() && ItWorksAfter(m.Snapshot(), k)
    modifies m, regs, bytes
    ensures m.registers == regs && m.memory.ram == bytes
    ensures m.Valid() && ItWorksAfter(m.Snapshot(), k + 1)
  {
    ItWorksStep(m.Snapshot(), k);
    m.Tick();
  }

  /** `it_works`: after seven ticks x0..x6 are 0, 1000, 3000, 2000, 0, 1000, 68. */
  method ItWorksTest() returns (x: seq<bv32>)
    ensures x == [0, 1000, 3000, 2000, 0, 1000, 68]
  {
    var ram := new Ram(PROGRAM);
    var m := new Hart(ram);
    var regs, bytes := m.registers, ram.ram;
    var k := 0;
    ItWorksTick(m, regs, bytes, k);
    k := k + 1;
    ItWorksTick(m, regs, bytes, k);
    k := k + 1;
    ItWorksTick(m, regs, bytes, k);
    k := k + 1;
    ItWorksTick(m, regs, bytes, k);
    k := k + 1;
    ItWorksTick(m, regs, bytes, k);
    k := k + 1;
    ItWorksTick(m, regs, bytes, k);
    k := k + 1;
    ItWorksTick(m, regs, bytes, k);
    ItWorksDone(m.Snapshot());
    x := m.registers[..7];
  }
}
