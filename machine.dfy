/**
 * The machine of src/machine.rs, the earlier form of the hart: 32 registers
 * x0..x31, a pc and a RAM, stepped by `tick` through ADD, ADDI, BEQ and
 * AUIPC. Its decoder differs from the hart's: store words are read as
 * R-type, a JAL word reaches `todo!()`, and the U-type immediate is the
 * manual's. Its BEQ compares rs1 with itself, so every BEQ is taken; that is
 * modelled as written, beside the comparison of rs1 with rs2 that the
 * RISC-V manual defines. Arithmetic wraps, as a release build does. A panic
 * is excluded by a precondition.
 *
 * The source keeps the registers in 32 fields x0..x31; the model keeps them
 * in a 32-word array indexed by register number, which is the mapping that
 * set_register and get_register implement with their matches.
 */
module Machine {
  import opened Words
  import opened Ins
  import opened RamStore
  import Hart

  type State = Hart.State

  // ---------------------------------------------------------------------------
  // decode_instruction

  /** The opcodes decode_instruction handles; any other one panics, and the
      J-type arm (JAL) reaches `todo!()`. */
  predicate MachineOpcode(w: bv32)
  {
    var op := (w & 0x7F) as bv8;
    op == OP_REG || op == OP_STORE || op == OP_IMM || op == OP_LOAD || op == OP_JALR
    || op == OP_SYSTEM || op == OP_BRANCH || op == OP_LUI || op == OP_AUIPC
  }

  /** decode_instruction: R-type for OP and STORE words with four-bit rs
      fields, I-type as in the hart, B-type with the hart's immediate, and
      U-type with the word's bits 31:12. */
  function DecodeInstruction(w: bv32): (r: InstructionFormat)
    requires MachineOpcode(w)
    ensures r.opcode == (w & 0x7F) as bv8
  {
    var opcode := (w & 0x7F) as bv8;
    if opcode == OP_REG || opcode == OP_STORE then
      R(opcode, ((w >> 7) & 0x1F) as bv8, ((w >> 12) & 7) as bv8,
        ((w >> 15) & 0xF) as bv8, ((w >> 20) & 0xF) as bv8, (w >> 25) as bv8)
    else if opcode == OP_IMM || opcode == OP_LOAD || opcode == OP_JALR || opcode == OP_SYSTEM then
      DecodeI(w)
    else if opcode == OP_BRANCH then
      B(opcode, ((w >> 12) & 7) as bv8, ((w >> 15) & 0xF) as bv8, ((w >> 20) & 0xF) as bv8, Hart.ImmSB(w))
    else
      U(opcode, ((w >> 7) & 0x1F) as bv8, w >> 12)
  }

  /** The machine decodes exactly the hart's opcodes except JAL. */
  lemma MachineOpcodeSpec(w: bv32)
    ensures MachineOpcode(w) <==> Hart.HartOpcode(w) && (w & 0x7F) as bv8 != OP_JAL
  {
  }

  /** On OP, I-type and BRANCH words the machine and the hart decode alike. */
  lemma DecodeAgreesWithHart(w: bv32)
    requires MachineOpcode(w)
    requires (w & 0x7F) as bv8 != OP_STORE && (w & 0x7F) as bv8 != OP_LUI && (w & 0x7F) as bv8 != OP_AUIPC
    ensures Hart.HartOpcode(w) && DecodeInstruction(w) == Hart.DecodeInstruction(w)
  {
  }

  /** A store word is decoded as R-type, which no arm of execute_instruction
      accepts. */
  lemma StoreDecodedAsR(s: State, w: bv32)
    requires (w & 0x7F) as bv8 == OP_STORE
    ensures MachineOpcode(w) && DecodeInstruction(w).R? && !Executable(s, DecodeInstruction(w))
  {
  }

  /** The U-type immediate shifted into place is bits 31:12 of the word, as
      the manual defines it (unlike the hart's, which loses bit 31). */
  lemma UpperImmediate(w: bv32)
    requires (w & 0x7F) as bv8 == OP_AUIPC || (w & 0x7F) as bv8 == OP_LUI
    ensures Hart.Shl12(DecodeInstruction(w).imm32) == w & 0xFFFF_F000
  {
  }

  // ---------------------------------------------------------------------------
  // execute_instruction

  /** The descriptors execute_instruction handles without panicking: ADD,
      ADDI, BEQ and AUIPC, with rd != 0 where a register is written. BEQ
      reads rs1 only. */
  predicate Executable(s: State, f: InstructionFormat)
  {
    |s.regs| == 32 &&
    match f
    case R(op, rd, f3, rs1, rs2, f7) =>
      op == OP_REG && f3 == 0 && f7 == 0 && 0 < rd < 32 && rs1 < 32 && rs2 < 32
    case I(op, rd, f3, rs1, _) => op == OP_IMM && f3 == 0 && 0 < rd < 32 && rs1 < 32
    case B(op, f3, rs1, _, _) => op == OP_BRANCH && f3 == 0 && rs1 < 32
    case U(op, rd, _) => op == OP_AUIPC && 0 < rd < 32
    case S(_, _, _, _, _) => false
    case J(_, _, _) => false
  }

  /** execute_instruction as written, on a state whose pc has already been
      advanced past the instruction. */
  function Execute(s: State, f: InstructionFormat): (t: State)
    requires Executable(s, f)
    ensures |t.regs| == 32 && t.mem == s.mem
  {
    match f
    case R(_, rd, _, rs1, rs2, _) =>
      s.(regs := s.regs[rd := WrappingAdd(s.regs[rs1], s.regs[rs2])])
    case I(_, rd, _, rs1, imm) =>
      s.(regs := s.regs[rd := WrappingAdd(s.regs[rs1], Sext16(imm))])
    case B(_, _, rs1, _, imm) =>
      // `self.pc += imm` adds an i16 to a u32 pc; the model takes the
      // evidently meant addition of the sign-extended offset, wrapping.
      if s.regs[rs1] == s.regs[rs1] then s.(pc := WrappingAdd(s.pc, Sext16(imm))) else s
    case U(_, rd, imm) =>
      s.(regs := s.regs[rd := WrappingAdd(s.pc, Hart.Shl12(imm))])
  }

  /** execute_instruction with BEQ comparing rs1 with rs2. */
  function ExecuteFixed(s: State, f: InstructionFormat): (t: State)
    requires Executable(s, f) && (f.B? ==> f.rs2 < 32)
    ensures |t.regs| == 32 && t.mem == s.mem
  {
    if f.B? then
      if s.regs[f.rs1] == s.regs[f.rs2] then s.(pc := WrappingAdd(s.pc, Sext16(f.imm))) else s
    else Execute(s, f)
  }

  /** ADD writes rs1 + rs2 and ADDI rs1 + imm, wrapping, with the immediate
      sign-extended; no other register and not the pc changes. */
  lemma ExecuteArith(s: State, f: InstructionFormat)
    requires Executable(s, f) && (f.R? || f.I?)
    ensures f.R? ==> Execute(s, f).regs[f.rd] == WrappingAdd(s.regs[f.rs1], s.regs[f.rs2])
    ensures f.I? ==> Execute(s, f).regs[f.rd] == WrappingAdd(s.regs[f.rs1], Sext16(f.imm))
    ensures forall i :: 0 <= i < 32 && i != f.rd as int ==> Execute(s, f).regs[i] == s.regs[i]
    ensures Execute(s, f).pc == s.pc
  {
  }

  /** AUIPC writes pc + (imm << 12) to rd and changes nothing else. */
  lemma ExecuteAuipc(s: State, f: InstructionFormat)
    requires Executable(s, f) && f.U?
    ensures Execute(s, f).regs[f.rd] == WrappingAdd(s.pc, Hart.Shl12(f.imm32))
    ensures forall i :: 0 <= i < 32 && i != f.rd as int ==> Execute(s, f).regs[i] == s.regs[i]
    ensures Execute(s, f).pc == s.pc
  {
  }

  /** As written, every BEQ is taken, whatever rs1 and rs2 hold. */
  lemma BeqAlwaysTaken(s: State, f: InstructionFormat)
    requires Executable(s, f) && f.B?
    ensures Execute(s, f) == s.(pc := WrappingAdd(s.pc, Sext16(f.imm)))
  {
  }

  /** Corrected, BEQ is taken exactly when rs1 and rs2 are equal, and
      changes only the pc. */
  lemma BeqFixed(s: State, f: InstructionFormat)
    requires Executable(s, f) && f.B? && f.rs2 < 32
    ensures ExecuteFixed(s, f).regs == s.regs
    ensures s.regs[f.rs1] == s.regs[f.rs2] ==> ExecuteFixed(s, f).pc == WrappingAdd(s.pc, Sext16(f.imm))
    ensures s.regs[f.rs1] != s.regs[f.rs2] ==> ExecuteFixed(s, f).pc == s.pc
  {
  }

  /** beq x1, x2, 8 with x1 = 1 and x2 = 2 jumps as written and falls
      through corrected. */
  lemma BeqUnequal(s: State)
    requires |s.regs| == 32 && s.regs[1] == 1 && s.regs[2] == 2
    ensures Execute(s, B(OP_BRANCH, 0, 1, 2, 8)).pc == s.pc + 8
    ensures ExecuteFixed(s, B(OP_BRANCH, 0, 1, 2, 8)).pc == s.pc
  {
  }

  // ---------------------------------------------------------------------------
  // tick

  predicate CanStep(s: State)
  {
    |s.regs| == 32 && s.pc as int + 3 < |s.mem|
    && MachineOpcode(Hart.WordAt(s.mem, s.pc as nat))
    && Executable(Hart.Fetched(s), DecodeInstruction(Hart.WordAt(s.mem, s.pc as nat)))
  }

  /** tick: fetch (pc advances by 4), decode, execute. */
  function Step(s: State): State
    requires CanStep(s)
  {
    Execute(Hart.Fetched(s), DecodeInstruction(Hart.WordAt(s.mem, s.pc as nat)))
  }

  /** x0 can never be written: a step leaves it as it was. */
  lemma StepKeepsZero(s: State)
    requires CanStep(s)
    ensures Step(s).regs[0] == s.regs[0]
  {
  }

  /** An AUIPC word at pc writes pc + 4 + bits 31:12 of the word to rd: the
      immediate is the manual's, the base is the advanced pc. */
  lemma AuipcStep(s: State)
    requires CanStep(s) && DecodeInstruction(Hart.WordAt(s.mem, s.pc as nat)).U?
    ensures var w := Hart.WordAt(s.mem, s.pc as nat);
      Step(s).regs[(w >> 7) & 0x1F] == WrappingAdd(WrappingAdd(s.pc, 4), w & 0xFFFF_F000)
  {
    UpperImmediate(Hart.WordAt(s.mem, s.pc as nat));
  }

  // ---------------------------------------------------------------------------
  // The Machine object

  class Machine {
    var memory: Ram
    var registers: array<bv32>
    var pc: bv32

    /** 32 registers, the RAM of Ram::new, and x0 = 0: set_register never
        writes x0. */
    ghost predicate Valid()
      reads this, registers, memory
    {
      registers.Length == 32 && memory.ram.Length == DRAM_SIZE && registers[0] == 0
    }

    /** The machine's state as a value. */
    function Snapshot(): State
      reads this, registers, memory, memory.ram
    {
      Hart.State(registers[..], pc, memory.ram[..])
    }

    /** Machine::new: the given RAM, x0..x31 all 0 and pc 0. */
    constructor (ram: Ram)
      requires ram.ram.Length == DRAM_SIZE
      ensures Valid() && fresh(registers)
      ensures memory == ram && registers[..] == seq(32, _ => 0) && pc == 0
    {
      memory := ram;
      registers := new bv32[32](_ => 0);
      pc := 0;
    }

    /** set_register: field x<reg> is written for reg in 1..31; 0 and
        anything above 31 panic. */
    method SetRegister(reg: bv8, val: bv32)
      requires Valid() && 1 <= reg <= 31
      modifies registers
      ensures Valid()
      ensures registers[..] == old(registers[..])[reg := val]
    {
      registers[reg] := val;
    }

    /** get_register: field x<reg> for reg in 0..31; above 31 panics. */
    function GetRegister(reg: bv8): (v: bv32)
      requires Valid() && reg <= 31
      reads this, registers, memory
      ensures v == Snapshot().regs[reg]
      ensures reg == 0 ==> v == 0
    {
      registers[reg]
    }

    /** fetch_instruction: the little-endian word at pc; pc advances by 4. */
    method FetchInstruction() returns (ins: bv32)
      requires Valid() && pc as int + 3 < DRAM_SIZE
      modifies this
      ensures Valid() && memory == old(memory) && registers == old(registers)
      ensures ins == Hart.WordAt(memory.ram[..], old(pc) as nat)
      ensures pc == WrappingAdd(old(pc), 4)
    {
      ins := memory.ReadWord(pc as nat);
      pc := WrappingAdd(pc, 4);
    }

    /** execute_instruction: one method per arm of the source's match. */
    method ExecuteInstruction(f: InstructionFormat)
      requires Valid() && Executable(Snapshot(), f)
      modifies this, registers
      ensures Valid() && memory == old(memory) && registers == old(registers)
      ensures Snapshot() == Execute(old(Snapshot()), f)
    {
      match f {
        case R(_, _, _, _, _, _) => Add(f);
        case I(_, _, _, _, _) => Addi(f);
        case B(_, _, _, _, _) => Beq(f);
        case U(_, _, _) => Auipc(f);
      }
    }

    /** ADD: rd := rs1 + rs2, wrapping. */
    method Add(f: InstructionFormat)
      requires Valid() && Executable(Snapshot(), f) && f.R?
      modifies registers
      ensures Valid() && Snapshot() == Execute(old(Snapshot()), f)
    {
      var val := WrappingAdd(GetRegister(f.rs1), GetRegister(f.rs2));
      SetRegister(f.rd, val);
    }

    /** ADDI: rd := rs1 + imm, wrapping, with the immediate sign-extended. */
    method Addi(f: InstructionFormat)
      requires Valid() && Executable(Snapshot(), f) && f.I?
      modifies registers
      ensures Valid() && Snapshot() == Execute(old(Snapshot()), f)
    {
      var val := WrappingAdd(GetRegister(f.rs1), Sext16(f.imm));
      SetRegister(f.rd, val);
    }

    /** BEQ as written: rs1 is compared with itself. */
    method Beq(f: InstructionFormat)
      requires Valid() && Executable(Snapshot(), f) && f.B?
      modifies this
      ensures Valid() && memory == old(memory) && registers == old(registers)
      ensures Snapshot() == Execute(old(Snapshot()), f)
    {
      if GetRegister(f.rs1) == GetRegister(f.rs1) {
        pc := WrappingAdd(pc, Sext16(f.imm));
      }
    }

    /** AUIPC: rd := pc + (imm << 12), from the advanced pc. */
    method Auipc(f: InstructionFormat)
      requires Valid() && Executable(Snapshot(), f) && f.U?
      modifies registers
      ensures Valid() && Snapshot() == Execute(old(Snapshot()), f)
    {
      SetRegister(f.rd, WrappingAdd(pc, Hart.Shl12(f.imm32)));
    }

    /** tick: fetch, decode, execute. */
    method Tick()
      requires Valid() && CanStep(Snapshot())
      modifies this, registers
      ensures Valid() && memory == old(memory) && registers == old(registers)
      ensures Snapshot() == Step(old(Snapshot()))
    {
      var ins := FetchInstruction();
      var f := DecodeInstruction(ins);
      ExecuteInstruction(f);
    }
  }

  // ---------------------------------------------------------------------------
  // The unit tests of src/machine.rs, on the program of the hart's tests

  /** One tick on an ADDI word whose descriptor is known. */
  lemma AddiAt(s: State, rd: bv8, rs1: bv8, imm: bv16)
    requires |s.regs| == 32 && s.pc as int + 3 < |s.mem| && MachineOpcode(Hart.WordAt(s.mem, s.pc as nat))
    requires DecodeInstruction(Hart.WordAt(s.mem, s.pc as nat)) == I(OP_IMM, rd, 0, rs1, imm)
    requires 0 < rd < 32 && rs1 < 32
    ensures CanStep(s)
      && Step(s) == Hart.State(s.regs[rd := WrappingAdd(s.regs[rs1], Sext16(imm))], WrappingAdd(s.pc, 4), s.mem)
  {
  }

  /** Any tick of `it_works`: the word at pc is the ADDI the program holds
      there, which the machine decodes as the hart does. */
  lemma ItWorksStep(s: State, k: nat)
    requires k < 7 && Hart.ItWorksAfter(s, k)
    ensures CanStep(s) && Hart.ItWorksAfter(Step(s), k + 1)
  {
    Hart.ItWorksPcs(k);
    Hart.ItWorksWord(s.mem, 4 * k);
    Hart.ItWorksWords(k);
    var w := Hart.WordAt(s.mem, s.pc as nat);
    assert w == Hart.IT_WORKS_WORD[k];
    Hart.ItWorksDecodes(k);
    DecodeAgreesWithHart(w);
    Hart.ItWorksFields(k);
    Hart.ItWorksSums(k);
    AddiAt(s, Hart.IT_WORKS_RD[k], Hart.IT_WORKS_RS1[k], Hart.IT_WORKS_IMM[k]);
  }

  /** Tick k of `it_works` on the machine, whose register array is regs. */
  method ItWorksTick(m: Machine, regs: array<bv32>, k: nat)
    requires m.registers == regs
    requires k < 7 && m.Valid() && Hart.ItWorksAfter(m.Snapshot(), k)
    modifies m, regs
    ensures m.registers == regs && m.memory == old(m.memory)
    ensures m.Valid() && Hart.ItWorksAfter(m.Snapshot(), k + 1)
  {
    ItWorksStep(m.Snapshot(), k);
    m.Tick();
  }

  /** `addi`: 0x7d008113 (addi sp, ra, 2000) on zeroed registers gives x2 = 2000. */
  method AddiTest() returns (x2: bv32)
    ensures x2 == 2000
  {
    var ram := new Ram([0x13, 0x81, 0x00, 0x7d]);
    var m := new Machine(ram);
    ghost var s := m.Snapshot();
    assert Hart.WordAt(s.mem, 0) == 0x7d00_8113;
    assert DecodeInstruction(0x7d00_8113) == I(OP_IMM, 2, 0, 1, 0x7D0);
    AddiAt(s, 2, 1, 0x7D0);
    m.Tick();
    x2 := m.registers[2];
  }

  /** `addi_neg`: 0xc1810193 (addi gp, sp, -1000) gives x3 = -1000 as an i32. */
  method AddiNegTest() returns (x3: bv32)
    ensures I32(x3) == -1000
  {
    var ram := new Ram([0x93, 0x01, 0x81, 0xc1]);
    var m := new Machine(ram);
    ghost var s := m.Snapshot();
    assert Hart.WordAt(s.mem, 0) == 0xc181_0193;
    assert DecodeInstruction(0xc181_0193) == I(OP_IMM, 3, 0, 2, 0xFC18);
    AddiAt(s, 3, 2, 0xFC18);
    m.Tick();
    x3 := m.registers[3];
  }

  /** `it_works`: after seven ticks x0..x6 are 0, 1000, 3000, 2000, 0, 1000, 68. */
  method ItWorksTest() returns (x: seq<bv32>)
    ensures x == [0, 1000, 3000, 2000, 0, 1000, 68]
  {
    var ram := new Ram(Hart.PROGRAM);
    var m := new Machine(ram);
    var regs := m.registers;
    var k := 0;
    ItWorksTick(m, regs, k);
    k := k + 1;
    ItWorksTick(m, regs, k);
    k := k + 1;
    ItWorksTick(m, regs, k);
    k := k + 1;
    ItWorksTick(m, regs, k);
    k := k + 1;
    ItWorksTick(m, regs, k);
    k := k + 1;
    ItWorksTick(m, regs, k);
    k := k + 1;
    ItWorksTick(m, regs, k);
    Hart.ItWorksDone(m.Snapshot());
    x := m.registers[..7];
  }
}
