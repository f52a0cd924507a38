/**
 * Types shared by the devices, the buses and the decoder: the raw instruction
 * word (src/ins.rs:116-120) and the fault a device access or a decode can end
 * in (src/irq.rs:3-12, which src/plic.rs:1-8 names `Fault` in another form).
 * The variants are the union of the two declarations; a variant that only one
 * of them has is marked.
 */
module Device {

  /** A fetched instruction: a full 32-bit word or a compressed 16-bit one. */
  datatype Instruction = IRV32(word: bv32) | CRV32(half: bv16)

  datatype Fault =
    | MemoryFault(addr: nat)
    | Unmapped(addr: nat)          // only in src/irq.rs
    | Unaligned(addr: nat)
    | Halt
    | Unimplemented(msg: string)   // src/plic.rs carries no message: ""
    | InstructionDecodingError     // only in src/irq.rs
    | IllegalOpcode(ins: Instruction)
}
