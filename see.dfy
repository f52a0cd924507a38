/**
 * The supervisor execution environment of src/see.rs: the SBI `ecall`
 * dispatcher. It reads the extension and function identifiers from the
 * register file, answers the legacy console-putchar call (section 5.2 of
 * the RISC-V SBI specification v1.0) by emitting a character, and reports
 * NotSupported in a0 for anything else. Console output is returned as the
 * string the call emits.
 */
module See {
  import opened Words

  /** SBI_VERSION = (major, minor). */
  const SBI_VERSION_MAJOR: bv32 := 1
  const SBI_VERSION_MINOR: bv32 := 0

  const SBI_ARG0_REG: nat := 10     // a0: error code
  const SBI_ARG1_REG: nat := 11     // a1: value
  const SBI_FUNCTION_REG: nat := 17 // meant to be a6, the function id
  const SBI_SYSCALL_REG: nat := 17  // a7, the extension id

  /** The register that holds the SBI function id (a6). */
  const A6: nat := 16

  /** The SBI error codes. */
  datatype Error =
    | Success | Failed | NotSupported | InvalidParam | Denied
    | InvalidAddress | AlreadyAvailable | AlreadyStarted | AlreadyStopped

  /** The discriminant of each error. */
  function Code(e: Error): int
  {
    match e
    case Success => 0
    case Failed => -1
    case NotSupported => -2
    case InvalidParam => -3
    case Denied => -4
    case InvalidAddress => -5
    case AlreadyAvailable => -6
    case AlreadyStarted => -7
    case AlreadyStopped => -8
  }

  /** `e as u32`: the two's-complement pattern of the discriminant. */
  function Word(e: Error): (w: bv32)
    ensures I32(w) == Code(e)
  {
    match e
    case Success => 0
    case Failed => 0xFFFF_FFFF
    case NotSupported => 0xFFFF_FFFE
    case InvalidParam => 0xFFFF_FFFD
    case Denied => 0xFFFF_FFFC
    case InvalidAddress => 0xFFFF_FFFB
    case AlreadyAvailable => 0xFFFF_FFFA
    case AlreadyStarted => 0xFFFF_FFF9
    case AlreadyStopped => 0xFFFF_FFF8
  }

  /** `char::from_u32(x)` is Some exactly for the Unicode scalar values. */
  predicate Scalar(x: bv32)
  {
    x as int < 0xD800 || (0xE000 <= x as int < 0x11_0000)
  }

  /** The version word `SBI_VERSION.0 << 24 + SBI_VERSION.1`; Rust's `+`
      binds tighter than `<<`, which gives the same word as minor is 0. */
  function SpecVersion(): (v: bv32)
    ensures v >> 24 == SBI_VERSION_MAJOR && v & 0xFF_FFFF == SBI_VERSION_MINOR
  {
    SBI_VERSION_MAJOR << (24 + SBI_VERSION_MINOR)
  }

  /** The register file and console output after an SBI call that reads the
      extension id from register eid and the function id from register fid. */
  function Dispatch(regs: seq<bv32>, eid: nat, fid: nat): (seq<bv32>, string)
    requires |regs| == 32 && eid < 32 && fid < 32
    requires regs[eid] == 1 && !(regs[eid] == 0x10 && regs[fid] == 0) ==> Scalar(regs[SBI_ARG0_REG])
  {
    if regs[eid] == 0x10 && regs[fid] == 0 then
      (regs[SBI_ARG0_REG := Word(Success)][SBI_ARG1_REG := SpecVersion()], "")
    else if regs[eid] == 1 then
      (regs, [regs[SBI_ARG0_REG] as int as char])
    else
      (regs[SBI_ARG0_REG := Word(NotSupported)], "")
  }

  /** The dispatcher on the register array, with the identifier registers as
      parameters. The `print!` of the putchar arm becomes the returned output. */
  method CallWith(registers: array<bv32>, eid: nat, fid: nat) returns (out: string)
    requires registers.Length == 32 && eid < 32 && fid < 32
    requires registers[eid] == 1 && !(registers[eid] == 0x10 && registers[fid] == 0) ==> Scalar(registers[SBI_ARG0_REG])
    modifies registers
    ensures (registers[..], out) == Dispatch(old(registers[..]), eid, fid)
  {
    var func := (registers[eid], registers[fid]);
    if func.0 == 0x10 && func.1 == 0 {
      var specVersion := SpecVersion();
      registers[SBI_ARG0_REG] := Word(Success);
      registers[SBI_ARG1_REG] := specVersion;
      out := "";
    } else if func.0 == 1 {
      out := [registers[SBI_ARG0_REG] as int as char];
    } else {
      registers[SBI_ARG0_REG] := Word(NotSupported);
      out := "";
    }
  }

  /** see::call as written: both identifiers come from x17. The putchar arm
      panics unless a0 holds a Unicode scalar value. */
  method Call(registers: array<bv32>) returns (out: string)
    requires registers.Length == 32
    requires registers[SBI_SYSCALL_REG] == 1 ==> Scalar(registers[SBI_ARG0_REG])
    modifies registers
    ensures (registers[..], out) == Dispatch(old(registers[..]), SBI_SYSCALL_REG, SBI_FUNCTION_REG)
  {
    out := CallWith(registers, SBI_SYSCALL_REG, SBI_FUNCTION_REG);
  }

  /** see::call with the function id read from a6, as the SBI calling
      convention (section 3 of the SBI specification) places it. */
  method CallFixed(registers: array<bv32>) returns (out: string)
    requires registers.Length == 32
    requires registers[SBI_SYSCALL_REG] == 1 ==> Scalar(registers[SBI_ARG0_REG])
    modifies registers
    ensures (registers[..], out) == Dispatch(old(registers[..]), SBI_SYSCALL_REG, A6)
  {
    out := CallWith(registers, SBI_SYSCALL_REG, A6);
  }

  /** With both identifiers in x17: a7 = 1 emits the character of a0 and
      changes no register; any other a7 sets a0 to NotSupported (-2) and
      changes no other register. a1 is therefore never written. */
  lemma CallSpec(regs: seq<bv32>)
    requires |regs| == 32
    requires regs[SBI_SYSCALL_REG] == 1 ==> Scalar(regs[SBI_ARG0_REG])
    ensures regs[SBI_SYSCALL_REG] == 1 ==>
      Dispatch(regs, SBI_SYSCALL_REG, SBI_FUNCTION_REG) == (regs, [regs[SBI_ARG0_REG] as int as char])
    ensures regs[SBI_SYSCALL_REG] != 1 ==>
      Dispatch(regs, SBI_SYSCALL_REG, SBI_FUNCTION_REG) == (regs[SBI_ARG0_REG := 0xFFFF_FFFE], "")
    ensures Dispatch(regs, SBI_SYSCALL_REG, SBI_FUNCTION_REG).0[SBI_ARG1_REG] == regs[SBI_ARG1_REG]
  {
  }

  /** The base-extension probe a7 = 0x10, a6 = 0 (sbi_get_spec_version) is
      answered NotSupported as written: the version arm is unreachable. */
  lemma VersionUnanswered(regs: seq<bv32>)
    requires |regs| == 32 && regs[SBI_SYSCALL_REG] == 0x10 && regs[A6] == 0
    ensures Dispatch(regs, SBI_SYSCALL_REG, SBI_FUNCTION_REG).0[SBI_ARG0_REG] == Word(NotSupported)
    ensures Dispatch(regs, SBI_SYSCALL_REG, SBI_FUNCTION_REG).0[SBI_ARG1_REG] == regs[SBI_ARG1_REG]
  {
  }

  /** With the function id read from a6, the same probe returns Success in
      a0 and version 1.0 (major in bits 30:24) in a1, and nothing else changes. */
  lemma VersionAnswered(regs: seq<bv32>)
    requires |regs| == 32 && regs[SBI_SYSCALL_REG] == 0x10 && regs[A6] == 0
    ensures Dispatch(regs, SBI_SYSCALL_REG, A6).0[SBI_ARG0_REG] == 0
    ensures Dispatch(regs, SBI_SYSCALL_REG, A6).0[SBI_ARG1_REG] == 0x0100_0000
    ensures forall i :: 0 <= i < 32 && i != SBI_ARG0_REG && i != SBI_ARG1_REG ==>
      Dispatch(regs, SBI_SYSCALL_REG, A6).0[i] == regs[i]
  {
  }
}
