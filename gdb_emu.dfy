/**
 * The gdb remote-protocol handler of src/gdb/emu.rs: it keeps the breakpoint
 * list, reads memory and registers for the debugger, and resumes the hart.
 * The bus behind read_memory is the function `readByte`, and the hart's step
 * is the function `tick`.
 */
module GdbEmu {
  import opened Wrappers
  import opened Words
  import opened GdbTarget

  const SIGTRAP: bv8 := 5

  /** The protocol's errors: a numbered error, or not implemented. */
  datatype Error = Error(code: bv8) | Unimplemented

  /** Why the hart stopped. */
  datatype StopReason = Signal(signal: bv8)

  /** The resume actions a vCont request can carry. */
  datatype VCont =
    | Continue
    | ContinueWithSignal(signal: bv8)
    | Step
    | StepWithSignal(signal: bv8)
    | Stop
    | RangeStep(start: bv64, end: bv64)

  /** `From<Fault>`: the error each fault is reported as. Every fault but
      Unimplemented is reported by number, memory faults as 0. */
  function FromFault(f: Fault): (r: Error)
    ensures r.Error? <==> !f.Unimplemented?
    ensures r == Error(0) <==> f.MemoryFault?
    ensures r.Error? ==> r.code in {0, 2, 3, 4, 5}
  {
    match f
    case MemoryFault(_) => Error(0)
    case Unaligned(_) => Error(2)
    case Halt => Error(3)
    case Unimplemented => Error.Unimplemented
    case InstructionDecodingError => Error(4)
    case IllegalOpcode(_) => Error(5)
  }

  /** The mapping forgets addresses and opcodes but keeps the kind of fault:
      two faults map to the same error exactly when they are of one kind, and
      only Unimplemented is not reported by number. */
  lemma FaultKinds(f: Fault, g: Fault)
    ensures FromFault(f) == FromFault(g) <==>
      (f.MemoryFault? && g.MemoryFault?) || (f.Unaligned? && g.Unaligned?) || (f.Halt? && g.Halt?)
      || (f.Unimplemented? && g.Unimplemented?) || (f.InstructionDecodingError? && g.InstructionDecodingError?)
      || (f.IllegalOpcode? && g.IllegalOpcode?)
    ensures FromFault(f).Error? <==> !f.Unimplemented?
    ensures FromFault(f).Error? ==> FromFault(f).code in {0, 2, 3, 4, 5}
  {
  }

  // read_memory.

  /** The bytes at address to address + length - 1, read in order; the first
      fault ends the read. */
  function ReadBytes(readByte: nat -> Result<bv8, Fault>, address: nat, length: nat): Result<seq<bv8>, Fault>
    decreases length
  {
    if length == 0 then Ok([])
    else match ReadBytes(readByte, address, length - 1)
      case Err(e) => Err(e)
      case Ok(bytes) =>
        match readByte(address + length - 1)
        case Err(e) => Err(e)
        case Ok(b) => Ok(bytes + [b])
  }

  /** A read succeeds exactly when every byte reads, and then holds those
      bytes; a failed read reports the first fault. */
  lemma {:induction false} ReadBytesSpec(readByte: nat -> Result<bv8, Fault>, address: nat, length: nat)
    ensures ReadBytes(readByte, address, length).Ok? <==>
              forall a :: address <= a < address + length ==> readByte(a).Ok?
    ensures ReadBytes(readByte, address, length).Ok? ==>
              var bytes := ReadBytes(readByte, address, length).value;
              |bytes| == length && forall i :: 0 <= i < length ==> readByte(address + i) == Ok(bytes[i])
    ensures ReadBytes(readByte, address, length).Err? ==>
              exists a :: address <= a < address + length && readByte(a).Err?
                && ReadBytes(readByte, address, length).error == readByte(a).error
                && forall b :: address <= b < a ==> readByte(b).Ok?
    decreases length
  {
    if length > 0 {
      ReadBytesSpec(readByte, address, length - 1);
    }
  }

  /** Once a read faults, a longer read reports the same fault. */
  lemma {:induction false} ReadBytesFaultSticks(readByte: nat -> Result<bv8, Fault>, address: nat, n: nat, length: nat)
    requires n <= length && ReadBytes(readByte, address, n).Err?
    ensures ReadBytes(readByte, address, length) == ReadBytes(readByte, address, n)
    decreases length - n
  {
    if n < length {
      ReadBytesFaultSticks(readByte, address, n, length - 1);
    }
  }

  /** read_memory: the bytes of the region read one at a time, the first fault
      returned as its protocol error. */
  method ReadMemory(readByte: nat -> Result<bv8, Fault>, address: nat, length: nat) returns (r: Result<seq<bv8>, Error>)
    ensures r == match ReadBytes(readByte, address, length)
                 case Ok(bytes) => Ok(bytes)
                 case Err(f) => Err(FromFault(f))
  {
    var result: seq<bv8> := [];
    for i := 0 to length
      invariant ReadBytes(readByte, address, i) == Ok(result)
    {
      var b := readByte(address + i);
      if b.Err? {
        ReadBytesFaultSticks(readByte, address, i + 1, length);
        return Err(FromFault(b.error));
      }
      result := result + [b.value];
    }
    r := Ok(result);
  }

  // read_general_registers.

  /** The registers' little-endian bytes, in order. */
  function RegsBytes(regs: seq<bv64>): (bytes: seq<bv8>)
    ensures |bytes| == 8 * |regs|
  {
    if |regs| == 0 then [] else RegsBytes(regs[..|regs| - 1]) + DoubleBytes(regs[|regs| - 1])
  }

  /** The reply to read_general_registers: x0 to x31, then the pc. */
  function RegisterBytes(h: HartState): seq<bv8>
  {
    RegsBytes(h.regs) + DoubleBytes(h.pc)
  }

  /** Register i occupies bytes 8i to 8i + 7. */
  lemma {:induction false} RegsBytesAt(regs: seq<bv64>, i: nat)
    requires i < |regs|
    ensures RegsBytes(regs)[8 * i..8 * i + 8] == DoubleBytes(regs[i])
    decreases |regs|
  {
    var prefix := regs[..|regs| - 1];
    if i < |regs| - 1 {
      RegsBytesAt(prefix, i);
      assert prefix[i] == regs[i];
      assert RegsBytes(regs)[8 * i..8 * i + 8] == RegsBytes(prefix)[8 * i..8 * i + 8];
    } else {
      assert RegsBytes(regs)[8 * i..8 * i + 8] == DoubleBytes(regs[i]);
    }
  }

  /** The reply is 264 bytes, from which a debugger decodes every register at
      offset 8i and the pc at offset 256. */
  lemma RegisterBytesDecode(h: HartState, i: nat)
    requires i < 32
    ensures |RegisterBytes(h)| == 264
    ensures LeDouble(RegisterBytes(h), 8 * i) == h.regs[i]
    ensures LeDouble(RegisterBytes(h), 256) == h.pc
  {
    var bytes := RegisterBytes(h);
    RegsBytesAt(h.regs, i);
    forall k | 0 <= k < 8
      ensures bytes[8 * i + k] == DoubleBytes(h.regs[i])[k]
    {
      assert bytes[8 * i + k] == RegsBytes(h.regs)[8 * i..8 * i + 8][k];
    }
    LeDoubleBytes(bytes, 8 * i, h.regs[i]);
    forall k | 0 <= k < 8
      ensures bytes[256 + k] == DoubleBytes(h.pc)[k]
    {
    }
    LeDoubleBytes(bytes, 256, h.pc);
  }

  // vCont.

  /** The Continue loop from h: stop with SIGTRAP on a breakpoint, otherwise
      tick, with at most fuel more ticks; None while still running. */
  function ContinueFrom(h: HartState, bps: seq<bv64>, tick: HartState -> TickResult, fuel: nat)
    : (HartState, Option<Result<StopReason, Error>>)
    decreases fuel
  {
    if h.pc in bps then (h, Some(Ok(Signal(SIGTRAP))))
    else if fuel == 0 then (h, None)
    else
      var t := tick(h);
      if t.result.Err? then (t.hart, Some(Err(FromFault(t.result.error))))
      else ContinueFrom(t.hart, bps, tick, fuel - 1)
  }

  /** vcont for the first request: Continue ticks once and then runs to a
      breakpoint, Step ticks once, StepWithSignal ticks once and reports its
      signal, and any other action is not implemented. */
  function AfterVcont(h: HartState, bps: seq<bv64>, req: VCont, tick: HartState -> TickResult, fuel: nat)
    : (HartState, Option<Result<StopReason, Error>>)
  {
    match req
    case Continue =>
      var t := tick(h);
      if t.result.Err? then (t.hart, Some(Err(FromFault(t.result.error))))
      else ContinueFrom(t.hart, bps, tick, fuel)
    case Step =>
      var t := tick(h);
      (t.hart, Some(if t.result.Err? then Err(FromFault(t.result.error)) else Ok(Signal(SIGTRAP))))
    case StepWithSignal(sig) =>
      var t := tick(h);
      (t.hart, Some(if t.result.Err? then Err(FromFault(t.result.error)) else Ok(Signal(sig))))
    case _ => (h, Some(Err(Error.Unimplemented)))
  }

  class Emulator {
    var hart: HartState
    var breakpoints: seq<bv64>

    /** Emulator::new: no breakpoints. */
    constructor (hart: HartState)
      ensures this.hart == hart && breakpoints == []
    {
      this.hart := hart;
      breakpoints := [];
    }

    /** insert_software_breakpoint: the address is added only when absent, so
        the list never holds a duplicate. */
    method InsertSoftwareBreakpoint(addr: bv64)
      modifies this
      ensures breakpoints == if addr in old(breakpoints) then old(breakpoints) else old(breakpoints) + [addr]
      ensures NoDuplicates(old(breakpoints)) ==> NoDuplicates(breakpoints)
      ensures addr in breakpoints && hart == old(hart)
    {
      if addr !in breakpoints {
        breakpoints := breakpoints + [addr];
      }
    }

    /** insert_hardware_breakpoint delegates to the software one. */
    method InsertHardwareBreakpoint(addr: bv64)
      modifies this
      ensures breakpoints == if addr in old(breakpoints) then old(breakpoints) else old(breakpoints) + [addr]
      ensures NoDuplicates(old(breakpoints)) ==> NoDuplicates(breakpoints)
      ensures addr in breakpoints && hart == old(hart)
    {
      InsertSoftwareBreakpoint(addr);
    }

    /** remove_software_breakpoint: every occurrence goes, the rest stay in order. */
    method RemoveSoftwareBreakpoint(addr: bv64)
      modifies this
      ensures breakpoints == Retain(old(breakpoints), addr)
      ensures NoDuplicates(old(breakpoints)) ==> NoDuplicates(breakpoints)
      ensures addr !in breakpoints && hart == old(hart)
    {
      if NoDuplicates(breakpoints) {
        RetainNoDuplicates(breakpoints, addr);
      }
      breakpoints := Retain(breakpoints, addr);
    }

    /** remove_hardware_breakpoint delegates to the software one. */
    method RemoveHardwareBreakpoint(addr: bv64)
      modifies this
      ensures breakpoints == Retain(old(breakpoints), addr)
      ensures NoDuplicates(old(breakpoints)) ==> NoDuplicates(breakpoints)
      ensures addr !in breakpoints && hart == old(hart)
    {
      RemoveSoftwareBreakpoint(addr);
    }

    /** read_general_registers: x0 to x31 and then the pc, each as eight
        little-endian bytes. */
    method ReadGeneralRegisters() returns (r: seq<bv8>)
      ensures r == RegisterBytes(hart)
    {
      r := [];
      for i := 0 to 32
        invariant r == RegsBytes(hart.regs[..i])
      {
        assert hart.regs[..i + 1][..i] == hart.regs[..i];
        r := r + DoubleBytes(hart.regs[i]);
      }
      assert hart.regs[..32] == hart.regs;
      r := r + DoubleBytes(hart.pc);
    }

    /** vcont with at most fuel ticks after the first: None when the Continue
        loop is still running. An empty request panics on its unwrap. */
    method Vcont(request: seq<VCont>, tick: HartState -> TickResult, fuel: nat)
      returns (r: Option<Result<StopReason, Error>>)
      requires |request| > 0
      modifies this
      ensures (hart, r) == AfterVcont(old(hart), breakpoints, request[0], tick, fuel)
      ensures breakpoints == old(breakpoints)
    {
      match request[0]
      case Continue =>
        var t := tick(hart);
        hart := t.hart;
        if t.result.Err? {
          return Some(Err(FromFault(t.result.error)));
        }
        var n := fuel;
        while hart.pc !in breakpoints
          invariant breakpoints == old(breakpoints)
          invariant AfterVcont(old(hart), breakpoints, request[0], tick, fuel) == ContinueFrom(hart, breakpoints, tick, n)
          decreases n
        {
          if n == 0 {
            return None;
          }
          t := tick(hart);
          hart := t.hart;
          if t.result.Err? {
            return Some(Err(FromFault(t.result.error)));
          }
          n := n - 1;
        }
        r := Some(Ok(Signal(SIGTRAP)));
      case Step =>
        var t := tick(hart);
        hart := t.hart;
        r := Some(if t.result.Err? then Err(FromFault(t.result.error)) else Ok(Signal(SIGTRAP)));
      case StepWithSignal(sig) =>
        var t := tick(hart);
        hart := t.hart;
        r := Some(if t.result.Err? then Err(FromFault(t.result.error)) else Ok(Signal(sig)));
      case _ =>
        r := Some(Err(Error.Unimplemented));
    }
  }

  // Properties of vcont.

  /** The Continue loop only ever stops with SIGTRAP on a breakpoint, or with
      the error of a faulting tick. */
  lemma {:induction false} ContinueStopsAtBreakpoint(h: HartState, bps: seq<bv64>, tick: HartState -> TickResult, fuel: nat)
    ensures var (after, reply) := ContinueFrom(h, bps, tick, fuel);
            reply.Some? && reply.value.Ok? ==> reply.value.value == Signal(SIGTRAP) && after.pc in bps
    decreases fuel
  {
    if h.pc !in bps && fuel > 0 && tick(h).result.Ok? {
      ContinueStopsAtBreakpoint(tick(h).hart, bps, tick, fuel - 1);
    }
  }

  /** A Continue loop that stops within its fuel stops the same way with more. */
  lemma {:induction false} ContinueFuel(h: HartState, bps: seq<bv64>, tick: HartState -> TickResult, fuel: nat, more: nat)
    requires ContinueFrom(h, bps, tick, fuel).1.Some? && more >= fuel
    ensures ContinueFrom(h, bps, tick, more) == ContinueFrom(h, bps, tick, fuel)
    decreases fuel
  {
    if h.pc !in bps && tick(h).result.Ok? {
      ContinueFuel(tick(h).hart, bps, tick, fuel - 1, more - 1);
    }
  }

  /** Continue ticks at least once: a pc already on a breakpoint does not stop
      it, and it stops at the next pc when that is a breakpoint. */
  lemma ContinueTicksFirst(h: HartState, bps: seq<bv64>, tick: HartState -> TickResult, fuel: nat)
    requires tick(h).result.Ok? && tick(h).hart.pc in bps
    ensures AfterVcont(h, bps, Continue, tick, fuel) == (tick(h).hart, Some(Ok(Signal(SIGTRAP))))
  {
  }

  /** Step and StepWithSignal tick exactly once and report SIGTRAP or the
      given signal; the other actions are not implemented and leave the hart. */
  lemma StepTicksOnce(h: HartState, bps: seq<bv64>, tick: HartState -> TickResult, fuel: nat, sig: bv8, start: bv64, end: bv64)
    requires tick(h).result.Ok?
    ensures AfterVcont(h, bps, Step, tick, fuel) == (tick(h).hart, Some(Ok(Signal(SIGTRAP))))
    ensures AfterVcont(h, bps, StepWithSignal(sig), tick, fuel) == (tick(h).hart, Some(Ok(Signal(sig))))
    ensures AfterVcont(h, bps, Stop, tick, fuel) == (h, Some(Err(Error.Unimplemented)))
    ensures AfterVcont(h, bps, ContinueWithSignal(sig), tick, fuel) == (h, Some(Err(Error.Unimplemented)))
    ensures AfterVcont(h, bps, RangeStep(start, end), tick, fuel) == (h, Some(Err(Error.Unimplemented)))
  {
  }
}
