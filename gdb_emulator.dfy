/**
 * The hart thread of the gdbstub front end (src/gdb/emulator.rs): run_hart
 * owns the hart, the breakpoint list and the execution mode, takes debugger
 * commands from a channel and ticks the hart while the mode lets it. The
 * channel is a sequence of receive results, the hart's step is the function
 * `tick`, and the reply to ReadRegisters is returned instead of sent.
 */
module GdbEmulator {
  import opened Wrappers
  import opened GdbTarget

  datatype ExecutionMode = Continue | Halt | Step

  /** The commands the debugger thread sends. */
  datatype EmulationCommand =
    | AddBreakpoint(addr: bv64)
    | RemoveBreakpoint(addr: bv64)
    | ReadRegisters
    | SetRegisters(values: seq<bv64>)
    | ReadMemory(addr: bv64, len: bv64)
    | WriteMemory(addr: bv64, data: seq<bv8>)
    | Resume
    | SetResumeAction(mode: ExecutionMode)
    | ClearResumeAction

  /** What a receive on the command channel gives. */
  datatype Received = Command(cmd: EmulationCommand) | Empty | Disconnected

  /** The locals of run_hart. */
  datatype Session = Session(hart: HartState, breakpoints: seq<bv64>, mode: ExecutionMode)

  /** What one pass of the loop did. */
  datatype Outcome = Waited | Ticked | Exited(fault: Fault)

  /** run_hart's starting point: halted, with no breakpoints. */
  function Start(hart: HartState): Session
  {
    Session(hart, [], ExecutionMode.Halt)
  }

  /** SetRegisters indexes the values 0 to 32, and panics on fewer. */
  predicate Accepts(r: Received)
  {
    r.Command? && r.cmd.SetRegisters? ==> |r.cmd.values| >= 33
  }

  /** A command that leaves the execution mode alone. */
  predicate KeepsMode(r: Received)
  {
    !(r.Command? && (r.cmd.SetResumeAction? || r.cmd.ClearResumeAction?))
  }

  /** The ReadRegisters reply: the pc, then x0 to x31. */
  function RegistersReply(h: HartState): seq<bv64>
  {
    [h.pc] + h.regs
  }

  /** The hart SetRegisters leaves: pc from values[0], x_i from values[i + 1]. */
  function LoadRegisters(values: seq<bv64>): HartState
    requires |values| >= 33
  {
    HartState(values[0], values[1..33])
  }

  /** handle_cmd: the locals after one received value, and the reply it sends.
      Only ReadRegisters replies, only SetRegisters touches the hart, only the
      breakpoint commands touch the breakpoints, and an empty or closed
      channel changes nothing. */
  function AfterCommand(s: Session, r: Received): (out: (Session, Option<seq<bv64>>))
    requires Accepts(r)
    ensures out.1.Some? <==> r == Command(ReadRegisters)
    ensures out.1.Some? ==> out.1.value == [s.hart.pc] + s.hart.regs
    ensures !(r.Command? && r.cmd.SetRegisters?) ==> out.0.hart == s.hart
    ensures !(r.Command? && (r.cmd.AddBreakpoint? || r.cmd.RemoveBreakpoint?)) ==> out.0.breakpoints == s.breakpoints
    ensures KeepsMode(r) ==> out.0.mode == s.mode
    ensures !r.Command? ==> out == (s, None)
  {
    match r
    case Command(cmd) =>
      (match cmd
       case AddBreakpoint(addr) => (s.(breakpoints := s.breakpoints + [addr]), None)
       case RemoveBreakpoint(addr) => (s.(breakpoints := Retain(s.breakpoints, addr)), None)
       case ReadRegisters => (s, Some(RegistersReply(s.hart)))
       case SetRegisters(values) => (s.(hart := LoadRegisters(values)), None)
       case SetResumeAction(m) => (s.(mode := m), None)
       case ClearResumeAction => (s.(mode := Continue), None)
       case _ => (s, None))
    case _ => (s, None)
  }

  /** A pc on a breakpoint halts execution. */
  function CheckBreakpoints(s: Session): Session
  {
    if s.hart.pc in s.breakpoints then s.(mode := ExecutionMode.Halt) else s
  }

  /** One pass of run_hart's loop: handle a command, halt on a breakpoint,
      then tick unless halted, a step turning into a halt. */
  function AfterIteration(s: Session, r: Received, tick: HartState -> TickResult): (Session, Outcome)
    requires Accepts(r)
  {
    var checked := CheckBreakpoints(AfterCommand(s, r).0);
    if checked.mode == ExecutionMode.Halt then (checked, Waited)
    else
      var ticking := if checked.mode == Step then checked.(mode := ExecutionMode.Halt) else checked;
      var t := tick(ticking.hart);
      (ticking.(hart := t.hart), if t.result.Ok? then Ticked else Exited(t.result.error))
  }

  /** The loop over the received values from s, with ticks counted so far: the
      final locals, the ticks, and the fault that ended the loop, if any. */
  function AfterRun(s: Session, rs: seq<Received>, tick: HartState -> TickResult, ticks: nat): (Session, nat, Option<Fault>)
    requires forall i :: 0 <= i < |rs| ==> Accepts(rs[i])
    decreases |rs|
  {
    if |rs| == 0 then (s, ticks, None)
    else
      var (next, o) := AfterIteration(s, rs[0], tick);
      match o
      case Waited => AfterRun(next, rs[1..], tick, ticks)
      case Ticked => AfterRun(next, rs[1..], tick, ticks + 1)
      case Exited(e) => (next, ticks + 1, Some(e))
  }

  class HartRunner {
    var hart: HartState
    var breakpoints: seq<bv64>
    var mode: ExecutionMode

    function Snapshot(): Session
      reads this
    {
      Session(hart, breakpoints, mode)
    }

    /** The start of run_hart: halted, with no breakpoints. */
    constructor (hart: HartState)
      ensures Snapshot() == Start(hart)
      ensures mode == ExecutionMode.Halt && breakpoints == []
    {
      this.hart := hart;
      breakpoints := [];
      mode := ExecutionMode.Halt;
    }

    /** handle_cmd. */
    method HandleCmd(r: Received) returns (reply: Option<seq<bv64>>)
      requires Accepts(r)
      modifies this
      ensures (Snapshot(), reply) == AfterCommand(old(Snapshot()), r)
    {
      reply := None;
      if r.Command? {
        match r.cmd
        case AddBreakpoint(addr) =>
          breakpoints := breakpoints + [addr];
        case RemoveBreakpoint(addr) =>
          breakpoints := Retain(breakpoints, addr);
        case ReadMemory(_, _) =>
        case WriteMemory(_, _) =>
        case Resume =>
        case ReadRegisters =>
          reply := Some([hart.pc] + hart.regs);
        case SetRegisters(values) =>
          SetRegisters(values);
        case SetResumeAction(m) =>
          mode := m;
        case ClearResumeAction =>
          mode := Continue;
      }
    }

    /** The SetRegisters arm: the pc, then each register in turn. */
    method SetRegisters(values: seq<bv64>)
      requires |values| >= 33
      modifies this
      ensures hart == LoadRegisters(values)
      ensures breakpoints == old(breakpoints) && mode == old(mode)
    {
      hart := hart.(pc := values[0]);
      for i := 0 to 32
        invariant hart.pc == values[0]
        invariant forall k :: 0 <= k < i ==> hart.regs[k] == values[k + 1]
        invariant breakpoints == old(breakpoints) && mode == old(mode)
      {
        hart := hart.(regs := hart.regs[i := values[i + 1]]);
      }
      assert hart.regs == values[1..33];
    }

    /** One pass of the loop. */
    method Iterate(r: Received, tick: HartState -> TickResult) returns (o: Outcome)
      requires Accepts(r)
      modifies this
      ensures (Snapshot(), o) == AfterIteration(old(Snapshot()), r, tick)
    {
      var _ := HandleCmd(r);
      if hart.pc in breakpoints {
        mode := ExecutionMode.Halt;
      }
      if mode == ExecutionMode.Halt {
        return Waited;
      } else if mode == Step {
        mode := ExecutionMode.Halt;
      }
      var t := tick(hart);
      hart := t.hart;
      o := if t.result.Ok? then Ticked else Exited(t.result.error);
    }

    /** run_hart over the received values: it stops when they run out or a
        tick faults. */
    method Run(rs: seq<Received>, tick: HartState -> TickResult) returns (ticks: nat, exit: Option<Fault>)
      requires forall i :: 0 <= i < |rs| ==> Accepts(rs[i])
      modifies this
      ensures (Snapshot(), ticks, exit) == AfterRun(old(Snapshot()), rs, tick, 0)
    {
      ticks := 0;
      exit := None;
      var i := 0;
      while i < |rs|
        invariant 0 <= i <= |rs|
        invariant AfterRun(old(Snapshot()), rs, tick, 0) == AfterRun(Snapshot(), rs[i..], tick, ticks)
        decreases |rs| - i
      {
        assert rs[i..][1..] == rs[i + 1..];
        var o := Iterate(rs[i], tick);
        if o.Exited? {
          return ticks + 1, Some(o.fault);
        } else if o == Ticked {
          ticks := ticks + 1;
        }
        i := i + 1;
      }
    }
  }

  // Properties of the commands.

  /** AddBreakpoint appends the address at the end, so it occurs once more,
      duplicates and all, and every other address as often as before. */
  lemma AddBreakpointAppends(s: Session, addr: bv64, other: bv64)
    requires other != addr
    ensures var after := AfterCommand(s, Command(AddBreakpoint(addr))).0.breakpoints;
            after == s.breakpoints + [addr]
            && Count(after, addr) == Count(s.breakpoints, addr) + 1
            && Count(after, other) == Count(s.breakpoints, other)
  {
    var after := s.breakpoints + [addr];
    CountConcat(s.breakpoints, [addr], addr);
    CountConcat(s.breakpoints, [addr], other);
  }

  /** RemoveBreakpoint drops every occurrence of the address, keeps every
      other address as often as before, and keeps their order. */
  lemma RemoveBreakpointRetains(s: Session, addr: bv64, other: bv64, a: seq<bv64>, b: seq<bv64>)
    requires other != addr
    ensures var after := AfterCommand(s, Command(RemoveBreakpoint(addr))).0.breakpoints;
            && addr !in after
            && Count(after, other) == Count(s.breakpoints, other)
            && (s.breakpoints == a + b ==> after == Retain(a, addr) + Retain(b, addr))
  {
    RetainKeepsOthers(s.breakpoints, addr, other);
    RetainConcat(a, b, addr);
  }

  /** SetResumeAction sets the mode, ClearResumeAction sets Continue, and
      ReadMemory, WriteMemory, Resume and an empty or failed receive change
      nothing and send nothing. */
  lemma ModeCommands(s: Session, m: ExecutionMode, addr: bv64, len: bv64, data: seq<bv8>)
    ensures AfterCommand(s, Command(SetResumeAction(m))) == (s.(mode := m), None)
    ensures AfterCommand(s, Command(ClearResumeAction)) == (s.(mode := Continue), None)
    ensures AfterCommand(s, Command(ReadMemory(addr, len))) == (s, None)
    ensures AfterCommand(s, Command(WriteMemory(addr, data))) == (s, None)
    ensures AfterCommand(s, Command(Resume)) == (s, None)
    ensures AfterCommand(s, Empty) == (s, None) && AfterCommand(s, Disconnected) == (s, None)
  {
  }

  /** ReadRegisters replies pc then x0 to x31, and SetRegisters with that
      reply restores the hart exactly. */
  lemma RegistersRoundTrip(s: Session, t: Session)
    ensures var reply := AfterCommand(s, Command(ReadRegisters)).1;
            && reply.Some? && |reply.value| == 33
            && reply.value[0] == s.hart.pc
            && (forall i :: 0 <= i < 32 ==> reply.value[i + 1] == s.hart.regs[i])
            && AfterCommand(t, Command(SetRegisters(reply.value))).0.hart == s.hart
  {
    var reply := RegistersReply(s.hart);
    assert reply[1..33] == s.hart.regs;
  }

  // Properties of the loop.

  /** A pc on a breakpoint halts before any tick: the pass only waits. */
  lemma BreakpointHaltsBeforeTick(s: Session, r: Received, tick: HartState -> TickResult)
    requires Accepts(r)
    requires var handled := AfterCommand(s, r).0; handled.hart.pc in handled.breakpoints
    ensures AfterIteration(s, r, tick) == (AfterCommand(s, r).0.(mode := ExecutionMode.Halt), Waited)
  {
  }

  /** Halt never ticks: the hart is left as the command left it. */
  lemma HaltNeverTicks(s: Session, r: Received, tick: HartState -> TickResult)
    requires Accepts(r) && AfterCommand(s, r).0.mode == ExecutionMode.Halt
    ensures AfterIteration(s, r, tick) == (AfterCommand(s, r).0, Waited)
  {
  }

  /** Off a breakpoint, Step ticks exactly once and becomes Halt, after which a
      pass whose command keeps the mode only waits. */
  lemma StepTicksOnce(s: Session, r: Received, next: Received, tick: HartState -> TickResult)
    requires Accepts(r) && Accepts(next) && KeepsMode(next)
    requires var handled := AfterCommand(s, r).0; handled.mode == Step && handled.hart.pc !in handled.breakpoints
    ensures var (after, o) := AfterIteration(s, r, tick);
            && o != Waited
            && after.hart == tick(AfterCommand(s, r).0.hart).hart
            && after.mode == ExecutionMode.Halt
            && AfterIteration(after, next, tick).1 == Waited
  {
    var after := AfterIteration(s, r, tick).0;
    assert AfterCommand(after, next).0.mode == ExecutionMode.Halt;
  }

  /** Off a breakpoint, Continue ticks and stays Continue. */
  lemma ContinueTicks(s: Session, r: Received, tick: HartState -> TickResult)
    requires Accepts(r)
    requires var handled := AfterCommand(s, r).0; handled.mode == Continue && handled.hart.pc !in handled.breakpoints
    ensures var (after, o) := AfterIteration(s, r, tick);
            && o != Waited
            && after.hart == tick(AfterCommand(s, r).0.hart).hart
            && after.mode == Continue
  {
  }

  /** A halted loop whose commands never set the mode never ticks. */
  lemma {:induction false} HaltedRunNeverTicks(s: Session, rs: seq<Received>, tick: HartState -> TickResult, ticks: nat)
    requires s.mode == ExecutionMode.Halt
    requires forall i :: 0 <= i < |rs| ==> Accepts(rs[i]) && KeepsMode(rs[i])
    ensures AfterRun(s, rs, tick, ticks).1 == ticks && AfterRun(s, rs, tick, ticks).2 == None
    ensures AfterRun(s, rs, tick, ticks).0.mode == ExecutionMode.Halt
    decreases |rs|
  {
    if |rs| > 0 {
      var next := AfterIteration(s, rs[0], tick).0;
      assert AfterCommand(s, rs[0]).0.mode == ExecutionMode.Halt;
      assert forall i :: 0 <= i < |rs[1..]| ==> rs[1..][i] == rs[i + 1];
      HaltedRunNeverTicks(next, rs[1..], tick, ticks);
    }
  }
}
