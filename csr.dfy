/**
 * The control and status register bank of src/csr.rs: 4096 64-bit slots
 * behind a table that gives each implemented CSR a name and a read and a
 * write handler. Unlisted CSRs read 0 and ignore writes; the supervisor,
 * hypervisor and unprivileged entries are no-ops; machine CSRs read and
 * write their slot, except that mtvec is legalised on read (WARL, section
 * 3.1.7 of the RISC-V Privileged manual).
 */
module Csr {
  import opened Wrappers

  const XLEN: bv64 := 32
  const NUM_CSRS: nat := 4096

  const MSTATUS: nat := 0x300
  const MISA: nat := 0x301
  const MEDELEG: nat := 0x301
  const MTVEC: nat := 0x305
  const MSCRATCH: nat := 0x340
  const MVENDORID: nat := 0xF11
  const MARCHID: nat := 0xF12
  const MIMPID: nat := 0xF13
  const MHARTID: nat := 0xF14
  const MCYCLE: nat := 0xB00
  const MINSTRET: nat := 0xB02
  const SATP: nat := 0x180

  /** The read handlers of the table. */
  datatype ReadFn = HandleNop | ReadAny | ReadMtvec

  /** The write handlers of the table. */
  datatype WriteFn = HandleNopWr | WriteAny

  datatype Entry = Entry(num: nat, name: string, read: ReadFn, write: WriteFn)

  /** Entries of the unprivileged floating point. */
  const UNPRIV_FLOAT: seq<Entry> := [
    Entry(0x001, "fflags", HandleNop, HandleNopWr),
    Entry(0x002, "frm", HandleNop, HandleNopWr),
    Entry(0x003, "fcsr", HandleNop, HandleNopWr)
  ]

  /** Entries of the unprivileged counters and timers. */
  const UNPRIV_COUNTERS: seq<Entry> := [
    Entry(0xC00, "cycle", HandleNop, HandleNopWr),
    Entry(0xC01, "time", HandleNop, HandleNopWr),
    Entry(0xC02, "instret", HandleNop, HandleNopWr),
    Entry(0xC03, "hpmcounter3", HandleNop, HandleNopWr),
    Entry(0xC04, "hpmcounter4", HandleNop, HandleNopWr),
    Entry(0xC1F, "hpmcounter31", HandleNop, HandleNopWr),
    Entry(0xC80, "cycleeh", HandleNop, HandleNopWr),
    Entry(0xC81, "intreth", HandleNop, HandleNopWr),
    Entry(0xC82, "hpmcounter3h", HandleNop, HandleNopWr),
    Entry(0xC83, "hpmcounter4h", HandleNop, HandleNopWr),
    Entry(0xC9F, "hpmcounter31h", HandleNop, HandleNopWr)
  ]

  /** Entries of the supervisor trap setup, configuration, trap handling, translation and debug. */
  const SUPERVISOR: seq<Entry> := [
    Entry(0x100, "sstatus", HandleNop, HandleNopWr),
    Entry(0x104, "sie", HandleNop, HandleNopWr),
    Entry(0x105, "stvec", HandleNop, HandleNopWr),
    Entry(0x106, "scounteren", HandleNop, HandleNopWr),
    Entry(0x10A, "sevncfg", HandleNop, HandleNopWr),
    Entry(0x140, "sscratch", HandleNop, HandleNopWr),
    Entry(0x141, "sepc", HandleNop, HandleNopWr),
    Entry(0x142, "scause", HandleNop, HandleNopWr),
    Entry(0x143, "stval", HandleNop, HandleNopWr),
    Entry(0x144, "sip", HandleNop, HandleNopWr),
    Entry(SATP, "satp", HandleNop, HandleNopWr),
    Entry(0x5A8, "scontext", HandleNop, HandleNopWr)
  ]

  /** Entries of the hypervisor trap setup and handling, configuration, translation, debug and timer virtualisation. */
  const HYPERVISOR: seq<Entry> := [
    Entry(0x600, "hstatus", HandleNop, HandleNopWr),
    Entry(0x602, "hedeleg", HandleNop, HandleNopWr),
    Entry(0x603, "hideleg", HandleNop, HandleNopWr),
    Entry(0x604, "hie", HandleNop, HandleNopWr),
    Entry(0x606, "hcounteren", HandleNop, HandleNopWr),
    Entry(0x607, "hgeie", HandleNop, HandleNopWr),
    Entry(0x643, "htval", HandleNop, HandleNopWr),
    Entry(0x644, "hip", HandleNop, HandleNopWr),
    Entry(0x645, "hvpi", HandleNop, HandleNopWr),
    Entry(0x64A, "htinst", HandleNop, HandleNopWr),
    Entry(0x6E12, "hgeip", HandleNop, HandleNopWr),
    Entry(0x60A, "henvcfg", HandleNop, HandleNopWr),
    Entry(0x61A, "henvcfgh", HandleNop, HandleNopWr),
    Entry(0x680, "hgatp", HandleNop, HandleNopWr),
    Entry(0x6A8, "hcontext", HandleNop, HandleNopWr),
    Entry(0x605, "htimedelta", HandleNop, HandleNopWr),
    Entry(0x615, "htimedeltah", HandleNop, HandleNopWr)
  ]

  /** Entries of the hypervisor virtual supervisor registers. */
  const VIRTUAL_SUPERVISOR: seq<Entry> := [
    Entry(0x200, "vsstatus", HandleNop, HandleNopWr),
    Entry(0x204, "vsie", HandleNop, HandleNopWr),
    Entry(0x205, "vstvec", HandleNop, HandleNopWr),
    Entry(0x240, "vsscratch", HandleNop, HandleNopWr),
    Entry(0x241, "vsepc", HandleNop, HandleNopWr),
    Entry(0x242, "vscause", HandleNop, HandleNopWr),
    Entry(0x243, "vstval", HandleNop, HandleNopWr),
    Entry(0x244, "vsip", HandleNop, HandleNopWr),
    Entry(0x280, "vsatp", HandleNop, HandleNopWr)
  ]

  /** Entries of the machine information registers. */
  const MACHINE_INFO: seq<Entry> := [
    Entry(MVENDORID, "mvendorid", ReadAny, WriteAny),
    Entry(MARCHID, "marchid", ReadAny, WriteAny),
    Entry(MIMPID, "mimpid", ReadAny, WriteAny),
    Entry(MHARTID, "mhartid", ReadAny, WriteAny),
    Entry(0xF15, "mconfigptr", ReadAny, WriteAny)
  ]

  /** Entries of the machine trap setup. */
  const MACHINE_TRAP_SETUP: seq<Entry> := [
    Entry(MSTATUS, "mstatus", ReadAny, WriteAny),
    Entry(MISA, "misa", ReadAny, WriteAny),
    Entry(MEDELEG, "medeleg", ReadAny, WriteAny),
    Entry(0x303, "mideleg", ReadAny, WriteAny),
    Entry(0x304, "mie", ReadAny, WriteAny),
    Entry(MTVEC, "mtvec", ReadMtvec, WriteAny),
    Entry(0x306, "mcounteren", ReadAny, WriteAny),
    Entry(0x310, "mstatush", ReadAny, WriteAny)
  ]

  /** Entries of the machine trap handling. */
  const MACHINE_TRAP_HANDLING: seq<Entry> := [
    Entry(MSCRATCH, "mscratch", ReadAny, WriteAny),
    Entry(0x341, "mepc", ReadAny, WriteAny),
    Entry(0x342, "mcause", ReadAny, WriteAny),
    Entry(0x343, "mtval", ReadAny, WriteAny),
    Entry(0x344, "mip", ReadAny, WriteAny),
    Entry(0x34A, "minst", ReadAny, WriteAny),
    Entry(0x34B, "mtval2", ReadAny, WriteAny)
  ]

  /** Entries of the machine configuration. */
  const MACHINE_CONFIG: seq<Entry> := [
    Entry(0x30A, "menvcfg", ReadAny, WriteAny),
    Entry(0x31A, "menvcfgh", ReadAny, WriteAny),
    Entry(0x347, "mseccfg", ReadAny, WriteAny),
    Entry(0x357, "mseccfgh", ReadAny, WriteAny)
  ]

  /** Entries of the machine memory protection. */
  const MACHINE_PMP: seq<Entry> := [
    Entry(0x3A0, "pmpcfg0", ReadAny, WriteAny),
    Entry(0x3AF, "pmpaddr0", ReadAny, WriteAny),
    Entry(0x3EF, "pmpaddr63", ReadAny, WriteAny)
  ]

  /** Entries of the machine counters and timers. */
  const MACHINE_COUNTERS: seq<Entry> := [
    Entry(MCYCLE, "mcycle", ReadAny, WriteAny),
    Entry(MINSTRET, "minstret", ReadAny, WriteAny),
    Entry(0xB03, "mhpmcounter3", ReadAny, WriteAny),
    Entry(0xB1F, "mhpmcounter31", ReadAny, WriteAny),
    Entry(0xB80, "mcycleh", ReadAny, WriteAny),
    Entry(0xB82, "minstreth", ReadAny, WriteAny),
    Entry(0xB82, "mhpmcounter3h", ReadAny, WriteAny),
    Entry(0xB9F, "mhpmcounter31h", ReadAny, WriteAny)
  ]

  /** Entries of the machine counter setup. */
  const MACHINE_COUNTER_SETUP: seq<Entry> := [
    Entry(0x320, "mcountinhibit", ReadAny, WriteAny),
    Entry(0x323, "mhpmevent3", ReadAny, WriteAny),
    Entry(0x33F, "mhpmevent31", ReadAny, WriteAny)
  ]

  /** Entries of the machine debug/trace registers. */
  const MACHINE_TRIGGERS: seq<Entry> := [
    Entry(0x7A0, "tselect", ReadAny, WriteAny),
    Entry(0x7A1, "tdata1", ReadAny, WriteAny),
    Entry(0x7A2, "tdata2", ReadAny, WriteAny),
    Entry(0x7A3, "tdata3", ReadAny, WriteAny),
    Entry(0x7A4, "mcontext", ReadAny, WriteAny)
  ]

  /** Entries of the machine debug mode registers. */
  const MACHINE_DEBUG: seq<Entry> := [
    Entry(0x7B0, "dcsr", ReadAny, WriteAny),
    Entry(0x7B1, "dpc", ReadAny, WriteAny),
    Entry(0x7B2, "dscratch0", ReadAny, WriteAny),
    Entry(0x7B3, "dscratch1", ReadAny, WriteAny)
  ]

  /** The machine-mode part of the table: read_any/write_any, and read_mtvec for mtvec. */
  const MACHINE_MAP: seq<Entry> :=
    MACHINE_INFO + (MACHINE_TRAP_SETUP + (MACHINE_TRAP_HANDLING + (MACHINE_CONFIG +
    (MACHINE_PMP + (MACHINE_COUNTERS + (MACHINE_COUNTER_SETUP + (MACHINE_TRIGGERS + MACHINE_DEBUG)))))))

  /** CSR_MAP, the 99 rows as listed, in source order; the first entry for a number wins. */
  const CSR_MAP: seq<Entry> :=
    UNPRIV_FLOAT + (UNPRIV_COUNTERS + (SUPERVISOR + (HYPERVISOR + (VIRTUAL_SUPERVISOR + MACHINE_MAP))))

  /** The table search from entry k on: the first entry whose number is csr. */
  function FindFrom(t: seq<Entry>, csr: nat, k: nat): (r: Option<Entry>)
    requires k <= |t|
    decreases |t| - k
  {
    if k == |t| then None
    else if t[k].num == csr then Some(t[k])
    else FindFrom(t, csr, k + 1)
  }

  lemma FindFromStep(t: seq<Entry>, csr: nat, k: nat)
    requires k < |t| && t[k].num != csr
    ensures FindFrom(t, csr, k) == FindFrom(t, csr, k + 1)
  {
  }

  /** The search finds entry j when j carries csr and no earlier entry does. */
  lemma {:induction false} FindFromFirst(t: seq<Entry>, csr: nat, k: nat, j: nat)
    requires k <= j < |t| && t[j].num == csr
    requires forall m :: k <= m < j ==> t[m].num != csr
    ensures FindFrom(t, csr, k) == Some(t[j])
    decreases j - k
  {
    if k < j {
      FindFromFirst(t, csr, k + 1, j);
    }
  }

  lemma {:induction false} FindFromMissing(t: seq<Entry>, csr: nat, k: nat)
    requires k <= |t|
    requires forall m :: k <= m < |t| ==> t[m].num != csr
    ensures FindFrom(t, csr, k) == None
    decreases |t| - k
  {
    if k < |t| {
      FindFromMissing(t, csr, k + 1);
    }
  }

  lemma {:induction false} FindFromShift(a: seq<Entry>, b: seq<Entry>, csr: nat, j: nat)
    requires j <= |b|
    ensures FindFrom(a + b, csr, |a| + j) == FindFrom(b, csr, j)
    decreases |b| - j
  {
    if j < |b| {
      assert (a + b)[|a| + j] == b[j];
      FindFromShift(a, b, csr, j + 1);
    }
  }

  lemma {:induction false} FindFromAppend(a: seq<Entry>, b: seq<Entry>, csr: nat, k: nat)
    requires k <= |a|
    ensures FindFrom(a + b, csr, k) ==
      if FindFrom(a, csr, k).Some? then FindFrom(a, csr, k) else FindFrom(b, csr, 0)
    decreases |a| - k
  {
    if k == |a| {
      FindFromShift(a, b, csr, 0);
    } else {
      assert (a + b)[k] == a[k];
      FindFromAppend(a, b, csr, k + 1);
    }
  }

  /** Searching a concatenation searches the first part, then the second. */
  lemma FindAppend(a: seq<Entry>, b: seq<Entry>, csr: nat)
    ensures FindFrom(a + b, csr, 0) ==
      if FindFrom(a, csr, 0).Some? then FindFrom(a, csr, 0) else FindFrom(b, csr, 0)
  {
    FindFromAppend(a, b, csr, 0);
  }

  /** The numbers of the machine-mode CSRs the model looks up by name. */
  predicate MachineNum(n: nat)
  {
    (0x300 <= n < 0x400) || (0xF11 <= n <= 0xF15)
  }

  /** Every entry of t is a no-op outside the machine-mode numbers. */
  predicate AllNop(t: seq<Entry>)
  {
    forall m :: 0 <= m < |t| ==> t[m].read == HandleNop && t[m].write == HandleNopWr && !MachineNum(t[m].num)
  }

  /** Every entry of t reads its slot (possibly legalised) and writes it. */
  predicate AllAny(t: seq<Entry>)
  {
    forall m :: 0 <= m < |t| ==> t[m].read != HandleNop && t[m].write == WriteAny
  }

  /** handle_nop goes with handle_nop_wr, and only with it. */
  predicate Paired(t: seq<Entry>)
  {
    forall m :: 0 <= m < |t| ==> (t[m].read == HandleNop <==> t[m].write == HandleNopWr)
  }

  lemma NopFloat() ensures AllNop(UNPRIV_FLOAT) {}
  lemma NopCounters() ensures AllNop(UNPRIV_COUNTERS) {}
  lemma NopSupervisor() ensures AllNop(SUPERVISOR) {}
  lemma NopHypervisor() ensures AllNop(HYPERVISOR) {}
  lemma NopVirtualSupervisor() ensures AllNop(VIRTUAL_SUPERVISOR) {}

  /** The unprivileged, supervisor and hypervisor groups are all no-ops. */
  lemma NopGroups()
    ensures AllNop(UNPRIV_FLOAT) && AllNop(UNPRIV_COUNTERS) && AllNop(SUPERVISOR)
    ensures AllNop(HYPERVISOR) && AllNop(VIRTUAL_SUPERVISOR)
  {
    NopFloat();
    NopCounters();
    NopSupervisor();
    NopHypervisor();
    NopVirtualSupervisor();
  }

  lemma AnyGroups()
    ensures AllAny(MACHINE_INFO)
    ensures AllAny(MACHINE_TRAP_SETUP)
    ensures AllAny(MACHINE_TRAP_HANDLING)
    ensures AllAny(MACHINE_CONFIG)
    ensures AllAny(MACHINE_PMP)
    ensures AllAny(MACHINE_COUNTERS)
    ensures AllAny(MACHINE_COUNTER_SETUP)
    ensures AllAny(MACHINE_TRIGGERS)
    ensures AllAny(MACHINE_DEBUG)
  {
  }

  lemma PairedAppend(a: seq<Entry>, b: seq<Entry>)
    requires Paired(a) && Paired(b)
    ensures Paired(a + b)
  {
    forall m | 0 <= m < |a + b|
      ensures ((a + b)[m].read == HandleNop <==> (a + b)[m].write == HandleNopWr)
    {
      if m < |a| {
        assert (a + b)[m] == a[m];
      } else {
        assert (a + b)[m] == b[m - |a|];
      }
    }
  }

  /** A no-op group holds no machine-mode number, so the search passes it by. */
  lemma NopSkip(t: seq<Entry>, rest: seq<Entry>, csr: nat)
    requires AllNop(t) && MachineNum(csr)
    ensures FindFrom(t + rest, csr, 0) == FindFrom(rest, csr, 0)
  {
    FindAppend(t, rest, csr);
    FindFromMissing(t, csr, 0);
  }

  /** The entry that handles csr, if any. */
  function Find(csr: nat): Option<Entry>
  {
    FindFrom(CSR_MAP, csr, 0)
  }

  /** The search of `name` through table t from entry k on. */
  function NameFrom(t: seq<Entry>, csr: nat, k: nat): string
    requires k <= |t|
    decreases |t| - k
  {
    if k == |t| then "U"
    else if t[k].num == csr then t[k].name
    else NameFrom(t, csr, k + 1)
  }

  /** Csr::name: the name of the entry whose handlers serve csr, or "U" when
      no entry lists it. */
  function Name(csr: nat): (n: string)
    ensures Find(csr).Some? ==> n == Find(csr).value.name
    ensures Find(csr).None? ==> n == "U"
  {
    NameFromFind(CSR_MAP, csr, 0);
    NameFrom(CSR_MAP, csr, 0)
  }

  /** The name search and the handler search stop at the same entry. */
  lemma {:induction false} NameFromFind(t: seq<Entry>, csr: nat, k: nat)
    requires k <= |t|
    ensures FindFrom(t, csr, k).Some? ==> NameFrom(t, csr, k) == FindFrom(t, csr, k).value.name
    ensures FindFrom(t, csr, k).None? ==> NameFrom(t, csr, k) == "U"
    decreases |t| - k
  {
    if k < |t| && t[k].num != csr {
      NameFromFind(t, csr, k + 1);
    }
  }

  /** name(csr) is the name of the entry that handles csr, or "U" when none does. */
  lemma NameSpec(csr: nat)
    ensures Find(csr).Some? ==> Name(csr) == Find(csr).value.name
    ensures Find(csr).None? ==> Name(csr) == "U"
  {
    NameFromFind(CSR_MAP, csr, 0);
  }

  /** read_mtvec: the stored value with mode bit 1 and base bits 2..3
      cleared, so that mode is 0 or 1 and the base is 16-byte aligned. */
  function LegalMtvec(val: bv64): (r: bv64)
    ensures r == val & !0xE
    ensures r & 0x3 <= 1
    ensures (r >> 2) & 0x3 == 0
  {
    var base := val >> 2;
    var mode := val & 0x3;
    var mode := mode & 0x1;
    var base := (base >> 2) << 2;
    (base << 2) | mode
  }

  /** Csr::read on the slot contents s. */
  function ReadOf(s: seq<bv64>, csr: nat): bv64
    requires |s| == NUM_CSRS && csr < NUM_CSRS
  {
    match Find(csr)
    case None => 0
    case Some(e) =>
      match e.read
      case HandleNop => 0
      case ReadAny => s[csr]
      case ReadMtvec => LegalMtvec(s[csr])
  }

  /** Csr::write on the slot contents s. */
  function WriteOf(s: seq<bv64>, csr: nat, val: bv64): seq<bv64>
    requires |s| == NUM_CSRS && csr < NUM_CSRS
  {
    match Find(csr)
    case None => s
    case Some(e) =>
      match e.write
      case HandleNopWr => s
      case WriteAny => s[csr := val]
  }

  /** The slots after Csr::new(id), assignment by assignment. */
  function NewCsrs(id: bv64): seq<bv64>
  {
    seq(NUM_CSRS, _ => 0 as bv64)
      [MISA := (0x1 << (XLEN - 2)) | (1 << 8)]
      [MVENDORID := 0]
      [MARCHID := 0]
      [MIMPID := 1]
      [MHARTID := id]
      [MEDELEG := 0]
      [MSTATUS := 0]
      [MCYCLE := 0]
      [MINSTRET := 0]
  }

  class Csr {
    var csrs: array<bv64>

    predicate Valid()
      reads this
    {
      csrs.Length == NUM_CSRS
    }

    /** Csr::new(id). */
    constructor(id: bv64)
      ensures Valid() && fresh(csrs)
      ensures csrs[..] == NewCsrs(id)
    {
      csrs := new bv64[NUM_CSRS](_ => 0);
      new;
      assert csrs[..] == seq(NUM_CSRS, _ => 0 as bv64);
      csrs[MISA] := (0x1 << (XLEN - 2)) | (1 << 8);
      csrs[MVENDORID] := 0;
      csrs[MARCHID] := 0;
      csrs[MIMPID] := 1;
      csrs[MHARTID] := id;
      csrs[MEDELEG] := 0;
      csrs[MSTATUS] := 0;
      csrs[MCYCLE] := 0;
      csrs[MINSTRET] := 0;
    }

    /** Csr::read; the number must index the slots, as the log line does. An
        unlisted CSR reads 0, misa reads its slot, and mtvec reads its slot
        legalised: mode 0 or 1, base 16-byte aligned. */
    function Read(csr: nat): (r: bv64)
      reads this, csrs
      requires Valid() && csr < NUM_CSRS
      ensures (forall m :: 0 <= m < |CSR_MAP| ==> CSR_MAP[m].num != csr) ==> r == 0
      ensures csr == MISA ==> r == csrs[MISA]
      ensures csr == MTVEC ==> r == LegalMtvec(csrs[MTVEC]) && r & 0x3 <= 1 && (r >> 2) & 0x3 == 0
    {
      FindMisa();
      FindMtvec();
      if forall m :: 0 <= m < |CSR_MAP| ==> CSR_MAP[m].num != csr then
        AbsentCsr(csrs[..], csr, 0);
        ReadOf(csrs[..], csr)
      else
        ReadOf(csrs[..], csr)
    }

    /** Csr::write: search the table and apply the first matching handler. */
    method Write(csr: nat, val: bv64)
      requires Valid() && csr < NUM_CSRS
      modifies csrs
      ensures csrs[..] == WriteOf(old(csrs[..]), csr, val)
    {
      var k := 0;
      while k < |CSR_MAP|
        invariant 0 <= k <= |CSR_MAP|
        invariant FindFrom(CSR_MAP, csr, k) == Find(csr)
        invariant csrs[..] == old(csrs[..])
        decreases |CSR_MAP| - k
      {
        if CSR_MAP[k].num == csr {
          match CSR_MAP[k].write {
            case HandleNopWr =>
            case WriteAny => csrs[csr] := val;
          }
          return;
        }
        FindFromStep(CSR_MAP, csr, k);
        k := k + 1;
      }
    }
  }

  /** Legalising mtvec twice is legalising it once. */
  lemma LegalMtvecIdempotent(val: bv64)
    ensures LegalMtvec(LegalMtvec(val)) == LegalMtvec(val)
  {
  }

  /** Every entry of the table pairs handle_nop with handle_nop_wr and a real
      reader with write_any. */
  lemma HandlerPairs()
    ensures Paired(CSR_MAP)
  {
    NopGroups();
    AnyGroups();
    PairedAppend(MACHINE_TRIGGERS, MACHINE_DEBUG);
    PairedAppend(MACHINE_COUNTER_SETUP, MACHINE_TRIGGERS + MACHINE_DEBUG);
    PairedAppend(MACHINE_COUNTERS, MACHINE_COUNTER_SETUP + (MACHINE_TRIGGERS + MACHINE_DEBUG));
    PairedAppend(MACHINE_PMP, MACHINE_COUNTERS + (MACHINE_COUNTER_SETUP + (MACHINE_TRIGGERS + MACHINE_DEBUG)));
    PairedAppend(MACHINE_CONFIG, MACHINE_PMP + (MACHINE_COUNTERS + (MACHINE_COUNTER_SETUP + (MACHINE_TRIGGERS + MACHINE_DEBUG))));
    PairedAppend(MACHINE_TRAP_HANDLING, MACHINE_CONFIG + (MACHINE_PMP + (MACHINE_COUNTERS + (MACHINE_COUNTER_SETUP + (MACHINE_TRIGGERS + MACHINE_DEBUG)))));
    PairedAppend(MACHINE_TRAP_SETUP, MACHINE_TRAP_HANDLING + (MACHINE_CONFIG + (MACHINE_PMP + (MACHINE_COUNTERS + (MACHINE_COUNTER_SETUP + (MACHINE_TRIGGERS + MACHINE_DEBUG))))));
    PairedAppend(MACHINE_INFO, MACHINE_TRAP_SETUP + (MACHINE_TRAP_HANDLING + (MACHINE_CONFIG + (MACHINE_PMP + (MACHINE_COUNTERS + (MACHINE_COUNTER_SETUP + (MACHINE_TRIGGERS + MACHINE_DEBUG)))))));
    PairedAppend(VIRTUAL_SUPERVISOR, MACHINE_MAP);
    PairedAppend(HYPERVISOR, VIRTUAL_SUPERVISOR + MACHINE_MAP);
    PairedAppend(SUPERVISOR, HYPERVISOR + (VIRTUAL_SUPERVISOR + MACHINE_MAP));
    PairedAppend(UNPRIV_COUNTERS, SUPERVISOR + (HYPERVISOR + (VIRTUAL_SUPERVISOR + MACHINE_MAP)));
    PairedAppend(UNPRIV_FLOAT, UNPRIV_COUNTERS + (SUPERVISOR + (HYPERVISOR + (VIRTUAL_SUPERVISOR + MACHINE_MAP))));
  }

  /** An unlisted CSR reads 0 and a write to it changes nothing. */
  lemma AbsentCsr(s: seq<bv64>, csr: nat, val: bv64)
    requires |s| == NUM_CSRS && csr < NUM_CSRS
    requires forall m :: 0 <= m < |CSR_MAP| ==> CSR_MAP[m].num != csr
    ensures ReadOf(s, csr) == 0 && WriteOf(s, csr, val) == s
  {
    FindFromMissing(CSR_MAP, csr, 0);
  }

  /** No entry of t has the number csr. */
  predicate Lacks(t: seq<Entry>, csr: nat)
  {
    forall m :: 0 <= m < |t| ==> t[m].num != csr
  }

  lemma LacksAppend(a: seq<Entry>, b: seq<Entry>, csr: nat)
    requires Lacks(a, csr) && Lacks(b, csr)
    ensures Lacks(a + b, csr)
  {
    forall m | 0 <= m < |a + b|
      ensures (a + b)[m].num != csr
    {
      if m < |a| {
        assert (a + b)[m] == a[m];
      } else {
        assert (a + b)[m] == b[m - |a|];
      }
    }
  }

  /** A number no part of the table lists is absent from the whole table. */
  lemma LacksTable(csr: nat)
    requires Lacks(UNPRIV_FLOAT, csr) && Lacks(UNPRIV_COUNTERS, csr) && Lacks(SUPERVISOR, csr)
    requires Lacks(HYPERVISOR, csr) && Lacks(VIRTUAL_SUPERVISOR, csr) && Lacks(MACHINE_INFO, csr)
    requires Lacks(MACHINE_TRAP_SETUP, csr) && Lacks(MACHINE_TRAP_HANDLING, csr)
    requires Lacks(MACHINE_CONFIG, csr) && Lacks(MACHINE_PMP, csr) && Lacks(MACHINE_COUNTERS, csr)
    requires Lacks(MACHINE_COUNTER_SETUP, csr) && Lacks(MACHINE_TRIGGERS, csr) && Lacks(MACHINE_DEBUG, csr)
    ensures Lacks(CSR_MAP, csr)
  {
    LacksAppend(MACHINE_TRIGGERS, MACHINE_DEBUG, csr);
    LacksAppend(MACHINE_COUNTER_SETUP, MACHINE_TRIGGERS + MACHINE_DEBUG, csr);
    LacksAppend(MACHINE_COUNTERS, MACHINE_COUNTER_SETUP + (MACHINE_TRIGGERS + MACHINE_DEBUG), csr);
    LacksAppend(MACHINE_PMP, MACHINE_COUNTERS + (MACHINE_COUNTER_SETUP + (MACHINE_TRIGGERS + MACHINE_DEBUG)), csr);
    LacksAppend(MACHINE_CONFIG, MACHINE_PMP + (MACHINE_COUNTERS + (MACHINE_COUNTER_SETUP + (MACHINE_TRIGGERS + MACHINE_DEBUG))), csr);
    LacksAppend(MACHINE_TRAP_HANDLING, MACHINE_CONFIG + (MACHINE_PMP + (MACHINE_COUNTERS + (MACHINE_COUNTER_SETUP + (MACHINE_TRIGGERS + MACHINE_DEBUG)))), csr);
    LacksAppend(MACHINE_TRAP_SETUP, MACHINE_TRAP_HANDLING + (MACHINE_CONFIG + (MACHINE_PMP + (MACHINE_COUNTERS + (MACHINE_COUNTER_SETUP + (MACHINE_TRIGGERS + MACHINE_DEBUG))))), csr);
    LacksAppend(MACHINE_INFO, MACHINE_TRAP_SETUP + (MACHINE_TRAP_HANDLING + (MACHINE_CONFIG + (MACHINE_PMP + (MACHINE_COUNTERS + (MACHINE_COUNTER_SETUP + (MACHINE_TRIGGERS + MACHINE_DEBUG)))))), csr);
    LacksAppend(VIRTUAL_SUPERVISOR, MACHINE_MAP, csr);
    LacksAppend(HYPERVISOR, VIRTUAL_SUPERVISOR + MACHINE_MAP, csr);
    LacksAppend(SUPERVISOR, HYPERVISOR + (VIRTUAL_SUPERVISOR + MACHINE_MAP), csr);
    LacksAppend(UNPRIV_COUNTERS, SUPERVISOR + (HYPERVISOR + (VIRTUAL_SUPERVISOR + MACHINE_MAP)), csr);
    LacksAppend(UNPRIV_FLOAT, UNPRIV_COUNTERS + (SUPERVISOR + (HYPERVISOR + (VIRTUAL_SUPERVISOR + MACHINE_MAP))), csr);
  }

  /** The table has the 99 rows the array declares. The rows its `//...`
      lines stand for are not among them: pmpaddr1 (0x3B0) and mhpmcounter4
      (0xB04) read 0 and ignore writes. */
  lemma ElidedRowsAbsent(s: seq<bv64>, val: bv64)
    requires |s| == NUM_CSRS
    ensures |CSR_MAP| == 99
    ensures ReadOf(s, 0x3B0) == 0 && WriteOf(s, 0x3B0, val) == s
    ensures ReadOf(s, 0xB04) == 0 && WriteOf(s, 0xB04, val) == s
  {
    LacksTable(0x3B0);
    AbsentCsr(s, 0x3B0, val);
    LacksTable(0xB04);
    AbsentCsr(s, 0xB04, val);
  }

  /** The entry the search returns is an entry of the table for that number. */
  lemma {:induction false} FindFromIn(t: seq<Entry>, csr: nat, k: nat)
    requires k <= |t|
    ensures FindFrom(t, csr, k).Some? ==> FindFrom(t, csr, k).value.num == csr
    ensures FindFrom(t, csr, k).Some? ==> exists j :: k <= j < |t| && t[j] == FindFrom(t, csr, k).value
    decreases |t| - k
  {
    if k < |t| && t[k].num != csr {
      FindFromIn(t, csr, k + 1);
    }
  }

  /** A no-op CSR reads 0 and a write to it leaves every slot unchanged. */
  lemma NopCsr(s: seq<bv64>, csr: nat, val: bv64)
    requires |s| == NUM_CSRS && csr < NUM_CSRS
    requires Find(csr).Some? && Find(csr).value.read == HandleNop
    ensures ReadOf(s, csr) == 0 && WriteOf(s, csr, val) == s
  {
    HandlerPairs();
    FindFromIn(CSR_MAP, csr, 0);
  }

  /** A write changes no slot but its own. */
  lemma WriteFrame(s: seq<bv64>, csr: nat, val: bv64, i: nat)
    requires |s| == NUM_CSRS && csr < NUM_CSRS && i < NUM_CSRS && i != csr
    ensures WriteOf(s, csr, val)[i] == s[i]
  {
  }

  /** Write then read: read_any/write_any CSRs return the value written,
      mtvec its legalised form, and every other CSR 0. */
  lemma WriteRead(s: seq<bv64>, csr: nat, val: bv64)
    requires |s| == NUM_CSRS && csr < NUM_CSRS
    ensures Find(csr).Some? && Find(csr).value.read == ReadAny ==> ReadOf(WriteOf(s, csr, val), csr) == val
    ensures Find(csr).Some? && Find(csr).value.read == ReadMtvec ==> ReadOf(WriteOf(s, csr, val), csr) == LegalMtvec(val)
    ensures Find(csr).None? || Find(csr).value.read == HandleNop ==> ReadOf(WriteOf(s, csr, val), csr) == 0
  {
    HandlerPairs();
    FindFromIn(CSR_MAP, csr, 0);
  }

  /** A machine-mode number is looked up in the machine part of the table. */
  lemma FindMachine(csr: nat)
    requires MachineNum(csr)
    ensures Find(csr) == FindFrom(MACHINE_MAP, csr, 0)
  {
    NopGroups();
    NopSkip(VIRTUAL_SUPERVISOR, MACHINE_MAP, csr);
    NopSkip(HYPERVISOR, VIRTUAL_SUPERVISOR + MACHINE_MAP, csr);
    NopSkip(SUPERVISOR, HYPERVISOR + (VIRTUAL_SUPERVISOR + MACHINE_MAP), csr);
    NopSkip(UNPRIV_COUNTERS, SUPERVISOR + (HYPERVISOR + (VIRTUAL_SUPERVISOR + MACHINE_MAP)), csr);
    NopSkip(UNPRIV_FLOAT, UNPRIV_COUNTERS + (SUPERVISOR + (HYPERVISOR + (VIRTUAL_SUPERVISOR + MACHINE_MAP))), csr);
  }

  /** A trap-setup number is found in the trap-setup group. */
  lemma FindTrapSetup(csr: nat, j: nat)
    requires j < |MACHINE_TRAP_SETUP| && MACHINE_TRAP_SETUP[j].num == csr
    requires forall m :: 0 <= m < j ==> MACHINE_TRAP_SETUP[m].num != csr
    ensures Find(csr) == Some(MACHINE_TRAP_SETUP[j])
  {
    var rest := MACHINE_TRAP_HANDLING + (MACHINE_CONFIG + (MACHINE_PMP + (MACHINE_COUNTERS +
      (MACHINE_COUNTER_SETUP + (MACHINE_TRIGGERS + MACHINE_DEBUG)))));
    FindMachine(csr);
    FindAppend(MACHINE_INFO, MACHINE_TRAP_SETUP + rest, csr);
    FindFromMissing(MACHINE_INFO, csr, 0);
    FindAppend(MACHINE_TRAP_SETUP, rest, csr);
    FindFromFirst(MACHINE_TRAP_SETUP, csr, 0, j);
  }

  /** An information-register number is found in the first machine group. */
  lemma FindInfo(csr: nat, j: nat)
    requires j < |MACHINE_INFO| && MACHINE_INFO[j].num == csr
    ensures Find(csr) == Some(MACHINE_INFO[j])
  {
    var rest := MACHINE_TRAP_SETUP + (MACHINE_TRAP_HANDLING + (MACHINE_CONFIG + (MACHINE_PMP + (MACHINE_COUNTERS +
      (MACHINE_COUNTER_SETUP + (MACHINE_TRIGGERS + MACHINE_DEBUG))))));
    FindMachine(csr);
    FindAppend(MACHINE_INFO, rest, csr);
    FindFromFirst(MACHINE_INFO, csr, 0, j);
  }

  /** mtvec is handled by read_mtvec and write_any. */
  lemma FindMtvec()
    ensures Find(MTVEC) == Some(Entry(MTVEC, "mtvec", ReadMtvec, WriteAny))
  {
    FindTrapSetup(MTVEC, 5);
  }

  /** A write to mtvec stores the raw value; the read returns it legalised. */
  lemma MtvecWriteRead(s: seq<bv64>, val: bv64)
    requires |s| == NUM_CSRS
    ensures WriteOf(s, MTVEC, val)[MTVEC] == val
    ensures ReadOf(WriteOf(s, MTVEC, val), MTVEC) == LegalMtvec(val)
  {
    FindMtvec();
  }

  /** MISA and MEDELEG share the number 0x301, so the misa entry shadows medeleg. */
  lemma FindMisa()
    ensures Find(MISA) == Some(Entry(MISA, "misa", ReadAny, WriteAny))
    ensures Name(MEDELEG) == "misa"
  {
    FindTrapSetup(MISA, 1);
    NameSpec(MEDELEG);
  }

  /** The slots after new(id): mhartid holds id, mimpid 1, every other slot 0. */
  lemma NewSlots(id: bv64, i: nat)
    requires i < NUM_CSRS
    ensures NewCsrs(id)[i] == if i == MHARTID then id else if i == MIMPID then 1 else 0
  {
  }

  /** Through read: mhartid is id, mimpid is 1, and misa is 0, because the
      MEDELEG assignment overwrites the RV32I value just stored there. */
  lemma NewReads(id: bv64)
    ensures ReadOf(NewCsrs(id), MHARTID) == id
    ensures ReadOf(NewCsrs(id), MIMPID) == 1
    ensures ReadOf(NewCsrs(id), MISA) == 0
  {
    FindInfo(MHARTID, 3);
    FindInfo(MIMPID, 2);
    FindMisa();
    NewSlots(id, MHARTID);
    NewSlots(id, MIMPID);
    NewSlots(id, MISA);
  }

  /** The number medeleg has in the Privileged manual. */
  const MEDELEG_FIXED: nat := 0x302

  /** new(id) with medeleg at its own number. */
  function NewCsrsFixed(id: bv64): seq<bv64>
  {
    seq(NUM_CSRS, _ => 0 as bv64)
      [MISA := (0x1 << (XLEN - 2)) | (1 << 8)]
      [MVENDORID := 0]
      [MARCHID := 0]
      [MIMPID := 1]
      [MHARTID := id]
      [MEDELEG_FIXED := 0]
      [MSTATUS := 0]
      [MCYCLE := 0]
      [MINSTRET := 0]
  }

  /** With medeleg at 0x302, misa reads MXL = 1 (32-bit, bits 31:30) with
      extension I (bit 8), as the comment "RV32 I" in new intends. */
  lemma NewFixedMisa(id: bv64)
    ensures ReadOf(NewCsrsFixed(id), MISA) == 0x4000_0100
    ensures ReadOf(NewCsrsFixed(id), MISA) >> 30 == 1
    ensures (ReadOf(NewCsrsFixed(id), MISA) >> 8) & 1 == 1
  {
    FindMisa();
  }
}
