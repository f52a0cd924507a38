/**
 * Interrupt selection of src/clint.rs: the choice of the pending interrupt
 * from mip & mie, its gating by the machine interrupt-enable bit of
 * mstatus, and the stateless core-local interruptor device. The CSR bank is
 * reached through a read function, since the mip and mie numbers the source
 * reads are not defined by the CSR file it imports.
 */
module Clint {
  import opened Wrappers
  import opened Device

  /** The interrupts, with their bit positions in mip/mie as discriminants. */
  datatype Interrupt =
    | MEIP | SEIP | UEIP   // external, from the PLIC
    | MTIP | STIP | UTIP   // local timer
    | MSIP | SSIP | USIP   // local software

  function Code(i: Interrupt): bv64
  {
    match i
    case MEIP => 11
    case SEIP => 9
    case UEIP => 8
    case MTIP => 7
    case STIP => 5
    case UTIP => 4
    case MSIP => 3
    case SSIP => 1
    case USIP => 0
  }

  datatype PrivilegeLevel = M | S | U

  const MSTATUS: nat := 0x300
  /** The numbers of mie and mip in the CSR table. */
  const MIE: nat := 0x304
  const MIP: nat := 0x344

  /** The selection chain of pending_interrupt on ip = mip & mie, as
      written: each test `ip >> k == 1` holds exactly when bit k is the
      highest set bit of ip. The third external test names USIP and the
      third timer test names UEIP. */
  function Pending(ip: bv64): (r: Option<Interrupt>)
    ensures ip == 0 ==> r.None?
    ensures r.Some? ==> ip >> Code(r.value) == 1
  {
    if ip >> 11 == 1 then Some(MEIP)
    else if ip >> 9 == 1 then Some(SEIP)
    else if ip >> 0 == 1 then Some(USIP)
    else if ip >> 7 == 1 then Some(MTIP)
    else if ip >> 5 == 1 then Some(STIP)
    else if ip >> 8 == 1 then Some(UEIP)
    else if ip >> 3 == 1 then Some(MSIP)
    else if ip >> 1 == 1 then Some(SSIP)
    else if ip >> 0 == 1 then Some(USIP)
    else None
  }

  /** pending_interrupt: the result depends on mip and mie only through mip & mie. */
  function PendingInterrupt(mip: bv64, mie: bv64): Option<Interrupt>
  {
    Pending(mip & mie)
  }

  /** The interrupt the chain reports, by the position of the highest set
      bit of ip: bits 11, 9, 8, 7, 5, 3, 1 and 0 give their interrupt, and
      bit 4 (UTIP), the unlisted bits 2, 6 and 10 and every bit from 12 up
      give None. */
  function ByHighestBit(ip: bv64): Option<Interrupt>
  {
    if ip == 0 then None
    else if ip < 0x2 then Some(USIP)
    else if ip < 0x4 then Some(SSIP)
    else if ip < 0x8 then None
    else if ip < 0x10 then Some(MSIP)
    else if ip < 0x20 then None
    else if ip < 0x40 then Some(STIP)
    else if ip < 0x80 then None
    else if ip < 0x100 then Some(MTIP)
    else if ip < 0x200 then Some(UEIP)
    else if ip < 0x400 then Some(SEIP)
    else if ip < 0x800 then None
    else if ip < 0x1000 then Some(MEIP)
    else None
  }

  /** The chain selects by the highest pending bit alone. */
  lemma PendingSpec(ip: bv64)
    ensures Pending(ip) == ByHighestBit(ip)
  {
  }

  /** As written, the user timer interrupt is never reported, and a pending
      machine timer interrupt is hidden by a set bit 12. */
  lemma PendingHides(mip: bv64, mie: bv64)
    ensures Pending(mip & mie) != Some(UTIP)
    ensures PendingInterrupt(0x10, 0x10) == None
    ensures PendingInterrupt(0x1080, 0x1080) == None
  {
  }

  /** The interrupts that have a bit of their own in the intended chain. */
  const LISTED: bv64 := 0xBBB

  /** pending_interrupt as evidently intended: test whether bit k is set,
      in the chain's order external, timer, software, with UEIP and UTIP in
      their groups. */
  function PendingInterruptFixed(mip: bv64, mie: bv64): (r: Option<Interrupt>)
  {
    var ip := mip & mie;
    if (ip >> 11) & 1 == 1 then Some(MEIP)
    else if (ip >> 9) & 1 == 1 then Some(SEIP)
    else if (ip >> 8) & 1 == 1 then Some(UEIP)
    else if (ip >> 7) & 1 == 1 then Some(MTIP)
    else if (ip >> 5) & 1 == 1 then Some(STIP)
    else if (ip >> 4) & 1 == 1 then Some(UTIP)
    else if (ip >> 3) & 1 == 1 then Some(MSIP)
    else if (ip >> 1) & 1 == 1 then Some(SSIP)
    else if (ip >> 0) & 1 == 1 then Some(USIP)
    else None
  }

  /** The intended chain reports an interrupt exactly when a listed bit of
      mip & mie is set, and the interrupt it reports is pending. */
  lemma PendingFixedSpec(mip: bv64, mie: bv64)
    ensures PendingInterruptFixed(mip, mie).None? <==> (mip & mie) & LISTED == 0
    ensures PendingInterruptFixed(mip, mie).Some? ==>
      ((mip & mie) >> Code(PendingInterruptFixed(mip, mie).value)) & 1 == 1
  {
  }

  /** The intended chain reports the two cases the written one misses. */
  lemma PendingFixedReports()
    ensures PendingInterruptFixed(0x10, 0x10) == Some(UTIP)
    ensures PendingInterruptFixed(0x1080, 0x1080) == Some(MTIP)
  {
  }

  /** interrupt(csr): in machine mode, nothing is taken while mstatus.MIE (bit 0)
      is clear; otherwise the pending interrupt of mip and mie. */
  function TakenInterrupt(read: nat -> bv64): (r: Option<Interrupt>)
    ensures read(MSTATUS) & 1 == 0 ==> r.None?
  {
    var mode := M;
    var mstatus := read(MSTATUS);
    var enabled := match mode
      case M => mstatus & 0x1 > 0
      case S => mstatus & 0x2 > 0
      case U => mstatus & 0x9 > 0;
    if !enabled then None
    else PendingInterrupt(read(MIP), read(MIE))
  }

  /** With mstatus.MIE set, interrupt is exactly pending_interrupt. */
  lemma InterruptEnabled(read: nat -> bv64)
    requires read(MSTATUS) & 1 == 1
    ensures TakenInterrupt(read) == PendingInterrupt(read(MIP), read(MIE))
  {
  }

  // The Clint device: double and word accesses succeed and do nothing, half
  // and byte accesses are unimplemented.

  function WriteDouble(addr: nat, val: bv64): (r: Result<(), Fault>)
    ensures r.Ok?
  {
    Ok(())
  }

  function WriteWord(addr: nat, val: bv32): (r: Result<(), Fault>)
    ensures r.Ok?
  {
    Ok(())
  }

  function WriteHalf(addr: nat, val: bv16): (r: Result<(), Fault>)
    ensures r.Err? && r.error.Unimplemented?
  {
    Err(Unimplemented("clint: writing half word unimplemented"))
  }

  function WriteByte(addr: nat, val: bv8): (r: Result<(), Fault>)
    ensures r.Err? && r.error.Unimplemented?
  {
    Err(Unimplemented("clint: writing byte unimplemented"))
  }

  function ReadDouble(addr: nat): (r: Result<bv64, Fault>)
    ensures r == Ok(0)
  {
    Ok(0)
  }

  function ReadWord(addr: nat): (r: Result<bv32, Fault>)
    ensures r == Ok(0)
  {
    Ok(0)
  }

  function ReadHalf(addr: nat): (r: Result<bv16, Fault>)
    ensures r.Err? && r.error.Unimplemented?
  {
    Err(Unimplemented("clint: reading half word unimplemented"))
  }

  function ReadByte(addr: nat): (r: Result<bv8, Fault>)
    ensures r.Err? && r.error.Unimplemented?
  {
    Err(Unimplemented("clint: reading byte unimplemented"))
  }
}
