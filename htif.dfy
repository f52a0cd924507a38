/**
 * The host-target interface device of src/htif.rs: a word or double write
 * at offset 0 halts the machine; no access ever succeeds.
 */
module Htif {
  import opened Wrappers
  import opened Device

  /** Htif::write_double and Htif::write_word: a write at offset 0 halts. */
  function WriteWide(addr: nat): (r: Result<(), Fault>)
    ensures r.Err?
    ensures r.error == Halt <==> addr == 0
    ensures addr != 0 ==> r.error == MemoryFault(addr)
  {
    if addr == 0 then Err(Halt) else Err(MemoryFault(addr))
  }

  function WriteDouble(addr: nat, val: bv64): Result<(), Fault>
  {
    WriteWide(addr)
  }

  function WriteWord(addr: nat, val: bv32): Result<(), Fault>
  {
    WriteWide(addr)
  }

  function WriteHalf(addr: nat, val: bv16): Result<(), Fault>
  {
    Err(Unaligned(addr))
  }

  function WriteByte(addr: nat, val: bv8): Result<(), Fault>
  {
    Err(Unaligned(addr))
  }

  function ReadDouble(addr: nat): Result<bv64, Fault>
  {
    Err(MemoryFault(addr))
  }

  function ReadWord(addr: nat): Result<bv32, Fault>
  {
    Err(MemoryFault(addr))
  }

  function ReadHalf(addr: nat): Result<bv16, Fault>
  {
    Err(Unaligned(addr))
  }

  function ReadByte(addr: nat): Result<bv8, Fault>
  {
    Err(Unaligned(addr))
  }

  /** No access succeeds, and only a word or double write at offset 0 halts. */
  lemma NoAccessSucceeds(addr: nat, d: bv64, w: bv32, h: bv16, b: bv8)
    ensures WriteDouble(addr, d).Err? && WriteWord(addr, w).Err?
    ensures WriteHalf(addr, h) == Err(Unaligned(addr)) && WriteByte(addr, b) == Err(Unaligned(addr))
    ensures ReadDouble(addr) == Err(MemoryFault(addr)) && ReadWord(addr) == Err(MemoryFault(addr))
    ensures ReadHalf(addr) == Err(Unaligned(addr)) && ReadByte(addr) == Err(Unaligned(addr))
    ensures WriteWord(addr, w) == Err(Halt) <==> addr == 0
  {
  }
}
