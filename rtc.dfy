/**
 * The real-time clock of src/rtc.rs: the machine timer compare register
 * mtimecmp, written as two 32-bit halves (section 3.2.1 of the RISC-V
 * Privileged Architecture manual). The low half only updates a staging
 * value; writing the high half also publishes the staging value as the
 * shared compare time, in nanoseconds. The clock is left out: the time
 * elapsed since construction is a parameter of read_word.
 */
module Rtc {
  import opened Wrappers
  import opened Bus

  const MTIMECMP_ADDR: nat := 0x4000
  const MTIMECMP_ADDRH: nat := 0x4004
  const MTIME_ADDR: nat := 0x4008
  const MTIME_ADDRH: nat := 0x400c

  /** std::time::Duration as far as the device uses it: `Duration::MAX`, which
      no nanosecond count reaches, or `Duration::from_nanos(n)`. */
  datatype Duration = DurationMax | FromNanos(nanos: bv64)

  /** The staging value with its low 32 bits replaced. */
  function SetLow(x: bv64, val: bv32): (y: bv64)
    ensures (y & 0xFFFF_FFFF) as bv32 == val
    ensures y >> 32 == x >> 32
  {
    (x & 0xFFFF_FFFF_0000_0000) | val as bv64
  }

  /** The staging value with its high 32 bits replaced. */
  function SetHigh(x: bv64, val: bv32): bv64
  {
    (x & 0x0000_0000_FFFF_FFFF) | ((val as bv64) << 32)
  }

  /** After SetHigh the high 32 bits are the written word. */
  lemma SetHighSets(x: bv64, val: bv32)
    ensures SetHigh(x, val) >> 32 == val as bv64
  {
  }

  /** SetHigh keeps the low 32 bits. */
  lemma SetHighKeepsLow(x: bv64, val: bv32)
    ensures SetHigh(x, val) & 0xFFFF_FFFF == x & 0xFFFF_FFFF
  {
  }

  /** Writing the low half and then the high half composes the two halves,
      whatever the staging value held before. */
  lemma ComposeHalves(x: bv64, lo: bv32, hi: bv32)
    ensures SetHigh(SetLow(x, lo), hi) == ((hi as bv64) << 32) | lo as bv64
  {
  }

  class Rtc {
    var mtimecmp: Duration
    var mtimecmptmp: bv64

    /** Rtc::new: no compare time yet, and an all-ones staging value. */
    constructor ()
      ensures mtimecmp == DurationMax && mtimecmptmp == 0xFFFF_FFFF_FFFF_FFFF
    {
      mtimecmp := DurationMax;
      mtimecmptmp := 0xFFFF_FFFF_FFFF_FFFF;
    }

    /** Rtc::write_word. */
    method WriteWord(addr: nat, val: bv32) returns (r: Result<(), BusFault>)
      modifies this
      ensures r.Ok? <==> addr == MTIMECMP_ADDR || addr == MTIMECMP_ADDRH
      ensures addr == MTIMECMP_ADDR ==>
                mtimecmptmp == SetLow(old(mtimecmptmp), val) && mtimecmp == old(mtimecmp)
      ensures addr == MTIMECMP_ADDRH ==>
                mtimecmptmp == SetHigh(old(mtimecmptmp), val) && mtimecmp == FromNanos(mtimecmptmp)
      ensures r.Err? ==> r.error == MemoryFault && unchanged(this)
    {
      if addr == MTIMECMP_ADDR {
        mtimecmptmp := SetLow(mtimecmptmp, val);
        r := Ok(());
      } else if addr == MTIMECMP_ADDRH {
        mtimecmptmp := SetHigh(mtimecmptmp, val);
        mtimecmp := FromNanos(mtimecmptmp);
        r := Ok(());
      } else {
        r := Err(MemoryFault);
      }
    }
  }

  /** Rtc::read_word, given the nanoseconds elapsed since the device was made
      (`as_nanos` is a u128): both compare halves read all ones, the time
      reads as its low and high 32-bit halves, and any other address faults. */
  function ReadWord(addr: nat, now: bv128): (r: Result<bv32, BusFault>)
    ensures r.Ok? <==> MTIMECMP_ADDR <= addr <= MTIME_ADDRH && addr % 4 == 0
    ensures addr == MTIMECMP_ADDR || addr == MTIMECMP_ADDRH ==> r == Ok(0xFFFF_FFFF)
    ensures addr == MTIME_ADDR ==> r.Ok? && r.value as bv128 == now & 0xFFFF_FFFF
    ensures addr == MTIME_ADDRH ==> r.Ok? && r.value as bv128 == (now >> 32) & 0xFFFF_FFFF
  {
    if addr == MTIMECMP_ADDR then Ok(0xFFFF_FFFF)
    else if addr == MTIMECMP_ADDRH then Ok(0xFFFF_FFFF)
    else if addr == MTIME_ADDR then Ok((now & 0xFFFF_FFFF) as bv32)
    else if addr == MTIME_ADDRH then Ok(((now >> 32) & 0xFFFF_FFFF) as bv32)
    else Err(MemoryFault)
  }

  /** A compare time written low half first reads back, once published, as the
      64-bit composition of the two halves. */
  method WriteCompare(rtc: Rtc, lo: bv32, hi: bv32)
    modifies rtc
    ensures rtc.mtimecmp == FromNanos(((hi as bv64) << 32) | lo as bv64)
  {
    var _ := rtc.WriteWord(MTIMECMP_ADDR, lo);
    var _ := rtc.WriteWord(MTIMECMP_ADDRH, hi);
    ComposeHalves(old(rtc.mtimecmptmp), lo, hi);
  }
}
