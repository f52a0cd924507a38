/**
 * The stateless UART of src/uart8250.rs, at global addresses. Its only
 * effect is console output, returned here as the string a write emits. The
 * stdin branch of read_byte, which a constant `false` disables, is left out.
 */
module Uart8250 {
  import opened Wrappers
  import opened Device
  import opened Text

  const THR_ADDR: nat := 0x1000_0000
  const LSR_ADDR: nat := 0x1000_0005

  /** Uart8250::write_byte as written: `print!("{}", val)` formats the byte as
      a decimal number, so the console receives its digits. Always succeeds. */
  function WriteByte(addr: nat, val: bv8): (r: (Result<(), Fault>, string))
    ensures r.0.Ok?
    ensures r.1 != [] <==> addr == THR_ADDR
  {
    if addr == THR_ADDR then (Ok(()), Decimal(val as nat)) else (Ok(()), [])
  }

  /** The byte written to the transmit register for 'H' is printed as "72". */
  lemma WriteByteEmitsDigits()
    ensures WriteByte(THR_ADDR, 72).1 == "72"
    ensures WriteByte(THR_ADDR, 72).1 != ['H']
  {
    assert Decimal(72) == Decimal(7) + [DigitChar(2)];
  }

  /** A byte of 10 or more prints as more than one character. */
  lemma {:induction false} WriteByteWidth(val: bv8)
    ensures |WriteByte(THR_ADDR, val).1| == 1 <==> val < 10
  {
    if val >= 10 {
      assert |Decimal(val as nat)| == |Decimal(val as nat / 10)| + 1;
    }
  }

  /** write_byte with the byte emitted as a character, as src/uart.rs does. */
  function WriteByteChar(addr: nat, val: bv8): (r: (Result<(), Fault>, string))
    ensures r.0.Ok?
    ensures addr == THR_ADDR ==> |r.1| == 1 && r.1[0] as int == val as int
    ensures addr != THR_ADDR ==> r.1 == []
  {
    if addr == THR_ADDR then (Ok(()), [val as char]) else (Ok(()), [])
  }

  /** Uart8250::read_byte: the line status register reads 0x60 (transmitter
      empty, no data ready); every other address reads 0. */
  function ReadByte(addr: nat): (r: Result<bv8, Fault>)
    ensures r.Ok?
    ensures r.value != 0 <==> addr == LSR_ADDR
    ensures addr == LSR_ADDR ==> r.value == 0x60 && r.value & 0x01 == 0
    ensures addr != LSR_ADDR ==> r.value == 0
  {
    if addr == LSR_ADDR then Ok(0x60) else Ok(0)
  }

  /** The accesses wider than a byte: all unimplemented. */
  function WriteDouble(addr: nat, val: bv64): (r: Result<(), Fault>)
    ensures r.Err? && r.error.Unimplemented?
  {
    Err(Unimplemented(""))
  }

  function WriteWord(addr: nat, val: bv32): (r: Result<(), Fault>)
    ensures r.Err? && r.error.Unimplemented?
  {
    Err(Unimplemented(""))
  }

  function WriteHalf(addr: nat, val: bv16): (r: Result<(), Fault>)
    ensures r.Err? && r.error.Unimplemented?
  {
    Err(Unimplemented(""))
  }

  function ReadDouble(addr: nat): (r: Result<bv64, Fault>)
    ensures r.Err? && r.error.Unimplemented?
  {
    Err(Unimplemented(""))
  }

  function ReadWord(addr: nat): (r: Result<bv32, Fault>)
    ensures r.Err? && r.error.Unimplemented?
  {
    Err(Unimplemented(""))
  }

  function ReadHalf(addr: nat): (r: Result<bv16, Fault>)
    ensures r.Err? && r.error.Unimplemented?
  {
    Err(Unimplemented(""))
  }

  /** `From<io::Error>`: every I/O error becomes MemoryFault(0). */
  function FromIoError(): (f: Fault)
    ensures f.MemoryFault? && f.addr == 0
  {
    MemoryFault(0)
  }
}
