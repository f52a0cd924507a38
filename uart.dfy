/**
 * The 8250/16550 UART of src/uart.rs, at device-local byte offsets. Its one
 * piece of state is the interrupt-enable flag; the console is modelled as
 * the sequence of characters written so far (flushing is left out), and the
 * stdin branch of read_byte, which a constant `false` disables, is left out.
 */
module Uart {
  import opened Wrappers
  import opened Device
  import opened Text

  const RX: nat := 0
  const IER: nat := 1
  const FCR: nat := 2
  const LCR: nat := 3
  const MCR: nat := 4
  const LSR: nat := 5

  /** The fault every access wider than a byte returns. */
  function Wide(what: string): (f: Fault)
    ensures f.Unimplemented?
  {
    Unimplemented("8250: " + what + " unimplemented")
  }

  class Uart8250 {
    var ie: bool
    var output: string

    /** Uart8250::new: interrupts enabled. */
    constructor ()
      ensures ie && output == []
    {
      ie := true;
      output := [];
    }

    /** Uart8250::write_byte. RX emits the byte as a character; IER sets the
        flag to whether the byte is non-zero; FCR, LCR and MCR are accepted
        and ignored; any other offset is Unimplemented. */
    method WriteByte(addr: nat, val: bv8) returns (r: Result<(), Fault>)
      modifies this
      ensures r.Ok? <==> addr <= MCR
      ensures output == if addr == RX then old(output) + [val as char] else old(output)
      ensures ie == if addr == IER then val != 0 else old(ie)
      ensures r.Err? ==> r.error == Unimplemented("8250: writing to unknown byte address 0x" + Hex(addr)
                                                  + ": " + Decimal(val as nat))
    {
      if addr == RX {
        output := output + [val as char];
        r := Ok(());
      } else if addr == IER {
        if val == 0 {
          ie := false;
        } else {
          ie := true;
        }
        r := Ok(());
      } else if addr == FCR || addr == LCR || addr == MCR {
        r := Ok(());
      } else {
        r := Err(Unimplemented("8250: writing to unknown byte address 0x" + Hex(addr) + ": " + Decimal(val as nat)));
      }
    }

    /** Uart8250::read_byte: IER reads the flag as 0 or 1, LSR reads 0x60
        (transmitter empty, no data) and LCR reads 0b11. */
    function ReadByte(addr: nat): (r: Result<bv8, Fault>)
      reads this
      ensures r.Ok? <==> addr == IER || addr == LSR || addr == LCR
      ensures addr == IER ==> r == Ok(if ie then 1 else 0)
      ensures addr == LSR ==> r == Ok(0x60) && r.value & 0x01 == 0
      ensures addr == LCR ==> r == Ok(0x03)
      ensures r.Err? ==> r.error == Unimplemented("8250: reading addr " + Decimal(addr))
    {
      if addr == IER then Ok(if ie then 1 else 0)
      else if addr == LSR then Ok(0x60)
      else if addr == LCR then Ok(0x03)
      else Err(Unimplemented("8250: reading addr " + Decimal(addr)))
    }

    function WriteDouble(addr: nat, val: bv64): Result<(), Fault> { Err(Wide("writing double")) }
    function WriteWord(addr: nat, val: bv32): Result<(), Fault> { Err(Wide("writing word")) }
    function WriteHalf(addr: nat, val: bv16): Result<(), Fault> { Err(Wide("writing halfword")) }
    function ReadDouble(addr: nat): Result<bv64, Fault> { Err(Wide("reading double")) }
    function ReadWord(addr: nat): Result<bv32, Fault> { Err(Wide("reading word")) }
    function ReadHalf(addr: nat): Result<bv16, Fault> { Err(Wide("reading halfword")) }
  }

  /** `From<io::Error>`: every I/O error becomes an Unimplemented fault. */
  function FromIoError(): (f: Fault)
    ensures f == Unimplemented("8250: io error not handled")
  {
    Unimplemented("8250: io error not handled")
  }

  /** Writing IER and reading it back gives 1 exactly when the byte was non-zero. */
  method IerRoundTrip(u: Uart8250, val: bv8) returns (r: Result<bv8, Fault>)
    modifies u
    ensures r == Ok(if val != 0 then 1 else 0)
  {
    var _ := u.WriteByte(IER, val);
    r := u.ReadByte(IER);
  }
}
