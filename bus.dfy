/**
 * The fixed-window bus of src/bus.rs: addresses 0x0000..=0x2000 (both ends
 * included) go to the RAM at the same address; every other address is a
 * MemoryFault, which in this file carries no address. The RAM's byte
 * accessors are not part of src/ram.rs; they are modelled as direct
 * accesses to its byte array.
 */
module Bus {
  import opened Words
  import opened Wrappers
  import opened RamStore

  datatype BusFault = MemoryFault

  /** The address window the bus forwards. */
  predicate InWindow(addr: nat)
  {
    addr <= 0x2000
  }

  class Bus {
    var rom: Ram

    /** Every address of the window, and the three bytes after it, lie inside the RAM. */
    predicate Valid()
      reads this, rom
    {
      rom.ram.Length == DRAM_SIZE
    }

    constructor (rom: Ram)
      requires rom.ram.Length == DRAM_SIZE
      ensures this.rom == rom && Valid()
    {
      this.rom := rom;
    }

    /** Bus::write_word: forwards to the RAM inside the window and changes nothing outside it. */
    method WriteWord(addr: nat, val: bv32) returns (r: Result<(), BusFault>)
      requires Valid()
      modifies rom.ram
      ensures r.Ok? <==> InWindow(addr)
      ensures r.Err? ==> r.error == MemoryFault && rom.ram[..] == old(rom.ram[..])
      ensures r.Ok? ==> rom.ram[..] == StoreWord(old(rom.ram[..]), addr, val)
      ensures r.Ok? ==> ReadWord(addr) == Ok(val)
    {
      if addr <= 0x2000 {
        rom.WriteWord(addr, val);
        r := Ok(());
      } else {
        r := Err(MemoryFault);
      }
    }

    /** Bus::write_byte: stores the byte at addr inside the window. */
    method WriteByte(addr: nat, val: bv8) returns (r: Result<(), BusFault>)
      requires Valid()
      modifies rom.ram
      ensures r.Ok? <==> InWindow(addr)
      ensures r.Err? ==> r.error == MemoryFault && rom.ram[..] == old(rom.ram[..])
      ensures r.Ok? ==> rom.ram[..] == old(rom.ram[..])[addr := val]
      ensures r.Ok? ==> ReadByte(addr) == Ok(val)
    {
      if addr <= 0x2000 {
        rom.ram[addr] := val;
        r := Ok(());
      } else {
        r := Err(MemoryFault);
      }
    }

    /** Bus::read_word: the RAM's word at the same, untranslated address. */
    function ReadWord(addr: nat): (r: Result<bv32, BusFault>)
      requires Valid()
      reads this, rom, rom.ram
      ensures r.Ok? <==> InWindow(addr)
      ensures r.Ok? ==> Byte0(r.value) == rom.ram[addr] && Byte1(r.value) == rom.ram[addr + 1]
                        && Byte2(r.value) == rom.ram[addr + 2] && Byte3(r.value) == rom.ram[addr + 3]
    {
      if addr <= 0x2000 then Ok(rom.ReadWord(addr)) else Err(MemoryFault)
    }

    /** Bus::read_byte: the RAM's byte at the same address. */
    function ReadByte(addr: nat): (r: Result<bv8, BusFault>)
      requires Valid()
      reads this, rom, rom.ram
      ensures r.Ok? <==> InWindow(addr)
      ensures r.Ok? ==> r.value == rom.ram[addr]
    {
      if addr <= 0x2000 then Ok(rom.ram[addr]) else Err(MemoryFault)
    }
  }
}
