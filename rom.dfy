/**
 * The read-only store of src/rom.rs. It is a value: nothing can change its
 * bytes after construction. Reads are bounds-checked and return None past
 * the end.
 */
module RomStore {
  import opened Words
  import opened Wrappers

  /** Rom::new(data). */
  datatype Rom = Rom(data: seq<bv8>)

  /** `Vec::get`. */
  function Get(s: seq<bv8>, i: nat): (r: Option<bv8>)
    ensures r.Some? <==> i < |s|
    ensures r.Some? ==> r.value == s[i]
  {
    if i < |s| then Some(s[i]) else None
  }

  /** Rom::read_word: four bytes composed little-endian, or None if any of
      them lies past the end. */
  function ReadWord(rom: Rom, addr: nat): (r: Option<bv32>)
    ensures r.Some? <==> addr + 3 < |rom.data|
    ensures r.Some? ==> Byte0(r.value) == rom.data[addr] && Byte1(r.value) == rom.data[addr + 1]
                        && Byte2(r.value) == rom.data[addr + 2] && Byte3(r.value) == rom.data[addr + 3]
  {
    match Get(rom.data, addr)
    case None => None
    case Some(b0) =>
      match Get(rom.data, addr + 1)
      case None => None
      case Some(b1) =>
        match Get(rom.data, addr + 2)
        case None => None
        case Some(b2) =>
          match Get(rom.data, addr + 3)
          case None => None
          case Some(b3) =>
            BytesOfLeWord(b0, b1, b2, b3);
            Some(LeWord(b0, b1, b2, b3))
  }

  /** Rom::read_byte. */
  function ReadByte(rom: Rom, addr: nat): (r: Option<bv8>)
    ensures r.Some? <==> addr < |rom.data|
    ensures r.Some? ==> r.value == rom.data[addr]
  {
    Get(rom.data, addr)
  }

  /** A word read is the composition of the four byte reads at the same place. */
  lemma ReadWordOfBytes(rom: Rom, addr: nat)
    ensures ReadWord(rom, addr).Some? <==> ReadByte(rom, addr + 3).Some?
    ensures ReadWord(rom, addr).Some? ==>
              ReadWord(rom, addr).value == LeWord(ReadByte(rom, addr).value, ReadByte(rom, addr + 1).value,
                                                  ReadByte(rom, addr + 2).value, ReadByte(rom, addr + 3).value)
  {
    if ReadWord(rom, addr).Some? {
      LeWordOfBytes(ReadWord(rom, addr).value);
    }
  }

  /** The unit test of src/rom.rs. */
  lemma InitRead()
    ensures ReadWord(Rom([0x13, 0x81, 0x00, 0x7d]), 0) == Some(0x7d008113)
  {
  }
}
