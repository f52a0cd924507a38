/**
 * The flat RAM of src/ram.rs: DRAM_SIZE bytes loaded with a code image and
 * accessed as little-endian 32-bit words. An access beyond the end panics in
 * the source; here it is excluded by a precondition.
 */
module RamStore {
  import opened Words

  /** 128 MiB. */
  const DRAM_SIZE: nat := 1024 * 1024 * 128

  /** The bytes after storing `w` little-endian at `addr`: byte addr+i becomes
      `(w >> 8i) & 0xFF` and no other byte changes. */
  function StoreWord(s: seq<bv8>, addr: nat, w: bv32): (t: seq<bv8>)
    requires addr + 3 < |s|
    ensures |t| == |s|
    ensures forall i :: 0 <= i < |s| && (i < addr || addr + 3 < i) ==> t[i] == s[i]
    ensures LeWord(t[addr], t[addr + 1], t[addr + 2], t[addr + 3]) == w
  {
    LeWordOfBytes(w);
    s[addr := Byte0(w)][addr + 1 := Byte1(w)][addr + 2 := Byte2(w)][addr + 3 := Byte3(w)]
  }

  class Ram {
    var ram: array<bv8>

    /** Ram::new: a DRAM_SIZE store whose prefix is `code` and whose other
        bytes are 0; the splice panics when the code does not fit. */
    constructor (code: seq<bv8>)
      requires |code| <= DRAM_SIZE
      ensures fresh(ram) && ram.Length == DRAM_SIZE
      ensures ram[..|code|] == code
      ensures forall i :: |code| <= i < DRAM_SIZE ==> ram[i] == 0
    {
      var a := new bv8[DRAM_SIZE](_ => 0);
      var i := 0;
      while i < |code|
        invariant 0 <= i <= |code|
        invariant a[..i] == code[..i]
        invariant forall k :: i <= k < DRAM_SIZE ==> a[k] == 0
      {
        a[i] := code[i];
        i := i + 1;
      }
      ram := a;
    }

    /** Ram::write_word: stores the word little-endian at addr..addr+3. */
    method WriteWord(addr: nat, word: bv32)
      requires addr + 3 < ram.Length
      modifies ram
      ensures ram[..] == StoreWord(old(ram[..]), addr, word)
      ensures ReadWord(addr) == word
    {
      ram[addr + 0] := Byte0(word);
      ram[addr + 1] := Byte1(word);
      ram[addr + 2] := Byte2(word);
      ram[addr + 3] := Byte3(word);
    }

    /** Ram::read_word: the little-endian composition of the four bytes at addr. */
    function ReadWord(addr: nat): (w: bv32)
      requires addr + 3 < ram.Length
      reads this, ram
      ensures Byte0(w) == ram[addr] && Byte1(w) == ram[addr + 1]
              && Byte2(w) == ram[addr + 2] && Byte3(w) == ram[addr + 3]
    {
      BytesOfLeWord(ram[addr], ram[addr + 1], ram[addr + 2], ram[addr + 3]);
      LeWord(ram[addr], ram[addr + 1], ram[addr + 2], ram[addr + 3])
    }
  }

  /** The unit test of src/ram.rs: the bytes 13 81 00 7d read as 0x7d008113. */
  method InitRead() returns (w: bv32)
    ensures w == 0x7d008113
  {
    var r := new Ram([0x13, 0x81, 0x00, 0x7d]);
    w := r.ReadWord(0);
  }
}
