/**
 * The Rust integer operations the emulator relies on, over Dafny bit-vectors:
 * a `uN` is a `bvN`, and an `iN` is the `bvN` holding its two's-complement
 * pattern. Bit-vector `+` wraps, as Rust's `wrapping_add` and a release
 * build's `+` do. Sign extension is written without branches:
 * `((x & mask) ^ sign) - sign` copies the bit `sign` into every higher bit.
 */
module Words {

  /** `a.wrapping_add(b)` on `u32`: the sum modulo 2^32. Kept as a function
      so that proofs about registers treat the sum as one term. */
  function WrappingAdd(a: bv32, b: bv32): bv32
  {
    a + b
  }

  /** `x as i32 as u32` for an `i16` pattern x. */
  function Sext16(x: bv16): bv32
  {
    ((x as bv32) ^ 0x8000) - 0x8000
  }

  /** `x as i8 as i16` for an `u8` holding an `i8` pattern. */
  function Sext8(x: bv8): bv16
  {
    ((x as bv16) ^ 0x80) - 0x80
  }

  /** `x as i32 >> 20` (arithmetic shift) on a `u32`. */
  function Asr20(x: bv32): bv32
  {
    ((x >> 20) ^ 0x800) - 0x800
  }

  /** `x as i32 >> 12` (arithmetic shift) on a `u32`. */
  function Asr12(x: bv32): bv32
  {
    ((x >> 12) ^ 0x8_0000) - 0x8_0000
  }

  /** `x as i32 >> 19` (arithmetic shift) on a `u32`. */
  function Asr19(x: bv32): bv32
  {
    ((x >> 19) ^ 0x1000) - 0x1000
  }

  /** `x as i32 >> 11` (arithmetic shift) on a `u32`. */
  function Asr11(x: bv32): bv32
  {
    ((x >> 11) ^ 0x10_0000) - 0x10_0000
  }

  /** `x as i8 >> 2` (arithmetic shift) on a `u8`. */
  function Asr2Byte(x: bv8): bv8
  {
    ((x >> 2) ^ 0x20) - 0x20
  }

  /** `x as i16 >> 5` (arithmetic shift) on a `u16`. */
  function Asr5Half(x: bv16): bv16
  {
    ((x >> 5) ^ 0x400) - 0x400
  }

  // The source widens with `x as i32 as u64`, shifts right and truncates:
  // `(x as i32 as u64 >> k) as i16` or `as i32`. The truncated bits all come
  // from the 32-bit arithmetic shift `x as i32 >> k`, so the decoders compute
  // that instead; the two lemmas below are the equivalence, with the 64-bit
  // sign extension `((x as u64) ^ 0x8000_0000) - 0x8000_0000` written out.

  /** `(x as i32 as u64 >> 20) as i16` is `(x as i32 >> 20) as i16`. */
  lemma WideShift20(x: bv32)
    ensures (((((x as bv64) ^ 0x8000_0000) - 0x8000_0000) >> 20) & 0xFFFF) as bv16
            == (Asr20(x) & 0xFFFF) as bv16
  {
  }

  /** `(x as i32 as u64 >> 12) as i32` is `x as i32 >> 12`. */
  lemma WideShift12(x: bv32)
    ensures (((((x as bv64) ^ 0x8000_0000) - 0x8000_0000) >> 12) & 0xFFFF_FFFF) as bv32
            == Asr12(x)
  {
  }

  // The sign extensions of an n-bit immediate to 32 bits, as the RISC-V
  // manual states the immediates: bit n-1 of x is copied into bits 31..n.

  function Sext6(x: bv32): bv32 { ((x & 0x3F) ^ 0x20) - 0x20 }
  function Sext9(x: bv32): bv32 { ((x & 0x1FF) ^ 0x100) - 0x100 }
  function Sext10(x: bv32): bv32 { ((x & 0x3FF) ^ 0x200) - 0x200 }
  function Sext12(x: bv32): bv32 { ((x & 0xFFF) ^ 0x800) - 0x800 }
  function Sext13(x: bv32): bv32 { ((x & 0x1FFF) ^ 0x1000) - 0x1000 }
  function Sext20(x: bv32): bv32 { ((x & 0xF_FFFF) ^ 0x8_0000) - 0x8_0000 }
  function Sext21(x: bv32): bv32 { ((x & 0x1F_FFFF) ^ 0x10_0000) - 0x10_0000 }

  /** The value an `i16` pattern stands for. */
  function I16(x: bv16): int
  {
    if x < 0x8000 then x as int else x as int - 0x1_0000
  }

  /** The value an `i32` pattern stands for. */
  function I32(x: bv32): int
  {
    if x < 0x8000_0000 then x as int else x as int - 0x1_0000_0000
  }

  // The bytes of a little-endian word: byte i is `(w >> 8i) & 0xFF`.

  function Byte0(w: bv32): bv8 { (w & 0xFF) as bv8 }
  function Byte1(w: bv32): bv8 { ((w >> 8) & 0xFF) as bv8 }
  function Byte2(w: bv32): bv8 { ((w >> 16) & 0xFF) as bv8 }
  function Byte3(w: bv32): bv8 { ((w >> 24) & 0xFF) as bv8 }

  /** Little-endian composition: `b0 + (b1 << 8) + (b2 << 16) + (b3 << 24)`. */
  function LeWord(b0: bv8, b1: bv8, b2: bv8, b3: bv8): bv32
  {
    (b0 as bv32) + ((b1 as bv32) << 8) + ((b2 as bv32) << 16) + ((b3 as bv32) << 24)
  }

  /** Composing the bytes of a word gives the word back. */
  lemma LeWordOfBytes(w: bv32)
    ensures LeWord(Byte0(w), Byte1(w), Byte2(w), Byte3(w)) == w
  {
  }

  /** Splitting a composed word gives its bytes back. */
  lemma BytesOfLeWord(b0: bv8, b1: bv8, b2: bv8, b3: bv8)
    ensures var w := LeWord(b0, b1, b2, b3);
            Byte0(w) == b0 && Byte1(w) == b1 && Byte2(w) == b2 && Byte3(w) == b3
  {
  }

  // Little-endian values in a byte sequence, and the bytes that lay them out.

  /** The little-endian half-word at a. */
  function LeHalf(mem: seq<bv8>, a: nat): bv16
    requires a + 1 < |mem|
  {
    (mem[a] as bv16) | ((mem[a + 1] as bv16) << 8)
  }

  /** The little-endian word at a. */
  function LeWordAt(mem: seq<bv8>, a: nat): bv32
    requires a + 3 < |mem|
  {
    LeWord(mem[a], mem[a + 1], mem[a + 2], mem[a + 3])
  }

  /** The little-endian double word at a. */
  function LeDouble(mem: seq<bv8>, a: nat): bv64
    requires a + 7 < |mem|
  {
    (LeWordAt(mem, a) as bv64) | ((LeWordAt(mem, a + 4) as bv64) << 32)
  }

  /** `h.to_le_bytes()` for a `u16`. */
  function HalfBytes(h: bv16): seq<bv8>
  {
    [(h & 0xFF) as bv8, (h >> 8) as bv8]
  }

  /** `w.to_le_bytes()` for a `u32`. */
  function WordBytes(w: bv32): seq<bv8>
  {
    [Byte0(w), Byte1(w), Byte2(w), Byte3(w)]
  }

  /** `x.to_le_bytes()` for a `u64`: the low word's bytes, then the high word's. */
  function DoubleBytes(x: bv64): seq<bv8>
  {
    WordBytes((x & 0xFFFF_FFFF) as bv32) + WordBytes((x >> 32) as bv32)
  }

  lemma HalfRoundTrip(h: bv16)
    ensures ((h & 0xFF) as bv8 as bv16) | (((h >> 8) as bv8 as bv16) << 8) == h
  {
  }

  lemma DoubleRoundTrip(x: bv64)
    ensures (((x & 0xFFFF_FFFF) as bv32) as bv64) | ((((x >> 32) as bv32) as bv64) << 32) == x
  {
  }

  /** A word's bytes laid out at a read back as the word; likewise below for
      half-words and double words. */
  lemma LeWordAtBytes(mem: seq<bv8>, a: nat, w: bv32)
    requires a + 3 < |mem|
    requires mem[a] == Byte0(w) && mem[a + 1] == Byte1(w) && mem[a + 2] == Byte2(w) && mem[a + 3] == Byte3(w)
    ensures LeWordAt(mem, a) == w
  {
    LeWordOfBytes(w);
  }

  lemma LeHalfBytes(mem: seq<bv8>, a: nat, h: bv16)
    requires a + 1 < |mem|
    requires mem[a] == (h & 0xFF) as bv8 && mem[a + 1] == (h >> 8) as bv8
    ensures LeHalf(mem, a) == h
  {
    HalfRoundTrip(h);
  }

  lemma LeDoubleBytes(mem: seq<bv8>, a: nat, x: bv64)
    requires a + 7 < |mem|
    requires forall i :: 0 <= i < 8 ==> mem[a + i] == DoubleBytes(x)[i]
    ensures LeDouble(mem, a) == x
  {
    var lo := (x & 0xFFFF_FFFF) as bv32;
    var hi := (x >> 32) as bv32;
    assert mem[a] == DoubleBytes(x)[0] && mem[a + 1] == DoubleBytes(x)[1];
    assert mem[a + 2] == DoubleBytes(x)[2] && mem[a + 3] == DoubleBytes(x)[3];
    LeWordAtBytes(mem, a, lo);
    assert mem[a + 4] == DoubleBytes(x)[4] && mem[a + 5] == DoubleBytes(x)[5];
    assert mem[a + 6] == DoubleBytes(x)[6] && mem[a + 7] == DoubleBytes(x)[7];
    LeWordAtBytes(mem, a + 4, hi);
    DoubleRoundTrip(x);
  }

  /** Reading a half-word and laying it out again gives the same two bytes;
      likewise below for words and double words. */
  lemma HalfBytesOfLe(mem: seq<bv8>, a: nat)
    requires a + 1 < |mem|
    ensures HalfBytes(LeHalf(mem, a)) == mem[a..a + 2]
  {
  }

  lemma WordBytesOfLe(mem: seq<bv8>, a: nat)
    requires a + 3 < |mem|
    ensures WordBytes(LeWordAt(mem, a)) == mem[a..a + 4]
  {
    BytesOfLeWord(mem[a], mem[a + 1], mem[a + 2], mem[a + 3]);
  }

  /** The low word of two joined words is the first of them. */
  lemma JoinLow(lo: bv32, hi: bv32)
    ensures (((lo as bv64) | ((hi as bv64) << 32)) & 0xFFFF_FFFF) as bv32 == lo
  {
  }

  /** The high word of two joined words is the second of them. */
  lemma JoinHigh(lo: bv32, hi: bv32)
    ensures (((lo as bv64) | ((hi as bv64) << 32)) >> 32) as bv32 == hi
  {
  }

  lemma DoubleBytesOfLe(mem: seq<bv8>, a: nat)
    requires a + 7 < |mem|
    ensures DoubleBytes(LeDouble(mem, a)) == mem[a..a + 8]
  {
    var lo := LeWordAt(mem, a);
    var hi := LeWordAt(mem, a + 4);
    JoinLow(lo, hi);
    JoinHigh(lo, hi);
    WordBytesOfLe(mem, a);
    WordBytesOfLe(mem, a + 4);
    assert mem[a..a + 8] == mem[a..a + 4] + mem[a + 4..a + 8];
  }
}
