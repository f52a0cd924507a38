/**
 * The definitions of src/virtio/mod.rs that the virtio MMIO devices share:
 * the register offsets and device-status bits of the virtio MMIO transport
 * (sections 4.2.2 and 2.1 of the Virtual I/O Device specification 1.2),
 * the queue and descriptor records, the feature selector, and the Display
 * formatters of one descriptor and of a descriptor list. The register rules
 * that src/virtio.rs and src/virtio/blk.rs both apply (selector, driver
 * feature and status writes, feature reads by halves) are defined here
 * once, as is the block-device configuration table both files declare.
 */
module VirtioDefs {
  import opened Wrappers
  import opened Text

  // Register offsets of the MMIO transport.
  const MAGIC_VALUE: nat := 0x000
  const VERSION: nat := 0x004
  const DEVICE_ID: nat := 0x008
  const VENDOR_ID: nat := 0x00c
  const DEVICE_FEATURES: nat := 0x010
  const DEVICE_FEATURES_SEL: nat := 0x014
  const DRIVER_FEATURES: nat := 0x020
  const DRIVER_FEATURES_SEL: nat := 0x024
  const QUEUE_SEL: nat := 0x030
  const QUEUE_SIZE_MAX: nat := 0x034
  const QUEUE_SIZE: nat := 0x038
  const QUEUE_READY: nat := 0x044
  const QUEUE_NOTIFY: nat := 0x050
  const INTERRUPT_STATUS: nat := 0x060
  const INTERRUPT_ACK: nat := 0x064
  const STATUS: nat := 0x070
  const QUEUE_DESC_LOW: nat := 0x080
  const QUEUE_DESC_HIGH: nat := 0x084
  const QUEUE_DRIVER_LOW: nat := 0x090
  const QUEUE_DRIVER_HIGH: nat := 0x094
  const QUEUE_DEVICE_LOW: nat := 0x0a0
  const QUEUE_DEVICE_HIGH: nat := 0x0a4
  const CONFIG_GENERATION: nat := 0x0fc
  const CONFIG: nat := 0x100

  // Device status bits.
  const ACKNOWLEDGE: bv32 := 1
  const DRIVER: bv32 := 2
  const FAILED: bv32 := 128
  const FEATURES_OK: bv32 := 8
  const DRIVER_OK: bv32 := 4
  const DEVICE_NEEDS_RESET: bv32 := 64

  /** The bits a status write can set. */
  const STATUS_SETTABLE: bv32 := 0xF

  // Feature bit numbers.
  const VERSION_1: bv64 := 32
  const ACCESS_PLATFORM: bv64 := 33

  // Offsets in the block-device configuration space, past CONFIG.
  const CAPACITY: nat := 0
  const CAPACITY_HIGH: nat := 4
  const SIZE_MAX: nat := 8
  const SEG_MAX: nat := 12
  const BLK_SIZE: nat := 20
  const PHYSICAL_BLOCK_EXP: nat := 24
  const ALIGNMENT_OFFSET: nat := 25
  const MIN_IO_SIZE: nat := 26
  const OPT_IO_SIZE: nat := 28
  const WRITEBACK: nat := 32
  const NUM_QUEUES: nat := 34
  const MAX_DISCARD_SECTORS: nat := 0x24
  const MAX_DISCARD_SEG: nat := 0x28
  const DISCARD_SECTOR_ALIGNMENT: nat := 44
  const MAX_WRITE_ZEROES_SECTORS: nat := 48
  const MAX_WRITE_ZEROES_SEG: nat := 52
  const WRITE_ZEROES_MAY_UNMAP: nat := 56
  const MAX_SECURE_ERASE_SECTORS: nat := 60
  const MAX_SECURE_ERASE_SEG: nat := 64
  const SECURE_ERASE_SECTOR_ALIGNMENT: nat := 68
  const ZONE_SECTORS: nat := 72
  const MAX_OPEN_ZONES: nat := 76
  const MAX_ACTIVE_ZONES: nat := 80
  const MAX_APPEND_SECTORS: nat := 84
  const WRITE_GRANULARITY: nat := 88
  const MODEL: nat := 92

  /** Which 32-bit half of a feature word the next access means. */
  datatype Sel = Low | High

  /** One virtqueue as the driver configures it; the areas are guest addresses. */
  datatype Queue = Queue(ready: bool, size: bv32, desc: bv64, driver: bv64, device: bv64)

  /** A split-virtqueue descriptor (section 2.7.5 of the virtio specification). */
  datatype VirtqDesc = VirtqDesc(addr: bv64, len: bv32, flags: bv16, next: bv16)

  // Descriptor flags.
  const NEXT: bv16 := 1
  const WRITE: bv16 := 2
  const INDIRECT: bv16 := 4

  /** The transport state of the block device: features, selectors, device
      status and the selected queue. */
  datatype State = State(
    deviceFeatures: bv64,
    driverFeatures: bv64,
    driverFeaturesSel: Sel,
    deviceFeaturesSel: Sel,
    status: bv32,
    queueIdx: nat)

  /** The three descriptor flags are distinct single bits. */
  lemma FlagsDistinct()
    ensures NEXT & WRITE == 0 && NEXT & INDIRECT == 0 && WRITE & INDIRECT == 0
    ensures NEXT & (NEXT - 1) == 0 && WRITE & (WRITE - 1) == 0 && INDIRECT & (INDIRECT - 1) == 0
  {
  }

  /** The status values, one bit each. */
  lemma StatusBits()
    ensures ACKNOWLEDGE | DRIVER | DRIVER_OK | FEATURES_OK == STATUS_SETTABLE
    ensures DEVICE_NEEDS_RESET & STATUS_SETTABLE == 0 && FAILED & STATUS_SETTABLE == 0
  {
  }

  // Register rules shared by both devices.

  /** A write to DeviceFeaturesSel or DriverFeaturesSel: 1 selects the high
      half and every other value the low half. */
  function Select(val: bv32): (s: Sel)
    ensures s == High <==> val == 1
  {
    if val == 1 then High else Low
  }

  /** A read of DeviceFeatures: the half the selector names. */
  function FeatureHalf(features: bv64, sel: Sel): (r: bv32)
  {
    match sel
    case Low => (features & 0xFFFF_FFFF) as bv32
    case High => (features >> 32) as bv32
  }

  /** The two halves a driver reads make up the whole feature word. */
  lemma FeatureHalves(features: bv64)
    ensures ((FeatureHalf(features, High) as bv64) << 32) | FeatureHalf(features, Low) as bv64 == features
  {
  }

  /** `x | (val << 32)`: val ORed into the high half of x. */
  function OrHigh(x: bv64, val: bv32): bv64
  {
    x | ((val as bv64) << 32)
  }

  /** ORing into the high half keeps the low half. */
  lemma OrHighKeepsLow(x: bv64, val: bv32)
    ensures OrHigh(x, val) & 0xFFFF_FFFF == x & 0xFFFF_FFFF
  {
  }

  /** ORing into the high half adds the bits of val to it without clearing any. */
  lemma OrHighOrs(x: bv64, val: bv32)
    ensures OrHigh(x, val) >> 32 == (x >> 32) | val as bv64
  {
  }

  /** A low half written alone and then ORed with a high half gives the
      composition of the two halves. */
  lemma OrHighCompose(lo: bv32, hi: bv32)
    ensures OrHigh(lo as bv64, hi) == ((hi as bv64) << 32) | lo as bv64
    ensures (OrHigh(lo as bv64, hi) & 0xFFFF_FFFF) as bv32 == lo && (OrHigh(lo as bv64, hi) >> 32) as bv32 == hi
  {
  }

  /** A write to DriverFeatures: with Low selected the value replaces the whole
      word, with High selected it is ORed into the upper half. */
  function DriverFeaturesAfter(features: bv64, sel: Sel, val: bv32): bv64
  {
    match sel
    case Low => val as bv64
    case High => OrHigh(features, val)
  }

  /** Writing the low half and then the high half sets the whole word, whatever
      it held before. */
  lemma DriverFeaturesCompose(features: bv64, lo: bv32, hi: bv32)
    ensures DriverFeaturesAfter(DriverFeaturesAfter(features, Low, lo), High, hi)
            == ((hi as bv64) << 32) | lo as bv64
  {
    OrHighCompose(lo, hi);
  }

  /** The device status after a Status write, as one expression: a set
      DEVICE_NEEDS_RESET bit clears it, and otherwise the ACKNOWLEDGE,
      DRIVER, FEATURES_OK and DRIVER_OK bits of val are added to it. */
  function StatusAfter(status: bv32, val: bv32): bv32
  {
    if val & DEVICE_NEEDS_RESET != 0 then 0 else status | (val & STATUS_SETTABLE)
  }

  /** The Status write, bit by bit in the order the devices test them. */
  method WriteStatus(status: bv32, val: bv32) returns (r: bv32)
    ensures r == StatusAfter(status, val)
  {
    r := status;
    if val & ACKNOWLEDGE > 0 {
      r := r | ACKNOWLEDGE;
    }
    if val & DRIVER > 0 {
      r := r | DRIVER;
    }
    if val & FEATURES_OK > 0 {
      r := r | FEATURES_OK;
    }
    if val & DRIVER_OK > 0 {
      r := r | DRIVER_OK;
    }
    if val & DEVICE_NEEDS_RESET > 0 {
      r := 0;
    }
    // A set FAILED bit is only logged.
  }

  /** A status write never sets a bit outside the four settable ones: in
      particular FAILED and DEVICE_NEEDS_RESET are never stored, and without a
      reset every bit already set stays set. */
  lemma StatusWriteBits(status: bv32, val: bv32)
    ensures StatusAfter(status, val) & !STATUS_SETTABLE
            == (if val & DEVICE_NEEDS_RESET != 0 then 0 else status & !STATUS_SETTABLE)
    ensures status & FAILED == 0 ==> StatusAfter(status, val) & FAILED == 0
    ensures val & DEVICE_NEEDS_RESET == 0 ==> StatusAfter(status, val) & status == status
  {
  }

  /** The 32-bit configuration fields (discard, write-zeroes, secure-erase
      and zoned limits, and the model) that read as zero. */
  const ZERO_FIELDS: set<nat> := {MAX_DISCARD_SECTORS, MAX_DISCARD_SEG, DISCARD_SECTOR_ALIGNMENT,
                                  MAX_WRITE_ZEROES_SECTORS, MAX_WRITE_ZEROES_SEG, MAX_SECURE_ERASE_SECTORS,
                                  MAX_SECURE_ERASE_SEG, SECURE_ERASE_SECTOR_ALIGNMENT, ZONE_SECTORS,
                                  MAX_OPEN_ZONES, MAX_ACTIVE_ZONES, MAX_APPEND_SECTORS, WRITE_GRANULARITY, MODEL}

  /** The 32-bit block configuration fields the two devices read alike, by
      offset past CONFIG; capacity is read by each device on its own. */
  function ConfigWord(offset: nat): (r: Option<bv32>)
    ensures r.Some? <==> offset in {SIZE_MAX, SEG_MAX, BLK_SIZE, OPT_IO_SIZE} || offset in ZERO_FIELDS
    ensures offset == SIZE_MAX || offset == BLK_SIZE || offset == OPT_IO_SIZE ==> r == Some(512)
    ensures offset == SEG_MAX ==> r == Some(1)
    ensures offset in ZERO_FIELDS ==> r == Some(0)
  {
    if offset == SIZE_MAX then Some(512)
    else if offset == SEG_MAX then Some(1)
    else if offset == BLK_SIZE then Some(512)
    else if offset == OPT_IO_SIZE then Some(512)
    else if offset in ZERO_FIELDS then Some(0)
    else None
  }

  /** The 16-bit configuration fields: four queues, a minimum I/O size of one
      block, no write-zeroes unmapping. */
  function ConfigHalf(offset: nat): (r: Option<bv16>)
    ensures r.Some? <==> offset in {NUM_QUEUES, MIN_IO_SIZE, WRITE_ZEROES_MAY_UNMAP}
    ensures offset == NUM_QUEUES ==> r == Some(4)
    ensures offset == MIN_IO_SIZE ==> r == Some(1)
    ensures offset == WRITE_ZEROES_MAY_UNMAP ==> r == Some(0)
  {
    if offset == NUM_QUEUES then Some(4)
    else if offset == MIN_IO_SIZE then Some(1)
    else if offset == WRITE_ZEROES_MAY_UNMAP then Some(0)
    else None
  }

  /** The 8-bit configuration fields: write-through caching, one logical block
      per physical block, no alignment offset. */
  function ConfigByte(offset: nat): (r: Option<bv8>)
    ensures r.Some? <==> offset in {WRITEBACK, PHYSICAL_BLOCK_EXP, ALIGNMENT_OFFSET}
    ensures offset == WRITEBACK ==> r == Some(0)
    ensures offset == PHYSICAL_BLOCK_EXP ==> r == Some(1)
    ensures offset == ALIGNMENT_OFFSET ==> r == Some(0)
  {
    if offset == WRITEBACK then Some(0)
    else if offset == PHYSICAL_BLOCK_EXP then Some(1)
    else if offset == ALIGNMENT_OFFSET then Some(0)
    else None
  }

  /** `addr - 0x100` on a usize address, wrapping below CONFIG as a release
      build does. */
  function ConfigOffset(addr: nat): (offset: nat)
    ensures addr >= CONFIG ==> offset + CONFIG == addr
    ensures addr < CONFIG ==> offset >= 0x1_0000_0000_0000_0000 - CONFIG
  {
    if addr >= CONFIG then addr - CONFIG else addr + 0x1_0000_0000_0000_0000 - CONFIG
  }

  // The Display formatters.

  /** The flag names of one descriptor, in the order next, write, indirect. */
  function FlagNames(flags: bv16): seq<string>
  {
    (if flags & NEXT > 0 then ["next"] else [])
    + (if flags & WRITE > 0 then ["write"] else [])
    + (if flags & INDIRECT > 0 then ["indirect"] else [])
  }

  /** The position of a flag name in the fixed order. */
  function FlagRank(name: string): nat
  {
    if name == "next" then 0 else if name == "write" then 1 else if name == "indirect" then 2 else 3
  }

  /** Each name is listed exactly when its bit is set, and the names appear
      in the order next, write, indirect. */
  lemma FlagNamesSpec(flags: bv16)
    ensures "next" in FlagNames(flags) <==> flags & NEXT != 0
    ensures "write" in FlagNames(flags) <==> flags & WRITE != 0
    ensures "indirect" in FlagNames(flags) <==> flags & INDIRECT != 0
    ensures forall i, j :: 0 <= i < j < |FlagNames(flags)| ==>
              FlagRank(FlagNames(flags)[i]) < FlagRank(FlagNames(flags)[j])
  {
  }

  /** The names a descriptor list shows: write and indirect, never next. */
  function EntryFlagNames(flags: bv16): (names: seq<string>)
    ensures "next" !in names
    ensures "write" in names <==> flags & WRITE != 0
    ensures "indirect" in names <==> flags & INDIRECT != 0
  {
    (if flags & WRITE > 0 then ["write"] else [])
    + (if flags & INDIRECT > 0 then ["indirect"] else [])
  }

  /** The items of `{:?}` on a list of names: each quoted, separated by ", ". */
  function QuotedItems(names: seq<string>): string
  {
    if |names| == 0 then ""
    else if |names| == 1 then "\"" + names[0] + "\""
    else "\"" + names[0] + "\", " + QuotedItems(names[1..])
  }

  /** `{:?}` on a Vec of string slices. */
  function DebugList(names: seq<string>): string
  {
    "[" + QuotedItems(names) + "]"
  }

  /** An empty flag list shows as `[]`, and only an empty one does. */
  lemma DebugListEmpty(names: seq<string>)
    ensures DebugList(names) == "[]" <==> names == []
  {
    if names != [] {
      assert DebugList(names)[1] == '"';
    }
  }

  /** `impl Display for VirtqDesc`: address in hexadecimal, length, the flag
      names, and the next index. */
  function DescText(d: VirtqDesc): (t: string)
    ensures |t| > 8 && t[..8] == "virtq[0x"
    ensures var next := Decimal(d.next as nat); |t| >= |next| && t[|t| - |next|..] == next
  {
    "virtq[0x" + Hex(d.addr as nat) + " " + Decimal(d.len as nat) + "] "
    + DebugList(FlagNames(d.flags)) + " -> " + Decimal(d.next as nat)
  }

  /** A descriptor shows an empty flag list exactly when none of the three
      flags is set. */
  lemma DescTextFlags(d: VirtqDesc)
    ensures DebugList(FlagNames(d.flags)) == "[]" <==> d.flags & (NEXT | WRITE | INDIRECT) == 0
  {
    DebugListEmpty(FlagNames(d.flags));
  }

  /** One entry of `impl Display for VirtDescs`, with its trailing ", ". */
  function Entry(d: VirtqDesc): string
  {
    "virtq[0x" + Hex(d.addr as nat) + " " + Decimal(d.len as nat) + " "
    + DebugList(EntryFlagNames(d.flags)) + "], "
  }

  /** The texts of the items of a list, one after the other. */
  function Concat<T>(text: T -> string, items: seq<T>): string
  {
    if |items| == 0 then "" else text(items[0]) + Concat(text, items[1..])
  }

  /** `impl Display for VirtDescs`: the entries inside brackets. */
  function DescsText(descs: seq<VirtqDesc>): (t: string)
    ensures |t| >= 2 && t[0] == '[' && t[|t| - 1] == ']'
    ensures descs == [] <==> t == "[]"
  {
    "[" + Concat(Entry, descs) + "]"
  }

  /** The texts of two lists one after the other are the text of the joined
      list: each item contributes its own text. */
  lemma {:induction false} ConcatAppend<T>(text: T -> string, a: seq<T>, b: seq<T>)
    ensures Concat(text, a + b) == Concat(text, a) + Concat(text, b)
    decreases |a|
  {
    if |a| > 0 {
      assert (a + b)[0] == a[0];
      assert (a + b)[1..] == a[1..] + b;
      var t := text(a[0]);
      calc {
        Concat(text, a + b);
        t + Concat(text, a[1..] + b);
        { ConcatAppend(text, a[1..], b); }
        t + (Concat(text, a[1..]) + Concat(text, b));
        (t + Concat(text, a[1..])) + Concat(text, b);
      }
    } else {
      assert a + b == b;
    }
  }

  /** Appending a descriptor appends its entry before the closing bracket. */
  lemma DescsTextSnoc(descs: seq<VirtqDesc>, d: VirtqDesc)
    ensures DescsText(descs + [d]) == "[" + Concat(Entry, descs) + Entry(d) + "]"
  {
    ConcatAppend(Entry, descs, [d]);
  }
}
