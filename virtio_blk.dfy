/**
 * The virtio MMIO block device of src/virtio/blk.rs: the transport state,
 * sixteen virtqueues whose configuration registers act on the selected
 * queue, the block configuration space, and the descriptor reads the device
 * makes through the bus. The bus behind get_desc is modelled as guest memory,
 * a byte sequence read little-endian. The capacity is a parameter of the
 * constructor (the source computes it from the backing file).
 */
module VirtioBlk {
  import opened Wrappers
  import opened Dev = Device
  import opened Text
  import opened Words
  import opened VirtioDefs

  const MAGIC: bv32 := 0x74726976
  const MMIO_VERSION: bv32 := 2
  const BLOCK_DEVICE: bv32 := 2
  const VENDOR: bv32 := 0x1af4

  const MAX_QUEUES: nat := 16

  // Block feature bit numbers.
  const SIZE_MAX_FEATURE: bv64 := 1
  const SEG_MAX_FEATURE: bv64 := 2
  const RO_FEATURE: bv64 := 5
  const BLK_SIZE_FEATURE: bv64 := 6

  /** The features the device offers. */
  const BLK_FEATURES: bv64 :=
    (1 << VERSION_1) | (1 << SIZE_MAX_FEATURE) | (1 << SEG_MAX_FEATURE)
    | (1 << RO_FEATURE) | (1 << BLK_SIZE_FEATURE)

  /** A queue before the driver configures it. */
  const IDLE_QUEUE: Queue := Queue(false, 0, 0, 0, 0)

  /** The registers that act on the selected queue. */
  const QUEUE_REGISTERS: set<nat> := {
    QUEUE_READY, QUEUE_SIZE, QUEUE_DESC_LOW, QUEUE_DESC_HIGH, QUEUE_DRIVER_LOW,
    QUEUE_DRIVER_HIGH, QUEUE_DEVICE_LOW, QUEUE_DEVICE_HIGH}

  /** The registers a word write accepts. */
  const WRITABLE: set<nat> :=
    QUEUE_REGISTERS + {DEVICE_FEATURES_SEL, DRIVER_FEATURES_SEL, DRIVER_FEATURES, STATUS, QUEUE_SEL, QUEUE_NOTIFY}

  // Requests.

  /** The type of a block request. */
  datatype RequestType = In | Out

  /** The discriminant of a request type. */
  function Discriminant(t: RequestType): bv32
  {
    match t
    case In => 0
    case Out => 1
  }

  /** RequestType::try_from: 0 is a read, 1 a write, anything else unknown. */
  function RequestTypeOf(value: bv32): (r: Result<RequestType, Fault>)
    ensures r.Ok? <==> value < 2
    ensures r.Err? ==> r.error == Unimplemented("unknown request type")
  {
    if value == 0 then Ok(In)
    else if value == 1 then Ok(Out)
    else Err(Unimplemented("unknown request type"))
  }

  /** try_from inverts the discriminant, and only a discriminant converts. */
  lemma RequestTypeRoundTrip(t: RequestType, value: bv32)
    ensures RequestTypeOf(Discriminant(t)) == Ok(t)
    ensures RequestTypeOf(value).Ok? ==> Discriminant(RequestTypeOf(value).value) == value
  {
  }

  // The register file.

  /** The device as its registers see it: the capacity in 512-byte sectors,
      the transport state and the queues. */
  datatype Blk = Blk(capacity: bv64, state: State, queues: seq<Queue>)

  /** The device BlkDevice::new builds: sixteen idle queues, the block
      features offered, both selectors low, status 0 and queue 0 selected. */
  function NewBlk(capacity: bv64): (b: Blk)
    ensures |b.queues| == MAX_QUEUES && forall i :: 0 <= i < |b.queues| ==> b.queues[i] == IDLE_QUEUE
    ensures b.state.status == 0 && b.state.queueIdx == 0 && b.state.driverFeatures == 0
  {
    Blk(capacity, State(BLK_FEATURES, 0, Low, Low, 0, 0), seq(MAX_QUEUES, _ => IDLE_QUEUE))
  }

  /** The writes that do not index the queues out of bounds, which panics. */
  predicate WriteDefined(b: Blk, addr: nat, val: bv32)
  {
    && (addr in QUEUE_REGISTERS ==> b.state.queueIdx < |b.queues|)
    && (addr == QUEUE_NOTIFY ==> (val as nat) < |b.queues|)
  }

  /** The selected queue replaced by q. */
  function SetQueue(b: Blk, q: Queue): (c: Blk)
    requires b.state.queueIdx < |b.queues|
  {
    b.(queues := b.queues[b.state.queueIdx := q])
  }

  /** The selected queue after a write to one of its registers: readiness is
      whether the value is non-zero, a low half replaces its area, a high half
      is ORed into the area's upper 32 bits. */
  function QueueAfter(q: Queue, addr: nat, val: bv32): Queue
    requires addr in QUEUE_REGISTERS
  {
    if addr == QUEUE_READY then q.(ready := val != 0)
    else if addr == QUEUE_SIZE then q.(size := val)
    else if addr == QUEUE_DESC_LOW then q.(desc := val as bv64)
    else if addr == QUEUE_DESC_HIGH then q.(desc := OrHigh(q.desc, val))
    else if addr == QUEUE_DRIVER_LOW then q.(driver := val as bv64)
    else if addr == QUEUE_DRIVER_HIGH then q.(driver := OrHigh(q.driver, val))
    else if addr == QUEUE_DEVICE_LOW then q.(device := val as bv64)
    else q.(device := OrHigh(q.device, val))
  }

  /** write_word, as the result and the device after it. QueueNotify leaves
      the registers as they are; the requests it serves in guest memory are
      outside this state. */
  function Write(b: Blk, addr: nat, val: bv32): (out: (Result<(), Fault>, Blk))
    requires WriteDefined(b, addr, val)
    ensures out.0.Ok? <==> addr in WRITABLE
    ensures out.0.Err? ==> out.1 == b
    ensures |out.1.queues| == |b.queues| && out.1.capacity == b.capacity
    ensures out.1.state.deviceFeatures == b.state.deviceFeatures
  {
    var s := b.state;
    if addr in QUEUE_REGISTERS then (Ok(()), SetQueue(b, QueueAfter(b.queues[s.queueIdx], addr, val)))
    else if addr == DEVICE_FEATURES_SEL then (Ok(()), b.(state := s.(deviceFeaturesSel := Select(val))))
    else if addr == DRIVER_FEATURES_SEL then (Ok(()), b.(state := s.(driverFeaturesSel := Select(val))))
    else if addr == DRIVER_FEATURES then
      (Ok(()), b.(state := s.(driverFeatures := DriverFeaturesAfter(s.driverFeatures, s.driverFeaturesSel, val))))
    else if addr == STATUS then (Ok(()), b.(state := s.(status := StatusAfter(s.status, val))))
    else if addr == QUEUE_SEL then (Ok(()), b.(state := s.(queueIdx := val as nat)))
    else if addr == QUEUE_NOTIFY then (Ok(()), b)
    else (Err(Unimplemented("writing register 0x" + Hex(addr) + " unimplemented")), b)
  }

  class BlkDevice {
    const capacity: bv64
    var state: State
    var queues: seq<Queue>

    function Snapshot(): Blk
      reads this
    {
      Blk(capacity, state, queues)
    }

    /** BlkDevice::new, given the capacity. */
    constructor New(capacity: bv64)
      ensures Snapshot() == NewBlk(capacity)
    {
      this.capacity := capacity;
      state := State(BLK_FEATURES, 0, Low, Low, 0, 0);
      queues := seq(MAX_QUEUES, _ => IDLE_QUEUE);
    }

    /** BlkDevice::write_word. */
    method WriteWord(addr: nat, val: bv32) returns (r: Result<(), Fault>)
      requires WriteDefined(Snapshot(), addr, val)
      modifies this
      ensures (r, Snapshot()) == Write(old(Snapshot()), addr, val)
    {
      r := Ok(());
      if addr == DEVICE_FEATURES_SEL || addr == DRIVER_FEATURES_SEL || addr == DRIVER_FEATURES {
        WriteFeatures(addr, val);
      } else if addr == STATUS {
        var status := WriteStatus(state.status, val);
        state := state.(status := status);
      } else if addr == QUEUE_SEL {
        state := state.(queueIdx := val as nat);
      } else if addr == QUEUE_NOTIFY {
        // No register changes; serving the queued requests reads and writes
        // guest memory through the bus, which is not part of this state.
      } else if addr in QUEUE_REGISTERS {
        WriteQueue(addr, val);
      } else {
        r := Err(Unimplemented("writing register 0x" + Hex(addr) + " unimplemented"));
      }
    }

    /** The selector and driver feature arms of write_word. */
    method WriteFeatures(addr: nat, val: bv32)
      requires addr == DEVICE_FEATURES_SEL || addr == DRIVER_FEATURES_SEL || addr == DRIVER_FEATURES
      modifies this
      ensures Snapshot() == Write(old(Snapshot()), addr, val).1
    {
      if addr == DEVICE_FEATURES_SEL {
        state := state.(deviceFeaturesSel := if val == 1 then High else Low);
      } else if addr == DRIVER_FEATURES_SEL {
        state := state.(driverFeaturesSel := if val == 1 then High else Low);
      } else {
        match state.driverFeaturesSel
        case Low =>
          state := state.(driverFeatures := val as bv64);
        case High =>
          state := state.(driverFeatures := OrHigh(state.driverFeatures, val));
      }
    }

    /** The arms of write_word that act on the selected queue. */
    method WriteQueue(addr: nat, val: bv32)
      requires addr in QUEUE_REGISTERS && state.queueIdx < |queues|
      modifies this
      ensures Snapshot() == SetQueue(old(Snapshot()), QueueAfter(old(queues[state.queueIdx]), addr, val))
    {
      var q := queues[state.queueIdx];
      if addr == QUEUE_READY {
        q := q.(ready := val != 0);
      } else if addr == QUEUE_SIZE {
        q := q.(size := val);
      } else if addr == QUEUE_DESC_LOW {
        q := q.(desc := val as bv64);
      } else if addr == QUEUE_DESC_HIGH {
        q := q.(desc := OrHigh(q.desc, val));
      } else if addr == QUEUE_DRIVER_LOW {
        q := q.(driver := val as bv64);
      } else if addr == QUEUE_DRIVER_HIGH {
        q := q.(driver := OrHigh(q.driver, val));
      } else if addr == QUEUE_DEVICE_LOW {
        q := q.(device := val as bv64);
      } else {
        q := q.(device := OrHigh(q.device, val));
      }
      queues := queues[state.queueIdx := q];
    }
  }

  /** The number of queue entries vec! allocates, which queues.capacity()
      reports. */
  const QUEUE_CAPACITY: bv32 := 16

  /** read_word: the identification constants, the selected feature half, the
      status, the configuration space from CONFIG up (the capacity by
      halves), the configuration generation, the selected queue's readiness
      as 0 or 1, and the queue capacity as the maximum queue size. */
  function ReadWord(b: Blk, addr: nat): (r: Result<bv32, Fault>)
    requires addr == QUEUE_READY ==> b.state.queueIdx < |b.queues|
    ensures addr < CONFIG ==>
      (r.Ok? <==> addr in {MAGIC_VALUE, VERSION, DEVICE_ID, VENDOR_ID, DEVICE_FEATURES, STATUS,
                           CONFIG_GENERATION, QUEUE_READY, QUEUE_SIZE_MAX})
  {
    if addr == MAGIC_VALUE then Ok(MAGIC)
    else if addr == VERSION then Ok(MMIO_VERSION)
    else if addr == DEVICE_ID then Ok(BLOCK_DEVICE)
    else if addr == VENDOR_ID then Ok(VENDOR)
    else if addr == DEVICE_FEATURES then Ok(FeatureHalf(b.state.deviceFeatures, b.state.deviceFeaturesSel))
    else if addr == STATUS then Ok(b.state.status)
    else if addr >= CONFIG then
      var offset := addr - CONFIG;
      if offset == CAPACITY then Ok((b.capacity & 0xFFFF_FFFF) as bv32)
      else if offset == CAPACITY_HIGH then Ok((b.capacity >> 32) as bv32)
      else match ConfigWord(offset)
        case Some(v) => Ok(v)
        case None => Err(Unimplemented("reading config register 0x" + Hex(offset) + ":u32 unimplemented"))
    else if addr == CONFIG_GENERATION then Ok(0xdeadbeef)
    else if addr == QUEUE_READY then Ok(if b.queues[b.state.queueIdx].ready then 1 else 0)
    else if addr == QUEUE_SIZE_MAX then Ok(QUEUE_CAPACITY)
    else Err(Unimplemented("reading register 0x" + Hex(addr) + " unimplemented"))
  }

  /** read_double as written: the capacity field reads 1, whatever the
      capacity. */
  function ReadDouble(b: Blk, addr: nat): (r: Result<bv64, Fault>)
    ensures r.Ok? <==> addr == CONFIG + CAPACITY
    ensures r.Ok? ==> r.value == 1
  {
    var offset := ConfigOffset(addr);
    if offset == CAPACITY then Ok(1)
    else Err(Unimplemented("reading config register 0x" + Hex(offset) + " unimplemented"))
  }

  /** read_double with the capacity field reading the capacity. */
  function ReadDoubleFixed(b: Blk, addr: nat): (r: Result<bv64, Fault>)
    ensures r.Ok? <==> addr == CONFIG + CAPACITY
    ensures r.Ok? ==> r.value == b.capacity
  {
    var offset := ConfigOffset(addr);
    if offset == CAPACITY then Ok(b.capacity)
    else Err(Unimplemented("reading config register 0x" + Hex(offset) + " unimplemented"))
  }

  /** read_half: the 16-bit configuration fields. */
  function ReadHalf(addr: nat): (r: Result<bv16, Fault>)
    ensures r.Ok? <==> addr >= CONFIG && ConfigHalf(addr - CONFIG).Some?
    ensures addr == CONFIG + NUM_QUEUES ==> r == Ok(4)
    ensures addr == CONFIG + MIN_IO_SIZE ==> r == Ok(1)
    ensures addr == CONFIG + WRITE_ZEROES_MAY_UNMAP ==> r == Ok(0)
  {
    var offset := ConfigOffset(addr);
    match ConfigHalf(offset)
    case Some(v) => Ok(v)
    case None => Err(Unimplemented("reading config register 0x" + Decimal(offset) + ":u16 unimplemented"))
  }

  /** read_byte: the 8-bit configuration fields. */
  function ReadByte(addr: nat): (r: Result<bv8, Fault>)
    ensures r.Ok? <==> addr >= CONFIG && ConfigByte(addr - CONFIG).Some?
    ensures addr == CONFIG + WRITEBACK ==> r == Ok(0)
    ensures addr == CONFIG + PHYSICAL_BLOCK_EXP ==> r == Ok(1)
    ensures addr == CONFIG + ALIGNMENT_OFFSET ==> r == Ok(0)
  {
    var offset := ConfigOffset(addr);
    match ConfigByte(offset)
    case Some(v) => Ok(v)
    case None => Err(Unimplemented("reading config register 0x" + Hex(offset) + ":u8 unimplemented"))
  }

  function WriteDouble(addr: nat, val: bv64): (r: Result<(), Fault>)
    ensures r.Err? && r.error.Unimplemented?
  {
    Err(Unimplemented("writing double unimplemented"))
  }

  function WriteHalf(addr: nat, val: bv16): (r: Result<(), Fault>)
    ensures r.Err? && r.error.Unimplemented?
  {
    Err(Unimplemented("writing half word unimplemented"))
  }

  function WriteByte(addr: nat, val: bv8): (r: Result<(), Fault>)
    ensures r.Err? && r.error.Unimplemented?
  {
    Err(Unimplemented("writing byte unimplemented"))
  }

  // Properties of the register file.

  /** A word write succeeds exactly at the writable registers, a refused write
      changes nothing, and no write changes the number of queues or the
      capacity. */
  lemma WriteRefused(b: Blk, addr: nat, val: bv32)
    requires WriteDefined(b, addr, val)
    ensures Write(b, addr, val).0.Ok? <==> addr in WRITABLE
    ensures Write(b, addr, val).0.Err? ==> Write(b, addr, val).1 == b
    ensures |Write(b, addr, val).1.queues| == |b.queues| && Write(b, addr, val).1.capacity == b.capacity
  {
  }

  /** A queue register write changes the selected queue and nothing else. */
  lemma QueueWriteLocal(b: Blk, addr: nat, val: bv32, i: nat)
    requires addr in QUEUE_REGISTERS && b.state.queueIdx < |b.queues|
    requires i < |b.queues| && i != b.state.queueIdx
    ensures Write(b, addr, val).1.queues[i] == b.queues[i]
    ensures Write(b, addr, val).1.state == b.state
  {
  }

  /** A queue register write replaces the selected queue by QueueAfter; a
      high-half area write keeps the area's low half. */
  lemma QueueWriteSelected(b: Blk, addr: nat, val: bv32)
    requires addr in QUEUE_REGISTERS && b.state.queueIdx < |b.queues|
    ensures Write(b, addr, val).1.queues[b.state.queueIdx] == QueueAfter(b.queues[b.state.queueIdx], addr, val)
  {
  }

  /** Each area of the selected queue written low half then high half is hi:lo. */
  lemma AreasCompose(q: Queue, lo: bv32, hi: bv32)
    ensures QueueAfter(QueueAfter(q, QUEUE_DESC_LOW, lo), QUEUE_DESC_HIGH, hi).desc == ((hi as bv64) << 32) | lo as bv64
    ensures QueueAfter(QueueAfter(q, QUEUE_DRIVER_LOW, lo), QUEUE_DRIVER_HIGH, hi).driver == ((hi as bv64) << 32) | lo as bv64
    ensures QueueAfter(QueueAfter(q, QUEUE_DEVICE_LOW, lo), QUEUE_DEVICE_HIGH, hi).device == ((hi as bv64) << 32) | lo as bv64
  {
    OrHighCompose(lo, hi);
  }

  /** QueueReady stores whether the value is non-zero in the selected queue and
      reads back 0 or 1. */
  lemma QueueReadyReadsBack(b: Blk, val: bv32)
    requires b.state.queueIdx < |b.queues|
    ensures ReadWord(Write(b, QUEUE_READY, val).1, QUEUE_READY) == Ok(if val != 0 then 1 else 0)
  {
  }

  /** A selector write selects the high half exactly when the value is 1, and
      changes nothing else. */
  lemma SelectorWrites(b: Blk, val: bv32)
    ensures Write(b, DEVICE_FEATURES_SEL, val).1.state.deviceFeaturesSel == High <==> val == 1
    ensures Write(b, DRIVER_FEATURES_SEL, val).1.state.driverFeaturesSel == High <==> val == 1
    ensures Write(b, DEVICE_FEATURES_SEL, val).1.(state := b.state.(deviceFeaturesSel := b.state.deviceFeaturesSel)) == b
    ensures Write(b, DRIVER_FEATURES_SEL, val).1.(state := b.state.(driverFeaturesSel := b.state.driverFeaturesSel)) == b
  {
  }

  /** The driver feature negotiation leaves hi:lo as the driver's features. */
  lemma DriverFeaturesNegotiated(b: Blk, lo: bv32, hi: bv32)
    ensures var b1 := Write(b, DRIVER_FEATURES_SEL, 0).1;
            var b2 := Write(b1, DRIVER_FEATURES, lo).1;
            var b3 := Write(b2, DRIVER_FEATURES_SEL, 1).1;
            Write(b3, DRIVER_FEATURES, hi).1.state.driverFeatures == ((hi as bv64) << 32) | lo as bv64
  {
    var b1 := Write(b, DRIVER_FEATURES_SEL, 0).1;
    assert b1.state.driverFeaturesSel == Low;
    var b2 := Write(b1, DRIVER_FEATURES, lo).1;
    assert b2.state.driverFeatures == DriverFeaturesAfter(b1.state.driverFeatures, Low, lo);
    var b3 := Write(b2, DRIVER_FEATURES_SEL, 1).1;
    assert b3.state.driverFeaturesSel == High && b3.state.driverFeatures == b2.state.driverFeatures;
    assert Write(b3, DRIVER_FEATURES, hi).1.state.driverFeatures == DriverFeaturesAfter(b2.state.driverFeatures, High, hi);
    DriverFeaturesCompose(b.state.driverFeatures, lo, hi);
  }

  /** A status write follows the shared status rule and reads back as such. */
  lemma StatusWrite(b: Blk, val: bv32)
    ensures ReadWord(Write(b, STATUS, val).1, STATUS) == Ok(StatusAfter(b.state.status, val))
    ensures Write(b, STATUS, val).1.queues == b.queues
  {
  }

  /** The offered features are bits 32, 1, 2, 5 and 6: the low half reads
      0x66 and the high half 1. */
  lemma FeaturesByHalves(capacity: bv64)
    ensures BLK_FEATURES == 0x1_0000_0066
    ensures ReadWord(NewBlk(capacity), DEVICE_FEATURES) == Ok(0x66)
    ensures ReadWord(Write(NewBlk(capacity), DEVICE_FEATURES_SEL, 1).1, DEVICE_FEATURES) == Ok(1)
  {
  }

  /** The identification registers read the same constants in every state,
      and the maximum queue size is the sixteen queues. */
  lemma IdentityRegisters(b: Blk)
    ensures ReadWord(b, MAGIC_VALUE) == Ok(0x74726976)
    ensures ReadWord(b, VERSION) == Ok(2) && ReadWord(b, DEVICE_ID) == Ok(2)
    ensures ReadWord(b, VENDOR_ID) == Ok(0x1af4) && ReadWord(b, QUEUE_SIZE_MAX) == Ok(MAX_QUEUES as bv32)
  {
  }

  /** The capacity reads by halves, which compose to the capacity; the block,
      maximum segment and optimal I/O sizes read 512 and the segment count 1. */
  lemma ConfigReads(b: Blk)
    ensures ReadWord(b, CONFIG + CAPACITY).Ok? && ReadWord(b, CONFIG + CAPACITY_HIGH).Ok?
    ensures ((ReadWord(b, CONFIG + CAPACITY_HIGH).value as bv64) << 32) | ReadWord(b, CONFIG + CAPACITY).value as bv64
            == b.capacity
    ensures ReadWord(b, CONFIG + SIZE_MAX) == Ok(512) && ReadWord(b, CONFIG + BLK_SIZE) == Ok(512)
    ensures ReadWord(b, CONFIG + OPT_IO_SIZE) == Ok(512) && ReadWord(b, CONFIG + SEG_MAX) == Ok(1)
  {
    FeatureHalves(b.capacity);
  }

  /** As written, a double read of the capacity gives 1 while the word reads
      give the capacity: for 5 sectors the two disagree. */
  lemma CapacityDoubleAsWritten(b: Blk)
    requires b.capacity == 5
    ensures ReadDouble(b, CONFIG + CAPACITY) == Ok(1)
    ensures ReadWord(b, CONFIG + CAPACITY) == Ok(5) && ReadWord(b, CONFIG + CAPACITY_HIGH) == Ok(0)
  {
  }

  /** With the fix, the double read of the capacity is the composition of the
      two word reads. */
  lemma CapacityDoubleFixed(b: Blk)
    ensures ReadDoubleFixed(b, CONFIG + CAPACITY).Ok?
    ensures ReadDoubleFixed(b, CONFIG + CAPACITY).value
            == ((ReadWord(b, CONFIG + CAPACITY_HIGH).value as bv64) << 32) | ReadWord(b, CONFIG + CAPACITY).value as bv64
  {
    FeatureHalves(b.capacity);
  }

  // Descriptors in guest memory.

  /** `queue.desc + 16 * desc_idx`: the address of a descriptor. */
  function DescAddr(q: Queue, idx: bv16): nat
  {
    q.desc as nat + 16 * idx as nat
  }

  /** The descriptor lies in guest memory, so that none of its reads faults. */
  predicate DescInMemory(mem: seq<bv8>, q: Queue, idx: bv16)
  {
    DescAddr(q, idx) + 16 <= |mem|
  }

  /** get_desc: the 16-byte descriptor, as address, length, flags and next index. */
  function GetDesc(mem: seq<bv8>, q: Queue, idx: bv16): VirtqDesc
    requires DescInMemory(mem, q, idx)
  {
    var a := DescAddr(q, idx);
    VirtqDesc(LeDouble(mem, a), LeWordAt(mem, a + 8), LeHalf(mem, a + 12), LeHalf(mem, a + 14))
  }

  /** Every byte counts: the descriptor get_desc reads lays out as the very
      bytes it was read from. */
  lemma GetDescBytes(mem: seq<bv8>, q: Queue, idx: bv16)
    requires DescInMemory(mem, q, idx)
    ensures EncodeDesc(GetDesc(mem, q, idx)) == mem[DescAddr(q, idx)..DescAddr(q, idx) + 16]
  {
    var a := DescAddr(q, idx);
    DoubleBytesOfLe(mem, a);
    WordBytesOfLe(mem, a + 8);
    HalfBytesOfLe(mem, a + 12);
    HalfBytesOfLe(mem, a + 14);
    SliceOfSixteen(mem, a);
  }

  /** The 16 bytes at a, cut where the fields of a descriptor meet. */
  lemma SliceOfSixteen(mem: seq<bv8>, a: nat)
    requires a + 16 <= |mem|
    ensures mem[a..a + 16] == mem[a..a + 8] + mem[a + 8..a + 12] + mem[a + 12..a + 14] + mem[a + 14..a + 16]
  {
    assert mem[a..a + 16] == mem[a..a + 8] + mem[a + 8..a + 16];
    assert mem[a + 8..a + 16] == mem[a + 8..a + 12] + mem[a + 12..a + 16];
    assert mem[a + 12..a + 16] == mem[a + 12..a + 14] + mem[a + 14..a + 16];
  }

  // The layout of a descriptor, as the driver writes it.

  /** The 16 bytes of a descriptor in memory. */
  function EncodeDesc(d: VirtqDesc): (bytes: seq<bv8>)
    ensures |bytes| == 16
  {
    DoubleBytes(d.addr) + WordBytes(d.len) + HalfBytes(d.flags) + HalfBytes(d.next)
  }

  /** get_desc reads back the descriptor a driver laid out at its address. */
  lemma GetDescEncoded(mem: seq<bv8>, q: Queue, idx: bv16, d: VirtqDesc)
    requires DescInMemory(mem, q, idx)
    requires mem[DescAddr(q, idx)..DescAddr(q, idx) + 16] == EncodeDesc(d)
    ensures GetDesc(mem, q, idx) == d
  {
    var a := DescAddr(q, idx);
    var e := EncodeDesc(d);
    forall i | 0 <= i < 16
      ensures mem[a + i] == e[i]
    {
      assert mem[a..a + 16][i] == mem[a + i];
    }
    forall i | 0 <= i < 8
      ensures mem[a + i] == DoubleBytes(d.addr)[i]
    {
      assert e[i] == DoubleBytes(d.addr)[i];
    }
    LeDoubleBytes(mem, a, d.addr);
    assert mem[a + 8] == e[8] && mem[a + 9] == e[9] && mem[a + 10] == e[10] && mem[a + 11] == e[11];
    LeWordAtBytes(mem, a + 8, d.len);
    assert mem[a + 12] == e[12] && mem[a + 13] == e[13];
    LeHalfBytes(mem, a + 12, d.flags);
    assert mem[a + 14] == e[14] && mem[a + 15] == e[15];
    LeHalfBytes(mem, a + 14, d.next);
  }

  // The descriptor chain walk of get_desc_rw_size.

  /** Where a walk along descriptors ends within its fuel: it stops with the
      descriptors visited, it reaches a descriptor outside memory, or it is
      still running. */
  datatype Walk = Stops(descs: seq<VirtqDesc>) | Faults | Runs

  /** The visited descriptors put in front of a walk's. */
  function Extend(seen: seq<VirtqDesc>, w: Walk): Walk
  {
    match w
    case Stops(ds) => Stops(seen + ds)
    case _ => w
  }

  /** The walk from descriptor idx in at most fuel steps: a descriptor ends it
      when its NEXT bit is set exactly when stopOnNext holds, and otherwise
      the walk goes on at its next index. get_desc_rw_size walks with
      stopOnNext true; the chains of section 2.7.5 of the virtio
      specification end at the first descriptor without NEXT, stopOnNext
      false. */
  function WalkFrom(mem: seq<bv8>, q: Queue, idx: bv16, fuel: nat, stopOnNext: bool): Walk
    decreases fuel
  {
    if fuel == 0 then Runs
    else if !DescInMemory(mem, q, idx) then Faults
    else
      var d := GetDesc(mem, q, idx);
      if (d.flags & NEXT > 0) == stopOnNext then Stops([d])
      else Extend([d], WalkFrom(mem, q, d.next, fuel - 1, stopOnNext))
  }

  /** The bytes the device reads: the lengths of the descriptors without the
      WRITE flag, summed with u32 wrap-around. */
  function ReadTotal(ds: seq<VirtqDesc>): bv32
  {
    if |ds| == 0 then 0
    else
      var d := ds[|ds| - 1];
      if d.flags & WRITE > 0 then ReadTotal(ds[..|ds| - 1]) else WrappingAdd(ReadTotal(ds[..|ds| - 1]), d.len)
  }

  /** The bytes the device writes: the lengths of the WRITE descriptors. */
  function WriteTotal(ds: seq<VirtqDesc>): bv32
  {
    if |ds| == 0 then 0
    else
      var d := ds[|ds| - 1];
      if d.flags & WRITE > 0 then WrappingAdd(WriteTotal(ds[..|ds| - 1]), d.len) else WriteTotal(ds[..|ds| - 1])
  }

  /** All the lengths. */
  function Total(ds: seq<VirtqDesc>): bv32
  {
    if |ds| == 0 then 0 else WrappingAdd(Total(ds[..|ds| - 1]), ds[|ds| - 1].len)
  }

  /** A chain of device-readable descriptors is read in full and nothing is
      written; a chain of device-writable ones the reverse. */
  lemma {:induction false} TotalsOneWay(ds: seq<VirtqDesc>)
    ensures (forall i :: 0 <= i < |ds| ==> ds[i].flags & WRITE == 0) ==>
              ReadTotal(ds) == Total(ds) && WriteTotal(ds) == 0
    ensures (forall i :: 0 <= i < |ds| ==> ds[i].flags & WRITE != 0) ==>
              WriteTotal(ds) == Total(ds) && ReadTotal(ds) == 0
    decreases |ds|
  {
    if |ds| > 0 {
      var p := ds[..|ds| - 1];
      TotalsOneWay(p);
      assert forall i :: 0 <= i < |p| ==> p[i] == ds[i];
    }
  }

  /** The sizes get_desc_rw_size returns for a walk, None while it runs. */
  function SizesOf(w: Walk): Option<(bv32, bv32)>
    requires !w.Faults?
  {
    match w
    case Stops(ds) => Some((ReadTotal(ds), WriteTotal(ds)))
    case Runs => None
  }

  /** get_desc_rw_size with at most fuel descriptors read: the read and write
      totals of the descriptors it visits, or None when fuel runs out. A read
      outside memory panics on its unwrap. */
  method GetDescRwSize(mem: seq<bv8>, queue: Queue, descIdx: bv16, fuel: nat) returns (r: Option<(bv32, bv32)>)
    requires !WalkFrom(mem, queue, descIdx, fuel, true).Faults?
    ensures r == SizesOf(WalkFrom(mem, queue, descIdx, fuel, true))
  {
    var readSize: bv32 := 0;
    var writeSize: bv32 := 0;
    var idx := descIdx;
    var n := 0;
    ghost var seen: seq<VirtqDesc> := [];
    while n < fuel
      invariant n <= fuel
      invariant readSize == ReadTotal(seen) && writeSize == WriteTotal(seen)
      invariant WalkFrom(mem, queue, descIdx, fuel, true) == Extend(seen, WalkFrom(mem, queue, idx, fuel - n, true))
      decreases fuel - n
    {
      assert DescInMemory(mem, queue, idx);
      var desc := GetDesc(mem, queue, idx);
      ExtendTwice(seen, [desc], WalkFrom(mem, queue, desc.next, fuel - n - 1, true));
      if desc.flags & WRITE > 0 {
        writeSize := WrappingAdd(writeSize, desc.len);
      } else {
        readSize := WrappingAdd(readSize, desc.len);
      }
      assert (seen + [desc])[..|seen|] == seen;
      seen := seen + [desc];
      if desc.flags & NEXT > 0 {
        return Some((readSize, writeSize));
      }
      idx := desc.next;
      n := n + 1;
    }
    return None;
  }

  lemma ExtendTwice(a: seq<VirtqDesc>, b: seq<VirtqDesc>, w: Walk)
    ensures Extend(a, Extend(b, w)) == Extend(a + b, w)
  {
    if w.Stops? {
      assert a + (b + w.descs) == (a + b) + w.descs;
    }
  }

  /** A walk that ends within its fuel ends the same way with more fuel. */
  lemma {:induction false} WalkFuel(mem: seq<bv8>, q: Queue, idx: bv16, fuel: nat, more: nat, stopOnNext: bool)
    requires !WalkFrom(mem, q, idx, fuel, stopOnNext).Runs?
    requires more >= fuel
    ensures WalkFrom(mem, q, idx, more, stopOnNext) == WalkFrom(mem, q, idx, fuel, stopOnNext)
    decreases fuel
  {
    if DescInMemory(mem, q, idx) && (GetDesc(mem, q, idx).flags & NEXT > 0) != stopOnNext {
      WalkFuel(mem, q, GetDesc(mem, q, idx).next, fuel - 1, more - 1, stopOnNext);
    }
  }

  /** A walk that stops visits a chain: each descriptor is read at the next
      index of the one before, every descriptor but the last goes on, and the
      last ends the walk. */
  lemma {:induction false} WalkShape(mem: seq<bv8>, q: Queue, idx: bv16, fuel: nat, stopOnNext: bool)
    requires WalkFrom(mem, q, idx, fuel, stopOnNext).Stops?
    ensures var ds := WalkFrom(mem, q, idx, fuel, stopOnNext).descs;
            && |ds| >= 1
            && DescInMemory(mem, q, idx) && ds[0] == GetDesc(mem, q, idx)
            && ((ds[|ds| - 1].flags & NEXT > 0) == stopOnNext)
            && (forall i :: 0 <= i < |ds| - 1 ==> (ds[i].flags & NEXT > 0) != stopOnNext)
            && (forall i :: 0 <= i < |ds| - 1 ==>
                  DescInMemory(mem, q, ds[i].next) && ds[i + 1] == GetDesc(mem, q, ds[i].next))
    decreases fuel
  {
    var d := GetDesc(mem, q, idx);
    if (d.flags & NEXT > 0) != stopOnNext {
      WalkShape(mem, q, d.next, fuel - 1, stopOnNext);
      var rest := WalkFrom(mem, q, d.next, fuel - 1, stopOnNext).descs;
      var ds := [d] + rest;
      assert WalkFrom(mem, q, idx, fuel, stopOnNext).descs == ds;
      forall i | 0 <= i < |ds| - 1
        ensures (ds[i].flags & NEXT > 0) != stopOnNext
        ensures DescInMemory(mem, q, ds[i].next) && ds[i + 1] == GetDesc(mem, q, ds[i].next)
      {
        if i > 0 {
          assert ds[i] == rest[i - 1] && ds[i + 1] == rest[i];
        }
      }
    }
  }

  /** As written, a two-descriptor chain (a head with NEXT set whose next
      descriptor has it clear) is cut after the head: only the head's length
      is counted. The chain walk counts both. */
  lemma TwoDescriptorChain(mem: seq<bv8>, q: Queue, head: bv16, fuel: nat)
    requires fuel >= 2 && DescInMemory(mem, q, head)
    requires GetDesc(mem, q, head).flags & NEXT != 0
    requires DescInMemory(mem, q, GetDesc(mem, q, head).next)
    requires GetDesc(mem, q, GetDesc(mem, q, head).next).flags & NEXT == 0
    ensures WalkFrom(mem, q, head, fuel, true) == Stops([GetDesc(mem, q, head)])
    ensures WalkFrom(mem, q, head, fuel, false)
            == Stops([GetDesc(mem, q, head), GetDesc(mem, q, GetDesc(mem, q, head).next)])
  {
    var d1 := GetDesc(mem, q, GetDesc(mem, q, head).next);
    assert WalkFrom(mem, q, GetDesc(mem, q, head).next, fuel - 1, false) == Stops([d1]);
  }

  /** As written, a single descriptor without NEXT whose next index is its own
      (a zeroed next field at index 0, say) is walked forever; the chain walk
      stops at it. */
  lemma {:induction false} SelfLinkedDiverges(mem: seq<bv8>, q: Queue, idx: bv16, fuel: nat)
    requires DescInMemory(mem, q, idx)
    requires GetDesc(mem, q, idx).flags & NEXT == 0 && GetDesc(mem, q, idx).next == idx
    ensures WalkFrom(mem, q, idx, fuel, true) == Runs
    ensures fuel >= 1 ==> WalkFrom(mem, q, idx, fuel, false) == Stops([GetDesc(mem, q, idx)])
    decreases fuel
  {
    if fuel > 0 {
      SelfLinkedDiverges(mem, q, idx, fuel - 1);
    }
  }
}
