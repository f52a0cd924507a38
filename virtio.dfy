/**
 * The virtio MMIO block device of src/virtio.rs, the single-queue variant
 * that reports faults with the Fault type of src/plic.rs. Only the transport
 * registers exist: requests are never served. A register write updates the
 * device state in place; the reads are pure lookups on that state. The
 * identification values are constants of the device.
 */
module Virtio {
  import opened Wrappers
  import opened Dev = Device
  import opened Text
  import opened VirtioDefs

  /** "virt" read as a little-endian word. */
  const MAGIC: bv32 := 0x74726976
  /** The non-legacy transport version. */
  const MMIO_VERSION: bv32 := 2
  /** The block device type. */
  const BLOCK_DEVICE: bv32 := 2
  /** The vendor id of emulated devices. */
  const VENDOR: bv32 := 0x1af4

  /** The device state: features and their selectors, the device status and
      the one queue's configuration. */
  datatype MmioState = MmioState(
    deviceFeatures: bv64,
    driverFeatures: bv64,
    driverFeaturesSel: Sel,
    deviceFeaturesSel: Sel,
    status: bv32,
    queueReady: bool,
    queueIdx: bv32,
    queueSize: bv32,
    queueDesc: bv64,
    queueDriver: bv64,
    queueDevice: bv64,
    features: bv64)

  /** The registers a word write accepts. */
  const WRITABLE: set<nat> := {
    DEVICE_FEATURES_SEL, DRIVER_FEATURES_SEL, DRIVER_FEATURES, STATUS, QUEUE_SEL,
    QUEUE_READY, QUEUE_SIZE, QUEUE_DESC_LOW, QUEUE_DESC_HIGH, QUEUE_DRIVER_LOW,
    QUEUE_DRIVER_HIGH, QUEUE_DEVICE_LOW, QUEUE_DEVICE_HIGH}

  /** The state new_block_device starts from: the VERSION_1 feature offered,
      both selectors on the low half, everything else zero. */
  function NewState(): (s: MmioState)
    ensures s.deviceFeatures >> VERSION_1 == 1 && s.deviceFeatures & 0xFFFF_FFFF == 0
    ensures s.driverFeaturesSel == Low && s.deviceFeaturesSel == Low
    ensures s.driverFeatures == 0 && s.status == 0 && !s.queueReady && s.queueIdx == 0 && s.queueSize == 0
    ensures s.queueDesc == 0 && s.queueDriver == 0 && s.queueDevice == 0 && s.features == 0
  {
    MmioState((1 as bv64) << VERSION_1, 0, Low, Low, 0, false, 0, 0, 0, 0, 0, 0)
  }

  /** write_word as written, as the result and the state after it: a write
      succeeds exactly at the writable registers, a refused write changes
      nothing, and the offered features never change. */
  function Write(s: MmioState, addr: nat, val: bv32): (out: (Result<(), Fault>, MmioState))
    ensures out.0.Ok? <==> addr in WRITABLE
    ensures out.0.Err? ==> out.1 == s
    ensures out.1.deviceFeatures == s.deviceFeatures
  {
    if addr == DEVICE_FEATURES_SEL then (Ok(()), s.(deviceFeaturesSel := Select(val)))
    else if addr == DRIVER_FEATURES_SEL then (Ok(()), s.(driverFeaturesSel := Select(val)))
    else if addr == DRIVER_FEATURES then
      (Ok(()), s.(driverFeatures := DriverFeaturesAfter(s.driverFeatures, s.driverFeaturesSel, val)))
    else if addr == STATUS then (Ok(()), s.(status := StatusAfter(s.status, val)))
    else if addr == QUEUE_SEL then (Ok(()), s.(queueIdx := val))
    else if addr == QUEUE_READY then (Ok(()), s.(queueReady := val != 0))
    else if addr == QUEUE_SIZE then (Ok(()), s.(queueSize := val))
    else if addr == QUEUE_DESC_LOW then (Ok(()), s.(queueDesc := val as bv64))
    else if addr == QUEUE_DESC_HIGH then (Ok(()), s.(queueDesc := OrHigh(s.queueDesc, val)))
    else if addr == QUEUE_DRIVER_LOW then (Ok(()), s.(queueDriver := val as bv64))
    else if addr == QUEUE_DRIVER_HIGH then (Ok(()), s.(queueDriver := OrHigh(s.queueDesc, val)))
    else if addr == QUEUE_DEVICE_LOW then (Ok(()), s.(queueDevice := val as bv64))
    else if addr == QUEUE_DEVICE_HIGH then (Ok(()), s.(queueDevice := OrHigh(s.queueDesc, val)))
    else (Err(Unimplemented("virtio: writing register 0x" + Hex(addr) + " unimplemented")), s)
  }

  /** write_word with the driver and device area high halves ORed into their
      own fields, as src/virtio/blk.rs does. */
  function WriteFixed(s: MmioState, addr: nat, val: bv32): (Result<(), Fault>, MmioState)
  {
    if addr == QUEUE_DRIVER_HIGH then (Ok(()), s.(queueDriver := OrHigh(s.queueDriver, val)))
    else if addr == QUEUE_DEVICE_HIGH then (Ok(()), s.(queueDevice := OrHigh(s.queueDevice, val)))
    else Write(s, addr, val)
  }

  class Device {
    var state: MmioState

    /** Device::new_block_device. */
    constructor NewBlockDevice()
      ensures state == NewState()
    {
      state := NewState();
    }

    /** Device::write_word: one register of the state changes, or the write is
        refused and nothing changes. */
    method WriteWord(addr: nat, val: bv32) returns (r: Result<(), Fault>)
      modifies this
      ensures (r, state) == Write(old(state), addr, val)
    {
      r := Ok(());
      if addr == DEVICE_FEATURES_SEL || addr == DRIVER_FEATURES_SEL || addr == DRIVER_FEATURES {
        WriteFeatures(addr, val);
      } else if addr == STATUS {
        var status := WriteStatus(state.status, val);
        state := state.(status := status);
      } else if addr == QUEUE_SEL {
        state := state.(queueIdx := val);
      } else if addr == QUEUE_READY {
        state := state.(queueReady := val != 0);
      } else if addr == QUEUE_SIZE {
        state := state.(queueSize := val);
      } else if QUEUE_DESC_LOW <= addr <= QUEUE_DEVICE_HIGH && addr in WRITABLE {
        WriteAreas(addr, val);
      } else {
        r := Err(Unimplemented("virtio: writing register 0x" + Hex(addr) + " unimplemented"));
      }
    }

    /** The selector and driver feature arms of write_word. */
    method WriteFeatures(addr: nat, val: bv32)
      requires addr == DEVICE_FEATURES_SEL || addr == DRIVER_FEATURES_SEL || addr == DRIVER_FEATURES
      modifies this
      ensures state == Write(old(state), addr, val).1
    {
      if addr == DEVICE_FEATURES_SEL {
        state := state.(deviceFeaturesSel := if val == 1 then High else Low);
      } else if addr == DRIVER_FEATURES_SEL {
        state := state.(driverFeaturesSel := if val == 1 then High else Low);
      } else {
        match state.driverFeaturesSel
        case Low =>
          state := state.(driverFeatures := val as bv64);
        case High =>
          state := state.(driverFeatures := OrHigh(state.driverFeatures, val));
      }
    }

    /** The queue area arms of write_word: each high half is ORed with the
        descriptor area address. */
    method WriteAreas(addr: nat, val: bv32)
      requires QUEUE_DESC_LOW <= addr <= QUEUE_DEVICE_HIGH && addr in WRITABLE
      modifies this
      ensures state == Write(old(state), addr, val).1
    {
      if addr == QUEUE_DESC_LOW || addr == QUEUE_DESC_HIGH {
        WriteDescArea(addr, val);
      } else if addr == QUEUE_DRIVER_LOW || addr == QUEUE_DRIVER_HIGH {
        WriteDriverArea(addr, val);
      } else {
        WriteDeviceArea(addr, val);
      }
    }

    method WriteDescArea(addr: nat, val: bv32)
      requires addr == QUEUE_DESC_LOW || addr == QUEUE_DESC_HIGH
      modifies this
      ensures state == Write(old(state), addr, val).1
    {
      if addr == QUEUE_DESC_LOW {
        state := state.(queueDesc := val as bv64);
      } else {
        state := state.(queueDesc := OrHigh(state.queueDesc, val));
      }
    }

    method WriteDriverArea(addr: nat, val: bv32)
      requires addr == QUEUE_DRIVER_LOW || addr == QUEUE_DRIVER_HIGH
      modifies this
      ensures state == Write(old(state), addr, val).1
    {
      if addr == QUEUE_DRIVER_LOW {
        state := state.(queueDriver := val as bv64);
      } else {
        state := state.(queueDriver := OrHigh(state.queueDesc, val));
      }
    }

    method WriteDeviceArea(addr: nat, val: bv32)
      requires addr == QUEUE_DEVICE_LOW || addr == QUEUE_DEVICE_HIGH
      modifies this
      ensures state == Write(old(state), addr, val).1
    {
      if addr == QUEUE_DEVICE_LOW {
        state := state.(queueDevice := val as bv64);
      } else {
        state := state.(queueDevice := OrHigh(state.queueDesc, val));
      }
    }
  }

  /** read_word: the identification constants, the selected feature half,
      the status, the configuration space from CONFIG up, the configuration
      generation, the queue readiness as 0 or 1 and a maximum queue size of 1. */
  function ReadWord(s: MmioState, addr: nat): (r: Result<bv32, Fault>)
    ensures addr < CONFIG ==>
      (r.Ok? <==> addr in {MAGIC_VALUE, VERSION, DEVICE_ID, VENDOR_ID, DEVICE_FEATURES, STATUS,
                           CONFIG_GENERATION, QUEUE_READY, QUEUE_SIZE_MAX})
  {
    if addr == MAGIC_VALUE then Ok(MAGIC)
    else if addr == VERSION then Ok(MMIO_VERSION)
    else if addr == DEVICE_ID then Ok(BLOCK_DEVICE)
    else if addr == VENDOR_ID then Ok(VENDOR)
    else if addr == DEVICE_FEATURES then Ok(FeatureHalf(s.deviceFeatures, s.deviceFeaturesSel))
    else if addr == STATUS then Ok(s.status)
    else if addr >= CONFIG then
      match ConfigWord(addr - CONFIG)
      case Some(v) => Ok(v)
      case None =>
        Err(Unimplemented("virtio: reading config register 0x" + Hex(addr - CONFIG) + ":u32 unimplemented"))
    else if addr == CONFIG_GENERATION then Ok(0xdeadbeef)
    else if addr == QUEUE_READY then Ok(if s.queueReady then 1 else 0)
    else if addr == QUEUE_SIZE_MAX then Ok(1)
    else Err(Unimplemented("virtio: reading register 0x" + Hex(addr) + " unimplemented"))
  }

  /** read_double: only the capacity field of the configuration space, which
      reads 1. */
  function ReadDouble(addr: nat): (r: Result<bv64, Fault>)
    ensures r.Ok? <==> addr == CONFIG + CAPACITY
    ensures r.Ok? ==> r.value == 1
  {
    var offset := ConfigOffset(addr);
    if offset == CAPACITY then Ok(1)
    else Err(Unimplemented("virtio: reading config register 0x" + Hex(offset) + " unimplemented"))
  }

  /** read_half: the 16-bit configuration fields; the fault message prints the
      offset in decimal after "0x". */
  function ReadHalf(addr: nat): (r: Result<bv16, Fault>)
    ensures r.Ok? <==> addr >= CONFIG && ConfigHalf(addr - CONFIG).Some?
    ensures addr == CONFIG + NUM_QUEUES ==> r == Ok(4)
    ensures addr == CONFIG + MIN_IO_SIZE ==> r == Ok(1)
    ensures addr == CONFIG + WRITE_ZEROES_MAY_UNMAP ==> r == Ok(0)
  {
    var offset := ConfigOffset(addr);
    match ConfigHalf(offset)
    case Some(v) => Ok(v)
    case None => Err(Unimplemented("virtio: reading config register 0x" + Decimal(offset) + ":u16 unimplemented"))
  }

  /** read_byte: the 8-bit configuration fields. */
  function ReadByte(addr: nat): (r: Result<bv8, Fault>)
    ensures r.Ok? <==> addr >= CONFIG && ConfigByte(addr - CONFIG).Some?
    ensures addr == CONFIG + WRITEBACK ==> r == Ok(0)
    ensures addr == CONFIG + PHYSICAL_BLOCK_EXP ==> r == Ok(1)
    ensures addr == CONFIG + ALIGNMENT_OFFSET ==> r == Ok(0)
  {
    var offset := ConfigOffset(addr);
    match ConfigByte(offset)
    case Some(v) => Ok(v)
    case None => Err(Unimplemented("virtio: reading config register 0x" + Hex(offset) + ":u8 unimplemented"))
  }

  // Writes of any other width are refused.

  function WriteDouble(addr: nat, val: bv64): (r: Result<(), Fault>)
    ensures r.Err? && r.error.Unimplemented?
  {
    Err(Unimplemented("virtio: writing double unimplemented"))
  }

  function WriteHalf(addr: nat, val: bv16): (r: Result<(), Fault>)
    ensures r.Err? && r.error.Unimplemented?
  {
    Err(Unimplemented("virtio: writing halfword unimplemented"))
  }

  function WriteByte(addr: nat, val: bv8): (r: Result<(), Fault>)
    ensures r.Err? && r.error.Unimplemented?
  {
    Err(Unimplemented("virtio: writing byte unimplemented"))
  }

  // Properties of the register file.

  /** A word write succeeds exactly at the writable registers, and a refused
      write changes nothing. */
  lemma WriteRefused(s: MmioState, addr: nat, val: bv32)
    ensures Write(s, addr, val).0.Ok? <==> addr in WRITABLE
    ensures Write(s, addr, val).0.Err? ==> Write(s, addr, val).1 == s
  {
  }

  /** The identification registers read the same constants in every state. */
  lemma IdentityRegisters(s: MmioState)
    ensures ReadWord(s, MAGIC_VALUE) == Ok(0x74726976)
    ensures ReadWord(s, VERSION) == Ok(2) && ReadWord(s, DEVICE_ID) == Ok(2)
    ensures ReadWord(s, VENDOR_ID) == Ok(0x1af4) && ReadWord(s, QUEUE_SIZE_MAX) == Ok(1)
  {
  }

  /** A selector write selects the high half exactly when the value is 1, and
      changes nothing else. */
  lemma SelectorWrites(s: MmioState, val: bv32)
    ensures Write(s, DEVICE_FEATURES_SEL, val).1.deviceFeaturesSel == High <==> val == 1
    ensures Write(s, DRIVER_FEATURES_SEL, val).1.driverFeaturesSel == High <==> val == 1
    ensures Write(s, DEVICE_FEATURES_SEL, val).1.(deviceFeaturesSel := s.deviceFeaturesSel) == s
    ensures Write(s, DRIVER_FEATURES_SEL, val).1.(driverFeaturesSel := s.driverFeaturesSel) == s
  {
  }

  /** The offered features read 0 on the low half and 1 (VERSION_1) on the
      high half, once the high half is selected. */
  lemma FeaturesByHalves()
    ensures ReadWord(NewState(), DEVICE_FEATURES) == Ok(0)
    ensures ReadWord(Write(NewState(), DEVICE_FEATURES_SEL, 1).1, DEVICE_FEATURES) == Ok(1)
  {
  }

  /** The driver feature negotiation: selecting the low half, writing lo,
      selecting the high half and writing hi leaves hi:lo as the driver's
      features, whatever the state before. */
  lemma DriverFeaturesNegotiated(s: MmioState, lo: bv32, hi: bv32)
    ensures var s1 := Write(s, DRIVER_FEATURES_SEL, 0).1;
            var s2 := Write(s1, DRIVER_FEATURES, lo).1;
            var s3 := Write(s2, DRIVER_FEATURES_SEL, 1).1;
            Write(s3, DRIVER_FEATURES, hi).1.driverFeatures == ((hi as bv64) << 32) | lo as bv64
  {
    var s1 := Write(s, DRIVER_FEATURES_SEL, 0).1;
    assert s1.driverFeaturesSel == Low;
    var s2 := Write(s1, DRIVER_FEATURES, lo).1;
    assert s2.driverFeatures == DriverFeaturesAfter(s.driverFeatures, Low, lo);
    var s3 := Write(s2, DRIVER_FEATURES_SEL, 1).1;
    assert s3.driverFeaturesSel == High && s3.driverFeatures == s2.driverFeatures;
    assert Write(s3, DRIVER_FEATURES, hi).1.driverFeatures == DriverFeaturesAfter(s2.driverFeatures, High, hi);
    DriverFeaturesCompose(s.driverFeatures, lo, hi);
  }

  /** A status write follows the shared status rule, reads back as such, and
      changes nothing else. */
  lemma StatusWrite(s: MmioState, val: bv32)
    ensures ReadWord(Write(s, STATUS, val).1, STATUS) == Ok(StatusAfter(s.status, val))
    ensures Write(s, STATUS, val).1.(status := s.status) == s
  {
  }

  /** QueueReady stores whether the value is non-zero and reads back 0 or 1. */
  lemma QueueReadyReadsBack(s: MmioState, val: bv32)
    ensures ReadWord(Write(s, QUEUE_READY, val).1, QUEUE_READY) == Ok(if val != 0 then 1 else 0)
  {
  }

  /** The descriptor area written low half then high half is hi:lo. */
  lemma DescAreaComposes(s: MmioState, lo: bv32, hi: bv32)
    ensures Write(Write(s, QUEUE_DESC_LOW, lo).1, QUEUE_DESC_HIGH, hi).1.queueDesc
            == ((hi as bv64) << 32) | lo as bv64
  {
    OrHighCompose(lo, hi);
  }

  /** As written, a high-half write of the driver or device area ORs val into
      the descriptor area address, discarding the low half written before. */
  lemma AreaHighAsWritten(s: MmioState, val: bv32)
    ensures Write(s, QUEUE_DRIVER_HIGH, val).1.queueDriver == OrHigh(s.queueDesc, val)
    ensures Write(s, QUEUE_DEVICE_HIGH, val).1.queueDevice == OrHigh(s.queueDesc, val)
  {
  }

  /** The driver area set to 0x2000 in two halves reads 0x1000, the
      descriptor area's address, as written. */
  lemma DriverAreaLost(s: MmioState)
    requires s.queueDesc == 0x1000
    ensures Write(Write(s, QUEUE_DRIVER_LOW, 0x2000).1, QUEUE_DRIVER_HIGH, 0).1.queueDriver == 0x1000
  {
  }

  /** With the fix, the driver and device areas written low half then high
      half are hi:lo, like the descriptor area. */
  lemma AreasComposeFixed(s: MmioState, lo: bv32, hi: bv32)
    ensures WriteFixed(WriteFixed(s, QUEUE_DRIVER_LOW, lo).1, QUEUE_DRIVER_HIGH, hi).1.queueDriver
            == ((hi as bv64) << 32) | lo as bv64
    ensures WriteFixed(WriteFixed(s, QUEUE_DEVICE_LOW, lo).1, QUEUE_DEVICE_HIGH, hi).1.queueDevice
            == ((hi as bv64) << 32) | lo as bv64
  {
    OrHighCompose(lo, hi);
  }

  /** The block configuration reads: capacity 1 as a double, 512-byte maximum
      segment, block and optimal I/O sizes, one segment. */
  lemma ConfigReads(s: MmioState)
    ensures ReadDouble(CONFIG + CAPACITY) == Ok(1)
    ensures ReadWord(s, CONFIG + SIZE_MAX) == Ok(512) && ReadWord(s, CONFIG + BLK_SIZE) == Ok(512)
    ensures ReadWord(s, CONFIG + OPT_IO_SIZE) == Ok(512) && ReadWord(s, CONFIG + SEG_MAX) == Ok(1)
  {
  }
}
