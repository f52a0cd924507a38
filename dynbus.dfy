/**
 * The dynamic bus of src/dynbus.rs: an ordered list of (address range,
 * device) pairs. An access goes to the first mapping whose half-open range
 * contains the address, with the address made relative to the range's start;
 * an address no range contains is a MemoryFault carrying the global address.
 *
 * The devices are the three that file gives a Device implementation: a RAM
 * whose accessors are bounds-checked (that RAM's own file is not part of
 * this model, so its accesses are modelled on its bytes, word accesses
 * little-endian), the ROM of src/rom.rs, and the HTIF, which halts on every
 * access.
 */
module DynBus {
  import opened Words
  import opened Wrappers
  import opened Device
  import RomStore
  import RamStore

  /** A half-open address range `start..end`. */
  datatype Range = Range(start: nat, end: nat)

  /** `Range::contains`. */
  predicate Contains(r: Range, addr: nat)
  {
    r.start <= addr < r.end
  }

  datatype Mapped = RamDevice(mem: seq<bv8>) | RomDevice(rom: RomStore.Rom) | HtifDevice

  type Mapping = (Range, Mapped)

  // ---------------------------------------------------------------------------
  // The devices (src/dynbus.rs:62-115), at device-local addresses

  /** A word read: a RAM or ROM answers the little-endian word at addr when
      all four bytes lie inside it, and a MemoryFault at the local address
      otherwise; the HTIF halts. */
  function DeviceReadWord(d: Mapped, addr: nat): (r: Result<bv32, Fault>)
    ensures d.HtifDevice? ==> r == Err(Halt)
    ensures !d.HtifDevice? && r.Err? ==> r.error == MemoryFault(addr)
    ensures d.RamDevice? ==> (r.Ok? <==> addr + 3 < |d.mem|)
    ensures d.RamDevice? && r.Ok? ==>
      Byte0(r.value) == d.mem[addr] && Byte1(r.value) == d.mem[addr + 1]
      && Byte2(r.value) == d.mem[addr + 2] && Byte3(r.value) == d.mem[addr + 3]
    ensures d.RomDevice? ==> (r.Ok? <==> addr + 3 < |d.rom.data|)
    ensures d.RomDevice? && r.Ok? ==>
      Byte0(r.value) == d.rom.data[addr] && Byte1(r.value) == d.rom.data[addr + 1]
      && Byte2(r.value) == d.rom.data[addr + 2] && Byte3(r.value) == d.rom.data[addr + 3]
  {
    match d
    case RamDevice(mem) =>
      if addr + 3 < |mem| then Ok(LeWord(mem[addr], mem[addr + 1], mem[addr + 2], mem[addr + 3]))
      else Err(MemoryFault(addr))
    case RomDevice(rom) =>
      (match RomStore.ReadWord(rom, addr)
       case Some(w) => Ok(w)
       case None => Err(MemoryFault(addr)))
    case HtifDevice => Err(Halt)
  }

  /** A byte read: a RAM or ROM answers its byte at addr when addr lies
      inside it, and a MemoryFault at the local address otherwise; the HTIF
      halts. */
  function DeviceReadByte(d: Mapped, addr: nat): (r: Result<bv8, Fault>)
    ensures d.HtifDevice? ==> r == Err(Halt)
    ensures !d.HtifDevice? && r.Err? ==> r.error == MemoryFault(addr)
    ensures d.RamDevice? ==> (r.Ok? <==> addr < |d.mem|)
    ensures d.RamDevice? && r.Ok? ==> r.value == d.mem[addr]
    ensures d.RomDevice? ==> (r.Ok? <==> addr < |d.rom.data|)
    ensures d.RomDevice? && r.Ok? ==> r.value == d.rom.data[addr]
  {
    match d
    case RamDevice(mem) => if addr < |mem| then Ok(mem[addr]) else Err(MemoryFault(addr))
    case RomDevice(rom) =>
      (match RomStore.ReadByte(rom, addr)
       case Some(b) => Ok(b)
       case None => Err(MemoryFault(addr)))
    case HtifDevice => Err(Halt)
  }

  /** A write returns the device as it is afterwards. Only a RAM write in
      bounds succeeds; a ROM write is always a MemoryFault. */
  function DeviceWriteWord(d: Mapped, addr: nat, val: bv32): (r: Result<Mapped, Fault>)
    ensures r.Ok? <==> d.RamDevice? && addr + 3 < |d.mem|
    ensures r.Ok? ==> r.value.RamDevice? && DeviceReadWord(r.value, addr) == Ok(val)
    ensures r.Ok? ==> |r.value.mem| == |d.mem|
    ensures r.Ok? ==> forall i :: 0 <= i < |d.mem| && (i < addr || addr + 3 < i) ==> r.value.mem[i] == d.mem[i]
    ensures d.RomDevice? ==> r == Err(MemoryFault(addr))
    ensures d.HtifDevice? ==> r == Err(Halt)
  {
    match d
    case RamDevice(mem) =>
      if addr + 3 < |mem| then Ok(RamDevice(RamStore.StoreWord(mem, addr, val)))
      else Err(MemoryFault(addr))
    case RomDevice(_) => Err(MemoryFault(addr))
    case HtifDevice => Err(Halt)
  }

  function DeviceWriteByte(d: Mapped, addr: nat, val: bv8): (r: Result<Mapped, Fault>)
    ensures r.Ok? <==> d.RamDevice? && addr < |d.mem|
    ensures r.Ok? ==> r.value.RamDevice? && DeviceReadByte(r.value, addr) == Ok(val)
    ensures r.Ok? ==> |r.value.mem| == |d.mem|
    ensures r.Ok? ==> forall i :: 0 <= i < |d.mem| && i != addr ==> r.value.mem[i] == d.mem[i]
    ensures d.RomDevice? ==> r == Err(MemoryFault(addr))
    ensures d.HtifDevice? ==> r == Err(Halt)
  {
    match d
    case RamDevice(mem) => if addr < |mem| then Ok(RamDevice(mem[addr := val])) else Err(MemoryFault(addr))
    case RomDevice(_) => Err(MemoryFault(addr))
    case HtifDevice => Err(Halt)
  }

  // ---------------------------------------------------------------------------
  // Routing

  /** The first mapping at or after index i whose range contains addr. */
  function FirstMatchFrom(ds: seq<Mapping>, addr: nat, i: nat): Option<nat>
    decreases |ds| - i
  {
    if i >= |ds| then None
    else if Contains(ds[i].0, addr) then Some(i)
    else FirstMatchFrom(ds, addr, i + 1)
  }

  function FirstMatch(ds: seq<Mapping>, addr: nat): Option<nat>
  {
    FirstMatchFrom(ds, addr, 0)
  }

  /** FirstMatch finds the least index whose range contains the address, and
      finds nothing only when no range contains it. */
  lemma {:induction false} FirstMatchFromSpec(ds: seq<Mapping>, addr: nat, i: nat)
    requires i <= |ds|
    ensures var m := FirstMatchFrom(ds, addr, i);
            match m
            case Some(k) => i <= k < |ds| && Contains(ds[k].0, addr)
                            && forall j :: i <= j < k ==> !Contains(ds[j].0, addr)
            case None => forall j :: i <= j < |ds| ==> !Contains(ds[j].0, addr)
    decreases |ds| - i
  {
    if i < |ds| && !Contains(ds[i].0, addr) {
      FirstMatchFromSpec(ds, addr, i + 1);
    }
  }

  lemma FirstMatchSpec(ds: seq<Mapping>, addr: nat)
    ensures var m := FirstMatch(ds, addr);
            match m
            case Some(k) => k < |ds| && Contains(ds[k].0, addr)
                            && forall j :: 0 <= j < k ==> !Contains(ds[j].0, addr)
            case None => forall j :: 0 <= j < |ds| ==> !Contains(ds[j].0, addr)
  {
    FirstMatchFromSpec(ds, addr, 0);
  }

  /** Mapping a device appends it, so an earlier mapping keeps precedence over a
      later one that overlaps it. */
  lemma {:induction false} MapKeepsPrecedence(ds: seq<Mapping>, m: Mapping, addr: nat)
    ensures FirstMatch(ds + [m], addr) ==
              if FirstMatch(ds, addr).Some? then FirstMatch(ds, addr)
              else if Contains(m.0, addr) then Some(|ds|) else None
  {
    var e := ds + [m];
    FirstMatchSpec(ds, addr);
    FirstMatchSpec(e, addr);
    assert forall j :: 0 <= j < |ds| ==> e[j] == ds[j];
    assert e[|ds|] == m;
  }

  /** The outcome of a word read from the bus. */
  function BusReadWord(ds: seq<Mapping>, addr: nat): Result<bv32, Fault>
  {
    FirstMatchSpec(ds, addr);
    match FirstMatch(ds, addr)
    case None => Err(MemoryFault(addr))
    case Some(i) => DeviceReadWord(ds[i].1, addr - ds[i].0.start)
  }

  function BusReadByte(ds: seq<Mapping>, addr: nat): Result<bv8, Fault>
  {
    FirstMatchSpec(ds, addr);
    match FirstMatch(ds, addr)
    case None => Err(MemoryFault(addr))
    case Some(i) => DeviceReadByte(ds[i].1, addr - ds[i].0.start)
  }

  /** The outcome of a word write and the mappings afterwards: only the device
      the access is routed to can change. */
  function BusWriteWord(ds: seq<Mapping>, addr: nat, val: bv32): (Result<(), Fault>, seq<Mapping>)
  {
    FirstMatchSpec(ds, addr);
    match FirstMatch(ds, addr)
    case None => (Err(MemoryFault(addr)), ds)
    case Some(i) =>
      match DeviceWriteWord(ds[i].1, addr - ds[i].0.start, val)
      case Ok(d) => (Ok(()), ds[i := (ds[i].0, d)])
      case Err(e) => (Err(e), ds)
  }

  function BusWriteByte(ds: seq<Mapping>, addr: nat, val: bv8): (Result<(), Fault>, seq<Mapping>)
  {
    FirstMatchSpec(ds, addr);
    match FirstMatch(ds, addr)
    case None => (Err(MemoryFault(addr)), ds)
    case Some(i) =>
      match DeviceWriteByte(ds[i].1, addr - ds[i].0.start, val)
      case Ok(d) => (Ok(()), ds[i := (ds[i].0, d)])
      case Err(e) => (Err(e), ds)
  }

  /** A word written through the bus reads back through the bus. */
  lemma WriteThenReadWord(ds: seq<Mapping>, addr: nat, val: bv32)
    ensures BusWriteWord(ds, addr, val).0.Ok? ==> BusReadWord(BusWriteWord(ds, addr, val).1, addr) == Ok(val)
  {
    FirstMatchSpec(ds, addr);
    if BusWriteWord(ds, addr, val).0.Ok? {
      var i := FirstMatch(ds, addr).value;
      var ds' := BusWriteWord(ds, addr, val).1;
      assert forall j :: 0 <= j < |ds| ==> ds'[j].0 == ds[j].0;
      FirstMatchSpec(ds', addr);
      assert FirstMatch(ds', addr) == Some(i);
    }
  }

  class DynBus {
    var devices: seq<Mapping>

    /** DynBus::new: no mappings. */
    constructor ()
      ensures devices == []
    {
      devices := [];
    }

    /** DynBus::map: appends the mapping. */
    method Map(device: Mapped, range: Range)
      modifies this
      ensures devices == old(devices) + [(range, device)]
    {
      devices := devices + [(range, device)];
    }

    /** The search loop every access of src/dynbus.rs:24-60 runs. */
    method Find(addr: nat) returns (r: Option<nat>)
      ensures r == FirstMatch(devices, addr)
    {
      var i := 0;
      while i < |devices|
        invariant 0 <= i <= |devices|
        invariant FirstMatchFrom(devices, addr, i) == FirstMatch(devices, addr)
      {
        if Contains(devices[i].0, addr) {
          return Some(i);
        }
        i := i + 1;
      }
      return None;
    }

    method WriteWord(addr: nat, val: bv32) returns (r: Result<(), Fault>)
      modifies this
      ensures (r, devices) == BusWriteWord(old(devices), addr, val)
    {
      var m := Find(addr);
      FirstMatchSpec(devices, addr);
      match m
      case None =>
        r := Err(MemoryFault(addr));
      case Some(i) =>
        var (range, device) := devices[i];
        match DeviceWriteWord(device, addr - range.start, val)
        case Ok(d) =>
          devices := devices[i := (range, d)];
          r := Ok(());
        case Err(e) =>
          r := Err(e);
    }

    method WriteByte(addr: nat, val: bv8) returns (r: Result<(), Fault>)
      modifies this
      ensures (r, devices) == BusWriteByte(old(devices), addr, val)
    {
      var m := Find(addr);
      FirstMatchSpec(devices, addr);
      match m
      case None =>
        r := Err(MemoryFault(addr));
      case Some(i) =>
        var (range, device) := devices[i];
        match DeviceWriteByte(device, addr - range.start, val)
        case Ok(d) =>
          devices := devices[i := (range, d)];
          r := Ok(());
        case Err(e) =>
          r := Err(e);
    }

    method ReadWord(addr: nat) returns (r: Result<bv32, Fault>)
      ensures r == BusReadWord(devices, addr)
    {
      var m := Find(addr);
      FirstMatchSpec(devices, addr);
      match m
      case None =>
        r := Err(MemoryFault(addr));
      case Some(i) =>
        r := DeviceReadWord(devices[i].1, addr - devices[i].0.start);
    }

    method ReadByte(addr: nat) returns (r: Result<bv8, Fault>)
      ensures r == BusReadByte(devices, addr)
    {
      var m := Find(addr);
      FirstMatchSpec(devices, addr);
      match m
      case None =>
        r := Err(MemoryFault(addr));
      case Some(i) =>
        r := DeviceReadByte(devices[i].1, addr - devices[i].0.start);
    }
  }

  /** On a bus with no mappings every access is a MemoryFault at the address. */
  lemma EmptyBus(addr: nat, w: bv32, b: bv8)
    ensures BusReadWord([], addr) == Err(MemoryFault(addr))
    ensures BusReadByte([], addr) == Err(MemoryFault(addr))
    ensures BusWriteWord([], addr, w) == (Err(MemoryFault(addr)), [])
    ensures BusWriteByte([], addr, b) == (Err(MemoryFault(addr)), [])
  {
  }

  /** The unit tests of src/dynbus.rs: a write to an empty bus fails, a write
      to a mapped RAM succeeds, a write to a mapped HTIF halts. */
  method UnitTests(mem: seq<bv8>) returns (empty: Result<(), Fault>, ram: Result<(), Fault>, htif: Result<(), Fault>)
    requires |mem| >= 4
    ensures empty.Err? && ram.Ok? && htif == Err(Halt)
  {
    var bus := new DynBus();
    empty := bus.WriteWord(0, 0);
    bus := new DynBus();
    bus.Map(RamDevice(mem), Range(0, 0x2000));
    ram := bus.WriteWord(0, 0);
    bus := new DynBus();
    bus.Map(HtifDevice, Range(0, 50));
    htif := bus.WriteWord(0, 0);
  }
}
