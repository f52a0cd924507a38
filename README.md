# rrustv core, modelled in Dafny

rrustv is a small RISC-V emulator written in Rust. This project models its
core in Dafny and proves properties of the model. The Rust files come from
several snapshots of the repository and do not fit together (hart.rs calls
byte accessors ram.rs lacks; clint.rs reads CSR numbers csr.rs does not
define), so each file is modelled against small interfaces of its own: a
byte-addressed memory (`seq<bv8>` or an `array<bv8>`), a CSR read function,
and a device read/write capability (`Device.Fault`, `Wrappers.Result`).

What is covered, module by module:

- `Ins` (ins.dfy): the instruction decoder. `Decode32` reads the R/I/S/B/U/J
  formats and immediates of sections 2.2 and 2.3 of the RISC-V Unprivileged
  ISA manual; `Decode16` expands compressed instructions per chapter 16
  (the "C" extension); `Decode` maps every failure to `IllegalOpcode`. An
  encoder per format is proved the inverse of the decoder.
- `Hart` (hart.dfy) and `Machine` (machine.dfy): the two execution cores,
  each a class with a register file and a pc, `fetch_instruction` advancing
  pc by 4, `decode_instruction` and `execute_instruction`, each method
  proved against a step function on values.
- `Csr` (csr.dfy): the 4096-slot CSR bank, its dispatch table, the no-op
  CSRs, and the legalisation of mtvec on read (section 3.1.7 of the RISC-V
  Privileged manual). `Clint` (clint.dfy): interrupt selection and the
  stateless device. `See` (see.dfy): the SBI dispatcher (legacy
  console-putchar of section 5.2 of the RISC-V SBI specification v1.0).
- `Ram`, `Rom`, `Bus`, `DynBus` (ram.dfy, rom.dfy, bus.dfy, dynbus.dfy):
  little-endian byte stores, the fixed bus window and the first-match range
  router; `Htif`, `Uart`, `Uart8250`, `Rtc` (htif.dfy, uart.dfy,
  uart8250.dfy, rtc.dfy): the MMIO devices, with the mtimecmp low/high
  composition of section 3.2.1 of the Privileged manual; `Reg` (reg.dfy):
  the register name table and its inverse.
- `VirtioDefs`, `Virtio`, `VirtioBlk` (virtio_defs.dfy, virtio.dfy,
  virtio_blk.dfy): the virtio-mmio register state machine (register layout
  of section 4.2.2 of Virtio 1.1, status bits of section 2.1, block
  configuration of section 5.2.4, descriptor flags of section 2.6.5), the
  descriptor `Display` text, and the descriptor reads from guest memory.
- `GdbTarget`, `GdbEmulator`, `GdbEmu`, `GdbHostIo` (gdb_*.dfy): the
  debugger bookkeeping — breakpoint lists, run mode, the command
  interpreter, register and memory reads, the `vcont` stepping rule, the
  fault-to-error mapping and `get_exec_file`.
- `Words`, `Wrappers`, `Text`, `Device` hold the shared helpers: wrapping
  32-bit addition, little-endian byte composition, decimal text, `Result`
  and `Option`, and the device fault type.

Integers follow the Rust release build: `u32`/`u64` arithmetic wraps
(bit-vectors `bv32`/`bv64`), and addresses and indices (`usize`) are
natural numbers. Every Rust panic the code can reach (an index out of
bounds, `panic!`, `todo!`, an `unwrap` of a failing value) is a `requires`
of the member that models it, except the panics listed under "## Left out". The execution code has no traps on faults,
no LR/SC or AMO execution, no privilege checks on CSR access and no misa
listing the supported extensions, and neither has the model.

## Model

| member | source | states |
|---|---|---|
| Bus.Bus.constructor | src/bus.rs:14-16 | the bus holds the given RAM, which spans DRAM_SIZE bytes |
| Bus.Bus.WriteWord | src/bus.rs:18-23 | succeeds exactly for addresses 0x0000..=0x2000, where the word is stored little-endian and reads back; any other address is a MemoryFault and leaves the RAM unchanged |
| Bus.Bus.WriteByte | src/bus.rs:25-30 | succeeds exactly inside the window, where only that byte changes and it reads back; outside it is a MemoryFault with the RAM unchanged |
| Bus.Bus.ReadWord | src/bus.rs:32-37 | succeeds exactly inside the window, at the same untranslated address, and its bytes are those of the RAM |
| Bus.Bus.ReadByte | src/bus.rs:39-44 | succeeds exactly inside the window and returns the RAM's byte at that address |
| Htif.WriteWide | src/htif.rs:20-32 | a word or double write always fails: Halt exactly at offset 0, MemoryFault carrying the address anywhere else |
| Htif.NoAccessSucceeds | src/htif.rs:19-57 | no access of any width succeeds; half and byte accesses are Unaligned, reads of words and doubles are MemoryFaults, and only a write at offset 0 halts |
| RamStore.StoreWord | src/ram.rs:15-20 | the store keeps the length, changes no byte outside addr..addr+3, and those four bytes compose back to the word |
| RamStore.Ram.constructor | src/ram.rs:8-13 | a fresh DRAM_SIZE (128 MiB) byte array whose prefix is the code and whose other bytes are 0; a code image that does not fit is refused, as the splice panics |
| RamStore.Ram.WriteWord | src/ram.rs:15-20 | the array becomes StoreWord of the old one, and the word reads back |
| RamStore.Ram.ReadWord | src/ram.rs:22-30 | the word's four little-endian bytes are the bytes at addr..addr+3 |
| RamStore.InitRead | src/ram.rs:39-45 | the bytes 13 81 00 7d read as 0x7d008113 |
| RomStore.ReadWord | src/rom.rs:14-22 | None exactly when addr+3 lies past the end; otherwise the word's little-endian bytes are the four stored bytes |
| RomStore.ReadByte | src/rom.rs:24-29 | Some exactly inside the data, holding the stored byte |
| RomStore.ReadWordOfBytes | src/rom.rs:14-29 | a word read succeeds exactly when the byte read at addr+3 does, and is then the composition of the four byte reads |
| RomStore.InitRead | src/rom.rs:36-42 | the bytes 13 81 00 7d read as 0x7d008113 |
| DynBus.DeviceReadWord | src/dynbus.rs:71-73 | a device word read: the HTIF always halts; a RAM or ROM read succeeds exactly when addr+3 is in bounds, its four little-endian bytes are the stored bytes at addr..addr+3, and a failure is a MemoryFault at the device-local address (src/dynbus.rs:89-91 and 108-110 likewise) |
| DynBus.DeviceReadByte | src/dynbus.rs:75-77 | a device byte read: the HTIF always halts; a RAM or ROM read succeeds exactly in bounds and gives the stored byte, and any other failure is a MemoryFault at the local address (src/dynbus.rs:93-95 and 112-114 likewise) |
| DynBus.DeviceWriteWord | src/dynbus.rs:63-65 | a word write succeeds exactly on a RAM in bounds; the RAM keeps its length, the word reads back and every byte outside addr..addr+3 is unchanged; a ROM write is always a MemoryFault (src/dynbus.rs:81-83) and an HTIF write halts (src/dynbus.rs:100-102) |
| DynBus.DeviceWriteByte | src/dynbus.rs:67-69 | a byte write succeeds exactly on a RAM in bounds; the RAM keeps its length, the byte reads back and every other byte is unchanged; ROM writes fault (src/dynbus.rs:85-87) and HTIF writes halt (src/dynbus.rs:104-106) |
| DynBus.FirstMatchFromSpec | src/dynbus.rs:26-31 | the search from index i finds the least index whose range contains the address, and finds nothing only when no range from i on contains it |
| DynBus.FirstMatchSpec | src/dynbus.rs:26-31 | the same from the first mapping: the first containing range wins |
| DynBus.MapKeepsPrecedence | src/dynbus.rs:19-21 | appending a mapping never changes where an address already mapped is routed; the new mapping only catches addresses no earlier range contains |
| DynBus.WriteThenReadWord | src/dynbus.rs:25-50 | a word write through the bus that succeeds reads back through the bus |
| DynBus.DynBus.constructor | src/dynbus.rs:15-17 | no mappings |
| DynBus.DynBus.Map | src/dynbus.rs:19-21 | the mapping is appended at the end |
| DynBus.DynBus.Find | src/dynbus.rs:26-30 | the search loop returns the first mapping whose range contains the address |
| DynBus.DynBus.WriteWord | src/dynbus.rs:25-32 | the result and the new mappings are those of BusWriteWord: the first containing range's device gets the relative address, and only that device can change; no range means MemoryFault at the global address |
| DynBus.DynBus.WriteByte | src/dynbus.rs:34-41 | likewise for byte writes (BusWriteByte) |
| DynBus.DynBus.ReadWord | src/dynbus.rs:43-50 | the result is BusReadWord: the routed device's read at the relative address, or MemoryFault at the global address |
| DynBus.DynBus.ReadByte | src/dynbus.rs:52-59 | likewise for byte reads (BusReadByte) |
| DynBus.EmptyBus | src/dynbus.rs:25-59 | on a bus without mappings every access is a MemoryFault at the address and nothing changes |
| DynBus.UnitTests | src/dynbus.rs:123-149 | a write to an empty bus fails, a write to a mapped RAM succeeds, and a write to a mapped HTIF halts |
| Rtc.SetLow | src/rtc.rs:30 | the staging value's low 32 bits become the written word and its high 32 bits are kept |
| Rtc.SetHighSets | src/rtc.rs:35 | after a MTIMECMP_ADDRH write the staging value's high 32 bits are the written word |
| Rtc.SetHighKeepsLow | src/rtc.rs:35 | a MTIMECMP_ADDRH write keeps the staging value's low 32 bits |
| Rtc.ComposeHalves | src/rtc.rs:28-39 | a low-half write followed by a high-half write leaves exactly the 64-bit composition of the two halves, whatever was staged before |
| Rtc.Rtc.constructor | src/rtc.rs:18-24 | no compare time yet (Duration::MAX) and an all-ones staging value |
| Rtc.Rtc.WriteWord | src/rtc.rs:26-43 | succeeds exactly at MTIMECMP_ADDR and MTIMECMP_ADDRH; the low write only stages, the high write stages and publishes the staged value as nanoseconds; any other address is a MemoryFault and changes nothing |
| Rtc.ReadWord | src/rtc.rs:45-55 | succeeds exactly at the four word addresses 0x4000..0x400c; both compare halves read all ones, and the time reads as its low and high 32-bit halves |
| Rtc.WriteCompare | src/rtc.rs:26-43 | writing the low half and then the high half publishes their 64-bit composition as the compare time |
| See.Word | src/see.rs:14-24 | each error's u32 pattern is the two's-complement encoding of its discriminant, 0 to -8 |
| See.SpecVersion | src/see.rs:32 | the version word holds the major version 1 in bits 31:24 and the minor version 0 below |
| See.CallWith | src/see.rs:26-44 | the register file and output are those of Dispatch for the given identifier registers: the version probe writes Success and the version to a0 and a1, putchar emits a0 as a character, and anything else writes NotSupported to a0 |
| See.Call | src/see.rs:26-44 | see::call as written, with both identifiers read from x17; panics (refused here) when putchar is given a value that is not a Unicode scalar |
| See.CallFixed | src/see.rs:26-44 | the same dispatch with the function id read from a6 |
| See.CallSpec | src/see.rs:26-44 | as written, a7 = 1 emits the character of a0 and changes no register, and any other a7 sets a0 to NotSupported (-2) and changes nothing else; a1 is never written |
| See.VersionUnanswered | src/see.rs:28-35 | the spec-version probe (a7 = 0x10, a6 = 0) is answered NotSupported and a1 is untouched, since both identifiers come from x17 |
| See.VersionAnswered | src/see.rs:28-35 | reading the function id from a6, the same probe returns Success in a0 and version 1.0 in a1 and changes no other register |
| Text.DigitChar | src/uart.rs:83-86 | each digit value below 16 has a character that reads back as that value |
| Text.Decimal | src/uart.rs:115 | `{}` of an unsigned number is a non-empty string of decimal digits |
| Text.Hex | src/uart.rs:83-86 | `{:x}` of an unsigned number is a non-empty string |
| Text.ParseDecimal | src/uart.rs:115 | parsing the decimal text of n gives n back, so distinct addresses give distinct messages |
| Text.ParseHex | src/uart.rs:83-86 | parsing the hexadecimal text of n gives n back |
| Uart.Wide | src/uart.rs:37-100 | every access wider than a byte is an Unimplemented fault |
| Uart.Uart8250.constructor | src/uart.rs:23-27 | interrupts enabled and nothing written to the console |
| Uart.Uart8250.WriteByte | src/uart.rs:49-88 | succeeds exactly at offsets 0 to 4; RX appends the byte as a character to the console; IER sets the flag to whether the byte is non-zero; FCR, LCR and MCR change nothing; any other offset is Unimplemented with the address in hex and the byte in decimal |
| Uart.Uart8250.ReadByte | src/uart.rs:102-117 | succeeds exactly at IER, LSR and LCR; IER reads the flag as 0 or 1, LSR reads 0x60 (transmitter empty, data-ready bit clear) and LCR reads 0b11; any other offset is Unimplemented with the address in decimal |
| Uart.FromIoError | src/uart.rs:120-124 | every I/O error becomes Unimplemented("8250: io error not handled") |
| Uart.IerRoundTrip | src/uart.rs:61-112 | writing IER and reading it back gives 1 exactly when the written byte was non-zero |
| Uart8250.WriteByte | src/uart8250.rs:27-34 | as written: always succeeds, and prints something exactly when the address is the transmit register (0x10000000) |
| Uart8250.WriteByteEmitsDigits | src/uart8250.rs:30 | the byte 72 ('H') written to the transmit register prints "72", not "H" |
| Uart8250.WriteByteWidth | src/uart8250.rs:30 | as written, a transmitted byte prints as one character exactly when it is below 10 |
| Uart8250.WriteByteChar | src/uart8250.rs:27-34 | corrected: a transmitted byte prints as exactly one character with the byte's code, and other addresses print nothing |
| Uart8250.ReadByte | src/uart8250.rs:48-60 | always succeeds; the line status register reads 0x60 (transmitter empty, data-ready bit clear) and every other address reads 0 |
| Uart8250.WriteDouble | src/uart8250.rs:15-17 | a double write is unimplemented |
| Uart8250.WriteWord | src/uart8250.rs:19-21 | a word write is unimplemented |
| Uart8250.WriteHalf | src/uart8250.rs:23-25 | a half write is unimplemented |
| Uart8250.ReadDouble | src/uart8250.rs:36-38 | a double read is unimplemented |
| Uart8250.ReadWord | src/uart8250.rs:40-42 | a word read is unimplemented |
| Uart8250.ReadHalf | src/uart8250.rs:44-46 | a half read is unimplemented |
| Uart8250.FromIoError | src/uart8250.rs:63-67 | every I/O error becomes MemoryFault(0) |
| Reg.RegmapIndexed | src/reg.rs:1-34 | entry j of REGMAP describes register j |
| Reg.RegmapUnique | src/reg.rs:1-34 | no two entries of REGMAP carry the same ABI name |
| Reg.NameFromSpec | src/reg.rs:37-42 | on an indexed table the search from any entry k at or below r finds entry r's name, and past the table it yields "U" |
| Reg.NameSpec | src/reg.rs:36-43 | reg(r) is the name in entry r for r < 32 and "U" from 32 on |
| Reg.IndexFromFound | src/reg.rs:46-50 | the name search returns the index of the first entry carrying the name |
| Reg.IndexFromMissing | src/reg.rs:46-51 | a name no entry carries gives 255 |
| Reg.IndexOfName | src/reg.rs:45-52 | treg of the name in entry j is j |
| Reg.IndexSpec | src/reg.rs:45-52 | treg(s) is 255 exactly for strings that name no register, and otherwise an index below 32 whose entry carries s |
| Reg.IndexName | src/reg.rs:36-52 | treg(reg(r)) == r for every register index |
| Reg.NameIndex | src/reg.rs:36-52 | reg(treg(s)) == s for every ABI name, and "U" for any other string |
| Reg.IndexSpots | src/reg.rs:3-33 | treg("sp") is 2, treg("a0") is 10 and treg("t6") is 31 |
| Clint.Pending | src/clint.rs:92-129 | the chain as written reports nothing when ip is 0, and an interrupt it reports has its bit as the highest set bit of ip (each test `ip >> k == 1`) |
| Clint.PendingSpec | src/clint.rs:92-129 | the chain depends only on the position of the highest set bit of mip & mie: bits 11, 9, 8, 7, 5, 3, 1 and 0 give their interrupt, and bit 4, the unlisted bits and every bit from 12 up give None |
| Clint.PendingHides | src/clint.rs:92-128 | as written UTIP is never reported, a pending UTIP alone gives None, and MTIP with bit 12 also set gives None |
| Clint.PendingFixedSpec | src/clint.rs:92-129 | corrected chain (bit tests): reports an interrupt exactly when a listed bit of mip & mie is set, and the reported interrupt's bit is set |
| Clint.PendingFixedReports | src/clint.rs:92-129 | the corrected chain reports UTIP for a pending UTIP and MTIP when bit 12 is also set |
| Clint.TakenInterrupt | src/clint.rs:131-151 | in machine mode nothing is taken while mstatus bit 0 (MIE) is clear |
| Clint.InterruptEnabled | src/clint.rs:131-151 | with mstatus.MIE set, the interrupt taken is exactly pending_interrupt of mip and mie |
| Clint.WriteDouble | src/clint.rs:47-50 | a double write always succeeds |
| Clint.WriteWord | src/clint.rs:52-55 | a word write always succeeds |
| Clint.WriteHalf | src/clint.rs:57-61 | a half write is always Unimplemented |
| Clint.WriteByte | src/clint.rs:63-67 | a byte write is always Unimplemented |
| Clint.ReadDouble | src/clint.rs:69-72 | a double read always yields 0 |
| Clint.ReadWord | src/clint.rs:74-77 | a word read always yields 0 |
| Clint.ReadHalf | src/clint.rs:79-83 | a half read is always Unimplemented |
| Clint.ReadByte | src/clint.rs:85-89 | a byte read is always Unimplemented |
| Csr.FindFromFirst | src/csr.rs:209-213 | the table search returns entry j when j carries the number and no earlier entry does: the first entry wins |
| Csr.FindFromMissing | src/csr.rs:209-215 | a number no entry carries is found nowhere |
| Csr.FindAppend | src/csr.rs:22-148 | searching the concatenated table searches the first part and then the second |
| Csr.NopGroups | src/csr.rs:23-90 | every unprivileged, supervisor and hypervisor entry has handle_nop and handle_nop_wr and holds no machine-mode number |
| Csr.AnyGroups | src/csr.rs:91-147 | every machine entry reads its slot (read_any, or read_mtvec for mtvec) and writes it with write_any |
| Csr.PairedAppend | src/csr.rs:22-148 | tables in which handle_nop goes with handle_nop_wr and only with it stay so when concatenated |
| Csr.NopSkip | src/csr.rs:23-90 | a no-op group holds no machine-mode number, so the search passes it by |
| Csr.NameFromFind | src/csr.rs:197-204 | the name search and the handler search stop at the same entry, and "U" when none matches |
| Csr.NameSpec | src/csr.rs:197-204 | name(csr) is the name of the entry that handles csr, or "U" when none does |
| Csr.Name | src/csr.rs:197-204 | the name is that of the entry whose handlers serve the CSR, or "U" when no entry lists it |
| Csr.LegalMtvec | src/csr.rs:241-263 | read_mtvec clears bits 1 to 3 of the stored value: the mode field reads 0 or 1 and base bits 2..3 read 0 |
| Csr.LegalMtvecIdempotent | src/csr.rs:241-263 | legalising twice is legalising once |
| Csr.Csr.constructor | src/csr.rs:164-193 | the slots are NewCsrs(id), the assignments of new in order |
| Csr.Csr.Write | src/csr.rs:218-231 | the search loop applies the first matching entry's write handler: the slots become WriteOf of the old ones |
| Csr.Csr.Read | src/csr.rs:206-216 | an unlisted CSR reads 0, misa reads its slot, and mtvec reads its slot legalised, with mode 0 or 1 and base bits 2..3 zero |
| Csr.HandlerPairs | src/csr.rs:22-148 | throughout the 99 rows as listed, handle_nop goes with handle_nop_wr and every real reader with write_any |
| Csr.ElidedRowsAbsent | src/csr.rs:22-148 | the table holds exactly the 99 rows listed; the CSRs behind the `//...` lines, such as pmpaddr1 (0x3B0) and mhpmcounter4 (0xB04), read 0 and ignore writes |
| Csr.AbsentCsr | src/csr.rs:206-231 | an unlisted CSR reads 0 and a write to it changes no slot |
| Csr.FindFromIn | src/csr.rs:209-213 | the entry the search returns carries the number searched for and is an entry of the table |
| Csr.NopCsr | src/csr.rs:150-157 | a no-op CSR reads 0 and a write to it changes no slot |
| Csr.WriteFrame | src/csr.rs:218-239 | a write changes no slot but its own |
| Csr.WriteRead | src/csr.rs:206-263 | after a write, a read_any CSR reads the value written, mtvec reads its legalised form, and a no-op or unlisted CSR reads 0 |
| Csr.FindMachine | src/csr.rs:22-148 | a machine-mode number is looked up in the machine part of the table |
| Csr.FindTrapSetup | src/csr.rs:97-105 | a machine trap-setup number is found at its first entry in that group |
| Csr.FindInfo | src/csr.rs:91-96 | a machine information number is found at its entry in that group |
| Csr.FindMtvec | src/csr.rs:103 | mtvec is handled by read_mtvec and write_any |
| Csr.MtvecWriteRead | src/csr.rs:237-263 | a write to mtvec stores the raw value, and reading returns it legalised |
| Csr.FindMisa | src/csr.rs:7-8 | MISA and MEDELEG share the number 0x301, so the misa entry shadows medeleg and name(MEDELEG) is "misa" |
| Csr.NewSlots | src/csr.rs:164-193 | after new(id), mhartid holds id, mimpid holds 1, and every other slot (misa included) holds 0 |
| Csr.NewReads | src/csr.rs:164-193 | as written, a read after new(id) gives id for mhartid and 1 for mimpid, but 0 for misa: the medeleg assignment overwrites the RV32I value |
| Csr.NewFixedMisa | src/csr.rs:169-170 | with medeleg at 0x302, misa reads 0x4000_0100: MXL = 1 (32-bit) in bits 31:30 and extension I in bit 8 |
| Ins.Size | src/ins.rs:123-128 | 4 bytes exactly for a 32-bit instruction and 2 exactly for a compressed one |
| Ins.ImmI | src/ins.rs:160 | the I-type immediate is bits 31:20 sign-extended |
| Ins.ImmS | src/ins.rs:172-175 | the S-type immediate is bits 31:25 and 11:7 joined and sign-extended |
| Ins.ImmB | src/ins.rs:188-192 | the B-type offset is offset[12\|10:5] from bits 31:25 and offset[4:1\|11] from bits 11:7, sign-extended from bit 12 |
| Ins.ImmJ | src/ins.rs:204-208 | the J-type offset is offset[20\|10:1\|11\|19:12] from bits 31:12, sign-extended from bit 20 |
| Ins.ImmU | src/ins.rs:214 | the U-type immediate is bits 31:12 sign-extended, as an i32 shifted down by 12 |
| Ins.UpperBits | src/ins.rs:214 | shifting the U-type immediate back by 12 restores exactly bits 31:12 of the word |
| Ins.Decode | src/ins.rs:130-136 | a decoded instruction is paired with the instruction it came from, and any decoding failure becomes IllegalOpcode naming the instruction; a compressed parcel with low bits 11 panics (refused here) |
| Ins.Decode32 | src/ins.rs:138-223 | fails exactly for the opcodes outside the twelve known ones, with InstructionDecodingError |
| Ins.CLwImm | src/ins.rs:236-251 | the c.lw/c.sw offset is the manual's uimm[5:3\|2\|6] scaled by 4 |
| Ins.CAddi4spnImm | src/ins.rs:268-283 | the c.addi4spn immediate is the manual's nzuimm[5:4\|9:6\|2\|3] |
| Ins.CiImm | src/ins.rs:360-363 | the CI-format immediate is bits 12 and 6:2 sign-extended from bit 5 |
| Ins.CAddi16spImm | src/ins.rs:324-357 | the c.addi16sp immediate is the manual's nzimm[9\|4\|6\|8:7\|5], sign-extended |
| Ins.CSraiImm | src/ins.rs:377-389 | c.srai: shamt[4:0] from bits 6:2 under the funct7 0x20 of srai; bit 12 is dropped |
| Ins.CJImm | src/ins.rs:449-466 | the c.j/c.jal offset is the manual's offset[11\|4\|9:8\|10\|6\|7\|3:1\|5] |
| Ins.CBImm | src/ins.rs:485-519 | the c.beqz/c.bnez offset is the manual's offset[8\|4:3] and offset[7:6\|2:1\|5] |
| Ins.CLwspImm | src/ins.rs:600-613 | the c.lwsp offset is the manual's uimm[5\|4:2\|7:6] |
| Ins.CSwspImm | src/ins.rs:614-625 | the c.swsp offset is the manual's uimm[5:2\|7:6] |
| Ins.Decode16 | src/ins.rs:225-639 | a 16-bit parcel fails only with InstructionDecodingError |
| Ins.Decode16Expand16 | src/ins.rs:225-639 | a parcel the RV32IC expansion table expands decodes exactly as its 32-bit expansion; a parcel it does not expand decodes exactly when it is reserved, and every reserved parcel is accepted |
| Ins.ReservedUnexpanded | src/ins.rs:225-639 | a reserved parcel has no expansion |
| Ins.AgreesEverywhere | src/ins.rs:225-639 | on every parcel, the decoder yields a well-formed descriptor whose encoding is the parcel's expansion, or, without an expansion, decodes exactly the reserved parcels |
| Ins.AgreesC1Arith | src/ins.rs:358-448 | the agreement on the quadrant-1 arithmetic group (c.srli, c.srai, c.andi, c.sub, c.xor, c.or, c.and) |
| Ins.AgreesC0AddiSpn | src/ins.rs:268-283 | the agreement on c.addi4spn |
| Ins.AgreesC0Lw | src/ins.rs:236-251 | the agreement on c.lw |
| Ins.AgreesC0Sw | src/ins.rs:252-267 | the agreement on c.sw |
| Ins.AgreesC0Other | src/ins.rs:284-286 | the other quadrant-0 parcels have no RV32IC expansion and are refused |
| Ins.AgreesC1Addi | src/ins.rs:294-308 | the agreement on c.addi and c.nop |
| Ins.AgreesC1Jal | src/ins.rs:467-484 | the agreement on c.jal |
| Ins.AgreesC1Li | src/ins.rs:309-323 | the agreement on c.li |
| Ins.AgreesC1Addi16sp | src/ins.rs:324-357 | the agreement on c.addi16sp |
| Ins.AgreesC1Lui | src/ins.rs:324-357 | the agreement on c.lui |
| Ins.AgreesC1Srli | src/ins.rs:369-376 | the agreement on c.srli |
| Ins.AgreesC1Srai | src/ins.rs:377-389 | the agreement on c.srai |
| Ins.AgreesC1Andi | src/ins.rs:390-396 | the agreement on c.andi |
| Ins.AgreesC1Wide | src/ins.rs:398-447 | the RV64-only register-register parcels (bit 12 set) are refused |
| Ins.AgreesC1Sub | src/ins.rs:398-447 | the agreement on c.sub |
| Ins.AgreesC1Xor | src/ins.rs:398-447 | the agreement on c.xor |
| Ins.AgreesC1Or | src/ins.rs:398-447 | the agreement on c.or |
| Ins.AgreesC1And | src/ins.rs:398-447 | the agreement on c.and |
| Ins.AgreesC1J | src/ins.rs:449-466 | the agreement on c.j |
| Ins.AgreesC1Beqz | src/ins.rs:485-502 | the agreement on c.beqz |
| Ins.AgreesC1Bnez | src/ins.rs:503-519 | the agreement on c.bnez |
| Ins.OffsetCJFits | src/ins.rs:449-466 | a c.j offset is even and fits the 21-bit J-type field |
| Ins.OffsetCBFits | src/ins.rs:485-519 | a c.beqz/c.bnez offset is even and fits the 13-bit B-type field |
| Ins.UimmSwspFits | src/ins.rs:614-625 | a c.swsp offset fits the 12-bit S-type field |
| Ins.AgreesC2Slli | src/ins.rs:532-545 | the agreement on c.slli |
| Ins.AgreesC2Lwsp | src/ins.rs:600-613 | the agreement on c.lwsp |
| Ins.AgreesC2Jr | src/ins.rs:546-567 | the agreement on c.jr and c.mv |
| Ins.AgreesC2Add | src/ins.rs:568-599 | the agreement on c.jalr, c.ebreak and c.add |
| Ins.AgreesC2Swsp | src/ins.rs:614-625 | the agreement on c.swsp |
| Ins.AgreesC2Other | src/ins.rs:626-628 | the other quadrant-2 parcels have no RV32IC expansion and are refused |
| Ins.DecodeEncode | src/ins.rs:138-223 | decoding the manual's encoding of a well-formed descriptor gives the descriptor back |
| Ins.EncodeDecode | src/ins.rs:138-223 | encoding a decoded word gives the word back: decode_32 loses no bit of any word with a known opcode |
| Ins.DecodeWellFormed | src/ins.rs:138-223 | every descriptor decode_32 produces is well-formed (field widths, immediates in range, even branch and jump offsets) |
| Ins.EncodeDecodeR | src/ins.rs:141-155 | the R-type arm loses no bit |
| Ins.EncodeDecodeI | src/ins.rs:156-168 | the I-type arm loses no bit |
| Ins.EncodeDecodeS | src/ins.rs:169-183 | the S-type arm loses no bit |
| Ins.EncodeDecodeB | src/ins.rs:184-201 | the B-type arm loses no bit |
| Ins.EncodeDecodeJ | src/ins.rs:202-211 | the J-type arm loses no bit |
| Ins.EncodeDecodeU | src/ins.rs:212-216 | the U-type arm loses no bit |
| Ins.ImmBEven | src/ins.rs:184-201 | a decoded B-type offset is even and fits 13 bits |
| Ins.ImmJEven | src/ins.rs:202-211 | a decoded J-type offset is even and fits 21 bits |
| Ins.Decode32R | src/ins.rs:141 | the OP and AMO opcodes take the R-type arm |
| Ins.Decode32I | src/ins.rs:156 | OP-IMM, LOAD, JALR, SYSTEM and MISC-MEM take the I-type arm |
| Ins.Decode32S | src/ins.rs:169 | STORE takes the S-type arm |
| Ins.Decode32B | src/ins.rs:184 | BRANCH takes the B-type arm |
| Ins.Decode32J | src/ins.rs:202 | JAL takes the J-type arm |
| Ins.Decode32U | src/ins.rs:212 | LUI and AUIPC take the U-type arm |
| Ins.DecodeIOf | src/ins.rs:156-168 | the I-type arm reads back every field of an I-type encoding |
| Ins.DecodeSOf | src/ins.rs:169-183 | the S-type arm reads back every field of an S-type encoding |
| Ins.DecodeBOf | src/ins.rs:184-201 | the B-type arm reads back every field of a B-type encoding with an even offset |
| Ins.DecodeUOf | src/ins.rs:212-216 | the U-type arm reads back every field of a U-type encoding |
| Ins.DecodeJOf | src/ins.rs:202-211 | the J-type arm reads back every field of a J-type encoding with an even offset |
| Ins.DecodeCompressed | src/ins.rs:130-136 | a compressed instruction with an RV32IC expansion decodes, through decode, to the same descriptor as its expansion, and fails exactly when the expansion does |
| Ins.DecodeSw | src/ins.rs:645-666 | 0x0181a023 decodes as sw x24, 0(x3) |
| Ins.DecodeAdd | src/ins.rs:668-691 | 0x015a8ab3 decodes as add x21, x21, x21 |
| Ins.DecodeAddiNegative | src/ins.rs:693-714 | 0xffe00b13 decodes as addi x22, x0, -2 |
| Ins.DecodeLw | src/ins.rs:716-737 | 0x17812483 decodes as lw x9, 376(x2) |
| Ins.DecodeJal | src/ins.rs:739-752 | 0x0200006f decodes as jal x0, 32 |
| Ins.DecodeSwNegative | src/ins.rs:754-775 | 0xd41f2023 decodes as sw x1, -704(x30) |
| Ins.DecodeAddi | src/ins.rs:777-799 | 0x00258593 decodes as addi x11, x11, 2 |
| Ins.DecodeCAddi4spn | src/ins.rs:801-824 | 0x0878 decodes as addi x14, x2, 28 |
| Ins.DecodeCLi | src/ins.rs:826-849 | 0x5501 decodes as addi x10, x0, -32 |
| Ins.DecodeCLw | src/ins.rs:851-925 | 0x5a10, 0x40d8 and 0x41a0 decode as lw x12, 48(x12), lw x14, 4(x9) and lw x8, 64(x11) |
| Ins.ImmBRange | src/ins.rs:184-201 | a B-type offset is even and lies in [-4096, 4094] |
| Ins.ImmJRange | src/ins.rs:202-211 | a J-type offset is even and lies in [-2^20, 2^20 - 2] |
| Ins.CLwOperands | src/ins.rs:236-267 | c.lw and c.sw always decode, address x8..x15, and have an offset that is a multiple of 4 in [0, 124] |
| Hart.DecodeInstruction | src/hart.rs:50-107 | the descriptor keeps the word's opcode, and only the ten opcodes hart.rs matches (OP, OP-IMM, LOAD, JALR, SYSTEM, STORE, BRANCH, JAL, LUI, AUIPC) are accepted (any other panics) |
| Hart.DecodeFixed | src/hart.rs:50-107 | the corrected decoder keeps the opcode as well, with 5-bit register fields and the manual's immediates |
| Hart.DecodeRegisterFields | src/hart.rs:57-84 | the R, S and B arms keep only the low four bits of rs1 and rs2, so x16..x31 alias x0..x15; the I arm agrees with the corrected decoder |
| Hart.ImmSBLeaksRs2 | src/hart.rs:75-87 | the S and B immediates as written add rs2 into the low bits, because bits 24:20 are not masked off; they are right only when rs2 is x0 |
| Hart.ImmUpperDropsBit31 | src/hart.rs:93-99 | the J and U immediates as written are bits 30:12 of the word (mask 0x7ffff800, then a shift by 12) and lose bit 31 |
| Hart.ImmediatesAsWritten | src/hart.rs:70-101 | sb x2, 0(x1) (0x00208023) decodes with offset 2, beq offset -4 with imm -3, jal ra, 8 with offset 0x800, and auipc ra, 0x80000 with 0 |
| Hart.ImmediatesFixed | src/hart.rs:70-101 | the corrected decoder gives offset 0, -4, 8 and the upper immediate 0x80000 for the same words |
| Hart.AddHighRegisters | src/hart.rs:53-61 | add x1, x16, x17 decodes as add x1, x0, x1 as written, and correctly when fixed |
| Hart.Execute | src/hart.rs:110-160 | executing keeps 32 registers and the memory's size |
| Hart.ExecuteArith | src/hart.rs:116-125 | add and addi write the wrapping sum into rd and leave every other register, the pc and memory alone |
| Hart.ExecuteMemory | src/hart.rs:126-137 | lb writes the zero-extended byte at rs1 + imm into rd; sb stores the low byte of rs2 at rs1 + imm and changes no other byte and no register |
| Hart.ExecuteBranch | src/hart.rs:138-143 | beq sets the pc to origin plus the offset when the registers are equal and leaves it otherwise, origin being the pc Step passes in (as written, already advanced by fetch) |
| Hart.ExecuteUpper | src/hart.rs:144-153 | jal links origin + 4 and jumps to origin plus the offset; auipc writes origin plus the shifted immediate; no other register changes; origin is the pc Step passes in (as written, already advanced by fetch) |
| Hart.Fetched | src/hart.rs:44-48 | fetching moves the pc on by 4 and changes nothing else |
| Hart.StepKeepsZero | src/hart.rs:29-35 | no tick changes x0, since writing it panics |
| Hart.JalSteps | src/hart.rs:23-27 | jal ra, 8 can be ticked by the hart as written and as fixed |
| Hart.JalLinkAsWritten | src/hart.rs:144-148 | as written, jal links the pc after the fetch plus 4, i.e. the instruction's address + 8 |
| Hart.JalTargetAsWritten | src/hart.rs:144-148 | as written, jal ra, 8 lands at the instruction's address + 2052 |
| Hart.JalLinkFixed | src/hart.rs:144-148 | corrected, jal ra, 8 links the instruction's address + 4 |
| Hart.JalTargetFixed | src/hart.rs:144-148 | corrected, jal ra, 8 lands at the instruction's address + 8 |
| Hart.JalAsWritten | src/hart.rs:144-148 | jal ra, 8 as written links address + 8 and lands at address + 2052 |
| Hart.JalFixed | src/hart.rs:144-148 | jal ra, 8 corrected links address + 4 and lands at address + 8 |
| Hart.AuipcStep | src/hart.rs:149-153 | auipc as written adds the shifted immediate to the pc after the fetch |
| Hart.AuipcStepFixed | src/hart.rs:149-153 | auipc corrected adds the upper immediate to the instruction's own address |
| Hart.AuipcAsWritten | src/hart.rs:149-153 | auipc as written yields address + 4 plus bits 30:12 of the word |
| Hart.AuipcFixed | src/hart.rs:149-153 | auipc corrected yields address plus bits 31:12 of the word |
| Hart.Hart.constructor | src/hart.rs:14-21 | a new hart has 32 zero registers, pc 0 and the given memory |
| Hart.Hart.SetRegister | src/hart.rs:29-35 | writes exactly register reg; writing x0 or a register above 31 panics |
| Hart.Hart.GetRegister | src/hart.rs:37-42 | reads register reg; x0 reads 0 |
| Hart.Hart.FetchInstruction | src/hart.rs:44-48 | returns the little-endian word at the pc and moves the pc on by 4 |
| Hart.Hart.ReadByte | src/hart.rs:162-164 | returns the memory's byte at addr |
| Hart.Hart.WriteByte | src/hart.rs:169-171 | changes exactly the byte at addr |
| Hart.Hart.ExecuteInstruction | src/hart.rs:110-160 | the hart's new registers, pc and memory are those Execute gives |
| Hart.Hart.Add | src/hart.rs:116-120 | the new state is Execute's for add |
| Hart.Hart.Addi | src/hart.rs:121-125 | the new state is Execute's for addi |
| Hart.Hart.Lb | src/hart.rs:126-131 | the new state is Execute's for lb |
| Hart.Hart.Sb | src/hart.rs:132-137 | the new state is Execute's for sb |
| Hart.Hart.Beq | src/hart.rs:138-143 | the new state is Execute's for beq |
| Hart.Hart.Jal | src/hart.rs:144-148 | the new state is Execute's for jal |
| Hart.Hart.Auipc | src/hart.rs:149-153 | the new state is Execute's for auipc |
| Hart.Hart.Tick | src/hart.rs:23-27 | fetch, decode and execute: the new state is Step of the old |
| Hart.ItWorksTest | src/hart.rs:209-242 | after the seven ticks of the test program x0..x6 hold 0, 1000, 3000, 2000, 0, 1000 and 68 |
| Machine.DecodeInstruction | src/machine.rs:204-249 | the descriptor keeps the word's opcode; JAL (a todo) and unknown opcodes are refused |
| Machine.MachineOpcodeSpec | src/machine.rs:206-247 | the machine decodes exactly the opcodes the hart decodes, except JAL |
| Machine.DecodeAgreesWithHart | src/machine.rs:204-249 | on every opcode other than STORE, LUI and AUIPC the two decoders produce the same descriptor |
| Machine.StoreDecodedAsR | src/machine.rs:207-215 | a STORE word is decoded as an R-type descriptor that no execute arm accepts |
| Machine.UpperImmediate | src/machine.rs:238-243 | the machine's U-type immediate, shifted back, is exactly bits 31:12 of the word |
| Machine.Execute | src/machine.rs:252-285 | executing changes no memory and keeps 32 registers |
| Machine.ExecuteFixed | src/machine.rs:268-273 | the corrected execute changes no memory and keeps 32 registers |
| Machine.ExecuteArith | src/machine.rs:258-267 | add and addi write the wrapping sum into rd and change no other register and not the pc |
| Machine.ExecuteAuipc | src/machine.rs:274-278 | auipc writes the pc plus the shifted immediate into rd and changes nothing else |
| Machine.BeqAlwaysTaken | src/machine.rs:268-273 | as written, beq compares rs1 with itself and always branches |
| Machine.BeqFixed | src/machine.rs:268-273 | corrected, beq branches exactly when rs1 and rs2 hold equal values |
| Machine.BeqUnequal | src/machine.rs:268-273 | with x1 = 1 and x2 = 2, beq x1, x2, 8 branches as written and does not when fixed |
| Machine.StepKeepsZero | src/machine.rs:122-158 | no tick changes x0, since writing it panics |
| Machine.AuipcStep | src/machine.rs:274-278 | auipc adds bits 31:12 of the word to the pc after the fetch |
| Machine.Machine.constructor | src/machine.rs:76-114 | a new machine has 32 zero registers, pc 0 and the given memory |
| Machine.Machine.SetRegister | src/machine.rs:122-158 | writes exactly register reg; x0 and registers above 31 panic |
| Machine.Machine.GetRegister | src/machine.rs:160-196 | reads register reg; x0 reads 0 |
| Machine.Machine.FetchInstruction | src/machine.rs:198-202 | returns the little-endian word at the pc and moves the pc on by 4 |
| Machine.Machine.ExecuteInstruction | src/machine.rs:252-285 | the new registers and pc are those Execute gives |
| Machine.Machine.Add | src/machine.rs:258-262 | the new state is Execute's for add |
| Machine.Machine.Addi | src/machine.rs:263-267 | the new state is Execute's for addi |
| Machine.Machine.Beq | src/machine.rs:268-273 | the new state is Execute's for beq |
| Machine.Machine.Auipc | src/machine.rs:274-278 | the new state is Execute's for auipc |
| Machine.Machine.Tick | src/machine.rs:116-120 | fetch, decode and execute: the new state is Step of the old |
| Machine.AddiTest | src/machine.rs:304-310 | the word 0x7d008113 leaves 2000 in x2 |
| Machine.AddiNegTest | src/machine.rs:312-318 | the word 0xc1810193 leaves -1000 in x3 |
| Machine.ItWorksTest | src/machine.rs:320-353 | after the seven ticks x0..x6 hold 0, 1000, 3000, 2000, 0, 1000 and 68 |
| VirtioDefs.FlagsDistinct | src/virtio/mod.rs:23-27 | NEXT, WRITE and INDIRECT are distinct single bits |
| VirtioDefs.StatusBits | src/virtio.rs:40-48 | the four status bits a driver sets are ACKNOWLEDGE, DRIVER, DRIVER_OK and FEATURES_OK, and DEVICE_NEEDS_RESET and FAILED are apart from them |
| VirtioDefs.Select | src/virtio.rs:183-196 | a selector write picks the high half exactly when the value is 1 |
| VirtioDefs.FeatureHalves | src/virtio.rs:334-341 | the low and high halves read through DeviceFeatures make up the whole feature word |
| VirtioDefs.OrHighKeepsLow | src/virtio.rs:202-206 | ORing a value into the high half leaves the low half as it was |
| VirtioDefs.OrHighOrs | src/virtio.rs:202-206 | ORing into the high half only adds bits to it |
| VirtioDefs.OrHighCompose | src/virtio.rs:197-206 | a low half written alone and then ORed with a high half yields exactly the two halves |
| VirtioDefs.DriverFeaturesCompose | src/virtio.rs:197-206 | writing DriverFeatures low then high sets the 64-bit word to hi:lo, whatever it held before |
| VirtioDefs.WriteStatus | src/virtio.rs:208-236 | the status after a write is StatusAfter: the settable bits of the value ORed in, or 0 when DEVICE_NEEDS_RESET is written |
| VirtioDefs.StatusWriteBits | src/virtio.rs:208-236 | a status write changes no bit outside the settable four except by a reset to 0, never sets FAILED, and without a reset every bit already set stays set |
| VirtioDefs.ConfigWord | src/virtio.rs:343-369 | exactly size_max, seg_max, blk_size, opt_io_size and the fourteen discard, write-zeroes, secure-erase, zone, granularity and model fields answer; size_max, blk_size and opt_io_size read 512, seg_max 1 and the fourteen 0 |
| VirtioDefs.ConfigHalf | src/virtio.rs:384-399 | exactly num_queues, min_io_size and write_zeroes_may_unmap answer a 16-bit read, reading 4, 1 and 0 |
| VirtioDefs.ConfigByte | src/virtio.rs:401-415 | exactly writeback, physical_block_exp and alignment_offset answer an 8-bit read, reading 0 (write-through), 1 and 0 |
| VirtioDefs.ConfigOffset | src/virtio.rs:312 | the configuration offset is the address less 0x100, wrapping to a huge offset below it |
| VirtioDefs.FlagNamesSpec | src/virtio/mod.rs:29-47 | a descriptor lists "next", "write" and "indirect" exactly when each bit is set, in that order |
| VirtioDefs.EntryFlagNames | src/virtio/mod.rs:55-61 | a descriptor-list entry shows write and indirect by their bits and never next |
| VirtioDefs.DebugListEmpty | src/virtio/mod.rs:41-45 | the flag list shows as [] exactly when it is empty |
| VirtioDefs.DescTextFlags | src/virtio/mod.rs:29-47 | a descriptor shows an empty flag list exactly when none of the three flags is set |
| VirtioDefs.DescText | src/virtio/mod.rs:29-47 | a descriptor shows as "virtq[0x" followed by its fields and ends with its next index in decimal |
| VirtioDefs.ConcatAppend | src/virtio/mod.rs:51-66 | the text of a joined list is the texts of its parts one after the other |
| VirtioDefs.DescsTextSnoc | src/virtio/mod.rs:51-66 | appending a descriptor appends its entry just before the closing bracket |
| VirtioDefs.DescsText | src/virtio/mod.rs:51-66 | a descriptor list shows inside brackets, and as "[]" exactly when it is empty |
| Virtio.NewState | src/virtio.rs:139-167 | a new device offers only VERSION_1 (bit 32), with both selectors low and every other field zero |
| Virtio.Device.NewBlockDevice | src/virtio.rs:139-167 | the device starts in NewState |
| Virtio.Device.WriteWord | src/virtio.rs:177-297 | the new state and the reply are those Write gives |
| Virtio.Device.WriteFeatures | src/virtio.rs:183-207 | the selector and driver-feature arms leave the state Write gives |
| Virtio.Device.WriteAreas | src/virtio.rs:256-291 | the queue-area arms leave the state Write gives |
| Virtio.Device.WriteDescArea | src/virtio.rs:256-267 | the descriptor-area halves leave the state Write gives |
| Virtio.Device.WriteDriverArea | src/virtio.rs:268-279 | the driver-area halves leave the state Write gives |
| Virtio.Device.WriteDeviceArea | src/virtio.rs:280-291 | the device-area halves leave the state Write gives |
| Virtio.ReadWord | src/virtio.rs:326-382 | below the configuration space a word read succeeds exactly at the identification, feature, status, generation, queue-ready and queue-size-max registers |
| Virtio.ReadDouble | src/virtio.rs:311-324 | a double read succeeds only at the capacity field and reads 1 |
| Virtio.ReadHalf | src/virtio.rs:384-399 | a half read succeeds exactly at the 16-bit configuration fields: num_queues reads 4, min_io_size 1 and write_zeroes_may_unmap 0 |
| Virtio.ReadByte | src/virtio.rs:401-415 | a byte read succeeds exactly at the 8-bit configuration fields: writeback reads 0, physical_block_exp 1 and alignment_offset 0 |
| Virtio.WriteDouble | src/virtio.rs:171-175 | every double write is unimplemented |
| Virtio.WriteHalf | src/virtio.rs:299-303 | every half write is unimplemented |
| Virtio.WriteByte | src/virtio.rs:305-309 | every byte write is unimplemented |
| Virtio.WriteRefused | src/virtio.rs:177-297 | a word write succeeds exactly at the writable registers, and a refused write changes nothing |
| Virtio.Write | src/virtio.rs:177-297 | a word write succeeds exactly at the writable registers, a refused write changes nothing, and the offered features never change |
| Virtio.IdentityRegisters | src/virtio.rs:330-333 | magic "virt", version 2, device 2 (block), vendor 0x1af4 and queue size max 1 in every state |
| Virtio.SelectorWrites | src/virtio.rs:183-196 | a selector write selects the high half exactly when the value is 1 and changes nothing else |
| Virtio.FeaturesByHalves | src/virtio.rs:334-341 | the offered features read 0 in the low half and 1 in the high half |
| Virtio.DriverFeaturesNegotiated | src/virtio.rs:190-207 | selecting low, writing lo, selecting high and writing hi leaves driver features hi:lo, whatever the state before |
| Virtio.StatusWrite | src/virtio.rs:208-236 | a status write follows StatusAfter, reads back as such and changes nothing else |
| Virtio.QueueReadyReadsBack | src/virtio.rs:242-250 | QueueReady stores whether the value is non-zero and reads back 1 or 0 |
| Virtio.DescAreaComposes | src/virtio.rs:256-267 | the descriptor area written low then high is hi:lo |
| Virtio.AreaHighAsWritten | src/virtio.rs:272-291 | as written, a high-half write of the driver or device area ORs into the descriptor area's address and drops the low half written before |
| Virtio.DriverAreaLost | src/virtio.rs:268-279 | a driver area written as 0x2000 in two halves holds 0x1000, the descriptor area's address |
| Virtio.AreasComposeFixed | src/virtio.rs:268-291 | corrected, the driver and device areas written low then high are hi:lo |
| Virtio.ConfigReads | src/virtio.rs:311-369 | capacity reads 1, size_max, blk_size and opt_io_size read 512 and seg_max reads 1 |
| VirtioBlk.RequestTypeOf | src/virtio/blk.rs:85-95 | 0 and 1 convert and every other value is an "unknown request type" error |
| VirtioBlk.RequestTypeRoundTrip | src/virtio/blk.rs:80-95 | try_from inverts the discriminant, and only a discriminant converts |
| VirtioBlk.NewBlk | src/virtio/blk.rs:100-142 | a new device has sixteen idle queues, status 0, queue 0 selected and no driver features |
| VirtioBlk.BlkDevice.New | src/virtio/blk.rs:100-142 | the device starts as NewBlk with the given capacity |
| VirtioBlk.BlkDevice.WriteWord | src/virtio/blk.rs:232-443 | the reply and the new device are those Write gives; a queue register with queue_idx out of range panics |
| VirtioBlk.BlkDevice.WriteFeatures | src/virtio/blk.rs:239-263 | the selector and driver-feature arms leave the device Write gives |
| VirtioBlk.BlkDevice.WriteQueue | src/virtio/blk.rs:298-437 | a queue register write replaces the selected queue by QueueAfter and changes nothing else |
| VirtioBlk.ReadWord | src/virtio/blk.rs:469-524 | below the configuration space a word read succeeds exactly at the identification, feature, status, generation, queue-ready and queue-size-max registers |
| VirtioBlk.ReadDouble | src/virtio/blk.rs:457-467 | as written, a double read succeeds only at the capacity field and reads 1 |
| VirtioBlk.ReadDoubleFixed | src/virtio/blk.rs:457-467 | the corrected double read succeeds only at the capacity field as well, and reads the capacity |
| VirtioBlk.ReadHalf | src/virtio/blk.rs:526-537 | a half read succeeds exactly at the 16-bit configuration fields: num_queues reads 4, min_io_size 1 and write_zeroes_may_unmap 0 |
| VirtioBlk.ReadByte | src/virtio/blk.rs:539-552 | a byte read succeeds exactly at the 8-bit configuration fields: writeback reads 0, physical_block_exp 1 and alignment_offset 0 |
| VirtioBlk.WriteDouble | src/virtio/blk.rs:226-230 | every double write is unimplemented |
| VirtioBlk.WriteHalf | src/virtio/blk.rs:445-449 | every half write is unimplemented |
| VirtioBlk.WriteByte | src/virtio/blk.rs:451-455 | every byte write is unimplemented |
| VirtioBlk.WriteRefused | src/virtio/blk.rs:232-443 | a word write succeeds exactly at the writable registers, a refused write changes nothing, and no write changes the number of queues or the capacity |
| VirtioBlk.Write | src/virtio/blk.rs:232-443 | a word write succeeds exactly at the writable registers, a refused write changes nothing, and no write changes the number of queues, the capacity or the offered features |
| VirtioBlk.QueueWriteLocal | src/virtio/blk.rs:298-437 | a queue register write leaves every other queue and the transport state alone |
| VirtioBlk.QueueWriteSelected | src/virtio/blk.rs:298-437 | a queue register write replaces the selected queue by QueueAfter |
| VirtioBlk.AreasCompose | src/virtio/blk.rs:392-437 | each area of the selected queue written low then high is hi:lo |
| VirtioBlk.QueueReadyReadsBack | src/virtio/blk.rs:298-302 | QueueReady stores whether the value is non-zero and reads back 1 or 0 |
| VirtioBlk.SelectorWrites | src/virtio/blk.rs:239-252 | a selector write selects the high half exactly when the value is 1 and changes nothing else |
| VirtioBlk.DriverFeaturesNegotiated | src/virtio/blk.rs:246-263 | selecting low, writing lo, selecting high and writing hi leaves driver features hi:lo |
| VirtioBlk.StatusWrite | src/virtio/blk.rs:264-292 | a status write follows StatusAfter, reads back as such and leaves the queues alone |
| VirtioBlk.FeaturesByHalves | src/virtio/blk.rs:478-485 | the offered features are bits 32, 1, 2, 5 and 6: the low half reads 0x66 and the high half 1 |
| VirtioBlk.IdentityRegisters | src/virtio/blk.rs:474-477 | magic "virt", version 2, device 2, vendor 0x1af4 and a maximum queue size of 16 in every state |
| VirtioBlk.ConfigReads | src/virtio/blk.rs:487-515 | the two capacity words compose to the capacity; size_max, blk_size and opt_io_size read 512 and seg_max 1 |
| VirtioBlk.CapacityDoubleAsWritten | src/virtio/blk.rs:457-467 | as written a double read of the capacity gives 1 while the word reads give the capacity: for 5 sectors they disagree |
| VirtioBlk.CapacityDoubleFixed | src/virtio/blk.rs:457-467 | corrected, the double read of the capacity is the composition of the two word reads |
| VirtioBlk.EncodeDesc | src/virtio/blk.rs:214-223 | a descriptor occupies 16 bytes in memory |
| VirtioBlk.GetDescEncoded | src/virtio/blk.rs:214-223 | get_desc reads back the descriptor laid out little-endian at desc + 16 * idx |
| VirtioBlk.GetDescBytes | src/virtio/blk.rs:214-223 | the descriptor get_desc reads lays out as the very 16 bytes it was read from, so together with GetDescEncoded the read and the layout are inverse |
| VirtioBlk.TotalsOneWay | src/virtio/blk.rs:144-164 | a chain of device-readable descriptors is counted wholly as read size and one of device-writable descriptors wholly as write size |
| VirtioBlk.GetDescRwSize | src/virtio/blk.rs:144-164 | the loop returns the read and write totals of the descriptors the walk visits, or none when the fuel runs out |
| VirtioBlk.WalkFuel | src/virtio/blk.rs:148-161 | a walk that ends within its fuel ends the same way with more fuel |
| VirtioBlk.WalkShape | src/virtio/blk.rs:148-161 | a finished walk starts at the head, follows the next fields, and ends at the first descriptor whose NEXT bit matches the stopping rule |
| VirtioBlk.TwoDescriptorChain | src/virtio/blk.rs:157-159 | as written, a two-descriptor chain stops after its head; walked as a chain, both are counted |
| VirtioBlk.SelfLinkedDiverges | src/virtio/blk.rs:157-160 | as written, a single descriptor without NEXT that links to itself loops forever; walked as a chain, it stops at once |
| GdbTarget.Retain | src/gdb/emulator.rs:128 | retain keeps exactly the addresses other than addr and never grows the list |
| GdbTarget.RetainConcat | src/gdb/emulator.rs:128 | retain keeps the order: it distributes over concatenation |
| GdbTarget.CountConcat | src/gdb/emulator.rs:126 | occurrences add up over concatenation |
| GdbTarget.RetainKeepsOthers | src/gdb/emulator.rs:128 | every other address keeps all of its occurrences |
| GdbTarget.RetainNoDuplicates | src/gdb/emu.rs:92-97 | removing an address never creates a duplicate |
| GdbEmulator.HartRunner.constructor | src/gdb/emulator.rs:75-77 | the loop starts halted with no breakpoints |
| GdbEmulator.HartRunner.HandleCmd | src/gdb/emulator.rs:117-155 | the new hart, breakpoints and mode and the reply are those AfterCommand gives |
| GdbEmulator.AfterCommand | src/gdb/emulator.rs:117-155 | only ReadRegisters replies, with the pc then x0..x31; only SetRegisters changes the hart, only the breakpoint commands the list, only the resume-action commands the mode; an empty or closed channel changes nothing |
| GdbEmulator.HartRunner.SetRegisters | src/gdb/emulator.rs:137-142 | the pc becomes values[0] and each x_i becomes values[i + 1]; breakpoints and mode stay |
| GdbEmulator.HartRunner.Iterate | src/gdb/emulator.rs:79-113 | one pass of the loop leaves the session AfterIteration gives |
| GdbEmulator.HartRunner.Run | src/gdb/emulator.rs:75-115 | the loop over the received commands counts the ticks and stops at the first faulting tick, as AfterRun says |
| GdbEmulator.AddBreakpointAppends | src/gdb/emulator.rs:125-127 | AddBreakpoint appends the address at the end of the list: it occurs once more, duplicates allowed, and every other address as often as before |
| GdbEmulator.RemoveBreakpointRetains | src/gdb/emulator.rs:128 | RemoveBreakpoint drops every occurrence of the address and keeps every other address, as often as before and in order |
| GdbEmulator.ModeCommands | src/gdb/emulator.rs:129-153 | SetResumeAction sets the mode, ClearResumeAction sets Continue, and ReadMemory, WriteMemory, Resume and an empty or closed channel change nothing |
| GdbEmulator.RegistersRoundTrip | src/gdb/emulator.rs:132-142 | ReadRegisters replies the pc then x0..x31, and SetRegisters with that reply restores the hart |
| GdbEmulator.BreakpointHaltsBeforeTick | src/gdb/emulator.rs:95-99 | a pc on a breakpoint halts the loop before any tick |
| GdbEmulator.HaltNeverTicks | src/gdb/emulator.rs:101-105 | in Halt the pass never ticks |
| GdbEmulator.StepTicksOnce | src/gdb/emulator.rs:101-113 | Step ticks exactly once and becomes Halt, after which a pass only waits |
| GdbEmulator.ContinueTicks | src/gdb/emulator.rs:101-113 | Continue off a breakpoint ticks and stays Continue |
| GdbEmulator.HaltedRunNeverTicks | src/gdb/emulator.rs:75-115 | a halted loop whose commands never set the mode never ticks and never exits |
| GdbEmu.FaultKinds | src/gdb/emu.rs:138-149 | faults of the same kind map to the same error and different kinds to different ones; only Unimplemented has no number, and the numbers are 0, 2, 3, 4 and 5 |
| GdbEmu.FromFault | src/gdb/emu.rs:138-149 | every fault but Unimplemented is reported by number, memory faults and only they as 0, and the numbers are 0, 2, 3, 4 and 5 |
| GdbEmu.ReadBytesSpec | src/gdb/emu.rs:46-57 | a read succeeds exactly when every byte of the region reads, and then holds those bytes in order; a failed read reports the first faulting address's fault |
| GdbEmu.ReadBytesFaultSticks | src/gdb/emu.rs:48-55 | once a read faults, a longer read reports the same fault |
| GdbEmu.ReadMemory | src/gdb/emu.rs:46-57 | the loop returns the bytes ReadBytes reads, or the first fault mapped to its protocol error |
| GdbEmu.RegsBytes | src/gdb/emu.rs:62-65 | eight bytes per register |
| GdbEmu.RegsBytesAt | src/gdb/emu.rs:62-65 | register i occupies bytes 8i to 8i + 7, little-endian |
| GdbEmu.RegisterBytesDecode | src/gdb/emu.rs:59-69 | the reply is 264 bytes; register i decodes at offset 8i and the pc at 256 |
| GdbEmu.Emulator.constructor | src/gdb/emu.rs:22-32 | a new emulator has no breakpoints |
| GdbEmu.Emulator.InsertSoftwareBreakpoint | src/gdb/emu.rs:80-86 | the address is appended only when absent, so a list without duplicates keeps none |
| GdbEmu.Emulator.InsertHardwareBreakpoint | src/gdb/emu.rs:88-90 | the same as the software insertion |
| GdbEmu.Emulator.RemoveSoftwareBreakpoint | src/gdb/emu.rs:92-97 | the list becomes Retain of the old one: every occurrence goes and the rest stay in order |
| GdbEmu.Emulator.RemoveHardwareBreakpoint | src/gdb/emu.rs:99-101 | the same as the software removal |
| GdbEmu.Emulator.ReadGeneralRegisters | src/gdb/emu.rs:59-69 | returns x0..x31 and then the pc, eight little-endian bytes each |
| GdbEmu.Emulator.Vcont | src/gdb/emu.rs:113-135 | the new hart and the reply are those AfterVcont gives for the first request, and the breakpoints stay |
| GdbEmu.ContinueStopsAtBreakpoint | src/gdb/emu.rs:117-124 | Continue stops only with SIGTRAP on a breakpoint or with the error of a faulting tick |
| GdbEmu.ContinueFuel | src/gdb/emu.rs:120-122 | a Continue loop that stops within its fuel stops the same way with more |
| GdbEmu.ContinueTicksFirst | src/gdb/emu.rs:117-124 | Continue ticks before it tests, so a pc already on a breakpoint does not stop it |
| GdbEmu.StepTicksOnce | src/gdb/emu.rs:125-133 | Step and StepWithSignal tick once and report SIGTRAP or the given signal; every other action is unimplemented and leaves the hart |
| GdbHostIo.ExecFileChunk | src/gdb/emu_hostio.rs:81-87 | the chunk is file[offset..min(offset + length, len)], at most length bytes, each the file's byte at offset + i |
| GdbHostIo.ExecFileReplyFixed | src/gdb/emu_hostio.rs:89 | the corrected reply is Ok exactly for a non-empty file, with the number of bytes copied |
| GdbHostIo.CopiedInto | src/gdb/emu_hostio.rs:87 | the buffer keeps its length, starts with the chunk and is unchanged after it |
| GdbHostIo.ExecFileReply | src/gdb/emu_hostio.rs:78-89 | as written: Fatal(Unimplemented) exactly for an empty file, 0 past the end, and otherwise the whole file's length, which is at least the number of bytes copied |
| GdbHostIo.AsciiUtf8 | src/gdb/emu_hostio.rs:88 | a chunk of ASCII bytes passes the UTF-8 conversion the log line unwraps |
| GdbHostIo.SplitCharacter | src/gdb/emu_hostio.rs:88 | a chunk ending inside a multi-byte character, a lone continuation byte, or a byte 0xFF fails that conversion, so the unwrap panics on them |
| GdbHostIo.GetExecFile | src/gdb/emu_hostio.rs:71-90 | an empty file is Fatal(Unimplemented), an offset past the end is Ok(0), and otherwise the chunk is copied to the front of buf, the rest of buf unchanged, and the file's length returned; a chunk longer than buf, or one that is not well-formed UTF-8, panics (refused here) |
| GdbHostIo.FetchFixedReassembles | src/gdb/emu_hostio.rs:71-90 | with the corrected reply, a reader fetching chunks of any positive size reassembles the file |
| GdbHostIo.FetchAsWrittenStops | src/gdb/emu_hostio.rs:89 | as written, a reader gets only the first chunk of a file longer than a chunk |
| Words.WideShift20 | src/hart.rs:67 | `(x as i32 as u64 >> 20) as i16` equals the 32-bit arithmetic shift truncated |
| Words.WideShift12 | src/ins.rs:214 | `(x as i32 as u64 >> 12) as i32` equals the 32-bit arithmetic shift |
| Words.LeWordOfBytes | src/ram.rs:15-28 | the four little-endian bytes of a word compose back to it |
| Words.BytesOfLeWord | src/ram.rs:15-28 | a word composed from four bytes splits back into them |

## Left out

- Logging (`println!`, `eprintln!`, `info!`, `trace!`) and the text of log lines; only the `VirtqDesc`/`VirtDescs` `Display` output of src/virtio/mod.rs is modelled.
- Real stdin and stdout: console output is a returned or appended string; the flushing and the unreachable stdin branch of the UARTs are dropped.
- The wall clock: the MTIME read of src/rtc.rs depends on `Instant`; the elapsed time is a parameter `now` of Rtc.ReadWord.
- Locks, atomics and threads (`RwLock`, `AtomicBool`, `Arc`, mpsc channels): plain fields and sequences stand for them.
- Rust debug-build overflow panics: the model uses release-build wrap-around throughout.
- `usize` overflow of `offset + length` (get_exec_file) and of `address + i` (read_memory): addresses are unbounded naturals.
- Traps, mret, LR/SC and AMO execution, privilege modes and paging: none of them exist in the execution code.
- Machine.Execute: src/machine.rs:271 adds the `i16` offset to the `u32` pc with `+=`, which Rust does not accept between those types; the model adds the sign-extended offset, wrapping, as the other arms do.
- Machine.Machine: the 32 named register fields of src/machine.rs are one 32-entry array, whose `set_register` changes one entry only.
- src/virtio/blk.rs: the file open and the capacity computation in `new` (the capacity is a parameter).
- VirtioBlk.Write: the QueueNotify arm (src/virtio/blk.rs:308-391) leaves the registers alone in the model, which is what it does to them, but the model does not serve the queued requests: the available-ring walk, `recv_request` reading each request header, the backing-file read of an In request and its `bus.write_byte` copy into guest memory (lines 165-211) are left out, since the guest memory behind the device's bus and the file are not part of the device state. The panics of that arm are left out with it: the `unwrap`s of its bus reads and of the file read, and `RequestType::try_from(..).unwrap()` on an unknown request type (line 170).
- VirtioBlk.Write: the QueueDescHigh arm reads the descriptor at the new area address only for a log line (src/virtio/blk.rs:398-404); the `unwrap`s of those bus reads, which panic when the address is not mapped (a high half written before the low half, say), are left out.
- VirtioBlk.TotalsOneWay: states the read and write totals for chains whose descriptors all go one way; a full partition of a mixed chain would need wrapping-sum algebra the solver does not handle here.
- VirtioBlk.GetDescRwSize, VirtioBlk.WalkFrom: the walk can loop forever (a descriptor without NEXT whose next field names itself); a fuel bound stands for the unbounded loop and `Runs` is the result when it is used up.
- GdbEmu.Emulator.Vcont: Continue loops until a breakpoint is reached; a fuel bound stands for the unbounded loop.
- GdbHostIo.Fetch: the debugger's chunked reading is a client of get_exec_file, bounded by fuel.
- The hart behind the debugger is an abstract step (`tick`), given as a parameter; thread ids are not modelled.
- GdbEmulator.HartRunner.SetRegisters: the debugger's hart type (`Hart<DynBus>` with `set_pc`, `get_registers` and `set_register` on u64, src/gdb/emulator.rs:139-141) is not part of this model; the model assumes its `set_register` stores into every register, x0 included, whereas both harts here panic on register 0 (src/hart.rs:31, src/machine.rs:124). GdbEmulator.LoadRegisters and GdbEmulator.RegistersRoundTrip rest on the same assumption.
- Csr.Csr.Read, Csr.Csr.Write: the CSR_MAP rows that the `//...` lines at src/csr.rs:33, 39 and 121 stand for (hpmcounter5..30, hpmcounter5h..30h, pmpcfg1..pmpaddr62) are absent from the source's array as written, and so from the model: those CSRs read 0 and drop writes (Csr.ElidedRowsAbsent).
- gdb transport: src/gdb/debugger.rs, src/gdb/runner.rs, src/gdb/emu_base.rs, src/gdb/emu_breakpoints.rs and src/gdb/emu_resume.rs only forward commands over channels or TCP; `Emulator::new` parses ELF.
- The target-side methods of src/gdb/emulator.rs (read_registers, write_registers, read_addrs, write_addrs, resume and the rest, lines 158-317) forward commands over a channel to `handle_cmd`, which is modelled.
- attached, detach, halt_reason, set_address_randomization and query_supported_vcont in src/gdb/emu.rs return constants for the protocol.
- open, close and pread in src/gdb/emu_hostio.rs work on raw file descriptors.
- src/main.rs, src/bin/*.rs, src/dts.rs and src/dt.rs are boot glue, file reads and a constant string; src/device.rs, src/irq.rs and src/plic.rs are declarations used here as types.

## Findings

| source | as written | input that shows it | evidently intended | confidence | as-written member | corrected member |
|---|---|---|---|---|---|---|
| src/uart8250.rs:30 | `print!("{}", val)` formats the byte as a decimal number | writing 72 ('H') to 0x10000000 prints "72" | the byte printed as a character, as src/uart.rs does | not executed | Uart8250.WriteByteEmitsDigits | Uart8250.WriteByteChar |
| src/see.rs:10 | SBI_FUNCTION_REG is 17, the same register as the extension id, so `(0x10, 0x0)` needs a7 = 0x10 and a7 = 0 at once | a7 = 0x10, a6 = 0 (sbi_get_spec_version) returns NotSupported | the function id read from a6 (x16), answering version 1.0 | not executed | See.VersionUnanswered | See.VersionAnswered |
| src/csr.rs:8 | MEDELEG is 0x301, the number of MISA | `new(id)` stores RV32I in slot 0x301, then 0 for medeleg, so misa reads 0 | medeleg at 0x302, so misa reads 0x40000100 | not executed | Csr.NewReads | Csr.NewFixedMisa |
| src/clint.rs:102,113,124 | the chain tests USIP in the external group and UEIP in the timer group, and `ip >> k == 1` needs bit k to be the highest set bit | mip = mie = 0x10 gives None; mip = mie = 0x1080 gives None | test each bit k with `(ip >> k) & 1`, reporting UEIP and UTIP in their groups | not executed | Clint.PendingHides | Clint.PendingFixedSpec |
| src/hart.rs:57-58,73-74,83-84 | rs1 and rs2 are masked with 0b1111 | add x1, x16, x17 (0x011800B3) reads x0 and x1 | five-bit register fields, as in src/ins.rs | not executed | Hart.DecodeRegisterFields | Hart.AddHighRegisters |
| src/hart.rs:76,86 | the S/B immediate takes bits 31:20 instead of 31:25, so rs2 leaks into it | sb x2,0(x1) (0x00208023) gets offset 2 | the S/B immediates of the manual | not executed | Hart.ImmSBLeaksRs2 | Hart.ImmediatesFixed |
| src/hart.rs:93,99,146-147,151 | the J/U immediate is masked with 0x7ffff800, dropping bit 31 and reading J words with the U layout; jal and auipc use the pc already advanced by fetch | jal x1,8 at p links p+8 and jumps to p+2052; auipc x1,0x80000 adds 0 | jal links p+4 and jumps to p+8; auipc adds bits 31:12 to p | not executed | Hart.JalAsWritten | Hart.JalFixed |
| src/hart.rs:99,151 | auipc adds bits 30:12 of the word to the advanced pc | any AUIPC word with bit 31 set | rd = pc + bits 31:12 | not executed | Hart.AuipcAsWritten | Hart.AuipcFixed |
| src/machine.rs:270 | BEQ compares rs1 with itself | beq x1,x2,8 with x1 = 1, x2 = 2 jumps | taken only when rs1 and rs2 hold equal values | not executed | Machine.BeqUnequal | Machine.BeqFixed |
| src/virtio.rs:277,289 | QueueDriverHigh and QueueDeviceHigh OR the value into queue_desc, not their own field | driver area written 0x2000 then high 0 reads the descriptor area 0x1000 | hi:lo composition of each area's own halves | not executed | Virtio.DriverAreaLost | Virtio.AreasComposeFixed |
| src/virtio/blk.rs:157-159 | get_desc_rw_size stops after a descriptor with NEXT set and follows one without it | a head with NEXT whose next lacks it counts only the head; a NEXT-less descriptor linked to itself loops forever | follow NEXT and stop at the first descriptor without it | not executed | VirtioBlk.TwoDescriptorChain | VirtioBlk.WalkShape |
| src/virtio/blk.rs:461 | a double read of the capacity returns 1 | capacity 5 reads 1 as a double and 5 as words | the 64-bit capacity | not executed | VirtioBlk.CapacityDoubleAsWritten | VirtioBlk.CapacityDoubleFixed |
| src/gdb/emu_hostio.rs:89 | get_exec_file returns the length of the whole file | a 10-byte file read in 4-byte chunks yields only the first 4 bytes | the number of bytes copied | not executed | GdbHostIo.FetchAsWrittenStops | GdbHostIo.FetchFixedReassembles |
