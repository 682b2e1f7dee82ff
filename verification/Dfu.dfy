/**
 The DFU class bootloader (BootloaderDFU.c): control requests that load a command,
 program or read the memories, and erase the chip.
 */
module Dfu {
  import opened Bytes
  import opened Flash

  const FILLER_BYTES := 26
  const ENDPOINT_SIZE := 32
  const EEPROM_SIZE := 4096
  const COMMAND_PROG_START := 1
  const COMMAND_DISP_DATA := 3
  const COMMAND_WRITE := 4
  const COMMAND_READ := 5
  const COMMAND_CHANGE_BASE_ADDR := 6
  const BOOTLOADER_INFO: seq<byte> := [0x20, 0xDC, 0xFB]
  const SIGNATURE: seq<byte> := [0x58, 0x1E, 0x97, 0x82]

  datatype State = DfuIdle | DnloadIdle | UploadIdle | DfuError
  datatype Status = Ok | ErrWrite | ErrCheckErased | ErrAddress

  type Eeprom = e: seq<byte> | |e| == EEPROM_SIZE witness seq(EEPROM_SIZE, _ => 0xFF)
  type CommandData = d: seq<byte> | |d| == 5 witness [0, 0, 0, 0, 0]

  /** `SentCommand`. */
  datatype Command = Command(command: byte, data: CommandData, dataSize: word)

  /** The bootloader's statics and the memories it works on. */
  datatype Boot = Boot(
    isSecure: bool, running: bool, waitForExit: bool, state: State, status: Status, sent: Command,
    response: byte, bank64k: byte, start: word, end: word, memory: Memory, eeprom: Eeprom)

  /** The OUT endpoint: what is left of the current packet, and the packets to come. */
  datatype Endpoint = Endpoint(bytes: seq<byte>, later: seq<seq<byte>>)

  datatype Request =
    | Dnload(length: word, packets: seq<seq<byte>>)
    | Upload
    | GetStatus
    | ClearStatus
    | GetState
    | Abort

  // ----- The endpoint

  /** The next packet if this one is used up; none when the host has detached. */
  function Refilled(e: Endpoint): Option<Endpoint> {
    if e.bytes != [] then Some(e)
    else if e.later == [] then None
    else Some(Endpoint(e.later[0], e.later[1..]))
  }

  function ByteAt(e: Endpoint, i: nat): byte {
    if i < |e.bytes| then e.bytes[i] else 0
  }

  function Dropped(e: Endpoint, n: nat): Endpoint {
    e.(bytes := if n <= |e.bytes| then e.bytes[n..] else [])
  }

  /** `DiscardFillerBytes`: a packet boundary uses up one of the counts. */
  function Discarded(e: Endpoint, count: nat): Option<Endpoint>
    decreases |e.later|, count
  {
    if count == 0 then Some(e)
    else if e.bytes != [] then Discarded(Dropped(e, 1), count - 1)
    else
      match Refilled(e)
      case None => None
      case Some(e') => Discarded(e', count - 1)
  }

  // ----- Programming

  function Long(address: word, bank64k: byte): nat {
    65536 * bank64k + address
  }

  /** The number of bytes in the addressed block, in 16 bits. */
  function BlockBytes(b: Boot): word {
    Span(b.start, b.end)
  }

  /** The bytes from `start` to `end`, in 16-bit arithmetic. */
  function Span(start: word, end: word): word {
    (end as int - start + 1) % 65536
  }

  /** The flash write loop. `inPage` words are in the buffer for the page at `page`. */
  function ProgramFlash(
    ops: Ops, m: Memory, e: Endpoint, words: nat, address: nat, page: nat, inPage: nat): (Memory, Option<Endpoint>)
    decreases words
  {
    if words == 0 then (m, Some(e))
    else
      match Refilled(e)
      case None => (m, None)
      case Some(e) =>
        var m := ops.fill(m, address, ByteAt(e, 0), ByteAt(e, 1));
        var e := Dropped(e, 2);
        if inPage + 1 == PAGE_SIZE / 2 || words == 1 then
          var m := ops.write(m, page);
          if words > 1 then ProgramFlash(ops, ops.erase(m, address + 2), e, words - 1, address + 2, address + 2, 0)
          else (m, Some(e))
        else ProgramFlash(ops, m, e, words - 1, address + 2, page, inPage + 1)
  }

  /** The EEPROM write loop. */
  function ProgramEeprom(b: Boot, e: Endpoint, count: nat): (Boot, Option<Endpoint>)
    decreases count
  {
    if count == 0 then (b, Some(e))
    else
      match Refilled(e)
      case None => (b, None)
      case Some(e) =>
        var eeprom := b.eeprom[EepromCell(b.start, 0) := ByteAt(e, 0)];
        ProgramEeprom(b.(eeprom := eeprom, start := (b.start as int + 1) % 65536), Dropped(e, 1), count - 1)
  }

  /** The download of a data block, from the filler bytes on. */
  function Download(b: Boot, e: Endpoint): Boot {
    match Discarded(e, FILLER_BYTES)
    case None => b
    case Some(e) =>
      match Discarded(e, b.start % ENDPOINT_SIZE)
      case None => b
      case Some(e) =>
        if b.sent.data[0] == 0 then
          var at := Long(b.start, b.bank64k);
          var (m, rest) := ProgramFlash(BootOps(), b.memory, e, BlockBytes(b) / 2, at, at, 0);
          b.(memory := m, start := if rest.Some? then b.end else b.start)
        else
          var (b, _) := ProgramEeprom(b, e, BlockBytes(b));
          b
  }

  // ----- Commands

  function Word(high: byte, low: byte): word {
    256 * (high as int) + low
  }

  /** `LoadStartEndAddresses`. */
  function WithAddresses(b: Boot): Boot {
    b.(start := Word(b.sent.data[1], b.sent.data[2]), end := Word(b.sent.data[3], b.sent.data[4]))
  }

  /** `ProcessMemProgCommand`. */
  function MemProg(b: Boot): Boot {
    if b.sent.data[0] == 0 then
      var b := WithAddresses(b);
      b.(memory := Erase(b.memory, Long(b.start, b.bank64k)), state := DnloadIdle)
    else if b.sent.data[0] == 1 then WithAddresses(b).(state := DnloadIdle)
    else b
  }

  /** The first byte below the bootloader, from `i` on, that is not blank. */
  function FirstUsed(flash: FlashBytes, i: nat): (r: Option<nat>)
    ensures r.Some? ==> i <= r.value < BOOT_START && flash[r.value] != BLANK
    decreases |flash|, BOOT_START - i
  {
    if i >= BOOT_START then None
    else if flash[i] != BLANK then Some(i)
    else FirstUsed(flash, i + 1)
  }

  /** `ProcessMemReadCommand`. */
  function MemRead(b: Boot): Boot {
    if b.sent.data[0] == 0 || b.sent.data[0] == 2 then WithAddresses(b).(state := UploadIdle)
    else if b.sent.data[0] == 1 then
      match FirstUsed(b.memory.flash, 0)
      case None => b
      case Some(i) => b.(bank64k := i / 65536, start := i % 65536, state := DfuError, status := ErrCheckErased)
    else b
  }

  /** The chip erase loop, from the page at `address` on. */
  function ErasedFrom(m: Memory, address: nat): Memory
    decreases |m.flash|, BOOT_START - address
  {
    if address >= BOOT_START then m
    else ErasedFrom(WritePage(Erase(m, address), address), address + PAGE_SIZE)
  }

  /** `ProcessWriteCommand`. */
  function Write(b: Boot): Boot {
    if b.sent.data[0] == 3 then
      var b := b.(waitForExit := true);
      if b.sent.dataSize == 0 && b.sent.data[1] != 0 && b.memory.flash[0] == BLANK && b.memory.flash[1] == BLANK
      then b.(running := false) else b
    else if b.sent.data[0] == 0 && b.sent.data[1] == 0xFF then
      b.(memory := ErasedFrom(b.memory, 0), isSecure := false)
    else b
  }

  /** `ProcessReadCommand`. */
  function Read(b: Boot): Boot {
    var index := b.sent.data[1];
    if b.sent.data[0] == 0 then
      if index < 3 then b.(response := BOOTLOADER_INFO[index]) else b.(state := DfuError, status := ErrAddress)
    else if b.sent.data[0] == 1 then
      if index == 0x30 then b.(response := SIGNATURE[0])
      else if index == 0x31 then b.(response := SIGNATURE[1])
      else if index == 0x60 then b.(response := SIGNATURE[2])
      else if index == 0x61 then b.(response := SIGNATURE[3])
      else b.(state := DfuError, status := ErrAddress)
    else b
  }

  predicate AllowedInSecureMode(c: Command) {
    (c.command == COMMAND_WRITE && c.data[0] == 0 && c.data[1] == 0xFF) || c.command == COMMAND_READ
  }

  /** `ProcessBootloaderCommand`. */
  function Process(b: Boot): Boot {
    if b.isSecure && !AllowedInSecureMode(b.sent) then b.(state := DfuError, status := ErrWrite)
    else if b.sent.command == COMMAND_PROG_START then MemProg(b)
    else if b.sent.command == COMMAND_DISP_DATA then MemRead(b)
    else if b.sent.command == COMMAND_WRITE then Write(b)
    else if b.sent.command == COMMAND_READ then Read(b)
    else if b.sent.command == COMMAND_CHANGE_BASE_ADDR && b.sent.data[0] == 3 && b.sent.data[1] == 0 then
      b.(bank64k := b.sent.data[2])
    else b
  }

  // ----- Requests

  /** The command that the first packet carries; parameters it does not reach keep their old values. */
  function Loaded(c: Command, e: Endpoint): Command {
    var n := if |e.bytes| >= 6 then 5 else if |e.bytes| > 0 then |e.bytes| - 1 else 0;
    var data: CommandData := seq<byte>(5, i requires 0 <= i < 5 => if i < n then ByteAt(e, i + 1) else c.data[i]);
    Command(ByteAt(e, 0), data, (c.dataSize as int - 1 - n) % 65536)
  }

  /** The start of a download request: a command that waits for it is run now. */
  function Begun(b: Boot, length: word): Boot {
    var b := b.(sent := b.sent.(dataSize := length));
    if b.waitForExit then Process(b).(waitForExit := false) else b
  }

  /** A `DFU_DNLOAD` request. */
  function HandleDnload(b: Boot, length: word, packets: seq<seq<byte>>): Boot {
    var b := Begun(b, length);
    if length == 0 then
      if b.state == DnloadIdle then b.(state := DfuIdle) else b
    else if packets == [] then b
    else
      var e := Endpoint(packets[0], packets[1..]);
      var b := Process(b.(sent := Loaded(b.sent, e)));
      if b.state != DnloadIdle then b
      else if b.sent.dataSize == 0 then b.(state := DfuIdle)
      else Download(b, Dropped(e, 6))
  }

  /** A flash byte; high address bits are not connected. */
  function FlashAt(flash: FlashBytes, address: nat): byte {
    if address < FLASH_SIZE then flash[address] else flash[address % FLASH_SIZE]
  }

  /** The little-endian words of a flash block. */
  function FlashWords(flash: FlashBytes, address: nat, words: nat): seq<byte>
    decreases words
  {
    if words == 0 then []
    else [FlashAt(flash, address), FlashAt(flash, address + 1)] + FlashWords(flash, address + 2, words - 1)
  }

  /** The EEPROM cell of byte `i` of a block; high address bits are not connected. */
  function EepromCell(address: nat, i: nat): nat {
    (address + i) % EEPROM_SIZE
  }

  /** The bytes of an EEPROM block. */
  function EepromBytes(eeprom: Eeprom, address: nat, count: nat): seq<byte> {
    seq<byte>(count, i requires 0 <= i < count => eeprom[EepromCell(address, i)])
  }

  function StateCode(s: State): byte {
    match s
    case DfuIdle => 2
    case DnloadIdle => 5
    case UploadIdle => 9
    case DfuError => 10
  }

  function StatusCode(s: Status): byte {
    match s
    case Ok => 0
    case ErrWrite => 3
    case ErrCheckErased => 5
    case ErrAddress => 8
  }

  /** What an upload request sends. */
  function Uploaded(b: Boot): seq<byte> {
    if b.state != UploadIdle then
      if b.state == DfuError && b.sent.data[0] == 1 then [b.start % 256, b.start / 256] else [b.response]
    else if b.sent.data[0] == 0 then FlashWords(b.memory.flash, Long(b.start, b.bank64k), BlockBytes(b) / 2)
    else if b.sent.data[0] == 2 then EepromBytes(b.eeprom, b.start, BlockBytes(b))
    else []
  }

  /** The bootloader after an upload request. */
  function AfterUpload(b: Boot): Boot {
    if b.state != UploadIdle then b
    else
      var start := if b.sent.data[0] == 0 then b.end
                   else if b.sent.data[0] == 2 then (b.start as int + BlockBytes(b)) % 65536
                   else b.start;
      b.(start := start, state := DfuIdle)
  }

  /** `EVENT_USB_Device_ControlRequest`: the new state and the bytes sent to the host. Every request sets the
      command's data size, but only a download reads it, after setting it, so it is modelled there alone. */
  function Handle(b: Boot, r: Request): (Boot, seq<byte>) {
    match r
    case Dnload(length, packets) => (HandleDnload(b, length, packets), [])
    case Upload => (AfterUpload(b), Uploaded(b))
    case GetStatus => (b, [StatusCode(b.status), 0, 0, 0, StateCode(b.state), 0])
    case ClearStatus => (b.(status := Ok), [])
    case GetState => (b, [StateCode(b.state)])
    case Abort => (b.(state := DfuIdle), [])
  }
}
