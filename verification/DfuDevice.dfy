/**
 The DFU bootloader as the firmware runs it: statics updated in place by the request
 handler, and loops over flash, EEPROM and the endpoint.
 */
module DfuDevice {
  import opened Bytes
  import opened Flash
  import opened Dfu
  import opened DfuLaws

  /** `DiscardFillerBytes`. */
  method DiscardFiller(e: Endpoint, count: nat) returns (r: Option<Endpoint>)
    ensures r == Discarded(e, count)
  {
    var left, at := count, e;
    while left > 0
      invariant Discarded(e, count) == Discarded(at, left)
    {
      left := left - 1;
      if at.bytes == [] {
        if at.later == [] {
          return None;
        }
        at := Endpoint(at.later[0], at.later[1..]);
      } else {
        at := Dropped(at, 1);
      }
    }
    r := Some(at);
  }

  /** The flash write loop of a download. */
  method WriteFlash(memory: Memory, e: Endpoint, words: nat, start: nat) returns (m: Memory, rest: Option<Endpoint>)
    ensures (m, rest) == ProgramFlash(BootOps(), memory, e, words, start, start, 0)
  {
    m := memory;
    var at, left, address, page, inPage := e, words, start, start, 0;
    while left > 0
      invariant ProgramFlash(BootOps(), memory, e, words, start, start, 0) ==
                ProgramFlash(BootOps(), m, at, left, address, page, inPage)
    {
      if at.bytes == [] {
        if at.later == [] {
          return m, None;
        }
        at := Endpoint(at.later[0], at.later[1..]);
      }
      left := left - 1;
      m := Fill(m, address, ByteAt(at, 0), ByteAt(at, 1));
      at := Dropped(at, 2);
      inPage := inPage + 1;
      address := address + 2;
      if inPage == PAGE_SIZE / 2 || left == 0 {
        m := WritePage(m, page);
        if left > 0 {
          page, inPage := address, 0;
          m := Erase(m, address);
        }
      }
    }
    rest := Some(at);
  }

  /** The chip erase loop. */
  method EraseChip(memory: Memory) returns (m: Memory)
    ensures m == ErasedFrom(memory, 0)
  {
    m := memory;
    var address := 0;
    while address < BOOT_START
      invariant ErasedFrom(memory, 0) == ErasedFrom(m, address)
      decreases BOOT_START - address
    {
      m := Erase(m, address);
      m := WritePage(m, address);
      address := address + PAGE_SIZE;
    }
  }

  /** The blank check loop: the first byte below the bootloader that is not blank. */
  method BlankCheck(flash: FlashBytes) returns (used: Option<nat>)
    ensures used == FirstUsed(flash, 0)
    ensures used.None? <==> forall i :: 0 <= i < BOOT_START ==> flash[i] == BLANK
    ensures used.Some? ==> forall i :: 0 <= i < used.value ==> flash[i] == BLANK
  {
    var address := 0;
    while address < BOOT_START
      invariant address <= BOOT_START
      invariant FirstUsed(flash, 0) == FirstUsed(flash, address)
      invariant forall i :: 0 <= i < address ==> flash[i] == BLANK
    {
      if flash[address] != BLANK {
        return Some(address);
      }
      address := address + 1;
    }
    used := None;
  }

  /** The flash read loop of an upload. */
  method ReadFlash(flash: FlashBytes, start: nat, words: nat) returns (sent: seq<byte>)
    ensures sent == FlashWords(flash, start, words)
  {
    sent := [];
    var left, address := words, start;
    while left > 0
      invariant FlashWords(flash, start, words) == sent + FlashWords(flash, address, left)
    {
      left := left - 1;
      sent := sent + [FlashAt(flash, address), FlashAt(flash, address + 1)];
      address := address + 2;
    }
  }

  /** The EEPROM read loop of an upload. */
  method ReadEeprom(eeprom: Eeprom, start: nat, count: nat) returns (sent: seq<byte>)
    ensures sent == EepromBytes(eeprom, start, count)
  {
    sent := [];
    var left, address := count, start;
    while left > 0
      invariant 0 <= left <= count && address == start + |sent| && |sent| == count - left
      invariant forall i :: 0 <= i < |sent| ==> sent[i] == eeprom[EepromCell(start, i)]
    {
      left := left - 1;
      sent := sent + [eeprom[EepromCell(address, 0)]];
      address := address + 1;
    }
  }

  class Bootloader {
    var isSecure: bool
    var running: bool
    var waitForExit: bool
    var state: State
    var status: Status
    var sent: Command
    var response: byte
    var bank64k: byte
    var start: word
    var end: word
    var memory: Memory
    var eeprom: Eeprom

    ghost function Value(): Boot
      reads this
    {
      Boot(isSecure, running, waitForExit, state, status, sent, response, bank64k, start, end, memory, eeprom)
    }

    constructor (secureMode: bool, memory: Memory, eeprom: Eeprom)
      ensures Value() ==
              Boot(secureMode, true, false, DfuIdle, Ok, Command(0, [0, 0, 0, 0, 0], 0), 0, 0, 0, 0, memory, eeprom)
    {
      isSecure, running, waitForExit := secureMode, true, false;
      state, status, sent := DfuIdle, Ok, Command(0, [0, 0, 0, 0, 0], 0);
      response, bank64k, start, end := 0, 0, 0, 0;
      this.memory, this.eeprom := memory, eeprom;
    }

    /** `LoadStartEndAddresses`. */
    method LoadAddresses()
      modifies this
      ensures Value() == WithAddresses(old(Value()))
    {
      start := Word(sent.data[1], sent.data[2]);
      end := Word(sent.data[3], sent.data[4]);
    }

    /** `ProcessMemProgCommand`. */
    method ProcessMemProg()
      modifies this
      ensures Value() == MemProg(old(Value()))
    {
      if sent.data[0] == 0 || sent.data[0] == 1 {
        LoadAddresses();
        if sent.data[0] == 0 {
          memory := Erase(memory, Long(start, bank64k));
        }
        state := DnloadIdle;
      }
    }

    /** `ProcessMemReadCommand`. */
    method ProcessMemRead()
      modifies this
      ensures Value() == MemRead(old(Value()))
    {
      if sent.data[0] == 0 || sent.data[0] == 2 {
        LoadAddresses();
        state := UploadIdle;
      } else if sent.data[0] == 1 {
        var used := BlankCheck(memory.flash);
        if used.Some? {
          bank64k, start := used.value / 65536, used.value % 65536;
          state, status := DfuError, ErrCheckErased;
        }
      }
    }

    /** `ProcessWriteCommand`. */
    method ProcessWrite()
      modifies this
      ensures Value() == Write(old(Value()))
    {
      if sent.data[0] == 3 {
        waitForExit := true;
        if sent.dataSize == 0 && sent.data[1] != 0 {
          if memory.flash[0] == BLANK && memory.flash[1] == BLANK {
            running := false;
          }
        }
      } else if sent.data[0] == 0 && sent.data[1] == 0xFF {
        memory := EraseChip(memory);
        isSecure := false;
      }
    }

    /** `ProcessReadCommand`. */
    method ProcessRead()
      modifies this
      ensures Value() == Read(old(Value()))
    {
      var index, invalid := sent.data[1], false;
      if sent.data[0] == 0 {
        if index < 3 {
          response := BOOTLOADER_INFO[index];
        } else {
          invalid := true;
        }
      } else if sent.data[0] == 1 {
        if index == 0x30 {
          response := SIGNATURE[0];
        } else if index == 0x31 {
          response := SIGNATURE[1];
        } else if index == 0x60 {
          response := SIGNATURE[2];
        } else if index == 0x61 {
          response := SIGNATURE[3];
        } else {
          invalid := true;
        }
      }
      if invalid {
        state, status := DfuError, ErrAddress;
      }
    }

    /** `ProcessBootloaderCommand`. */
    method ProcessCommand()
      modifies this
      ensures Value() == Process(old(Value()))
    {
      if isSecure {
        if !AllowedInSecureMode(sent) {
          state, status := DfuError, ErrWrite;
          return;
        }
      }
      if sent.command == COMMAND_PROG_START {
        ProcessMemProg();
      } else if sent.command == COMMAND_DISP_DATA {
        ProcessMemRead();
      } else if sent.command == COMMAND_WRITE {
        ProcessWrite();
      } else if sent.command == COMMAND_READ {
        ProcessRead();
      } else if sent.command == COMMAND_CHANGE_BASE_ADDR {
        if sent.data[0] == 3 && sent.data[1] == 0 {
          bank64k := sent.data[2];
        }
      }
    }

    /** One byte to the EEPROM, and the next address. */
    method StoreByte(b: byte)
      modifies this
      ensures Value() ==
              old(Value()).(
                eeprom := old(eeprom)[EepromCell(old(start), 0) := b], start := (old(start) as int + 1) % 65536)
    {
      eeprom := eeprom[EepromCell(start, 0) := b];
      start := (start as int + 1) % 65536;
    }

    /** The EEPROM write loop of a download. */
    method WriteEeprom(e: Endpoint, count: nat)
      modifies this
      ensures Value() == ProgramEeprom(old(Value()), e, count).0
    {
      var at, left := e, count;
      while left > 0
        invariant ProgramEeprom(old(Value()), e, count) == ProgramEeprom(Value(), at, left)
      {
        EepromTurn(Value(), at, left);
        var next := Refilled(at);
        if next.None? {
          return;
        }
        at := next.value;
        left := left - 1;
        StoreByte(ByteAt(at, 0));
        at := Dropped(at, 1);
      }
    }

    /** The data half of a download request. */
    method DownloadBlock(e: Endpoint)
      modifies this
      ensures Value() == Download(old(Value()), e)
    {
      var next := DiscardFiller(e, FILLER_BYTES);
      if next.None? {
        return;
      }
      next := DiscardFiller(next.value, start % ENDPOINT_SIZE);
      if next.None? {
        return;
      }
      var count := Span(start, end);
      if sent.data[0] == 0 {
        var m, rest := WriteFlash(memory, next.value, count / 2, Long(start, bank64k));
        memory := m;
        if rest.None? {
          return;
        }
        start := end;
      } else {
        WriteEeprom(next.value, count);
      }
    }

    method Begin(length: word)
      modifies this
      ensures Value() == Begun(old(Value()), length)
    {
      sent := sent.(dataSize := length);
      if waitForExit {
        ProcessCommand();
        waitForExit := false;
      }
    }

    method LoadCommand(e: Endpoint)
      modifies this
      ensures Value() == Process(old(Value()).(sent := Loaded(old(sent), e)))
    {
      sent := Loaded(sent, e);
      ProcessCommand();
    }

    /** The `DFU_REQ_DNLOAD` case. */
    method RequestDnload(length: word, packets: seq<seq<byte>>)
      modifies this
      ensures Value() == HandleDnload(old(Value()), length, packets)
    {
      Begin(length);
      var e := Endpoint([], []);
      if length != 0 {
        if packets == [] {
          return;
        }
        e := Endpoint(packets[0], packets[1..]);
        LoadCommand(e);
      }
      if state == DnloadIdle {
        if (if length == 0 then 0 else sent.dataSize) == 0 {
          state := DfuIdle;
        } else {
          DownloadBlock(Dropped(e, 6));
        }
      }
    }

    /** The `DFU_REQ_UPLOAD` case. */
    method RequestUpload() returns (out: seq<byte>)
      modifies this
      ensures Value() == AfterUpload(old(Value())) && out == Uploaded(old(Value()))
    {
      out := [];
      if state != UploadIdle {
        if state == DfuError && sent.data[0] == 1 {
          out := [start % 256, start / 256];
        } else {
          out := [response];
        }
      } else {
        var count := Span(start, end);
        if sent.data[0] == 0 {
          out := ReadFlash(memory.flash, Long(start, bank64k), count / 2);
          start := end;
        } else if sent.data[0] == 2 {
          out := ReadEeprom(eeprom, start, count);
          start := (start as int + count) % 65536;
        }
        state := DfuIdle;
      }
    }

    /** `EVENT_USB_Device_ControlRequest`. */
    method Request(r: Request) returns (out: seq<byte>)
      modifies this
      ensures Value() == Handle(old(Value()), r).0 && out == Handle(old(Value()), r).1
    {
      out := [];
      match r
      case Dnload(length, packets) =>
        RequestDnload(length, packets);
      case Upload =>
        out := RequestUpload();
      case GetStatus =>
        out := [StatusCode(status), 0, 0, 0, StateCode(state), 0];
      case ClearStatus =>
        status := Ok;
      case GetState =>
        out := [StateCode(state)];
      case Abort =>
        state := DfuIdle;
    }
  }
}
