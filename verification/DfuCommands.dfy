/**
 The commands of the DFU bootloader besides downloads and uploads of blocks, as requests
 of the host: chip erase, blank check, bank selection, application start and status.
 */
module DfuCommands {
  import opened Bytes
  import opened Flash
  import opened Dfu
  import opened DfuLaws

  // ----- A command in one packet

  /** A request that carries the command bytes and no data. */
  function Sends(command: seq<byte>): Request
    requires |command| <= 6
  {
    Dnload(|command|, [command])
  }

  /** The command as it is kept: bytes that are not sent keep their old values. */
  function Kept(c: Command, command: seq<byte>): Command
    requires 0 < |command| <= 6
  {
    var data: CommandData := seq<byte>(5, i requires 0 <= i < 5 => Parameter(c, command, i));
    Command(command[0], data, 0)
  }

  function Parameter(c: Command, command: seq<byte>, i: nat): byte
    requires i < 5
  {
    if i + 1 < |command| then command[i + 1] else c.data[i]
  }

  /** The state after a command that goes on with nothing. */
  function IdleAfter(s: State): State {
    if s == DnloadIdle then DfuIdle else s
  }

  lemma CommandIsKept(c: Command, command: seq<byte>)
    requires 0 < |command| <= 6
    ensures Dfu.Loaded(c.(dataSize := |command|), Endpoint(command, [])) == Kept(c, command)
  {
  }

  lemma LoadedIsRun(b: Boot, length: word, packets: seq<seq<byte>>, c: Command, p: Boot)
    requires !b.waitForExit && length > 0 && packets != [] && p.sent == c && c.dataSize == 0
    requires Dfu.Loaded(b.sent.(dataSize := length), Endpoint(packets[0], packets[1..])) == c
    requires p == Process(b.(sent := c))
    ensures HandleDnload(b, length, packets) == p.(state := IdleAfter(p.state))
  {
    var begun := b.(sent := b.sent.(dataSize := length));
    assert Begun(b, length) == begun && begun.(sent := c) == b.(sent := c);
  }

  lemma PacketIsLoaded(c: Command, command: seq<byte>, packets: seq<seq<byte>>)
    requires 0 < |command| <= 6 && packets == [command]
    ensures Dfu.Loaded(c.(dataSize := |command|), Endpoint(packets[0], packets[1..])) == Kept(c, command)
  {
    assert packets[1..] == [];
    CommandIsKept(c, command);
  }

  /** Such a request runs the command, and leaves a download that was going on. */
  lemma CommandIsRun(b: Boot, command: seq<byte>, p: Boot)
    requires !b.waitForExit && 0 < |command| <= 6
    requires p.sent == Kept(b.sent, command) && p == Process(b.(sent := p.sent))
    ensures Next(b, Sends(command)) == p.(state := IdleAfter(p.state))
  {
    PacketIsLoaded(b.sent, command, [command]);
    LoadedIsRun(b, |command|, [command], p.sent, p);
  }

  // ----- Chip erase

  const ERASE: seq<byte> := [COMMAND_WRITE, 0, 0xFF]

  lemma EraseProcessed(b: Boot)
    requires b.sent.command == COMMAND_WRITE && b.sent.data[0] == 0 && b.sent.data[1] == 0xFF
    ensures Process(b) == b.(memory := ErasedFrom(b.memory, 0), isSecure := false)
  {
  }

  /**
   The chip erase, to a secure bootloader or an open one: every byte of the application section is blank, all
   other flash and the EEPROM are as they were, and the bootloader is open.
   */
  lemma ChipIsErased(b: Boot)
    requires !b.waitForExit && b.memory.buffer == EmptyBuffer()
    ensures var q := Next(b, Sends(ERASE));
            && (forall i :: 0 <= i < FLASH_SIZE ==>
                  q.memory.flash[i] == if i < BOOT_START then BLANK else b.memory.flash[i])
            && q == b.(sent := Kept(b.sent, ERASE), isSecure := false, state := IdleAfter(b.state),
                       memory := Memory(q.memory.flash, EmptyBuffer()))
  {
    var c := Kept(b.sent, ERASE);
    var q := Next(b, Sends(ERASE));
    EraseProcessed(b.(sent := c));
    CommandIsRun(b, ERASE, b.(sent := c, memory := ErasedFrom(b.memory, 0), isSecure := false));
    forall i | 0 <= i < FLASH_SIZE
      ensures q.memory.flash[i] == if i < BOOT_START then BLANK else b.memory.flash[i]
    {
      ErasedIsBlank(b.memory, 0, i);
    }
    ErasedIsBlank(b.memory, 0, 0);
  }

  // ----- Blank check

  const BLANK_CHECK: seq<byte> := [COMMAND_DISP_DATA, 1]

  /** Byte `i` is the first of the application section that is not blank. */
  ghost predicate IsFirstUsed(flash: FlashBytes, i: nat) {
    i < BOOT_START && flash[i] != BLANK && forall j :: 0 <= j < i ==> flash[j] == BLANK
  }

  ghost predicate IsBlank(flash: FlashBytes) {
    forall i :: 0 <= i < BOOT_START ==> flash[i] == BLANK
  }

  lemma {:induction false} FirstUsedIs(flash: FlashBytes, from: nat, i: nat)
    requires from <= i < BOOT_START && flash[i] != BLANK && forall j :: from <= j < i ==> flash[j] == BLANK
    ensures FirstUsed(flash, from) == Some(i)
    decreases i - from
  {
    if from == i {
    } else {
      FirstUsedIs(flash, from + 1, i);
    }
  }

  /** A used byte is reported: the status, and its address in the bank that is selected with it. */
  lemma UsedByteIsReported(b: Boot, i: nat)
    requires !b.waitForExit && !b.isSecure && IsFirstUsed(b.memory.flash, i)
    ensures var q := Next(b, Sends(BLANK_CHECK));
            && q.bank64k == i / 65536 && q.memory == b.memory && q.eeprom == b.eeprom
            && Handle(q, Upload).1 == [i % 65536 % 256, i % 65536 / 256]
            && Handle(q, GetStatus).1 == [5, 0, 0, 0, 10, 0] && Handle(q, GetState).1 == [10]
  {
    var c := Kept(b.sent, BLANK_CHECK);
    FirstUsedIs(b.memory.flash, 0, i);
    CommandIsRun(b, BLANK_CHECK,
                 b.(sent := c, bank64k := i / 65536, start := i % 65536, state := DfuError, status := ErrCheckErased));
  }

  /** A blank application section passes. */
  lemma BlankIsPassed(b: Boot)
    requires !b.waitForExit && !b.isSecure && IsBlank(b.memory.flash)
    ensures Next(b, Sends(BLANK_CHECK)) == b.(sent := Kept(b.sent, BLANK_CHECK), state := IdleAfter(b.state))
  {
    CommandIsRun(b, BLANK_CHECK, b.(sent := Kept(b.sent, BLANK_CHECK)));
  }

  /** After a chip erase the blank check passes, whatever was there. */
  lemma ErasedIsPassed(b: Boot)
    requires !b.waitForExit && b.memory.buffer == EmptyBuffer() && b.status == Ok && b.state == DfuIdle
    ensures var q := Next(Next(b, Sends(ERASE)), Sends(BLANK_CHECK));
            Handle(q, GetStatus).1 == [0, 0, 0, 0, 2, 0]
  {
    ChipIsErased(b);
    BlankIsPassed(Next(b, Sends(ERASE)));
  }

  // ----- Banks, start, status

  /** The 64 KiB bank of the blocks to come. */
  lemma BankIsSelected(b: Boot, bank: byte)
    requires !b.waitForExit && !b.isSecure
    ensures var command := [COMMAND_CHANGE_BASE_ADDR, 3, 0, bank];
            Next(b, Sends(command)) ==
            b.(sent := Kept(b.sent, command), bank64k := bank, state := IdleAfter(b.state))
  {
    var command := [COMMAND_CHANGE_BASE_ADDR, 3, 0, bank];
    CommandIsRun(b, command, b.(sent := Kept(b.sent, command), bank64k := bank));
  }

  /** The first word of flash is blank. */
  predicate NoApplication(b: Boot) {
    b.memory.flash[0] == BLANK && b.memory.flash[1] == BLANK
  }

  /**
   The start command, with a way to start other than 0, and the empty download after it: the bootloader stops
   running if and only if the first word of flash is blank; the memories are as they were.
   */
  lemma StartStopsExactly(b: Boot, way: byte)
    requires !b.waitForExit && !b.isSecure && b.running
    ensures var q := Next(Next(b, Sends([COMMAND_WRITE, 3, way])), Dnload(0, []));
            && (q.running <==> way == 0 || !NoApplication(b)) && !q.waitForExit
            && q.memory == b.memory && q.eeprom == b.eeprom
  {
    var command := [COMMAND_WRITE, 3, way];
    var c := Kept(b.sent, command);
    var p := b.(sent := c, waitForExit := true, running := way == 0 || !NoApplication(b));
    CommandIsRun(b, command, p);
  }

  /** In secure mode every command but the chip erase and the read command is refused. */
  lemma SecureRefuses(b: Boot, command: seq<byte>)
    requires !b.waitForExit && b.isSecure && 0 < |command| <= 6 && command[0] != COMMAND_READ
    requires command[0] == COMMAND_WRITE ==> Kept(b.sent, command).data[..2] != [0, 0xFF]
    ensures Next(b, Sends(command)) ==
            b.(sent := Kept(b.sent, command), state := DfuError, status := ErrWrite)
  {
    var c := Kept(b.sent, command);
    assert c.data[0] == 0 && c.data[1] == 0xFF ==> c.data[..2] == [0, 0xFF];
    CommandIsRun(b, command, b.(sent := c, state := DfuError, status := ErrWrite));
  }

  /** A command or a memory that the bootloader does not know. */
  predicate IsUnknown(c: Command) {
    match c.command
    case 1 => c.data[0] > 1
    case 3 => c.data[0] > 2
    case 4 => c.data[0] != 3 && !(c.data[0] == 0 && c.data[1] == 0xFF)
    case 5 => c.data[0] > 1
    case 6 => !(c.data[0] == 3 && c.data[1] == 0)
    case _ => true
  }

  /** To an open bootloader it does nothing. */
  lemma UnknownIsIgnored(b: Boot, command: seq<byte>)
    requires !b.waitForExit && !b.isSecure && 0 < |command| <= 6 && IsUnknown(Kept(b.sent, command))
    ensures Next(b, Sends(command)) == b.(sent := Kept(b.sent, command), state := IdleAfter(b.state))
  {
    CommandIsRun(b, command, b.(sent := Kept(b.sent, command)));
  }

  /** What GetStatus and GetState report of every state and status. */
  lemma StatusIsReported(b: Boot)
    ensures var code := if b.state == DfuIdle then 2 else if b.state == DnloadIdle then 5
                        else if b.state == UploadIdle then 9 else 10;
            var error := if b.status == Ok then 0 else if b.status == ErrWrite then 3
                         else if b.status == ErrCheckErased then 5 else 8;
            Handle(b, GetState) == (b, [code]) && Handle(b, GetStatus) == (b, [error, 0, 0, 0, code, 0])
  {
  }

  /** An error stays until it is cleared: the status by ClearStatus, the state by Abort. */
  lemma ErrorIsCleared(b: Boot)
    ensures Handle(Next(Next(b, ClearStatus), Abort), GetStatus).1 == [0, 0, 0, 0, 2, 0]
    ensures Next(b, ClearStatus) == b.(status := Ok) && Next(b, Abort) == b.(state := DfuIdle)
    ensures Next(b, GetStatus) == b && Next(b, GetState) == b
  {
  }

  /** An empty download ends a download, and does nothing else. */
  lemma EmptyDownloadEnds(b: Boot, packets: seq<seq<byte>>)
    requires !b.waitForExit
    ensures Next(b, Dnload(0, packets)) == b.(sent := b.sent.(dataSize := 0), state := IdleAfter(b.state))
  {
  }
}
