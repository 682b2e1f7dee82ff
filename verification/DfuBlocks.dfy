/**
 Whole download and upload requests of the DFU bootloader, for flash and for EEPROM
 blocks: what the host sends is what it reads back.
 */
module DfuBlocks {
  import opened Bytes
  import opened Flash
  import opened Dfu
  import opened DfuLaws
  import opened DfuCopy

  const FLASH := 0
  const EEPROM := 1
  const READ_EEPROM := 2

  /** The parameters of a command for the block from `start` to `end` of a memory. */
  function BlockData(which: byte, start: word, end: word): CommandData {
    [which, start / 256, start % 256, end / 256, end % 256]
  }

  // ----- The command and the bytes before the data

  /** A command of six bytes, at the start of a packet. */
  lemma CommandIsLoaded(
    c: Command, command: byte, data: CommandData, filler: seq<byte>, later: seq<seq<byte>>)
    requires c.dataSize >= 6
    ensures Dfu.Loaded(c, Endpoint([command] + data + filler, later)) == Command(command, data, c.dataSize - 6)
    ensures Dropped(Endpoint([command] + data + filler, later), 6) == Endpoint(filler, later)
  {
    var e := Endpoint([command] + data + filler, later);
    assert Dfu.Loaded(c, e).data == data;
  }

  lemma {:induction false} DiscardBytes(filler: seq<byte>, rest: seq<byte>, later: seq<seq<byte>>)
    ensures Discarded(Endpoint(filler + rest, later), |filler|) == Some(Endpoint(rest, later))
    decreases |filler|
  {
    if filler == [] {
      assert filler + rest == rest;
    } else {
      assert (filler + rest)[1..] == filler[1..] + rest;
      assert Dropped(Endpoint(filler + rest, later), 1) == Endpoint(filler[1..] + rest, later);
      DiscardBytes(filler[1..], rest, later);
    }
  }

  /**
   The filler bytes that the loader takes before a block that does not start at a packet boundary. The
   change of packets uses up one count, so it is one byte less than the start address asks for.
   */
  function Padding(start: word): nat {
    if start % ENDPOINT_SIZE == 0 then 0 else start % ENDPOINT_SIZE - 1
  }

  /** The endpoint once the filler has been discarded and the data is next. */
  function Ready(start: word, data: seq<byte>, later: seq<seq<byte>>): Endpoint {
    if start % ENDPOINT_SIZE == 0 then Endpoint([], [data] + later) else Endpoint(data, later)
  }

  lemma PaddingIsDiscarded(start: word, padding: seq<byte>, data: seq<byte>, later: seq<seq<byte>>)
    requires |padding| == Padding(start)
    ensures Discarded(Endpoint([], [padding + data] + later), start % ENDPOINT_SIZE) == Some(Ready(start, data, later))
  {
    var packets := [padding + data] + later;
    if start % ENDPOINT_SIZE == 0 {
      assert padding + data == data;
    } else {
      assert packets[1..] == later;
      DiscardBytes(padding, data, later);
    }
  }

  lemma FillerIsDiscarded(filler: seq<byte>, later: seq<seq<byte>>)
    requires |filler| == FILLER_BYTES
    ensures Discarded(Endpoint(filler, later), FILLER_BYTES) == Some(Endpoint([], later))
  {
    assert filler + [] == filler;
    DiscardBytes(filler, [], later);
  }

  /** A download request whose command calls for data, from the command on. */
  lemma DnloadIsDownload(
    b: Boot, length: word, command: byte, data: CommandData, filler: seq<byte>, later: seq<seq<byte>>, p: Boot)
    requires !b.waitForExit && length > 6
    requires Process(b.(sent := Command(command, data, length - 6))) == p
    requires p.state == DnloadIdle && p.sent.dataSize != 0
    ensures HandleDnload(b, length, [[command] + data + filler] + later) == Download(p, Endpoint(filler, later))
  {
    var packets := [[command] + data + filler] + later;
    assert packets[1..] == later;
    CommandIsLoaded(b.sent.(dataSize := length), command, data, filler, later);
  }

  /** The bootloader after a program command has been processed. */
  function Prepared(b: Boot, which: byte, dataSize: word, start: word, end: word): Boot {
    b.(sent := Command(COMMAND_PROG_START, BlockData(which, start, end), dataSize), start := start, end := end,
       memory := if which == FLASH then Erase(b.memory, Long(start, b.bank64k)) else b.memory, state := DnloadIdle)
  }

  lemma ProgramIsPrepared(b: Boot, which: byte, dataSize: word, start: word, end: word)
    requires !b.isSecure && which <= EEPROM
    ensures Process(b.(sent := Command(COMMAND_PROG_START, BlockData(which, start, end), dataSize))) ==
            Prepared(b, which, dataSize, start, end)
  {
  }

  /** The packets of a download: command and filler, then padding and data. */
  function DownloadPackets(
    which: byte, start: word, end: word, filler: seq<byte>, padding: seq<byte>, data: seq<byte>,
    later: seq<seq<byte>>): seq<seq<byte>>
  {
    [[COMMAND_PROG_START] + BlockData(which, start, end) + filler] + ([padding + data] + later)
  }

  // ----- Flash

  /** Erasing the first page of a block, through an empty buffer, is the start of its copy. */
  lemma ErasedIsCopying(m: Memory, at: nat, image: seq<byte>)
    requires IsBlock(at, image) && m.buffer == EmptyBuffer()
    ensures Erase(m, at) == Copying(m.flash, at, image, 0)
  {
    InPages(|image| + 1, 0);
    BlockPage(at, 0);
    assert Erase(m, at).flash == Copying(m.flash, at, image, 0).flash;
    assert Erase(m, at).buffer == Copying(m.flash, at, image, 0).buffer;
  }

  lemma ProgramOfBlock(m: Memory, at: nat, image: seq<byte>, e: Endpoint, words: nat)
    requires m.buffer == EmptyBuffer() && IsBlock(at, image) && Delivers(e, image, 0)
    requires words == |image| / 2
    ensures var r := ProgramFlash(BootOps(), Erase(m, at), e, words, at, at, 0);
            r.0 == Copied(m.flash, at, image) && r.1.Some?
  {
    ErasedIsCopying(m, at, image);
    ProgramIsCopy(m.flash, at, image, e);
  }

  /** What the download does once the filler is gone. */
  lemma DownloadIsProgram(
    b: Boot, filler: seq<byte>, padding: seq<byte>, data: seq<byte>, later: seq<seq<byte>>, words: nat, m: Memory)
    requires |filler| == FILLER_BYTES && |padding| == Padding(b.start)
    requires b.sent.data[0] == FLASH && words == BlockBytes(b) / 2
    requires var at := Long(b.start, b.bank64k);
             var r := ProgramFlash(BootOps(), b.memory, Ready(b.start, data, later), words, at, at, 0);
             r.0 == m && r.1.Some?
    ensures Download(b, Endpoint(filler, [padding + data] + later)) == b.(memory := m, start := b.end)
  {
    FillerIsDiscarded(filler, [padding + data] + later);
    PaddingIsDiscarded(b.start, padding, data, later);
  }

  /**
   A program download of any block: the command, 26 filler bytes, the padding and the data in any packets,
   read word by word; an odd last byte is left. The block's pages then hold the image, each rotated by the start
   address, the rest of them is blank, and no other byte has changed.
   */
  lemma DownloadIsCopy(
    b: Boot, length: word, start: word, end: word, image: seq<byte>,
    filler: seq<byte>, padding: seq<byte>, data: seq<byte>, later: seq<seq<byte>>)
    requires !b.isSecure && !b.waitForExit && b.memory.buffer == EmptyBuffer() && length > 6
    requires IsBlock(Long(start, b.bank64k), image) && |image| / 2 == Span(start, end) / 2
    requires |filler| == FILLER_BYTES && |padding| == Padding(start) && Delivers(Ready(start, data, later), image, 0)
    ensures HandleDnload(b, length, DownloadPackets(FLASH, start, end, filler, padding, data, later)) ==
            Prepared(b, FLASH, length - 6, start, end).(
              start := end, memory := Copied(b.memory.flash, Long(start, b.bank64k), image))
  {
    var at, words := Long(start, b.bank64k), |image| / 2;
    var p, m := Prepared(b, FLASH, length - 6, start, end), Copied(b.memory.flash, at, image);
    ProgramIsPrepared(b, FLASH, length - 6, start, end);
    DnloadIsDownload(b, length, COMMAND_PROG_START, BlockData(FLASH, start, end), filler, [padding + data] + later, p);
    ProgramOfBlock(b.memory, at, image, Ready(start, data, later), words);
    DownloadIsProgram(p, filler, padding, data, later, words, m);
  }

  /** Every byte that the rotation of its page moves away is what is found in its place. */
  ghost predicate MovesNothing(flash: FlashBytes, at: nat, image: seq<byte>)
    requires at + |image| <= FLASH_SIZE
  {
    forall x :: 0 <= x < |image| && Offset(at) + x % PAGE_SIZE >= PAGE_SIZE ==>
      image[x] == Displaced(flash, at, image, x)
  }

  /**
   A block at an even address is where it belongs exactly when every byte that the rotation moves away
   happens to be what is found there. That is so when it starts a page or does not leave its page.
   */
  lemma CopiedBlock(flash: FlashBytes, at: nat, image: seq<byte>)
    requires at % 2 == 0 && at + |image| <= FLASH_SIZE
    ensures Copied(flash, at, image).flash[at..at + |image|] == image <==> MovesNothing(flash, at, image)
    ensures Offset(at) == 0 || Offset(at) + |image| <= PAGE_SIZE ==>
              Copied(flash, at, image).flash[at..at + |image|] == image
  {
    var block := Copied(flash, at, image).flash[at..at + |image|];
    forall x | 0 <= x < |image|
      ensures block[x] ==
              if Offset(at) + x % PAGE_SIZE < PAGE_SIZE then image[x] else Displaced(flash, at, image, x)
    {
      assert block[x] == CopiedFlash(flash, at, image, at + x);
      CopiedByte(flash, at, image, x);
    }
  }

  /** At an odd address the block is programmed from the even address below it. */
  lemma OddStartIsEven(flash: FlashBytes, at: nat, image: seq<byte>)
    requires at % 2 == 1
    ensures Copied(flash, at, image) == Copied(flash, at - 1, image)
  {
    SameOffset(at);
    forall i | 0 <= i < FLASH_SIZE
      ensures CopiedFlash(flash, at, image, i) == CopiedFlash(flash, at - 1, image, i)
    {
    }
    assert Copied(flash, at, image).flash == Copied(flash, at - 1, image).flash;
  }

  lemma SameOffset(at: nat)
    requires at % 2 == 1
    ensures PageStart(at) == PageStart(at - 1) && Offset(at) == Offset(at - 1)
  {
  }

  lemma {:induction false} WordsOfBlock(flash: FlashBytes, address: nat, words: nat)
    requires address + 2 * words <= FLASH_SIZE
    ensures FlashWords(flash, address, words) == flash[address..address + 2 * words]
    decreases words
  {
    if words == 0 {
    } else {
      var end := address + 2 * words;
      WordsOfBlock(flash, address + 2, words - 1);
      assert flash[address..end] == [flash[address], flash[address + 1]] + flash[address + 2..end];
    }
  }

  /** The bootloader when a read command has been processed. */
  function Reading(b: Boot, which: byte, start: word, end: word): Boot {
    b.(sent := Command(COMMAND_DISP_DATA, BlockData(which, start, end), 0), start := start, end := end,
       state := UploadIdle)
  }

  function ReadRequest(which: byte, start: word, end: word): Request {
    Dnload(6, [[COMMAND_DISP_DATA] + BlockData(which, start, end)])
  }

  lemma ReadIsPrepared(b: Boot, which: byte, start: word, end: word)
    requires !b.isSecure && !b.waitForExit && (which == FLASH || which == READ_EEPROM)
    ensures Next(b, ReadRequest(which, start, end)) == Reading(b, which, start, end)
  {
    var data := BlockData(which, start, end);
    var first := [COMMAND_DISP_DATA] + data;
    var packets: seq<seq<byte>> := [first];
    assert first + [] == first && packets[1..] == [];
    CommandIsLoaded(b.sent.(dataSize := 6), COMMAND_DISP_DATA, data, [], []);
    ReadProcessed(b, which, start, end);
  }

  lemma ReadProcessed(b: Boot, which: byte, start: word, end: word)
    requires !b.isSecure && (which == FLASH || which == READ_EEPROM)
    ensures Process(b.(sent := Command(COMMAND_DISP_DATA, BlockData(which, start, end), 0))) ==
            Reading(b, which, start, end)
  {
  }

  /** A read command followed by an upload sends the whole words of the block and leaves the memories alone. */
  lemma UploadReadsBlock(b: Boot, start: word, end: word)
    requires !b.isSecure && !b.waitForExit
    requires Long(start, b.bank64k) + Span(start, end) / 2 * 2 <= FLASH_SIZE
    ensures var at := Long(start, b.bank64k);
            var block := b.memory.flash[at..at + Span(start, end) / 2 * 2];
            var ready := Next(b, ReadRequest(FLASH, start, end));
            && Handle(ready, Upload).1 == block
            && Next(ready, Upload) == ready.(start := end, state := DfuIdle)
            && ready.memory == b.memory && ready.eeprom == b.eeprom
  {
    ReadIsPrepared(b, FLASH, start, end);
    WordsOfBlock(b.memory.flash, Long(start, b.bank64k), Span(start, end) / 2);
  }

  lemma SameWords(n: nat, span: nat)
    requires n % 2 == 0 && n / 2 == span / 2
    ensures span / 2 * 2 == n
  {
  }

  /**
   What is read back of a block at `at`: what its pages hold there. At an even address that is the image
   exactly when the rotation moves nothing; it moves nothing in a block that starts a page or stays in one.
   */
  ghost predicate IsReadBack(back: seq<byte>, flash: FlashBytes, at: nat, image: seq<byte>)
    requires at + |image| <= FLASH_SIZE
  {
    && back == Copied(flash, at, image).flash[at..at + |image|]
    && (at % 2 == 0 ==> (back == image <==> MovesNothing(flash, at, image)))
    && (at % 2 == 0 && (Offset(at) == 0 || Offset(at) + |image| <= PAGE_SIZE) ==> back == image)
  }

  lemma CopyIsSent(b: Boot, flash: FlashBytes, at: nat, start: word, end: word, image: seq<byte>)
    requires !b.isSecure && !b.waitForExit && b.memory == Copied(flash, at, image)
    requires at == Long(start, b.bank64k) && |image| == Span(start, end) / 2 * 2 && at + |image| <= FLASH_SIZE
    ensures IsReadBack(Handle(Next(b, ReadRequest(FLASH, start, end)), Upload).1, flash, at, image)
  {
    UploadReadsBlock(b, start, end);
    if at % 2 == 0 {
      CopiedBlock(flash, at, image);
    }
  }

  /**
   What was downloaded to an even address is what an upload reads back exactly when the rotation moves nothing
   that differs from what is found there; for a block that starts a page or stays in one, always.
   */
  lemma DownloadReadsBack(
    b: Boot, length: word, start: word, end: word, image: seq<byte>,
    filler: seq<byte>, padding: seq<byte>, data: seq<byte>, later: seq<seq<byte>>)
    requires !b.isSecure && !b.waitForExit && b.memory.buffer == EmptyBuffer() && length > 6
    requires IsBlock(Long(start, b.bank64k), image) && |image| / 2 == Span(start, end) / 2
    requires |filler| == FILLER_BYTES && |padding| == Padding(start) && Delivers(Ready(start, data, later), image, 0)
    requires Long(start, b.bank64k) + |image| <= FLASH_SIZE
    ensures var at := Long(start, b.bank64k);
            var programmed := HandleDnload(b, length, DownloadPackets(FLASH, start, end, filler, padding, data, later));
            var back := Handle(Next(programmed, ReadRequest(FLASH, start, end)), Upload).1;
            IsReadBack(back, b.memory.flash, at, image)
  {
    var at := Long(start, b.bank64k);
    var programmed := HandleDnload(b, length, DownloadPackets(FLASH, start, end, filler, padding, data, later));
    SameWords(|image|, Span(start, end));
    assert
      && !programmed.isSecure && !programmed.waitForExit && programmed.bank64k == b.bank64k
      && programmed.memory == Copied(b.memory.flash, at, image)
    by {
      DownloadIsCopy(b, length, start, end, image, filler, padding, data, later);
    }
    CopyIsSent(programmed, b.memory.flash, at, start, end, image);
  }

  // ----- EEPROM

  /** What the download does once the filler is gone. */
  lemma DownloadIsStored(
    b: Boot, filler: seq<byte>, padding: seq<byte>, data: seq<byte>, later: seq<seq<byte>>, count: nat, c: Boot)
    requires |filler| == FILLER_BYTES && |padding| == Padding(b.start)
    requires b.sent.data[0] == EEPROM && count == BlockBytes(b)
    requires ProgramEeprom(b, Ready(b.start, data, later), count).0 == c
    ensures Download(b, Endpoint(filler, [padding + data] + later)) == c
  {
    FillerIsDiscarded(filler, [padding + data] + later);
    PaddingIsDiscarded(b.start, padding, data, later);
  }

  /** The bootloader when a whole EEPROM block has been stored. */
  function AllStored(b: Boot, image: seq<byte>): Boot {
    b.(start := (b.start as int + |image|) % 65536, eeprom := Stored(b.eeprom, b.start, image))
  }

  lemma StoredFrom(b: Boot, image: seq<byte>, e: Endpoint)
    requires NonEmpty(e) && image <= Stream(e)
    ensures ProgramEeprom(b, e, |image|).0 == AllStored(b, image)
  {
    assert image[..0] == [] && image[0..] == image && image[..|image|] == image;
    assert Storing(b, image, 0) == b;
    ProgramEepromRun(b, image, e, 0);
  }

  /**
   A program download of an EEPROM block: every byte is stored in its cell, later ones over earlier ones, no
   other cell changes, and flash is not touched.
   */
  lemma EepromDownloadIsCopy(
    b: Boot, length: word, start: word, end: word, image: seq<byte>,
    filler: seq<byte>, padding: seq<byte>, data: seq<byte>, later: seq<seq<byte>>)
    requires !b.isSecure && !b.waitForExit && length > 6 && |image| == Span(start, end)
    requires |filler| == FILLER_BYTES && |padding| == Padding(start)
    requires NonEmpty(Ready(start, data, later)) && image <= Stream(Ready(start, data, later))
    ensures HandleDnload(b, length, DownloadPackets(EEPROM, start, end, filler, padding, data, later)) ==
            AllStored(Prepared(b, EEPROM, length - 6, start, end), image)
  {
    var p := Prepared(b, EEPROM, length - 6, start, end);
    ProgramIsPrepared(b, EEPROM, length - 6, start, end);
    DnloadIsDownload(b, length, COMMAND_PROG_START, BlockData(EEPROM, start, end), filler, [padding + data] + later, p);
    StoredFrom(p, image, Ready(start, data, later));
    DownloadIsStored(p, filler, padding, data, later, |image|, AllStored(p, image));
  }

  lemma EepromIsSent(b: Boot)
    requires b.state == UploadIdle && b.sent.data[0] == READ_EEPROM
    ensures Handle(b, Upload).1 == EepromBytes(b.eeprom, b.start, Span(b.start, b.end))
    ensures Next(b, Upload) == b.(start := (b.start as int + Span(b.start, b.end)) % 65536, state := DfuIdle)
  {
  }

  /** An EEPROM read and upload send the cells of the block. */
  lemma EepromUpload(b: Boot, start: word, end: word)
    requires !b.isSecure && !b.waitForExit
    ensures var ready := Next(b, ReadRequest(READ_EEPROM, start, end));
            && Handle(ready, Upload).1 == EepromBytes(b.eeprom, start, Span(start, end))
            && Next(ready, Upload) == ready.(start := (start as int + Span(start, end)) % 65536, state := DfuIdle)
            && ready.memory == b.memory && ready.eeprom == b.eeprom
  {
    ReadIsPrepared(b, READ_EEPROM, start, end);
    EepromIsSent(Next(b, ReadRequest(READ_EEPROM, start, end)));
  }

  /**
   What was downloaded to EEPROM is what an upload reads back, exactly when no byte of the block was
   overwritten by a different later one; blocks no longer than the EEPROM always are.
   */
  lemma EepromReadsBack(
    b: Boot, length: word, start: word, end: word, image: seq<byte>,
    filler: seq<byte>, padding: seq<byte>, data: seq<byte>, later: seq<seq<byte>>)
    requires !b.isSecure && !b.waitForExit && length > 6 && |image| == Span(start, end)
    requires |filler| == FILLER_BYTES && |padding| == Padding(start)
    requires NonEmpty(Ready(start, data, later)) && image <= Stream(Ready(start, data, later))
    ensures var stored := HandleDnload(b, length, DownloadPackets(EEPROM, start, end, filler, padding, data, later));
            var back := Handle(Next(stored, ReadRequest(READ_EEPROM, start, end)), Upload).1;
            && (back == image <==> forall i :: 0 <= i < |image| ==> image[i] == image[LatestIn(i, image)])
            && (|image| <= EEPROM_SIZE ==> back == image)
  {
    EepromDownloadIsCopy(b, length, start, end, image, filler, padding, data, later);
    var stored := HandleDnload(b, length, DownloadPackets(EEPROM, start, end, filler, padding, data, later));
    EepromUpload(stored, start, end);
    StoredIsRead(b.eeprom, start, image);
  }

  // ----- Bootloader and signature bytes

  /** The byte that a read command asks for. */
  function Asked(which: byte, index: byte): Option<byte> {
    match (which, index)
    case (0, 0) => Some(0x20)
    case (0, 1) => Some(0xDC)
    case (0, 2) => Some(0xFB)
    case (1, 0x30) => Some(0x58)
    case (1, 0x31) => Some(0x1E)
    case (1, 0x60) => Some(0x97)
    case (1, 0x61) => Some(0x82)
    case _ => None
  }

  lemma {:induction false} WordsAreEven(flash: FlashBytes, address: nat, words: nat)
    ensures |FlashWords(flash, address, words)| == 2 * words
    decreases words
  {
    if words == 0 {
    } else {
      WordsAreEven(flash, address + 2, words - 1);
    }
  }

  lemma ReadIsProcessed(b: Boot, which: byte, index: byte)
    requires b.sent.command == COMMAND_READ && b.sent.data[0] == which <= 1 && b.sent.data[1] == index
    ensures Process(b) ==
            if Asked(which, index).Some? then b.(response := Asked(which, index).value)
            else b.(state := DfuError, status := ErrAddress)
  {
  }

  lemma ReadIsLoaded(b: Boot, which: byte, index: byte)
    requires !b.waitForExit && which <= 1
    ensures var ready := Next(b, Dnload(3, [[COMMAND_READ, which, index]]));
            && ready.sent.data[0] == which
            && if Asked(which, index).Some?
               then ready.response == Asked(which, index).value &&
                    ready.state == if b.state == DnloadIdle then DfuIdle else b.state
               else ready.state == DfuError && ready.status == ErrAddress
  {
    var packets: seq<seq<byte>> := [[COMMAND_READ, which, index]];
    var c := Dfu.Loaded(b.sent.(dataSize := 3), Endpoint(packets[0], packets[1..]));
    assert packets[1..] == [] && c.command == COMMAND_READ && c.dataSize == 0;
    assert c.data[0] == which && c.data[1] == index;
    ReadIsProcessed(b.(sent := c), which, index);
  }

  /**
   A read command and an upload answer with the byte asked for, secure or not, unless a block is waiting to be
   uploaded or the second memory is asked for in the error state; unknown bytes are an error.
   */
  lemma ReadIsAnswered(b: Boot, which: byte, index: byte)
    requires !b.waitForExit && which <= 1
    ensures var ready := Next(b, Dnload(3, [[COMMAND_READ, which, index]]));
            if Asked(which, index).Some?
            then Handle(ready, Upload).1 == [Asked(which, index).value] <==>
                 b.state != UploadIdle && !(b.state == DfuError && which == 1)
            else ready.state == DfuError && ready.status == ErrAddress
  {
    var ready := Next(b, Dnload(3, [[COMMAND_READ, which, index]]));
    ReadIsLoaded(b, which, index);
    WordsAreEven(ready.memory.flash, Long(ready.start, ready.bank64k), BlockBytes(ready) / 2);
  }
}
