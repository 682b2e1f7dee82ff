/**
 Downloads as a host sends them: control packets of 32 bytes, the last one shorter. What the
 loader makes of the padding and the packets, by the start address of the block, and a block
 that is not read back.
 */
module DfuTransfers {
  import opened Bytes
  import opened Flash
  import opened Dfu
  import opened DfuLaws
  import opened DfuCopy
  import opened DfuBlocks

  /** Packets of one control transfer: all full but the last, which is not empty. */
  predicate IsTransfer(packets: seq<seq<byte>>) {
    && packets != []
    && (forall k :: 0 <= k < |packets| - 1 ==> |packets[k]| == ENDPOINT_SIZE)
    && 0 < |packets[|packets| - 1]| <= ENDPOINT_SIZE
  }

  // ----- The padding

  /** The padding of `start % 32` bytes that the code asks for leaves its last byte before the data. */
  lemma PaddingIsLeft(start: word, padding: seq<byte>, data: seq<byte>, later: seq<seq<byte>>)
    requires |padding| == start % ENDPOINT_SIZE
    ensures Discarded(Endpoint([], [padding + data] + later), start % ENDPOINT_SIZE) ==
            Some(if padding == [] then Endpoint([], [data] + later)
                 else Endpoint([padding[|padding| - 1]] + data, later))
  {
    if padding == [] {
      assert padding + data == data;
    } else {
      var taken, left := padding[..|padding| - 1], [padding[|padding| - 1]] + data;
      assert padding + data == taken + left;
      PaddingIsDiscarded(start, taken, left, later);
    }
  }

  /** So the data is next if and only if the block starts at a packet boundary. */
  lemma PaddingIsGoneExactly(start: word, padding: seq<byte>, data: seq<byte>, later: seq<seq<byte>>)
    requires |padding| == start % ENDPOINT_SIZE
    ensures var e := Discarded(Endpoint([], [padding + data] + later), start % ENDPOINT_SIZE);
            e.Some? && (|Stream(e.value)| == |data| + |Joined(later)| <==> start % ENDPOINT_SIZE == 0)
  {
    PaddingIsLeft(start, padding, data, later);
    assert ([data] + later)[1..] == later;
  }

  // ----- Whole words

  lemma {:induction false} FullPackets(packets: seq<seq<byte>>)
    requires IsTransfer(packets)
    ensures |Joined(packets)| % 2 == |packets[|packets| - 1]| % 2
    decreases |packets|
  {
    if |packets| == 1 {
      assert packets[1..] == [];
    } else {
      FullPackets(packets[1..]);
    }
  }

  lemma WholeTransfer(packets: seq<seq<byte>>)
    requires IsTransfer(packets)
    ensures (forall p | p in packets :: |p| % 2 == 0) <==> |Joined(packets)| % 2 == 0
  {
    FullPackets(packets);
    var last := |packets| - 1;
    if |packets[last]| % 2 == 0 {
      forall p | p in packets ensures |p| % 2 == 0 {
        var k :| 0 <= k < |packets| && packets[k] == p;
      }
    } else {
      assert packets[last] in packets;
    }
  }

  /**
   A transfer of an even number of data bytes, after as much padding as the loader takes: its packets are whole
   words if and only if the block starts at a packet boundary, or at an odd address, or is in one packet.
   */
  lemma WholeWordsExactly(start: word, padding: seq<byte>, data: seq<byte>, later: seq<seq<byte>>)
    requires |padding| == Padding(start) && data != [] && IsTransfer([padding + data] + later)
    requires |Stream(Ready(start, data, later))| % 2 == 0
    ensures WholeWords(Ready(start, data, later)) <==>
            start % ENDPOINT_SIZE == 0 || start % 2 == 1 || later == []
  {
    StreamOfReady(start, data, later);
    if later == [] {
      assert Joined(later) == [];
      WholeReady(start, data, later);
    } else {
      assert |([padding + data] + later)[0]| == ENDPOINT_SIZE;
      TransferRest(padding + data, later);
      WholeTransfer(later);
      WholeReady(start, data, later);
      PaddingParity(start);
    }
  }

  lemma StreamOfReady(start: word, data: seq<byte>, later: seq<seq<byte>>)
    ensures Stream(Ready(start, data, later)) == data + Joined(later)
  {
    assert ([data] + later)[1..] == later;
  }

  lemma WholeReady(start: word, data: seq<byte>, later: seq<seq<byte>>)
    ensures WholeWords(Ready(start, data, later)) <==> |data| % 2 == 0 && forall p | p in later :: |p| % 2 == 0
  {
    var packets := [data] + later;
    assert packets[0] == data && forall p :: p in packets <==> p == data || p in later;
  }

  lemma TransferRest(first: seq<byte>, later: seq<seq<byte>>)
    requires later != [] && IsTransfer([first] + later)
    ensures IsTransfer(later)
  {
    var packets := [first] + later;
    forall k | 0 <= k < |later| - 1 ensures |later[k]| == ENDPOINT_SIZE {
      assert later[k] == packets[k + 1];
    }
    assert later[|later| - 1] == packets[|packets| - 1];
  }

  lemma PaddingParity(start: word)
    ensures Padding(start) % 2 == 0 <==> start % ENDPOINT_SIZE == 0 || start % 2 == 1
  {
  }

  /** Otherwise a word is split between the first two packets, and a 0 is read in between. */
  lemma SplitWord(start: word, padding: seq<byte>, data: seq<byte>, later: seq<seq<byte>>)
    requires |padding| == Padding(start) && later != [] && IsTransfer([padding + data] + later)
    requires start % ENDPOINT_SIZE != 0 && start % 2 == 0
    ensures WordStream(Ready(start, data, later)) == data + [0] + JoinedWords(later)
  {
    assert |([padding + data] + later)[0]| == ENDPOINT_SIZE;
    PaddingParity(start);
  }

  // ----- A block that is not read back

  /** An image in packets of 32 bytes. */
  function TransferOf(image: seq<byte>): seq<seq<byte>> {
    if |image| <= ENDPOINT_SIZE then [image] else [image[..ENDPOINT_SIZE]] + TransferOf(image[ENDPOINT_SIZE..])
  }

  lemma {:induction false} ImageIsTransferred(image: seq<byte>)
    requires image != []
    ensures IsTransfer(TransferOf(image)) && Joined(TransferOf(image)) == image
    decreases |image|
  {
    if |image| <= ENDPOINT_SIZE {
      assert TransferOf(image)[1..] == [];
    } else {
      var first, rest := image[..ENDPOINT_SIZE], image[ENDPOINT_SIZE..];
      ImageIsTransferred(rest);
      assert TransferOf(image)[1..] == TransferOf(rest) && first + rest == image;
      forall k | 0 <= k < |TransferOf(image)| - 1 ensures |TransferOf(image)[k]| == ENDPOINT_SIZE {
        assert k > 0 ==> TransferOf(image)[k] == TransferOf(rest)[k - 1];
      }
      assert TransferOf(image)[|TransferOf(image)| - 1] == TransferOf(rest)[|TransferOf(rest)| - 1];
    }
  }

  lemma NoneIsEmpty(packets: seq<seq<byte>>)
    requires IsTransfer(packets)
    ensures NonEmpty(Endpoint([], packets))
  {
    forall p | p in packets ensures p != [] {
      var k :| 0 <= k < |packets| && packets[k] == p;
    }
  }

  /** At a packet boundary they deliver the image. */
  lemma TransferDelivers(start: word, image: seq<byte>)
    requires image != [] && |image| % 2 == 0 && start % ENDPOINT_SIZE == 0
    ensures Delivers(Ready(start, TransferOf(image)[0], TransferOf(image)[1..]), image, 0)
  {
    var packets := TransferOf(image);
    ImageIsTransferred(image);
    WholeTransfer(packets);
    var e := Ready(start, packets[0], packets[1..]);
    assert e == Endpoint([], packets) by {
      assert [packets[0]] + packets[1..] == packets;
    }
    WholeIsStream(e);
    NoneIsEmpty(packets);
    assert image[0..] == image;
  }

  const ROTATED := 32                    // the offset of the block in its page
  const REST := 224                      // the part of a page after it

  lemma EvenPlace(at: nat, page: nat)
    requires at == PAGE_SIZE * page + ROTATED
    ensures at % 2 == 0
  {
    assert at == 2 * (PAGE_SIZE / 2 * page + ROTATED / 2);
  }

  lemma WholePage()
    ensures Pages(PAGE_SIZE) == PAGE_SIZE
  {
  }

  lemma RotatedPlaces(at: nat, x: nat)
    requires at % PAGE_SIZE == ROTATED && x < PAGE_SIZE
    ensures at % 2 == 0 && Offset(at) == ROTATED && PageStart(at) == at - ROTATED
    ensures x % PAGE_SIZE == x && PageStart(x) == 0 && Pages(PAGE_SIZE) == PAGE_SIZE
  {
    EvenPlace(at, at / PAGE_SIZE);
    WholePage();
  }

  lemma RotatedSource(at: nat, x: nat)
    requires at % PAGE_SIZE == ROTATED && REST <= x < PAGE_SIZE
    ensures PageStart(at) <= at + x - PAGE_SIZE < PageStart(at) + PAGE_SIZE && Source(at, at + x - PAGE_SIZE) == x
  {
    RotatedPlaces(at, x);
    SourceInPage(at, 0, at + x - PAGE_SIZE);
    assert (x - REST - ROTATED) % PAGE_SIZE == x;
  }

  /** Where the bytes of a page's worth of data at that offset end up. */
  lemma RotatedBytes(flash: FlashBytes, at: nat, image: seq<byte>, x: nat)
    requires at % PAGE_SIZE == ROTATED && |image| == PAGE_SIZE && at + PAGE_SIZE <= FLASH_SIZE && x < PAGE_SIZE
    ensures CopiedFlash(flash, at, image, at + x) == if x < REST then image[x] else flash[at + x]
    ensures x >= REST ==> CopiedFlash(flash, at, image, at + x - PAGE_SIZE) == image[x]
  {
    RotatedPlaces(at, x);
    CopiedByte(flash, at, image, x);
    if x >= REST {
      RotatedSource(at, x);
    }
  }

  /**
   A page's worth of data for the second packet of a page, as a host sends it: the last 32 bytes are programmed
   before the block, and what an upload reads back in their place is what flash held before.
   */
  lemma RotatedTransfer(b: Boot, length: word, start: word, end: word, image: seq<byte>, filler: seq<byte>, x: nat)
    requires !b.isSecure && !b.waitForExit && b.memory.buffer == EmptyBuffer() && length > 6
    requires start % PAGE_SIZE == ROTATED && Span(start, end) == PAGE_SIZE == |image| && |filler| == FILLER_BYTES
    requires Long(start, b.bank64k) + PAGE_SIZE <= FLASH_SIZE && x < PAGE_SIZE
    ensures var at := Long(start, b.bank64k);
            var packets := DownloadPackets(FLASH, start, end, filler, [], TransferOf(image)[0], TransferOf(image)[1..]);
            var programmed := HandleDnload(b, length, packets);
            var back := Handle(Next(programmed, ReadRequest(FLASH, start, end)), Upload).1;
            && |back| == PAGE_SIZE && back[x] == (if x < REST then image[x] else b.memory.flash[at + x])
            && (x >= REST ==> programmed.memory.flash[at + x - PAGE_SIZE] == image[x])
  {
    var at, flash, data, later := Long(start, b.bank64k), b.memory.flash, TransferOf(image)[0], TransferOf(image)[1..];
    var programmed := HandleDnload(b, length, DownloadPackets(FLASH, start, end, filler, [], data, later));
    var back := Handle(Next(programmed, ReadRequest(FLASH, start, end)), Upload).1;
    RotatedStart(start, b.bank64k);
    RotatedIsBlock(at, image);
    TransferDelivers(start, image);
    assert programmed.memory == Copied(flash, at, image) by {
      DownloadIsCopy(b, length, start, end, image, filler, [], data, later);
    }
    assert back == Copied(flash, at, image).flash[at..at + PAGE_SIZE] by {
      DownloadReadsBack(b, length, start, end, image, filler, [], data, later);
    }
    RotatedRead(programmed.memory, back, flash, at, image, x);
  }

  lemma RotatedRead(m: Memory, back: seq<byte>, flash: FlashBytes, at: nat, image: seq<byte>, x: nat)
    requires at % PAGE_SIZE == ROTATED && |image| == PAGE_SIZE && at + PAGE_SIZE <= FLASH_SIZE && x < PAGE_SIZE
    requires m == Copied(flash, at, image) && back == Copied(flash, at, image).flash[at..at + PAGE_SIZE]
    ensures |back| == PAGE_SIZE && back[x] == if x < REST then image[x] else flash[at + x]
    ensures x >= REST ==> m.flash[at + x - PAGE_SIZE] == image[x]
  {
    RotatedBytes(flash, at, image, x);
  }

  lemma RotatedIsBlock(at: nat, image: seq<byte>)
    requires at % PAGE_SIZE == ROTATED && |image| == PAGE_SIZE && at + PAGE_SIZE <= FLASH_SIZE
    ensures IsBlock(at, image)
  {
  }

  lemma RotatedStart(start: word, bank64k: byte)
    requires start % PAGE_SIZE == ROTATED
    ensures Long(start, bank64k) % PAGE_SIZE == ROTATED && start % ENDPOINT_SIZE == 0 && Padding(start) == 0
  {
  }

  // ----- A host that goes away

  /** The endpoint has the image from `k` on, up to where the host goes away. */
  ghost predicate Feeds(e: Endpoint, image: seq<byte>, k: nat)
    requires k <= |image|
  {
    NonEmpty(e) && WordStream(e) <= image[k..] && |WordStream(e)| < |image| - k
  }

  lemma {:induction false} WordsAreWhole(packets: seq<seq<byte>>)
    ensures |JoinedWords(packets)| % 2 == 0
    decreases |packets|
  {
    if packets == [] {
    } else {
      WordsAreWhole(packets[1..]);
    }
  }

  lemma PacketsHaveWords(packets: seq<seq<byte>>)
    requires packets != [] && packets[0] != []
    ensures JoinedWords(packets) != []
  {
    assert |Rounded(packets[0])| > 0;
  }

  lemma NothingLeft(e: Endpoint)
    requires NonEmpty(e) && WordStream(e) == []
    ensures Refilled(e).None?
  {
    if e.later != [] {
      assert e.later[0] in e.later;
      PacketsHaveWords(e.later);
      assert false;
    }
  }

  lemma FeedsNext(e: Endpoint, image: seq<byte>, k: nat)
    requires k <= |image| && Feeds(e, image, k) && WordStream(e) != []
    ensures k + 2 < |image| && HasWord(e, image, k) && WordStream(e)[2..] <= image[k + 2..]
  {
    WordsAreWhole(e.later);
    var s := WordStream(e);
    assert |s| % 2 == 0;
    assert image[k..][..|s|] == s;
    assert image[k + 2..][..|s| - 2] == s[2..];
  }

  lemma {:induction false} ProgramStops(
    ops: Ops, memory: nat -> Memory, final: Memory, at: nat, image: seq<byte>, e: Endpoint,
    k: nat, words: nat, page: nat, inPage: nat)
    requires Programs(ops, memory, final, at, image)
    requires k % 2 == 0 && 0 < 2 * words == |image| - k && InStep(k, at, page, inPage) && Feeds(e, image, k)
    ensures ProgramFlash(ops, memory(k), e, words, at + k, page, inPage) == (memory(k + |WordStream(e)|), None)
    decreases words
  {
    if WordStream(e) == [] {
      NothingLeft(e);
    } else {
      FeedsNext(e, image, k);
      assert ProgramsWord(ops, memory, final, at, image, k);
      var rest, page', inPage' := ProgramStep(ops, memory, final, at, image, e, k, words, page, inPage);
      ProgramStops(ops, memory, final, at, image, rest, k + 2, words - 1, page', inPage');
    }
  }

  lemma CutFromStart(ops: Ops, memory: nat -> Memory, final: Memory, at: nat, image: seq<byte>, e: Endpoint)
    requires Programs(ops, memory, final, at, image) && |image| % 2 == 0 && Feeds(e, image, 0)
    ensures ProgramFlash(ops, memory(0), e, |image| / 2, at, at, 0) == (memory(|WordStream(e)|), None)
  {
    ProgramStops(ops, memory, final, at, image, e, 0, |image| / 2, at, 0);
  }

  /** The write loop when the host goes away: whole pages are programmed, the rest is in the page buffer. */
  lemma ProgramIsCut(flash: FlashBytes, at: nat, image: seq<byte>, e: Endpoint)
    requires IsBlock(at, image) && Feeds(e, image, 0)
    ensures ProgramFlash(BootOps(), Copying(flash, at, image, 0), e, |image| / 2, at, at, 0) ==
            (Copying(flash, at, image, |WordStream(e)|), None)
  {
    var memory := (k: nat) => if k <= |image| then Copying(flash, at, image, k) else Copied(flash, at, image);
    BlockPrograms(memory, Copied(flash, at, image), flash, at, image);
    CutFromStart(BootOps(), memory, Copied(flash, at, image), at, image, e);
  }

  /**
   A download that the host breaks off: what was read up to then is copied as far as it fills pages, the page
   after them is erased, and the start address stays.
   */
  lemma DownloadIsCut(
    b: Boot, length: word, start: word, end: word, image: seq<byte>,
    filler: seq<byte>, padding: seq<byte>, data: seq<byte>, later: seq<seq<byte>>)
    requires !b.isSecure && !b.waitForExit && b.memory.buffer == EmptyBuffer() && length > 6
    requires IsBlock(Long(start, b.bank64k), image) && |image| / 2 == Span(start, end) / 2
    requires |filler| == FILLER_BYTES && |padding| == Padding(start) && Feeds(Ready(start, data, later), image, 0)
    ensures var k := |WordStream(Ready(start, data, later))|;
            HandleDnload(b, length, DownloadPackets(FLASH, start, end, filler, padding, data, later)) ==
            Prepared(b, FLASH, length - 6, start, end).(
              memory := Copying(b.memory.flash, Long(start, b.bank64k), image, k))
  {
    var at, e := Long(start, b.bank64k), Ready(start, data, later);
    var p := Prepared(b, FLASH, length - 6, start, end);
    ProgramIsPrepared(b, FLASH, length - 6, start, end);
    DnloadIsDownload(b, length, COMMAND_PROG_START, BlockData(FLASH, start, end), filler, [padding + data] + later, p);
    ErasedIsCopying(b.memory, at, image);
    ProgramIsCut(b.memory.flash, at, image, e);
    CutIsKept(p, filler, padding, data, later, |image| / 2, Copying(b.memory.flash, at, image, |WordStream(e)|));
  }

  lemma CutIsKept(
    b: Boot, filler: seq<byte>, padding: seq<byte>, data: seq<byte>, later: seq<seq<byte>>, words: nat, m: Memory)
    requires |filler| == FILLER_BYTES && |padding| == Padding(b.start)
    requires b.sent.data[0] == FLASH && words == BlockBytes(b) / 2
    requires var at := Long(b.start, b.bank64k);
             ProgramFlash(BootOps(), b.memory, Ready(b.start, data, later), words, at, at, 0) == (m, None)
    ensures Download(b, Endpoint(filler, [padding + data] + later)) == b.(memory := m)
  {
    FillerIsDiscarded(filler, [padding + data] + later);
    PaddingIsDiscarded(b.start, padding, data, later);
  }
}
