/**
 Downloads and uploads of the DFU bootloader: a download is a copy that an upload reads
 back, for flash and for EEPROM, wherever the block starts and whatever its length.
 */
module DfuCopy {
  import opened Bytes
  import opened Flash
  import opened Dfu
  import opened DfuLaws

  // ----- The data stream of a download

  function Joined(packets: seq<seq<byte>>): seq<byte> {
    if packets == [] then [] else packets[0] + Joined(packets[1..])
  }

  /** All the bytes still to come. */
  function Stream(e: Endpoint): seq<byte> {
    e.bytes + Joined(e.later)
  }

  /** Packets, none of them empty. */
  predicate NonEmpty(e: Endpoint) {
    forall p | p in e.later :: p != []
  }

  /** What is read of a packet word by word: past an odd last byte the endpoint gives 0. */
  function Rounded(packet: seq<byte>): seq<byte> {
    if |packet| % 2 == 0 then packet else packet + [0]
  }

  function JoinedWords(packets: seq<seq<byte>>): seq<byte> {
    if packets == [] then [] else Rounded(packets[0]) + JoinedWords(packets[1..])
  }

  /** All the bytes still to come, as they are read word by word. */
  function WordStream(e: Endpoint): seq<byte> {
    Rounded(e.bytes) + JoinedWords(e.later)
  }

  /** Packets of whole words. */
  predicate WholeWords(e: Endpoint) {
    |e.bytes| % 2 == 0 && forall p | p in e.later :: |p| % 2 == 0
  }

  lemma {:induction false} JoinedAreWords(packets: seq<seq<byte>>)
    requires forall p | p in packets :: |p| % 2 == 0
    ensures JoinedWords(packets) == Joined(packets)
    decreases |packets|
  {
    if packets == [] {
    } else {
      assert packets[0] in packets;
      JoinedAreWords(packets[1..]);
    }
  }

  /** Packets of whole words are read as they are. */
  lemma WholeIsStream(e: Endpoint)
    requires WholeWords(e)
    ensures WordStream(e) == Stream(e)
  {
    JoinedAreWords(e.later);
  }

  lemma RefilledKeepsWords(e: Endpoint)
    requires NonEmpty(e) && WordStream(e) != []
    ensures Refilled(e).Some?
    ensures var e' := Refilled(e).value;
            e'.bytes != [] && NonEmpty(e') && WordStream(e') == WordStream(e)
  {
    if e.bytes == [] {
      assert e.later[0] in e.later && forall p :: p in e.later[1..] ==> p in e.later;
      assert WordStream(e) == Rounded(e.later[0]) + JoinedWords(e.later[1..]);
    }
  }

  /** The next word, across packet boundaries. */
  lemma NextWord(e: Endpoint)
    requires NonEmpty(e) && |WordStream(e)| >= 2
    ensures Refilled(e).Some?
    ensures var e' := Refilled(e).value;
            && ByteAt(e', 0) == WordStream(e)[0] && ByteAt(e', 1) == WordStream(e)[1]
            && NonEmpty(Dropped(e', 2)) && WordStream(Dropped(e', 2)) == WordStream(e)[2..]
  {
    RefilledKeepsWords(e);
    FirstWord(Refilled(e).value);
  }

  lemma FirstWord(e: Endpoint)
    requires NonEmpty(e) && e.bytes != []
    ensures |WordStream(e)| >= 2
    ensures ByteAt(e, 0) == WordStream(e)[0] && ByteAt(e, 1) == WordStream(e)[1]
    ensures NonEmpty(Dropped(e, 2)) && WordStream(Dropped(e, 2)) == WordStream(e)[2..]
  {
    assert Rounded(e.bytes)[2..] == Rounded(Dropped(e, 2).bytes);
    assert WordStream(e)[2..] == Rounded(e.bytes)[2..] + JoinedWords(e.later);
  }

  // ----- The program loop

  /** The word at `k` of a block of `|image|` bytes at `at`, and what it does to the memory; `final` is the
      memory after the last word. */
  ghost predicate ProgramsWord(ops: Ops, memory: nat -> Memory, final: Memory, at: nat, image: seq<byte>, k: nat)
    requires k + 2 <= |image|
  {
    var filled := ops.fill(memory(k), at + k, image[k], image[k + 1]);
    var written := ops.write(filled, at + PageStart(k));
    if k + 2 == |image| then final == written
    else memory(k + 2) == if PageStart(k + 2) == k + 2 then ops.erase(written, at + k + 2) else filled
  }

  ghost predicate Programs(ops: Ops, memory: nat -> Memory, final: Memory, at: nat, image: seq<byte>) {
    forall k: nat {:trigger ProgramsWord(ops, memory, final, at, image, k)} ::
      k % 2 == 0 && k + 2 <= |image| ==> ProgramsWord(ops, memory, final, at, image, k)
  }

  /** One turn of the loop on a stream of whole words. */
  lemma ProgramTurn(ops: Ops, m: Memory, e: Endpoint, words: nat, address: nat, page: nat, inPage: nat)
    requires words > 0 && NonEmpty(e) && |WordStream(e)| >= 2
    ensures var filled := ops.fill(m, address, WordStream(e)[0], WordStream(e)[1]);
            var rest := Dropped(Refilled(e).value, 2);
            && NonEmpty(rest) && WordStream(rest) == WordStream(e)[2..]
            && ProgramFlash(ops, m, e, words, address, page, inPage) ==
               if words == 1 then (ops.write(filled, page), Some(rest))
               else if inPage + 1 == PAGE_SIZE / 2
               then
                 var erased := ops.erase(ops.write(filled, page), address + 2);
                 ProgramFlash(ops, erased, rest, words - 1, address + 2, address + 2, 0)
               else ProgramFlash(ops, filled, rest, words - 1, address + 2, page, inPage + 1)
  {
    NextWord(e);
  }

  /** The endpoint will deliver the image from `k` on. */
  ghost predicate Delivers(e: Endpoint, image: seq<byte>, k: nat)
    requires k <= |image|
  {
    NonEmpty(e) && image[k..] <= WordStream(e)
  }

  /** The endpoint's next word is the one at `k` of the image. */
  ghost predicate HasWord(e: Endpoint, image: seq<byte>, k: nat)
    requires k + 2 <= |image|
  {
    NonEmpty(e) && |WordStream(e)| >= 2 && WordStream(e)[0] == image[k] && WordStream(e)[1] == image[k + 1]
  }

  lemma DeliversNext(e: Endpoint, image: seq<byte>, k: nat)
    requires k + 2 <= |image| && Delivers(e, image, k)
    ensures HasWord(e, image, k) && image[k + 2..] <= WordStream(e)[2..]
  {
    assert image[k..][0] == image[k] && image[k..][1] == image[k + 1];
    assert image[k..][2..] == image[k + 2..];
  }

  /** The loop's page and word counter for the word at `k`. */
  predicate InStep(k: nat, at: nat, page: nat, inPage: nat) {
    page == at + PageStart(k) && 2 * inPage == k - PageStart(k)
  }

  lemma InStepNext(k: nat, at: nat, page: nat, inPage: nat)
    requires k % 2 == 0 && InStep(k, at, page, inPage)
    ensures inPage + 1 == PAGE_SIZE / 2 <==> PageStart(k + 2) == k + 2
    ensures if PageStart(k + 2) == k + 2 then InStep(k + 2, at, at + k + 2, 0) else InStep(k + 2, at, page, inPage + 1)
  {
    PageArithmetic(k);
  }

  /** One word of the image through the loop, and the page and word counter it leaves. */
  lemma ProgramStep(
    ops: Ops, memory: nat -> Memory, final: Memory, at: nat, image: seq<byte>, e: Endpoint,
    k: nat, words: nat, page: nat, inPage: nat) returns (rest: Endpoint, page': nat, inPage': nat)
    requires k % 2 == 0 && 0 < 2 * words == |image| - k && InStep(k, at, page, inPage) && HasWord(e, image, k)
    requires ProgramsWord(ops, memory, final, at, image, k)
    ensures NonEmpty(rest) && WordStream(rest) == WordStream(e)[2..] && InStep(k + 2, at, page', inPage')
    ensures ProgramFlash(ops, memory(k), e, words, at + k, page, inPage) ==
            if words == 1 then (final, Some(rest))
            else ProgramFlash(ops, memory(k + 2), rest, words - 1, at + k + 2, page', inPage')
  {
    InStepNext(k, at, page, inPage);
    ProgramTurn(ops, memory(k), e, words, at + k, page, inPage);
    NextWord(e);
    rest := Dropped(Refilled(e).value, 2);
    if PageStart(k + 2) == k + 2 {
      page', inPage' := at + k + 2, 0;
    } else {
      page', inPage' := page, inPage + 1;
    }
  }

  lemma {:induction false} ProgramRun(
    ops: Ops, memory: nat -> Memory, final: Memory, at: nat, image: seq<byte>, e: Endpoint,
    k: nat, words: nat, page: nat, inPage: nat)
    requires Programs(ops, memory, final, at, image)
    requires k % 2 == 0 && 0 < 2 * words == |image| - k && InStep(k, at, page, inPage) && Delivers(e, image, k)
    ensures var r := ProgramFlash(ops, memory(k), e, words, at + k, page, inPage);
            r.0 == final && r.1.Some?
    decreases words
  {
    assert ProgramsWord(ops, memory, final, at, image, k);
    DeliversNext(e, image, k);
    var rest, page', inPage' := ProgramStep(ops, memory, final, at, image, e, k, words, page, inPage);
    if words == 1 {
    } else {
      ProgramRun(ops, memory, final, at, image, rest, k + 2, words - 1, page', inPage');
    }
  }

  // ----- Where the words of a block go

  /** The offset in its page of the first word of a block. */
  function Offset(at: nat): nat {
    at % PAGE_SIZE / 2 * 2
  }

  /**
   The image byte that ends up in the flash byte `i`. The loop counts 128 words to a page from the start of
   the block, so a block that starts inside a page is rotated within each of its pages.
   */
  function Source(at: nat, i: nat): nat
    requires PageStart(at) <= i
  {
    PageStart(i - PageStart(at)) + (i - Offset(at)) % PAGE_SIZE
  }

  /** The pages that a block of `n` bytes takes; the first is erased even for an empty block. */
  function Pages(n: nat): nat {
    if n == 0 then PAGE_SIZE else PageStart(n + PAGE_SIZE - 1)
  }

  /** A block of whole words whose pages are in flash. */
  predicate IsBlock(at: nat, image: seq<byte>) {
    |image| % 2 == 0 && PageStart(at) + Pages(|image|) <= FLASH_SIZE
  }

  lemma FillIndex(at: nat, k: nat)
    requires k % 2 == 0
    ensures (at + k) % PAGE_SIZE / 2 * 2 == (Offset(at) + k) % PAGE_SIZE
  {
    var o := Offset(at);
    var x := (o + k) % PAGE_SIZE;
    assert o + k == PAGE_SIZE * ((o + k) / PAGE_SIZE) + x;
    HalvesOf(x, at % PAGE_SIZE - o, o + k);
    RemainderIs(at + k, at / PAGE_SIZE + (o + k) / PAGE_SIZE, x + (at % PAGE_SIZE - o));
  }

  lemma HalvesOf(x: nat, odd: nat, sum: nat)
    requires sum % 2 == 0 && x == sum % PAGE_SIZE && odd < 2
    ensures x % 2 == 0 && (x + odd) / 2 * 2 == x && x + odd < PAGE_SIZE
  {
  }

  lemma RemainderIs(x: nat, quotient: nat, remainder: nat)
    requires x == PAGE_SIZE * quotient + remainder && remainder < PAGE_SIZE
    ensures x % PAGE_SIZE == remainder
  {
  }

  /** Buffer cell `j` belongs to the word at `k` exactly when the rotation takes it there. */
  lemma Rotation(o: nat, k: nat, j: nat)
    requires o < PAGE_SIZE && o % 2 == 0 && k % 2 == 0 && j < PAGE_SIZE
    ensures (j - o) % PAGE_SIZE == k - PageStart(k) <==> j == (o + k) % PAGE_SIZE
    ensures (j - o) % PAGE_SIZE == k - PageStart(k) + 1 <==> j == (o + k) % PAGE_SIZE + 1
  {
    var r := k % PAGE_SIZE;
    assert r == k - PageStart(k) && r % 2 == 0;
    assert (o + k) % PAGE_SIZE == (o + r) % PAGE_SIZE;
    RotationOf(o, r, j);
    RotationOf(o, r + 1, j);
    HalvesOf((o + r) % PAGE_SIZE, 1, o + r);
    NextCell(o + r);
  }

  lemma RotationOf(o: nat, r: nat, j: nat)
    requires o < PAGE_SIZE && r < PAGE_SIZE && j < PAGE_SIZE
    ensures (j - o) % PAGE_SIZE == r <==> j == (o + r) % PAGE_SIZE
  {
    assert (j - o) % PAGE_SIZE == if j >= o then j - o else j - o + PAGE_SIZE;
    assert (o + r) % PAGE_SIZE == if o + r < PAGE_SIZE then o + r else o + r - PAGE_SIZE;
  }

  lemma NextCell(x: nat)
    requires x % 2 == 0
    ensures (x + 1) % PAGE_SIZE == x % PAGE_SIZE + 1
  {
  }

  /** Block positions that are multiples of the page size are at the same offset in the next pages. */
  lemma BlockPage(at: nat, k: nat)
    requires k % PAGE_SIZE == 0 && PageStart(at) + k < FLASH_SIZE
    ensures PageOf(at + k) == PageStart(at) + k
  {
  }

  lemma SourceInPage(at: nat, k: nat, i: nat)
    requires InPage(i, PageStart(at) + PageStart(k))
    ensures Source(at, i) == PageStart(k) + (i - PageStart(at) - PageStart(k) - Offset(at)) % PAGE_SIZE
    ensures PageStart(k) <= Source(at, i) < PageStart(k) + PAGE_SIZE
  {
  }

  // ----- The memory along a download

  function Cell(image: seq<byte>, at: nat, i: nat): byte
    requires PageStart(at) <= i
  {
    if Source(at, i) < |image| then image[Source(at, i)] else BLANK
  }

  /** A flash byte when `k` bytes have been taken: whole pages programmed, the current page blank. */
  function CopyingFlash(flash: FlashBytes, at: nat, image: seq<byte>, k: nat, i: nat): byte
    requires i < FLASH_SIZE
  {
    if PageStart(at) <= i < PageStart(at) + PageStart(k) then Cell(image, at, i)
    else if InPage(i, PageStart(at) + PageStart(k)) then BLANK
    else flash[i]
  }

  /** A buffer byte when `k` bytes have been taken: those of the current page, rotated. */
  function CopyingBuffer(at: nat, image: seq<byte>, k: nat, j: nat): byte
    requires k <= |image|
  {
    var s := PageStart(k) + (j - Offset(at)) % PAGE_SIZE;
    if s < k then image[s] else BLANK
  }

  function Copying(flash: FlashBytes, at: nat, image: seq<byte>, k: nat): Memory
    requires k <= |image|
  {
    Memory(
      seq<byte>(FLASH_SIZE, i requires 0 <= i < FLASH_SIZE => CopyingFlash(flash, at, image, k, i)),
      seq<byte>(PAGE_SIZE, j requires 0 <= j < PAGE_SIZE => CopyingBuffer(at, image, k, j)))
  }

  /** A flash byte after the download: the pages of the block hold the image, the rest is untouched. */
  function CopiedFlash(flash: FlashBytes, at: nat, image: seq<byte>, i: nat): byte
    requires i < FLASH_SIZE
  {
    if PageStart(at) <= i < PageStart(at) + Pages(|image|) then Cell(image, at, i) else flash[i]
  }

  function Copied(flash: FlashBytes, at: nat, image: seq<byte>): Memory {
    Memory(seq<byte>(FLASH_SIZE, i requires 0 <= i < FLASH_SIZE => CopiedFlash(flash, at, image, i)), EmptyBuffer())
  }

  /** The buffer once the word at `k` is in it. */
  lemma FilledBuffer(flash: FlashBytes, at: nat, image: seq<byte>, k: nat, j: nat)
    requires k % 2 == 0 && k + 2 <= |image| && j < PAGE_SIZE
    ensures var s := PageStart(k) + (j - Offset(at)) % PAGE_SIZE;
            Fill(Copying(flash, at, image, k), at + k, image[k], image[k + 1]).buffer[j] ==
            if s < k + 2 then image[s] else BLANK
  {
    FillIndex(at, k);
    Rotation(Offset(at), k, j);
    HalvesOf((Offset(at) + k) % PAGE_SIZE, 1, Offset(at) + k);
  }

  /** The memory once the word at `k` is in the buffer. */
  function Filled(flash: FlashBytes, at: nat, image: seq<byte>, k: nat): Memory
    requires k + 2 <= |image|
  {
    Fill(Copying(flash, at, image, k), at + k, image[k], image[k + 1])
  }

  /** A flash byte once the current page has been written. */
  lemma WrittenFlash(flash: FlashBytes, at: nat, image: seq<byte>, k: nat, i: nat)
    requires IsBlock(at, image) && k % 2 == 0 && k + 2 <= |image| && i < FLASH_SIZE
    requires PageOf(at + PageStart(k)) == PageStart(at) + PageStart(k)
    ensures WritePage(Filled(flash, at, image, k), at + PageStart(k)).flash[i] ==
            if PageStart(at) <= i < PageStart(at) + PageStart(k) then Cell(image, at, i)
            else if InPage(i, PageStart(at) + PageStart(k)) then
              (if Source(at, i) < k + 2 then image[Source(at, i)] else BLANK)
            else flash[i]
  {
    if InPage(i, PageStart(at) + PageStart(k)) {
      var j := i - (PageStart(at) + PageStart(k));
      SourceInPage(at, k, i);
      FilledBuffer(flash, at, image, k, j);
      BlankIsNeutral(Filled(flash, at, image, k).buffer[j]);
    }
  }

  /** The pages of a block that holds the word at `k`. */
  lemma PagesOfBlock(n: nat, k: nat)
    requires k % 2 == 0 && k + 2 <= n
    ensures PageStart(k) + PAGE_SIZE <= Pages(n)
    ensures k + 2 == n ==> Pages(n) == PageStart(k) + PAGE_SIZE
  {
    PageArithmetic(k);
  }

  /** The last word of the block. */
  lemma LastWordIsWritten(flash: FlashBytes, at: nat, image: seq<byte>, k: nat)
    requires IsBlock(at, image) && k % 2 == 0 && k + 2 == |image|
    ensures WritePage(Filled(flash, at, image, k), at + PageStart(k)) == Copied(flash, at, image)
  {
    var written := WritePage(Filled(flash, at, image, k), at + PageStart(k));
    PagesOfBlock(|image|, k);
    BlockPage(at, PageStart(k));
    forall i | 0 <= i < FLASH_SIZE
      ensures written.flash[i] == Copied(flash, at, image).flash[i]
    {
      WrittenFlash(flash, at, image, k, i);
    }
  }

  /** A flash byte once a full page has been written and the next one erased. */
  lemma NextPageByte(flash: FlashBytes, at: nat, image: seq<byte>, k: nat, i: nat)
    requires IsBlock(at, image) && k % 2 == 0 && k + 2 < |image| && i < FLASH_SIZE
    requires PageStart(k + 2) == k + 2 == PageStart(k) + PAGE_SIZE
    requires PageOf(at + PageStart(k)) == PageStart(at) + PageStart(k)
    ensures (if InPage(i, PageStart(at) + k + 2) then BLANK
             else WritePage(Filled(flash, at, image, k), at + PageStart(k)).flash[i]) ==
            CopyingFlash(flash, at, image, k + 2, i)
  {
    WrittenFlash(flash, at, image, k, i);
    if InPage(i, PageStart(at) + PageStart(k)) {
      SourceInPage(at, k, i);
    }
  }

  /** The last word of a page that is not the last: the page is written and the next one erased. */
  lemma NextPageIsErased(flash: FlashBytes, at: nat, image: seq<byte>, k: nat)
    requires IsBlock(at, image) && k % 2 == 0 && k + 2 < |image| && PageStart(k + 2) == k + 2
    ensures Erase(WritePage(Filled(flash, at, image, k), at + PageStart(k)), at + k + 2) ==
            Copying(flash, at, image, k + 2)
  {
    NextPageStart(at, |image|, k);
    var written := WritePage(Filled(flash, at, image, k), at + PageStart(k));
    forall i | 0 <= i < FLASH_SIZE
      ensures (if InPage(i, PageStart(at) + k + 2) then BLANK else written.flash[i]) ==
              CopyingFlash(flash, at, image, k + 2, i)
    {
      NextPageByte(flash, at, image, k, i);
    }
    ErasedNext(written, flash, at, image, k + 2);
  }

  lemma NextPageStart(at: nat, n: nat, k: nat)
    requires k % 2 == 0 && n % 2 == 0 && k + 2 < n && PageStart(k + 2) == k + 2
    requires PageStart(at) + Pages(n) <= FLASH_SIZE
    ensures k + 2 == PageStart(k) + PAGE_SIZE
    ensures PageOf(at + PageStart(k)) == PageStart(at) + PageStart(k)
    ensures PageOf(at + (k + 2)) == PageStart(at) + (k + 2)
  {
    assert k + 2 == PageStart(k) + PAGE_SIZE by {
      PageArithmetic(k);
    }
    assert PageStart(k + 2) + PAGE_SIZE <= Pages(n) by {
      PagesOfBlock(n, k + 2);
    }
    PageMultiple(k);
    PageMultiple(k + 2);
    BlockPage(at, PageStart(k));
    BlockPage(at, PageStart(k + 2));
  }

  lemma PageMultiple(k: nat)
    ensures PageStart(k) % PAGE_SIZE == 0
  {
  }

  lemma ErasedNext(written: Memory, flash: FlashBytes, at: nat, image: seq<byte>, k: nat)
    requires written.buffer == EmptyBuffer() && k <= |image| && PageStart(k) == k
    requires PageOf(at + k) == PageStart(at) + k
    requires forall i | 0 <= i < FLASH_SIZE ::
      (if InPage(i, PageStart(at) + k) then BLANK else written.flash[i]) == CopyingFlash(flash, at, image, k, i)
    ensures Erase(written, at + k) == Copying(flash, at, image, k)
  {
    var erased := Erase(written, at + k);
    assert erased.flash == Copying(flash, at, image, k).flash;
    assert erased.buffer == Copying(flash, at, image, k).buffer;
  }

  /** Any other word. */
  lemma WordIsBuffered(flash: FlashBytes, at: nat, image: seq<byte>, k: nat)
    requires k % 2 == 0 && k + 2 < |image| && PageStart(k + 2) != k + 2
    ensures Filled(flash, at, image, k) == Copying(flash, at, image, k + 2)
  {
    var filled := Filled(flash, at, image, k);
    PageArithmetic(k);
    forall j | 0 <= j < PAGE_SIZE
      ensures filled.buffer[j] == Copying(flash, at, image, k + 2).buffer[j]
    {
      FilledBuffer(flash, at, image, k, j);
    }
    assert filled.flash == Copying(flash, at, image, k + 2).flash;
  }

  /** The memory along the loop. */
  ghost predicate Along(memory: nat -> Memory, flash: FlashBytes, at: nat, image: seq<byte>) {
    forall k: nat {:trigger memory(k)} :: k <= |image| ==> memory(k) == Copying(flash, at, image, k)
  }

  lemma CopiesWord(memory: nat -> Memory, flash: FlashBytes, at: nat, image: seq<byte>, k: nat)
    requires Along(memory, flash, at, image) && IsBlock(at, image) && k % 2 == 0 && k + 2 <= |image|
    ensures ProgramsWord(BootOps(), memory, Copied(flash, at, image), at, image, k)
  {
    if k + 2 == |image| {
      LastWordIsWritten(flash, at, image, k);
    } else if PageStart(k + 2) == k + 2 {
      NextPageIsErased(flash, at, image, k);
    } else {
      WordIsBuffered(flash, at, image, k);
    }
  }

  lemma EmptyBlock(flash: FlashBytes, at: nat)
    ensures Copying(flash, at, [], 0) == Copied(flash, at, [])
  {
    assert Copying(flash, at, [], 0).flash == Copied(flash, at, []).flash;
    assert Copying(flash, at, [], 0).buffer == Copied(flash, at, []).buffer;
  }

  lemma BlockPrograms(memory: nat -> Memory, final: Memory, flash: FlashBytes, at: nat, image: seq<byte>)
    requires IsBlock(at, image) && final == Copied(flash, at, image)
    requires forall k: nat :: k <= |image| ==> memory(k) == Copying(flash, at, image, k)
    ensures Programs(BootOps(), memory, final, at, image)
  {
    forall k: nat | k % 2 == 0 && k + 2 <= |image| ensures ProgramsWord(BootOps(), memory, final, at, image, k) {
      CopiesWord(memory, flash, at, image, k);
    }
  }

  /** The program loop copies the image into the pages of the block. */
  lemma ProgramIsCopy(flash: FlashBytes, at: nat, image: seq<byte>, e: Endpoint)
    requires IsBlock(at, image) && Delivers(e, image, 0)
    ensures var r := ProgramFlash(BootOps(), Copying(flash, at, image, 0), e, |image| / 2, at, at, 0);
            r.0 == Copied(flash, at, image) && r.1.Some?
  {
    if image == [] {
      EmptyBlock(flash, at);
      return;
    }
    var memory := (k: nat) => if k <= |image| then Copying(flash, at, image, k) else Copied(flash, at, image);
    BlockPrograms(memory, Copied(flash, at, image), flash, at, image);
    ProgramRun(BootOps(), memory, Copied(flash, at, image), at, image, e, 0, |image| / 2, at, 0);
  }

  // ----- What the copy holds

  /** What is found at byte `x` of a block that its page's rotation has moved away. */
  function Displaced(flash: FlashBytes, at: nat, image: seq<byte>, x: nat): byte
    requires x < |image| && at + x < FLASH_SIZE
  {
    if PageStart(x) + PAGE_SIZE >= Pages(|image|) then flash[at + x]
    else if x + PAGE_SIZE < |image| then image[x + PAGE_SIZE] else BLANK
  }

  lemma SourceOfByte(at: nat, x: nat)
    requires at % 2 == 0
    ensures PageStart(at + x - PageStart(at)) ==
            PageStart(x) + if Offset(at) + x % PAGE_SIZE < PAGE_SIZE then 0 else PAGE_SIZE
    ensures Source(at, at + x) == if Offset(at) + x % PAGE_SIZE < PAGE_SIZE then x else x + PAGE_SIZE
  {
    var a, o, q, r := at / PAGE_SIZE, Offset(at), x / PAGE_SIZE, x % PAGE_SIZE;
    EvenOffset(at);
    SourceParts(at, x, a, o, q, r);
  }

  lemma EvenOffset(at: nat)
    requires at % 2 == 0
    ensures Offset(at) == at % PAGE_SIZE
  {
  }

  lemma SourceParts(at: nat, x: nat, a: nat, o: nat, q: nat, r: nat)
    requires at == PAGE_SIZE * a + o && x == PAGE_SIZE * q + r && o < PAGE_SIZE && r < PAGE_SIZE
    requires PageStart(at) == PAGE_SIZE * a && Offset(at) == o
    ensures PageStart(at + x - PageStart(at)) == PAGE_SIZE * q + if o + r < PAGE_SIZE then 0 else PAGE_SIZE
    ensures Source(at, at + x) == PAGE_SIZE * q + r + if o + r < PAGE_SIZE then 0 else PAGE_SIZE
  {
    PageSum(q, o, r);
    RemainderIs(at + x - o, a + q, r);
  }

  lemma PageSum(q: nat, o: nat, r: nat)
    requires o < PAGE_SIZE && r < PAGE_SIZE
    ensures PageStart(PAGE_SIZE * q + r + o) == PAGE_SIZE * q + if o + r < PAGE_SIZE then 0 else PAGE_SIZE
  {
  }

  lemma InPages(n: nat, p: nat)
    requires p < n
    ensures PageStart(p) + PAGE_SIZE <= Pages(n)
  {
  }

  /** Byte `x` of a block at an even address, exactly. */
  lemma CopiedByte(flash: FlashBytes, at: nat, image: seq<byte>, x: nat)
    requires at % 2 == 0 && x < |image| && at + x < FLASH_SIZE
    ensures CopiedFlash(flash, at, image, at + x) ==
            if Offset(at) + x % PAGE_SIZE < PAGE_SIZE then image[x] else Displaced(flash, at, image, x)
  {
    SourceOfByte(at, x);
    InPages(|image|, x);
  }

  // ----- EEPROM blocks

  /** The EEPROM after the bytes of an image have been stored from `start` on, one by one. */
  function Stored(eeprom: Eeprom, start: nat, image: seq<byte>): Eeprom {
    if image == [] then eeprom
    else
      var n := |image| - 1;
      Stored(eeprom, start, image[..n])[EepromCell(start, n) := image[n]]
  }

  /** The last byte of a block of `n` that is stored where byte `i` is. */
  function Latest(i: nat, n: nat): nat
    decreases n - i
  {
    if i + EEPROM_SIZE < n then Latest(i + EEPROM_SIZE, n) else i
  }

  lemma {:induction false} LatestNext(start: nat, i: nat, n: nat)
    requires i < n
    ensures Latest(i, n + 1) == if EepromCell(start, i) == EepromCell(start, n) then n else Latest(i, n)
    ensures i <= Latest(i, n) < n
    decreases n - i
  {
    if i + EEPROM_SIZE < n {
      LatestNext(start, i + EEPROM_SIZE, n);
      SameCell(start + i, start + i + EEPROM_SIZE);
    } else {
      OtherCell(start + i, start + n);
      SameCell(start + i, start + i + EEPROM_SIZE);
    }
  }

  lemma SameCell(a: nat, b: nat)
    requires b == a + EEPROM_SIZE
    ensures a % EEPROM_SIZE == b % EEPROM_SIZE
  {
  }

  lemma OtherCell(a: nat, b: nat)
    requires a < b <= a + EEPROM_SIZE
    ensures a % EEPROM_SIZE == b % EEPROM_SIZE <==> b == a + EEPROM_SIZE
  {
  }

  /** The cell of byte `i` holds the last byte stored there. */
  lemma {:induction false} StoredAt(eeprom: Eeprom, start: nat, image: seq<byte>, i: nat)
    requires i < |image|
    ensures i <= Latest(i, |image|) < |image|
    ensures Stored(eeprom, start, image)[EepromCell(start, i)] == image[Latest(i, |image|)]
    decreases |image|
  {
    var n := |image| - 1;
    if i == n {
    } else {
      StoredAt(eeprom, start, image[..n], i);
      LatestNext(start, i, n);
    }
  }

  /** A cell that no byte of the block is stored in keeps its value. */
  lemma {:induction false} NotStored(eeprom: Eeprom, start: nat, image: seq<byte>, j: nat)
    requires j < EEPROM_SIZE && forall i :: 0 <= i < |image| ==> EepromCell(start, i) != j
    ensures Stored(eeprom, start, image)[j] == eeprom[j]
    decreases |image|
  {
    if image == [] {
    } else {
      NotStored(eeprom, start, image[..|image| - 1], j);
    }
  }

  /** What is stored is what is read back, exactly where no later byte of the block overwrote it. */
  lemma StoredIsRead(eeprom: Eeprom, start: nat, image: seq<byte>)
    ensures EepromBytes(Stored(eeprom, start, image), start, |image|) == image <==>
            forall i :: 0 <= i < |image| ==> image[i] == image[LatestIn(i, image)]
    ensures |image| <= EEPROM_SIZE ==> EepromBytes(Stored(eeprom, start, image), start, |image|) == image
  {
    var back := EepromBytes(Stored(eeprom, start, image), start, |image|);
    forall i | 0 <= i < |image| ensures back[i] == image[LatestIn(i, image)] {
      StoredAt(eeprom, start, image, i);
    }
    if |image| <= EEPROM_SIZE {
      assert forall i :: 0 <= i < |image| ==> LatestIn(i, image) == i;
    }
  }

  function LatestIn(i: nat, image: seq<byte>): nat
    requires i < |image|
    ensures LatestIn(i, image) < |image|
  {
    LatestNext(0, i, |image|);
    Latest(i, |image|)
  }

  lemma NextByte(e: Endpoint)
    requires NonEmpty(e) && Stream(e) != []
    ensures Refilled(e).Some?
    ensures var e' := Refilled(e).value;
            && ByteAt(e', 0) == Stream(e)[0]
            && NonEmpty(Dropped(e', 1)) && Stream(Dropped(e', 1)) == Stream(e)[1..]
  {
    if e.bytes == [] {
      var p := e.later[0];
      assert p in e.later && p != [];
      assert forall q :: q in e.later[1..] ==> q in e.later;
      assert Stream(e) == p + Joined(e.later[1..]);
      assert Stream(e)[1..] == p[1..] + Joined(e.later[1..]);
    } else {
      assert Stream(e)[1..] == e.bytes[1..] + Joined(e.later);
    }
  }

  lemma StoredNext(eeprom: Eeprom, start: nat, image: seq<byte>, k: nat)
    requires k < |image|
    ensures Stored(eeprom, start, image[..k])[EepromCell(start, k) := image[k]] ==
            Stored(eeprom, start, image[..k + 1])
  {
    assert image[..k + 1][..k] == image[..k];
  }

  /** The bootloader when `k` bytes of an EEPROM block have been stored. */
  function Storing(b: Boot, image: seq<byte>, k: nat): Boot
    requires k <= |image|
  {
    b.(eeprom := Stored(b.eeprom, b.start, image[..k]), start := (b.start as int + k) % 65536)
  }

  lemma StoringCell(start: nat, k: nat)
    ensures EepromCell((start + k) % 65536, 0) == EepromCell(start, k)
    ensures ((start + k) % 65536 + 1) % 65536 == (start + k + 1) % 65536
  {
    var q := (start + k) / 65536;
    assert start + k == 65536 * q + (start + k) % 65536;
    MultipleOf((start + k) % 65536, 16 * q);
    if (start + k) % 65536 == 65535 {
      assert start + k + 1 == 65536 * (q + 1);
    } else {
      assert start + k + 1 == 65536 * q + ((start + k) % 65536 + 1);
    }
  }

  lemma MultipleOf(x: nat, q: nat)
    ensures (x + EEPROM_SIZE * q) % EEPROM_SIZE == x % EEPROM_SIZE
  {
  }

  lemma StoringNext(b: Boot, image: seq<byte>, k: nat)
    requires k < |image|
    ensures var c := Storing(b, image, k);
            c.(eeprom := c.eeprom[EepromCell(c.start, 0) := image[k]], start := (c.start as int + 1) % 65536) ==
            Storing(b, image, k + 1)
  {
    StoringCell(b.start, k);
    StoredNext(b.eeprom, b.start, image, k);
  }

  /** The EEPROM write loop stores the image byte by byte. */
  lemma {:induction false} ProgramEepromRun(b: Boot, image: seq<byte>, e: Endpoint, k: nat)
    requires k <= |image| && NonEmpty(e) && image[k..] <= Stream(e)
    ensures var r := ProgramEeprom(Storing(b, image, k), e, |image| - k);
            r.0 == Storing(b, image, |image|) && r.1.Some?
    decreases |image| - k
  {
    if k == |image| {
    } else {
      assert image[k..][0] == image[k] && image[k..][1..] == image[k + 1..];
      NextByte(e);
      EepromTurn(Storing(b, image, k), e, |image| - k);
      StoringNext(b, image, k);
      ProgramEepromRun(b, image, Dropped(Refilled(e).value, 1), k + 1);
    }
  }
}
