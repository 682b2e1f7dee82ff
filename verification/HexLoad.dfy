/**
 Loading an Intel HEX file: the flash after a file of contiguous records, from any even
 address and with any noise in the text.
 */
module HexLoad {
  import opened Bytes
  import opened Flash
  import opened Folds
  import opened HexLoader
  import opened HexRecords

  // ----- Contiguous data records

  /** The lengths of data records that carry the image from `at` on. */
  predicate Splits(image: seq<byte>, at: nat, lengths: seq<nat>)
    decreases lengths
  {
    if lengths == [] then image == []
    else
      && at < 0x10000 && lengths[0] < 256 && lengths[0] % 2 == 0 && lengths[0] <= |image|
      && Splits(image[lengths[0]..], at + lengths[0], lengths[1..])
  }

  /** The data records of a file, from the one that starts at `at` on. */
  function DataRecords(image: seq<byte>, at: nat, lengths: seq<nat>): string
    requires Splits(image, at, lengths)
    decreases lengths
  {
    if lengths == [] then []
    else
      var n := lengths[0];
      Record(at, TYPE_DATA, image[..n]) + DataRecords(image[n..], at + n, lengths[1..])
  }

  lemma {:induction false} SplitsEvenly(image: seq<byte>, at: nat, lengths: seq<nat>)
    requires Splits(image, at, lengths)
    ensures |image| % 2 == 0 && (image != [] ==> at + |image| < 0x10000 + 256)
    decreases lengths
  {
    if lengths == [] {
    } else {
      SplitsEvenly(image[lengths[0]..], at + lengths[0], lengths[1..]);
    }
  }

  /** A dirty page is the page of the next address. */
  predicate IsOpenAt(c: Cursor, at: nat) {
    c.dirty ==> c.page == PageStart(at)
  }

  lemma {:induction false} PutsIsOpen(c: Cursor, at: nat, data: seq<byte>)
    requires |data| % 2 == 0 && IsOpenAt(c, at)
    ensures IsOpenAt(Puts(c, at, data), at + |data|)
    decreases |data|
  {
    if data == [] {
    } else {
      PutsIsOpen(Put(c, at, data[0], data[1]), at + 2, data[2..]);
    }
  }

  ghost predicate PutsRecord(step: (Parser, char) -> Parser, p: Parser, at: word, data: seq<byte>)
    requires |data| < 256
  {
    var q := Fold(step, p, Record(at, TYPE_DATA, data));
    CursorOf(q) == Puts(CursorOf(p), at, data) && q.base == 0 && q.running == p.running
  }

  lemma RecordIsPut(p: Parser, at: word, data: seq<byte>)
    requires p.base == 0 && |data| < 256 && |data| % 2 == 0 && IsOpenAt(CursorOf(p), at)
    ensures PutsRecord(Step, p, at, data)
  {
    DataRecordIsPut(p, at, data);
    PutsIsOpen(CursorOf(p), at, data);
  }

  ghost predicate PutsRecords(step: (Parser, char) -> Parser) {
    forall p: Parser, at: word, data: seq<byte> {:trigger PutsRecord(step, p, at, data)} ::
      p.base == 0 && |data| < 256 && |data| % 2 == 0 && IsOpenAt(CursorOf(p), at) ==> PutsRecord(step, p, at, data)
  }

  lemma StepPutsRecords()
    ensures PutsRecords(Step)
  {
    forall p: Parser, at: word, data: seq<byte> |
      p.base == 0 && |data| < 256 && |data| % 2 == 0 && IsOpenAt(CursorOf(p), at)
      ensures PutsRecord(Step, p, at, data)
    {
      RecordIsPut(p, at, data);
    }
  }

  lemma FirstRecordIsPut(step: (Parser, char) -> Parser, p: Parser, image: seq<byte>, at: nat, lengths: seq<nat>)
    returns (q: Parser)
    requires Splits(image, at, lengths) && lengths != []
    requires PutsRecords(step) && p.base == 0 && IsOpenAt(CursorOf(p), at)
    ensures var n := lengths[0];
            && CursorOf(q) == Puts(CursorOf(p), at, image[..n]) && q.base == 0 && q.running == p.running
            && Fold(step, p, DataRecords(image, at, lengths)) ==
               Fold(step, q, DataRecords(image[n..], at + n, lengths[1..]))
  {
    var n := lengths[0];
    q := Fold(step, p, Record(at, TYPE_DATA, image[..n]));
    assert PutsRecord(step, p, at, image[..n]);
    FoldConcat(step, p, Record(at, TYPE_DATA, image[..n]), DataRecords(image[n..], at + n, lengths[1..]));
  }

  lemma PutsSplit(c: Cursor, at: nat, image: seq<byte>, n: nat)
    requires n <= |image| && n % 2 == 0
    ensures Puts(c, at, image) == Puts(Puts(c, at, image[..n]), at + n, image[n..])
  {
    assert image[..n] + image[n..] == image;
    PutsConcat(c, at, image[..n], image[n..]);
  }

  /** The records of a file program the image word by word, however it is split. */
  lemma {:induction false} DataRecordsArePut(
    step: (Parser, char) -> Parser, p: Parser, image: seq<byte>, at: nat, lengths: seq<nat>)
    requires PutsRecords(step) && p.base == 0 && Splits(image, at, lengths) && IsOpenAt(CursorOf(p), at)
    ensures var q := Fold(step, p, DataRecords(image, at, lengths));
            CursorOf(q) == Puts(CursorOf(p), at, image) && q.base == 0 && q.running == p.running
    decreases lengths
  {
    if lengths == [] {
    } else {
      var n := lengths[0];
      var q := FirstRecordIsPut(step, p, image, at, lengths);
      PutsIsOpen(CursorOf(p), at, image[..n]);
      DataRecordsArePut(step, q, image[n..], at + n, lengths[1..]);
      PutsSplit(CursorOf(p), at, image, n);
    }
  }

  // ----- The memory while an image is being loaded

  /**
   A flash byte when `n` bytes of an image at `at` have been taken, from an open page that is the image's
   own: whole pages programmed, the page being filled blank, the rest as before.
   */
  function LoadingFlash(flash: FlashBytes, at: nat, image: seq<byte>, n: nat, i: nat): byte
    requires n <= |image| && i < FLASH_SIZE
  {
    if n == 0 then flash[i]
    else if PageStart(at) <= i < PageStart(at + n) then (if at <= i < at + n then image[i - at] else BLANK)
    else if InPage(i, PageStart(at + n)) && PageStart(at + n) != at + n then BLANK
    else flash[i]
  }

  /** A buffer byte: the part of the current page read so far. */
  function LoadingBuffer(at: nat, image: seq<byte>, n: nat, j: nat): byte
    requires n <= |image|
  {
    var i := PageStart(at + n) + j;
    if at <= i < at + n then image[i - at] else BLANK
  }

  function Loading(flash: FlashBytes, at: nat, image: seq<byte>, n: nat): Cursor
    requires n <= |image|
  {
    Cursor(
      Memory(
        seq<byte>(FLASH_SIZE, i requires 0 <= i < FLASH_SIZE => LoadingFlash(flash, at, image, n, i)),
        seq<byte>(PAGE_SIZE, j requires 0 <= j < PAGE_SIZE => LoadingBuffer(at, image, n, j))),
      PageStart(at + n), n > 0 && PageStart(at + n) != at + n)
  }

  /** The memory with the next word in the buffer of its erased page. */
  function WithWord(flash: FlashBytes, at: nat, image: seq<byte>, n: nat): Memory
    requires n + 2 <= |image|
  {
    var c := Loading(flash, at, image, n);
    Fill(if c.dirty then c.memory else Erase(c.memory, c.page), at + n, image[n], image[n + 1])
  }

  /** Even addresses in the flash. */
  predicate IsPlace(at: nat, image: seq<byte>) {
    at % 2 == 0 && |image| % 2 == 0 && at + |image| < FLASH_SIZE
  }

  lemma WithWordFlash(flash: FlashBytes, at: nat, image: seq<byte>, n: nat, i: nat)
    requires IsPlace(at, image) && n % 2 == 0 && n + 2 <= |image| && i < FLASH_SIZE
    ensures WithWord(flash, at, image, n).flash[i] ==
            if PageStart(at) <= i < PageStart(at + n) then (if at <= i < at + n then image[i - at] else BLANK)
            else if InPage(i, PageStart(at + n)) then BLANK
            else flash[i]
  {
    PageArithmetic(at + n);
  }

  lemma WithWordBuffer(flash: FlashBytes, at: nat, image: seq<byte>, n: nat, j: nat)
    requires IsPlace(at, image) && n % 2 == 0 && n + 2 <= |image| && j < PAGE_SIZE
    ensures var i := PageStart(at + n) + j;
            WithWord(flash, at, image, n).buffer[j] == if at <= i < at + n + 2 then image[i - at] else BLANK
  {
    PageArithmetic(at + n);
  }

  lemma WrittenFlash(flash: FlashBytes, at: nat, image: seq<byte>, n: nat, i: nat)
    requires IsPlace(at, image) && n % 2 == 0 && n + 2 <= |image| && i < FLASH_SIZE
    ensures WritePage(WithWord(flash, at, image, n), PageStart(at + n)).flash[i] ==
            if PageStart(at) <= i < PageStart(at + n) then (if at <= i < at + n then image[i - at] else BLANK)
            else if InPage(i, PageStart(at + n)) then (if at <= i < at + n + 2 then image[i - at] else BLANK)
            else flash[i]
  {
    var m, page := WithWord(flash, at, image, n), PageStart(at + n);
    PageIsItsOwn(at + n);
    WithWordFlash(flash, at, image, n, i);
    if InPage(i, page) {
      WithWordBuffer(flash, at, image, n, i - page);
    }
    WrittenByte(m, page, i);
  }

  lemma PageIsItsOwn(k: nat)
    requires k < FLASH_SIZE
    ensures PageOf(PageStart(k)) == PageStart(k)
  {
  }

  lemma PageByte(flash: FlashBytes, at: nat, image: seq<byte>, n: nat, page: nat, i: nat)
    requires IsPlace(at, image) && n % 2 == 0 && n + 2 <= |image| && i < FLASH_SIZE
    requires page == PageStart(at + n) && PageStart(at + n + 2) == at + n + 2 == page + PAGE_SIZE
    ensures WritePage(WithWord(flash, at, image, n), page).flash[i] == LoadingFlash(flash, at, image, n + 2, i)
  {
    WrittenFlash(flash, at, image, n, i);
    StartsBefore(at, n);
  }

  /** A word that completes its page. */
  lemma PageIsLoaded(flash: FlashBytes, at: nat, image: seq<byte>, n: nat, page: nat)
    requires IsPlace(at, image) && n % 2 == 0 && n + 2 <= |image|
    requires page == PageStart(at + n) && PageStart(at + n + 2) == at + n + 2 == page + PAGE_SIZE
    ensures WritePage(WithWord(flash, at, image, n), page) == Loading(flash, at, image, n + 2).memory
  {
    var written, m := WritePage(WithWord(flash, at, image, n), page), Loading(flash, at, image, n + 2).memory;
    forall i | 0 <= i < FLASH_SIZE
      ensures written.flash[i] == m.flash[i]
    {
      PageByte(flash, at, image, n, page, i);
    }
    assert written.buffer == m.buffer;
  }

  lemma WordByte(flash: FlashBytes, at: nat, image: seq<byte>, n: nat, page: nat, i: nat)
    requires IsPlace(at, image) && n % 2 == 0 && n + 2 <= |image| && i < FLASH_SIZE
    requires page == PageStart(at + n) == PageStart(at + n + 2) != at + n + 2
    ensures WithWord(flash, at, image, n).flash[i] == LoadingFlash(flash, at, image, n + 2, i)
  {
    WithWordFlash(flash, at, image, n, i);
    StartsBefore(at, n);
    assert page <= at + n by {
      PageArithmetic(at + n);
    }
  }

  lemma WordBuffer(flash: FlashBytes, at: nat, image: seq<byte>, n: nat, j: nat)
    requires IsPlace(at, image) && n % 2 == 0 && n + 2 <= |image| && j < PAGE_SIZE
    requires PageStart(at + n) == PageStart(at + n + 2)
    ensures WithWord(flash, at, image, n).buffer[j] == LoadingBuffer(at, image, n + 2, j)
  {
    WithWordBuffer(flash, at, image, n, j);
  }

  /** Any other word. */
  lemma WordIsLoaded(flash: FlashBytes, at: nat, image: seq<byte>, n: nat)
    requires IsPlace(at, image) && n % 2 == 0 && n + 2 <= |image|
    requires PageStart(at + n) == PageStart(at + n + 2) != at + n + 2
    ensures WithWord(flash, at, image, n) == Loading(flash, at, image, n + 2).memory
  {
    var filled, m := WithWord(flash, at, image, n), Loading(flash, at, image, n + 2).memory;
    forall i | 0 <= i < FLASH_SIZE
      ensures filled.flash[i] == m.flash[i]
    {
      WordByte(flash, at, image, n, PageStart(at + n), i);
    }
    forall j | 0 <= j < PAGE_SIZE
      ensures filled.buffer[j] == m.buffer[j]
    {
      WordBuffer(flash, at, image, n, j);
    }
  }

  lemma LoadingNext(flash: FlashBytes, at: nat, image: seq<byte>, n: nat)
    requires IsPlace(at, image) && n % 2 == 0 && n + 2 <= |image|
    ensures Put(Loading(flash, at, image, n), at + n, image[n], image[n + 1]) == Loading(flash, at, image, n + 2)
  {
    PageArithmetic(at + n);
    if PageStart(at + n + 2) == at + n + 2 {
      PageIsLoaded(flash, at, image, n, PageStart(at + n));
    } else {
      WordIsLoaded(flash, at, image, n);
    }
  }

  lemma PutsNext(c: Cursor, next: Cursor, at: nat, image: seq<byte>, n: nat)
    requires n + 2 <= |image| && next == Put(c, at + n, image[n], image[n + 1])
    ensures Puts(c, at + n, image[n..]) == Puts(next, at + n + 2, image[n + 2..])
  {
    assert image[n..][2..] == image[n + 2..];
  }

  lemma LoadingPuts(flash: FlashBytes, at: nat, image: seq<byte>, n: nat)
    requires IsPlace(at, image) && n % 2 == 0 && n + 2 <= |image|
    ensures Puts(Loading(flash, at, image, n), at + n, image[n..]) ==
            Puts(Loading(flash, at, image, n + 2), at + n + 2, image[n + 2..])
  {
    LoadingNext(flash, at, image, n);
    PutsNext(Loading(flash, at, image, n), Loading(flash, at, image, n + 2), at, image, n);
  }

  /** Putting the rest of the image from `n` and from `n + 2` on comes to the same. */
  ghost predicate PutsOn(loading: nat -> Cursor, at: nat, image: seq<byte>, n: nat) {
    n + 2 <= |image| ==>
      Puts(loading(n), at + n, image[n..]) == Puts(loading(n + 2), at + n + 2, image[n + 2..])
  }

  lemma {:induction false} PutsAlong(loading: nat -> Cursor, at: nat, image: seq<byte>, n: nat)
    requires n % 2 == 0 && |image| % 2 == 0 && n <= |image|
    requires forall k: nat :: k % 2 == 0 ==> PutsOn(loading, at, image, k)
    ensures Puts(loading(n), at + n, image[n..]) == loading(|image|)
    decreases |image| - n
  {
    if n == |image| {
    } else {
      assert PutsOn(loading, at, image, n);
      PutsAlong(loading, at, image, n + 2);
    }
  }

  function LoadingAlong(flash: FlashBytes, at: nat, image: seq<byte>): nat -> Cursor {
    (n: nat) => Loading(flash, at, image, if n <= |image| then n else 0)
  }

  lemma LoadingPutsOn(flash: FlashBytes, at: nat, image: seq<byte>, n: nat)
    requires IsPlace(at, image) && n % 2 == 0
    ensures PutsOn(LoadingAlong(flash, at, image), at, image, n)
  {
    if n + 2 <= |image| {
      LoadingPuts(flash, at, image, n);
    }
  }

  /** All the words of an image, from an open page that is its own. */
  lemma PutsIsLoading(flash: FlashBytes, at: nat, image: seq<byte>)
    requires IsPlace(at, image)
    ensures Puts(Loading(flash, at, image, 0), at, image) == Loading(flash, at, image, |image|)
  {
    forall n: nat | n % 2 == 0 ensures PutsOn(LoadingAlong(flash, at, image), at, image, n) {
      LoadingPutsOn(flash, at, image, n);
    }
    PutsAlong(LoadingAlong(flash, at, image), at, image, 0);
    assert image[0..] == image;
  }

  /** An empty buffer in front of a clean page is where a load starts. */
  lemma LoadingStart(c: Cursor, at: nat, image: seq<byte>)
    requires c.memory.buffer == EmptyBuffer() && !c.dirty && c.page == PageStart(at)
    ensures c == Loading(c.memory.flash, at, image, 0)
  {
    var l := Loading(c.memory.flash, at, image, 0);
    assert c.memory.flash == l.memory.flash;
    assert c.memory.buffer == l.memory.buffer;
  }

  // ----- The end of a file

  /** The end-of-file record, in any state of the parser, ends the bootloader; the current page is written
      exactly when the record's own address, the base address, is in another page. */
  lemma EndRecordExits(p: Parser)
    requires p.base < TWO_32
    ensures var q := Run(p, Record(0, TYPE_END_OF_FILE, []));
            && !q.running
            && q.memory == if p.dirty && p.pageStart != PageStart(p.base) then WritePage(p.memory, p.pageStart)
                           else p.memory
  {
    var p1 := AfterHeader(p, 0, TYPE_END_OF_FILE, 0);
    var check := Check(0, TYPE_END_OF_FILE, []);
    CheckMatches(0, TYPE_END_OF_FILE, [], p1.checksum);
    RecordIsTaken(p, p1, 0, TYPE_END_OF_FILE, [], check);
    EndIsAccepted(p1, check);
  }

  lemma EndIsAccepted(p: Parser, check: byte)
    requires p.state == Checksum && check == Low8(-(p.checksum as int)) && p.recordType == TYPE_END_OF_FILE
    ensures !Take(p, check).running
    ensures Take(p, check).memory ==
            if p.dirty && p.pageStart != PageStart(p.address) then WritePage(p.memory, p.pageStart) else p.memory
  {
  }

  /** What a load should leave: the image, the rest of its pages blank, all other pages untouched. */
  function Placed(flash: FlashBytes, at: nat, image: seq<byte>, i: nat): byte
    requires i < FLASH_SIZE
  {
    if image == [] then flash[i]
    else if at <= i < at + |image| then image[i - at]
    else if PageStart(at) <= i < PageStart(at + |image| + PAGE_SIZE - 1) then BLANK
    else flash[i]
  }

  function PlacedFlash(flash: FlashBytes, at: nat, image: seq<byte>): FlashBytes {
    seq<byte>(FLASH_SIZE, i requires 0 <= i < FLASH_SIZE => Placed(flash, at, image, i))
  }

  /** The memory at the end of a file: the end record writes a partial last page unless it is page 0. */
  function Ended(c: Cursor): Memory {
    if c.dirty && c.page != 0 then WritePage(c.memory, c.page) else c.memory
  }

  lemma PartialPage(n: nat)
    ensures PageStart(n + PAGE_SIZE - 1) == if PageStart(n) == n then n else PageStart(n) + PAGE_SIZE
  {
  }

  lemma LastPageIsWritten(flash: FlashBytes, at: nat, image: seq<byte>, i: nat)
    requires IsPlace(at, image) && image != [] && i < FLASH_SIZE && PageStart(at + |image|) != at + |image|
    ensures WritePage(Loading(flash, at, image, |image|).memory, PageStart(at + |image|)).flash[i] ==
            Placed(flash, at, image, i)
  {
    var end := at + |image|;
    PageArithmetic(end);
    PartialPage(end);
    PageIsItsOwn(end);
    LastPageByte(flash, at, image, PageStart(end), i);
  }

  lemma LastPageByte(flash: FlashBytes, at: nat, image: seq<byte>, page: nat, i: nat)
    requires image != [] && i < FLASH_SIZE
    requires page == PageStart(at + |image|) < at + |image| < page + PAGE_SIZE && PageOf(page) == page
    requires PageStart(at + |image| + PAGE_SIZE - 1) == page + PAGE_SIZE
    ensures WritePage(Loading(flash, at, image, |image|).memory, page).flash[i] == Placed(flash, at, image, i)
  {
    WrittenByte(Loading(flash, at, image, |image|).memory, page, i);
    StartsBefore(at, |image|);
  }

  lemma StartsBefore(at: nat, n: nat)
    ensures PageStart(at) <= at && PageStart(at) <= PageStart(at + n)
  {
  }

  /** The flash at the end of a file whose open page was the image's own. */
  lemma EndedFlash(flash: FlashBytes, at: nat, image: seq<byte>, i: nat)
    requires IsPlace(at, image) && i < FLASH_SIZE
    ensures Ended(Loading(flash, at, image, |image|)).flash[i] ==
            if image != [] && at + |image| < PAGE_SIZE && i < PAGE_SIZE then BLANK else Placed(flash, at, image, i)
  {
    var end := at + |image|;
    PageArithmetic(end);
    PartialPage(end);
    if image != [] && PageStart(end) != end && end >= PAGE_SIZE {
      LastPageIsWritten(flash, at, image, i);
    }
  }

  /** The parser as the bootloader starts it. */
  predicate Initial(p: Parser) {
    p.state == WaitLine && p.base == 0 && p.pageStart == 0 && !p.dirty && p.running && p.memory.buffer == EmptyBuffer()
  }

  function File(image: seq<byte>, at: nat, lengths: seq<nat>): string
    requires Splits(image, at, lengths)
  {
    DataRecords(image, at, lengths) + Record(0, TYPE_END_OF_FILE, [])
  }

  /** A whole file: the words of its image, then the end. */
  lemma FileIsPut(p: Parser, image: seq<byte>, at: nat, lengths: seq<nat>)
    requires Initial(p) && Splits(image, at, lengths)
    ensures var q := Run(p, File(image, at, lengths));
            !q.running && q.memory == Ended(Puts(CursorOf(p), at, image))
  {
    var q := Run(p, DataRecords(image, at, lengths));
    StepPutsRecords();
    DataRecordsArePut(Step, p, image, at, lengths);
    FoldConcat(Step, p, DataRecords(image, at, lengths), Record(0, TYPE_END_OF_FILE, []));
    EndRecordExits(q);
  }

  /** The characters between the significant ones make no difference. */
  lemma NoisyFile(p: Parser, file: string, text: string)
    requires Significant(text) == file
    ensures Run(p, text).running == Run(p, file).running && Run(p, text).memory == Run(p, file).memory
  {
    NoiseIsIgnored(p, p, text);
  }

  // ----- Images that start in the first page

  lemma SameFlash(a: FlashBytes, flash: FlashBytes, at: nat, image: seq<byte>)
    requires IsPlace(at, image) && at < PAGE_SIZE
    requires forall i | 0 <= i < FLASH_SIZE ::
      a[i] == if image != [] && at + |image| < PAGE_SIZE && i < PAGE_SIZE then BLANK else Placed(flash, at, image, i)
    ensures a == PlacedFlash(flash, at, image) <==>
            (at + |image| >= PAGE_SIZE || forall j :: 0 <= j < |image| ==> image[j] == BLANK)
  {
    var wanted := PlacedFlash(flash, at, image);
    if at + |image| >= PAGE_SIZE || image == [] {
      assert a == wanted;
    } else if j :| 0 <= j < |image| && image[j] != BLANK {
      assert a[at + j] == BLANK && wanted[at + j] == image[j];
    } else {
      FirstPage(at + |image|);
      forall i | 0 <= i < FLASH_SIZE ensures a[i] == wanted[i] {
      }
      assert a == wanted;
    }
  }

  lemma FirstPage(end: nat)
    requires 0 < end < PAGE_SIZE
    ensures PageStart(end + PAGE_SIZE - 1) == PAGE_SIZE && PageStart(end) == 0
  {
  }

  /**
   Loading a HEX file whose image starts in the first page, with any noise in its text: the bootloader ends,
   and flash holds the image if and only if the image reaches the end of that page or is blank; a shorter one
   is erased but never written.
   */
  lemma LoadIsCopy(p: Parser, image: seq<byte>, at: nat, lengths: seq<nat>, text: string)
    requires Initial(p) && Splits(image, at, lengths) && at % 2 == 0 && at < PAGE_SIZE
    requires Significant(text) == File(image, at, lengths)
    ensures !Run(p, text).running
    ensures Run(p, text).memory.flash == PlacedFlash(p.memory.flash, at, image) <==>
            (at + |image| >= PAGE_SIZE || forall j :: 0 <= j < |image| ==> image[j] == BLANK)
  {
    var flash := p.memory.flash;
    SplitsEvenly(image, at, lengths);
    NoisyFile(p, File(image, at, lengths), text);
    FileIsPut(p, image, at, lengths);
    LoadingStart(CursorOf(p), at, image);
    PutsIsLoading(flash, at, image);
    forall i | 0 <= i < FLASH_SIZE
      ensures Run(p, text).memory.flash[i] ==
              if image != [] && at + |image| < PAGE_SIZE && i < PAGE_SIZE then BLANK else Placed(flash, at, image, i)
    {
      EndedFlash(flash, at, image, i);
    }
    SameFlash(Run(p, text).memory.flash, flash, at, image);
  }

  // ----- Images that start elsewhere

  /** Page 0 with the first word of an image in it, at the word's own offset. */
  function Misplaced(flash: FlashBytes, at: nat, low: byte, high: byte): FlashBytes {
    var offset := at % PAGE_SIZE;
    seq<byte>(FLASH_SIZE, i requires 0 <= i < FLASH_SIZE =>
      if i >= PAGE_SIZE then flash[i] else if i == offset then low else if i == offset + 1 then high else BLANK)
  }

  /** The first word finds page 0 open: it is written there and its own page is opened only then. */
  lemma FirstWordIsMisplaced(c: Cursor, at: nat, image: seq<byte>)
    requires c.page == 0 && !c.dirty && c.memory.buffer == EmptyBuffer()
    requires at % 2 == 0 && PAGE_SIZE <= at < FLASH_SIZE && |image| >= 2
    ensures Put(c, at, image[0], image[1]) ==
            Loading(Misplaced(c.memory.flash, at, image[0], image[1]), at + 2, image[2..], 0)
  {
    var m := Fill(Erase(c.memory, 0), at, image[0], image[1]);
    var first := Put(c, at, image[0], image[1]);
    LaterPage(at + 2);
    forall i | 0 <= i < FLASH_SIZE
      ensures first.memory.flash[i] == Misplaced(c.memory.flash, at, image[0], image[1])[i]
    {
      MisplacedByte(c, at, image[0], image[1], i);
    }
    assert first.memory.flash == Misplaced(c.memory.flash, at, image[0], image[1]);
    LoadingStart(first, at + 2, image[2..]);
  }

  lemma LaterPage(k: nat)
    requires k >= PAGE_SIZE
    ensures PageStart(k) != 0
  {
  }

  lemma MisplacedByte(c: Cursor, at: nat, low: byte, high: byte, i: nat)
    requires !c.dirty && c.memory.buffer == EmptyBuffer() && at % 2 == 0 && i < FLASH_SIZE
    ensures WritePage(Fill(Erase(c.memory, 0), at, low, high), 0).flash[i] ==
            Misplaced(c.memory.flash, at, low, high)[i]
  {
    assert at % PAGE_SIZE / 2 * 2 == at % PAGE_SIZE;
    WrittenByte(Fill(Erase(c.memory, 0), at, low, high), 0, i);
  }

  lemma PutsElsewhere(c: Cursor, at: nat, image: seq<byte>)
    requires c.page == 0 && !c.dirty && c.memory.buffer == EmptyBuffer()
    requires IsPlace(at, image) && PAGE_SIZE <= at && |image| >= 2
    ensures Puts(c, at, image) ==
            Loading(Misplaced(c.memory.flash, at, image[0], image[1]), at + 2, image[2..], |image[2..]|)
  {
    FirstWordIsMisplaced(c, at, image);
    PutsIsLoading(Misplaced(c.memory.flash, at, image[0], image[1]), at + 2, image[2..]);
  }

  lemma FileElsewhere(p: Parser, image: seq<byte>, at: nat, lengths: seq<nat>)
    requires Initial(p) && Splits(image, at, lengths) && IsPlace(at, image) && PAGE_SIZE <= at && |image| >= 2
    ensures var q := Run(p, File(image, at, lengths));
            var flash := Misplaced(p.memory.flash, at, image[0], image[1]);
            !q.running && q.memory == Ended(Loading(flash, at + 2, image[2..], |image[2..]|))
  {
    FileIsPut(p, image, at, lengths);
    PutsElsewhere(CursorOf(p), at, image);
  }

  lemma EndedElsewhere(m: Memory, flash: FlashBytes, at: nat, image: seq<byte>)
    requires IsPlace(at, image) && PAGE_SIZE <= at && m == Ended(Loading(flash, at, image, |image|))
    ensures m.flash == PlacedFlash(flash, at, image)
  {
    forall i | 0 <= i < FLASH_SIZE
      ensures m.flash[i] == Placed(flash, at, image, i)
    {
      EndedFlash(flash, at, image, i);
    }
  }

  lemma RestIsPlace(at: nat, image: seq<byte>)
    requires IsPlace(at, image) && |image| >= 2
    ensures IsPlace(at + 2, image[2..])
  {
  }

  lemma FlashElsewhere(p: Parser, image: seq<byte>, at: nat, lengths: seq<nat>)
    requires Initial(p) && Splits(image, at, lengths) && IsPlace(at, image) && PAGE_SIZE <= at && |image| >= 2
    ensures var q := Run(p, File(image, at, lengths));
            && !q.running
            && q.memory.flash == PlacedFlash(Misplaced(p.memory.flash, at, image[0], image[1]), at + 2, image[2..])
  {
    RestIsPlace(at, image);
    FileElsewhere(p, image, at, lengths);
    var flash := Misplaced(p.memory.flash, at, image[0], image[1]);
    EndedElsewhere(Run(p, File(image, at, lengths)).memory, flash, at + 2, image[2..]);
  }

  /**
   Loading a HEX file whose image starts after the first page, with any noise: the bootloader ends, but the
   first word has gone to page 0, whose contents are lost, and only the rest of the image is in its place.
   */
  lemma LoadElsewhere(p: Parser, image: seq<byte>, at: nat, lengths: seq<nat>, text: string)
    requires Initial(p) && Splits(image, at, lengths) && at % 2 == 0 && at >= PAGE_SIZE && image != []
    requires Significant(text) == File(image, at, lengths)
    ensures !Run(p, text).running && |image| >= 2
    ensures Run(p, text).memory.flash ==
            PlacedFlash(Misplaced(p.memory.flash, at, image[0], image[1]), at + 2, image[2..])
  {
    SplitsEvenly(image, at, lengths);
    NoisyFile(p, File(image, at, lengths), text);
    FlashElsewhere(p, image, at, lengths);
  }
}
