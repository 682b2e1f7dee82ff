/**
 Words programmed at any addresses in any order, through the one page that the HEX loader
 keeps open: what they should leave in flash, and exactly when they do so whatever they are.
 */
module HexMoves {
  import opened Bytes
  import opened Flash
  import opened Folds
  import opened HexRecords

  /** A word is programmed, or a record that ends at an address has the page left if it is elsewhere. */
  datatype Move = Word(address: nat, low: byte, high: byte) | Visit(address: nat)

  function Act(c: Cursor, m: Move): Cursor {
    match m
    case Word(address, low, high) => Put(c, address, low, high)
    case Visit(address) => Moved(c, address)
  }

  /** Whole words below the bootloader; pages are opened up to its start. */
  predicate IsMove(m: Move) {
    match m
    case Word(address, _, _) => address % 2 == 0 && address + 2 <= BOOT_START
    case Visit(address) => address <= BOOT_START
  }

  ghost predicate AreMoves(ms: seq<Move>) {
    forall k :: 0 <= k < |ms| ==> IsMove(ms[k])
  }

  // ----- What the words should leave

  /** The byte that the last word for an address gives it. */
  function Given(ms: seq<Move>, i: nat): Option<byte> {
    if ms == [] then None
    else
      var m := ms[|ms| - 1];
      if m.Word? && m.address == i then Some(m.low)
      else if m.Word? && m.address + 1 == i then Some(m.high)
      else Given(ms[..|ms| - 1], i)
  }

  function GivenOr(ms: seq<Move>, i: nat, otherwise: byte): byte {
    match Given(ms, i)
    case Some(b) => b
    case None => otherwise
  }

  /** Some word belongs to the page. */
  predicate Touches(ms: seq<Move>, page: nat) {
    ms != [] &&
    ((ms[|ms| - 1].Word? && PageStart(ms[|ms| - 1].address) == page) || Touches(ms[..|ms| - 1], page))
  }

  /** The words in their places, the rest of their pages blank, all other pages untouched. */
  function Wanted(flash: FlashBytes, ms: seq<Move>, i: nat): byte
    requires i < FLASH_SIZE
  {
    GivenOr(ms, i, if Touches(ms, PageStart(i)) then BLANK else flash[i])
  }

  // ----- The open page, from the addresses alone

  datatype Open = Open(page: nat, dirty: bool)

  function Control(o: Open, m: Move): Open {
    match m
    case Word(address, _, _) => Open(PageStart(address + 2), o.page == PageStart(address + 2))
    case Visit(address) => if o.dirty && o.page != PageStart(address) then Open(PageStart(address), false) else o
  }

  function Opened(ms: seq<Move>): Open {
    if ms == [] then Open(0, false) else Control(Opened(ms[..|ms| - 1]), ms[|ms| - 1])
  }

  /** A loader that starts: page 0 is open, clean, and the buffer is empty. */
  predicate Starts(c: Cursor) {
    c.page == 0 && !c.dirty && c.memory.buffer == EmptyBuffer()
  }

  function OpenOf(c: Cursor): Open {
    Open(c.page, c.dirty)
  }

  /** The buffer of a clean page is empty. */
  predicate Tidy(c: Cursor) {
    !c.dirty ==> c.memory.buffer == EmptyBuffer()
  }

  lemma ActIsControl(c: Cursor, m: Move)
    requires Tidy(c)
    ensures OpenOf(Act(c, m)) == Control(OpenOf(c), m) && Tidy(Act(c, m))
  {
  }

  lemma {:induction false} OpenIsOpened(c: Cursor, ms: seq<Move>)
    requires Starts(c)
    ensures OpenOf(Fold(Act, c, ms)) == Opened(ms) && Tidy(Fold(Act, c, ms))
    decreases |ms|
  {
    if ms == [] {
    } else {
      var before, m := ms[..|ms| - 1], ms[|ms| - 1];
      assert before + [m] == ms;
      OpenIsOpened(c, before);
      FoldNext(Act, c, before, m);
      ActIsControl(Fold(Act, c, before), m);
    }
  }

  lemma {:induction false} OpenIsPage(ms: seq<Move>)
    requires AreMoves(ms)
    ensures IsPage(Opened(ms).page)
    decreases |ms|
  {
    if ms == [] {
    } else {
      OpenIsPage(ms[..|ms| - 1]);
      var m := ms[|ms| - 1];
      PageStartIsPage(if m.Word? then m.address + 2 else m.address);
    }
  }

  /** A page of the application, or the bootloader's first. */
  predicate IsPage(page: nat) {
    PageOf(page) == page && PageStart(page) == page && page <= BOOT_START
  }

  lemma PageStartIsPage(k: nat)
    requires k <= BOOT_START
    ensures IsPage(PageStart(k))
  {
  }

  // ----- Words in place are loaded

  /** Word `n` finds its own page open, and if that is clean, no earlier word in it. */
  predicate InPlace(ms: seq<Move>, n: nat)
    requires n < |ms|
  {
    ms[n].Word? ==>
      var o := Opened(ms[..n]);
      PageStart(ms[n].address) == o.page && (o.dirty || !Touches(ms[..n], o.page))
  }

  ghost predicate AllInPlace(ms: seq<Move>) {
    forall n: nat :: n < |ms| ==> InPlace(ms, n)
  }

  /** Flash byte `i` along the way: the open page, if dirty, is blank and its words are in the buffer. */
  ghost predicate LoadedAt(c: Cursor, flash: FlashBytes, ms: seq<Move>, i: nat)
    requires i < FLASH_SIZE
  {
    if c.dirty && InPage(i, c.page) then
      c.memory.flash[i] == BLANK && c.memory.buffer[i - c.page] == GivenOr(ms, i, BLANK)
    else c.memory.flash[i] == Wanted(flash, ms, i)
  }

  /** The open page with a word in its buffer. */
  function FilledIn(c: Cursor, address: nat, low: byte, high: byte): Cursor {
    Cursor(Fill(if c.dirty then c.memory else Erase(c.memory, c.page), address, low, high), c.page, true)
  }

  lemma PageOfByte(i: nat, page: nat)
    requires PageStart(page) == page
    ensures InPage(i, page) <==> PageStart(i) == page
  {
  }

  lemma {:induction false} GivenTouches(ms: seq<Move>, i: nat)
    requires AreMoves(ms) && Given(ms, i).Some?
    ensures Touches(ms, PageStart(i))
    decreases |ms|
  {
    var m := ms[|ms| - 1];
    if m.Word? && (m.address == i || m.address + 1 == i) {
      assert PageStart(m.address) == PageStart(i);
    } else {
      GivenTouches(ms[..|ms| - 1], i);
    }
  }

  /** The buffer cells that a word of the open page takes. */
  lemma FilledByte(c: Cursor, address: nat, low: byte, high: byte, j: nat)
    requires address % 2 == 0 && IsPage(c.page) && InPage(address, c.page) && j < PAGE_SIZE
    ensures FilledIn(c, address, low, high).memory.buffer[j] ==
            if c.page + j == address then low else if c.page + j == address + 1 then high else c.memory.buffer[j]
  {
    CellOf(address, c.page);
  }

  lemma CellOf(address: nat, page: nat)
    requires address % 2 == 0 && PageStart(page) == page && InPage(address, page)
    ensures address % PAGE_SIZE / 2 * 2 == address - page
  {
    assert address % PAGE_SIZE == address - page;
  }

  lemma WordIsIn(c: Cursor, flash: FlashBytes, ms: seq<Move>, m: Move, i: nat)
    requires Tidy(c) && IsPage(c.page) && AreMoves(ms) && m.Word? && IsMove(m) && i < FLASH_SIZE
    requires PageStart(m.address) == c.page && (c.dirty || !Touches(ms, c.page)) && LoadedAt(c, flash, ms, i)
    ensures LoadedAt(FilledIn(c, m.address, m.low, m.high), flash, ms + [m], i)
  {
    var more := ms + [m];
    assert more[..|ms|] == ms && more[|ms|] == m;
    PageOfByte(i, c.page);
    PageOfByte(m.address, c.page);
    if InPage(i, c.page) {
      FilledByte(c, m.address, m.low, m.high, i - c.page);
      if !c.dirty && Given(ms, i).Some? {
        GivenTouches(ms, i);
      }
    } else {
      assert PageStart(m.address + 1) == c.page;
    }
  }

  lemma PageIsLeft(c: Cursor, flash: FlashBytes, ms: seq<Move>, address: nat, i: nat)
    requires IsPage(c.page) && i < FLASH_SIZE && LoadedAt(c, flash, ms, i) && (c.dirty ==> Touches(ms, c.page))
    ensures LoadedAt(Moved(c, address), flash, ms, i)
  {
    if c.dirty && c.page != PageStart(address) {
      PageOfByte(i, c.page);
      WrittenByte(c.memory, c.page, i);
    }
  }

  lemma WantedAfterVisit(flash: FlashBytes, ms: seq<Move>, address: nat, i: nat)
    requires i < FLASH_SIZE
    ensures Given(ms + [Visit(address)], i) == Given(ms, i)
    ensures forall page :: Touches(ms + [Visit(address)], page) == Touches(ms, page)
  {
    assert (ms + [Visit(address)])[..|ms|] == ms;
  }

  lemma WordInPlaceIsLoaded(c: Cursor, flash: FlashBytes, ms: seq<Move>, m: Move, i: nat)
    requires Tidy(c) && IsPage(c.page) && AreMoves(ms) && m.Word? && IsMove(m) && i < FLASH_SIZE
    requires PageStart(m.address) == c.page && (c.dirty || !Touches(ms, c.page)) && LoadedAt(c, flash, ms, i)
    ensures LoadedAt(Act(c, m), flash, ms + [m], i)
    ensures Act(c, m).dirty ==> Touches(ms + [m], Act(c, m).page)
  {
    var filled := FilledIn(c, m.address, m.low, m.high);
    WordIsIn(c, flash, ms, m, i);
    assert Touches(ms + [m], c.page);
    PageIsLeft(filled, flash, ms + [m], m.address + 2, i);
    assert Act(c, m) == Moved(filled, m.address + 2);
  }

  /** One more move, in place. */
  lemma LoadedNext(c: Cursor, flash: FlashBytes, ms: seq<Move>, m: Move, i: nat)
    requires Tidy(c) && IsPage(c.page) && AreMoves(ms) && IsMove(m) && i < FLASH_SIZE
    requires c.dirty ==> Touches(ms, c.page)
    requires m.Word? ==> PageStart(m.address) == c.page && (c.dirty || !Touches(ms, c.page))
    requires LoadedAt(c, flash, ms, i)
    ensures LoadedAt(Act(c, m), flash, ms + [m], i)
    ensures Act(c, m).dirty ==> Touches(ms + [m], Act(c, m).page)
  {
    if m.Word? {
      WordInPlaceIsLoaded(c, flash, ms, m, i);
    } else {
      WantedAfterVisit(flash, ms, m.address, i);
      PageIsLeft(c, flash, ms + [m], m.address, i);
    }
  }

  lemma {:induction false} InPlaceIsLoaded(c: Cursor, ms: seq<Move>, i: nat)
    requires Starts(c) && AreMoves(ms) && AllInPlace(ms) && i < FLASH_SIZE
    ensures LoadedAt(Fold(Act, c, ms), c.memory.flash, ms, i)
    ensures Opened(ms).dirty ==> Touches(ms, Opened(ms).page)
    decreases |ms|
  {
    if ms == [] {
    } else {
      var before, m := ms[..|ms| - 1], ms[|ms| - 1];
      assert before + [m] == ms;
      assert forall n: nat :: n < |before| ==> ms[..n] == before[..n] && InPlace(ms, n) == InPlace(before, n);
      InPlaceIsLoaded(c, before, i);
      OpenIsOpened(c, before);
      OpenIsOpened(c, ms);
      OpenIsPage(before);
      FoldNext(Act, c, before, m);
      assert InPlace(ms, |before|);
      LoadedNext(Fold(Act, c, before), c.memory.flash, before, m, i);
    }
  }

  // ----- Words out of place are not

  /** The same page is open in the same way. */
  predicate Alike(c: Cursor, d: Cursor) {
    c.page == d.page && c.dirty == d.dirty && Tidy(c) && Tidy(d)
  }

  /** Alike, and byte `i` is the same in flash and in the buffer that goes there. */
  predicate AgreeAt(c: Cursor, d: Cursor, i: nat)
    requires i < FLASH_SIZE
  {
    && Alike(c, d) && c.memory.flash[i] == d.memory.flash[i]
    && (InPage(i, c.page) ==> c.memory.buffer[i - c.page] == d.memory.buffer[i - c.page])
  }

  predicate SameMove(m: Move, m': Move) {
    if m.Word? then m'.Word? && m'.address == m.address else m == m'
  }

  lemma AlikeNext(c: Cursor, d: Cursor, m: Move, m': Move)
    requires Alike(c, d) && SameMove(m, m')
    ensures Alike(Act(c, m), Act(d, m'))
  {
    ActIsControl(c, m);
    ActIsControl(d, m');
  }

  lemma LeavingAgrees(c: Cursor, d: Cursor, address: nat, i: nat)
    requires IsPage(c.page) && i < FLASH_SIZE && AgreeAt(c, d, i)
    ensures AgreeAt(Moved(c, address), Moved(d, address), i)
  {
  }

  /** The same word, or any words while another page is open, or any words that find a clean page. */
  lemma FillingAgrees(c: Cursor, d: Cursor, m: Move, m': Move, i: nat)
    requires IsPage(c.page) && i < FLASH_SIZE && m.Word? && SameMove(m, m') && Alike(c, d)
    requires InPage(i, c.page) ==> m == m'
    requires AgreeAt(c, d, i) || (InPage(i, c.page) && !c.dirty)
    ensures AgreeAt(FilledIn(c, m.address, m.low, m.high), FilledIn(d, m'.address, m'.low, m'.high), i)
  {
  }

  lemma AgreeNext(c: Cursor, d: Cursor, m: Move, m': Move, i: nat)
    requires IsPage(c.page) && i < FLASH_SIZE && SameMove(m, m') && Alike(c, d)
    requires m.Word? && InPage(i, c.page) ==> m == m'
    requires AgreeAt(c, d, i) || (m.Word? && InPage(i, c.page) && !c.dirty)
    ensures AgreeAt(Act(c, m), Act(d, m'), i)
  {
    match m
    case Word(address, low, high) =>
      FillingAgrees(c, d, m, m', i);
      LeavingAgrees(FilledIn(c, address, low, high), FilledIn(d, address, m'.low, m'.high), address + 2, i);
    case Visit(address) =>
      LeavingAgrees(c, d, address, i);
  }

  /** The moves with another first byte in word `k`. */
  function Changed(ms: seq<Move>, k: nat): seq<Move>
    requires k < |ms| && ms[k].Word?
  {
    ms[k := ms[k].(low := Low8(ms[k].low as int + 1))]
  }

  /**
   Two runs that differ in word `k` alone. If it finds another page open, or if its page is erased later, for
   word `n`, then the two runs end with the same byte in its place.
   */
  lemma {:induction false} AgreeAlong(c: Cursor, ms: seq<Move>, k: nat, n: nat, i: nat, end: nat)
    requires Starts(c) && AreMoves(ms) && k <= n < |ms| && ms[k].Word? && ms[n].Word? && i < FLASH_SIZE
    requires if n == k then !InPage(i, Opened(ms[..n]).page)
             else InPage(i, Opened(ms[..n]).page) && !Opened(ms[..n]).dirty
    requires end <= |ms|
    ensures var a, b := Fold(Act, c, ms[..end]), Fold(Act, c, Changed(ms, k)[..end]);
            Alike(a, b) && (end <= k ==> a == b) && (end > n ==> AgreeAt(a, b, i))
    decreases end
  {
    if end == 0 {
    } else {
      var last := end - 1;
      var a, b := Fold(Act, c, ms[..last]), Fold(Act, c, Changed(ms, k)[..last]);
      assert ms[..end] == ms[..last] + [ms[last]];
      assert Changed(ms, k)[..end] == Changed(ms, k)[..last] + [Changed(ms, k)[last]];
      AgreeAlong(c, ms, k, n, i, last);
      OpenIsOpened(c, ms[..last]);
      OpenIsPage(ms[..last]);
      FoldNext(Act, c, ms[..last], ms[last]);
      FoldNext(Act, c, Changed(ms, k)[..last], Changed(ms, k)[last]);
      AlikeNext(a, b, ms[last], Changed(ms, k)[last]);
      if last >= n {
        AgreeNext(a, b, ms[last], Changed(ms, k)[last], i);
      }
    }
  }

  // ----- Copies

  /** Flash at the end of a run, when the end record's address is `end`. */
  function EndFlash(c: Cursor, ms: seq<Move>, end: nat): FlashBytes {
    Moved(Fold(Act, c, ms), end).memory.flash
  }

  ghost predicate IsCopy(c: Cursor, ms: seq<Move>, end: nat) {
    forall i :: 0 <= i < FLASH_SIZE ==> EndFlash(c, ms, end)[i] == Wanted(c.memory.flash, ms, i)
  }

  /** Every word is in place, and the last page is written. */
  ghost predicate IsOrdered(ms: seq<Move>, end: nat) {
    AllInPlace(ms) && !Control(Opened(ms), Visit(end)).dirty
  }

  /** No address is given twice. */
  ghost predicate IsDistinct(ms: seq<Move>) {
    forall j, k :: 0 <= j < k < |ms| && ms[j].Word? && ms[k].Word? ==> ms[j].address != ms[k].address
  }

  lemma OrderedIsCopy(c: Cursor, ms: seq<Move>, end: nat)
    requires Starts(c) && AreMoves(ms) && IsOrdered(ms, end)
    ensures IsCopy(c, ms, end)
  {
    var last := Fold(Act, c, ms);
    OpenIsOpened(c, ms);
    OpenIsPage(ms);
    forall i | 0 <= i < FLASH_SIZE ensures EndFlash(c, ms, end)[i] == Wanted(c.memory.flash, ms, i) {
      InPlaceIsLoaded(c, ms, i);
      PageIsLeft(last, c.memory.flash, ms, end, i);
    }
  }

  lemma {:induction false} GivenIs(ms: seq<Move>, k: nat)
    requires AreMoves(ms) && IsDistinct(ms) && k < |ms| && ms[k].Word?
    ensures Given(ms, ms[k].address) == Some(ms[k].low)
    decreases |ms|
  {
    var last := |ms| - 1;
    if k == last {
    } else {
      assert ms[last].Word? ==> ms[last].address != ms[k].address;
      GivenIs(ms[..last], k);
    }
  }

  lemma ChangedIsGiven(ms: seq<Move>, k: nat)
    requires AreMoves(ms) && IsDistinct(ms) && k < |ms| && ms[k].Word?
    ensures Given(ms, ms[k].address) == Some(ms[k].low)
    ensures Given(Changed(ms, k), ms[k].address) == Some(Low8(ms[k].low as int + 1))
  {
    GivenIs(ms, k);
    assert forall j :: 0 <= j < |ms| ==> SameMove(ms[j], Changed(ms, k)[j]);
    GivenIs(Changed(ms, k), k);
  }

  /** Byte `i` is the same at the end although the two runs want it different. */
  lemma NotBoth(c: Cursor, ms: seq<Move>, k: nat, end: nat)
    requires AreMoves(ms) && IsDistinct(ms) && k < |ms| && ms[k].Word?
    requires EndFlash(c, ms, end)[ms[k].address] == EndFlash(c, Changed(ms, k), end)[ms[k].address]
    ensures !(IsCopy(c, ms, end) && IsCopy(c, Changed(ms, k), end))
  {
    ChangedIsGiven(ms, k);
    var i := ms[k].address;
    assert Wanted(c.memory.flash, ms, i) != Wanted(c.memory.flash, Changed(ms, k), i);
  }

  lemma OutOfPlaceIsNoCopy(c: Cursor, ms: seq<Move>, k: nat, n: nat, end: nat)
    requires Starts(c) && AreMoves(ms) && IsDistinct(ms) && k <= n < |ms| && ms[k].Word? && ms[n].Word?
    requires if n == k then !InPage(ms[k].address, Opened(ms[..n]).page)
             else InPage(ms[k].address, Opened(ms[..n]).page) && !Opened(ms[..n]).dirty
    ensures !(IsCopy(c, ms, end) && IsCopy(c, Changed(ms, k), end))
  {
    var i := ms[k].address;
    AgreeAlong(c, ms, k, n, i, |ms|);
    assert ms[..|ms|] == ms && Changed(ms, k)[..|ms|] == Changed(ms, k);
    OpenIsOpened(c, ms);
    OpenIsPage(ms);
    LeavingAgrees(Fold(Act, c, ms), Fold(Act, c, Changed(ms, k)), end, i);
    NotBoth(c, ms, k, end);
  }

  // ----- The order depends on the addresses alone

  ghost predicate SameMoves(ms: seq<Move>, ms': seq<Move>) {
    |ms| == |ms'| && forall k :: 0 <= k < |ms| ==> SameMove(ms[k], ms'[k])
  }

  lemma {:induction false} SameControl(ms: seq<Move>, ms': seq<Move>, page: nat)
    requires SameMoves(ms, ms')
    ensures Opened(ms) == Opened(ms') && Touches(ms, page) == Touches(ms', page)
    decreases |ms|
  {
    if ms == [] {
    } else {
      SameControl(ms[..|ms| - 1], ms'[..|ms| - 1], page);
    }
  }

  lemma SameOrder(ms: seq<Move>, ms': seq<Move>, end: nat)
    requires SameMoves(ms, ms')
    ensures AllInPlace(ms) == AllInPlace(ms') && IsOrdered(ms, end) == IsOrdered(ms', end)
  {
    forall n: nat | n < |ms| ensures InPlace(ms, n) == InPlace(ms', n) {
      assert SameMove(ms[n], ms'[n]);
      SameControl(ms[..n], ms'[..n], Opened(ms[..n]).page);
    }
    SameControl(ms, ms', 0);
  }

  /** A word of a page that is touched. */
  lemma {:induction false} WordOf(ms: seq<Move>, page: nat) returns (k: nat)
    requires Touches(ms, page)
    ensures k < |ms| && ms[k].Word? && PageStart(ms[k].address) == page
    decreases |ms|
  {
    var last := |ms| - 1;
    if ms[last].Word? && PageStart(ms[last].address) == page {
      k := last;
    } else {
      k := WordOf(ms[..last], page);
    }
  }

  /** A page that is open and dirty at the end is still blank. */
  lemma UnwrittenIsBlank(c: Cursor, ms: seq<Move>, end: nat, i: nat)
    requires Starts(c) && AreMoves(ms) && AllInPlace(ms) && Control(Opened(ms), Visit(end)).dirty
    requires i < FLASH_SIZE && PageStart(i) == Opened(ms).page
    ensures EndFlash(c, ms, end)[i] == BLANK
  {
    OpenIsOpened(c, ms);
    OpenIsPage(ms);
    PageOfByte(i, Opened(ms).page);
    InPlaceIsLoaded(c, ms, i);
  }

  lemma UnwrittenIsNoCopy(c: Cursor, ms: seq<Move>, k: nat, end: nat)
    requires Starts(c) && AreMoves(ms) && IsDistinct(ms) && AllInPlace(ms) && Control(Opened(ms), Visit(end)).dirty
    requires k < |ms| && ms[k].Word? && PageStart(ms[k].address) == Opened(ms).page
    ensures !(IsCopy(c, ms, end) && IsCopy(c, Changed(ms, k), end))
  {
    SameOrder(ms, Changed(ms, k), end);
    SameControl(ms, Changed(ms, k), 0);
    UnwrittenIsBlank(c, ms, end, ms[k].address);
    UnwrittenIsBlank(c, Changed(ms, k), end, ms[k].address);
    NotBoth(c, ms, k, end);
  }

  /** Words that are not in order: there is one that cannot be anything and still be copied. */
  lemma DisorderIsNoCopy(c: Cursor, ms: seq<Move>, end: nat) returns (k: nat)
    requires Starts(c) && AreMoves(ms) && IsDistinct(ms) && !IsOrdered(ms, end)
    ensures k < |ms| && ms[k].Word?
    ensures !(IsCopy(c, ms, end) && IsCopy(c, Changed(ms, k), end))
  {
    if AllInPlace(ms) {
      OpenIsOpened(c, ms);
      InPlaceIsLoaded(c, ms, 0);
      k := WordOf(ms, Opened(ms).page);
      UnwrittenIsNoCopy(c, ms, k, end);
    } else {
      var n: nat :| n < |ms| && !InPlace(ms, n);
      var page := Opened(ms[..n]).page;
      OpenIsPage(ms[..n]);
      if PageStart(ms[n].address) != page {
        k := n;
      } else {
        k := WordOf(ms[..n], page);
      }
      PageOfByte(ms[k].address, page);
      OutOfPlaceIsNoCopy(c, ms, k, n, end);
    }
  }
}
