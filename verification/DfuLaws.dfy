/**
 Safety of the DFU bootloader: nothing is programmed or read out in secure mode.
 */
module DfuLaws {
  import opened Bytes
  import opened Flash
  import opened Dfu
  import opened Folds

  // ----- The chip erase

  /** Erasing a page and writing the empty buffer to it blanks exactly that page. */
  lemma PageIsBlank(m: Memory, page: nat, i: nat)
    requires m.buffer == EmptyBuffer() && PageOf(page) == page && i < FLASH_SIZE
    ensures WritePage(Erase(m, page), page).buffer == EmptyBuffer()
    ensures WritePage(Erase(m, page), page).flash[i] == if InPage(i, page) then BLANK else m.flash[i]
  {
    WrittenByte(Erase(m, page), page, i);
  }

  /** Erasing pages one by one through an empty buffer blanks exactly the application section. */
  lemma {:induction false} ErasedIsBlank(m: Memory, address: nat, i: nat)
    requires m.buffer == EmptyBuffer() && address % PAGE_SIZE == 0 && address <= BOOT_START && i < FLASH_SIZE
    ensures ErasedFrom(m, address).buffer == EmptyBuffer()
    ensures ErasedFrom(m, address).flash[i] == if address <= i < BOOT_START then BLANK else m.flash[i]
    decreases BOOT_START - address
  {
    if address >= BOOT_START {
    } else {
      var next := WritePage(Erase(m, address), address);
      assert PageOf(address) == address;
      PageIsBlank(m, address, i);
      ErasedIsBlank(next, address + PAGE_SIZE, i);
    }
  }

  // ----- Secure mode

  /** What holds while the bootloader is secure. */
  ghost predicate Locked(b: Boot) {
    && b.isSecure
    && b.state != DnloadIdle && b.state != UploadIdle
    && !b.waitForExit
    && b.memory.buffer == EmptyBuffer()
  }

  /** The application section is blank and the rest of the memories is that of `b`. */
  ghost predicate Wiped(b': Boot, b: Boot) {
    && !b'.isSecure && b'.state != DnloadIdle && b'.state != UploadIdle
    && b'.memory.buffer == EmptyBuffer()
    && (forall i :: 0 <= i < FLASH_SIZE ==> b'.memory.flash[i] == if i < BOOT_START then BLANK else b.memory.flash[i])
    && b'.eeprom == b.eeprom
  }

  /** One request in secure mode: it stays locked with both memories untouched, or erases the chip. */
  lemma LockedStep(b: Boot, r: Request)
    requires Locked(b)
    ensures var b' := Handle(b, r).0;
            || (Locked(b') && b'.memory == b.memory && b'.eeprom == b.eeprom)
            || Wiped(b', b)
  {
    if r.Dnload? && r.length != 0 && r.packets != [] {
      var b1 := b.(sent := b.sent.(dataSize := r.length));
      var e := Endpoint(r.packets[0], r.packets[1..]);
      LockedProcess(b1.(sent := Dfu.Loaded(b1.sent, e)));
    }
  }

  lemma LockedProcess(b: Boot)
    requires Locked(b)
    ensures var b' := Process(b);
            || (Locked(b') && b'.memory == b.memory && b'.eeprom == b.eeprom)
            || Wiped(b', b)
  {
    if b.sent.command == COMMAND_WRITE && AllowedInSecureMode(b.sent) {
      forall i | 0 <= i < FLASH_SIZE
        ensures ErasedFrom(b.memory, 0).flash[i] == if i < BOOT_START then BLANK else b.memory.flash[i]
      {
        ErasedIsBlank(b.memory, 0, i);
      }
      ErasedIsBlank(b.memory, 0, 0);
    }
  }

  /** Two bootloaders that differ at most in what their memories hold. */
  ghost predicate SameButMemory(b: Boot, c: Boot) {
    b == c.(memory := b.memory, eeprom := b.eeprom)
  }

  lemma LockedProcessIsBlind(b: Boot, c: Boot)
    requires Locked(b) && Locked(c) && SameButMemory(b, c)
    ensures SameButMemory(Process(b), Process(c))
    ensures Process(b).state != DnloadIdle
  {
  }

  /** In secure mode neither the response nor the next state depends on the memories. */
  lemma LockedStepIsBlind(b: Boot, c: Boot, r: Request)
    requires Locked(b) && Locked(c) && SameButMemory(b, c)
    ensures Handle(b, r).1 == Handle(c, r).1
    ensures SameButMemory(Next(b, r), Next(c, r))
  {
    if r.Dnload? && r.length != 0 && r.packets != [] {
      var e := Endpoint(r.packets[0], r.packets[1..]);
      var sent := Dfu.Loaded(b.sent.(dataSize := r.length), e);
      LockedProcessIsBlind(b.(sent := sent), c.(sent := sent));
    }
  }

  function Next(b: Boot, r: Request): Boot {
    Handle(b, r).0
  }

  /** The bootloader after a run of requests. */
  function After(b: Boot, rs: seq<Request>): Boot {
    Fold(Next, b, rs)
  }

  ghost predicate LockedAs(b': Boot, b: Boot) {
    Locked(b') && b'.memory == b.memory && b'.eeprom == b.eeprom
  }

  /** The erase is the `n`th request, and everything before it left the memories alone. */
  ghost predicate WipedAt(b: Boot, rs: seq<Request>, n: nat)
    requires 1 <= n <= |rs|
  {
    && Wiped(After(b, rs[..n]), b)
    && forall m :: 0 <= m < n ==> LockedAs(After(b, rs[..m]), b)
  }

  /** Over every run of requests from secure mode: either the bootloader is still locked and no byte of flash or
      EEPROM has changed, or there was a request that blanked the whole application section, before which it
      was locked. */
  lemma {:induction false} SecureUntilWiped(b: Boot, rs: seq<Request>)
    requires Locked(b)
    ensures || (forall m :: 0 <= m <= |rs| ==> LockedAs(After(b, rs[..m]), b))
            || exists n :: 1 <= n <= |rs| && WipedAt(b, rs, n)
    decreases |rs|
  {
    if rs == [] {
      assert rs[..0] == [];
    } else {
      var before, last := rs[..|rs| - 1], rs[|rs| - 1];
      SecureUntilWiped(b, before);
      assert forall m :: 0 <= m <= |before| ==> before[..m] == rs[..m];
      if n :| 1 <= n <= |before| && WipedAt(b, before, n) {
        assert WipedAt(b, rs, n);
      } else {
        assert before[..|before|] == before && rs[..|rs|] == before + [last];
        FoldNext(Next, b, before, last);
        LockedStep(After(b, before), last);
        if Wiped(After(b, rs[..|rs|]), b) {
          assert WipedAt(b, rs, |rs|);
        }
      }
    }
  }

  lemma OpenStaysOpen(b: Boot, r: Request)
    ensures !b.isSecure ==> !Next(b, r).isSecure
  {
    ProcessNeverLocks(b);
    if r.Dnload? {
      DnloadNeverLocks(b, r.length, r.packets);
    }
  }

  lemma ProcessNeverLocks(b: Boot)
    ensures !b.isSecure ==> !Process(b).isSecure
  {
  }

  /** One turn of the EEPROM write loop. */
  lemma EepromTurn(b: Boot, e: Endpoint, count: nat)
    requires count > 0
    ensures ProgramEeprom(b, e, count) ==
            if Refilled(e).None? then (b, None)
            else
              var e' := Refilled(e).value;
              var eeprom := b.eeprom[EepromCell(b.start, 0) := ByteAt(e', 0)];
              ProgramEeprom(b.(eeprom := eeprom, start := (b.start as int + 1) % 65536), Dropped(e', 1), count - 1)
  {
  }

  lemma {:induction false} ProgramEepromNeverLocks(b: Boot, e: Endpoint, count: nat)
    ensures ProgramEeprom(b, e, count).0.isSecure == b.isSecure
    decreases count
  {
    if count == 0 {
    } else if Refilled(e).Some? {
      var e' := Refilled(e).value;
      var eeprom := b.eeprom[EepromCell(b.start, 0) := ByteAt(e', 0)];
      ProgramEepromNeverLocks(b.(eeprom := eeprom, start := (b.start as int + 1) % 65536), Dropped(e', 1), count - 1);
    }
  }

  lemma DownloadNeverLocks(b: Boot, e: Endpoint)
    ensures Download(b, e).isSecure == b.isSecure
  {
    forall e': Endpoint
      ensures ProgramEeprom(b, e', BlockBytes(b)).0.isSecure == b.isSecure
    {
      ProgramEepromNeverLocks(b, e', BlockBytes(b));
    }
  }

  lemma DnloadNeverLocks(b: Boot, length: word, packets: seq<seq<byte>>)
    ensures !b.isSecure ==> !HandleDnload(b, length, packets).isSecure
  {
    var b1 := b.(sent := b.sent.(dataSize := length));
    ProcessNeverLocks(b1);
    var b2 := if b1.waitForExit then Process(b1).(waitForExit := false) else b1;
    if length != 0 && packets != [] {
      var e := Endpoint(packets[0], packets[1..]);
      var b3 := b2.(sent := Dfu.Loaded(b2.sent, e));
      ProcessNeverLocks(b3);
      DownloadNeverLocks(Process(b3), Dropped(e, 6));
    }
  }

  /** While the bootloader stays secure, no response depends on what flash or EEPROM holds: no byte of
      either can be read out. */
  lemma {:induction false} SecureRunIsBlind(b: Boot, c: Boot, rs: seq<Request>, r: Request)
    requires Locked(b) && Locked(c) && SameButMemory(b, c) && After(b, rs).isSecure
    ensures Locked(After(b, rs)) && Locked(After(c, rs)) && SameButMemory(After(b, rs), After(c, rs))
    ensures Handle(After(b, rs), r).1 == Handle(After(c, rs), r).1
    decreases |rs|
  {
    if rs == [] {
    } else {
      var before, last := rs[..|rs| - 1], rs[|rs| - 1];
      assert before + [last] == rs;
      FoldNext(Next, b, before, last);
      FoldNext(Next, c, before, last);
      OpenStaysOpen(After(b, before), last);
      SecureRunIsBlind(b, c, before, last);
      LockedStepIsBlind(After(b, before), After(c, before), last);
      LockedStep(After(b, before), last);
      LockedStep(After(c, before), last);
    }
    LockedStepIsBlind(After(b, rs), After(c, rs), r);
  }
}
