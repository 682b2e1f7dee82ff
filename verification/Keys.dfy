/**
 The key scanner of key.c. A key word (`uint64_t`) is the set of the keys whose bit is
 set. The timer interrupt writes a ring of ten samples; the main loop reads the ring
 byte by byte while the interrupt may go on writing it.
 */
module Keys {
  type Key = k: int | 0 <= k < 64
  type KeyWord = set<Key>

  const NUM_KEYS := 64
  const RING_SIZE := 10
  const LANES := 8                       // bytes in a key word
  const READS := 80                      // byte reads in one scan of the ring

  function AllKeys(): KeyWord {
    set k: Key | 0 <= k < NUM_KEYS && k / LANES < LANES
  }

  /** The keys whose bits are in byte `lane` of a word. */
  function LaneKeys(lane: nat): KeyWord {
    set k: Key | 0 <= k < NUM_KEYS && k / LANES == lane
  }

  // ----- Specification

  /** What a ring slot holds after the samples `h`: the last one written to it, or nothing. */
  function Slot(h: seq<KeyWord>, i: nat): KeyWord {
    if h == [] then {}
    else if (|h| - 1) % RING_SIZE == i then h[|h| - 1]
    else Slot(h[..|h| - 1], i)
  }

  /** The samples that arrive before the first `n` byte reads, one batch before each. */
  function Arrived(batches: seq<seq<KeyWord>>, n: nat): seq<KeyWord>
    requires n <= |batches|
  {
    if n == 0 then [] else Arrived(batches, n - 1) + batches[n - 1]
  }

  /** All samples written by the time byte `lane` of slot `i` is read. */
  function SeenBy(h: seq<KeyWord>, batches: seq<seq<KeyWord>>, i: nat, lane: nat): seq<KeyWord>
    requires |batches| == READS && i < RING_SIZE && lane < LANES
  {
    h + Arrived(batches, LANES * i + lane + 1)
  }

  /** Key `k` is set in slot `i` at the moment its byte of that slot is read. */
  predicate ReadAs(h: seq<KeyWord>, batches: seq<seq<KeyWord>>, k: Key, i: nat)
    requires |batches| == READS && i < RING_SIZE
  {
    k in Slot(SeenBy(h, batches, i, k / LANES), i)
  }

  /** Key `k` is set in every slot as it is read. */
  predicate Pressed(h: seq<KeyWord>, batches: seq<seq<KeyWord>>, k: Key)
    requires |batches| == READS
  {
    PressedUpTo(h, batches, k, RING_SIZE)
  }

  /** Key `k` is set in the first `n` slots as they are read. */
  predicate PressedUpTo(h: seq<KeyWord>, batches: seq<seq<KeyWord>>, k: Key, n: nat)
    requires |batches| == READS && n <= RING_SIZE
  {
    forall i :: 0 <= i < n ==> ReadAs(h, batches, k, i)
  }

  /** The keys that a scan reports. */
  function ReadKeys(h: seq<KeyWord>, batches: seq<seq<KeyWord>>): KeyWord
    requires |batches| == READS
  {
    set k: Key | 0 <= k < NUM_KEYS && Pressed(h, batches, k)
  }

  // ----- Laws

  /** A slot holds the last sample whose number is congruent to it, one of the last ten. */
  lemma {:induction false} SlotIsRecent(h: seq<KeyWord>, i: nat) returns (j: nat)
    requires |h| >= RING_SIZE && i < RING_SIZE
    ensures |h| - RING_SIZE <= j < |h| && j % RING_SIZE == i && Slot(h, i) == h[j]
  {
    var d := (|h| - 1 - i) % RING_SIZE;
    assert (|h| - 1 - d) % RING_SIZE == i;
    SlotAfter(h, i, d);
    j := |h| - 1 - d;
  }

  lemma {:induction false} SlotAfter(h: seq<KeyWord>, i: nat, d: nat)
    requires d < RING_SIZE && d < |h| && (|h| - 1 - d) % RING_SIZE == i
    ensures Slot(h, i) == h[|h| - 1 - d]
    decreases d
  {
    if d == 0 {
    } else {
      assert (|h| - 1) % RING_SIZE != i;
      SlotAfter(h[..|h| - 1], i, d - 1);
    }
  }

  /** Batches extend each other, so what one read sees is a prefix of what the next sees. */
  lemma {:induction false} ArrivedGrows(batches: seq<seq<KeyWord>>, n: nat, m: nat)
    requires n <= m <= |batches|
    ensures Arrived(batches, n) <= Arrived(batches, m)
  {
    if n == m {
    } else {
      ArrivedGrows(batches, n, m - 1);
    }
  }

  /** Every sample a read may see lies in the window of the scan. */
  lemma SeenInWindow(h: seq<KeyWord>, batches: seq<seq<KeyWord>>, i: nat, lane: nat)
    requires |batches| == READS && i < RING_SIZE && lane < LANES
    ensures h <= SeenBy(h, batches, i, lane) <= h + Arrived(batches, READS)
  {
    ArrivedGrows(batches, LANES * i + lane + 1, READS);
  }

  /** The samples that a scan can have seen: the ten before it and those that arrive during it. */
  ghost predicate InWindow(h: seq<KeyWord>, batches: seq<seq<KeyWord>>, j: int)
    requires |batches| == READS
  {
    |h| - RING_SIZE <= j < |h| + |Arrived(batches, READS)|
  }

  /** A read of key `k` in slot `i` reports sample `j`, a sample of the window. */
  lemma ReadInWindow(h: seq<KeyWord>, batches: seq<seq<KeyWord>>, k: Key, i: nat) returns (j: nat)
    requires |batches| == READS && |h| >= RING_SIZE && i < RING_SIZE
    ensures InWindow(h, batches, j) && j % RING_SIZE == i
    ensures ReadAs(h, batches, k, i) <==> k in (h + Arrived(batches, READS))[j]
  {
    var all := h + Arrived(batches, READS);
    var seen := SeenBy(h, batches, i, k / LANES);
    SeenInWindow(h, batches, i, k / LANES);
    j := SlotIsRecent(seen, i);
    assert all[j] == seen[j];
  }

  lemma {:induction false} SlotHasASample(h: seq<KeyWord>, i: nat, k: Key)
    requires forall j :: 0 <= j < |h| ==> k !in h[j]
    ensures k !in Slot(h, i)
  {
    if h == [] || (|h| - 1) % RING_SIZE == i {
    } else {
      SlotHasASample(h[..|h| - 1], i, k);
    }
  }

  /**
   The debounce law, for every interleaving of the interrupt with the scan: a key down
   throughout the window reads as pressed and a key up throughout it reads as released. The
   slots of a ring that is not full yet count as samples without keys.
   */
  lemma Debounced(h: seq<KeyWord>, batches: seq<seq<KeyWord>>, k: Key, isDown: bool)
    requires |batches| == READS && (|h| >= RING_SIZE || !isDown)
    requires forall j :: 0 <= j && InWindow(h, batches, j) ==> (k in (h + Arrived(batches, READS))[j] <==> isDown)
    ensures k in ReadKeys(h, batches) <==> isDown
  {
    if |h| >= RING_SIZE {
      forall i | 0 <= i < RING_SIZE ensures ReadAs(h, batches, k, i) <==> isDown {
        var j := ReadInWindow(h, batches, k, i);
      }
      assert ReadAs(h, batches, k, 0) <==> isDown;
    } else {
      var seen := SeenBy(h, batches, 0, k / LANES);
      SeenInWindow(h, batches, 0, k / LANES);
      forall j | 0 <= j < |seen| ensures k !in seen[j] {
        assert InWindow(h, batches, j) && seen[j] == (h + Arrived(batches, READS))[j];
      }
      SlotHasASample(seen, 0, k);
      assert !ReadAs(h, batches, k, 0);
    }
  }

  /** When no interrupt disturbs the scan, sample `j` of the last ten is what its slot reports. */
  lemma SampleIsRead(h: seq<KeyWord>, batches: seq<seq<KeyWord>>, k: Key, j: nat)
    requires |batches| == READS && Arrived(batches, READS) == []
    requires 0 <= |h| - RING_SIZE <= j < |h|
    ensures ReadAs(h, batches, k, j % RING_SIZE) <==> k in h[j]
  {
    var j' := ReadInWindow(h, batches, k, j % RING_SIZE);
    assert j' == j;
  }

  /** A scan that no interrupt disturbs reports exactly the keys that all ten last samples have. */
  lemma UndisturbedScan(h: seq<KeyWord>, batches: seq<seq<KeyWord>>, k: Key)
    requires |batches| == READS && |h| >= RING_SIZE && Arrived(batches, READS) == []
    ensures k in ReadKeys(h, batches) <==> forall j :: |h| - RING_SIZE <= j < |h| ==> k in h[j]
  {
    if Pressed(h, batches, k) {
      forall j | |h| - RING_SIZE <= j < |h| ensures k in h[j] {
        SampleIsRead(h, batches, k, j);
      }
    } else {
      var i :| 0 <= i < RING_SIZE && !ReadAs(h, batches, k, i);
      var j := ReadInWindow(h, batches, k, i);
    }
  }

  /** Before ten samples have been taken some slot is still empty and no key reads as pressed. */
  lemma EarlyScanIsEmpty(h: seq<KeyWord>, batches: seq<seq<KeyWord>>)
    requires |batches| == READS && |h| + |Arrived(batches, READS)| < RING_SIZE
    ensures ReadKeys(h, batches) == {}
  {
    forall k: Key | k in ReadKeys(h, batches) ensures false {
      var seen := SeenBy(h, batches, RING_SIZE - 1, k / LANES);
      SeenInWindow(h, batches, RING_SIZE - 1, k / LANES);
      assert ReadAs(h, batches, k, RING_SIZE - 1);
      UnwrittenSlot(seen, RING_SIZE - 1);
    }
  }

  lemma {:induction false} UnwrittenSlot(h: seq<KeyWord>, i: nat)
    requires |h| <= i
    ensures Slot(h, i) == {}
  {
    if h == [] {
    } else {
      UnwrittenSlot(h[..|h| - 1], i);
    }
  }

  /** Symmetric difference: the bits in which two words differ. */
  function Xor(a: KeyWord, b: KeyWord): KeyWord {
    (a - b) + (b - a)
  }

  // ----- The scanner

  class Scanner {
    var ring: array<KeyWord>
    var pos: nat
    var state: KeyWord
    var prevState: KeyWord
    var down: KeyWord
    var up: KeyWord
    ghost var samples: seq<KeyWord>

    ghost predicate Valid()
      reads this, ring
    {
      && ring.Length == RING_SIZE
      && pos == |samples| % RING_SIZE
      && forall i :: 0 <= i < RING_SIZE ==> ring[i] == Slot(samples, i)
    }

    constructor ()
      ensures Valid() && fresh(ring) && samples == []
      ensures state == prevState == down == up == {}
    {
      ring := new KeyWord[RING_SIZE](_ => {});
      pos, samples := 0, [];
      state, prevState, down, up := {}, {}, {}, {};
    }

    /** Shifts in the 64 pins, first key first; a high pin is a key held down. */
    method ShiftIn(pins: Key -> bool) returns (word: KeyWord)
      ensures word == set k: Key | 0 <= k < NUM_KEYS && pins(k)
    {
      var value: KeyWord := {};
      for i := 0 to NUM_KEYS
        invariant value == set k: Key | 0 <= k < i && !pins(k)
      {
        value := value + if pins(i) then {} else {i};
      }
      word := AllKeys() - value;
    }

    /** One timer interrupt. */
    method Tick(pins: Key -> bool)
      requires Valid()
      modifies this`pos, this`samples, ring
      ensures Valid()
      ensures samples == old(samples) + [set k: Key | 0 <= k < NUM_KEYS && pins(k)]
    {
      var word := ShiftIn(pins);
      Store(word);
    }

    method Store(word: KeyWord)
      requires Valid()
      modifies this`pos, this`samples, ring
      ensures Valid() && samples == old(samples) + [word]
    {
      ghost var before := samples;
      ring[pos] := word;
      pos := (pos + 1) % RING_SIZE;
      samples := samples + [word];
      assert samples[..|samples| - 1] == before;
    }

    /** The interrupts that come in between two byte reads. */
    method Interrupts(batch: seq<KeyWord>)
      requires Valid()
      modifies this`pos, this`samples, ring
      ensures Valid() && samples == old(samples) + batch
    {
      for n := 0 to |batch|
        invariant Valid() && ring == old(ring) && samples == old(samples) + batch[..n]
      {
        Store(batch[n]);
        assert batch[..n + 1] == batch[..n] + [batch[n]];
      }
      assert batch[..|batch|] == batch;
    }

    /** Clears from one byte of the state the keys that this byte of slot `i` does not have. */
    method AndLane(i: nat, lane: nat)
      requires Valid() && i < RING_SIZE && lane < LANES
      modifies this`state
      ensures state == old(state) - (LaneKeys(lane) - Slot(samples, i))
    {
      state := state - (LaneKeys(lane) - ring[i]);
    }

    /**
     ANDs slot `i` into the state, as eight byte reads; `batches` are the samples that the
     interrupt stores before each of the eighty reads of a scan that began after the samples `h`.
     */
    method AndSlot(i: nat, batches: seq<seq<KeyWord>>, ghost h: seq<KeyWord>)
      requires Valid() && |batches| == READS && i < RING_SIZE
      requires samples == h + Arrived(batches, LANES * i)
      modifies this`pos, this`samples, this`state, ring
      ensures Valid() && samples == h + Arrived(batches, LANES * (i + 1))
      ensures forall k: Key :: k in state <==> k in old(state) && ReadAs(h, batches, k, i)
    {
      for lane := 0 to LANES
        invariant Valid() && ring == old(ring) && samples == h + Arrived(batches, LANES * i + lane)
        invariant forall k: Key :: k in state <==> k in old(state) && (k / LANES < lane ==> ReadAs(h, batches, k, i))
      {
        Interrupts(batches[LANES * i + lane]);
        assert samples == SeenBy(h, batches, i, lane);
        AndLane(i, lane);
      }
    }

    /** Reads the debounced key state: the AND of the ten slots. */
    method Read(batches: seq<seq<KeyWord>>)
      requires Valid() && |batches| == READS
      modifies this`pos, this`samples, this`state, ring
      ensures Valid() && samples == old(samples) + Arrived(batches, READS)
      ensures state == ReadKeys(old(samples), batches)
    {
      ghost var h := samples;
      state := AllKeys();
      for i := 0 to RING_SIZE
        invariant Valid() && ring == old(ring) && samples == h + Arrived(batches, LANES * i)
        invariant forall k: Key :: k in state <==> PressedUpTo(h, batches, k, i)
      {
        AndSlot(i, batches, h);
      }
    }

    /** Derives the key edges from the state and the state before. */
    method Calc()
      modifies this`down, this`up, this`prevState
      ensures down == state - old(prevState) && up == old(prevState) - state
      ensures prevState == state && state == old(prevState) - up + down
    {
      down := Xor(prevState, state) * state;
      up := Xor(prevState, state) * prevState;
      prevState := state;
    }
  }
}
