/**
 The SysEx reassembler and command dispatcher of sysex.c.

 The specification is a collector that appends every packet's bytes to the message
 being read and judges the whole message when an end packet arrives. `Reassembler`
 is the firmware's own five-state machine over a 64-byte buffer, proved to emit the
 same events as the collector.
 */
module SysEx {
  import opened Bytes
  import opened UsbMidi

  const MAX_SYSEX := 64
  const MAX_COMMAND := 8
  const SYSEX_CHANNEL: byte := 5
  const MFR_ID_2: byte := 0x79

  datatype Handler = PushConfig | PullConfig | System | BulkXfer

  /** What an end packet makes the device do. */
  datatype Event = Run(handler: Handler, payload: seq<byte>) | SendIdentity

  // ----- Specification

  datatype Collector = Idle | Reading(bytes: seq<byte>)

  predicate IsEnd(p: Packet) {
    CIN_SYSEX_ENDS_1 <= Cin(p) <= CIN_SYSEX_ENDS_3
  }

  function CollectNext(c: Collector, p: Packet): Collector {
    if Cin(p) == CIN_SYSEX_CONTINUES then
      Reading(if c.Idle? then Carried(p) else c.bytes + Carried(p))
    else if IsEnd(p) then Idle
    else c
  }

  /** The message that `p` completes, if it completes one. */
  function Completed(c: Collector, p: Packet): Option<seq<byte>> {
    if IsEnd(p) && c.Reading? then Some(c.bytes + Carried(p)) else None
  }

  predicate IsNonRealtime(m: seq<byte>) {
    |m| >= 3 && m[0] == 0xF0 && m[1] == 0x7E && (m[2] == SYSEX_CHANNEL || m[2] == 0x7F)
  }

  predicate HasVendorPrefix(m: seq<byte>) {
    |m| >= 3 && m[0] == 0xF0 && m[1] == 0x00 && m[2] == 0x01
  }

  predicate IsVendor(m: seq<byte>) {
    HasVendorPrefix(m) && |m| >= 4 && m[3] == MFR_ID_2
  }

  type CommandMap = m: seq<Option<Handler>> | |m| == MAX_COMMAND
    witness [None, None, None, None, None, None, None, None]

  /** The event for a complete message: vendor messages of 6 to 67 bytes run the installed
      handler on everything after the command byte; identity requests of 5 to 66 bytes are answered. */
  function Judge(m: seq<byte>, commands: CommandMap): Option<Event> {
    if IsVendor(m) && 6 <= |m| <= 67 && 1 <= m[4] <= MAX_COMMAND && commands[m[4] - 1].Some? then
      Some(Run(commands[m[4] - 1].value, m[5..]))
    else if IsNonRealtime(m) && 5 <= |m| <= 66 && m[3] == 0x06 && m[4] == 0x01 then
      Some(SendIdentity)
    else
      None
  }

  /** The collector after a run of packets. */
  function CollectAll(c: Collector, ps: seq<Packet>): Collector
    decreases ps
  {
    if ps == [] then c else CollectAll(CollectNext(c, ps[0]), ps[1..])
  }

  /** The messages completed by a run of packets. */
  function Messages(c: Collector, ps: seq<Packet>): seq<seq<byte>>
    decreases ps
  {
    if ps == [] then [] else ToSeq(Completed(c, ps[0])) + Messages(CollectNext(c, ps[0]), ps[1..])
  }

  /** The events of a run of messages. */
  function Events(ms: seq<seq<byte>>, commands: CommandMap): seq<Event> {
    if ms == [] then [] else Events(ms[..|ms| - 1], commands) + ToSeq(Judge(ms[|ms| - 1], commands))
  }

  // ----- Laws of the specification

  lemma {:induction false} CollectConcat(c: Collector, ps: seq<Packet>, qs: seq<Packet>)
    ensures CollectAll(c, ps + qs) == CollectAll(CollectAll(c, ps), qs)
    ensures Messages(c, ps + qs) == Messages(c, ps) + Messages(CollectAll(c, ps), qs)
    decreases ps
  {
    if ps == [] {
      assert ps + qs == qs;
    } else {
      var c' := CollectNext(c, ps[0]);
      assert (ps + qs)[0] == ps[0] && (ps + qs)[1..] == ps[1..] + qs;
      CollectConcat(c', ps[1..], qs);
      Associates(ToSeq(Completed(c, ps[0])), Messages(c', ps[1..]), Messages(CollectAll(c, ps), qs));
    }
  }

  lemma Associates<T>(a: seq<T>, b: seq<T>, c: seq<T>)
    ensures a + (b + c) == (a + b) + c
  {
  }

  /** One packet off a run. */
  lemma CollectStep(c: Collector, ps: seq<Packet>, i: nat, ms: seq<seq<byte>>)
    requires i < |ps|
    ensures CollectAll(c, ps[i..]) == CollectAll(CollectNext(c, ps[i]), ps[i + 1..])
    ensures ms + Messages(c, ps[i..]) ==
            (ms + ToSeq(Completed(c, ps[i]))) + Messages(CollectNext(c, ps[i]), ps[i + 1..])
  {
    assert ps[i..][1..] == ps[i + 1..];
    var done, later := ToSeq(Completed(c, ps[i])), Messages(CollectNext(c, ps[i]), ps[i + 1..]);
    assert ms + (done + later) == (ms + done) + later;
  }

  lemma AstrayStep(stray: bool, started: bool, ps: seq<Packet>, i: nat)
    requires i < |ps|
    ensures StoresAstray(stray, started, ps[i..]) ==
            StoresAstray(stray || (Cin(ps[i]) == CIN_SYSEX_ENDS_3 && !started),
                   started || Cin(ps[i]) == CIN_SYSEX_CONTINUES, ps[i + 1..])
  {
    assert ps[i..][1..] == ps[i + 1..];
  }

  /** Sending a message of at least four bytes and reading the packets back completes exactly that message. */
  lemma PacketizeRoundTrip(m: seq<byte>)
    requires |m| >= 4
    ensures CollectAll(Idle, Packetize(m)) == Idle
    ensures Messages(Idle, Packetize(m)) == [m]
  {
    assert m[..3] + m[3..] == m;
    PacketizeTail(m[..3], m[3..]);
    FirstPacket(Packetize(m), Packet(CIN_SYSEX_CONTINUES, m[0], m[1], m[2]), Packetize(m[3..], false), m[..3], m);
  }

  lemma FirstPacket(ps: seq<Packet>, p: Packet, rest: seq<Packet>, read: seq<byte>, m: seq<byte>)
    requires ps == [p] + rest && Cin(p) == CIN_SYSEX_CONTINUES && Carried(p) == read
    requires CollectAll(Reading(read), rest) == Idle && Messages(Reading(read), rest) == [m]
    ensures CollectAll(Idle, ps) == Idle && Messages(Idle, ps) == [m]
  {
    assert ps[0] == p && ps[1..] == rest;
    assert [] + Messages(Reading(read), rest) == Messages(Reading(read), rest);
  }

  lemma {:induction false} PacketizeTail(read: seq<byte>, rest: seq<byte>)
    requires rest != []
    ensures CollectAll(Reading(read), Packetize(rest, false)) == Idle
    ensures Messages(Reading(read), Packetize(rest, false)) == [read + rest]
    decreases |rest|
  {
    var c := Reading(read);
    var p := Packetize(rest, false)[0];
    if |rest| > 3 {
      var more := Packetize(rest[3..], false);
      assert read + rest[..3] + rest[3..] == read + rest;
      PacketizeTail(read + rest[..3], rest[3..]);
      NextPacket(Packetize(rest, false), p, more, read, rest[..3], read + rest);
    } else {
      assert Packetize(rest, false) == [p];
      assert Carried(p) == rest;
      assert Completed(c, p) == Some(read + rest);
      MessagesOfOne(c, p);
    }
  }

  lemma NextPacket(ps: seq<Packet>, p: Packet, more: seq<Packet>, read: seq<byte>, carried: seq<byte>, m: seq<byte>)
    requires ps == [p] + more && Cin(p) == CIN_SYSEX_CONTINUES && Carried(p) == carried
    requires CollectAll(Reading(read + carried), more) == Idle && Messages(Reading(read + carried), more) == [m]
    ensures CollectAll(Reading(read), ps) == Idle && Messages(Reading(read), ps) == [m]
  {
    assert ps[0] == p && ps[1..] == more;
    assert [] + Messages(Reading(read + carried), more) == Messages(Reading(read + carried), more);
  }

  lemma MessagesOfOne(c: Collector, p: Packet)
    ensures CollectAll(c, [p]) == CollectNext(c, p)
    ensures Messages(c, [p]) == ToSeq(Completed(c, p))
  {
    assert [p][1..] == [];
  }

  predicate IsSysExPacket(p: Packet) {
    Cin(p) == CIN_SYSEX_CONTINUES || IsEnd(p)
  }

  function OnlySysEx(ps: seq<Packet>): seq<Packet> {
    if ps == [] then []
    else (if IsSysExPacket(ps[0]) then [ps[0]] else []) + OnlySysEx(ps[1..])
  }

  /** Notes, control changes and real-time messages in between change neither the events nor the collector. */
  lemma {:induction false} InterleavingIsInvisible(c: Collector, ps: seq<Packet>)
    ensures CollectAll(c, ps) == CollectAll(c, OnlySysEx(ps))
    ensures Messages(c, ps) == Messages(c, OnlySysEx(ps))
    decreases ps
  {
    if ps == [] {
    } else {
      InterleavingIsInvisible(CollectNext(c, ps[0]), ps[1..]);
      if IsSysExPacket(ps[0]) {
        assert OnlySysEx(ps)[1..] == OnlySysEx(ps[1..]);
      } else {
        assert OnlySysEx(ps) == OnlySysEx(ps[1..]);
      }
    }
  }

  /** A vendor message of 6 to 67 bytes for an installed command is delivered exactly once, whatever
      other traffic is interleaved; a longer one delivers nothing. Both leave the machine idle. */
  lemma VendorDelivery(m: seq<byte>, traffic: seq<Packet>, commands: CommandMap)
    requires IsVendor(m) && |m| >= 6 && OnlySysEx(traffic) == Packetize(m)
    requires 1 <= m[4] <= MAX_COMMAND && commands[m[4] - 1].Some?
    ensures CollectAll(Idle, traffic) == Idle
    ensures Events(Messages(Idle, traffic), commands) ==
            if |m| <= 67 then [Run(commands[m[4] - 1].value, m[5..])] else []
  {
    InterleavingIsInvisible(Idle, traffic);
    PacketizeRoundTrip(m);
  }

  /** An end packet of three bytes (CIN 7) comes before every start packet. */
  predicate EndsBeforeStart(ps: seq<Packet>) {
    ps != [] &&
    (if Cin(ps[0]) == CIN_SYSEX_CONTINUES then false
     else Cin(ps[0]) == CIN_SYSEX_ENDS_3 || EndsBeforeStart(ps[1..]))
  }

  /** Whether a stray write has happened once `ps` have been received. */
  predicate StoresAstray(stray: bool, started: bool, ps: seq<Packet>) {
    stray || (!started && EndsBeforeStart(ps))
  }

  // ----- The firmware's machine

  datatype State = Begin | CheckMid | Invalid | NonRealtime | Vendor

  class Reassembler {
    var state: State
    var isReading: bool
    // `sysex_ptr` as a data address; 0 is the null pointer it starts with.
    var ptr: int
    const bufferStart: int
    const buffer: array<byte>
    var commands: CommandMap

    ghost var collector: Collector
    ghost var started: bool        // some start packet has been seen
    ghost var stray: bool          // some byte was stored outside the buffer

    function BufferEnd(): int {
      bufferStart + MAX_SYSEX
    }

    ghost predicate Valid()
      reads this, buffer
    {
      && bufferStart > 0
      && buffer.Length == MAX_SYSEX
      && 0 <= ptr < BufferEnd()
      && (started ==> bufferStart <= ptr)
      && (isReading ==> started && collector.Reading? && Represents(state, Kept(), collector.bytes))
      && (!isReading ==> collector.Idle? && state == Begin)
      && (!started && !stray ==> ptr == 0)
    }

    /** The bytes stored so far. */
    ghost function Kept(): seq<byte>
      requires buffer.Length == MAX_SYSEX && bufferStart <= ptr < BufferEnd()
      reads this, buffer
    {
      buffer[..ptr - bufferStart]
    }

    constructor (bufferStart: int)
      requires bufferStart > 0
      ensures Valid() && fresh(buffer)
      ensures collector == Idle && !started && !stray
      ensures commands == seq(MAX_COMMAND, _ => None)
    {
      this.bufferStart := bufferStart;
      buffer := new byte[MAX_SYSEX];
      state, isReading, ptr := Begin, false, 0;
      commands := seq(MAX_COMMAND, _ => None);
      collector, started, stray := Idle, false, false;
    }

    /** `sysex_install_`. */
    method Install(command: byte, handler: Handler)
      requires Valid()
      modifies this`commands
      ensures Valid()
      ensures commands ==
              if 1 <= command <= MAX_COMMAND then old(commands)[command - 1 := Some(handler)] else old(commands)
    {
      if command > 0 && command <= MAX_COMMAND {
        commands := commands[command - 1 := Some(handler)];
      }
    }

    /** The bounds check and the stores `*sysex_ptr++ = ...` that every handler makes. */
    method Append(data: seq<byte>) returns (fits: bool)
      requires buffer.Length == MAX_SYSEX && 0 <= ptr < BufferEnd() && data != []
      modifies this`ptr, this`stray, buffer
      ensures fits == (old(ptr) + |data| < BufferEnd())
      ensures ptr == if fits then old(ptr) + |data| else old(ptr)
      ensures stray == (old(stray) || (fits && old(ptr) < bufferStart))
      ensures bufferStart <= old(ptr) ==> Kept() == if fits then old(Kept()) + data else old(Kept())
    {
      fits := ptr + |data| < BufferEnd();
      if fits {
        for i := 0 to |data|
          invariant ptr == old(ptr) + i
          invariant stray == (old(stray) || (i > 0 && old(ptr) < bufferStart))
          invariant bufferStart <= old(ptr) ==> Kept() == old(Kept()) + data[..i]
        {
          if bufferStart <= ptr {
            buffer[ptr - bufferStart] := data[i];
          } else {
            stray := true;
          }
          ptr := ptr + 1;
        }
      }
    }

    /** `sysex_handle` on the first `length` bytes of the buffer. */
    method Handle(length: byte) returns (event: Option<Event>)
      requires buffer.Length == MAX_SYSEX
      requires state in {Vendor, NonRealtime} ==> length <= MAX_SYSEX
      ensures event == Verdict(state, if length <= MAX_SYSEX then buffer[..length] else [], commands)
    {
      event := None;
      if state == Vendor && length > 0 {
        var command := buffer[0];
        if command > 0 && command <= MAX_COMMAND && commands[command - 1].Some? {
          assert buffer[..length][1..] == buffer[1..length];
          event := Some(Run(commands[command - 1].value, buffer[1..length]));
        }
      } else if state == NonRealtime {
        if length >= 2 && buffer[0] == 0x06 && buffer[1] == 0x01 {
          event := Some(SendIdentity);
        }
      }
    }

    /** Store the last bytes of a message if they fit, and judge the buffer. */
    method AppendAndHandle(data: seq<byte>) returns (event: Option<Event>)
      requires buffer.Length == MAX_SYSEX && 0 <= ptr < BufferEnd() && data != []
      requires ptr < bufferStart ==> state == Begin
      modifies this`ptr, this`stray, buffer
      ensures old(ptr) <= ptr < BufferEnd()
      ensures stray == (old(stray) || (old(ptr) + |data| < BufferEnd() && old(ptr) < bufferStart))
      ensures old(ptr) < bufferStart ==> event == None
      ensures bufferStart <= old(ptr) ==>
                event ==
                if |old(Kept())| + |data| < MAX_SYSEX then Verdict(state, old(Kept()) + data, commands) else None
    {
      event := None;
      var fits := Append(data);
      if fits {
        event := Handle(Low8(ptr - bufferStart));
      }
    }

    /** `sysex_handle_3sc`. */
    method StartOrContinue(p: Packet)
      requires Valid() && Cin(p) == CIN_SYSEX_CONTINUES
      modifies this`state, this`isReading, this`ptr, this`collector, this`started, this`stray, buffer
      ensures Valid() && started && stray == old(stray)
      ensures collector == CollectNext(old(collector), p)
    {
      if isReading {
        ContinueRepresents(state, Kept(), collector.bytes, p);
      }
      collector := CollectNext(collector, p);
      if !isReading {
        isReading, started := true, true;
        ptr := bufferStart;
        if p.d1 == 0xF0 && p.d2 == 0x7E && (p.d3 == SYSEX_CHANNEL || p.d3 == 0x7F) {
          state := NonRealtime;
        } else if p.d1 == 0xF0 && p.d2 == 0x00 && p.d3 == 0x01 {
          state := CheckMid;
        } else {
          state := Invalid;
        }
      } else if state == CheckMid {
        var fits := p.d1 == MFR_ID_2;
        if fits {
          fits := Append([p.d2, p.d3]);
        }
        state := if fits then Vendor else Invalid;
      } else {
        if state == Invalid {
          return;
        }
        var fits := Append([p.d1, p.d2, p.d3]);
        if !fits {
          state := Invalid;
        }
      }
    }

    /** The body of `sysex_handle_3e`, from the state and the buffer alone. */
    method EndBytes(p: Packet) returns (event: Option<Event>)
      requires buffer.Length == MAX_SYSEX && 0 <= ptr < BufferEnd()
      requires ptr < bufferStart ==> state == Begin
      requires state == CheckMid ==> Kept() == []
      modifies this`state, this`ptr, this`stray, buffer
      ensures state == Begin && old(ptr) <= ptr < BufferEnd()
      ensures old(ptr) < bufferStart ==> event == None && stray == (old(stray) || old(ptr) + 3 < BufferEnd())
      ensures bufferStart <= old(ptr) ==>
                stray == old(stray) && event == Concluded(old(state), old(Kept()), [p.d1, p.d2, p.d3], commands)
    {
      event := None;
      if state == CheckMid {
        if p.d1 == MFR_ID_2 {
          assert [] + [p.d2, p.d3] == [p.d1, p.d2, p.d3][1..];
          state := Vendor;
          event := AppendAndHandle([p.d2, p.d3]);
        }
      } else if state != Invalid {
        event := AppendAndHandle([p.d1, p.d2, p.d3]);
      }
      state := Begin;
    }

    /** `sysex_handle_3e`, which does not look at `sysex_is_reading`. */
    method EndWith3(p: Packet) returns (event: Option<Event>)
      requires Valid() && Cin(p) == CIN_SYSEX_ENDS_3
      modifies this`state, this`isReading, this`ptr, this`collector, this`stray, buffer
      ensures Valid() && collector == CollectNext(old(collector), p)
      ensures event == JudgeCompleted(Completed(old(collector), p), commands)
      ensures stray == (old(stray) || !started)
    {
      if isReading {
        EndMatches(state, Kept(), collector.bytes, [p.d1, p.d2, p.d3], commands);
      }
      collector := CollectNext(collector, p);
      isReading := false;
      event := EndBytes(p);
    }

    /** `sysex_handle_2e`. */
    method EndWith2(p: Packet) returns (event: Option<Event>)
      requires Valid() && Cin(p) == CIN_SYSEX_ENDS_2
      modifies this`state, this`isReading, this`ptr, this`collector, this`stray, buffer
      ensures Valid() && collector == CollectNext(old(collector), p)
      ensures event == JudgeCompleted(Completed(old(collector), p), commands)
      ensures stray == old(stray)
    {
      event := None;
      if isReading {
        event := Finish([p.d1, p.d2]);
      }
      collector := CollectNext(collector, p);
    }

    /** `sysex_handle_1e`: the end of a message, or a System Common message while none is being read. */
    method EndWith1(p: Packet) returns (event: Option<Event>)
      requires Valid() && Cin(p) == CIN_SYSEX_ENDS_1
      modifies this`state, this`isReading, this`ptr, this`collector, this`stray, buffer
      ensures Valid() && collector == CollectNext(old(collector), p)
      ensures event == JudgeCompleted(Completed(old(collector), p), commands)
      ensures stray == old(stray)
    {
      event := None;
      if isReading {
        event := Finish([p.d1]);
      }
      collector := CollectNext(collector, p);
    }

    /** The common body of the one- and two-byte end handlers. */
    method Finish(data: seq<byte>) returns (event: Option<Event>)
      requires Valid() && isReading && 1 <= |data| <= 2
      modifies this`state, this`isReading, this`ptr, this`collector, this`stray, buffer
      ensures Valid() && collector == Idle
      ensures event == Judge(old(collector).bytes + data, commands)
      ensures stray == old(stray)
    {
      event := None;
      EndMatches(state, Kept(), collector.bytes, data, commands);
      collector := Idle;
      isReading := false;
      if state != Invalid {
        event := AppendAndHandle(data);
      }
      state := Begin;
    }

    /** The SysEx cases of the packet switch in `Midifighter_GetIncomingUsbMidiMessages`. */
    method Dispatch(p: Packet) returns (event: Option<Event>)
      requires Valid()
      modifies this`state, this`isReading, this`ptr, this`collector, this`started, this`stray, buffer
      ensures Valid() && collector == CollectNext(old(collector), p)
      ensures event == JudgeCompleted(Completed(old(collector), p), commands)
      ensures started == (old(started) || Cin(p) == CIN_SYSEX_CONTINUES)
      ensures stray == (old(stray) || (Cin(p) == CIN_SYSEX_ENDS_3 && !old(started)))
    {
      event := None;
      var cin := Cin(p);
      if cin == 0x4 {
        StartOrContinue(p);
      } else if cin == 0x5 {
        event := EndWith1(p);
      } else if cin == 0x6 {
        event := EndWith2(p);
      } else if cin == 0x7 {
        event := EndWith3(p);
      }
    }

    /** The receive loop over a run of packets. Nothing is promised after a stray store. */
    method Receive(ps: seq<Packet>) returns (events: seq<Event>)
      requires Valid()
      modifies this`state, this`isReading, this`ptr, this`collector, this`started, this`stray, buffer
      ensures stray == StoresAstray(old(stray), old(started), ps)
      ensures !stray ==>
                && Valid() && collector == CollectAll(old(collector), ps)
                && events == Events(Messages(old(collector), ps), commands)
    {
      events := [];
      ghost var ms: seq<seq<byte>> := [];
      for i := 0 to |ps|
        invariant Valid()
        invariant CollectAll(old(collector), ps) == CollectAll(collector, ps[i..])
        invariant Messages(old(collector), ps) == ms + Messages(collector, ps[i..])
        invariant events == Events(ms, commands)
        invariant StoresAstray(old(stray), old(started), ps) == StoresAstray(stray, started, ps[i..])
      {
        ghost var done := Completed(collector, ps[i]);
        CollectStep(collector, ps, i, ms);
        AstrayStep(stray, started, ps, i);
        EventsOfNext(ms, done, commands);
        ms := ms + ToSeq(done);
        var event := Dispatch(ps[i]);
        events := events + ToSeq(event);
      }
      assert ps[|ps|..] == [] && ms + [] == ms;
    }
  }

  // ----- The buffer's verdict and the message's

  /** What `sysex_handle` decides from the state and the kept bytes alone. */
  function Verdict(state: State, kept: seq<byte>, commands: CommandMap): Option<Event> {
    if state == Vendor && kept != [] && 1 <= kept[0] <= MAX_COMMAND && commands[kept[0] - 1].Some? then
      Some(Run(commands[kept[0] - 1].value, kept[1..]))
    else if state == NonRealtime && |kept| >= 2 && kept[0] == 0x06 && kept[1] == 0x01 then
      Some(SendIdentity)
    else
      None
  }

  function JudgeCompleted(m: Option<seq<byte>>, commands: CommandMap): Option<Event> {
    match m
    case None => None
    case Some(bytes) => Judge(bytes, commands)
  }

  lemma EventsOfNext(ms: seq<seq<byte>>, m: Option<seq<byte>>, commands: CommandMap)
    ensures Events(ms + ToSeq(m), commands) == Events(ms, commands) + ToSeq(JudgeCompleted(m, commands))
  {
    if m.None? {
      assert ms + ToSeq(m) == ms;
    } else {
      assert (ms + [m.value])[..|ms|] == ms;
    }
  }

  /** How the state and the kept bytes represent the message read so far. */
  ghost predicate Represents(state: State, kept: seq<byte>, m: seq<byte>) {
    && |m| >= 3 && |m| % 3 == 0
    && match state
       case NonRealtime => IsNonRealtime(m) && kept == m[3..]
       case CheckMid => HasVendorPrefix(m) && |m| == 3 && kept == []
       case Vendor => IsVendor(m) && |m| >= 6 && kept == m[4..]
       case Invalid =>
         && (IsNonRealtime(m) ==> |m| > 66)
         && (HasVendorPrefix(m) ==> |m| > 3)
         && (IsVendor(m) ==> |m| > 67)
       case Begin => false
  }

  /** One more start-or-continue packet. */
  lemma ContinueRepresents(state: State, kept: seq<byte>, m: seq<byte>, p: Packet)
    requires Represents(state, kept, m)
    ensures var m' := m + [p.d1, p.d2, p.d3];
            match state
            case CheckMid =>
              if p.d1 == MFR_ID_2 then Represents(Vendor, [p.d2, p.d3], m') else Represents(Invalid, kept, m')
            case Invalid => Represents(Invalid, kept, m')
            case _ => Represents(if |kept| + 3 < MAX_SYSEX then state else Invalid,
                                 if |kept| + 3 < MAX_SYSEX then kept + [p.d1, p.d2, p.d3] else kept, m')
  {
  }

  /** What the end handlers decide from the state, the kept bytes and the last ones. */
  function Concluded(state: State, kept: seq<byte>, data: seq<byte>, commands: CommandMap): Option<Event> {
    match state
    case CheckMid => if |data| == 3 && data[0] == MFR_ID_2 then Verdict(Vendor, data[1..], commands) else None
    case _ => if |kept| + |data| < MAX_SYSEX then Verdict(state, kept + data, commands) else None
  }

  /** An end packet: what the firmware decides is what the whole message deserves. */
  lemma EndMatches(state: State, kept: seq<byte>, m: seq<byte>, data: seq<byte>, commands: CommandMap)
    requires Represents(state, kept, m) && 1 <= |data| <= 3
    ensures Judge(m + data, commands) == Concluded(state, kept, data, commands)
  {
    var whole := m + data;
    match state
    case CheckMid =>
      if |data| == 3 {
        assert whole[5..] == data[1..][1..];
      }
    case Vendor =>
      assert whole[5..] == (kept + data)[1..];
    case NonRealtime =>
      assert whole[3..] == kept + data;
    case Invalid =>
  }
}
