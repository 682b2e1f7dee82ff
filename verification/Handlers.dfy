/**
 The command handlers of config.c as the firmware runs them: loops over the message
 buffer that update the globals in place, proved against the functions of `Config`.
 */
module Handlers {
  import opened Bytes
  import opened UsbMidi
  import opened SysEx
  import opened Palette
  import opened Eeprom
  import opened Config

  /** The copy loop of the push branch of `sysExCmdBulkXfer`. */
  method StoreDoubled(table: array<byte>, start: nat, data: seq<byte>)
    requires table.Length == TABLE_BYTES && start + |data| <= TABLE_BYTES
    modifies table
    ensures table[..] == Overwritten(old(table[..]), start, Doubled(data))
  {
    ghost var before, doubled := table[..], Doubled(data);
    for idx := 0 to |data|
      invariant table[..] == before[..start] + doubled[..idx] + before[start + idx..]
    {
      table[start + idx] := FromSysEx(data[idx]);
      assert table[start + idx] == doubled[idx];
    }
  }

  /** The push branch of `sysExCmdBulkXfer`: double the payload into its window, then adjust for power. */
  method PushPart(table: array<byte>, part: byte, data: seq<byte>)
    requires table.Length == TABLE_BYTES && 1 <= part <= NUM_PARTS && PushFits(part, |data|)
    modifies table
    ensures table[..] == Pushed(old(table[..]), part, data, Adjusted)
  {
    var bank, offset := (part - 1) / 8, (part - 1) % 8 * 24;
    var start := BANK_BYTES * bank + offset;
    assert start == PartStart(part);
    StoreDoubled(table, start, data);
    MapTriples(table, start, |data|, Adjusted);
  }

  /** The inner loop of the pull branch: the data bytes of one part, scaled into the payload. */
  method ScalePart(table: array<byte>, first: nat, size: nat, payload: array<byte>)
    requires table.Length == TABLE_BYTES && first + size <= TABLE_BYTES
    requires 10 + size <= payload.Length && payload != table
    modifies payload
    ensures payload[..] == old(payload[..10]) +
              seq(size, i requires 0 <= i < size => ToSysEx(old(table[first + i]))) + old(payload[10 + size..])
  {
    ghost var before := payload[..];
    var index := first;
    for idx := 10 to size + 10
      invariant index == first + idx - 10
      invariant forall j :: 10 <= j < idx ==> payload[j] == ToSysEx(table[first + j - 10])
      invariant forall j :: 0 <= j < payload.Length && !(10 <= j < idx) ==> payload[j] == before[j]
    {
      payload[idx] := ToSysEx(table[index]);
      index := index + 1;
    }
  }

  /** The message of one part, with room for its data. */
  method FramePart(tag: byte, part: byte) returns (payload: array<byte>)
    ensures fresh(payload) && payload.Length == 35
    ensures payload[..10] == VENDOR_HEADER + [COMMAND_BULK_XFER, 0, tag, part, NUM_PARTS, PART_BYTES]
    ensures payload[34..] == [0xF7]
  {
    payload := new byte[35](_ => 0xF7);
    payload[0], payload[1], payload[2], payload[3] := 0xF0, 0x00, 0x01, 0x79;
    payload[4], payload[5], payload[6] := COMMAND_BULK_XFER, 0, tag;
    payload[7], payload[8], payload[9] := part, NUM_PARTS, PART_BYTES;
  }

  /** The 35-byte message of one part. */
  method BuildPart(table: array<byte>, tag: byte, part: byte, first: nat) returns (payload: array<byte>)
    requires table.Length == TABLE_BYTES && 1 <= part <= NUM_PARTS && first == PartStart(part)
    ensures fresh(payload) && payload[..] == PullMessage(table[..], tag, part)
  {
    payload := FramePart(tag, part);
    ScalePart(table, first, PART_BYTES, payload);
  }

  /** The pull branch of `sysExCmdBulkXfer`. */
  method PullTable(table: array<byte>, tag: byte) returns (sent: seq<Packet>)
    requires table.Length == TABLE_BYTES
    ensures sent == PulledFrom(table[..], tag, 1)
  {
    sent := [];
    var index := 0;
    for part := 1 to NUM_PARTS + 1
      invariant index == PartStart(part)
      invariant PulledFrom(table[..], tag, 1) == sent + PulledFrom(table[..], tag, part)
    {
      var payload := BuildPart(table, tag, part, index);
      var packets := StreamSysex(payload[..]);
      sent := sent + packets;
      index := index + PART_BYTES;
    }
  }

  /** How a handler ends: it returns, it writes past the end of a table, or it jumps to the bootloader. */
  datatype End = Finished | Strayed | Jumped

  /** The handler has ended as the outcome says; what a stray write leaves behind is not said. */
  ghost predicate Agrees(o: Outcome, end: End, d: Device, sent: seq<Packet>) {
    match o
    case Done(_, _) => end == Finished && o == Done(d, sent)
    case OutOfBounds => end == Strayed
    case Bootloader => end == Jumped
  }

  /** The push branch of `sysExCmdBulkXfer`. */
  method RunBulkPush(g: Globals, payload: seq<byte>) returns (end: End)
    requires g.Valid() && 5 < |payload| <= 62 && payload[0] == 0
    modifies g.idle, g.active
    ensures Agrees(Bulk(old(g.Value()), payload), end, g.Value(), [])
  {
    end := Finished;
    var tag := payload[1];
    if tag == 0 {
      return;
    }
    var part := payload[2];
    if part == 0 {
      return;
    }
    var size := payload[4];
    if size > |payload| - 5 {
      return;
    }
    if part > NUM_PARTS {
      return;
    }
    if 1 <= tag <= 2 && !PushFits(part, size) {
      return Strayed; // the source does not look
    }
    if tag == 1 {
      PushPart(g.idle, part, payload[5..5 + size]);
    } else if tag == 2 {
      PushPart(g.active, part, payload[5..5 + size]);
    }
  }

  /** `sysExCmdBulkXfer`, for the message lengths that the reassembler delivers. */
  method RunBulk(g: Globals, payload: seq<byte>) returns (end: End, sent: seq<Packet>)
    requires g.Valid() && |payload| <= 62
    modifies g.idle, g.active
    ensures Agrees(Bulk(old(g.Value()), payload), end, g.Value(), sent)
  {
    end, sent := Finished, [];
    if |payload| > 2 {
      var command, tag := payload[0], payload[1];
      if command == 0 {
        if |payload| > 5 {
          end := RunBulkPush(g, payload);
        }
      } else if command == 1 {
        if tag == 1 {
          sent := PullTable(g.idle, tag);
        } else if tag == 2 {
          sent := PullTable(g.active, tag);
        }
      }
    }
  }

  /** `tv_table_decode`. */
  method DecodeInto(table: array<byte>, buffer: seq<byte>)
    requires table.Length == TV_TABLE_SIZE && |buffer| < 256
    modifies table
    ensures table[..] == Decoded(old(table[..]), buffer)
  {
    var idx := 0;
    while idx < |buffer| - 1
      invariant 0 <= idx <= |buffer|
      invariant Decoded(old(table[..]), buffer) == Decoded(table[..], buffer[idx..])
    {
      ghost var t := table[..];
      var tag := buffer[idx];
      idx := idx + 1;
      if tag < TV_TABLE_SIZE {
        table[tag] := buffer[idx];
        assert table[..] == t[tag := buffer[idx]];
      }
      idx := idx + 1;
      assert buffer[idx - 2..][2..] == buffer[idx..];
    }
  }

  /** `sysExCmdPushConfig`. */
  method RunPush(g: Globals, payload: seq<byte>) returns (sent: seq<Packet>)
    requires g.Valid() && |payload| < 256
    modifies g, g.idle, g.active, g.eeprom
    ensures Push(old(g.Value()), payload) == Done(g.Value(), sent)
  {
    var previous := g.settings.sideBank;
    var config := new byte[TV_TABLE_SIZE](_ => 0);
    assert config[..] == ZEROES;
    DecodeInto(config, payload);
    var c := config[..];
    g.settings := SettingsFrom(c, g.settings);
    if g.settings.sideBank != previous {
      if g.settings.sideBank == 0 {
        g.bank := 0;
      }
    }
    assert g.Value() == Assigned(old(g.Value()), payload);
    g.SaveAll();
    sent := StreamSysex(ConfigMessage(g.settings));
    g.Load();
  }

  /** The command map's handlers and the identity reply. */
  method RunEvent(g: Globals, e: Event) returns (end: End, sent: seq<Packet>)
    requires g.Valid() && (e.Run? ==> |e.payload| <= 62)
    modifies g, g.idle, g.active, g.eeprom
    ensures Agrees(React(old(g.Value()), e), end, g.Value(), sent)
  {
    end, sent := Finished, [];
    match e
    case SendIdentity =>
      sent := StreamSysex(IDENTITY_REPLY);
    case Run(BulkXfer, payload) =>
      end, sent := RunBulk(g, payload);
    case Run(PushConfig, payload) =>
      sent := RunPush(g, payload);
    case Run(PullConfig, payload) =>
      if |payload| > 0 && payload[0] == 0 {
        sent := StreamSysex(ConfigMessage(g.settings));
      }
    case Run(System, payload) =>
      if |payload| > 0 {
        if payload[0] == 1 {
          end := Jumped;
        } else if payload[0] == 2 {
          g.Reset();
          sent := StreamSysex(ConfigMessage(g.settings));
        }
      }
  }

  /** What one packet makes the device send: reassembly, judgement, and the handler's effect on the globals. */
  method RunPacket(r: Reassembler, g: Globals, p: Packet) returns (end: End, sent: seq<Packet>)
    requires r.Valid() && g.Valid() && r.commands == COMMANDS
    requires r.buffer != g.idle && r.buffer != g.active && r.buffer != g.eeprom
    modifies r, r.buffer, g, g.idle, g.active, g.eeprom
    ensures r.Valid() && r.commands == COMMANDS && r.collector == CollectNext(old(r.collector), p)
    ensures r.started == (old(r.started) || Cin(p) == CIN_SYSEX_CONTINUES)
    ensures r.stray == (old(r.stray) || (Cin(p) == CIN_SYSEX_ENDS_3 && !old(r.started)))
    ensures Agrees(
              HandleAll(HandleMessage, old(g.Value()), old(ToSeq(Completed(r.collector, p)))), end, g.Value(), sent)
  {
    end, sent := Finished, [];
    ghost var completed := Completed(r.collector, p);
    var event := r.Dispatch(p);
    if completed.Some? {
      HandleOne(HandleMessage, g.Value(), completed.value);
    }
    if event.Some? {
      end, sent := RunEvent(g, event.value);
    }
  }

  /** The receive loop over a run of packets, from an idle reassembler, unless it stores a byte astray. */
  method RunDevice(r: Reassembler, g: Globals, ps: seq<Packet>) returns (end: End, sent: seq<Packet>)
    requires r.Valid() && g.Valid() && r.commands == COMMANDS && r.collector == Idle
    requires r.buffer != g.idle && r.buffer != g.active && r.buffer != g.eeprom
    modifies r, r.buffer, g, g.idle, g.active, g.eeprom
    ensures end == Finished ==> r.stray == StoresAstray(old(r.stray), old(r.started), ps)
    ensures !r.stray ==>
              && r.Valid() && (end == Finished ==> r.collector == CollectAll(Idle, ps))
              && Agrees(Receive(old(g.Value()), ps), end, g.Value(), sent)
  {
    end, sent := Finished, [];
    ghost var target := Receive(g.Value(), ps);
    for i := 0 to |ps|
      invariant r.Valid() && r.commands == COMMANDS && end == Finished
      invariant CollectAll(Idle, ps) == CollectAll(r.collector, ps[i..])
      invariant StoresAstray(old(r.stray), old(r.started), ps) == StoresAstray(r.stray, r.started, ps[i..])
      invariant target == After(sent, HandleAll(HandleMessage, g.Value(), Messages(r.collector, ps[i..])))
    {
      ghost var done := ToSeq(Completed(r.collector, ps[i]));
      ghost var later := Messages(CollectNext(r.collector, ps[i]), ps[i + 1..]);
      assert ps[i..][1..] == ps[i + 1..];
      AstrayStep(r.stray, r.started, ps, i);
      assert Messages(r.collector, ps[i..]) == done + later;
      HandleFirst(HandleMessage, g.Value(), done, later, sent);
      var out;
      end, out := RunPacket(r, g, ps[i]);
      if end != Finished {
        return;
      }
      sent := sent + out;
    }
    assert sent + [] == sent;
  }
}
