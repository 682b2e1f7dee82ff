/**
 The SysEx command handlers of config.c: settings push and pull, the system
 commands, and the bulk transfer of the colour tables.
 */
module Config {
  import opened Bytes
  import opened UsbMidi
  import opened SysEx
  import opened Palette
  import opened Eeprom

  const PART_BYTES := 24
  const NUM_PARTS := 16
  const TV_TABLE_SIZE := 24
  const VENDOR_HEADER: seq<byte> := [0xF0, 0x00, 0x01, 0x79]
  const COMMAND_PULL_CONF: byte := 2
  const COMMAND_BULK_XFER: byte := 4

  /** The handlers that `config_setup` installs. */
  const COMMANDS: CommandMap :=
    [Some(PushConfig), Some(PullConfig), Some(System), Some(BulkXfer), None, None, None, None]

  /** What handling a message leads to. `OutOfBounds` is a push that the C code would write past the end
      of its table; `Bootloader` is the jump that never returns. */
  datatype Outcome = Done(device: Device, sent: seq<Packet>) | OutOfBounds | Bootloader

  // ----- Bulk transfer

  function PartStart(part: nat): nat
    requires 1 <= part
  {
    PART_BYTES * (part - 1)
  }

  function Doubled(data: seq<byte>): seq<byte> {
    seq<byte>(|data|, i requires 0 <= i < |data| => FromSysEx(data[i]))
  }

  function Overwritten(t: Table, at: nat, data: seq<byte>): Table
    requires at + |data| <= TABLE_BYTES
  {
    t[..at] + data + t[at + |data|..]
  }

  predicate PushFits(part: nat, size: nat) {
    1 <= part && PartStart(part) + WholeTriples(size) <= TABLE_BYTES
  }

  /** A push stays inside its table exactly when it is no longer than the rest of the table; every size
      the protocol allows, up to 24, does. */
  lemma PushFitsExactly(part: nat, size: nat)
    requires 1 <= part <= NUM_PARTS
    ensures PushFits(part, size) <==> size <= TABLE_BYTES - PartStart(part)
    ensures size <= PART_BYTES ==> PushFits(part, size)
  {
  }

  /** A table after the data of one part has been pushed into it; `adjust` is the power adjustment. */
  function Pushed(t: Table, part: nat, data: seq<byte>, adjust: Rgb -> Rgb): Table
    requires PushFits(part, |data|)
  {
    var at := PartStart(part);
    Mapped(Overwritten(t, at, Doubled(data)), at, at + |data|, adjust)
  }

  /** The bytes of one part as they are sent. */
  function PartData(t: Table, part: nat): seq<byte>
    requires 1 <= part <= NUM_PARTS
  {
    seq<byte>(PART_BYTES, i requires 0 <= i < PART_BYTES => ToSysEx(t[PartStart(part) + i]))
  }

  function PullMessage(t: Table, tag: byte, part: nat): (m: seq<byte>)
    requires 1 <= part <= NUM_PARTS
    ensures |m| == 35
  {
    VENDOR_HEADER + [COMMAND_BULK_XFER, 0, tag, part, NUM_PARTS, PART_BYTES] + PartData(t, part) + [0xF7]
  }

  /** The packets of the parts from `part` on. */
  function PulledFrom(t: Table, tag: byte, part: nat): seq<Packet>
    requires 1 <= part <= NUM_PARTS + 1
    decreases |t|, NUM_PARTS + 1 - part
  {
    if part > NUM_PARTS then [] else Packetize(PullMessage(t, tag, part)) + PulledFrom(t, tag, part + 1)
  }

  /** `sysExCmdBulkXfer`. */
  function Bulk(d: Device, payload: seq<byte>): Outcome {
    if |payload| <= 2 then Done(d, [])
    else
      var tag := payload[1];
      if payload[0] == 0 then
        if |payload| <= 5 || tag == 0 then Done(d, [])
        else
          var part, size := payload[2], payload[4];
          if part == 0 || size > |payload| - 5 || part > NUM_PARTS || tag > 2 then Done(d, [])
          else if !PushFits(part, size) then OutOfBounds
          else
            var data := payload[5..5 + size];
            Done(if tag == 1 then d.(idle := Pushed(d.idle, part, data, Adjusted))
                 else d.(active := Pushed(d.active, part, data, Adjusted)), [])
      else if payload[0] == 1 && 1 <= tag <= 2 then
        Done(d, PulledFrom(if tag == 1 then d.idle else d.active, tag, 1))
      else Done(d, [])
  }

  /** A payload that makes the push loop run past the end of its table. */
  predicate OverrunsTable(payload: seq<byte>) {
    && |payload| > 5 && payload[0] == 0 && 1 <= payload[1] <= 2 && 1 <= payload[2] <= NUM_PARTS
    && payload[4] <= |payload| - 5 && payload[4] > TABLE_BYTES - PartStart(payload[2])
  }

  /** The bulk handler leaves its table on exactly those payloads. */
  lemma BulkStraysExactly(d: Device, payload: seq<byte>)
    ensures Bulk(d, payload).OutOfBounds? <==> OverrunsTable(payload)
  {
    if |payload| > 5 && 1 <= payload[2] <= NUM_PARTS {
      PushFitsExactly(payload[2], payload[4]);
    }
  }

  // ----- Settings

  /** `tv_table_decode`: tag/value pairs written into a table, unknown tags skipped. */
  function Decoded(table: seq<byte>, buffer: seq<byte>): (r: seq<byte>)
    requires |table| == TV_TABLE_SIZE
    ensures |r| == TV_TABLE_SIZE
    decreases |buffer|
  {
    if |buffer| < 2 then table
    else Decoded(if buffer[0] < TV_TABLE_SIZE then table[buffer[0] := buffer[1]] else table, buffer[2..])
  }

  const ZEROES: seq<byte> := [0, 0, 0, 0, 0, 0, 0, 0, 0, 0, 0, 0, 0, 0, 0, 0, 0, 0, 0, 0, 0, 0, 0, 0]

  function BitOr(a: nat, b: nat): nat {
    if a == 0 && b == 0 then 0
    else 2 * BitOr(a / 2, b / 2) + (if a % 2 == 1 || b % 2 == 1 then 1 else 0)
  }

  /** The settings that a decoded table assigns; the two pitch settings without a push tag are kept. */
  function SettingsFrom(c: seq<byte>, s: Settings): Settings
    requires |c| == TV_TABLE_SIZE
  {
    s.(channel := Low8(c[0] as int - 1), velocity := c[1], fourBanks := c[3], outputMode := c[7], combos := c[8],
       animations := c[10], tiltMask := Low8(BitOr(16 * (c[12] as int), c[11])), tiltMode := Low8(c[13] as int + 1),
       tiltSensitivity := c[14], tiltRange := c[16], pitchRange := c[17], tiltDeadzone := c[18],
       tiltAxis := c[20], pickSensitivity := c[21], sleepTime := c[22], sideBank := c[23])
  }

  const REPORTED_TAGS: seq<byte> := [0, 1, 3, 7, 8, 10, 11, 12, 13, 14, 15, 16, 17, 18, 19, 20, 21, 22, 23]

  /** The values reported for these tags, in the same order. */
  function ReportedValues(s: Settings): (v: seq<byte>)
    ensures |v| == |REPORTED_TAGS|
  {
    [Low8(s.channel as int + 1), s.velocity, s.fourBanks, s.outputMode, s.combos, s.animations,
     s.tiltMask % 4, s.tiltMask / 16, Low8(s.tiltMode as int - 1), s.tiltSensitivity, s.pitchSensitivity,
     s.tiltRange, s.pitchRange, s.tiltDeadzone, s.pitchDeadzone, s.tiltAxis, s.pickSensitivity,
     s.sleepTime, s.sideBank]
  }

  /** Tags and values alternating. */
  function Pairs(tags: seq<byte>, values: seq<byte>): seq<byte>
    requires |tags| == |values|
  {
    seq<byte>(2 * |tags|, i requires 0 <= i < 2 * |tags| => if i % 2 == 0 then tags[i / 2] else values[i / 2])
  }

  /** The response that `send_config_data` builds. */
  function ConfigMessage(s: Settings): (m: seq<byte>)
    ensures |m| == 45
  {
    VENDOR_HEADER + [COMMAND_PULL_CONF, 0x1] + Pairs(REPORTED_TAGS, ReportedValues(s)) + [0xF7]
  }

  /** The settings and bank that a push assigns, before they are saved. */
  function Assigned(d: Device, payload: seq<byte>): Device {
    var s := SettingsFrom(Decoded(ZEROES, payload), d.settings);
    d.(settings := s, bank := if s.sideBank != d.settings.sideBank && s.sideBank == 0 then 0 else d.bank)
  }

  /** `sysExCmdPushConfig`: assign, save, report, and load back. */
  function Push(d: Device, payload: seq<byte>): Outcome {
    var saved := SaveEdits(Assigned(d, payload));
    Done(Setup(saved), Packetize(ConfigMessage(saved.settings)))
  }

  /** `sysExCmdPullConfig`. */
  function Pull(d: Device, payload: seq<byte>): Outcome {
    Done(d, if |payload| > 0 && payload[0] == 0 then Packetize(ConfigMessage(d.settings)) else [])
  }

  /** `sysExCmdSystem`. */
  function SystemCommand(d: Device, payload: seq<byte>): Outcome {
    if |payload| == 0 then Done(d, [])
    else if payload[0] == 1 then Bootloader
    else if payload[0] == 2 then Done(FactoryReset(d), Packetize(ConfigMessage(FACTORY_SETTINGS)))
    else Done(d, [])
  }

  const IDENTITY_REPLY: seq<byte> :=
    [0xF0, 0x7E, 0x7F, 0x06, 0x02, 0x00, 0x01, 0x79, 0x06, 0x00, 0x01, 0x00, 0x20, 0x17, 0x07, 0x24, 0xF7]

  function React(d: Device, e: Event): Outcome {
    match e
    case SendIdentity => Done(d, Packetize(IDENTITY_REPLY))
    case Run(PushConfig, payload) => Push(d, payload)
    case Run(PullConfig, payload) => Pull(d, payload)
    case Run(System, payload) => SystemCommand(d, payload)
    case Run(BulkXfer, payload) => Bulk(d, payload)
  }

  /** What one complete message makes the device do. */
  function HandleMessage(d: Device, m: seq<byte>): Outcome {
    match Judge(m, COMMANDS)
    case None => Done(d, [])
    case Some(e) => React(d, e)
  }

  /** The device after it has handled a run of messages, and everything it sent meanwhile. */
  function HandleAll(handle: (Device, seq<byte>) -> Outcome, d: Device, ms: seq<seq<byte>>): Outcome
    decreases ms
  {
    if ms == [] then Done(d, [])
    else
      match handle(d, ms[0])
      case Done(d', sent) =>
        (match HandleAll(handle, d', ms[1..])
         case Done(d'', sent') => Done(d'', sent + sent')
         case other => other)
      case other => other
  }

  /** The device after it has received a run of packets while idle. */
  function Receive(d: Device, ps: seq<Packet>): Outcome {
    HandleAll(HandleMessage, d, Messages(Idle, ps))
  }

  /** A message of at least four bytes, sent in packets to an idle device, is handled as that message. */
  lemma ReceiveMessage(d: Device, m: seq<byte>)
    requires |m| >= 4
    ensures Receive(d, Packetize(m)) == HandleMessage(d, m)
  {
    PacketizeRoundTrip(m);
    HandleOne(HandleMessage, d, m);
  }

  lemma HandleOne(handle: (Device, seq<byte>) -> Outcome, d: Device, m: seq<byte>)
    ensures HandleAll(handle, d, [m]) == handle(d, m)
  {
    var ms: seq<seq<byte>> := [m];
    assert ms[1..] == [];
    if handle(d, m).Done? {
      assert handle(d, m).sent + [] == handle(d, m).sent;
    }
  }

  /** Handling a run of messages can be split anywhere. */
  lemma {:induction false} HandleConcat(
    handle: (Device, seq<byte>) -> Outcome, d: Device, ms: seq<seq<byte>>, more: seq<seq<byte>>)
    ensures HandleAll(handle, d, ms + more) ==
            match HandleAll(handle, d, ms)
            case Done(d', sent) =>
              (match HandleAll(handle, d', more)
               case Done(d'', sent') => Done(d'', sent + sent')
               case other => other)
            case other => other
    decreases ms
  {
    if ms == [] {
      assert ms + more == more;
      if HandleAll(handle, d, more).Done? {
        assert [] + HandleAll(handle, d, more).sent == HandleAll(handle, d, more).sent;
      }
    } else {
      assert (ms + more)[1..] == ms[1..] + more;
      if handle(d, ms[0]).Done? {
        HandleConcat(handle, handle(d, ms[0]).device, ms[1..], more);
      }
    }
  }

  /** An outcome that also sent `sent` first. */
  function After(sent: seq<Packet>, o: Outcome): Outcome {
    if o.Done? then o.(sent := sent + o.sent) else o
  }

  /** A run of messages after `sent`: the first messages, then the rest from where they left the device. */
  lemma HandleFirst(
    handle: (Device, seq<byte>) -> Outcome, d: Device, first: seq<seq<byte>>, rest: seq<seq<byte>>, sent: seq<Packet>)
    ensures var o := HandleAll(handle, d, first);
            After(sent, HandleAll(handle, d, first + rest)) ==
            if o.Done? then After(sent + o.sent, HandleAll(handle, o.device, rest)) else o
  {
    HandleConcat(handle, d, first, rest);
    var o := HandleAll(handle, d, first);
    if o.Done? {
      var o' := HandleAll(handle, o.device, rest);
      if o'.Done? {
        assert sent + (o.sent + o'.sent) == (sent + o.sent) + o'.sent;
      }
    }
  }

  // ----- Pushes past the end of a table

  /**
   Of all messages exactly these make the device write past a colour table: vendor messages of at most 67
   bytes with a bulk push whose size field is covered by the message and exceeds the rest of the table.
   */
  lemma MessageStraysExactly(d: Device, m: seq<byte>)
    ensures HandleMessage(d, m).OutOfBounds? <==>
            6 <= |m| <= 67 && IsVendor(m) && m[4] == COMMAND_BULK_XFER && OverrunsTable(m[5..])
  {
    if Judge(m, COMMANDS).Some? && Judge(m, COMMANDS).value.Run? {
      BulkStraysExactly(d, m[5..]);
    }
  }

  /** One byte more than the last part of the idle table holds. */
  function LongPush(data: seq<byte>): seq<byte> {
    VENDOR_HEADER + [COMMAND_BULK_XFER, 0, 1, NUM_PARTS, NUM_PARTS, PART_BYTES + 1] + data + [0xF7]
  }

  lemma LongPushStrays(data: seq<byte>)
    requires |data| == PART_BYTES + 1
    ensures |LongPush(data)| == 36 && IsVendor(LongPush(data))
    ensures LongPush(data)[4] == COMMAND_BULK_XFER && OverrunsTable(LongPush(data)[5..])
  {
    assert LongPush(data)[5..] == [0, 1, NUM_PARTS, NUM_PARTS, PART_BYTES + 1] + data + [0xF7];
  }

  /** Such a message, sent in packets, makes the device write past the table, whatever its data. */
  lemma StrayPush(d: Device, data: seq<byte>, m: seq<byte>)
    requires |data| == PART_BYTES + 1 && m == LongPush(data)
    ensures Receive(d, Packetize(m)).OutOfBounds?
  {
    LongPushStrays(data);
    ReceiveMessage(d, m);
    MessageStraysExactly(d, m);
  }
}
