/**
 Settings survive a push, the EEPROM, and a pull: what the pull response reports is
 what the last value of each tag in the push said.
 */
module SettingsLaws {
  import opened Bytes
  import opened UsbMidi
  import opened SysEx
  import opened Eeprom
  import opened Config

  // ----- Decoding is last-value-wins

  /** A tag with no complete pair keeps the table's value. */
  lemma {:induction false} DecodedAbsent(table: seq<byte>, buffer: seq<byte>, tag: nat)
    requires |table| == TV_TABLE_SIZE && tag < TV_TABLE_SIZE
    requires forall j {:trigger buffer[2 * j]} :: 0 <= j && 2 * j + 1 < |buffer| ==> buffer[2 * j] != tag
    ensures Decoded(table, buffer)[tag] == table[tag]
    decreases |buffer|
  {
    if |buffer| < 2 {
    } else {
      assert buffer[2 * 0] != tag;
      forall j | 0 <= j && 2 * j + 1 < |buffer[2..]|
        ensures buffer[2..][2 * j] != tag
      {
        assert buffer[2..][2 * j] == buffer[2 * (j + 1)];
      }
      DecodedAbsent(if buffer[0] < TV_TABLE_SIZE then table[buffer[0] := buffer[1]] else table, buffer[2..], tag);
    }
  }

  /** The last complete pair for a tag decides its value. */
  lemma {:induction false} DecodedLast(table: seq<byte>, buffer: seq<byte>, tag: nat, k: nat)
    requires |table| == TV_TABLE_SIZE && tag < TV_TABLE_SIZE
    requires 2 * k + 1 < |buffer| && buffer[2 * k] == tag
    requires forall j {:trigger buffer[2 * j]} :: k < j && 2 * j + 1 < |buffer| ==> buffer[2 * j] != tag
    ensures Decoded(table, buffer)[tag] == buffer[2 * k + 1]
    decreases |buffer|
  {
    var rest := buffer[2..];
    var table' := if buffer[0] < TV_TABLE_SIZE then table[buffer[0] := buffer[1]] else table;
    forall j | 0 <= j && 2 * j + 1 < |rest|
      ensures rest[2 * j] == buffer[2 * (j + 1)]
    {
    }
    if k == 0 {
      DecodedAbsent(table', rest, tag);
    } else {
      DecodedLast(table', rest, tag, k - 1);
    }
  }

  // ----- The pull response

  /** What a response reports, decoded the way the device decodes a push. */
  function Report(response: seq<byte>): seq<byte>
    requires |response| >= 6
  {
    Decoded(ZEROES, response[6..])
  }

  lemma TagsAreDistinct(j: nat, k: nat)
    requires j < |REPORTED_TAGS| && k < |REPORTED_TAGS| && j != k
    ensures REPORTED_TAGS[j] != REPORTED_TAGS[k] && REPORTED_TAGS[j] < TV_TABLE_SIZE
  {
  }

  lemma ReportedValue(s: Settings, k: nat)
    requires k < |REPORTED_TAGS|
    ensures |Report(ConfigMessage(s))| == TV_TABLE_SIZE && REPORTED_TAGS[k] < TV_TABLE_SIZE
    ensures Report(ConfigMessage(s))[REPORTED_TAGS[k]] == ReportedValues(s)[k]
  {
    ReportOfPairs(REPORTED_TAGS, ReportedValues(s), ConfigMessage(s)[..6], k);
    assert ConfigMessage(s) == ConfigMessage(s)[..6] + Pairs(REPORTED_TAGS, ReportedValues(s)) + [0xF7];
  }

  /** The value after the last occurrence of a tag is the one that is decoded. */
  lemma DecodedPair(tags: seq<byte>, values: seq<byte>, end: byte, k: nat)
    requires |values| == |tags| && k < |tags| && tags[k] < TV_TABLE_SIZE
    requires forall j :: k < j < |tags| ==> tags[j] != tags[k]
    ensures Decoded(ZEROES, Pairs(tags, values) + [end])[tags[k]] == values[k]
  {
    var buffer := Pairs(tags, values) + [end];
    assert buffer[2 * k] == tags[k] && buffer[2 * k + 1] == values[k];
    forall j | k < j && 2 * j + 1 < |buffer|
      ensures buffer[2 * j] != tags[k]
    {
      assert buffer[2 * j] == tags[j];
    }
    DecodedLast(ZEROES, buffer, tags[k], k);
  }

  lemma ReportOfPairs(tags: seq<byte>, values: seq<byte>, header: seq<byte>, k: nat)
    requires tags == REPORTED_TAGS && |values| == |tags| && |header| == 6 && k < |tags|
    ensures tags[k] < TV_TABLE_SIZE
    ensures Report(header + Pairs(tags, values) + [0xF7])[tags[k]] == values[k]
  {
    var response := header + Pairs(tags, values) + [0xF7];
    assert response[6..] == Pairs(tags, values) + [0xF7];
    forall j | k < j < |tags| ensures tags[j] != tags[k] {
      TagsAreDistinct(j, k);
    }
    TagsAreDistinct(k, if k == 0 then 1 else 0);
    DecodedPair(tags, values, 0xF7, k);
  }

  // ----- The tilt mask

  lemma BitOrDoubles(a: nat, b: nat)
    ensures BitOr(2 * a, b) == 2 * BitOr(a, b / 2) + b % 2
  {
  }

  lemma {:induction false} BitOrZero(a: nat)
    ensures BitOr(a, 0) == a
  {
    if a == 0 {
    } else {
      BitOrZero(a / 2);
    }
  }

  lemma BitOrQuadruples(a: nat, b: nat)
    ensures BitOr(4 * a, b) == 4 * BitOr(a, b / 4) + b % 4
  {
    BitOrDoubles(2 * a, b);
    BitOrDoubles(a, b / 2);
  }

  lemma BitOrSixteen(a: nat, b: nat)
    ensures BitOr(16 * a, b) == 16 * BitOr(a, b / 16) + b % 16
  {
    BitOrQuadruples(4 * a, b);
    BitOrQuadruples(a, b / 4);
    assert b / 4 / 4 == b / 16;
  }

  lemma NibbleArithmetic(high: nat, b: nat, mask: int)
    requires mask == 16 * high + b % 16
    ensures Low8(mask) % 4 == b % 4
    ensures Low8(mask) / 16 == high % 16
  {
    Low8Is(mask, high / 16, 16 * (high % 16) + b % 16);
    Nibbles(high % 16, b % 16);
    LowBits(b);
  }

  lemma Nibbles(high: nat, low: nat)
    requires low < 16
    ensures (16 * high + low) / 16 == high && (16 * high + low) % 4 == low % 4
  {
  }

  lemma LowBits(b: nat)
    ensures b % 16 % 4 == b % 4
  {
  }

  /** Tilt and rotation share one byte: the low nibble is rotation's, the high one holds both. */
  lemma TiltMask(tilt: byte, rotation: byte)
    ensures Low8(BitOr(16 * (tilt as int), rotation)) % 4 == rotation % 4
    ensures Low8(BitOr(16 * (tilt as int), rotation)) / 16 == BitOr(tilt, rotation / 16) % 16
  {
    BitOrSixteen(tilt, rotation);
    NibbleArithmetic(BitOr(tilt, rotation / 16), rotation, BitOr(16 * (tilt as int), rotation));
  }

  // ----- Push, save, load, pull

  /** The configuration push with the given tag/value bytes. */
  function PushMessage(pairs: seq<byte>): seq<byte> {
    VENDOR_HEADER + [1] + pairs + [0xF7]
  }

  const PULL_CONFIG: seq<byte> := VENDOR_HEADER + [COMMAND_PULL_CONF, 0, 0xF7]

  /** What the push decodes to: the end byte is part of what the handler is given. */
  function Requested(pairs: seq<byte>): seq<byte> {
    Decoded(ZEROES, pairs + [0xF7])
  }

  /** The value that should be reported for a tag after a push that decoded to `c`: its own value, but
      rotation has two bits, tilt shares its nibble with rotation's upper bits, and two tags are not pushed. */
  function Expected(c: seq<byte>, s: Settings, tag: nat): nat
    requires |c| == TV_TABLE_SIZE && tag < TV_TABLE_SIZE
  {
    if tag == 11 then c[11] % 4
    else if tag == 12 then BitOr(c[12], c[11] / 16) % 16
    else if tag == 15 then s.pitchSensitivity
    else if tag == 19 then s.pitchDeadzone
    else c[tag]
  }

  lemma ReportedSettings(s: Settings, c: seq<byte>)
    requires |c| == TV_TABLE_SIZE
    ensures ReportedValues(SettingsFrom(c, s)) == [
      c[0], c[1], c[3], c[7], c[8], c[10], Expected(c, s, 11), Expected(c, s, 12), c[13], c[14],
      s.pitchSensitivity, c[16], c[17], c[18], s.pitchDeadzone, c[20], c[21], c[22], c[23]]
  {
    TiltMask(c[12], c[11]);
  }

  lemma ReportedAfterAssign(s: Settings, c: seq<byte>, k: nat)
    requires |c| == TV_TABLE_SIZE && k < |REPORTED_TAGS|
    ensures REPORTED_TAGS[k] < TV_TABLE_SIZE
    ensures ReportedValues(SettingsFrom(c, s))[k] == Expected(c, s, REPORTED_TAGS[k])
  {
    ReportedSettings(s, c);
  }

  /** A configuration push, received as packets, followed by a pull: the response reports the expected value
      for every tag, and the settings in use are the ones a restart would load. */
  lemma PushedSettingsAreReported(d: Device, pairs: seq<byte>, k: nat)
    requires |pairs| <= 61 && k < |REPORTED_TAGS|
    requires d.eeprom[EE_EEPROM_VERSION] == EEPROM_LAYOUT
    ensures var pushed := Receive(d, Packetize(PushMessage(pairs)));
            && pushed.Done?
            && Setup(pushed.device) == pushed.device
            && var pulled := Receive(pushed.device, Packetize(PULL_CONFIG));
            && pulled.Done? && pulled.device == pushed.device
            && pulled.sent == pushed.sent
            && |Messages(Idle, pulled.sent)| == 1
            && var response := Messages(Idle, pulled.sent)[0];
            && |response| == 45 && REPORTED_TAGS[k] < TV_TABLE_SIZE
            && Report(response)[REPORTED_TAGS[k]] == Expected(Requested(pairs), d.settings, REPORTED_TAGS[k])
  {
    var after := SaveEdits(Assigned(d, pairs + [0xF7]));
    PushIsHandled(d, pairs);
    SaveThenSetup(Assigned(d, pairs + [0xF7]));
    SetupIsIdempotent(after);
    PullConfigIsAnswered(Setup(after));
    ReportedAfterAssign(d.settings, Requested(pairs), k);
    ReportedValue(after.settings, k);
    PacketizeRoundTrip(ConfigMessage(after.settings));
  }

  lemma PushIsHandled(d: Device, pairs: seq<byte>)
    requires |pairs| <= 61
    ensures Receive(d, Packetize(PushMessage(pairs))) == Push(d, pairs + [0xF7])
  {
    var m := PushMessage(pairs);
    ReceiveMessage(d, m);
    assert m[5..] == pairs + [0xF7];
    assert Judge(m, COMMANDS) == Some(Run(PushConfig, m[5..]));
  }

  lemma PullConfigIsAnswered(d: Device)
    ensures Receive(d, Packetize(PULL_CONFIG)) == Done(d, Packetize(ConfigMessage(d.settings)))
  {
    var m := PULL_CONFIG;
    ReceiveMessage(d, m);
    assert m[5..] == [0, 0xF7];
    assert Judge(m, COMMANDS) == Some(Run(PullConfig, m[5..]));
  }

  /** The EEPROM byte of a pushed tag, for the tags that are stored as they are sent. */
  function StoredAt(tag: nat): Option<nat> {
    match tag
    case 1 => Some(0x03)      // velocity
    case 3 => Some(0x05)      // four-banks mode
    case 7 => Some(0x09)      // note, control change or both
    case 8 => Some(0x0A)      // combos
    case 10 => Some(0x0E)     // animations
    case 14 => Some(0x0F)     // tilt sensitivity
    case 16 => Some(0x11)     // tilt range
    case 17 => Some(0x12)     // pitch range
    case 18 => Some(0x13)     // tilt dead zone
    case 20 => Some(0x15)     // tilt axis
    case 21 => Some(0x16)     // pick sensitivity
    case 22 => Some(0x17)     // sleep time
    case 23 => Some(0x18)     // side bank
    case _ => None
  }

  /** An image holds what a push that decoded to `c` said, over the settings `s`; channel and tilt mode are
      stored off by one, and the two settings that are not pushed stay. */
  predicate Holds(e: Image, s: Settings, c: seq<byte>, tag: nat) {
    && |c| == TV_TABLE_SIZE
    && (StoredAt(tag).Some? ==>
          tag < TV_TABLE_SIZE && StoredAt(tag).value < 0x19 && e[StoredAt(tag).value] == c[tag])
    && e[0x02] == (if c[0] == 0 then 255 else c[0] - 1) && e[0x0C] == (if c[13] == 255 then 0 else c[13] + 1)
    && e[0x10] == s.pitchSensitivity && e[0x14] == s.pitchDeadzone
    && e[0x0D] % 4 == c[11] % 4 && e[0x0D] / 16 == BitOr(c[12], c[11] / 16) % 16
  }

  lemma AssignedIsHeld(e: Image, s: Settings, c: seq<byte>, tag: nat)
    requires |c| == TV_TABLE_SIZE
    ensures Holds(WithSettings(e, SettingsFrom(c, s)), s, c, tag)
  {
    TiltMask(c[12], c[11]);
  }

  lemma HeldInPrefix(e: Image, e': Image, s: Settings, c: seq<byte>, tag: nat)
    requires Holds(e, s, c, tag) && e'[..0x19] == e[..0x19]
    ensures Holds(e', s, c, tag)
  {
    forall i | 0 <= i < 0x19 ensures e'[i] == e[i] {
      assert e'[..0x19][i] == e[..0x19][i];
    }
  }

  lemma SavedPrefix(d: Device)
    ensures SaveEdits(d).eeprom[..0x19] == WithSettings(d.eeprom, d.settings)[..0x19]
  {
  }

  /** Which byte of the EEPROM every tag of a push ends up in. */
  lemma PushedSettingsAreStored(d: Device, pairs: seq<byte>, tag: nat)
    requires |pairs| <= 61 && d.eeprom[EE_EEPROM_VERSION] == EEPROM_LAYOUT
    ensures var pushed := Receive(d, Packetize(PushMessage(pairs)));
            pushed.Done? && Holds(pushed.device.eeprom, d.settings, Requested(pairs), tag)
  {
    var before := Assigned(d, pairs + [0xF7]);
    PushIsHandled(d, pairs);
    SaveThenSetup(before);
    AssignedIsHeld(d.eeprom, d.settings, Requested(pairs), tag);
    SavedPrefix(before);
    HeldInPrefix(WithSettings(d.eeprom, before.settings), SaveEdits(before).eeprom, d.settings, Requested(pairs), tag);
  }

  /** A push that turns the side bank off selects the first bank; every other one leaves the bank. */
  lemma PushSelectsBank(d: Device, pairs: seq<byte>)
    requires |pairs| <= 61 && d.eeprom[EE_EEPROM_VERSION] == EEPROM_LAYOUT
    ensures var pushed := Receive(d, Packetize(PushMessage(pairs)));
            && pushed.Done? && pushed.device.idle == d.idle && pushed.device.active == d.active
            && pushed.device.bank == if d.settings.sideBank != 0 && Requested(pairs)[23] == 0 then 0 else d.bank
  {
    PushIsHandled(d, pairs);
    SaveThenSetup(Assigned(d, pairs + [0xF7]));
  }

  // ----- The other messages

  /** Command 2: only request 0 is answered, with the report; none changes anything. */
  lemma PullMessages(d: Device, m: seq<byte>, request: byte)
    requires m == [0xF0, 0x00, 0x01, 0x79, 2, request, 0xF7]
    ensures Receive(d, Packetize(m)) == Done(d, if request == 0 then Packetize(ConfigMessage(d.settings)) else [])
  {
    ReceiveMessage(d, m);
    assert m[5..] == [request, 0xF7];
    assert Judge(m, COMMANDS) == Some(Run(PullConfig, m[5..]));
  }

  /** Command 3: 1 jumps to the bootloader, 2 resets to the factory state and reports it, nothing else counts. */
  lemma SystemMessages(d: Device, request: byte)
    ensures Receive(d, Packetize([0xF0, 0x00, 0x01, 0x79, 3, request, 0xF7])) ==
            if request == 1 then Bootloader
            else if request == 2 then Done(FactoryReset(d), Packetize(ConfigMessage(FactoryReset(d).settings)))
            else Done(d, [])
  {
    var m := [0xF0, 0x00, 0x01, 0x79, 3, request, 0xF7];
    ReceiveMessage(d, m);
    assert m[5..] == [request, 0xF7];
    assert Judge(m, COMMANDS) == Some(Run(System, m[5..]));
  }

  /** The reply to an identity request: manufacturer, family, member and version. */
  function Identity(): seq<byte> {
    [0xF0, 0x7E, 0x7F, 0x06, 0x02] + [0x00, 0x01, 0x79] + [0x06, 0x00] + [0x01, 0x00] +
    [0x20, 0x17, 0x07, 0x24] + [0xF7]
  }

  lemma IdentityReply()
    ensures Messages(Idle, Packetize(IDENTITY_REPLY)) == [Identity()]
  {
    PacketizeRoundTrip(IDENTITY_REPLY);
    assert IDENTITY_REPLY == Identity();
  }

  lemma IdentityIsJudged(m: seq<byte>, number: byte)
    requires m == [0xF0, 0x7E, number, 0x06, 0x01, 0xF7]
    ensures Judge(m, COMMANDS) == if number == 5 || number == 0x7F then Some(SendIdentity) else None
  {
  }

  /** An identity request to the device's own number or to all is answered, any other one is not. */
  lemma IdentityIsAnswered(d: Device, m: seq<byte>, number: byte)
    requires m == [0xF0, 0x7E, number, 0x06, 0x01, 0xF7]
    ensures var answer := Receive(d, Packetize(m));
            && answer.Done? && answer.device == d
            && if number == 5 || number == 0x7F then Messages(Idle, answer.sent) == [Identity()] else answer.sent == []
  {
    ReceiveMessage(d, m);
    IdentityIsJudged(m, number);
    IdentityReply();
  }

  // ----- When a value comes back as it was sent

  /** Every bit set in `b` is set in `a`. */
  predicate Covers(a: nat, b: nat) {
    b == 0 || (b % 2 <= a % 2 && Covers(a / 2, b / 2))
  }

  lemma {:induction false} BitOrIsLeft(a: nat, b: nat)
    ensures BitOr(a, b) == a <==> Covers(a, b)
    decreases a + b
  {
    if b == 0 {
      BitOrZero(a);
    } else {
      BitOrIsLeft(a / 2, b / 2);
    }
  }

  lemma BitOrHalves(a: nat, b: nat, bound: nat)
    requires BitOr(a / 2, b / 2) < bound
    ensures BitOr(a, b) < 2 * bound
  {
  }

  lemma BitOrOfNibbles(a: nat, b: nat)
    requires a < 16 && b < 16
    ensures BitOr(a, b) < 16
  {
    BitOrZero(0);
    assert a / 2 / 2 / 2 / 2 == 0 && b / 2 / 2 / 2 / 2 == 0;
    BitOrHalves(a / 2 / 2 / 2, b / 2 / 2 / 2, 1);
    BitOrHalves(a / 2 / 2, b / 2 / 2, 2);
    BitOrHalves(a / 2, b / 2, 4);
    BitOrHalves(a, b, 8);
  }

  lemma NibbleSurvives(a: nat, b: nat)
    requires b < 16
    ensures BitOr(a, b) % 16 == a <==> a < 16 && Covers(a, b)
  {
    BitOrIsLeft(a, b);
    if a < 16 {
      BitOrOfNibbles(a, b);
    }
  }

  /**
   Rotation comes back exactly when it fits its two bits. Tilt comes back exactly when it fits its
   four and already has every bit of rotation's high nibble.
   */
  lemma TiltSurvivesExactlyWhenItFits(c: seq<byte>, s: Settings)
    requires |c| == TV_TABLE_SIZE
    ensures Expected(c, s, 11) == c[11] <==> c[11] < 4
    ensures Expected(c, s, 12) == c[12] <==> c[12] < 16 && Covers(c[12], c[11] / 16)
  {
    assert Expected(c, s, 11) == c[11] % 4;
    NibbleSurvives(c[12], c[11] / 16);
  }
}
