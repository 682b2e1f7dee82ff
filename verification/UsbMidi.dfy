/**
 USB-MIDI event packets and the SysEx packetizer of midi.c.

 The Code Index Number (CIN) of a packet says how many of its three data bytes
 belong to the message: table 4-1 of the USB Device Class Definition for MIDI
 Devices, release 1.0.
 */
module UsbMidi {
  import opened Bytes

  datatype Packet = Packet(event: byte, d1: byte, d2: byte, d3: byte)

  /** The note of the first key (`MIDI_BASENOTE`). */
  const BASE_NOTE := 36

  const CIN_SYSTEM_COMMON_3 := 0x3
  const CIN_SYSEX_CONTINUES := 0x4
  const CIN_SYSEX_ENDS_1 := 0x5
  const CIN_SYSEX_ENDS_2 := 0x6
  const CIN_SYSEX_ENDS_3 := 0x7

  /** The CIN is the low nibble of the event byte; the high nibble is the cable number. */
  function Cin(p: Packet): byte {
    p.event % 16
  }

  /** The message bytes a System Common or SysEx packet carries (table 4-1). */
  function Carried(p: Packet): seq<byte> {
    var cin := Cin(p);
    if cin == CIN_SYSTEM_COMMON_3 || cin == CIN_SYSEX_CONTINUES || cin == CIN_SYSEX_ENDS_3 then [p.d1, p.d2, p.d3]
    else if cin == CIN_SYSEX_ENDS_2 then [p.d1, p.d2]
    else if cin == CIN_SYSEX_ENDS_1 then [p.d1]
    else []
  }

  function CarriedAll(ps: seq<Packet>): seq<byte> {
    if ps == [] then [] else Carried(ps[0]) + CarriedAll(ps[1..])
  }

  /** The packets for the tail `m` of a message; `first` holds while nothing has been sent yet. */
  function Packetize(m: seq<byte>, first: bool := true): seq<Packet> {
    if |m| > 3 then [Packet(CIN_SYSEX_CONTINUES, m[0], m[1], m[2])] + Packetize(m[3..], false)
    else if |m| == 3 then [Packet(if first then CIN_SYSTEM_COMMON_3 else CIN_SYSEX_ENDS_3, m[0], m[1], m[2])]
    else if |m| == 2 then [Packet(CIN_SYSEX_ENDS_2, m[0], m[1], 0)]
    else if |m| == 1 then [Packet(CIN_SYSEX_ENDS_1, m[0], 0, 0)]
    else []
  }

  /** `midi_stream_sysex`: the loop over the remaining length `num`, then the end packet. */
  method StreamSysex(data: seq<byte>) returns (sent: seq<Packet>)
    requires |data| < 256
    ensures sent == Packetize(data)
    ensures CarriedAll(sent) == data
  {
    sent := [];
    var num: byte, at, first := |data|, 0, true;
    while num > 3
      invariant num == |data| - at
      invariant first <==> at == 0
      invariant Packetize(data) == sent + Packetize(data[at..], first)
    {
      first := false;
      sent := sent + [Packet(CIN_SYSEX_CONTINUES, data[at], data[at + 1], data[at + 2])];
      assert data[at..][3..] == data[at + 3..];
      at, num := at + 3, num - 3;
    }
    if num != 0 {
      var p := Packet(CIN_SYSEX_ENDS_1, data[at], 0, 0);
      if num == 2 {
        p := p.(event := CIN_SYSEX_ENDS_2, d2 := data[at + 1]);
      } else if num == 3 {
        p := p.(event := if first then CIN_SYSTEM_COMMON_3 else CIN_SYSEX_ENDS_3,
                d2 := data[at + 1], d3 := data[at + 2]);
      }
      sent := sent + [p];
    }
    PacketizeLosesNothing(data, true);
  }

  /** The packets carry exactly the bytes of the message, in order. */
  lemma {:induction false} PacketizeLosesNothing(m: seq<byte>, first: bool)
    ensures CarriedAll(Packetize(m, first)) == m
  {
    if |m| <= 3 {
    } else {
      PacketizeLosesNothing(m[3..], false);
      assert m == m[..3] + m[3..];
    }
  }
}
