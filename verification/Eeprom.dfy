/**
 The settings, the two colour tables and their EEPROM image: eeprom.c with the
 layout of constants.h.
 */
module Eeprom {
  import opened Bytes
  import opened Palette

  const EEPROM_SIZE := 1024
  const EEPROM_LAYOUT: byte := 1
  const NUM_BANKS := 2
  const BANK_BYTES := 192            // 64 buttons of three bytes
  const TABLE_BYTES := 384

  const EE_EEPROM_VERSION := 0x00
  const EE_FIRST_BOOT_CHECK := 0x01
  const EE_MIDI_CHANNEL := 0x02
  const EE_MIDI_VELOCITY := 0x03
  const EE_FOUR_BANKS_MODE := 0x05
  const EE_MIDI_OUTPUT_MODE := 0x09
  const EE_COMBOS_ENABLE := 0x0A
  const EE_TILT_MODE := 0x0C
  const EE_TILT_MASK := 0x0D
  const EE_ANIMATIONS := 0x0E
  const EE_TILT_SENSITIVITY := 0x0F
  const EE_PITCH_SENSITIVITY := 0x10
  const EE_TILT_RANGE := 0x11
  const EE_PITCH_RANGE := 0x12
  const EE_TILT_DEADZONE := 0x13
  const EE_PITCH_DEADZONE := 0x14
  const EE_TILT_AXIS := 0x15
  const EE_PICK_SENSITIVITY := 0x16
  const EE_SLEEP_TIME := 0x17
  const EE_SIDE_BANK := 0x18
  const EE_COLORS_IDLE := 0x6F
  const EE_COLORS_ACTIVE := 0x1EF

  datatype Settings = Settings(
    channel: byte, velocity: byte, combos: byte, outputMode: byte, fourBanks: byte, tiltMode: byte,
    tiltMask: byte, animations: byte, tiltSensitivity: byte, pitchSensitivity: byte, tiltRange: byte,
    pitchRange: byte, tiltDeadzone: byte, pitchDeadzone: byte, tiltAxis: byte, pickSensitivity: byte,
    sleepTime: byte, sideBank: byte)

  type Table = t: seq<byte> | |t| == TABLE_BYTES witness seq(TABLE_BYTES, _ => 0)
  type Image = e: seq<byte> | |e| == EEPROM_SIZE witness seq(EEPROM_SIZE, _ => 0)

  /** The device's globals and the EEPROM behind them. */
  datatype Device = Device(
    settings: Settings, selfTest: byte, bank: byte, idle: Table, active: Table, eeprom: Image)

  // ----- Specification

  /** The image with the settings bytes written. */
  function WithSettings(e: Image, s: Settings): Image {
    var e := e[EE_MIDI_CHANNEL := s.channel][EE_MIDI_VELOCITY := s.velocity];
    var e: Image := e[EE_COMBOS_ENABLE := s.combos][EE_MIDI_OUTPUT_MODE := s.outputMode];
    var e: Image := e[EE_FOUR_BANKS_MODE := s.fourBanks][EE_TILT_MODE := s.tiltMode];
    var e: Image := e[EE_TILT_MASK := s.tiltMask][EE_ANIMATIONS := s.animations];
    var e: Image := e[EE_TILT_SENSITIVITY := s.tiltSensitivity][EE_PITCH_SENSITIVITY := s.pitchSensitivity];
    var e: Image := e[EE_TILT_RANGE := s.tiltRange][EE_PITCH_RANGE := s.pitchRange];
    var e: Image := e[EE_TILT_DEADZONE := s.tiltDeadzone][EE_PITCH_DEADZONE := s.pitchDeadzone];
    var e: Image := e[EE_TILT_AXIS := s.tiltAxis][EE_PICK_SENSITIVITY := s.pickSensitivity];
    e[EE_SLEEP_TIME := s.sleepTime][EE_SIDE_BANK := s.sideBank]
  }

  /** The image with `data` copied to address `at`. */
  function WithBytes(e: Image, at: nat, data: seq<byte>): Image
    requires at + |data| <= EEPROM_SIZE
  {
    e[..at] + data + e[at + |data|..]
  }

  function SettingsIn(e: Image): Settings {
    Settings(
      e[EE_MIDI_CHANNEL], e[EE_MIDI_VELOCITY], e[EE_COMBOS_ENABLE], e[EE_MIDI_OUTPUT_MODE],
      e[EE_FOUR_BANKS_MODE], e[EE_TILT_MODE], e[EE_TILT_MASK], e[EE_ANIMATIONS], e[EE_TILT_SENSITIVITY],
      e[EE_PITCH_SENSITIVITY], e[EE_TILT_RANGE], e[EE_PITCH_RANGE], e[EE_TILT_DEADZONE],
      e[EE_PITCH_DEADZONE], e[EE_TILT_AXIS], e[EE_PICK_SENSITIVITY], e[EE_SLEEP_TIME], e[EE_SIDE_BANK])
  }

  /** `eeprom_save_edits`. */
  function SaveEdits(d: Device): Device {
    d.(eeprom :=
         WithBytes(WithBytes(WithSettings(d.eeprom, d.settings), EE_COLORS_IDLE, d.idle), EE_COLORS_ACTIVE, d.active))
  }

  const FACTORY_SETTINGS := Settings(
    2, 127, 1, 0, 0, 2, 0xF1, 4, 0x1E, 0x7F, 0x46, 0x3C, 0x0C, 0x7F, 0, 0x40, 0x3C, 0)

  function BankOf(c: Rgb): seq<byte> {
    seq<byte>(BANK_BYTES, i => Component(c, i % 3))
  }

  function FactoryIdle(): Table {
    BankOf(OFF) + BankOf(WHITE)
  }

  function FactoryActive(): Table {
    BankOf(BLUE) + BankOf(GREEN)
  }

  /** `eeprom_factory_reset`. */
  function FactoryReset(d: Device): Device {
    SaveEdits(d.(settings := FACTORY_SETTINGS, selfTest := 0xFF, idle := FactoryIdle(), active := FactoryActive(),
                 eeprom := d.eeprom[EE_EEPROM_VERSION := EEPROM_LAYOUT]))
  }

  /** `eeprom_setup`. */
  function Setup(d: Device): Device {
    var d := if d.eeprom[EE_EEPROM_VERSION] != EEPROM_LAYOUT then FactoryReset(d) else d;
    d.(settings := SettingsIn(d.eeprom), selfTest := d.eeprom[EE_FIRST_BOOT_CHECK],
       idle := d.eeprom[EE_COLORS_IDLE..EE_COLORS_ACTIVE],
       active := d.eeprom[EE_COLORS_ACTIVE..EE_COLORS_ACTIVE + TABLE_BYTES])
  }

  // ----- Laws

  lemma SettingsRoundTrip(e: Image, s: Settings)
    ensures SettingsIn(WithSettings(e, s)) == s
    ensures WithSettings(e, s)[EE_EEPROM_VERSION] == e[EE_EEPROM_VERSION]
    ensures WithSettings(e, s)[EE_FIRST_BOOT_CHECK] == e[EE_FIRST_BOOT_CHECK]
  {
  }

  /** What a saved image holds: the regions of the layout do not overlap. */
  lemma SavedImage(d: Device)
    ensures var e := SaveEdits(d).eeprom;
            && SettingsIn(e) == d.settings
            && e[EE_COLORS_IDLE..EE_COLORS_ACTIVE] == d.idle
            && e[EE_COLORS_ACTIVE..EE_COLORS_ACTIVE + TABLE_BYTES] == d.active
            && e[EE_EEPROM_VERSION] == d.eeprom[EE_EEPROM_VERSION]
            && e[EE_FIRST_BOOT_CHECK] == d.eeprom[EE_FIRST_BOOT_CHECK]
  {
    var e0 := WithSettings(d.eeprom, d.settings);
    var e := SaveEdits(d).eeprom;
    SettingsRoundTrip(d.eeprom, d.settings);
    assert forall a :: 0 <= a < EE_COLORS_IDLE ==> e[a] == e0[a];
  }

  /** Saving and setting up again restores every global exactly; only the boot-check byte, which
      saving does not write, comes from the EEPROM. A stale layout byte gives the factory state instead. */
  lemma SaveThenSetup(d: Device)
    ensures Setup(SaveEdits(d)) ==
            if d.eeprom[EE_EEPROM_VERSION] == EEPROM_LAYOUT
            then SaveEdits(d).(selfTest := d.eeprom[EE_FIRST_BOOT_CHECK])
            else FactoryReset(SaveEdits(d)).(selfTest := d.eeprom[EE_FIRST_BOOT_CHECK])
  {
    SavedImage(d);
    if d.eeprom[EE_EEPROM_VERSION] != EEPROM_LAYOUT {
      StaleSetup(SaveEdits(d));
    }
  }

  /** With a stale layout byte, setting up ends in the factory state, saved and with a current layout byte. */
  lemma StaleSetup(d: Device)
    requires d.eeprom[EE_EEPROM_VERSION] != EEPROM_LAYOUT
    ensures Setup(d) == FactoryReset(d).(selfTest := d.eeprom[EE_FIRST_BOOT_CHECK])
    ensures Setup(d).eeprom[EE_EEPROM_VERSION] == EEPROM_LAYOUT
    ensures Setup(d).settings == FACTORY_SETTINGS
    ensures Setup(d).idle == FactoryIdle() && Setup(d).active == FactoryActive()
  {
    SavedImage(d.(settings := FACTORY_SETTINGS, selfTest := 0xFF, idle := FactoryIdle(), active := FactoryActive(),
                  eeprom := d.eeprom[EE_EEPROM_VERSION := EEPROM_LAYOUT]));
  }

  /** The factory colours, button by button: dark and blue in the first bank, white and green in the second. */
  lemma FactoryColours(d: Device, button: nat)
    requires d.eeprom[EE_EEPROM_VERSION] != EEPROM_LAYOUT && button < 64
    ensures At(Setup(d).idle, 3 * button) == Rgb(0, 0, 0) && At(Setup(d).active, 3 * button) == Rgb(0, 0, 48)
    ensures At(Setup(d).idle, 192 + 3 * button) == Rgb(24, 24, 24)
    ensures At(Setup(d).active, 192 + 3 * button) == Rgb(0, 48, 0)
  {
    StaleSetup(d);
    BankTriple(OFF, button);
    BankTriple(BLUE, button);
    BankTriple(WHITE, button);
    BankTriple(GREEN, button);
  }

  lemma BankTriple(c: Rgb, button: nat)
    requires button < 64
    ensures At(BankOf(c), 3 * button) == c
  {
    assert 3 * button % 3 == 0;
  }

  /** The factory image, byte by byte at the addresses of the layout; the bank in use stays. */
  lemma FactoryImage(d: Device)
    requires d.eeprom[0] != 1
    ensures Setup(d).bank == d.bank
    ensures var e := Setup(d).eeprom;
            && e[0] == 1 && e[1] == d.eeprom[1]
            && e[2] == 2 && e[3] == 127 && e[5] == 0 && e[9] == 0 && e[0x0A] == 1 && e[0x0C] == 2 && e[0x0D] == 0xF1
            && e[0x0E] == 4 && e[0x0F] == 0x1E && e[0x10] == 0x7F && e[0x11] == 0x46 && e[0x12] == 0x3C
            && e[0x13] == 0x0C && e[0x14] == 0x7F && e[0x15] == 0 && e[0x16] == 0x40 && e[0x17] == 0x3C && e[0x18] == 0
  {
    StaleSetup(d);
    SavedImage(d.(settings := FACTORY_SETTINGS, selfTest := 0xFF, idle := FactoryIdle(), active := FactoryActive(),
                  eeprom := d.eeprom[EE_EEPROM_VERSION := EEPROM_LAYOUT]));
  }

  /** Setting up twice is the same as setting up once: what the first run loaded is what is stored. */
  lemma SetupIsIdempotent(d: Device)
    ensures Setup(Setup(d)) == Setup(d)
  {
    if d.eeprom[EE_EEPROM_VERSION] != EEPROM_LAYOUT {
      StaleSetup(d);
      SavedImage(d.(settings := FACTORY_SETTINGS, selfTest := 0xFF, idle := FactoryIdle(), active := FactoryActive(),
                    eeprom := d.eeprom[EE_EEPROM_VERSION := EEPROM_LAYOUT]));
    }
  }

  lemma CopiedAt(e: Image, at: nat, data: seq<byte>, a: nat)
    requires at + |data| <= EEPROM_SIZE && a < EEPROM_SIZE
    ensures WithBytes(e, at, data)[a] == if at <= a < at + |data| then data[a - at] else e[a]
  {
  }

  lemma CopiedNext(e: Image, at: nat, data: seq<byte>, i: nat)
    requires at + |data| <= EEPROM_SIZE && i < |data|
    ensures WithBytes(e, at, data[..i])[at + i := data[i]] == WithBytes(e, at, data[..i + 1])
  {
  }

  /** Both tables saved up to bank boundary `n`, then one bank more of each. */
  lemma NextBankSaved(e: Image, idle: Table, active: Table, n: nat)
    requires n + BANK_BYTES <= TABLE_BYTES
    ensures var m := n + BANK_BYTES;
            var e1 := WithBytes(WithBytes(e, EE_COLORS_IDLE, idle[..n]), EE_COLORS_ACTIVE, active[..n]);
            var e2 := WithBytes(e1, EE_COLORS_IDLE + n, idle[n..][..BANK_BYTES]);
            WithBytes(e2, EE_COLORS_ACTIVE + n, active[n..][..BANK_BYTES]) ==
            WithBytes(WithBytes(e, EE_COLORS_IDLE, idle[..m]), EE_COLORS_ACTIVE, active[..m])
  {
    var m := n + BANK_BYTES;
    var e1 := WithBytes(WithBytes(e, EE_COLORS_IDLE, idle[..n]), EE_COLORS_ACTIVE, active[..n]);
    var e2 := WithBytes(e1, EE_COLORS_IDLE + n, idle[n..][..BANK_BYTES]);
    var left := WithBytes(e2, EE_COLORS_ACTIVE + n, active[n..][..BANK_BYTES]);
    var right := WithBytes(WithBytes(e, EE_COLORS_IDLE, idle[..m]), EE_COLORS_ACTIVE, active[..m]);
    forall a | 0 <= a < EEPROM_SIZE
      ensures left[a] == right[a]
    {
      CopiedAt(e, EE_COLORS_IDLE, idle[..n], a);
      CopiedAt(WithBytes(e, EE_COLORS_IDLE, idle[..n]), EE_COLORS_ACTIVE, active[..n], a);
      CopiedAt(e1, EE_COLORS_IDLE + n, idle[n..][..BANK_BYTES], a);
      CopiedAt(e2, EE_COLORS_ACTIVE + n, active[n..][..BANK_BYTES], a);
      CopiedAt(e, EE_COLORS_IDLE, idle[..m], a);
      CopiedAt(WithBytes(e, EE_COLORS_IDLE, idle[..m]), EE_COLORS_ACTIVE, active[..m], a);
    }
    assert left == right;
  }

  // ----- The firmware

  class Globals {
    var settings: Settings
    var selfTest: byte
    var bank: byte
    const idle: array<byte>
    const active: array<byte>
    const eeprom: array<byte>

    ghost predicate Valid() {
      && idle.Length == TABLE_BYTES && active.Length == TABLE_BYTES && eeprom.Length == EEPROM_SIZE
      && idle != active && idle != eeprom && active != eeprom
    }

    ghost function Value(): Device
      requires Valid()
      reads this, idle, active, eeprom
    {
      Device(settings, selfTest, bank, idle[..], active[..], eeprom[..])
    }

    constructor (image: Image, start: Settings)
      ensures Valid() && fresh(idle) && fresh(active) && fresh(eeprom)
      ensures Value() == Device(start, 0, 0, seq(TABLE_BYTES, _ => 0), seq(TABLE_BYTES, _ => 0), image)
    {
      settings, selfTest, bank := start, 0, 0;
      idle := new byte[TABLE_BYTES](_ => 0);
      active := new byte[TABLE_BYTES](_ => 0);
      eeprom := new byte[EEPROM_SIZE](i requires 0 <= i < EEPROM_SIZE => image[i]);
    }

    method Write(address: nat, data: byte)
      requires Valid() && address < EEPROM_SIZE
      modifies eeprom
      ensures eeprom[..] == old(eeprom[..])[address := data]
    {
      eeprom[address] := data;
    }

    /** One of the four inner loops of `eeprom_save_edits`. */
    method SaveBank(table: array<byte>, bank: nat, at: nat)
      requires Valid() && table in {idle, active} && bank < NUM_BANKS && at + TABLE_BYTES <= EEPROM_SIZE
      modifies eeprom
      ensures eeprom[..] == WithBytes(old(eeprom[..]), at + BANK_BYTES * bank, table[BANK_BYTES * bank..][..BANK_BYTES])
    {
      ghost var data := table[BANK_BYTES * bank..][..BANK_BYTES];
      assert WithBytes(eeprom[..], at + BANK_BYTES * bank, data[..0]) == eeprom[..];
      for i := 0 to BANK_BYTES
        invariant eeprom[..] == WithBytes(old(eeprom[..]), at + BANK_BYTES * bank, data[..i])
      {
        CopiedNext(old(eeprom[..]), at + BANK_BYTES * bank, data, i);
        Write(at + BANK_BYTES * bank + i, table[BANK_BYTES * bank + i]);
      }
      assert data[..BANK_BYTES] == data;
    }

    /** `eeprom_save_edits`. */
    method SaveAll()
      requires Valid()
      modifies eeprom
      ensures Value() == SaveEdits(old(Value()))
    {
      SaveSettings();
      ghost var e := eeprom[..];
      for bank := 0 to NUM_BANKS
        invariant eeprom[..] == WithBytes(WithBytes(e, EE_COLORS_IDLE, idle[..BANK_BYTES * bank]),
                                       EE_COLORS_ACTIVE, active[..BANK_BYTES * bank])
      {
        NextBankSaved(e, idle[..], active[..], BANK_BYTES * bank);
        SaveBank(idle, bank, EE_COLORS_IDLE);
        SaveBank(active, bank, EE_COLORS_ACTIVE);
      }
      assert idle[..TABLE_BYTES] == idle[..] && active[..TABLE_BYTES] == active[..];
    }

    /** The settings half of `eeprom_save_edits`. */
    method SaveSettings()
      requires Valid()
      modifies eeprom
      ensures eeprom[..] == WithSettings(old(eeprom[..]), settings)
    {
      Write(EE_MIDI_CHANNEL, settings.channel);
      Write(EE_MIDI_VELOCITY, settings.velocity);
      Write(EE_COMBOS_ENABLE, settings.combos);
      Write(EE_MIDI_OUTPUT_MODE, settings.outputMode);
      Write(EE_FOUR_BANKS_MODE, settings.fourBanks);
      Write(EE_TILT_MODE, settings.tiltMode);
      Write(EE_TILT_MASK, settings.tiltMask);
      Write(EE_ANIMATIONS, settings.animations);
      Write(EE_TILT_SENSITIVITY, settings.tiltSensitivity);
      Write(EE_PITCH_SENSITIVITY, settings.pitchSensitivity);
      Write(EE_TILT_RANGE, settings.tiltRange);
      Write(EE_PITCH_RANGE, settings.pitchRange);
      Write(EE_TILT_DEADZONE, settings.tiltDeadzone);
      Write(EE_PITCH_DEADZONE, settings.pitchDeadzone);
      Write(EE_TILT_AXIS, settings.tiltAxis);
      Write(EE_PICK_SENSITIVITY, settings.pickSensitivity);
      Write(EE_SLEEP_TIME, settings.sleepTime);
      Write(EE_SIDE_BANK, settings.sideBank);
    }

    /** One bank of `load_default_colors` in one table. */
    method FillBank(table: array<byte>, bank: nat, c: Rgb)
      requires Valid() && table in {idle, active} && bank < NUM_BANKS
      modifies table
      ensures table[..] == old(table[..BANK_BYTES * bank]) + BankOf(c) + old(table[BANK_BYTES * (bank + 1)..])
    {
      ghost var before := table[..];
      for button := 0 to 64
        invariant forall i :: 0 <= i < TABLE_BYTES && !(0 <= i - BANK_BYTES * bank < 3 * button) ==>
                    table[i] == before[i]
        invariant forall i :: 0 <= i < 3 * button ==> table[BANK_BYTES * bank + i] == Component(c, i % 3)
      {
        var index := BANK_BYTES * bank + 3 * button;
        table[index], table[index + 1], table[index + 2] := c.r, c.g, c.b;
      }
    }

    /** `eeprom_factory_reset`. */
    method Reset()
      requires Valid()
      modifies this`settings, this`selfTest, idle, active, eeprom
      ensures Value() == FactoryReset(old(Value()))
    {
      Write(EE_EEPROM_VERSION, EEPROM_LAYOUT);
      selfTest := 0xFF;
      settings := FACTORY_SETTINGS;
      FillBank(idle, 0, OFF);
      FillBank(active, 0, BLUE);
      FillBank(idle, 1, WHITE);
      FillBank(active, 1, GREEN);
      assert idle[..] == FactoryIdle() && active[..] == FactoryActive();
      SaveAll();
    }

    /** One of the four inner loops of `eeprom_setup`. */
    method LoadBank(table: array<byte>, bank: nat, at: nat)
      requires Valid() && table in {idle, active} && bank < NUM_BANKS && at + TABLE_BYTES <= EEPROM_SIZE
      modifies table
      ensures forall j :: 0 <= j < TABLE_BYTES ==>
                table[j] == if BANK_BYTES * bank <= j < BANK_BYTES * (bank + 1) then eeprom[at + j] else old(table[j])
    {
      ghost var start := BANK_BYTES * bank;
      for i := 0 to BANK_BYTES
        invariant forall j :: 0 <= j < TABLE_BYTES ==>
                    table[j] == if start <= j < start + i then eeprom[at + j] else old(table[j])
      {
        table[BANK_BYTES * bank + i] := eeprom[at + BANK_BYTES * bank + i];
      }
    }

    /** `eeprom_setup`. */
    method Load()
      requires Valid()
      modifies this`settings, this`selfTest, idle, active, eeprom
      ensures Value() == Setup(old(Value()))
    {
      if eeprom[EE_EEPROM_VERSION] != EEPROM_LAYOUT {
        Reset();
      }
      LoadSettings();
      LoadTables();
    }

    method LoadSettings()
      requires Valid()
      modifies this`settings, this`selfTest
      ensures settings == SettingsIn(eeprom[..]) && selfTest == eeprom[EE_FIRST_BOOT_CHECK]
    {
      selfTest := eeprom[EE_FIRST_BOOT_CHECK];
      settings := Settings(
        eeprom[EE_MIDI_CHANNEL], eeprom[EE_MIDI_VELOCITY], eeprom[EE_COMBOS_ENABLE], eeprom[EE_MIDI_OUTPUT_MODE],
        eeprom[EE_FOUR_BANKS_MODE], eeprom[EE_TILT_MODE], eeprom[EE_TILT_MASK], eeprom[EE_ANIMATIONS],
        eeprom[EE_TILT_SENSITIVITY], eeprom[EE_PITCH_SENSITIVITY], eeprom[EE_TILT_RANGE], eeprom[EE_PITCH_RANGE],
        eeprom[EE_TILT_DEADZONE], eeprom[EE_PITCH_DEADZONE], eeprom[EE_TILT_AXIS], eeprom[EE_PICK_SENSITIVITY],
        eeprom[EE_SLEEP_TIME], eeprom[EE_SIDE_BANK]);
    }

    method LoadTables()
      requires Valid()
      modifies idle, active
      ensures idle[..] == eeprom[EE_COLORS_IDLE..EE_COLORS_ACTIVE]
      ensures active[..] == eeprom[EE_COLORS_ACTIVE..EE_COLORS_ACTIVE + TABLE_BYTES]
    {
      LoadBank(idle, 0, EE_COLORS_IDLE);
      LoadBank(active, 0, EE_COLORS_ACTIVE);
      LoadBank(idle, 1, EE_COLORS_IDLE);
      LoadBank(active, 1, EE_COLORS_ACTIVE);
    }
  }
}
