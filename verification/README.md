# Verified model of the Midi Fighter 64 firmware and its LUFA bootloaders

The Midi Fighter 64 is a USB-MIDI controller with 64 buttons. This project models, in Dafny,
the state machines of its firmware and of the two bootloaders that program it, and proves
what they keep over whole runs.

| module | models |
|---|---|
| `UsbMidi`, `SysEx` | SysEx messages split into USB-MIDI packets, and the reassembler with its 64-byte buffer |
| `Palette`, `Config`, `Pushes`, `Echo`, `Handlers` | the command handlers: colour table push and pull, power adjustment, settings |
| `Eeprom`, `SettingsLaws` | persistence of settings and colour tables, and their way through push, save, load and pull |
| `Keys`, `Notes`, `Controls` | the debounced key scanner under its interrupt, and the notes and control changes the keys send |
| `Combo`, `ComboLost`, `ComboRuns`, `ComboNotes` | the table-driven combo recognizer, the runs that leave its table, the key sequences it reports, and the notes the combos play |
| `Feedback`, `FeedbackHistory` | note feedback with deferred NoteOff |
| `Balls`, `BallMotion` | the bouncing-ball demo, an 8x8 grid that is scanned and changed in place, and how a ball travels over it |
| `Flash`, `HexLoader`, `HexRecords`, `HexLoad`, `HexBase`, `HexMoves`, `HexFiles`, `HexOrder`, `HexGuard`, `HexFaults`, `HexExit` | the Intel HEX loader of the Printer bootloader: records, files in one piece, extended addresses, files with gaps, the bootloader section, records with faults, the exit |
| `Dfu`, `DfuLaws`, `DfuCopy`, `DfuBlocks`, `DfuTransfers`, `DfuCommands`, `DfuDevice` | the DFU bootloader: secure mode, the program loops, whole downloads and uploads, the packets of a host, and the other commands |
| `Bytes`, `Folds` | fixed-width integers, runs |

Code that changes state in place is a class or a method with loops, proved against a function
on values; the laws are lemmas about those functions. 8-, 16- and 32-bit arithmetic is written
out. A key word is the set of the keys whose bit is set. `random16`, the clock, the samples of
the key pins and the packets received are inputs. Flash follows the AVR self-programming model:
programming ANDs the page buffer into the page and leaves the buffer blank.

## Main results

- **Echo.** Whatever a bulk pull sends, received back, echoes every triple of the table, so the
  table is unchanged if and only if all its colours are palette colours (`Echo.EchoIdentity`).
- **Push order.** Two runs of push packets, the tables mixed at will, leave the same device when
  the last push of every part of every table is the same (`Pushes.PushOrderIsIrrelevant`). A
  message writes past a table if and only if its size field exceeds the rest of the table
  (`Config.MessageStraysExactly`, `Config.StrayPush`).
- **Reassembly.** A packet run writes outside the reassembler's buffer if and only if a three-byte
  end packet comes before any start packet; without that the in-place machine is the abstract
  collector (`SysEx.Reassembler.Receive`).
- **HEX files.** A file of data and extended address records, with gaps and in any order, is
  loaded as a copy whatever its bytes are if and only if every word finds its own page open, in
  which no earlier word is lost, and the last page is written (`HexFiles.CopiesExactlyInOrder`).
  With data alone that is: every record starts in the page where the one before it ended
  (`HexOrder.DataCopiesExactly`). Every image of whole pages below the bootloader has a file that
  loads it, also beyond 64 KiB (`HexOrder.EveryImageLoads`). For a file in one piece the condition
  is exact for each image (`HexLoad.LoadIsCopy`, `HexLoad.LoadElsewhere`).
- **HEX safety.** For every text, the bootloader section is kept whatever flash holds if and only
  if no data word is completed while one of its pages is open (`HexGuard.BootIsKeptExactly`). Once
  the base is in or above the bootloader every later record is dropped (`HexBase.BaseIsStuck`).
  The loader stops if and only if a checked end-of-file record was read (`HexExit.ExitIsChecked`).
- **HEX faults.** Records of unknown types change neither the base nor flash, but for the open page
  (`HexBase.OtherRecordIsIgnored`). A wrong checksum comes too late: data is programmed and an
  extended address taken all the same (`HexFaults.WrongDataIsPut`, `HexFaults.WrongExtendedIsTaken`).
- **DFU.** A program download is a copy, rotated within its pages by the start address
  (`DfuBlocks.DownloadIsCopy`). An upload reads it back if and only if every byte that the rotation
  moves away is what is found in its place (`DfuBlocks.DownloadReadsBack`);
  `DfuTransfers.RotatedTransfer` is a transfer of a host for which it is not. EEPROM blocks are
  read back exactly when no byte overwrote another (`DfuBlocks.EepromReadsBack`). While secure,
  nothing is programmed and nothing that is sent depends on the memories, until every application
  page has been blanked (`DfuLaws.SecureUntilWiped`, `DfuLaws.SecureRunIsBlind`). The chip erase
  blanks exactly the application section, secure or open (`DfuCommands.ChipIsErased`). A download
  that the host breaks off leaves whole pages of it and one erased page
  (`DfuTransfers.DownloadIsCut`).
- **No stuck notes.** The host sounds exactly the notes of the held keys, each on the channel it
  was opened on, if and only if every released key closes its note; with a fixed channel and note
  output this holds through any bank changes (`Notes.TurnIsExact`, `Notes.NoStuckNotes`). With
  control changes on, the controller values at the host are at every moment a picture of the keys
  (`Controls.ControlsFollowKeys`).
- **Debounce.** The scan is right for every interleaving of the interrupt with its eighty byte
  reads (`Keys.Debounced`, `Keys.UndisturbedScan`).
- **Combos.** A run is well bracketed if and only if the chord never replaces another held combo
  (`Combo.RunIsBracketed`; `Combo.ClobberedRun` is a run in which it does). The host then sounds
  exactly the open combo's note throughout if and only if each RELEASE is sent on its DOWN's
  channel, whatever the bank and the settings are at each action (`ComboNotes.ComboRunIsHeard`).
  A run reads past the rule table if and only if the chord makes it forget combo E and key 6 is
  still down when the keys next change (`ComboLost.LostRunExactly`). In every other run combo B is
  held, reported and released as the key masks alone say, whatever the table is doing
  (`ComboRuns.BIsHeldExactly`); so the chord is reported for every order of its keys
  (`ComboRuns.FirstChordIsReported`). The table's paths to C, D and E are key sequences
  (`ComboRuns.ComboCIsReported`, `ComboRuns.ComboDIsReported`, `ComboRuns.ComboEIsReported`).
- **Feedback.** At any point of a run a key shows what it would without the delay, except exactly
  when its last NoteOn was not 0, a NoteOff has come since, and every refresh in between found the
  latest NoteOff young (`FeedbackHistory.ShownExactly`, `Feedback.YoungExactly`). What it shows
  follows from the notes and channels of the events alone (`FeedbackHistory.LitExactly`).
- **Balls.** In every frame each ball has one cell below its own ceiling; no ball ever leaves the
  grid and at most one enters it (`Balls.Demo.Frame`). A ball by itself gets as many turns in a scan
  as the scan counts, and each takes it along its two tracks (`Balls.Demo.Scan`,
  `BallMotion.TravelsBothWays`): with slowdown f its column repeats every 14 f + 2 turns
  (`BallMotion.ColumnsRepeat`), and its rows after as many turns as its ceiling says
  (`BallMotion.RowsRepeat`).
- **Settings.** Every tag of a push ends up in its own byte of the EEPROM, and a pull reports it
  (`SettingsLaws.PushedSettingsAreStored`, `SettingsLaws.PushedSettingsAreReported`).

## Where code and comments disagree

The model follows the code.

- key.c:157-158 says that any set sample activates a key; the code ANDs the samples.
- BootloaderPrinter.c:338-346 reads extended addresses with their two bytes swapped
  (`HexBase.ExtendedAddressIsSwapped`). The linear record for the second 64 KiB has all that
  follows dropped (`HexBase.LinearHalfIsDropped`); the segment record for it has the data
  programmed over the first 64 KiB (`HexBase.SegmentHalfIsMisplaced`). Addresses that read the
  same both ways are taken as meant.
- BootloaderPrinter.c:300 promises to protect the bootloader section. A word just below it makes
  its first page the open one, and the next word below it erases that page
  (`HexGuard.BootloaderIsErased`).
- BootloaderPrinter.c:321-328 erases and writes the open page, not the page of the word: a word
  that comes after a gap, or first in a file that does not start in page 0, goes to the page that
  is open (`HexLoad.FirstWordIsMisplaced`, `HexMoves.DisorderIsNoCopy`).
- BootloaderPrinter.c:308-317 counts the bytes of a word from the end of the record: the first byte
  of an odd record is programmed after a byte left over from an earlier one
  (`HexRecords.DataRecordIsPut`).
- BootloaderDFU.c:319-320 throws away `start % 32` padding bytes, but the change of packets uses up
  one count: the padding is gone if and only if the block starts at a packet boundary, and
  otherwise its last byte is taken for data (`DfuTransfers.PaddingIsLeft`,
  `DfuTransfers.PaddingIsGoneExactly`).
- BootloaderDFU.c:784-786 says that the bootloader exits if a valid application is loaded; the code
  exits when the first word of flash is 0xFFFF, that is, when none is
  (`DfuCommands.StartStopsExactly`).
- combo.c:212-245 walks the rules of a state until the state number changes, which the last state
  has no row for: `ComboRuns.LostRunIsLost` is a run of keys from start-up that reads past the table.
- combo.c:187 marks the empty rightmost bit as impossible; it happens when keys only went up
  (`Combo.ChordForgetsA`).
- led.c:740 says that both balls change direction in a collision; the moving one keeps its
  direction (`Balls.Demo.Collide`). The explosion of both is unreachable, because
  `repeat_collision_limit_reached` never records the pair it compares with.
- midifighter64.c:832 promises that bank changes leave no stuck notes; that holds for keys, but a
  combo released in another bank leaves its note sounding (`ComboNotes.ChannelFollowsBank`).

## Model

| member | source | states |
|---|---|---|
| UsbMidi.StreamSysex | midi_fighter_64/midi.c:268-344 | the packet loop sends the packets of `Packetize`, and the bytes they carry are the message |
| UsbMidi.PacketizeLosesNothing | midi_fighter_64/midi.c:268-344 | the data bytes of the packets, by their Code Index Numbers, are the message, for every message |
| SysEx.CollectConcat | midi_fighter_64/sysex.c:95-241 | collecting a concatenation is collecting its parts one after the other, state and messages |
| SysEx.PacketizeRoundTrip | midi_fighter_64/midi.c:268-344 | the packets of a message of four bytes or more complete exactly that message and leave the collector idle |
| SysEx.PacketizeTail | midi_fighter_64/midi.c:297-343 | the same from the middle of a message on |
| SysEx.InterleavingIsInvisible | midi_fighter_64/midifighter64.c:566-744 | notes, control changes and real-time packets in between change neither messages nor state |
| SysEx.VendorDelivery | midi_fighter_64/sysex.c:45-77 | a vendor message of 6 to 67 bytes, however interleaved, runs its command once with bytes 5 on; a longer one runs nothing; both end idle |
| SysEx.Reassembler.Install | midi_fighter_64/sysex.c:80-85 | the handler is entered for its command number only, and numbers out of range change nothing |
| SysEx.Reassembler.Append | midi_fighter_64/sysex.c:142-152 | bytes are kept up to the buffer's end, never beyond it |
| SysEx.Reassembler.Handle | midi_fighter_64/sysex.c:45-77 | what is run, from the state and the bytes kept |
| SysEx.Reassembler.AppendAndHandle | midi_fighter_64/sysex.c:174-185 | an end packet's bytes and the verdict, or a stray write when no start was ever read |
| SysEx.Reassembler.StartOrContinue | midi_fighter_64/sysex.c:95-154 | a start or continue packet takes the machine to the collector's next state |
| SysEx.Reassembler.EndBytes | midi_fighter_64/sysex.c:162-188 | the body of the three-byte end from state and buffer alone: what it concludes, and the stray write before any start |
| SysEx.Reassembler.EndWith3 | midi_fighter_64/sysex.c:157-189 | the event is the judgement of the completed message; a stray write if and only if nothing was ever started |
| SysEx.Reassembler.EndWith2 | midi_fighter_64/sysex.c:192-215 | the event is the judgement of the completed message, with no stray write |
| SysEx.Reassembler.EndWith1 | midi_fighter_64/sysex.c:218-241 | the event is the judgement of the completed message, with no stray write |
| SysEx.Reassembler.Finish | midi_fighter_64/sysex.c:200-214 | the common body of the one- and two-byte ends |
| SysEx.Reassembler.Dispatch | midi_fighter_64/midifighter64.c:716-739 | one packet of any kind, by its Code Index Number |
| SysEx.Reassembler.Receive | midi_fighter_64/sysex.c:95-241 | over any packet run: a stray write exactly when a three-byte end precedes every start, and without one the events of the collected messages |
| SysEx.EndMatches | midi_fighter_64/sysex.c:45-77 | the verdict from the kept bytes is the judgement of the whole message: length 6 to 67, prefix, installed command |
| SysEx.ContinueRepresents | midi_fighter_64/sysex.c:95-154 | the state and the kept bytes represent the bytes read so far |
| Palette.AdjustedOrBright | midi_fighter_64/display.c:1109-1189 | the power adjustment yields a palette colour, or leaves a bright one alone |
| Palette.EchoKeepsExactlyThePalette | midi_fighter_64/display.c:94-118 | scaling out, doubling in and adjusting keeps a colour if and only if it is one of the twenty |
| Palette.EchoKeepsPalette | midi_fighter_64/display.c:94-118 | each of the twenty colours survives |
| Palette.PureHues | midi_fighter_64/display.c:1109-1189 | what a host's red, green, blue or black is stored as, for every level |
| Palette.MixedHues | midi_fighter_64/display.c:1109-1189 | what two sent components are stored as: cyan, pink, or chartreuse, yellow and orange by their ratio |
| Palette.PaleHues | midi_fighter_64/display.c:1109-1189 | what three sent components are stored as: white from green 19 on, lavender below |
| Palette.MapTriples | midi_fighter_64/display.c:1190-1271 | the in-place loop maps the whole triples of its range and touches nothing else |
| Palette.MappedTriple | midi_fighter_64/display.c:1109-1271 | each triple of the range is mapped on its own |
| Config.BulkStraysExactly | midi_fighter_64/config.c:286-325 | the bulk handler writes past its table if and only if the payload is a push with a valid tag and part whose size is covered by the message and exceeds the rest of the table |
| Config.MessageStraysExactly | midi_fighter_64/config.c:286-325 | of all messages exactly the vendor bulk pushes of at most 67 bytes with such a payload do so |
| Config.StrayPush | midi_fighter_64/config.c:314-324 | a 36-byte message that does, sent in packets, whatever its data and the device |
| Config.ReceiveMessage | midi_fighter_64/midifighter64.c:716-739 | receiving the packets of a message is handling that message |
| Config.HandleConcat | midi_fighter_64/sysex.c:45-77 | handling a run of messages is handling its parts in turn, with all that they send |
| Pushes.PushedTriple | midi_fighter_64/config.c:286-325 | a full part push sets the triples of its own part to the doubled, adjusted data and no others |
| Pushes.PushAllTriple | midi_fighter_64/config.c:286-325 | after any pushes a triple is that of the last push of its part |
| Pushes.SameTable | midi_fighter_64/config.c:286-325 | two push sequences with the same last push of every part leave the same table |
| Pushes.MessagePushes | midi_fighter_64/config.c:286-325 | a push message changes its own part of its own tag's table; other tags change nothing |
| Pushes.PushOfAnySize | midi_fighter_64/config.c:286-325 | a push message of any size: the covered bytes, the end byte among them, go to the part of its table; an uncovered size, or no such tag or part, pushes nothing |
| Pushes.PushesAreHandled | midi_fighter_64/config.c:286-325 | any run of push messages, tags mixed, changes each table by the pushes of its own tag, and sends nothing |
| Pushes.PushesAreReceived | midi_fighter_64/midifighter64.c:716-739 | and so do the packets of such a run |
| Pushes.PushOrderIsIrrelevant | midi_fighter_64/config.c:286-325 | two runs of push packets with the same last push of each part of each table leave the same device |
| Echo.StoredPartData | midi_fighter_64/config.c:359-368 | a pulled triple that is pushed back is stored rescaled and adjusted |
| Echo.PullMessagesAreReceived | midi_fighter_64/config.c:326-374 | the packets of a pull reassemble to its part messages |
| Echo.PullMessagePushes | midi_fighter_64/config.c:286-325 | a part message, received, pushes the part it carries |
| Echo.PushedBackIsEcho | midi_fighter_64/config.c:280-376 | all parts pushed back echo every triple |
| Echo.PushBack | midi_fighter_64/config.c:280-376 | all part messages, handled in order, push the whole table back and send nothing |
| Echo.PullIsAnswered | midi_fighter_64/config.c:326-374 | a pull request is answered with the parts of its table and changes nothing |
| Echo.EchoIdentity | midi_fighter_64/config.c:280-376 | pull, transport, reassembly, push and adjustment echo every triple and change nothing else; identity if and only if all triples are palette colours |
| Echo.EchoedTableIsSame | midi_fighter_64/display.c:1109-1271 | an echoed table is the same if and only if all triples are palette colours |
| Handlers.StoreDoubled | midi_fighter_64/config.c:314-324 | the copy loop stores the doubled bytes at the part's place only |
| Handlers.PushPart | midi_fighter_64/config.c:286-325 | the push branch on the array is `Pushed` |
| Handlers.ScalePart | midi_fighter_64/config.c:359-368 | the scaling loop fills the payload and leaves its frame |
| Handlers.BuildPart | midi_fighter_64/config.c:341-368 | the payload built is the part's message |
| Handlers.PullTable | midi_fighter_64/config.c:326-374 | the part loop sends the packets of all sixteen parts |
| Handlers.RunBulkPush | midi_fighter_64/config.c:286-325 | the push branch in place: the new table, or the stray end exactly when `Bulk` strays |
| Handlers.RunBulk | midi_fighter_64/config.c:280-376 | the bulk handler in place is `Bulk`, push and pull, and ends astray exactly when it does |
| Handlers.DecodeInto | midi_fighter_64/config.c:84-95 | the decode loop in place is `Decoded` |
| Handlers.RunPush | midi_fighter_64/config.c:98-152 | the settings push in place: settings assigned, saved and reported |
| Handlers.RunEvent | midi_fighter_64/config.c:378-385 | each installed command runs its handler; the end is the handler's, also for a stray push and the bootloader jump |
| Handlers.RunPacket | midi_fighter_64/midifighter64.c:716-739 | one packet through reassembler and handlers, with the same ends |
| Handlers.RunDevice | midi_fighter_64/midifighter64.c:497-746 | a packet run through the machines in place is `Receive` on values, up to a stray write, a stray push or the bootloader jump |
| Eeprom.SettingsRoundTrip | midi_fighter_64/constants.h:142-172 | the settings written are the settings read, and the version and first-boot bytes are not touched |
| Eeprom.SavedImage | midi_fighter_64/eeprom.c:158-192 | the saved image holds settings and both tables, all at disjoint addresses |
| Eeprom.SaveThenSetup | midi_fighter_64/eeprom.c:107-192 | save then setup is the identity on settings and tables when the version is current, and the factory state otherwise |
| Eeprom.StaleSetup | midi_fighter_64/eeprom.c:107-114 | any other version byte ends in the factory state with a current version |
| Eeprom.FactoryColours | midi_fighter_64/display.c:264-285 | the factory colours of every button: dark and blue in the first bank, white and green in the second |
| Eeprom.FactoryImage | midi_fighter_64/eeprom.c:197-234 | the factory settings, byte by byte at the addresses of the layout; the bank in use stays |
| Eeprom.SetupIsIdempotent | midi_fighter_64/eeprom.c:107-153 | a second setup changes nothing |
| Eeprom.NextBankSaved | midi_fighter_64/eeprom.c:179-190 | one more bank of each table in the image |
| Eeprom.Globals.SaveBank | midi_fighter_64/eeprom.c:179-190 | the inner loop copies one bank of a table into the image |
| Eeprom.Globals.SaveSettings | midi_fighter_64/eeprom.c:158-177 | the settings bytes are written, and no others |
| Eeprom.Globals.SaveAll | midi_fighter_64/eeprom.c:158-192 | the method in place is `SaveEdits` |
| Eeprom.Globals.FillBank | midi_fighter_64/display.c:264-285 | a bank of a table is filled with one colour, the rest stays |
| Eeprom.Globals.Reset | midi_fighter_64/eeprom.c:197-234 | the method in place is `FactoryReset` |
| Eeprom.Globals.LoadBank | midi_fighter_64/eeprom.c:141-152 | the inner loop loads one bank of a table, the rest stays |
| Eeprom.Globals.LoadSettings | midi_fighter_64/eeprom.c:116-138 | the settings of the image are loaded |
| Eeprom.Globals.LoadTables | midi_fighter_64/eeprom.c:140-152 | both tables of the image are loaded |
| Eeprom.Globals.Load | midi_fighter_64/eeprom.c:107-153 | the method in place is `Setup` |
| SettingsLaws.DecodedLast | midi_fighter_64/config.c:84-95 | the last value of a tag wins |
| SettingsLaws.DecodedAbsent | midi_fighter_64/config.c:84-95 | a tag that does not occur keeps its value |
| SettingsLaws.ReportedValue | midi_fighter_64/config.c:154-180 | the report decodes to the value of every reported tag |
| SettingsLaws.TiltMask | midi_fighter_64/config.c:98-152 | tilt and rotation in one byte: the nibbles that come back |
| SettingsLaws.ReportedAfterAssign | midi_fighter_64/config.c:98-180 | after a push every reported tag has its expected value |
| SettingsLaws.PushIsHandled | midi_fighter_64/config.c:98-152 | a settings message, received, is the settings push |
| SettingsLaws.PullConfigIsAnswered | midi_fighter_64/config.c:182-188 | a settings pull sends the report and changes nothing |
| SettingsLaws.PushedSettingsAreReported | midi_fighter_64/config.c:84-188 | for any tag/value list: push, save, reload and pull report the decoded value of every stored tag |
| SettingsLaws.PushedSettingsAreStored | midi_fighter_64/config.c:98-152 | the EEPROM byte that each tag of a push ends up in; channel and tilt mode off by one, two settings untouched |
| SettingsLaws.PushSelectsBank | midi_fighter_64/config.c:126-133 | a push that turns the side bank off selects the first bank, every other one leaves the bank, and the colours stay |
| SettingsLaws.PullMessages | midi_fighter_64/config.c:182-188 | of all pull requests only request 0 is answered, and none changes anything |
| SettingsLaws.SystemMessages | midi_fighter_64/config.c:194-239 | the system command as a message: bootloader, factory reset with its report, or nothing |
| SettingsLaws.IdentityIsAnswered | midi_fighter_64/sysex.c:45-77 | an identity request to the device's number or to all is answered with the 17 bytes of its identity, any other one with nothing |
| SettingsLaws.TiltSurvivesExactlyWhenItFits | midi_fighter_64/config.c:98-180 | rotation comes back if and only if it is below 4; tilt if and only if it is below 16 and has every bit of rotation's high nibble |
| Keys.SlotIsRecent | midi_fighter_64/key.c:121-149 | a full ring's slot holds one of the last ten samples |
| Keys.Debounced | midi_fighter_64/key.c:170-178 | down, or up, in all samples from ten before the scan to its end reads as pressed, or released, for every interleaving |
| Keys.UndisturbedScan | midi_fighter_64/key.c:170-178 | without a sample in between a key reads as pressed if and only if all ten last samples have it |
| Keys.EarlyScanIsEmpty | midi_fighter_64/key.c:170-178 | before ten samples no key reads as pressed |
| Keys.Scanner.ShiftIn | midi_fighter_64/key.c:136-144 | the shift loop and the inversion give the keys with a high pin |
| Keys.Scanner.Tick | midi_fighter_64/key.c:121-149 | one interrupt stores one sample, and the ring goes on holding the last of each slot |
| Keys.Scanner.AndSlot | midi_fighter_64/key.c:174-176 | one slot ANDed in by bytes, with interrupts before each byte |
| Keys.Scanner.Read | midi_fighter_64/key.c:170-178 | the key state is that of `ReadKeys`, and all samples that arrived are in the ring |
| Keys.Scanner.Calc | midi_fighter_64/key.c:187-195 | keys that went down and up, which together lead from the old state to the new one |
| Combo.OffsetIsARule | midi_fighter_64/combo.c:67-77 | the offset of every state is the row of one of its rules |
| Combo.OffsetIsFirst | midi_fighter_64/combo.c:67-77 | and it is the first of them |
| Combo.RulesAreSorted | midi_fighter_64/combo.c:88-139 | the rules are sorted by state, in steps of at most one |
| Combo.RuleIsInRange | midi_fighter_64/combo.c:88-139 | every rule leads to a state, and the last state has the last rule alone |
| Combo.RuleIsSound | midi_fighter_64/combo.c:88-139 | DOWN actions are emitted exactly on entering states 4, 8, 17 and 36, RELEASE actions only from them |
| Combo.WalkIsSound | midi_fighter_64/combo.c:212-247 | from a state that holds no combo the walk ends inside the table, in a state that holds what it emits |
| Combo.TransitionIsFirstRule | midi_fighter_64/combo.c:212-247 | the transition is the first rule of the whole table that applies, or back to state 0 |
| Combo.LostExactly | midi_fighter_64/combo.c:212-245 | one walk runs past the table if and only if it is in state 36 and key 6 does not go up |
| ComboLost.StepIsInTable | midi_fighter_64/combo.c:161-261 | a step stays in the table, and reaches the last state without a held combo only by the chord with keys released, or by doing nothing |
| ComboLost.UnheldIsForgotten | midi_fighter_64/combo.c:180-194 | in the last state with no combo held, the chord has made the recognizer forget E, and the keys have not changed since |
| ComboLost.LostRunExactly | midi_fighter_64/combo.c:161-261 | a run from start-up reads past the table if and only if E is forgotten so and key 6 is still down when the keys next change |
| ComboRuns.LostRunIsLost | midi_fighter_64/combo.c:161-261 | a run of 22 key masks from start-up that does |
| ComboRuns.ChordIsReported | midi_fighter_64/combo.c:180-194 | from every state of the table, a step that completes the chord reports B with the least key it pressed, unless B is held |
| ComboRuns.HeldBStep | midi_fighter_64/combo.c:197-208 | with B held it is released when its release key goes up, and nothing else happens |
| ComboRuns.OtherStepIsNotB | midi_fighter_64/combo.c:161-261 | no other step reports B or its release |
| ComboRuns.BIsHeldExactly | midi_fighter_64/combo.c:161-261 | in every run that stays in the table B is held as the masks alone say, and reported down and released at exactly the steps where that begins and ends |
| ComboRuns.FirstChordIsReported | midi_fighter_64/combo.c:180-194 | the first chord of any run is reported, whatever the order of its keys and whatever came before |
| ComboRuns.RulesDiffer | midi_fighter_64/combo.c:88-139 | the rules of a state test different keys |
| ComboRuns.RuleIsTaken | midi_fighter_64/combo.c:212-258 | one key pressed or released as a rule of the state asks takes that rule, second rules too |
| ComboRuns.ComboCIsReported | midi_fighter_64/combo.c:88-139 | from state 0, keys 5, 6, 9 and 10 pressed over any other keys report C, to be released by key 10 |
| ComboRuns.ComboCAfterFour | midi_fighter_64/combo.c:88-139 | also after a tap of key 4 |
| ComboRuns.ComboCWithinE | midi_fighter_64/combo.c:88-139 | and out of the middle of E, with key 4 held |
| ComboRuns.ComboDIsReported | midi_fighter_64/combo.c:88-139 | keys 4, 5, 6 and 6 tapped and key 7 pressed report D |
| ComboRuns.ComboDAfterFour | midi_fighter_64/combo.c:88-139 | also out of E after its second key 4 |
| ComboRuns.ComboDAfterFive | midi_fighter_64/combo.c:88-139 | and after its second key 5 |
| ComboRuns.ComboEIsReported | midi_fighter_64/combo.c:88-139 | keys 8, 8, 0, 0, 4, 5, 4, 5 and 7 tapped and key 6 pressed report E |
| Combo.WordsAreScanned | midi_fighter_64/combo.c:166-168 | the low sixteen bits of the key edges are the edges of the low sixteen bits |
| Combo.StepIsBracketed | midi_fighter_64/combo.c:161-261 | a step releases a held combo exactly when its release key is up, and reports DOWN only when none is held, if and only if the chord does not replace another combo; the invariant is kept |
| Combo.RunIsBracketed | midi_fighter_64/combo.c:161-261 | all steps of a run are so if and only if the chord never replaces another combo, and then DOWN and RELEASE of the same combo alternate |
| Combo.ChordForgetsA | midi_fighter_64/combo.c:180-194 | with combo A held the chord reports B, or nothing, and A is never released |
| Combo.ComboAIsReported | midi_fighter_64/combo.c:88-139 | keys 0 to 3 pressed one after the other end with combo A, to be released by key 3 |
| Combo.ClobberedRun | midi_fighter_64/combo.c:161-261 | a concrete run from start-up that reports A down and then B down |
| Combo.Rightmost | midi_fighter_64/combo.c:143-152 | the least key of a mask, or nothing for the empty mask |
| Combo.RightmostBit | midi_fighter_64/combo.c:143-152 | the bit scan finds it |
| Combo.Recognizer.FollowRules | midi_fighter_64/combo.c:212-258 | the rule walk in place is `Transition`, or is lost past the table |
| Combo.Recognizer.Recognize | midi_fighter_64/combo.c:161-261 | one call in place is `Recognized` on the low sixteen bits |
| ComboNotes.ActionIsHeard | midi_fighter_64/midifighter64.c:850-891 | what the host sounds after one action, for any velocity |
| ComboNotes.ExactIffMatched | midi_fighter_64/midifighter64.c:850-891 | over any alternating actions, each with the settings of its moment: the host sounds exactly the open combo's note throughout if and only if each RELEASE is on the channel of its DOWN |
| ComboNotes.ChannelFollowsBank | midi_fighter_64/midifighter64.c:850-891 | with an unchanged configuration that is so if and only if both are sent in the same bank |
| ComboNotes.ComboRunIsHeard | midi_fighter_64/midifighter64.c:850-891 | the same from start-up, over any run of key masks that the chord does not disturb |
| Notes.KeyEffect | midi_fighter_64/midi.c:162-235 | the messages of a key touch no other note, and its own as stated |
| Notes.TurnIsExact | midi_fighter_64/midifighter64.c:791-848 | the host sounds exactly the held keys' notes after a turn if and only if every released key closes its note |
| Notes.TiedNext | midi_fighter_64/midifighter64.c:814-833 | the bank bits keep recording on which channel each held note was opened |
| Notes.NoStuckNotes | midi_fighter_64/midifighter64.c:791-848 | over any run with fixed channel and note output, and any bank changes, each held key sounds on the channel of the bank it was pressed in, and nothing sounds once all are up; if every press opens a note, exactly the keys that are down have one |
| Notes.VelocityIsSent | midi_fighter_64/midi.c:162-235 | the notes of a key carry the configured velocity when it goes down and when it goes up |
| Notes.RunIsMidi | midi_fighter_64/midi.c:162-235 | every packet of every run is a MIDI message whose status byte and data bytes agree with its Code Index Number |
| Controls.KeyKeeps | midi_fighter_64/midifighter64.c:798-846 | the messages of a key set its own controller to 127 or 0 on the configured channel, and no other |
| Controls.TurnShows | midi_fighter_64/midifighter64.c:791-848 | a turn with control changes on keeps the host's values a picture of the keys |
| Controls.ControlsFollowKeys | midi_fighter_64/midifighter64.c:791-848 | so does every run: 127 for each key that is down, 0 for each other, in either bank |
| Notes.Player.Press | midi_fighter_64/midifighter64.c:802-828 | messages of a key that goes down, by output mode, and its bank bit |
| Notes.Player.Release | midi_fighter_64/midifighter64.c:829-845 | messages of a key that goes up, on the channel of its bank bit |
| Notes.Player.ServeKey | midi_fighter_64/midifighter64.c:798-846 | one key's packets and bank bit |
| Notes.Player.Serve | midi_fighter_64/midifighter64.c:791-848 | the key loop sends the packets of all 64 keys in order |
| Feedback.LagsNext | midi_fighter_64/midifighter64.c:592-682 | every message and refresh, with any data bytes, keeps each key behind its eager value as stated |
| Feedback.RunLags | midi_fighter_64/midifighter64.c:186-206 | so does every run that stays in the tables |
| Feedback.StraysExactly | midi_fighter_64/midifighter64.c:626-681 | a run stores past the animation table if and only if it has an animation note of 128 or more |
| Feedback.RefreshShows | midi_fighter_64/midifighter64.c:186-206 | after a run and a refresh a key shows its eager value, unless a young NoteOff is held back: then, exactly, its last NoteOn |
| FeedbackHistory.RunRemembers | midi_fighter_64/midifighter64.c:186-206 | after any run from start-up the pending stamp and whether a key is lit are those of its last NoteOn, its last NoteOff and the refreshes since |
| FeedbackHistory.AddressedExactly | midi_fighter_64/midifighter64.c:597-625 | notes 36 to 99 on the configured channel are keys 0 to 63, on the channel before it keys 64 to 127; nothing else addresses a key |
| FeedbackHistory.LitExactly | midi_fighter_64/midifighter64.c:592-682 | at any point of a run from start-up a key shows its last NoteOn if no refresh since found an old NoteOff for it, and nothing otherwise |
| FeedbackHistory.NoteOnShows | midi_fighter_64/midifighter64.c:592-625 | a NoteOn after any run sets its entry, by channel and note, clears its stamp and changes nothing else |
| FeedbackHistory.NoteOffStamps | midi_fighter_64/midifighter64.c:634-672 | a NoteOff after any run stamps its entry and changes nothing else |
| FeedbackHistory.AnimationIsSet | midi_fighter_64/midifighter64.c:626-681 | on the channel after it a note sets its own animation at once |
| FeedbackHistory.OtherMessageIsIgnored | midi_fighter_64/midifighter64.c:592-682 | off the animation channel, notes of no button, other channels and other messages change nothing |
| FeedbackHistory.ShownExactly | midi_fighter_64/midifighter64.c:186-206 | at any point of a run from start-up a key shows its eager value, unless it is held back by the events: then, exactly, its last NoteOn |
| Feedback.YoungExactly | midi_fighter_64/midifighter64.c:187-192 | a NoteOff is held back d ms later if and only if d modulo 128 is 0 or 1 and the seven-bit clock has not wrapped |
| Feedback.Monitor.UpdateNoteOffs | midi_fighter_64/midifighter64.c:186-206 | the pass over 128 keys in place is a refresh |
| Balls.MoveHorizontally | midi_fighter_64/led.c:648-671 | at most one column, only the way the ball goes, turning at a wall and nowhere else; `BallMotion.AcrossIsSlide` says when |
| Balls.MoveVertically | midi_fighter_64/led.c:613-646 | at most one row, never above the ball's ceiling, turning at floor and ceiling and nowhere else; `BallMotion.UpDownIsSlide` says when |
| Balls.RandomColor | midi_fighter_64/led.c:585-586 | a colour is one of the first eighteen after black, drawn by the five bits |
| Balls.Demo.constructor | midi_fighter_64/led.c:567-569 | the grid starts empty and valid |
| Balls.Demo.Setup | midi_fighter_64/led.c:567-569 | every later setup empties the grid and keeps the invariant, the side and the delay |
| Balls.Demo.RepeatLimitReached | midi_fighter_64/led.c:684-707 | counts collisions of the recorded pair and starts over at any other |
| Balls.Demo.Collide | midi_fighter_64/led.c:738-797 | the moving ball keeps its direction and tries again at its next turn, the other is turned towards it and gets a colour by chance; no explosion |
| Balls.Demo.Relocate | midi_fighter_64/led.c:730-734 | one ball moves to the empty cell, the invariant is kept |
| Balls.Demo.Visit | midi_fighter_64/led.c:723-797 | a ball goes where its motion takes it, if and only if the other ball is not there; otherwise neither moves, and they collide as stated |
| Balls.Demo.ScanRow | midi_fighter_64/led.c:722-811 | a row scan keeps every ball, every ball not counted yet is still ahead, and a ball by itself has had the turns counted |
| Balls.Demo.Scan | midi_fighter_64/led.c:721-812 | the scan keeps every ball on the grid and counts at least as many as there are, at most 64; a ball by itself has had exactly the turns counted |
| Balls.Demo.NewBall | midi_fighter_64/led.c:571-611 | the delay, the side, and a ball that enters at its ceiling, or nothing, and only when its cell is taken |
| Balls.Demo.Frame | midi_fighter_64/led.c:709-818 | the invariant over every frame: no ball leaves, at most the next one enters, no counter wraps; a ball by itself travels as counted |
| Balls.Demo.ScanCell | midi_fighter_64/led.c:723-797 | the ball in a cell has its turn; after a collision the other one does not turn this one vertically again in this scan |
| Balls.Demo.Drop | midi_fighter_64/led.c:583-607 | the new ball's colour, height, slowdown, counters and direction by the three draws, or its cell is taken |
| BallMotion.AcrossIsSlide | midi_fighter_64/led.c:648-671 | the columns are a track with one pace |
| BallMotion.UpDownIsSlide | midi_fighter_64/led.c:613-646 | the rows are a track up to the ball's ceiling with a pace for each row |
| BallMotion.TravelsBothWays | midi_fighter_64/led.c:613-671 | turn after turn the two motions are independent and follow their tracks |
| BallMotion.ColumnIsLeft | midi_fighter_64/led.c:648-671 | a ball stays in its column until its counter is at its slowdown, and then goes one on, its way |
| BallMotion.WallIsLeft | midi_fighter_64/led.c:648-671 | at a wall it turns instead, and leaves at the next turn |
| BallMotion.RowIsLeft | midi_fighter_64/led.c:613-646 | the same for a row with its own slowdown |
| BallMotion.FloorIsLeft | midi_fighter_64/led.c:613-646 | the same for floor and ceiling |
| BallMotion.SlidesRepeat | midi_fighter_64/led.c:613-671 | a journey up and down a track leads back to the same cell, direction and counter |
| BallMotion.ColumnsRepeat | midi_fighter_64/led.c:648-671 | with slowdown f the column, direction and counter repeat every 14 f + 2 turns |
| BallMotion.RowsRepeat | midi_fighter_64/led.c:613-646 | the rows repeat after the turns of one journey; 97 for the highest ceiling |
| HexLoader.NoiseIsIgnored | LUFA-151115/Bootloaders/Printer/BootloaderPrinter.c:255-258 | characters that are neither hex digits nor colons change nothing, anywhere in the text |
| HexLoader.Loader.Parse | LUFA-151115/Bootloaders/Printer/BootloaderPrinter.c:239-371 | one character in place is `Step` |
| HexLoader.Loader.ParseAll | LUFA-151115/Bootloaders/Printer/BootloaderPrinter.c:376-416 | a whole text in place is `Run` |
| HexRecords.DigitRoundTrip | LUFA-151115/Bootloaders/Printer/BootloaderPrinter.c:198-206 | a written digit is read back |
| HexRecords.RunHex | LUFA-151115/Bootloaders/Printer/BootloaderPrinter.c:255-266 | hex text feeds its bytes to the parser |
| HexRecords.HeaderIsRead | LUFA-151115/Bootloaders/Printer/BootloaderPrinter.c:276-294 | count, address and type of a record, and their sum, from any base |
| HexRecords.CheckMatches | LUFA-151115/Bootloaders/Printer/BootloaderPrinter.c:353-356 | the record's checksum is the complement of what the parser summed |
| HexRecords.PairIsRead | LUFA-151115/Bootloaders/Printer/BootloaderPrinter.c:296-351 | one word of a data record is programmed at its address |
| HexRecords.DataIsRead | LUFA-151115/Bootloaders/Printer/BootloaderPrinter.c:296-351 | the data of a record, of even or odd length: the words programmed, the byte kept, the sum |
| HexRecords.DataRecordIsPut | LUFA-151115/Bootloaders/Printer/BootloaderPrinter.c:239-371 | a data record of any length below the bootloader, in any state of the loader, hands its words to the open page at consecutive addresses; one of odd length starts with the byte kept from before |
| HexLoad.DataRecordsArePut | LUFA-151115/Bootloaders/Printer/BootloaderPrinter.c:239-371 | contiguous records of even length program the image word by word, in any split |
| HexLoad.LoadingNext | LUFA-151115/Bootloaders/Printer/BootloaderPrinter.c:308-337 | a word of the image: in the buffer of its erased page, or with the whole page written |
| HexLoad.EndRecordExits | LUFA-151115/Bootloaders/Printer/BootloaderPrinter.c:353-365 | the end record stops the loader, in any state, and writes the open page only if it is not the base page |
| HexLoad.LoadIsCopy | LUFA-151115/Bootloaders/Printer/BootloaderPrinter.c:198-371 | for every image that starts in the first page, every split and noise: the loader stops, and flash is image, blank tail and untouched rest, if and only if the image reaches the page's end or is blank |
| HexLoad.FirstWordIsMisplaced | LUFA-151115/Bootloaders/Printer/BootloaderPrinter.c:320-336 | the first word of an image that starts later goes to page 0, whose other bytes are blanked |
| HexLoad.LoadElsewhere | LUFA-151115/Bootloaders/Printer/BootloaderPrinter.c:198-371 | for every image that starts later, every split and noise: the loader stops, and flash is the misplaced first word, the rest of the image, a blank tail and the untouched rest |
| HexBase.ExtendedRecord | LUFA-151115/Bootloaders/Printer/BootloaderPrinter.c:338-346 | an extended address record sets the base from its bytes, the second one first, and programs nothing |
| HexBase.ExtendedAddressIsSwapped | LUFA-151115/Bootloaders/Printer/BootloaderPrinter.c:338-346 | the base is the address that the record means if and only if its two bytes are equal |
| HexBase.ExtendedOfAnyLength | LUFA-151115/Bootloaders/Printer/BootloaderPrinter.c:338-346 | an extended address record of any length: the base of its last two bytes that make a word, and nothing programmed |
| HexBase.OtherRecordIsIgnored | LUFA-151115/Bootloaders/Printer/BootloaderPrinter.c:318-347 | a record of any type but 0, 2 and 4, in any state, with any data below the bootloader: base and memory are as before, but for the open page that its checksum writes |
| HexBase.BaseIsStuck | LUFA-151115/Bootloaders/Printer/BootloaderPrinter.c:296-306 | for every text, once the base is in or above the bootloader it never changes again, and flash changes at most by the page that was open |
| HexBase.ExtendedIsStuckExactly | LUFA-151115/Bootloaders/Printer/BootloaderPrinter.c:338-346 | of all extended address records exactly those whose swapped address is in or above the bootloader do so |
| HexBase.RestIsDropped | LUFA-151115/Bootloaders/Printer/BootloaderPrinter.c:296-346 | whatever follows such a record is dropped |
| HexBase.LinearHalfIsDropped | LUFA-151115/Bootloaders/Printer/BootloaderPrinter.c:343-346 | after the linear record for the second 64 KiB the base is 16 MiB and all that follows is dropped |
| HexBase.SegmentHalfIsMisplaced | LUFA-151115/Bootloaders/Printer/BootloaderPrinter.c:338-341 | after the segment record for the second 64 KiB data is programmed from address 256 on |
| HexMoves.InPlaceIsLoaded | LUFA-151115/Bootloaders/Printer/BootloaderPrinter.c:308-337 | while every word finds its own page open and nothing of the file erased with it, each flash byte is as wanted, or blank with the word in the buffer |
| HexMoves.OrderedIsCopy | LUFA-151115/Bootloaders/Printer/BootloaderPrinter.c:308-365 | such words, with the last page written, leave a copy: words in place, rest of their pages blank, all else untouched |
| HexMoves.AgreeAlong | LUFA-151115/Bootloaders/Printer/BootloaderPrinter.c:308-337 | two runs that differ in one word, which finds another page open or whose page is erased later, end with the same byte in its place |
| HexMoves.DisorderIsNoCopy | LUFA-151115/Bootloaders/Printer/BootloaderPrinter.c:308-365 | words in any other order: there is one with another byte for which the copy fails |
| HexFiles.FileEnds | LUFA-151115/Bootloaders/Printer/BootloaderPrinter.c:239-416 | loading the text of a file is the moves of its records, and the visit of the end record to the base address |
| HexFiles.CopiesExactlyInOrder | LUFA-151115/Bootloaders/Printer/BootloaderPrinter.c:239-416 | a file with gaps and extended addresses, each address given once, is loaded as a copy whatever its bytes are if and only if its words are in order |
| HexOrder.FollowingIsInPlace | LUFA-151115/Bootloaders/Printer/BootloaderPrinter.c:239-371 | records that each start in the page where the data before ended have every word in place |
| HexOrder.DataCopiesExactly | LUFA-151115/Bootloaders/Printer/BootloaderPrinter.c:239-416 | a file of data records, each address given once, is loaded as a copy whatever its bytes are if and only if they follow each other so, from page 0 on, and end beyond it |
| HexOrder.FollowingIsCopy | LUFA-151115/Bootloaders/Printer/BootloaderPrinter.c:239-416 | with extended addresses, records that follow each other leave a copy if the last page is complete or not the base page |
| HexOrder.EveryImageLoads | LUFA-151115/Bootloaders/Printer/BootloaderPrinter.c:239-416 | every image of whole pages below the bootloader has a file that loads it |
| HexGuard.BootIsKept | LUFA-151115/Bootloaders/Printer/BootloaderPrinter.c:296-337 | for every text in which no data word is completed while a page of the bootloader is open, the section is unchanged |
| HexGuard.StrikeIsExact | LUFA-151115/Bootloaders/Printer/BootloaderPrinter.c:296-337 | such a word leaves the section unchanged if and only if the page already was blank, if it stays open, or what the buffer and the word make of it |
| HexGuard.StepTwins | LUFA-151115/Bootloaders/Printer/BootloaderPrinter.c:239-371 | what flash holds has no influence on anything else that a character does |
| HexGuard.BootIsKeptExactly | LUFA-151115/Bootloaders/Printer/BootloaderPrinter.c:296-337 | for every text, the section is kept whatever flash holds if and only if no data word is completed while one of its pages is open |
| HexGuard.BootloaderIsErased | LUFA-151115/Bootloaders/Printer/BootloaderPrinter.c:296-337 | a file of three correct records below the bootloader after which its first page, but for one word, is blank |
| HexFaults.WrongDataIsPut | LUFA-151115/Bootloaders/Printer/BootloaderPrinter.c:308-356 | a data record with a wrong checksum is programmed all the same; only the last page write is not made |
| HexFaults.WrongExtendedIsTaken | LUFA-151115/Bootloaders/Printer/BootloaderPrinter.c:338-356 | an extended address with a wrong checksum is taken |
| HexFaults.WrongOtherIsIgnored | LUFA-151115/Bootloaders/Printer/BootloaderPrinter.c:318-356 | any other record with a wrong checksum changes nothing, and an end record with one does not stop the loader |
| HexFaults.HighRecordIsGivenUp | LUFA-151115/Bootloaders/Printer/BootloaderPrinter.c:298-306 | a record with data in or above the bootloader is given up at its first byte, and the open page with it |
| HexExit.StepIsTracked | LUFA-151115/Bootloaders/Printer/BootloaderPrinter.c:239-371 | each character keeps the parser's fields equal to what the line's bytes say, and stops it exactly on a checked end record |
| HexExit.RunIsTracked | LUFA-151115/Bootloaders/Printer/BootloaderPrinter.c:239-371 | for every text the checksum is the sum of the bytes since the last colon, outside the checksum state |
| HexExit.RunFollows | LUFA-151115/Bootloaders/Printer/BootloaderPrinter.c:239-371 | for every text the address is what the line's header says, and an end-of-file line is given up only for data in or above the bootloader |
| HexExit.ExitIsChecked | LUFA-151115/Bootloaders/Printer/BootloaderPrinter.c:376-416 | the loader stops if and only if some beginning of the text ends with a checked end-of-file record |
| HexExit.StandardExit | LUFA-151115/Bootloaders/Printer/BootloaderPrinter.c:376-416 | in texts without end-of-file records that carry data the condition is one on the text alone |
| DfuDevice.DiscardFiller | LUFA-151115/Bootloaders/DFU/BootloaderDFU.c:585-605 | the filler loop is `Discarded` |
| DfuDevice.WriteFlash | LUFA-151115/Bootloaders/DFU/BootloaderDFU.c:325-385 | the flash write loop is `ProgramFlash` |
| DfuDevice.EraseChip | LUFA-151115/Bootloaders/DFU/BootloaderDFU.c:790-810 | the erase loop is `ErasedFrom` |
| DfuDevice.BlankCheck | LUFA-151115/Bootloaders/DFU/BootloaderDFU.c:717-745 | the first used byte of the application, or none |
| DfuDevice.ReadFlash | LUFA-151115/Bootloaders/DFU/BootloaderDFU.c:448-486 | the flash words of a block |
| DfuDevice.ReadEeprom | LUFA-151115/Bootloaders/DFU/BootloaderDFU.c:487-509 | the EEPROM bytes of a block, cell by cell in closed form |
| DfuDevice.Bootloader.WriteEeprom | LUFA-151115/Bootloaders/DFU/BootloaderDFU.c:386-408 | the EEPROM write loop is `ProgramEeprom`, whose effect `DfuCopy.ProgramEepromRun` states |
| DfuDevice.Bootloader.Request | LUFA-151115/Bootloaders/DFU/BootloaderDFU.c:250-578 | every request in place is `Handle` |
| DfuLaws.ErasedIsBlank | LUFA-151115/Bootloaders/DFU/BootloaderDFU.c:790-810 | the erase loop blanks every application byte and no other |
| DfuLaws.LockedStep | LUFA-151115/Bootloaders/DFU/BootloaderDFU.c:250-578 | a request to a secure bootloader changes no memory, or wipes the application |
| DfuLaws.LockedStepIsBlind | LUFA-151115/Bootloaders/DFU/BootloaderDFU.c:250-578 | what it answers does not depend on the memories |
| DfuLaws.SecureUntilWiped | LUFA-151115/Bootloaders/DFU/BootloaderDFU.c:611-654 | over any request sequence a secure bootloader stays locked with its memories unchanged, until a request that leaves every application page blank |
| DfuLaws.SecureRunIsBlind | LUFA-151115/Bootloaders/DFU/BootloaderDFU.c:250-578 | two secure bootloaders that differ only in memory answer any requests alike as long as they are secure |
| DfuLaws.OpenStaysOpen | LUFA-151115/Bootloaders/DFU/BootloaderDFU.c:611-654 | no request secures an open bootloader |
| DfuCopy.NextWord | LUFA-151115/Bootloaders/DFU/BootloaderDFU.c:339-358 | words are read in order across packet ends, with a 0 after an odd packet |
| DfuCopy.WholeIsStream | LUFA-151115/Bootloaders/DFU/BootloaderDFU.c:339-358 | packets of whole words are read as they are |
| DfuCopy.CopiesWord | LUFA-151115/Bootloaders/DFU/BootloaderDFU.c:360-382 | each word of the loop: buffered, page written and next erased, or last page written |
| DfuCopy.ProgramIsCopy | LUFA-151115/Bootloaders/DFU/BootloaderDFU.c:325-385 | the write loop copies the image into the pages of its block, rotated by the start address, for any start |
| DfuCopy.CopiedByte | LUFA-151115/Bootloaders/DFU/BootloaderDFU.c:325-385 | what each byte of a block at an even address holds, exactly |
| DfuCopy.StoredAt | LUFA-151115/Bootloaders/DFU/BootloaderDFU.c:386-408 | an EEPROM cell holds the last byte stored in it |
| DfuCopy.NotStored | LUFA-151115/Bootloaders/DFU/BootloaderDFU.c:386-408 | a cell outside the block keeps its value |
| DfuCopy.StoredIsRead | LUFA-151115/Bootloaders/DFU/BootloaderDFU.c:386-509 | an EEPROM block is read back if and only if no byte of it was overwritten by a different one; always up to the EEPROM's size |
| DfuCopy.ProgramEepromRun | LUFA-151115/Bootloaders/DFU/BootloaderDFU.c:386-408 | the EEPROM loop stores the bytes of the stream one after the other |
| DfuBlocks.PaddingIsDiscarded | LUFA-151115/Bootloaders/DFU/BootloaderDFU.c:585-605 | how many padding bytes are taken before a block, by its start address: one less than asked for |
| DfuBlocks.DownloadIsCopy | LUFA-151115/Bootloaders/DFU/BootloaderDFU.c:267-413 | a download of any block whose pages are in flash, in any packets: what is read word by word, rotated within its pages, the rest of them blank, every other byte untouched |
| DfuBlocks.CopiedBlock | LUFA-151115/Bootloaders/DFU/BootloaderDFU.c:325-385 | a block at an even address is where it belongs if and only if each byte that the rotation moves away is what is found there; always if it starts a page or stays in one |
| DfuBlocks.OddStartIsEven | LUFA-151115/Bootloaders/DFU/BootloaderDFU.c:325-385 | a block at an odd address is programmed from the even address below it |
| DfuBlocks.UploadReadsBlock | LUFA-151115/Bootloaders/DFU/BootloaderDFU.c:443-513 | a read command and an upload send exactly the block and change no memory |
| DfuBlocks.DownloadReadsBack | LUFA-151115/Bootloaders/DFU/BootloaderDFU.c:267-513 | what is uploaded after a download, and that it is what was downloaded to an even address if and only if the rotation moves nothing that differs |
| DfuBlocks.EepromDownloadIsCopy | LUFA-151115/Bootloaders/DFU/BootloaderDFU.c:267-413 | an EEPROM download stores its bytes and nothing else |
| DfuBlocks.EepromUpload | LUFA-151115/Bootloaders/DFU/BootloaderDFU.c:487-509 | an EEPROM read and upload send the cells of the block, and the start address moves behind it |
| DfuBlocks.EepromReadsBack | LUFA-151115/Bootloaders/DFU/BootloaderDFU.c:267-513 | what was downloaded to EEPROM is uploaded if and only if no byte of it was overwritten by a different one |
| DfuBlocks.ReadIsAnswered | LUFA-151115/Bootloaders/DFU/BootloaderDFU.c:816-859 | a read command and an upload answer with the bootloader or signature byte asked for if and only if no block is waiting and the error state does not take the upload; unknown bytes are an error |
| DfuTransfers.PaddingIsLeft | LUFA-151115/Bootloaders/DFU/BootloaderDFU.c:585-605 | of the padding asked for the last byte is left before the data, unless there is none |
| DfuTransfers.PaddingIsGoneExactly | LUFA-151115/Bootloaders/DFU/BootloaderDFU.c:585-605 | the data is next if and only if the block starts at a packet boundary |
| DfuTransfers.WholeWordsExactly | LUFA-151115/Bootloaders/DFU/BootloaderDFU.c:339-358 | the packets of a host are whole words if and only if the block starts at a packet boundary, at an odd address, or is in one packet |
| DfuTransfers.SplitWord | LUFA-151115/Bootloaders/DFU/BootloaderDFU.c:339-358 | otherwise a word is split between the first two packets and a 0 is read in between |
| DfuTransfers.DownloadIsCut | LUFA-151115/Bootloaders/DFU/BootloaderDFU.c:325-385 | a download that the host breaks off: the words read so far fill whole pages, the next page is erased, the rest is in the page buffer, and the start address stays |
| DfuTransfers.RotatedTransfer | LUFA-151115/Bootloaders/DFU/BootloaderDFU.c:267-513 | a page of data for the second packet of a page, downloaded and uploaded: its last 32 bytes are found before the block, and old flash in their place |
| DfuCommands.CommandIsRun | LUFA-151115/Bootloaders/DFU/BootloaderDFU.c:267-312 | a request of one packet runs its command; parameters that are not sent keep their values |
| DfuCommands.ChipIsErased | LUFA-151115/Bootloaders/DFU/BootloaderDFU.c:790-810 | the chip erase, to a secure or an open bootloader: every byte below the bootloader blank, all other flash and the EEPROM as before, and the bootloader open |
| DfuCommands.UsedByteIsReported | LUFA-151115/Bootloaders/DFU/BootloaderDFU.c:717-745 | a blank check of used flash reports the address of the first used byte, in its bank, and the status |
| DfuCommands.BlankIsPassed | LUFA-151115/Bootloaders/DFU/BootloaderDFU.c:717-745 | a blank check of blank flash changes nothing |
| DfuCommands.ErasedIsPassed | LUFA-151115/Bootloaders/DFU/BootloaderDFU.c:717-810 | after a chip erase the blank check passes |
| DfuCommands.BankIsSelected | LUFA-151115/Bootloaders/DFU/BootloaderDFU.c:648-652 | the bank command selects the 64 KiB bank and nothing else |
| DfuCommands.StartStopsExactly | LUFA-151115/Bootloaders/DFU/BootloaderDFU.c:752-789 | the start command and an empty download stop the bootloader if and only if the first word of flash is blank and the way to start is not 0 |
| DfuCommands.SecureRefuses | LUFA-151115/Bootloaders/DFU/BootloaderDFU.c:611-632 | in secure mode every other command is an error and does nothing |
| DfuCommands.UnknownIsIgnored | LUFA-151115/Bootloaders/DFU/BootloaderDFU.c:634-654 | unknown commands and memories do nothing |
| DfuCommands.StatusIsReported | LUFA-151115/Bootloaders/DFU/BootloaderDFU.c:519-576 | the state and status codes that are reported |
| DfuCommands.ErrorIsCleared | LUFA-151115/Bootloaders/DFU/BootloaderDFU.c:519-576 | clear status and abort take an error away, and each changes one field alone |
| DfuCommands.EmptyDownloadEnds | LUFA-151115/Bootloaders/DFU/BootloaderDFU.c:306-313 | an empty download ends a download and does nothing else |

## Left out

- Ports, timers, SPI, watchdog and the bit-banged LED output: hardware timing.
- USB descriptors, endpoints and LUFA class drivers: packets sent and received are sequences.
- Geometric, flash, pulse and brightness animations, sleep mode and the LED painting half of the ball demo: they would add small finite members.
- Bank selection by holding a button: the bank in force while a key is served is an input, any bank at any key.
- Motion, tilt and pick features that the settings name: not compiled in this configuration.
- The other bootloaders, the class drivers' demos and projects of LUFA: plumbing, or easier repeats.
- Application jump, fuses, lock bits and reset of the bootloaders.
- Reads of the 16-bit clock that an interrupt tears: the time is an input.
- What a store outside its buffer or table hits: a bulk push that strays ends the run as `OutOfBounds`; after a store through the null pointer of the reassembler or a stray animation note nothing is promised any more.
- Turns of the main loop with combos disabled, in which the recognizer is not called and edges are lost (midifighter64.c:850): a run of key masks has one mask for each call.
- Reading the control endpoint past the last byte of a packet: it gives 0.
- Random numbers are an arbitrary stream; that they repeat is not modelled.
- Filling one word of the page buffer twice: it overwrites in the model, which the AVR hardware does not promise.
- Re-enabling the read-while-write section of flash.
- The DFU file suffix after a block: its bytes are thrown away and the request ends there.
- DfuBlocks.DownloadIsCopy: for blocks whose pages are inside flash and packets that are not empty; a full 64 KiB block has length 0 in 16-bit arithmetic and downloads nothing.
- DfuBlocks.CopiedBlock: for blocks at an even address; `DfuBlocks.OddStartIsEven` says what becomes of the others.
- HexLoad.LoadIsCopy: for files in one piece without extended addresses, where it is exact for each image; `HexFiles.CopiesExactlyInOrder` covers gaps, extended addresses and the second 64 KiB.
- HexFiles.CopiesExactlyInOrder: for whole words at even addresses below the bootloader; a record of odd length or at an odd address is covered by `HexRecords.DataRecordIsPut` alone, and records in or above the bootloader are given up.
- HexLoad.LoadElsewhere: the same records as `HexLoad.LoadIsCopy`.
- HexExit.ExitIsChecked: for an end-of-file record with data, which no standard file has, the condition takes the extended address in force from the loader.
