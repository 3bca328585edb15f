# Programmable keyboard firmware core, modelled in Dafny

This project models the keyboard-independent core of the firmware in `Keyboard.c`. It has four parts.

- **Debounce engine.** A 14-slot table of tracked logical keys. Each slot has an 8-bit debounce shift register and a "pressed" flag. The firmware also keeps a count of pressed keys and a keypad-layer switch that shifts part of the matrix to a second block of logical codes.
- **EEPROM layout store.** The store holds:
  - the live logical-to-HID map;
  - a sentinel byte;
  - ten saved-layout index ranges;
  - a 128-pair buffer. Each saved layout is kept there as its sorted differences from the factory defaults.

  The operations are reset to defaults, full reset, delete, save, load and init.
- **Interaction state machine.** One pass of the main loop:
  - the keypad-toggle interrupt;
  - the switch over Normal, Waiting, Printing, ProgrammingSrc, ProgrammingDst, MacroRecord and MacroPlay;
  - `handle_state_normal` and its command chords: PROGRAM+F11, +F12/HYPHEN, +F7, +F7+LSHIFT and +S/L/D+digit;
  - `handle_state_programming`, which copies one key's default code onto another.
- **Report generator.** It covers:
  - the boot-protocol keyboard report built from the pressed keys, with modifier bits, six key slots and roll-over;
  - the character-to-keystroke table;
  - the printing throttle, which alternates an empty report and one keystroke;
  - the report callback's choice by state;
  - the indicator mask of `updateLEDs`.

Each file of the core becomes a module in the source's own form:

- `config.dfy`: byte constants and the build-time `Config`. The keyboard header's matrix map, default map, debounce mask and `LOGICAL_KEY_*` codes are parameters here.
- `key_state.dfy`: the slot table is the class `KeyState.KeyTable` over an `array<Slot>`. Each method is proved against a specification function on the array's value, for example `ScanRows`, `Evict` and `ActiveKeys`.
- `debounce.dfy`: what the shift register means, proved for any mask of `w` low bits.
- `layouts.dfy`: the store as a value (`Image`), with specification functions for each EEPROM operation and lemmas about them.
- `eeprom.dfy`: the class `Eeprom.Store`, whose arrays are the EEPROM areas. Its methods are the firmware's loops, proved against the `layouts.dfy` functions.
- `hid.dfy`: the keyboard report and the character table.
- `keyboard.dfy`: the class `Keyboard.Keyboard`, which holds the global state and owns a `KeyTable` and a `Store`. `Step` is one pass of the main loop's state handling, and `CreateReport` is the report callback. Both are proved against functions on the `Machine` value, and lemmas state what those functions do.
- `leds.dfy`: the LED mask as a function of the state, the uptime counter and the host's LED report.

## Model

| member | source | states |
|---|---|---|
| KeyState.KeyTable.Init | Keyboard.c:326-332 | every slot is free, no key is pressed and the keypad layer is off |
| KeyState.KeyTable.Locate | Keyboard.c:356-360 | finds the first slot tracking the key; when there is none, also reports the first free slot, or NO_KEY when the table is full |
| KeyState.KeyTable.UpdateKey | Keyboard.c:350-387 | one matrix reading updates the table exactly as `KeyStep` describes and keeps the count equal to the number of pressed slots |
| KeyState.KeyTable.Update | Keyboard.c:335-391 | one scan of the whole matrix, with the keypad-layer shift, leaves the table as `ScanRows` of the old table and keeps it well-formed |
| KeyState.KeyTable.ScanRow | Keyboard.c:339-389 | one row of the scan, over every column left to right, leaves the table as `ScanCols` of the old table and keeps it well-formed |
| KeyState.KeyTable.ToggleKeypad | Keyboard.c:395-417 | flips the layer, drops exactly the keys invalid in the new layer (`Evict`) and recounts the pressed keys |
| KeyState.KeyTable.CheckKey | Keyboard.c:421-428 | true iff some slot holds the key and that slot is pressed |
| KeyState.KeyTable.CheckKeys | Keyboard.c:431-449 | true iff no more keys are asked for than are pressed and every one of them is pressed |
| KeyState.KeyTable.GetKeys | Keyboard.c:453-460 | the pressed keys in slot order; there are exactly key_press_count of them |
| KeyState.FindKey | Keyboard.c:356-361 | the index of the first slot holding the key, with no earlier slot holding it, or the table size |
| KeyState.ActiveKeysMembers | Keyboard.c:421-428 | a key is listed by GetKeys iff CheckKey reports it |
| KeyState.ActiveKeysDistinct | Keyboard.c:356-387 | in a well-formed table no key is listed twice |
| KeyState.KeyStepWellFormed | Keyboard.c:356-387 | one reading keeps the table well-formed: no duplicate keys, histories inside the mask, free slots inactive |
| KeyState.KeyStepCount | Keyboard.c:365-375 | the pressed count falls by one when a pressed key's history empties and rises by one when a tracked key's history fills |
| KeyState.KeyStepEffect | Keyboard.c:356-387 | a tracked key shifts in the reading, is dropped when the history empties, and is pressed when it fills; an untracked asserted key takes the first free slot with history 1 |
| KeyState.EvictWellFormed | Keyboard.c:398-416 | the keypad toggle keeps the table well-formed |
| KeyState.ScanWellFormed | Keyboard.c:337-390 | a full scan keeps the table well-formed and at most 14 keys pressed |
| Debounce.FullIffLastPressed | Keyboard.c:363-375 | the masked history is full iff the last `w` readings were all asserted |
| Debounce.EmptyIffLastReleased | Keyboard.c:363-370 | the masked history is empty iff the last `w` readings were all released |
| Debounce.DebounceRun | Keyboard.c:356-387 | a slot allocated for a key and fed readings that never leave the window all released keeps that key, holds the last `w` readings, and is pressed iff some prefix ended with `w` asserted readings |
| Debounce.RunStep | Keyboard.c:363-386 | one more reading that does not complete a released window extends the run of `DebounceRun`: the slot keeps its key, shifts the reading in, and becomes pressed if the window fills |
| Debounce.HeldKey | Keyboard.c:372-386 | a key held down is pressed exactly from the reading that completes the window of `w` asserted readings |
| Layouts.DiffsRoundTrip | Keyboard.c:560-573 | loading the differences a save records rebuilds the live map |
| Layouts.DiffsShape | Keyboard.c:560-573 | the recorded differences are sorted by logical key, each records the live code, and every changed key is recorded |
| Layouts.DiffsEntries | Keyboard.c:560-568 | each recorded pair names a key whose live code differs from its default, with that live code |
| Layouts.DiffsAscending | Keyboard.c:560-571 | the recorded pairs are in strictly ascending key order |
| Layouts.DiffsComplete | Keyboard.c:560-571 | every key whose live code differs from its default is recorded |
| Layouts.LookupFinds | Keyboard.c:605-620 | in a diff with ascending keys, the code a load finds for a recorded key is that pair's code |
| Layouts.LookupMisses | Keyboard.c:606-610 | a key the diff does not record loads its default |
| Layouts.DiffsEmpty | Keyboard.c:574-583 | there is nothing to record iff the live map equals the defaults |
| Layouts.InitEffect | Keyboard.c:625-630 | init leaves a store with the sentinel set untouched and fully resets any other |
| Layouts.ResetFullyWf | Keyboard.c:485-491 | a full reset sets the sentinel, empties every index entry and restores the defaults, giving a well-formed store |
| Layouts.MaxEndAfter | Keyboard.c:514-524 | the result is at least the deleted layout's end and bounds the end of every layout stored after it |
| Layouts.DeleteEmpties | Keyboard.c:509-510 | a delete empties the deleted index entry and leaves the live map alone |
| Layouts.DeleteKeepsOthers | Keyboard.c:512-532 | after a delete every other layout is still present, with the same contents (with the corrected length) |
| Layouts.DeleteMovesLater | Keyboard.c:515-532 | a layout stored after the deleted one moves down by the deleted length and keeps its contents (with the corrected length) |
| Layouts.DeleteKeepsEarlier | Keyboard.c:512-532 | a layout stored before the deleted one keeps its index entry and its pairs |
| Layouts.DeleteWf | Keyboard.c:495-535 | with the corrected length, a delete keeps the store well-formed |
| Layouts.AsWrittenLengthWrong | Keyboard.c:507 | the length as written equals the range length only for one-entry layouts; it is 0 for two entries and overshoots for more |
| Layouts.AsWrittenDeleteLosesLayout | Keyboard.c:495-535 | on a concrete store, deleting layout 0 as written moves layout 1's range to 5..5, where it no longer holds its pair; the corrected length moves it to 1..1 intact |
| Layouts.AsWrittenTwoPairLeaks | Keyboard.c:495-535 | deleting a two-pair layout as written removes its index entry, moves nothing and leaves the buffer untouched: every other layout keeps its range and its pairs, the store stays well-formed, and the two pairs are leaked |
| Layouts.TwoLayoutsWf | Keyboard.c:495-535 | the concrete store of the delete finding is well-formed and its layout 1 holds the single pair (4, 9) |
| Layouts.LastEnd | Keyboard.c:549-555 | the result bounds the end of every stored layout |
| Layouts.ClearForSaveEffect | Keyboard.c:545-546 | a save first deletes the old layout under that number, keeping the others (with the corrected length) |
| Layouts.ClearForSaveInBounds | Keyboard.c:545-546 | the delete at the start of a save keeps every range inside the buffer and the live map unchanged (with the corrected length) |
| Layouts.SaveEffect | Keyboard.c:539-584 | a save keeps the store well-formed; it fails with NoSuchLayout for a bad number, OutOfSpace when the diffs do not fit, NoChanges when there are none, and otherwise succeeds (with the corrected length) |
| Layouts.SaveRecords | Keyboard.c:557-577 | a successful save leaves a well-formed store whose layout holds exactly the live map's differences from the defaults (with the corrected length) |
| Layouts.SaveFails | Keyboard.c:564-583 | a failed save still deleted the old layout and kept every other one (with the corrected length) |
| Layouts.SaveLoadRoundTrip | Keyboard.c:539-623 | loading a layout just saved restores the live map the save saw, whatever the map became in between |
| Eeprom.Store.PowerOn | Keyboard.c:70-82 | the store's areas hold the given EEPROM image |
| Eeprom.Store.ResetDefaults | Keyboard.c:475-482 | copies the default map into the live map and changes nothing else |
| Eeprom.Store.ResetFully | Keyboard.c:485-491 | sets the sentinel, empties every index entry and restores the defaults |
| Eeprom.Store.ShiftIndex | Keyboard.c:509-524 | empties the entry, moves every later layout's range down by the length, and returns the largest end among them |
| Eeprom.Store.MoveData | Keyboard.c:526-532 | copies the buffer pairs after the deleted range down by the length |
| Eeprom.Store.RemoveRange | Keyboard.c:509-532 | the index update and the data move together give `DeleteSpec` |
| Eeprom.Store.DeleteLayout | Keyboard.c:495-535 | NoSuchLayout with no change for a bad or empty number; otherwise removes the layout with the length computed as written (`start - end + 1` in 8 bits) |
| Eeprom.Store.DeleteLayoutCorrected | Keyboard.c:495-535 | NoSuchLayout with no change for a bad or empty number; otherwise removes the layout with the corrected length `end - start + 1`; the save and the delete chord of this model call this one |
| Eeprom.Store.LastOffset | Keyboard.c:548-555 | the largest end among the stored layouts, 0 when none is stored |
| Eeprom.Store.WriteDiffs | Keyboard.c:557-573 | writes the live map's differences from `start`; it fits iff they end before the last buffer pair, and the cursor then ends after them |
| Eeprom.Store.WriteLayout | Keyboard.c:548-583 | writes the diffs above the last occupied end and records their range; the store and status are those of `SaveInto` |
| Eeprom.Store.SaveLayout | Keyboard.c:539-584 | the store and status are those of `SaveSpec`, whose delete runs the corrected length |
| Eeprom.Store.LoadLayout | Keyboard.c:586-623 | NoSuchLayout with no change for a bad or empty number; otherwise the live map becomes the defaults overlaid with the saved differences |
| Eeprom.Store.MergePairs | Keyboard.c:599-621 | walking the ascending pairs of the layout alongside the keys sets the live map to `LoadMap`: each recorded key its saved code, every other key its default |
| Eeprom.Store.Init | Keyboard.c:625-630 | a full reset unless the sentinel already reads 42 |
| Hid.FillNormal | Keyboard.c:692-726 | the report is `NormalReport` of the output codes of the pressed keys in slot order |
| Hid.Plain | Keyboard.c:717-719 | the ordinary codes never outnumber the keys |
| Hid.Padded | Keyboard.c:693-719 | the six key slots, filled in order with zeros after |
| Hid.ReportCodesOrdinary | Keyboard.c:708-725 | every report has six key slots, none holding a modifier or firmware-action code |
| Hid.ReportListsPressedKeys | Keyboard.c:717-719 | without roll-over the report lists the pressed keys' ordinary codes in order, and a nonzero code appears iff some pressed key produces it |
| Hid.RolloverOnAnyFurtherKey | Keyboard.c:700-703 | once six ordinary codes are in, any further pressed key turns all six slots into ERROR_ROLLOVER |
| Hid.FewKeysNoRollover | Keyboard.c:698-721 | at most six pressed keys never roll over |
| Hid.ModifierBitsDistinct | Keyboard.c:713-715 | each modifier key sets its own nonzero bit |
| Hid.ModifierBitIff | Keyboard.c:698-721 | a modifier's bit is set iff that modifier key is pressed before the key that triggers roll-over |
| Hid.ActiveCodesOfActiveKeys | Keyboard.c:698-706 | the report reads the live code of each pressed key, one per pressed key, in slot order |
| Hid.StrokeReport | Keyboard.c:905-909 | a printed character's report carries its modifier and puts its key in the first slot only |
| Hid.LetterStrokes | Keyboard.c:732-737 | a lower-case letter is its letter key unshifted, an upper-case one the same key shifted, and other characters follow the symbol table |
| Hid.TypesItself | Keyboard.c:728-896 | on a US-layout host, every printable ASCII character types itself |
| Hid.UnprintableAsQuestionMark | Keyboard.c:890-893 | every other character types a question mark |
| Hid.StrokesDistinct | Keyboard.c:728-896 | distinct printable characters get distinct keystrokes |
| Hid.AsWrittenGraveTildeSwapped | Keyboard.c:871-874 | as written, the grave accent types a tilde and the tilde types a grave accent; every other character agrees with the corrected table |
| Hid.AsWrittenTyped | Keyboard.c:728-896 | with the table as written, a printable character types itself, except that the grave accent types a tilde and the tilde a grave accent |
| Keyboard.ScanStoreChord | Keyboard.c:237-247 | the command key found is NO_KEY or one of S/L/D among the held keys; the digit found is NO_KEY or a digit among them |
| Keyboard.ScanFinds | Keyboard.c:239-247 | with PROGRAM, one command key and one digit held, the scan finds that command key and that digit, whatever the slot order |
| Keyboard.StoreChordDecodes | Keyboard.c:226-257 | PROGRAM with S, L or D and a digit, held in any order, selects save, load or delete of layout digit-minus-KEY_1, a number in 0..9 |
| Keyboard.TwoKeyChordDecodes | Keyboard.c:199-224 | PROGRAM with one other key, in either order, selects print, programming, reset to defaults or nothing by that key |
| Keyboard.CommandNeedsProgram | Keyboard.c:197-199 | no command runs unless PROGRAM is held with one or two other keys |
| Keyboard.Keyboard.Boot | Keyboard.c:113-121 | boots in Normal with an empty key table, the layer off, nothing printing and the store after init |
| Keyboard.Keyboard.ValidSnapshot | Keyboard.c:113-121 | a valid keyboard's key table and store are well-formed and the press count matches the table |
| Keyboard.Keyboard.Scan | Keyboard.c:142-151 | a scan updates only the key table, as `ScanRows` |
| Keyboard.Keyboard.HandleNormal | Keyboard.c:194-277 | the new state is `NormalSpec` of the old one |
| Keyboard.Keyboard.TwoKeyCommand | Keyboard.c:199-224 | the two-key chords give `NormalSpec` |
| Keyboard.TwoKeyCases | Keyboard.c:199-224 | with PROGRAM and one other key held, F11 prints the no-macro message, F12 or HYPHEN arm programming, F7 resets the live map to defaults, and any other key changes nothing |
| Keyboard.Keyboard.ThreeKeyCommand | Keyboard.c:226-270 | the three-key chords give `NormalSpec` |
| Keyboard.Keyboard.ResetChordHeld | Keyboard.c:228 | true iff F7 and left shift are both pressed |
| Keyboard.Keyboard.FullResetCommand | Keyboard.c:228-232 | with PROGRAM, F7 and left shift held, the store is fully reset and the machine waits to return to Normal, as `NormalSpec` says |
| Keyboard.ThreeKeyReset | Keyboard.c:226-232 | with PROGRAM, F7 and left shift held, `NormalSpec` fully resets the store and waits for Normal |
| Keyboard.Keyboard.StoreChord | Keyboard.c:233-269 | the save/load/delete chords give `NormalSpec` |
| Keyboard.ThreeKeyStore | Keyboard.c:233-269 | with PROGRAM and two other keys but not the reset chord, `NormalSpec` does nothing unless a command key and a digit were found, and otherwise runs that store operation on layout digit-minus-KEY_1 |
| Keyboard.Keyboard.StoreChordKeys | Keyboard.c:235-247 | the command key and digit are `ScanStoreChord` of the pressed keys |
| Keyboard.Keyboard.RunStoreCommand | Keyboard.c:249-268 | runs the store operation; success goes to Waiting then Normal, failure prints the operation's message then returns to Normal |
| Keyboard.Keyboard.CallStore | Keyboard.c:249-256 | the store and status are those of save, load or delete of the numbered layout as `RunStore` chooses; save and delete run the corrected length |
| Keyboard.Keyboard.HandleProgramming | Keyboard.c:279-313 | the new state is `ProgrammingSpec` of the old one |
| Keyboard.Keyboard.CheckAbort | Keyboard.c:282-286 | PROGRAM+F12 or PROGRAM+HYPHEN sets Waiting then Normal; otherwise nothing changes, as `AbortSpec` says |
| Keyboard.Keyboard.ProgramKey | Keyboard.c:288-312 | with exactly one key pressed whose default code is not a special code, ProgrammingSrc records that default and moves on to Dst; in any other state the recorded code is written to that key's live entry; otherwise nothing changes, as `ProgramKeySpec` says |
| Keyboard.Keyboard.KeypadCheck | Keyboard.c:153-159 | the new state is `KeypadSpec` of the old one |
| Keyboard.Keyboard.Step | Keyboard.c:153-187 | one pass of the main loop's state handling gives `StepSpec` |
| Keyboard.Keyboard.FillPrinting | Keyboard.c:898-912 | empty report with the cursor kept after a non-empty report; otherwise the stroke the table as written gives the character under the cursor, and the cursor advances |
| Keyboard.Keyboard.CreateReport | Keyboard.c:926-952 | the report, the force flag and the new state are those of `ReportSpec`: the pressed keys' report, not forced, in Normal, both programming states and MacroRecord; the printing throttle through the table as written, forced, in Printing; an empty report, not forced, in Waiting and MacroPlay |
| Keyboard.StepKeepsOk | Keyboard.c:153-187 | every pass keeps the key table and the store well-formed (the save and delete chords run the corrected length) |
| Keyboard.NormalKeepsOk | Keyboard.c:194-277 | every normal-state command keeps the store well-formed (the save and delete chords run the corrected length) |
| Keyboard.ProgrammingKeepsOk | Keyboard.c:279-313 | programming keeps the store well-formed |
| Keyboard.WaitingStep | Keyboard.c:166-171 | Waiting resumes the armed state, and clears it to Normal, exactly when no key is pressed; otherwise nothing changes |
| Keyboard.PrintingStep | Keyboard.c:172-177 | Printing goes to Waiting exactly at the terminator and changes nothing else |
| Keyboard.KeypadInterrupts | Keyboard.c:153-171 | the keypad key flips the layer, drops keys invalid in it and waits; the interrupted state resumes once all keys are released |
| Keyboard.ProgramCopiesDefault | Keyboard.c:292-312 | in Src a lone programmable key records its default code; in Dst a lone programmable key gets that code in the live map |
| Keyboard.ProgrammingAborts | Keyboard.c:282-286 | PROGRAM+F12 or PROGRAM+HYPHEN leaves programming for Normal through Waiting |
| Keyboard.MessagesTypeThemselves | Keyboard.c:109 | the no-macro message and the status messages are printable ASCII and hold neither a grave accent nor a tilde |
| Keyboard.PrintingThrottle | Keyboard.c:898-912 | the report is forced; it is empty while the previous one was not; otherwise it types the character under the cursor through the table as written, so a printable character comes out as itself except that the grave accent and the tilde come out swapped, and the cursor advances |
| Keyboard.MessagesPrintAsThemselves | Keyboard.c:898-912 | while one of the firmware's own messages is printed, each character typed comes out as itself |
| Leds.CounterBitPhase | Keyboard.c:969-975 | bit 7 of the counter is set in the upper half of each 256 ms, bit 8 in the upper half of each 512 ms |
| Leds.ProgrammingFlashes | Keyboard.c:966-978 | in ProgrammingSrc the Src light is on iff t mod 256 >= 128, and in ProgrammingDst the Dst light iff t mod 512 >= 256; the host lock lights are off |
| Leds.HostLightsShown | Keyboard.c:979-992 | in every other state no programming light is on and each lock light shows its host bit |
| Leds.KeypadLightIff | Keyboard.c:961-964 | the keypad light is on exactly while the keypad layer is active |

## Left out

- USB and LUFA glue is not modelled: descriptors, `SetupHardware`, the control-request and LED-report callbacks, and `HID_Device_USBTask`. The previous report (`PrevKeyboardHIDReportBuffer`) and the host's LED report are parameters.
- Matrix I/O (`matrix_select_row` and `matrix_read_column`) is not modelled. The readings of one scan are a parameter of `KeyTable.Update`.
- The 2 ms slice timing of the main loop, driven by the millisecond interrupt, is not modelled. A scan is the explicit `Keyboard.Scan`, and the LED mask takes the counter value as a parameter.
- `blinkLEDs` and `set_all_leds` are not modelled: they only drive the indicator pins and wait. The LED masks are named indicators rather than header bit values.
- The macro states are not modelled beyond what the source does with them: MacroRecord and MacroPlay do nothing in the main loop. In the report callback, MacroRecord fills a normal report and then falls through to `return false`. The code is followed here, not the comment that says no keys are reported.
- Power loss is not modelled, and neither are EEPROM write endurance or `eeprom_update_byte`'s skip-if-equal behaviour (the writes are plain stores).
- The keyboard header's constants are `Config` parameters under a validity predicate, because the header is not part of this model. This covers `NUM_LOGICAL_KEYS`, the matrix map, the default map, `DEBOUNCE_MASK`, the `LOGICAL_KEY_*` codes and the keypad-layer bounds.
- The numbering of the state enumeration is not part of this model. `next_state = 0` is taken to be Normal.
- Keyboard.Keyboard.Boot: a store whose sentinel reads 42 is assumed to be well-formed. A corrupted store with a valid sentinel is not modelled.
- Eeprom.Store.DeleteLayout: a move whose target `i - length` lies below the start of the buffer writes outside the buffer area in the firmware. Such a move is not modelled: the buffer keeps its pair there.
- Keyboard.Keyboard.FillPrinting: the cursor reads 0 at and beyond the message's terminator. Flash bytes past a message are not modelled.
- `getMatrixIndex` and the matrix-to-logical table are not modelled: they are keyboard-specific data, and only `Config.LogicalAt` reads them.
- Eeprom.Store.SaveLayout: deletes the old layout with the corrected length of the Keyboard.c:507 finding (`DeleteLayoutCorrected`), where the firmware calls the as-written delete. The two agree when the old layout holds one pair (`Layouts.AsWrittenLengthWrong`); for two pairs the firmware keeps every other layout and only leaks the deleted pairs' space (`Layouts.AsWrittenTwoPairLeaks`); for a layout of k >= 3 pairs it moves the later ranges up by k-2 without their data and so loses them (`Layouts.AsWrittenDeleteLosesLayout`), which this model does not follow.
- Keyboard.Keyboard.CallStore: the save and the PROGRAM+D+digit chord run the corrected delete, where Keyboard.c:256 and Keyboard.c:546 call the as-written one. The same holds for every member built on `CallStore`: `StoreChord`, `ThreeKeyCommand`, `HandleNormal`, `RunStoreCommand` and `Step`.
- Layouts.DeleteKeepsOthers: proved for the corrected length only. With the as-written length a layout stored after a layout of three or more pairs no longer holds its pairs; after a two-pair layout every later layout is kept and the deleted pairs' space is leaked (`Layouts.AsWrittenTwoPairLeaks`).
- Layouts.DeleteMovesLater: proved for the corrected length only. With the as-written length a later layout moves up by k-2 after a k-pair layout with k >= 3, and its data does not follow; deleting a two-pair layout keeps the later layouts in place and leaks its space (`Layouts.AsWrittenTwoPairLeaks`).
- Layouts.ClearForSaveEffect: the delete at the start of a save uses the corrected length; the firmware's as-written delete loses the layouts stored after one of three or more pairs, and after a two-pair one keeps them but leaks its space.
- Layouts.ClearForSaveInBounds: proved for the corrected delete. With the as-written length, after a layout of three or more pairs a later range moves up instead of down, and the data move can target positions below the buffer.
- Layouts.SaveEffect: the well-formedness of the store after a save rests on the corrected delete inside `SaveSpec`.
- Layouts.SaveRecords: the well-formed store after a successful save rests on the corrected delete.
- Layouts.SaveFails: "every other layout is kept" holds for the corrected delete; the firmware's delete loses the layouts stored after one of three or more pairs.
- Keyboard.NormalKeepsOk: the store stays well-formed because the save and delete chords run the corrected delete.
- Keyboard.StepKeepsOk: the store stays well-formed because the save and delete chords run the corrected delete.
- Debounce lemmas (`FullIffLastPressed`, `EmptyIffLastReleased`, `DebounceRun`, `HeldKey`) are stated for a DEBOUNCE_MASK of `w` low bits. `Config.Valid` also admits masks with gaps, such as 0x05, which the key table handles like the firmware, but for which "full" does not mean "the last readings were all asserted"; what such masks mean is not stated.

## Findings

| source | as written | input that shows it | evidently intended | confidence | as-written member | corrected member |
|---|---|---|---|---|---|---|
| Keyboard.c:507 | the deleted layout's length is `start - end + 1` (8-bit) | layout 0 at 1..3 and layout 1 at 4..4, delete layout 0: the length wraps to 255, layout 1's range becomes 5..5 and no longer holds its pair | `end - start + 1` | high, not executed | Layouts.AsWrittenDeleteLosesLayout | Layouts.DeleteWf |
| Keyboard.c:871-889 | the grave accent is the GRAVE key with LEFTSHIFT and the tilde is the GRAVE key without | printing a grave accent | grave accent unshifted, tilde shifted, as on a US layout | high, not executed | Hid.AsWrittenGraveTildeSwapped | Hid.TypesItself |
