/**
 * The interaction state machine of the keyboard (Keyboard.c: the state
 * `switch` in `main`, handle_state_normal, handle_state_programming) and the
 * report callback that dispatches on its state
 * (CALLBACK_HID_Device_CreateHIDReport, Fill_HIDReport_printing).
 *
 * The whole firmware state is first described as a value, `Machine`, with
 * one specification function per routine; the class `Keyboard` then holds
 * the key table, the store and the globals and updates them in place, each
 * method proved to produce exactly what its specification function says.
 */
module Keyboard {
  import opened Config
  import opened KeyState
  import opened Layouts
  import opened Eeprom
  import opened Hid

  /** `current_state` / `next_state`. `next_state = 0` is Normal, the first state. */
  datatype State = Normal | Waiting | Printing | ProgrammingSrc | ProgrammingDst | MacroRecord | MacroPlay

  /** MSG_NO_MACRO. */
  const MSG_NO_MACRO: seq<Char8> := "no macro support yet"

  /** The character the print cursor reads: the message, then its terminator. */
  function CharAt(text: seq<Char8>, pos: nat): Char8
  {
    if pos < |text| then text[pos] else 0 as char
  }

  // ---------------------------------------------------------------------------
  // Command chords
  // ---------------------------------------------------------------------------

  datatype StoreOp = SaveOp | LoadOp | DeleteOp

  /** What a chord held in the Normal state asks for. */
  datatype Command =
    | NoCommand
    | PrintNoMacro
    | StartProgramming
    | ResetToDefaults
    | FullReset
    | StoreCommand(op: StoreOp, num: byte)

  /**
   * The loop of the three-key chord over the active keys in slot order: the
   * last S/L/D key met and the last digit key met (NO_KEY when none).
   */
  function ScanStoreChord(cfg: Config, ks: seq<byte>): (r: (byte, byte))
    ensures r.0 == NO_KEY || (r.0 in ks && cfg.IsStoreCommand(r.0))
    ensures r.1 == NO_KEY || (r.1 in ks && cfg.IsDigit(r.1))
  {
    if ks == [] then (NO_KEY, NO_KEY)
    else
      var (kind, pos) := ScanStoreChord(cfg, ks[..|ks| - 1]);
      var k := ks[|ks| - 1];
      if cfg.IsStoreCommand(k) then (k, pos)
      else if cfg.IsDigit(k) then (kind, k)
      else (kind, pos)
  }

  /**
   * The command of the active keys `ks` (in slot order): nothing unless at
   * least two keys are held and one is PROGRAM. With two keys the other one
   * selects the message, programming mode or a reset to defaults; with three,
   * F7 and left shift select a full reset, otherwise an S/L/D key and a digit
   * select a save, load or delete of layout `digit - LOGICAL_KEY_1`.
   */
  function Decode(cfg: Config, ks: seq<byte>): Command
  {
    if |ks| < 2 || cfg.keyProgram !in ks then NoCommand
    else if |ks| == 2 then
      var other := if ks[0] == cfg.keyProgram then ks[1] else ks[0];
      if other == cfg.keyF11 then PrintNoMacro
      else if other == cfg.keyF12 || other == cfg.keyHyphen then StartProgramming
      else if other == cfg.keyF7 then ResetToDefaults
      else NoCommand
    else if |ks| == 3 then
      if cfg.keyF7 in ks && cfg.keyLShift in ks then FullReset
      else
        var (kind, pos) := ScanStoreChord(cfg, ks);
        if kind == NO_KEY || pos == NO_KEY then NoCommand
        else
          var op := if kind == cfg.keyS then SaveOp else if kind == cfg.keyL then LoadOp else DeleteOp;
          StoreCommand(op, pos - cfg.key1)
    else NoCommand
  }

  // ---------------------------------------------------------------------------
  // The firmware state as a value
  // ---------------------------------------------------------------------------

  /**
   * Everything the state machine reads or writes: the key table and keypad
   * layer, the store, `current_state`, `next_state`, the static
   * `program_src_hkey` and the message `print_buffer` points into, with its cursor.
   */
  datatype Machine = Machine(
    slots: seq<Slot>,
    keypadMode: bool,
    img: Image,
    state: State,
    next: State,
    programSrc: byte,
    text: seq<Char8>,
    pos: nat)

  /** The invariants the routines rely on: a well-formed key table and a well-formed store. */
  predicate MachineOk(cfg: Config, m: Machine)
  {
    cfg.Valid() && WellFormed(m.slots, cfg) && Wf(m.img, cfg.numLogicalKeys)
  }

  /** Eeprom_DeleteLayout's outcome: "No such layout" for an index out of range or an empty entry. */
  function DeleteResult(img: Image, num: nat): (Image, Status)
    requires InBounds(img, |img.live|)
  {
    if num < NUM_KEY_MAPPING_INDICES && Occupied(img.index[num]) then
      (DeleteSpec(img, num, RangeLength(img.index[num])), Ok)
    else (img, NoSuchLayout)
  }

  /** The store call a save, load or delete chord makes. */
  function RunStore(cfg: Config, op: StoreOp, img: Image, num: byte): (Image, Status)
    requires cfg.Valid() && Wf(img, cfg.numLogicalKeys)
  {
    match op
    case SaveOp => SaveSpec(img, num, cfg.defaults)
    case LoadOp => LoadSpec(img, num, cfg.defaults)
    case DeleteOp => DeleteResult(img, num)
  }

  /**
   * What a store chord leaves: on success the new store, then Waiting; on
   * failure the store as the call left it and its message, then Printing;
   * Normal next either way.
   */
  function StoreOutcome(cfg: Config, m: Machine, op: StoreOp, num: byte): Machine
    requires MachineOk(cfg, m)
  {
    var (img, st) := RunStore(cfg, op, m.img, num);
    if st == Ok then m.(img := img, state := Waiting, next := Normal)
    else m.(img := img, text := Message(st), pos := 0, state := Printing, next := Normal)
  }

  /** handle_state_normal. */
  function NormalSpec(cfg: Config, m: Machine): Machine
    requires MachineOk(cfg, m)
  {
    match Decode(cfg, ActiveKeys(m.slots))
    case NoCommand => m
    case PrintNoMacro => m.(text := MSG_NO_MACRO, pos := 0, state := Printing, next := Normal)
    case StartProgramming => m.(state := Waiting, next := ProgrammingSrc)
    case ResetToDefaults => m.(img := ResetDefaultsSpec(m.img, cfg.defaults), state := Waiting, next := Normal)
    case FullReset => m.(img := ResetFullySpec(m.img, cfg.defaults), state := Waiting, next := Normal)
    case StoreCommand(op, num) => StoreOutcome(cfg, m, op, num)
  }

  /** The key of a lone held key's default code cannot be programmed: a firmware action code. */
  predicate Unprogrammable(h: byte)
  {
    h >= SPECIAL_HID_KEYS_START && h != NO_KEY
  }

  /** The abort chord of programming mode: PROGRAM with F12, or PROGRAM with HYPHEN. */
  predicate AbortChord(cfg: Config, s: seq<Slot>)
  {
    CountActive(s) >= 2
    && IsActive(s, cfg.keyProgram)
    && (IsActive(s, cfg.keyF12) || IsActive(s, cfg.keyHyphen))
  }

  /**
   * handle_state_programming: the abort chord leads back to Normal through
   * Waiting; with exactly one key held whose default code is not a firmware
   * action, the Src state records that default code and the other state
   * writes the recorded code to the key's live entry, each through Waiting.
   */
  function ProgrammingSpec(cfg: Config, m: Machine): Machine
    requires MachineOk(cfg, m)
  {
    ProgramKeySpec(cfg, AbortSpec(cfg, m))
  }

  /** The abort check of handle_state_programming. */
  function AbortSpec(cfg: Config, m: Machine): Machine
  {
    if AbortChord(cfg, m.slots) then m.(state := Waiting, next := Normal) else m
  }

  /** The lone-key part of handle_state_programming, after the abort check. */
  function ProgramKeySpec(cfg: Config, m: Machine): Machine
    requires MachineOk(cfg, m)
  {
    var ks := ActiveKeys(m.slots);
    if |ks| != 1 then m
    else
      var lkey := ks[0];
      ActiveKeysBound(m.slots, cfg);
      var dflt := cfg.defaults[lkey];
      if Unprogrammable(dflt) then m
      else if m.state == ProgrammingSrc then m.(programSrc := dflt, next := ProgrammingDst, state := Waiting)
      else m.(img := m.img.(live := m.img.live[lkey := m.programSrc]), state := Waiting, next := ProgrammingSrc)
  }

  /** handle_state_normal with two keys held, PROGRAM among them: the other key selects the command. */
  lemma TwoKeyCases(cfg: Config, m: Machine)
    requires MachineOk(cfg, m) && |ActiveKeys(m.slots)| == 2 && cfg.keyProgram in ActiveKeys(m.slots)
    ensures var ks := ActiveKeys(m.slots);
      var other := if ks[0] == cfg.keyProgram then ks[1] else ks[0];
      NormalSpec(cfg, m)
      == if other == cfg.keyF11 then m.(text := MSG_NO_MACRO, pos := 0, state := Printing, next := Normal)
         else if other == cfg.keyF12 || other == cfg.keyHyphen then m.(state := Waiting, next := ProgrammingSrc)
         else if other == cfg.keyF7 then m.(img := ResetDefaultsSpec(m.img, cfg.defaults), state := Waiting, next := Normal)
         else m
  {
  }

  /** handle_state_normal with three keys held, PROGRAM, F7 and left shift among them. */
  lemma ThreeKeyReset(cfg: Config, m: Machine)
    requires MachineOk(cfg, m) && |ActiveKeys(m.slots)| == 3 && cfg.keyProgram in ActiveKeys(m.slots)
    requires cfg.keyF7 in ActiveKeys(m.slots) && cfg.keyLShift in ActiveKeys(m.slots)
    ensures NormalSpec(cfg, m) == m.(img := ResetFullySpec(m.img, cfg.defaults), state := Waiting, next := Normal)
  {
  }

  /** handle_state_normal with three keys held, PROGRAM among them but not both F7 and left shift. */
  lemma ThreeKeyStore(cfg: Config, m: Machine)
    requires MachineOk(cfg, m) && |ActiveKeys(m.slots)| == 3 && cfg.keyProgram in ActiveKeys(m.slots)
    requires !(cfg.keyF7 in ActiveKeys(m.slots) && cfg.keyLShift in ActiveKeys(m.slots))
    ensures var (kind, pos) := ScanStoreChord(cfg, ActiveKeys(m.slots));
      NormalSpec(cfg, m)
      == if kind == NO_KEY || pos == NO_KEY then m
         else StoreOutcome(cfg, m, if kind == cfg.keyS then SaveOp else if kind == cfg.keyL then LoadOp else DeleteOp, pos - cfg.key1)
  {
  }

  /** The keypad key toggles the layer in every state but Waiting, and parks the state in Waiting. */
  predicate TogglesKeypad(cfg: Config, m: Machine)
  {
    cfg.keypadLayer && m.state != Waiting && IsActive(m.slots, cfg.keyKeypad)
  }

  /** The keypad-layer check at the top of the main loop. */
  function KeypadSpec(cfg: Config, m: Machine): Machine
  {
    if TogglesKeypad(cfg, m) then
      var mode := !m.keypadMode;
      m.(keypadMode := mode, slots := Evict(m.slots, cfg, mode), next := m.state, state := Waiting)
    else m
  }

  /** One pass of the main loop's state handling: the keypad check, then the `switch`. */
  function StepSpec(cfg: Config, m: Machine): Machine
    requires MachineOk(cfg, m)
  {
    var m1 := KeypadSpec(cfg, m);
    EvictWellFormed(m.slots, cfg, !m.keypadMode);
    match m1.state
    case Normal => NormalSpec(cfg, m1)
    case Waiting => if CountActive(m1.slots) == 0 then m1.(state := m1.next, next := Normal) else m1
    case Printing => if CharAt(m1.text, m1.pos) == 0 as char then m1.(state := Waiting) else m1
    case ProgrammingSrc => ProgrammingSpec(cfg, m1)
    case ProgrammingDst => ProgrammingSpec(cfg, m1)
    case MacroRecord => m1
    case MacroPlay => m1
  }

  /**
   * The report callback: the normal report and no forced send in Normal, the
   * programming states and MacroRecord (which falls through after filling
   * it); one typed character, or an empty report while the previous one is
   * still non-empty, and a forced send in Printing; otherwise an empty report.
   */
  function ReportSpec(cfg: Config, m: Machine, prev: Report): (Machine, Report, bool)
    requires MachineOk(cfg, m) && |prev.keyCodes| == KEY_CODE_SLOTS
  {
    ActiveKeysBound(m.slots, cfg);
    match m.state
    case Normal => (m, NormalReport(ActiveCodes(m.slots, m.img.live)), false)
    case ProgrammingSrc => (m, NormalReport(ActiveCodes(m.slots, m.img.live)), false)
    case ProgrammingDst => (m, NormalReport(ActiveCodes(m.slots, m.img.live)), false)
    case MacroRecord => (m, NormalReport(ActiveCodes(m.slots, m.img.live)), false)
    case Printing =>
      if prev.modifier != 0 || prev.keyCodes[0] != 0 then (m, EmptyReport, true)
      else (m.(pos := m.pos + 1), StrokeReport(CharToKeysAsWritten(CharAt(m.text, m.pos))), true)
    case Waiting => (m, EmptyReport, false)
    case MacroPlay => (m, EmptyReport, false)
  }

  // ---------------------------------------------------------------------------
  // The firmware state in place
  // ---------------------------------------------------------------------------

  /** The key table, the store and the state machine's globals, as the firmware updates them. */
  class Keyboard {
    const cfg: Config
    /** `key_states`, `key_press_count`, `keypad_mode`. */
    const keys: KeyTable
    /** The EEPROM. */
    const store: Store
    /** `current_state`. */
    var state: State
    /** `next_state`. */
    var nextState: State
    /** The static `program_src_hkey` of handle_state_programming. */
    var programSrc: byte
    /** The message `print_buffer` points into, and the cursor's position in it. */
    var printText: seq<Char8>
    var printPos: nat

    ghost predicate Valid()
      reads this, keys, keys.slots, store, store.live, store.index, store.buffer
    {
      && keys.Valid() && store.Valid()
      && keys.cfg == cfg && store.cfg == cfg
      && Wf(store.Contents(), cfg.numLogicalKeys)
    }

    /** The firmware state as a value. */
    function Snapshot(): Machine
      reads this, keys, keys.slots, store, store.live, store.index, store.buffer
    {
      Machine(keys.slots[..], keys.keypadMode, store.Contents(), state, nextState, programSrc, printText, printPos)
    }

    /** Valid() is what MachineOk says of the snapshot, with the counter matching the table. */
    lemma ValidSnapshot()
      requires Valid()
      ensures MachineOk(cfg, Snapshot())
      ensures keys.pressCount == CountActive(keys.slots[..])
    {
    }

    /**
     * Power-on: KeyState_Init, then Eeprom_Init on the EEPROM contents `img`
     * (assumed well-formed when its sentinel is set); the state is Normal.
     */
    constructor Boot(c: Config, img: Image)
      requires c.Valid() && Shaped(img, c.numLogicalKeys)
      requires img.sentinel == EEPROM_SENTINEL ==> Wf(img, c.numLogicalKeys)
      ensures Valid() && fresh(keys) && fresh(keys.slots) && fresh(store)
      ensures fresh(store.live) && fresh(store.index) && fresh(store.buffer)
      ensures Snapshot() == Machine(seq(KEYSTATE_COUNT, _ => FreeSlot), false, InitSpec(img, c.defaults), Normal, Normal, 0, [], 0)
    {
      cfg := c;
      keys := new KeyTable.Init(c);
      store := new Store.PowerOn(c, img);
      state := Normal;
      nextState := Normal;
      programSrc := 0;
      printText := [];
      printPos := 0;
      new;
      store.Init();
      InitEffect(img, c);
      assert keys.slots[..] == seq(KEYSTATE_COUNT, _ => FreeSlot);
    }

    /** The timer's KeyState_Update: one scan of the matrix `readings`. */
    method Scan(readings: seq<seq<bool>>)
      requires Valid() && ReadingsFit(cfg, readings)
      modifies keys.slots, keys`pressCount
      ensures Valid()
      ensures Snapshot() == old(Snapshot()).(slots := ScanRows(old(keys.slots[..]), cfg, keys.keypadMode, readings, cfg.rows))
    {
      keys.Update(readings);
    }

    /** handle_state_normal. */
    method HandleNormal()
      requires Valid()
      modifies this, store, store.live, store.index, store.buffer
      ensures Valid() && Snapshot() == NormalSpec(cfg, old(Snapshot()))
    {
      if keys.pressCount >= 2 {
        var program := keys.CheckKey(cfg.keyProgram);
        ActiveKeysMembers(keys.slots[..], cfg.keyProgram);
        if program {
          if keys.pressCount == 2 {
            TwoKeyCommand();
          } else if keys.pressCount == 3 {
            ThreeKeyCommand();
          }
        }
      }
    }

    /** The two-key commands: PROGRAM with F11, F12 or HYPHEN, or F7. */
    method TwoKeyCommand()
      requires Valid() && keys.pressCount == 2 && cfg.keyProgram in ActiveKeys(keys.slots[..])
      modifies this, store.live
      ensures Valid() && Snapshot() == NormalSpec(cfg, old(Snapshot()))
    {
      var held := keys.GetKeys();
      var other := if held[0] == cfg.keyProgram then held[1] else held[0];
      TwoKeyCases(cfg, Snapshot());
      if other == cfg.keyF11 {
        printText := MSG_NO_MACRO;
        printPos := 0;
        state := Printing;
        nextState := Normal;
      } else if other == cfg.keyF12 || other == cfg.keyHyphen {
        state := Waiting;
        nextState := ProgrammingSrc;
      } else if other == cfg.keyF7 {
        store.ResetDefaults();
        state := Waiting;
        nextState := Normal;
      }
    }

    /** The three-key commands: PROGRAM with F7 and left shift, or with S/L/D and a digit. */
    method ThreeKeyCommand()
      requires Valid() && keys.pressCount == 3 && cfg.keyProgram in ActiveKeys(keys.slots[..])
      modifies this, store, store.live, store.index, store.buffer
      ensures Valid() && Snapshot() == NormalSpec(cfg, old(Snapshot()))
    {
      var reset := ResetChordHeld();
      if reset {
        FullResetCommand();
      } else {
        StoreChord();
      }
    }

    /** The save/load/delete branch: find the S/L/D key and the digit key, then run the store call. */
    method StoreChord()
      requires Valid() && keys.pressCount == 3 && cfg.keyProgram in ActiveKeys(keys.slots[..])
      requires !(cfg.keyF7 in ActiveKeys(keys.slots[..]) && cfg.keyLShift in ActiveKeys(keys.slots[..]))
      modifies this, store.live, store.index, store.buffer
      ensures Valid() && Snapshot() == NormalSpec(cfg, old(Snapshot()))
    {
      ThreeKeyStore(cfg, Snapshot());
      var kind, pos := StoreChordKeys();
      if kind != NO_KEY && pos != NO_KEY {
        var op := if kind == cfg.keyS then SaveOp else if kind == cfg.keyL then LoadOp else DeleteOp;
        RunStoreCommand(op, pos - cfg.key1);
      }
    }

    /** The check for F7 and left shift among three held keys. */
    method ResetChordHeld() returns (reset: bool)
      requires Valid() && keys.pressCount == 3
      ensures reset <==> cfg.keyF7 in ActiveKeys(keys.slots[..]) && cfg.keyLShift in ActiveKeys(keys.slots[..])
    {
      reset := keys.CheckKeys([cfg.keyF7, cfg.keyLShift]);
      ActiveKeysMembers(keys.slots[..], cfg.keyF7);
      ActiveKeysMembers(keys.slots[..], cfg.keyLShift);
      assert [cfg.keyF7, cfg.keyLShift][0] == cfg.keyF7 && [cfg.keyF7, cfg.keyLShift][1] == cfg.keyLShift;
    }

    /** The full-reset branch: Eeprom_ResetFully, then Waiting with Normal next. */
    method FullResetCommand()
      requires Valid() && keys.pressCount == 3 && cfg.keyProgram in ActiveKeys(keys.slots[..])
      requires cfg.keyF7 in ActiveKeys(keys.slots[..]) && cfg.keyLShift in ActiveKeys(keys.slots[..])
      modifies this, store, store.live, store.index
      ensures Valid() && Snapshot() == NormalSpec(cfg, old(Snapshot()))
    {
      ThreeKeyReset(cfg, Snapshot());
      ghost var img := store.Contents();
      store.ResetFully();
      ResetFullyWf(img, cfg);
      state := Waiting;
      nextState := Normal;
    }

    /** The loop of the save/load/delete branch: the S/L/D key and the digit key among the held keys. */
    method StoreChordKeys() returns (kind: byte, pos: byte)
      requires Valid()
      ensures (kind, pos) == ScanStoreChord(cfg, ActiveKeys(keys.slots[..]))
    {
      var held := keys.GetKeys();
      kind, pos := NO_KEY, NO_KEY;
      for i := 0 to |held|
        invariant (kind, pos) == ScanStoreChord(cfg, held[..i])
      {
        assert held[..i + 1][..i] == held[..i];
        var k := held[i];
        if k == cfg.keyS || k == cfg.keyL || k == cfg.keyD {
          kind := k;
        } else if cfg.key1 <= k <= cfg.key1 + 9 {
          pos := k;
        }
      }
      assert held[..|held|] == held;
    }

    /** The store call of a save/load/delete chord and the state it leads to. */
    method RunStoreCommand(op: StoreOp, num: byte)
      requires Valid()
      modifies this, store.live, store.index, store.buffer
      ensures Valid() && Snapshot() == StoreOutcome(cfg, old(Snapshot()), op, num)
    {
      var st := CallStore(op, num);
      if st == Ok {
        state := Waiting;
        nextState := Normal;
      } else {
        printText := Message(st);
        printPos := 0;
        state := Printing;
        nextState := Normal;
      }
    }

    /** Eeprom_SaveLayout, Eeprom_LoadLayout or Eeprom_DeleteLayout, as the chord selects. */
    method CallStore(op: StoreOp, num: byte) returns (st: Status)
      requires Valid()
      modifies store.live, store.index, store.buffer
      ensures Valid() && (store.Contents(), st) == RunStore(cfg, op, old(store.Contents()), num)
    {
      match op {
        case SaveOp =>
          st := store.SaveLayout(num);
          SaveEffect(old(store.Contents()), cfg, num);
        case LoadOp =>
          st := store.LoadLayout(num);
        case DeleteOp =>
          st := store.DeleteLayoutCorrected(num);
          if st == Ok {
            DeleteWf(old(store.Contents()), cfg, num);
          }
      }
    }

    /** handle_state_programming. */
    method HandleProgramming()
      requires Valid()
      modifies this, store.live
      ensures Valid() && Snapshot() == ProgrammingSpec(cfg, old(Snapshot()))
    {
      CheckAbort();
      ProgramKey();
    }

    /** The abort chord check of handle_state_programming. */
    method CheckAbort()
      requires Valid()
      modifies this
      ensures Valid() && Snapshot() == AbortSpec(cfg, old(Snapshot()))
    {
      var withF12 := keys.CheckKeys([cfg.keyProgram, cfg.keyF12]);
      var withHyphen := keys.CheckKeys([cfg.keyProgram, cfg.keyHyphen]);
      assert withF12 || withHyphen <==> AbortChord(cfg, keys.slots[..]) by {
        assert [cfg.keyProgram, cfg.keyF12][0] == cfg.keyProgram && [cfg.keyProgram, cfg.keyF12][1] == cfg.keyF12;
        assert [cfg.keyProgram, cfg.keyHyphen][0] == cfg.keyProgram && [cfg.keyProgram, cfg.keyHyphen][1] == cfg.keyHyphen;
      }
      if withF12 || withHyphen {
        state := Waiting;
        nextState := Normal;
      }
    }

    /** The lone-key part of handle_state_programming: record a default code, or write the recorded one. */
    method ProgramKey()
      requires Valid()
      modifies this, store.live
      ensures Valid() && Snapshot() == ProgramKeySpec(cfg, old(Snapshot()))
    {
      if keys.pressCount != 1 {
        return;
      }
      var held := keys.GetKeys();
      var lkey := held[0];
      ActiveKeysBound(keys.slots[..], cfg);
      var dflt := cfg.defaults[lkey];
      if dflt >= SPECIAL_HID_KEYS_START && dflt != NO_KEY {
        return;
      }
      if state == ProgrammingSrc {
        programSrc := dflt;
        nextState := ProgrammingDst;
        state := Waiting;
      } else {
        store.live[lkey] := programSrc;
        state := Waiting;
        nextState := ProgrammingSrc;
      }
    }

    /** The keypad-layer check at the top of the main loop. */
    method KeypadCheck()
      requires Valid()
      modifies this, keys.slots, keys`pressCount, keys`keypadMode
      ensures Valid() && Snapshot() == KeypadSpec(cfg, old(Snapshot()))
    {
      if cfg.keypadLayer && state != Waiting {
        var pressed := keys.CheckKey(cfg.keyKeypad);
        if pressed {
          keys.ToggleKeypad();
          nextState := state;
          state := Waiting;
        }
      }
    }

    /** One pass of the main loop after the scan: the keypad check, then the state `switch`. */
    method Step()
      requires Valid()
      modifies this, keys.slots, keys`pressCount, keys`keypadMode, store, store.live, store.index, store.buffer
      ensures Valid() && Snapshot() == StepSpec(cfg, old(Snapshot()))
    {
      KeypadCheck();
      match state {
        case Normal =>
          HandleNormal();
        case Waiting =>
          if keys.pressCount == 0 {
            state := nextState;
            nextState := Normal;
          }
        case Printing =>
          if CharAt(printText, printPos) == 0 as char {
            state := Waiting;
          }
        case ProgrammingSrc =>
          HandleProgramming();
        case ProgrammingDst =>
          HandleProgramming();
        case MacroRecord =>
        case MacroPlay =>
      }
    }

    /** Fill_HIDReport_printing, on the report the USB stack zeroed. */
    method FillPrinting(prev: Report) returns (r: Report)
      requires |prev.keyCodes| == KEY_CODE_SLOTS
      modifies this`printPos
      ensures prev.modifier != 0 || prev.keyCodes[0] != 0 ==> r == EmptyReport && printPos == old(printPos)
      ensures prev.modifier == 0 && prev.keyCodes[0] == 0 ==>
        r == StrokeReport(CharToKeysAsWritten(CharAt(printText, old(printPos)))) && printPos == old(printPos) + 1
    {
      r := EmptyReport;
      if prev.modifier != 0 || prev.keyCodes[0] != 0 {
        return;
      }
      var c := CharAt(printText, printPos);
      printPos := printPos + 1;
      var stroke := CharToKeysAsWritten(c);
      r := Report(stroke.modifier, r.keyCodes[0 := stroke.key]);
    }

    /** CALLBACK_HID_Device_CreateHIDReport: the report and whether to force sending it. */
    method CreateReport(prev: Report) returns (r: Report, force: bool)
      requires Valid() && |prev.keyCodes| == KEY_CODE_SLOTS
      modifies this`printPos
      ensures Valid() && (Snapshot(), r, force) == ReportSpec(cfg, old(Snapshot()), prev)
    {
      ActiveKeysBound(keys.slots[..], cfg);
      match state {
        case Normal =>
          r := FillNormal(keys.slots, store.live);
          force := false;
        case ProgrammingSrc =>
          r := FillNormal(keys.slots, store.live);
          force := false;
        case ProgrammingDst =>
          r := FillNormal(keys.slots, store.live);
          force := false;
        case MacroRecord =>
          r := FillNormal(keys.slots, store.live);
          force := false;
        case Printing =>
          r := FillPrinting(prev);
          force := true;
        case Waiting =>
          r := EmptyReport;
          force := false;
        case MacroPlay =>
          r := EmptyReport;
          force := false;
      }
    }
  }

  /** Every key of a well-formed table, active or listed, is a valid index of the key maps. */
  lemma ActiveKeysBound(s: seq<Slot>, cfg: Config)
    requires cfg.Valid() && WellFormed(s, cfg)
    ensures forall i :: 0 <= i < |s| && s[i].active ==> s[i].lKey < cfg.numLogicalKeys
    ensures forall i :: 0 <= i < |ActiveKeys(s)| ==> ActiveKeys(s)[i] < cfg.numLogicalKeys
  {
    forall i | 0 <= i < |ActiveKeys(s)| ensures ActiveKeys(s)[i] < cfg.numLogicalKeys {
      ActiveKeysMembers(s, ActiveKeys(s)[i]);
    }
  }

  // ---------------------------------------------------------------------------
  // Properties of the state machine
  // ---------------------------------------------------------------------------

  /** A table of distinct keys of length three that holds three distinct keys holds nothing else. */
  lemma ThreeOfThree(ks: seq<byte>, a: byte, b: byte, c: byte)
    requires |ks| == 3 && a in ks && b in ks && c in ks && a != b && b != c && a != c
    ensures forall i :: 0 <= i < 3 ==> ks[i] == a || ks[i] == b || ks[i] == c
  {
    var ia :| 0 <= ia < 3 && ks[ia] == a;
    var ib :| 0 <= ib < 3 && ks[ib] == b;
    var ic :| 0 <= ic < 3 && ks[ic] == c;
  }

  /** The chord loop finds the S/L/D key `t` and the digit `d` whatever order the keys are in. */
  lemma {:induction false} ScanFinds(cfg: Config, ks: seq<byte>, t: byte, d: byte)
    requires cfg.Valid() && cfg.IsStoreCommand(t) && cfg.IsDigit(d)
    requires forall i :: 0 <= i < |ks| ==> ks[i] == cfg.keyProgram || ks[i] == t || ks[i] == d
    ensures ScanStoreChord(cfg, ks) == (if t in ks then t else NO_KEY, if d in ks then d else NO_KEY)
  {
    if ks != [] {
      var p := ks[..|ks| - 1];
      ScanFinds(cfg, p, t, d);
      assert ks == p + [ks[|ks| - 1]];
    }
  }

  /**
   * PROGRAM held with one of S, L, D and a digit key, in any slot order (and
   * not making the F7 + left shift chord), selects a save, load or delete of
   * layout `digit - LOGICAL_KEY_1`.
   */
  lemma StoreChordDecodes(cfg: Config, ks: seq<byte>, t: byte, d: byte)
    requires cfg.Valid() && cfg.IsStoreCommand(t) && cfg.IsDigit(d)
    requires |ks| == 3 && cfg.keyProgram in ks && t in ks && d in ks
    requires !(cfg.keyF7 in ks && cfg.keyLShift in ks)
    ensures Decode(cfg, ks) == StoreCommand(if t == cfg.keyS then SaveOp else if t == cfg.keyL then LoadOp else DeleteOp, d - cfg.key1)
    ensures 0 <= d - cfg.key1 < NUM_KEY_MAPPING_INDICES
  {
    ThreeOfThree(ks, cfg.keyProgram, t, d);
    ScanFinds(cfg, ks, t, d);
  }

  /** PROGRAM held with one other key `x`, in either slot order: the command `x` selects. */
  lemma TwoKeyChordDecodes(cfg: Config, ks: seq<byte>, x: byte)
    requires cfg.Valid() && |ks| == 2 && cfg.keyProgram in ks && x in ks && x != cfg.keyProgram
    ensures Decode(cfg, ks) ==
      if x == cfg.keyF11 then PrintNoMacro
      else if x == cfg.keyF12 || x == cfg.keyHyphen then StartProgramming
      else if x == cfg.keyF7 then ResetToDefaults
      else NoCommand
  {
  }

  /** Nothing happens in Normal unless PROGRAM is held with one or two other keys. */
  lemma CommandNeedsProgram(cfg: Config, ks: seq<byte>)
    requires Decode(cfg, ks) != NoCommand
    ensures 2 <= |ks| <= 3 && cfg.keyProgram in ks
  {
  }

  /** Every state transition keeps the key table and the store well-formed. */
  lemma StepKeepsOk(cfg: Config, m: Machine)
    requires MachineOk(cfg, m)
    ensures MachineOk(cfg, KeypadSpec(cfg, m))
    ensures MachineOk(cfg, StepSpec(cfg, m))
  {
    EvictWellFormed(m.slots, cfg, !m.keypadMode);
    var m1 := KeypadSpec(cfg, m);
    match m1.state
    case Normal => NormalKeepsOk(cfg, m1);
    case ProgrammingSrc => ProgrammingKeepsOk(cfg, m1);
    case ProgrammingDst => ProgrammingKeepsOk(cfg, m1);
    case _ =>
  }

  /** handle_state_programming keeps the store well-formed: it writes one live entry at most. */
  lemma ProgrammingKeepsOk(cfg: Config, m: Machine)
    requires MachineOk(cfg, m)
    ensures MachineOk(cfg, ProgrammingSpec(cfg, m))
  {
    var r := ProgrammingSpec(cfg, m);
    var ks := ActiveKeys(m.slots);
    if |ks| == 1 {
      ActiveKeysBound(m.slots, cfg);
      var img := m.img.(live := m.img.live[ks[0] := m.programSrc]);
      assert r.img == m.img || r.img == img;
      assert forall i :: 0 <= i < |img.index| ==> Stored(img, i) == Stored(m.img, i);
    }
  }

  /** handle_state_normal keeps the store well-formed. */
  lemma NormalKeepsOk(cfg: Config, m: Machine)
    requires MachineOk(cfg, m)
    ensures MachineOk(cfg, NormalSpec(cfg, m))
  {
    match Decode(cfg, ActiveKeys(m.slots))
    case FullReset => ResetFullyWf(m.img, cfg);
    case StoreCommand(op, num) =>
      if op == SaveOp {
        SaveEffect(m.img, cfg, num);
      } else if op == DeleteOp && num < NUM_KEY_MAPPING_INDICES && Occupied(m.img.index[num]) {
        DeleteWf(m.img, cfg, num);
      }
    case _ =>
  }

  /** Waiting resumes `next_state`, and clears it to Normal, exactly when no key is pressed. */
  lemma WaitingStep(cfg: Config, m: Machine)
    requires MachineOk(cfg, m) && m.state == Waiting
    ensures var r := StepSpec(cfg, m);
      && (CountActive(m.slots) == 0 ==> r == m.(state := m.next, next := Normal))
      && (CountActive(m.slots) != 0 ==> r == m)
  {
  }

  /** Printing ends in Waiting exactly when the cursor is at the terminator (`next_state` left armed). */
  lemma PrintingStep(cfg: Config, m: Machine)
    requires MachineOk(cfg, m) && m.state == Printing && !TogglesKeypad(cfg, m)
    ensures var r := StepSpec(cfg, m);
      && (r.state == Waiting <==> CharAt(m.text, m.pos) == 0 as char)
      && r.(state := m.state) == m
  {
  }

  /**
   * The keypad key interrupts any state but Waiting: the layer flips, the
   * keys invalid in the new layer are dropped, and once every key is
   * released the interrupted state resumes.
   */
  lemma KeypadInterrupts(cfg: Config, m: Machine, later: Machine)
    requires MachineOk(cfg, m) && TogglesKeypad(cfg, m)
    requires MachineOk(cfg, later) && later.state == Waiting && later.next == m.state
    requires CountActive(later.slots) == 0
    ensures var r := KeypadSpec(cfg, m);
      && r.state == Waiting && r.next == m.state && r.keypadMode == !m.keypadMode
      && r.slots == Evict(m.slots, cfg, !m.keypadMode)
    ensures StepSpec(cfg, later).state == m.state
  {
  }

  /**
   * Programming one key: in Src, a lone key `a` whose default code is not a
   * firmware action records that code and arms Dst through Waiting; in Dst, a
   * lone key `b` then gets exactly that code in its live entry (the default
   * of `a`, never its live code), and Src is armed again.
   */
  lemma ProgramCopiesDefault(cfg: Config, m: Machine, a: byte, later: Machine, b: byte)
    requires MachineOk(cfg, m) && m.state == ProgrammingSrc && ActiveKeys(m.slots) == [a]
    requires a < cfg.numLogicalKeys && !Unprogrammable(cfg.defaults[a])
    requires MachineOk(cfg, later) && later.state == ProgrammingDst && ActiveKeys(later.slots) == [b]
    requires later.programSrc == ProgrammingSpec(cfg, m).programSrc
    requires b < cfg.numLogicalKeys && !Unprogrammable(cfg.defaults[b])
    ensures var r := ProgrammingSpec(cfg, m);
      r.state == Waiting && r.next == ProgrammingDst && r.programSrc == cfg.defaults[a] && r.img == m.img
    ensures var r := ProgrammingSpec(cfg, later);
      && r.state == Waiting && r.next == ProgrammingSrc
      && r.img == later.img.(live := later.img.live[b := cfg.defaults[a]])
  {
    assert !AbortChord(cfg, m.slots) && !AbortChord(cfg, later.slots);
  }

  /** The abort chord always leaves programming mode for Normal, through Waiting. */
  lemma ProgrammingAborts(cfg: Config, m: Machine)
    requires MachineOk(cfg, m) && (m.state == ProgrammingSrc || m.state == ProgrammingDst)
    requires AbortChord(cfg, m.slots)
    ensures ProgrammingSpec(cfg, m) == m.(state := Waiting, next := Normal)
  {
  }

  /** Every character of `text` is printable and typed as itself by the firmware's table: no grave accent, no tilde. */
  predicate TypesThemselves(text: seq<Char8>)
  {
    forall i :: 0 <= i < |text| ==> Printable(text[i]) && text[i] != '`' && text[i] != '~'
  }

  /** Every message the firmware prints is printable ASCII without a grave accent or a tilde. */
  lemma MessagesTypeThemselves(st: Status)
    ensures TypesThemselves(Message(st))
    ensures TypesThemselves(MSG_NO_MACRO)
  {
    match st {
      case Ok =>
      case NoSuchLayout => NoSuchLayoutTypes();
      case OutOfSpace => OutOfSpaceTypes();
      case NoChanges => NoChangesTypes();
    }
    NoMacroTypes();
  }

  /** "No such layout" types itself. */
  lemma NoSuchLayoutTypes()
    ensures TypesThemselves(Message(NoSuchLayout))
  {
  }

  /** "Out of space, can't save layout." types itself. */
  lemma OutOfSpaceTypes()
    ensures TypesThemselves(Message(OutOfSpace))
  {
  }

  /** "No changes, not saved." types itself. */
  lemma NoChangesTypes()
    ensures TypesThemselves(Message(NoChanges))
  {
  }

  /** MSG_NO_MACRO types itself. */
  lemma NoMacroTypes()
    ensures TypesThemselves(MSG_NO_MACRO)
  {
  }

  /**
   * The printing throttle: while the previous report is non-empty the report
   * is empty and the cursor stays; otherwise the report types the character
   * under the cursor and the cursor advances. On a US-layout host a
   * printable character comes out as itself, except that the firmware's
   * table swaps the grave accent and the tilde. A report is forced either way.
   */
  lemma PrintingThrottle(cfg: Config, m: Machine, prev: Report)
    requires MachineOk(cfg, m) && m.state == Printing && |prev.keyCodes| == KEY_CODE_SLOTS
    ensures var (r, report, force) := ReportSpec(cfg, m, prev);
      var c := CharAt(m.text, m.pos);
      && force
      && (prev.modifier != 0 || prev.keyCodes[0] != 0 ==> r == m && report == EmptyReport)
      && (prev.modifier == 0 && prev.keyCodes[0] == 0 ==>
            && r == m.(pos := m.pos + 1)
            && (Printable(c) ==>
                  Typed(Stroke(report.keyCodes[0], report.modifier))
                  == Some(if c == '`' then '~' else if c == '~' then '`' else c as char)))
  {
    if prev.modifier == 0 && prev.keyCodes[0] == 0 && Printable(CharAt(m.text, m.pos)) {
      AsWrittenTyped(CharAt(m.text, m.pos));
    }
  }

  /**
   * While the firmware prints one of its own messages, every character it
   * types comes out as itself: the swapped grave accent and tilde never occur
   * in them.
   */
  lemma MessagesPrintAsThemselves(cfg: Config, m: Machine, prev: Report, st: Status)
    requires MachineOk(cfg, m) && m.state == Printing && |prev.keyCodes| == KEY_CODE_SLOTS
    requires m.text == Message(st) || m.text == MSG_NO_MACRO
    requires prev.modifier == 0 && prev.keyCodes[0] == 0 && m.pos < |m.text|
    ensures var (_, report, _) := ReportSpec(cfg, m, prev);
      Typed(Stroke(report.keyCodes[0], report.modifier)) == Some(m.text[m.pos] as char)
  {
    MessagesTypeThemselves(st);
    PrintingThrottle(cfg, m, prev);
  }
}
