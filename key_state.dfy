/**
 * The debounce engine: a fixed table of 14 slots, each tracking one logical
 * key's debounce shift register and whether the key counts as pressed, plus
 * the count of pressed keys (Keyboard.c, KeyState_*).
 */
module KeyState {
  import opened Config

  /** One entry of `key_states`: the tracked logical key (NO_KEY when free),
      the `state` flag and the 8-bit `debounce` history. */
  datatype Slot = Slot(lKey: byte, active: bool, debounce: bv8)

  const FreeSlot: Slot := Slot(NO_KEY, false, 0)

  // ---------------------------------------------------------------------------
  // Specification functions over the value of the table
  // ---------------------------------------------------------------------------

  /** The logical keys of the active slots, in slot order. */
  function ActiveKeys(s: seq<Slot>): (r: seq<byte>)
    ensures |r| <= |s|
  {
    if s == [] then []
    else ActiveKeys(s[..|s| - 1]) + (if s[|s| - 1].active then [s[|s| - 1].lKey] else [])
  }

  /** `key_press_count` as the table determines it. */
  function CountActive(s: seq<Slot>): nat
  {
    |ActiveKeys(s)|
  }

  /** True when some slot holds `k` and that slot is active. */
  predicate IsActive(s: seq<Slot>, k: int)
  {
    exists j :: 0 <= j < |s| && s[j].lKey == k && s[j].active
  }

  /** True when some slot tracks `k` (pressed or still debouncing). */
  predicate IsTracked(s: seq<Slot>, k: int)
  {
    exists j :: 0 <= j < |s| && s[j].lKey == k
  }

  /** Index of the first slot holding `k`, or |s| when there is none. */
  function FindKey(s: seq<Slot>, k: int): (r: nat)
    ensures r <= |s|
    ensures r < |s| ==> s[r].lKey == k
    ensures forall i :: 0 <= i < r ==> s[i].lKey != k
  {
    if s == [] then 0
    else if s[0].lKey == k then 0
    else 1 + FindKey(s[1..], k)
  }

  /** A single slot is consistent: a free slot is inactive; a tracked slot holds a
      valid logical key and a nonzero history lying within the debounce mask. */
  predicate SlotOk(x: Slot, cfg: Config)
  {
    if x.lKey == NO_KEY then !x.active
    else x.lKey < cfg.numLogicalKeys && x.debounce != 0 && x.debounce & cfg.debounceMask == x.debounce
  }

  /** No logical key is tracked by two slots. */
  predicate NoDuplicates(s: seq<Slot>)
  {
    forall i, j :: 0 <= i < j < |s| && s[i].lKey != NO_KEY ==> s[i].lKey != s[j].lKey
  }

  /**
   * The invariant of the table: capacity 14, every slot consistent, and no
   * key tracked twice.
   */
  predicate WellFormed(s: seq<Slot>, cfg: Config)
  {
    && |s| == KEYSTATE_COUNT
    && (forall i :: 0 <= i < |s| ==> SlotOk(s[i], cfg))
    && NoDuplicates(s)
  }

  /** One reading shifted into a debounce history: `DEBOUNCE_MASK & ((debounce << 1) | reading)`. */
  function Shift(mask: bv8, d: bv8, reading: bool): bv8
  {
    mask & ((d << 1) | (if reading then 1 else 0))
  }

  /** The update of a slot already tracking the key: an all-zero history frees
      the slot, a history equal to the mask marks an inactive key active. */
  function Track(x: Slot, mask: bv8, reading: bool): Slot
  {
    var d := Shift(mask, x.debounce, reading);
    if d == 0 then Slot(NO_KEY, false, 0)
    else if !x.active && d == mask then Slot(x.lKey, true, d)
    else Slot(x.lKey, x.active, d)
  }

  /**
   * What one reading of one key does to the table: update the slot tracking
   * the key if there is one; otherwise, if the key reads pressed and a slot is
   * free, start tracking it in the first free slot with history 1; otherwise
   * drop the reading.
   */
  function KeyStep(s: seq<Slot>, k: byte, reading: bool, mask: bv8): seq<Slot>
  {
    var j := FindKey(s, k);
    if j < |s| then s[j := Track(s[j], mask, reading)]
    else
      var f := FindKey(s, NO_KEY);
      if reading && f < |s| then s[f := Slot(k, false, 1)] else s
  }

  /** The positions `0 .. c-1` of matrix row `row`, processed in column order. */
  function ScanCols(s: seq<Slot>, cfg: Config, keypadMode: bool, readings: seq<seq<bool>>, row: nat, c: nat): seq<Slot>
    requires cfg.Valid() && ReadingsFit(cfg, readings) && row < cfg.rows && c <= cfg.cols
  {
    if c == 0 then s
    else
      var prev := ScanCols(s, cfg, keypadMode, readings, row, c - 1);
      var k := cfg.LogicalAt(row, c - 1, keypadMode);
      if k == NO_KEY then prev else KeyStep(prev, k, readings[row][c - 1], cfg.debounceMask)
  }

  /** Rows `0 .. r-1` of the matrix, processed row by row. */
  function ScanRows(s: seq<Slot>, cfg: Config, keypadMode: bool, readings: seq<seq<bool>>, r: nat): seq<Slot>
    requires cfg.Valid() && ReadingsFit(cfg, readings) && r <= cfg.rows
  {
    if r == 0 then s
    else ScanCols(ScanRows(s, cfg, keypadMode, readings, r - 1), cfg, keypadMode, readings, r - 1, cfg.cols)
  }

  /** One raw reading per matrix position. */
  predicate ReadingsFit(cfg: Config, readings: seq<seq<bool>>)
  {
    |readings| == cfg.rows && forall r :: 0 <= r < |readings| ==> |readings[r]| == cfg.cols
  }

  /** Is logical key `l` still valid after the keypad layer switches to `keypadMode`? */
  predicate ValidInLayer(cfg: Config, l: int, keypadMode: bool)
  {
    l < cfg.keypadStart
    || (keypadMode && l >= cfg.keypadStart + cfg.keypadSize)
    || (!keypadMode && l < cfg.keypadStart + cfg.keypadSize)
  }

  /** The table after switching the keypad layer: slots invalid in the new layer are emptied
      (their history is left in place, as the firmware does). */
  function Evict(s: seq<Slot>, cfg: Config, keypadMode: bool): (r: seq<Slot>)
    ensures |r| == |s|
  {
    seq(|s|, i requires 0 <= i < |s| =>
      if ValidInLayer(cfg, s[i].lKey, keypadMode) then s[i] else Slot(NO_KEY, false, s[i].debounce))
  }

  // ---------------------------------------------------------------------------
  // Lemmas
  // ---------------------------------------------------------------------------

  /** Replacing one slot changes the active count by the change in that slot's flag. */
  lemma {:induction false} CountAfterUpdate(s: seq<Slot>, j: nat, x: Slot)
    requires j < |s|
    ensures CountActive(s[j := x]) + (if s[j].active then 1 else 0)
         == CountActive(s) + (if x.active then 1 else 0)
  {
    var t := s[j := x];
    var n := |s| - 1;
    assert t[..n] == if j == n then s[..n] else s[..n][j := x];
    if j < n {
      CountAfterUpdate(s[..n], j, x);
    }
  }

  /** The keys of a prefix of the table are a prefix of its keys. */
  lemma {:induction false} ActiveKeysAppend(s: seq<Slot>, i: nat)
    requires i < |s|
    ensures ActiveKeys(s[..i + 1]) == ActiveKeys(s[..i]) + (if s[i].active then [s[i].lKey] else [])
  {
    assert s[..i + 1][..i] == s[..i];
  }

  /** A listed key is exactly an active key: `k in ActiveKeys(s)` iff some active slot holds `k`. */
  lemma {:induction false} ActiveKeysMembers(s: seq<Slot>, k: int)
    ensures k in ActiveKeys(s) <==> IsActive(s, k)
  {
    if s != [] {
      var n := |s| - 1;
      ActiveKeysMembers(s[..n], k);
      if IsActive(s[..n], k) {
        var j :| 0 <= j < n && s[..n][j].lKey == k && s[..n][j].active;
        assert s[j].lKey == k && s[j].active;
      }
      if IsActive(s, k) {
        var j :| 0 <= j < |s| && s[j].lKey == k && s[j].active;
        if j < n { assert s[..n][j] == s[j]; }
      }
    }
  }

  /** The keys collected from a table without duplicates are themselves distinct. */
  lemma {:induction false} ActiveKeysDistinct(s: seq<Slot>)
    requires NoDuplicates(s)
    requires forall i :: 0 <= i < |s| && s[i].lKey == NO_KEY ==> !s[i].active
    ensures forall a, b :: 0 <= a < b < |ActiveKeys(s)| ==> ActiveKeys(s)[a] != ActiveKeys(s)[b]
  {
    if s != [] {
      var n := |s| - 1;
      var p := s[..n];
      ActiveKeysDistinct(p);
      if s[n].active {
        forall j | 0 <= j < n ensures !(p[j].lKey == s[n].lKey && p[j].active) {
          assert p[j] == s[j];
        }
        ActiveKeysMembers(p, s[n].lKey);
      }
    }
  }

  /** Replacing one slot by a consistent slot whose key no other slot tracks keeps the table well formed. */
  lemma UpdateWellFormed(s: seq<Slot>, cfg: Config, j: nat, x: Slot)
    requires WellFormed(s, cfg) && j < |s| && SlotOk(x, cfg)
    requires x.lKey == NO_KEY || forall i :: 0 <= i < |s| && i != j ==> s[i].lKey != x.lKey
    ensures WellFormed(s[j := x], cfg)
  {
  }

  /** Switching the layer keeps the table well formed. */
  lemma EvictWellFormed(s: seq<Slot>, cfg: Config, keypadMode: bool)
    requires WellFormed(s, cfg)
    ensures WellFormed(Evict(s, cfg, keypadMode), cfg)
  {
  }

  /** One reading keeps the table well formed (the slot-allocation and debounce invariants). */
  lemma KeyStepWellFormed(s: seq<Slot>, cfg: Config, k: byte, reading: bool)
    requires cfg.Valid() && WellFormed(s, cfg) && k != NO_KEY && k < cfg.numLogicalKeys
    ensures WellFormed(KeyStep(s, k, reading, cfg.debounceMask), cfg)
  {
    var mask := cfg.debounceMask;
    var j := FindKey(s, k);
    if j < |s| {
      var d := Shift(mask, s[j].debounce, reading);
      assert d & mask == d;
      assert SlotOk(Track(s[j], mask, reading), cfg);
      UpdateWellFormed(s, cfg, j, Track(s[j], mask, reading));
    } else {
      var f := FindKey(s, NO_KEY);
      if reading && f < |s| {
        assert (1 as bv8) & mask == 1;
        UpdateWellFormed(s, cfg, f, Slot(k, false, 1));
      }
    }
  }

  /**
   * How one reading changes `key_press_count`: up by one exactly when a
   * tracked, inactive key's history reaches the mask; down by one exactly when
   * a tracked, active key's history reaches zero; otherwise unchanged.
   */
  lemma KeyStepCount(s: seq<Slot>, cfg: Config, k: byte, reading: bool)
    requires cfg.Valid() && WellFormed(s, cfg) && k != NO_KEY
    ensures var j := FindKey(s, k);
      var d := if j < |s| then Shift(cfg.debounceMask, s[j].debounce, reading) else 0;
      CountActive(KeyStep(s, k, reading, cfg.debounceMask))
        == CountActive(s)
         + (if j < |s| && !s[j].active && d == cfg.debounceMask then 1 else 0)
         - (if j < |s| && s[j].active && d == 0 then 1 else 0)
  {
    var mask := cfg.debounceMask;
    var j := FindKey(s, k);
    if j < |s| {
      CountAfterUpdate(s, j, Track(s[j], mask, reading));
    } else {
      var f := FindKey(s, NO_KEY);
      if reading && f < |s| {
        CountAfterUpdate(s, f, Slot(k, false, 1));
      }
    }
  }

  /**
   * Slot allocation and debouncing, key by key: after a reading of `k`, `k` is
   * tracked exactly when it was tracked and its history stays nonzero, or it
   * was untracked, reads pressed and a slot was free; it is active exactly when
   * it was tracked and either was active with a nonzero history or its
   * history now equals the mask. Every other key keeps its slot and flag.
   */
  lemma KeyStepEffect(s: seq<Slot>, cfg: Config, k: byte, reading: bool)
    requires cfg.Valid() && WellFormed(s, cfg) && k != NO_KEY && k < cfg.numLogicalKeys
    ensures var t := KeyStep(s, k, reading, cfg.debounceMask);
      var j := FindKey(s, k);
      var d := if j < |s| then Shift(cfg.debounceMask, s[j].debounce, reading) else 0;
      && (IsTracked(t, k) <==>
            (j < |s| && d != 0) || (j == |s| && reading && IsTracked(s, NO_KEY)))
      && (IsActive(t, k) <==> j < |s| && ((s[j].active && d != 0) || d == cfg.debounceMask))
      && (forall i :: 0 <= i < |s| && s[i].lKey != k && s[i].lKey != NO_KEY ==> t[i] == s[i])
  {
    if FindKey(s, k) < |s| {
      KeyStepTracked(s, cfg, k, reading);
    } else {
      KeyStepUntracked(s, cfg, k, reading);
    }
  }

  /** KeyStepEffect for a key that has a slot. */
  lemma KeyStepTracked(s: seq<Slot>, cfg: Config, k: byte, reading: bool)
    requires cfg.Valid() && WellFormed(s, cfg) && k != NO_KEY && k < cfg.numLogicalKeys
    requires FindKey(s, k) < |s|
    ensures var t := KeyStep(s, k, reading, cfg.debounceMask);
      var j := FindKey(s, k);
      var d := Shift(cfg.debounceMask, s[j].debounce, reading);
      && (IsTracked(t, k) <==> d != 0)
      && (IsActive(t, k) <==> (s[j].active && d != 0) || d == cfg.debounceMask)
      && (forall i :: 0 <= i < |s| && s[i].lKey != k && s[i].lKey != NO_KEY ==> t[i] == s[i])
  {
    var mask := cfg.debounceMask;
    var t := KeyStep(s, k, reading, mask);
    var j := FindKey(s, k);
    KeyStepWellFormed(s, cfg, k, reading);
    assert forall i :: 0 <= i < |s| && i != j ==> s[i].lKey != k;
    if IsTracked(t, k) {
      var i :| 0 <= i < |t| && t[i].lKey == k;
      assert i == j;
    }
    if IsActive(t, k) {
      var i :| 0 <= i < |t| && t[i].lKey == k && t[i].active;
      assert i == j;
    }
    if Shift(mask, s[j].debounce, reading) != 0 { assert t[j].lKey == k; }
  }

  /** KeyStepEffect for a key that has no slot. */
  lemma KeyStepUntracked(s: seq<Slot>, cfg: Config, k: byte, reading: bool)
    requires cfg.Valid() && WellFormed(s, cfg) && k != NO_KEY && k < cfg.numLogicalKeys
    requires FindKey(s, k) == |s|
    ensures var t := KeyStep(s, k, reading, cfg.debounceMask);
      && (IsTracked(t, k) <==> reading && IsTracked(s, NO_KEY))
      && !IsActive(t, k)
      && (forall i :: 0 <= i < |s| && s[i].lKey != k && s[i].lKey != NO_KEY ==> t[i] == s[i])
  {
    var t := KeyStep(s, k, reading, cfg.debounceMask);
    KeyStepWellFormed(s, cfg, k, reading);
    var f := FindKey(s, NO_KEY);
    if IsTracked(s, NO_KEY) {
      var i :| 0 <= i < |s| && s[i].lKey == NO_KEY;
      assert f <= i;
    }
    if IsTracked(t, k) {
      var i :| 0 <= i < |t| && t[i].lKey == k;
      assert reading && f < |s| && i == f;
    }
    if reading && f < |s| { assert t[f].lKey == k; }
    forall i | 0 <= i < |t| ensures !(t[i].lKey == k && t[i].active) {
      if i != f { assert t[i] == s[i]; }
    }
  }

  /** Scanning part of a row keeps the table well formed. */
  lemma {:induction false} ScanColsWellFormed(s: seq<Slot>, cfg: Config, keypadMode: bool, readings: seq<seq<bool>>, row: nat, c: nat)
    requires cfg.Valid() && ReadingsFit(cfg, readings) && row < cfg.rows && c <= cfg.cols
    requires WellFormed(s, cfg)
    ensures WellFormed(ScanCols(s, cfg, keypadMode, readings, row, c), cfg)
  {
    if c > 0 {
      ScanColsWellFormed(s, cfg, keypadMode, readings, row, c - 1);
      var prev := ScanCols(s, cfg, keypadMode, readings, row, c - 1);
      var k := cfg.LogicalAt(row, c - 1, keypadMode);
      if k != NO_KEY {
        KeyStepWellFormed(prev, cfg, k, readings[row][c - 1]);
      }
    }
  }

  /**
   * For every matrix of raw readings a full scan keeps the table well formed,
   * so the pressed-key count stays the number of active slots and at most 14.
   */
  lemma {:induction false} ScanWellFormed(s: seq<Slot>, cfg: Config, keypadMode: bool, readings: seq<seq<bool>>, r: nat)
    requires cfg.Valid() && ReadingsFit(cfg, readings) && r <= cfg.rows
    requires WellFormed(s, cfg)
    ensures WellFormed(ScanRows(s, cfg, keypadMode, readings, r), cfg)
    ensures CountActive(ScanRows(s, cfg, keypadMode, readings, r)) <= KEYSTATE_COUNT
  {
    if r > 0 {
      ScanWellFormed(s, cfg, keypadMode, readings, r - 1);
      ScanColsWellFormed(ScanRows(s, cfg, keypadMode, readings, r - 1), cfg, keypadMode, readings, r - 1, cfg.cols);
    }
  }

  // ---------------------------------------------------------------------------
  // The table as the firmware holds it
  // ---------------------------------------------------------------------------

  /** `key_states`, `key_press_count` and `keypad_mode`. */
  class KeyTable {
    const cfg: Config
    var slots: array<Slot>
    var pressCount: byte
    var keypadMode: bool

    ghost predicate Valid()
      reads this, slots
    {
      && cfg.Valid()
      && WellFormed(slots[..], cfg)
      && pressCount == CountActive(slots[..])
    }

    /** KeyState_Init: every slot free, nothing pressed, keypad layer off. */
    constructor Init(c: Config)
      requires c.Valid()
      ensures Valid() && fresh(slots) && cfg == c && !keypadMode
      ensures forall i :: 0 <= i < slots.Length ==> slots[i] == FreeSlot
      ensures pressCount == 0
    {
      cfg := c;
      var a := new Slot[KEYSTATE_COUNT];
      var i := 0;
      while i < KEYSTATE_COUNT
        invariant 0 <= i <= KEYSTATE_COUNT
        invariant forall j :: 0 <= j < i ==> a[j] == FreeSlot
      {
        a[i] := FreeSlot;
        i := i + 1;
      }
      slots := a;
      pressCount := 0;
      keypadMode := false;
      ZeroActive(a[..]);
    }

    /** The search of the inner slot scan of KeyState_Update: the slot tracking
        `lKey`, or KEYSTATE_COUNT, and the first free slot met before it (NO_KEY if none). */
    method Locate(lKey: byte) returns (j: nat, freeSlot: byte)
      requires Valid() && lKey != NO_KEY
      ensures j == FindKey(slots[..], lKey)
      ensures j == KEYSTATE_COUNT ==>
        freeSlot == if FindKey(slots[..], NO_KEY) < KEYSTATE_COUNT then FindKey(slots[..], NO_KEY) else NO_KEY
    {
      freeSlot := NO_KEY;
      j := 0;
      while j < KEYSTATE_COUNT
        invariant 0 <= j <= KEYSTATE_COUNT
        invariant forall i :: 0 <= i < j ==> slots[i].lKey != lKey
        invariant freeSlot == NO_KEY ==> forall i :: 0 <= i < j ==> slots[i].lKey != NO_KEY
        invariant freeSlot != NO_KEY ==>
          freeSlot < j && slots[freeSlot].lKey == NO_KEY && forall i :: 0 <= i < freeSlot ==> slots[i].lKey != NO_KEY
      {
        if freeSlot == NO_KEY && slots[j].lKey == NO_KEY {
          freeSlot := j;
        } else if slots[j].lKey == lKey {
          break;
        }
        j := j + 1;
      }
    }

    /** The inner slot scan of KeyState_Update for one logical key and its reading. */
    method UpdateKey(lKey: byte, reading: bool)
      requires Valid() && lKey != NO_KEY && lKey < cfg.numLogicalKeys
      modifies slots, this`pressCount
      ensures Valid()
      ensures slots[..] == KeyStep(old(slots[..]), lKey, reading, cfg.debounceMask)
    {
      ghost var s := slots[..];
      var j, freeSlot := Locate(lKey);
      KeyStepCount(s, cfg, lKey, reading);
      KeyStepWellFormed(s, cfg, lKey, reading);
      if j < KEYSTATE_COUNT {
        // found our key: shift the reading into its history
        var key := slots[j];
        var d := Shift(cfg.debounceMask, key.debounce, reading);
        if d == 0 {
          if key.active { pressCount := pressCount - 1; }
          slots[j] := Slot(NO_KEY, false, 0);
        } else if !key.active && d == cfg.debounceMask {
          pressCount := pressCount + 1;
          slots[j] := Slot(lKey, true, d);
        } else {
          slots[j] := Slot(lKey, key.active, d);
        }
      } else if reading && freeSlot != NO_KEY {
        // not tracked and pressed: start tracking it in the first free slot
        slots[freeSlot] := Slot(lKey, false, 1);
      }
    }

    /** KeyState_Update: every populated matrix position, row by row, column by column. */
    method Update(readings: seq<seq<bool>>)
      requires Valid() && ReadingsFit(cfg, readings)
      modifies slots, this`pressCount
      ensures Valid()
      ensures slots[..] == ScanRows(old(slots[..]), cfg, keypadMode, readings, cfg.rows)
    {
      ghost var s0 := slots[..];
      var row := 0;
      while row < cfg.rows
        invariant 0 <= row <= cfg.rows
        invariant Valid()
        invariant slots[..] == ScanRows(s0, cfg, keypadMode, readings, row)
      {
        ScanRow(readings, row);
        row := row + 1;
      }
    }

    /** One row of KeyState_Update: every populated column of `row`, left to right. */
    method ScanRow(readings: seq<seq<bool>>, row: nat)
      requires Valid() && ReadingsFit(cfg, readings) && row < cfg.rows
      modifies slots, this`pressCount
      ensures Valid()
      ensures slots[..] == ScanCols(old(slots[..]), cfg, keypadMode, readings, row, cfg.cols)
    {
      ghost var s0 := slots[..];
      var col := 0;
      while col < cfg.cols
        invariant 0 <= col <= cfg.cols
        invariant Valid()
        invariant slots[..] == ScanCols(s0, cfg, keypadMode, readings, row, col)
      {
        var lKey := cfg.LogicalAt(row, col, keypadMode);
        if lKey != NO_KEY {
          UpdateKey(lKey, readings[row][col]);
        }
        col := col + 1;
      }
    }

    /** KeyState_ToggleKeypad: flip the layer and empty the slots whose key the new layer lacks. */
    method ToggleKeypad()
      requires Valid() && cfg.keypadLayer
      modifies slots, this`pressCount, this`keypadMode
      ensures Valid()
      ensures keypadMode == !old(keypadMode)
      ensures slots[..] == Evict(old(slots[..]), cfg, keypadMode)
    {
      keypadMode := !keypadMode;
      ghost var s := slots[..];
      EvictWellFormed(s, cfg, keypadMode);
      var i := 0;
      while i < KEYSTATE_COUNT
        invariant 0 <= i <= KEYSTATE_COUNT
        invariant slots.Length == KEYSTATE_COUNT && keypadMode == !old(keypadMode)
        invariant forall j :: 0 <= j < i ==> slots[j] == Evict(s, cfg, keypadMode)[j]
        invariant forall j :: i <= j < KEYSTATE_COUNT ==> slots[j] == s[j]
        invariant pressCount == CountActive(slots[..])
      {
        var lKey := slots[i].lKey;
        if !ValidInLayer(cfg, lKey, keypadMode) {
          CountAfterUpdate(slots[..], i, Slot(NO_KEY, false, slots[i].debounce));
          if slots[i].active {
            pressCount := pressCount - 1;
          }
          slots[i] := Slot(NO_KEY, false, slots[i].debounce);
        }
        i := i + 1;
      }
      assert slots[..] == Evict(s, cfg, keypadMode);
    }

    /** KeyState_CheckKey: is `k` held down (debounced)? */
    method CheckKey(k: byte) returns (r: bool)
      requires Valid()
      ensures r <==> IsActive(slots[..], k)
    {
      var i := 0;
      while i < KEYSTATE_COUNT
        invariant 0 <= i <= KEYSTATE_COUNT
        invariant forall j :: 0 <= j < i ==> slots[j].lKey != k
      {
        if slots[i].lKey == k {
          return slots[i].active;
        }
        i := i + 1;
      }
      return false;
    }

    /** KeyState_CheckKeys: false at once when more keys are asked for than are
        pressed, otherwise true exactly when every listed key is pressed. */
    method CheckKeys(keys: seq<byte>) returns (r: bool)
      requires Valid()
      ensures r <==> |keys| <= pressCount && forall i :: 0 <= i < |keys| ==> IsActive(slots[..], keys[i])
    {
      if |keys| > pressCount {
        return false;
      }
      r := true;
      var i := 0;
      while i < |keys|
        invariant 0 <= i <= |keys|
        invariant forall j :: 0 <= j < i ==> IsActive(slots[..], keys[j])
      {
        var found := CheckKey(keys[i]);
        if !found {
          return false;
        }
        i := i + 1;
      }
    }

    /** KeyState_GetKeys: the `key_press_count` active keys, in slot order. */
    method GetKeys() returns (keys: seq<byte>)
      requires Valid()
      ensures keys == ActiveKeys(slots[..]) && |keys| == pressCount
    {
      keys := [];
      var i := 0;
      while i < KEYSTATE_COUNT && |keys| < pressCount
        invariant 0 <= i <= KEYSTATE_COUNT
        invariant keys == ActiveKeys(slots[..i])
      {
        ActiveKeysAppend(slots[..], i);
        if slots[i].active {
          keys := keys + [slots[i].lKey];
        }
        i := i + 1;
      }
      if i < KEYSTATE_COUNT {
        NoneActiveAfter(slots[..], i);
      } else {
        assert slots[..i] == slots[..];
      }
    }
  }

  /** An all-free table has no active key. */
  lemma {:induction false} ZeroActive(s: seq<Slot>)
    requires forall i :: 0 <= i < |s| ==> !s[i].active
    ensures CountActive(s) == 0
  {
    if s != [] {
      ZeroActive(s[..|s| - 1]);
    }
  }

  /** Once a prefix holds every active key, the rest of the table adds none. */
  lemma {:induction false} NoneActiveAfter(s: seq<Slot>, i: nat)
    requires i <= |s| && CountActive(s[..i]) >= CountActive(s)
    ensures ActiveKeys(s[..i]) == ActiveKeys(s)
  {
    if i < |s| {
      var n := |s| - 1;
      assert s[..n][..i] == s[..i];
      PrefixCount(s[..n], i);
      NoneActiveAfter(s[..n], i);
      assert s[..n] == s[..|s| - 1];
    } else {
      assert s[..i] == s;
    }
  }

  /** A prefix has at most as many active keys as the whole table. */
  lemma {:induction false} PrefixCount(s: seq<Slot>, i: nat)
    requires i <= |s|
    ensures CountActive(s[..i]) <= CountActive(s)
  {
    if i < |s| {
      var n := |s| - 1;
      assert s[..n][..i] == s[..i];
      PrefixCount(s[..n], i);
    } else {
      assert s[..i] == s;
    }
  }
}
