/**
 * Byte-level constants of the firmware and the build-time configuration that
 * the keyboard header supplies (matrix geometry, the sparse matrix-to-logical
 * table, the factory default map, the debounce mask and the logical key codes
 * that the command chords use).
 */
module Config {

  /** An unsigned 8-bit value, as `uint8_t` / `logical_keycode` / `hid_keycode`. */
  type byte = x: int | 0 <= x < 256

  /** A character of the firmware's 8-bit `char` type. */
  type Char8 = c: char | c as int < 256 witness 'a'

  /** Marks an empty key slot, an empty matrix position and an empty layout index. */
  const NO_KEY: byte := 0xFF

  /** Output codes at or above this value are firmware actions, never sent to the host. */
  const SPECIAL_HID_KEYS_START: byte := 0xE8

  /** HID usage of the left control key, the first of the eight modifier usages. */
  const HID_KEYBOARD_SC_LEFT_CONTROL: byte := 0xE0

  /** Capacity of the active-key table. */
  const KEYSTATE_COUNT: nat := 14

  /** Number of saved-layout index entries. */
  const NUM_KEY_MAPPING_INDICES: nat := 10

  /** Number of (logical key, output code) pairs in the saved-layout buffer. */
  const SAVED_KEY_MAPPINGS_BUFFER_SIZE: nat := 128

  /** Value of the storage validity byte once the store has been initialised. */
  const EEPROM_SENTINEL: byte := 42

  /**
   * What the keyboard header fixes at build time. `key1` is LOGICAL_KEY_1; the
   * digit keys 1..9,0 are the ten consecutive logical codes starting there.
   */
  datatype Config = Config(
    debounceMask: bv8,
    numLogicalKeys: nat,
    rows: nat,
    cols: nat,
    matrix: seq<seq<byte>>,
    defaults: seq<byte>,
    keypadLayer: bool,
    keypadStart: nat,
    keypadSize: nat,
    keyProgram: byte,
    keyKeypad: byte,
    keyF7: byte,
    keyF11: byte,
    keyF12: byte,
    keyHyphen: byte,
    keyLShift: byte,
    keyS: byte,
    keyL: byte,
    keyD: byte,
    key1: byte)
  {
    /** LOGICAL_KEY_0, the last of the ten digit keys. */
    function Key0(): int { key1 + 9 }

    /** True of the logical codes LOGICAL_KEY_1 .. LOGICAL_KEY_0. */
    predicate IsDigit(k: int) { key1 <= k <= Key0() }

    /** True of the three store-command keys S, L and D. */
    predicate IsStoreCommand(k: int) { k == keyS || k == keyL || k == keyD }

    /** The logical key a matrix position reads as, after the keypad-layer shift. */
    function LogicalAt(row: nat, col: nat, keypadMode: bool): byte
      requires Valid() && row < rows && col < cols
    {
      var k := matrix[row][col];
      if k != NO_KEY && keypadLayer && keypadMode && k >= keypadStart then k + keypadSize else k
    }

    /**
     * What the firmware relies on: the debounce mask has its lowest bit set
     * (a new slot starts with history 1), every logical key and every keypad
     * shifted key is a valid index of the key maps (and so differs from
     * NO_KEY), and the chord keys are distinct where the command decoding needs it.
     */
    predicate Valid()
    {
      && debounceMask & 1 == 1
      && 0 < numLogicalKeys < 256
      && |defaults| == numLogicalKeys
      && |matrix| == rows
      && (forall r :: 0 <= r < rows ==> |matrix[r]| == cols)
      && (forall r, c :: 0 <= r < rows && 0 <= c < cols ==>
            matrix[r][c] == NO_KEY || matrix[r][c] < numLogicalKeys)
      && (forall r, c :: 0 <= r < rows && 0 <= c < cols ==>
            (keypadLayer && matrix[r][c] != NO_KEY && matrix[r][c] >= keypadStart ==>
               matrix[r][c] + keypadSize < numLogicalKeys))
      && keyProgram < numLogicalKeys && keyKeypad < numLogicalKeys
      && keyF7 < numLogicalKeys && keyF11 < numLogicalKeys && keyF12 < numLogicalKeys
      && keyHyphen < numLogicalKeys && keyLShift < numLogicalKeys
      && keyS < numLogicalKeys && keyL < numLogicalKeys && keyD < numLogicalKeys
      && Key0() < numLogicalKeys
      && ChordKeysDistinct()
    }

    /** The case labels of the two-key commands, and the three-key command keys, do not collide. */
    predicate ChordKeysDistinct()
    {
      && keyF11 != keyF12 && keyF11 != keyHyphen && keyF11 != keyF7
      && keyF12 != keyF7 && keyHyphen != keyF7 && keyF12 != keyHyphen
      && keyProgram != keyF11 && keyProgram != keyF12 && keyProgram != keyHyphen
      && keyProgram != keyF7 && keyProgram != keyLShift
      && !IsStoreCommand(keyProgram) && !IsDigit(keyProgram)
      && keyS != keyL && keyS != keyD && keyL != keyD
      && !IsDigit(keyS) && !IsDigit(keyL) && !IsDigit(keyD)
    }
  }
}
