/**
 * The indicator mask of updateLEDs (Keyboard.c): the keypad-layer light,
 * the flashing of the programming states, and otherwise the lock lights the
 * host last reported.
 */
module Leds {
  import opened Keyboard

  /** The lights LEDMASK_* name. */
  datatype Indicator = KeypadLight | ProgrammingSrcLight | ProgrammingDstLight | NumLockLight | CapsLockLight | ScrollLockLight

  // Bits of the host's LED output report (Appendix B.1 of the USB Device Class Definition for HID 1.11).
  const HID_KEYBOARD_LED_NUMLOCK: bv8 := 0x01
  const HID_KEYBOARD_LED_CAPSLOCK: bv8 := 0x02
  const HID_KEYBOARD_LED_SCROLLLOCK: bv8 := 0x04

  /** Bit `k` of the millisecond counter: `uptimems & (1 << k)`, for the two bits the lights use. */
  function CounterBit(uptimeMs: nat, k: nat): bool
    requires k == 7 || k == 8
  {
    if k == 7 then (uptimeMs / 128) % 2 == 1 else (uptimeMs / 256) % 2 == 1
  }

  /**
   * The mask updateLEDs hands to the LEDs: the keypad light while the keypad
   * layer is on; in ProgrammingSrc a light that follows bit 7 of the
   * millisecond counter, in ProgrammingDst one that follows bit 8; in every
   * other state the host's Num, Caps and Scroll Lock bits.
   */
  function LedMask(keypadLayer: bool, keypadMode: bool, state: State, uptimeMs: nat, hostLeds: bv8): set<Indicator>
  {
    var keypad := if keypadLayer && keypadMode then {KeypadLight} else {};
    var rest :=
      match state
      case ProgrammingSrc => if CounterBit(uptimeMs, 7) then {ProgrammingSrcLight} else {}
      case ProgrammingDst => if CounterBit(uptimeMs, 8) then {ProgrammingDstLight} else {}
      case _ =>
        (if hostLeds & HID_KEYBOARD_LED_NUMLOCK != 0 then {NumLockLight} else {})
        + (if hostLeds & HID_KEYBOARD_LED_CAPSLOCK != 0 then {CapsLockLight} else {})
        + (if hostLeds & HID_KEYBOARD_LED_SCROLLLOCK != 0 then {ScrollLockLight} else {});
    keypad + rest
  }

  /** A counter bit is set in the upper half of each period of twice its weight. */
  lemma CounterBitPhase(t: nat, k: nat)
    requires k == 7 || k == 8
    ensures k == 7 ==> (CounterBit(t, k) <==> t % 256 >= 128)
    ensures k == 8 ==> (CounterBit(t, k) <==> t % 512 >= 256)
  {
    if k == 7 {
      Bit7Phase(t);
    } else {
      Bit8Phase(t);
    }
  }

  /** Bit 7 of `t` is set in the second 128 of every 256. */
  lemma Bit7Phase(t: nat)
    ensures (t / 128) % 2 == 1 <==> t % 256 >= 128
  {
    var q, r := t / 256, t % 256;
    assert t == 256 * q + r;
    assert t / 128 == 2 * q + r / 128;
  }

  /** Bit 8 of `t` is set in the second 256 of every 512. */
  lemma Bit8Phase(t: nat)
    ensures (t / 256) % 2 == 1 <==> t % 512 >= 256
  {
    var q, r := t / 512, t % 512;
    assert t == 512 * q + r;
    assert t / 256 == 2 * q + r / 256;
  }

  /**
   * In the programming states the lights flash: the Src light is on for the
   * second 128 ms of every 256 ms, the Dst light for the second 256 ms of
   * every 512 ms, and the host's lock lights are not shown.
   */
  lemma ProgrammingFlashes(keypadLayer: bool, keypadMode: bool, state: State, t: nat, hostLeds: bv8)
    requires state == ProgrammingSrc || state == ProgrammingDst
    ensures var mask := LedMask(keypadLayer, keypadMode, state, t, hostLeds);
      && (ProgrammingSrcLight in mask <==> state == ProgrammingSrc && t % 256 >= 128)
      && (ProgrammingDstLight in mask <==> state == ProgrammingDst && t % 512 >= 256)
      && NumLockLight !in mask && CapsLockLight !in mask && ScrollLockLight !in mask
  {
    CounterBitPhase(t, 7);
    CounterBitPhase(t, 8);
  }

  /** Outside the programming states no programming light is on, and each lock light shows its host bit. */
  lemma HostLightsShown(keypadLayer: bool, keypadMode: bool, state: State, t: nat, hostLeds: bv8)
    requires state != ProgrammingSrc && state != ProgrammingDst
    ensures var mask := LedMask(keypadLayer, keypadMode, state, t, hostLeds);
      && ProgrammingSrcLight !in mask && ProgrammingDstLight !in mask
      && (NumLockLight in mask <==> hostLeds & 0x01 != 0)
      && (CapsLockLight in mask <==> hostLeds & 0x02 != 0)
      && (ScrollLockLight in mask <==> hostLeds & 0x04 != 0)
  {
  }

  /** The keypad light is on exactly while the keypad layer is active, in every state. */
  lemma KeypadLightIff(keypadLayer: bool, keypadMode: bool, state: State, t: nat, hostLeds: bv8)
    ensures KeypadLight in LedMask(keypadLayer, keypadMode, state, t, hostLeds) <==> keypadLayer && keypadMode
  {
  }
}
