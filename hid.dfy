/**
 * The HID boot-keyboard report the firmware produces: one modifier byte and
 * six key codes (Appendix B.1 of the USB Device Class Definition for HID
 * 1.11), built from the active keys and the live map, and the ASCII to key
 * code table the firmware types its messages with (Keyboard.c,
 * Fill_HIDReport_normal and char_to_keys).
 */
module Hid {
  import opened Config
  import opened KeyState

  /** Number of key code slots in a boot-keyboard report. */
  const KEY_CODE_SLOTS: nat := 6

  /** ErrorRollOver (section 10 of the USB HID Usage Tables). */
  const HID_KEYBOARD_SC_ERROR_ROLLOVER: byte := 0x01

  /** Modifier bit of the left shift key. */
  const HID_KEYBOARD_MODIFIER_LEFTSHIFT: bv8 := 0x02

  // Keyboard page usages (section 10 of the USB HID Usage Tables).
  const HID_KEYBOARD_SC_A: byte := 0x04
  const HID_KEYBOARD_SC_1_AND_EXCLAMATION: byte := 0x1E
  const HID_KEYBOARD_SC_2_AND_AT: byte := 0x1F
  const HID_KEYBOARD_SC_3_AND_HASHMARK: byte := 0x20
  const HID_KEYBOARD_SC_4_AND_DOLLAR: byte := 0x21
  const HID_KEYBOARD_SC_5_AND_PERCENTAGE: byte := 0x22
  const HID_KEYBOARD_SC_6_AND_CARET: byte := 0x23
  const HID_KEYBOARD_SC_7_AND_AND_AMPERSAND: byte := 0x24
  const HID_KEYBOARD_SC_8_AND_ASTERISK: byte := 0x25
  const HID_KEYBOARD_SC_9_AND_OPENING_PARENTHESIS: byte := 0x26
  const HID_KEYBOARD_SC_0_AND_CLOSING_PARENTHESIS: byte := 0x27
  const HID_KEYBOARD_SC_SPACE: byte := 0x2C
  const HID_KEYBOARD_SC_MINUS_AND_UNDERSCORE: byte := 0x2D
  const HID_KEYBOARD_SC_EQUAL_AND_PLUS: byte := 0x2E
  const HID_KEYBOARD_SC_OPENING_BRACKET_AND_OPENING_BRACE: byte := 0x2F
  const HID_KEYBOARD_SC_CLOSING_BRACKET_AND_CLOSING_BRACE: byte := 0x30
  const HID_KEYBOARD_SC_BACKSLASH_AND_PIPE: byte := 0x31
  const HID_KEYBOARD_SC_SEMICOLON_AND_COLON: byte := 0x33
  const HID_KEYBOARD_SC_APOSTROPHE_AND_QUOTE: byte := 0x34
  const HID_KEYBOARD_SC_GRAVE_ACCENT_AND_TILDE: byte := 0x35
  const HID_KEYBOARD_SC_COMMA_AND_LESS_THAN_SIGN: byte := 0x36
  const HID_KEYBOARD_SC_DOT_AND_GREATER_THAN_SIGN: byte := 0x37
  const HID_KEYBOARD_SC_SLASH_AND_QUESTION_MARK: byte := 0x38

  /** `USB_KeyboardReport_Data_t`; the reserved byte is always 0 and is left out. */
  datatype Report = Report(modifier: bv8, keyCodes: seq<byte>)

  /** The report as the USB stack hands it to the firmware: all zero. */
  const EmptyReport: Report := Report(0, [0, 0, 0, 0, 0, 0])

  /** A firmware action code, never sent to the host. */
  predicate IsSpecial(h: byte) { h >= SPECIAL_HID_KEYS_START }

  /** One of the eight modifier usages 0xE0 .. 0xE7. */
  predicate IsModifier(h: byte) { HID_KEYBOARD_SC_LEFT_CONTROL <= h < SPECIAL_HID_KEYS_START }

  /** An ordinary key usage, reported in a key code slot. */
  predicate IsPlain(h: byte) { h < HID_KEYBOARD_SC_LEFT_CONTROL }

  /** The modifier bit of a modifier usage: `1 << (h - 0xE0)`. */
  function ModifierBit(h: byte): bv8
    requires IsModifier(h)
  {
    (1 as bv8) << (h - HID_KEYBOARD_SC_LEFT_CONTROL)
  }

  // ---------------------------------------------------------------------------
  // Fill_HIDReport_normal
  // ---------------------------------------------------------------------------

  /** The live codes of the active slots, in slot order. */
  function ActiveCodes(s: seq<Slot>, live: seq<byte>): seq<byte>
    requires forall i :: 0 <= i < |s| && s[i].active ==> s[i].lKey < |live|
  {
    if s == [] then []
    else
      var n := |s| - 1;
      ActiveCodes(s[..n], live) + (if s[n].active then [live[s[n].lKey]] else [])
  }

  /** The ordinary key codes among `hs`, in order. */
  function Plain(hs: seq<byte>): (r: seq<byte>)
    ensures |r| <= |hs|
  {
    if hs == [] then []
    else
      var n := |hs| - 1;
      Plain(hs[..n]) + (if IsPlain(hs[n]) then [hs[n]] else [])
  }

  /** Some code follows the sixth ordinary key code: the report overflows. */
  predicate Rollover(hs: seq<byte>)
  {
    |hs| > 0 && |Plain(hs[..|hs| - 1])| >= KEY_CODE_SLOTS
  }

  /** The modifier bits of the modifier codes met while fewer than six ordinary codes were placed. */
  function ModBits(hs: seq<byte>): bv8
  {
    if hs == [] then 0
    else
      var n := |hs| - 1;
      ModBits(hs[..n]) | (if IsModifier(hs[n]) && |Plain(hs[..n])| < KEY_CODE_SLOTS then ModifierBit(hs[n]) else 0)
  }

  /** Key codes in the first slots, zeros in the rest. */
  function Padded(codes: seq<byte>): (r: seq<byte>)
    requires |codes| <= KEY_CODE_SLOTS
    ensures |r| == KEY_CODE_SLOTS
  {
    codes + seq(KEY_CODE_SLOTS - |codes|, _ => 0)
  }

  /**
   * The report for the live codes `hs` of the active keys: six ErrorRollOver
   * codes when the keys overflow the report, otherwise the ordinary codes in
   * order followed by zeros; modifier keys set their bits, firmware action
   * codes contribute nothing.
   */
  function NormalReport(hs: seq<byte>): Report
  {
    var plain := Plain(hs);
    if Rollover(hs) || |plain| > KEY_CODE_SLOTS then
      Report(ModBits(hs), seq(KEY_CODE_SLOTS, _ => HID_KEYBOARD_SC_ERROR_ROLLOVER))
    else
      Report(ModBits(hs), Padded(plain))
  }

  /** Fill_HIDReport_normal, on the report the USB stack zeroed. */
  method FillNormal(slots: array<Slot>, live: array<byte>) returns (r: Report)
    requires forall i :: 0 <= i < slots.Length && slots[i].active ==> slots[i].lKey < live.Length
    ensures r == NormalReport(ActiveCodes(slots[..], live[..]))
  {
    ghost var s := slots[..];
    ghost var lv := live[..];
    var used := 0;
    var rollover := false;
    var modifier: bv8 := 0;
    var keyCodes: seq<byte> := EmptyReport.keyCodes;
    assert Filled([], used, modifier, keyCodes);
    for i := 0 to slots.Length
      invariant Filled(ActiveCodes(s[..i], lv), used, modifier, keyCodes)
    {
      ghost var p := ActiveCodes(s[..i], lv);
      assert s[..i + 1][..i] == s[..i];
      if slots[i].active {
        var h := live[slots[i].lKey];
        assert ActiveCodes(s[..i + 1], lv) == p + [h];
        if used == KEY_CODE_SLOTS {
          rollover := true;
          ActiveCodesPrefix(s, lv, i + 1, |s|);
          assert s[..|s|] == s;
          FilledOverflow(p, h, ActiveCodes(s, lv), used, modifier, keyCodes);
          break;
        }
        FilledStep(p, h, used, modifier, keyCodes);
        if h >= SPECIAL_HID_KEYS_START {
          continue;
        } else if h >= HID_KEYBOARD_SC_LEFT_CONTROL {
          modifier := modifier | ModifierBit(h);
        } else {
          keyCodes := keyCodes[used := h];
          used := used + 1;
        }
      } else {
        assert ActiveCodes(s[..i + 1], lv) == p;
      }
    }
    if rollover {
      keyCodes := seq(KEY_CODE_SLOTS, _ => HID_KEYBOARD_SC_ERROR_ROLLOVER);
    } else {
      assert s[..|s|] == s;
      FilledDone(ActiveCodes(s, lv), used, modifier, keyCodes);
    }
    r := Report(modifier, keyCodes);
  }

  /** The state of Fill_HIDReport_normal after the codes `p`, before any overflow. */
  predicate Filled(p: seq<byte>, used: nat, modifier: bv8, keyCodes: seq<byte>)
  {
    used == |Plain(p)| <= KEY_CODE_SLOTS && keyCodes == Padded(Plain(p))
    && modifier == ModBits(p) && !Rollover(p)
  }

  /** Handling one more code while a key code slot is free. */
  lemma FilledStep(p: seq<byte>, h: byte, used: nat, modifier: bv8, keyCodes: seq<byte>)
    requires Filled(p, used, modifier, keyCodes) && used < KEY_CODE_SLOTS
    ensures IsSpecial(h) ==> Filled(p + [h], used, modifier, keyCodes)
    ensures IsModifier(h) ==> Filled(p + [h], used, modifier | ModifierBit(h), keyCodes)
    ensures IsPlain(h) ==> Filled(p + [h], used + 1, modifier, keyCodes[used := h])
  {
    AppendCode(p, h);
    if IsPlain(h) {
      FilledPlain(p, h, used, modifier, keyCodes);
    }
  }

  /** Placing an ordinary code in the next free key code slot. */
  lemma FilledPlain(p: seq<byte>, h: byte, used: nat, modifier: bv8, keyCodes: seq<byte>)
    requires Filled(p, used, modifier, keyCodes) && used < KEY_CODE_SLOTS && IsPlain(h)
    ensures Filled(p + [h], used + 1, modifier, keyCodes[used := h])
  {
    AppendCode(p, h);
    PadStep(Plain(p), h);
  }

  /** A code met with all six slots used overflows the whole report and keeps the modifier. */
  lemma FilledOverflow(p: seq<byte>, h: byte, hs: seq<byte>, used: nat, modifier: bv8, keyCodes: seq<byte>)
    requires Filled(p, used, modifier, keyCodes) && used == KEY_CODE_SLOTS && p + [h] <= hs
    ensures NormalReport(hs) == Report(modifier, seq(KEY_CODE_SLOTS, _ => HID_KEYBOARD_SC_ERROR_ROLLOVER))
  {
    var q := p + [h];
    assert q[..|q| - 1] == p;
    RolloverAfter(q, hs);
  }

  /** Without overflow, the filled report is the normal report. */
  lemma FilledDone(hs: seq<byte>, used: nat, modifier: bv8, keyCodes: seq<byte>)
    requires Filled(hs, used, modifier, keyCodes)
    ensures NormalReport(hs) == Report(modifier, keyCodes)
  {
  }

  /** One more code: how the ordinary codes, the modifier bits and the overflow condition grow. */
  lemma AppendCode(p: seq<byte>, h: byte)
    ensures Plain(p + [h]) == Plain(p) + (if IsPlain(h) then [h] else [])
    ensures ModBits(p + [h]) == ModBits(p) | (if IsModifier(h) && |Plain(p)| < KEY_CODE_SLOTS then ModifierBit(h) else 0)
    ensures ModBits(p + [h]) == if IsModifier(h) && |Plain(p)| < KEY_CODE_SLOTS then ModBits(p) | ModifierBit(h) else ModBits(p)
    ensures Rollover(p + [h]) <==> |Plain(p)| >= KEY_CODE_SLOTS
  {
    assert (p + [h])[..|p|] == p;
  }

  /** Placing an ordinary code in the next free key code slot. */
  lemma PadStep(plain: seq<byte>, h: byte)
    requires |plain| < KEY_CODE_SLOTS
    ensures Padded(plain)[|plain| := h] == Padded(plain + [h])
  {
  }

  /** The active codes of a shorter prefix of the table are a prefix of those of a longer one. */
  lemma {:induction false} ActiveCodesPrefix(s: seq<Slot>, live: seq<byte>, i: nat, j: nat)
    requires i <= j <= |s|
    requires forall k :: 0 <= k < |s| && s[k].active ==> s[k].lKey < |live|
    ensures ActiveCodes(s[..i], live) <= ActiveCodes(s[..j], live)
  {
    if i < j {
      ActiveCodesPrefix(s, live, i, j - 1);
      assert s[..j][..j - 1] == s[..j - 1];
    }
  }

  /** A prefix never holds more ordinary codes than the whole. */
  lemma {:induction false} PlainPrefix(p: seq<byte>, q: seq<byte>)
    requires p <= q
    ensures |Plain(p)| <= |Plain(q)|
  {
    if |p| < |q| {
      var n := |q| - 1;
      assert p <= q[..n];
      PlainPrefix(p, q[..n]);
    } else {
      assert p == q;
    }
  }

  /** Once six ordinary codes are placed, later codes change no modifier bit. */
  lemma {:induction false} ModBitsSaturated(p: seq<byte>, q: seq<byte>)
    requires p <= q && |Plain(p)| >= KEY_CODE_SLOTS
    ensures ModBits(q) == ModBits(p)
  {
    if |p| < |q| {
      var n := |q| - 1;
      assert p <= q[..n];
      ModBitsSaturated(p, q[..n]);
      PlainPrefix(p, q[..n]);
    } else {
      assert p == q;
    }
  }

  /** A code met after six ordinary codes were placed overflows every extension, with the same modifier. */
  lemma RolloverAfter(q: seq<byte>, hs: seq<byte>)
    requires q <= hs && |q| > 0 && |Plain(q[..|q| - 1])| >= KEY_CODE_SLOTS
    ensures Rollover(hs) && ModBits(hs) == ModBits(q[..|q| - 1])
  {
    assert q[..|q| - 1] <= hs[..|hs| - 1];
    PlainPrefix(q[..|q| - 1], hs[..|hs| - 1]);
    ModBitsSaturated(q[..|q| - 1], hs);
  }

  // ---------------------------------------------------------------------------
  // Properties of the normal report
  // ---------------------------------------------------------------------------

  /** A code is among the ordinary codes exactly when it occurs and is ordinary. */
  lemma {:induction false} PlainMembers(hs: seq<byte>, h: byte)
    ensures h in Plain(hs) <==> h in hs && IsPlain(h)
  {
    if hs != [] {
      var n := |hs| - 1;
      PlainMembers(hs[..n], h);
      assert hs == hs[..n] + [hs[n]];
    }
  }

  /** The report has six key codes and never carries a modifier usage or a firmware action code in them. */
  lemma ReportCodesOrdinary(hs: seq<byte>)
    ensures |NormalReport(hs).keyCodes| == KEY_CODE_SLOTS
    ensures forall i :: 0 <= i < KEY_CODE_SLOTS ==> IsPlain(NormalReport(hs).keyCodes[i])
  {
    var plain := Plain(hs);
    forall i | 0 <= i < |plain| ensures IsPlain(plain[i]) {
      PlainMembers(hs, plain[i]);
    }
  }

  /**
   * Without overflow, a nonzero code is in the report exactly when some
   * active key's live code is that ordinary code, and the ordinary codes
   * fill the report from the first slot on, in slot order.
   */
  lemma ReportListsPressedKeys(hs: seq<byte>, h: byte)
    requires !Rollover(hs)
    ensures |Plain(hs)| <= KEY_CODE_SLOTS
    ensures NormalReport(hs).keyCodes[..|Plain(hs)|] == Plain(hs)
    ensures h != 0 ==> (h in NormalReport(hs).keyCodes <==> h in hs && IsPlain(h))
  {
    PlainFits(hs);
    PaddedMembers(Plain(hs), h);
    PlainMembers(hs, h);
  }

  /** Without overflow there are at most six ordinary codes. */
  lemma PlainFits(hs: seq<byte>)
    requires !Rollover(hs)
    ensures |Plain(hs)| <= KEY_CODE_SLOTS
  {
    if hs != [] {
      AppendCode(hs[..|hs| - 1], hs[|hs| - 1]);
      assert hs == hs[..|hs| - 1] + [hs[|hs| - 1]];
    }
  }

  /** The padded codes start with the codes, and a nonzero code is among them exactly when it is one of the codes. */
  lemma PaddedMembers(codes: seq<byte>, h: byte)
    requires |codes| <= KEY_CODE_SLOTS
    ensures Padded(codes)[..|codes|] == codes
    ensures h != 0 ==> (h in Padded(codes) <==> h in codes)
  {
    var zeros := seq(KEY_CODE_SLOTS - |codes|, _ => 0);
    assert Padded(codes) == codes + zeros;
    assert h != 0 ==> h !in zeros;
  }

  /**
   * Once six ordinary codes are placed, any further active key, even a
   * modifier or a firmware action key, turns all six slots into ErrorRollOver.
   */
  lemma RolloverOnAnyFurtherKey(p: seq<byte>, h: byte, rest: seq<byte>)
    requires |Plain(p)| >= KEY_CODE_SLOTS
    ensures NormalReport(p + [h] + rest).keyCodes == seq(KEY_CODE_SLOTS, _ => HID_KEYBOARD_SC_ERROR_ROLLOVER)
  {
    var q := p + [h];
    assert q[..|q| - 1] == p;
    RolloverAfter(q, q + rest);
  }

  /** Six or fewer active keys never overflow the report. */
  lemma FewKeysNoRollover(hs: seq<byte>)
    requires |hs| <= KEY_CODE_SLOTS
    ensures !Rollover(hs)
  {
  }

  /** Two modifier usages share a bit exactly when they are the same usage. */
  lemma ModifierBitsDistinct(a: byte, b: byte)
    requires IsModifier(a) && IsModifier(b)
    ensures ModifierBit(a) & ModifierBit(b) != 0 <==> a == b
    ensures ModifierBit(a) != 0
  {
  }

  /** Modifier usage `m` occurs at a position where fewer than six ordinary codes precede it. */
  predicate ModifierMet(hs: seq<byte>, m: byte)
  {
    exists i :: 0 <= i < |hs| && hs[i] == m && |Plain(hs[..i])| < KEY_CODE_SLOTS
  }

  /** One more code meets `m` exactly when it is `m` and fewer than six ordinary codes precede it. */
  lemma ModifierMetStep(p: seq<byte>, h: byte, m: byte)
    ensures ModifierMet(p + [h], m) <==> ModifierMet(p, m) || (h == m && |Plain(p)| < KEY_CODE_SLOTS)
  {
    var q := p + [h];
    if ModifierMet(q, m) {
      var i :| 0 <= i < |q| && q[i] == m && |Plain(q[..i])| < KEY_CODE_SLOTS;
      if i < |p| {
        assert p[..i] == q[..i];
      } else {
        assert q[..i] == p;
      }
    }
    if ModifierMet(p, m) {
      var i :| 0 <= i < |p| && p[i] == m && |Plain(p[..i])| < KEY_CODE_SLOTS;
      assert p[..i] == q[..i];
    }
    if h == m && |Plain(p)| < KEY_CODE_SLOTS {
      assert q[..|p|] == p;
    }
  }

  /** A bit of a union of bits is set exactly when it is set in one of them. */
  lemma OrBit(x: bv8, y: bv8, b: bv8)
    ensures (x | y) & b != 0 <==> x & b != 0 || y & b != 0
  {
  }

  /**
   * The modifier byte: the bit of modifier usage `m` is set exactly when
   * some active key has live code `m` and was met while fewer than six
   * ordinary codes had been placed.
   */
  lemma {:induction false} ModifierBitIff(hs: seq<byte>, m: byte)
    requires IsModifier(m)
    ensures NormalReport(hs).modifier & ModifierBit(m) != 0 <==> ModifierMet(hs, m)
  {
    assert NormalReport(hs).modifier == ModBits(hs);
    if hs != [] {
      var n := |hs| - 1;
      var p := hs[..n];
      var h := hs[n];
      assert hs == p + [h];
      ModifierBitIff(p, m);
      assert NormalReport(p).modifier == ModBits(p);
      AppendCode(p, h);
      ModifierMetStep(p, h, m);
      var y: bv8 := if IsModifier(h) && |Plain(p)| < KEY_CODE_SLOTS then ModifierBit(h) else 0;
      OrBit(ModBits(p), y, ModifierBit(m));
      if IsModifier(h) { ModifierBitsDistinct(h, m); }
    }
  }

  /** The active codes are the live codes of the active keys `KeyState_GetKeys` lists. */
  lemma {:induction false} ActiveCodesOfActiveKeys(s: seq<Slot>, live: seq<byte>)
    requires forall i :: 0 <= i < |s| && s[i].active ==> s[i].lKey < |live|
    ensures |ActiveCodes(s, live)| == |ActiveKeys(s)|
    ensures forall i :: 0 <= i < |ActiveKeys(s)| ==>
      ActiveKeys(s)[i] < |live| && ActiveCodes(s, live)[i] == live[ActiveKeys(s)[i]]
  {
    if s != [] {
      ActiveCodesOfActiveKeys(s[..|s| - 1], live);
    }
  }

  // ---------------------------------------------------------------------------
  // char_to_keys
  // ---------------------------------------------------------------------------

  datatype Option<T> = None | Some(value: T)

  /** The key usage and the modifier byte that type one character. */
  datatype Stroke = Stroke(key: byte, modifier: bv8)

  /** The report that types one stroke: its modifier and its key in the first slot. */
  function StrokeReport(s: Stroke): (r: Report)
    ensures r.modifier == s.modifier && |r.keyCodes| == KEY_CODE_SLOTS
    ensures r.keyCodes[0] == s.key && forall i :: 1 <= i < KEY_CODE_SLOTS ==> r.keyCodes[i] == 0
  {
    Report(s.modifier, [s.key, 0, 0, 0, 0, 0])
  }

  /** `c | 0x20` on an 8-bit value: bit 5 set. */
  function WithBit5(c: nat): nat
    requires c < 256
  {
    if (c / 32) % 2 == 1 then c else c + 32
  }

  /**
   * char_to_keys as written: a letter (`c | 0x20` in 'a'..'z') gives its key,
   * shifted when bit 5 of `c` is clear; everything else goes through the
   * symbol table, whose default is a shifted slash (a question mark).
   */
  function CharToKeysAsWritten(c: Char8): Stroke
  {
    var l := WithBit5(c as int);
    if 'a' as int <= l <= 'z' as int then
      Stroke(HID_KEYBOARD_SC_A + (l - 'a' as int), if (c as int / 32) % 2 == 0 then HID_KEYBOARD_MODIFIER_LEFTSHIFT else 0)
    else
      SymbolStroke(c)
  }

  /** The `switch` of char_to_keys for the characters that are not letters, as written. */
  function SymbolStroke(c: char): Stroke
  {
    var shift := HID_KEYBOARD_MODIFIER_LEFTSHIFT;
    match c
    case ' ' => Stroke(HID_KEYBOARD_SC_SPACE, 0)
    case '!' => Stroke(HID_KEYBOARD_SC_1_AND_EXCLAMATION, shift)
    case '"' => Stroke(HID_KEYBOARD_SC_APOSTROPHE_AND_QUOTE, shift)
    case '#' => Stroke(HID_KEYBOARD_SC_3_AND_HASHMARK, shift)
    case '$' => Stroke(HID_KEYBOARD_SC_4_AND_DOLLAR, shift)
    case '%' => Stroke(HID_KEYBOARD_SC_5_AND_PERCENTAGE, shift)
    case '&' => Stroke(HID_KEYBOARD_SC_7_AND_AND_AMPERSAND, shift)
    case '\'' => Stroke(HID_KEYBOARD_SC_APOSTROPHE_AND_QUOTE, 0)
    case '(' => Stroke(HID_KEYBOARD_SC_9_AND_OPENING_PARENTHESIS, shift)
    case ')' => Stroke(HID_KEYBOARD_SC_0_AND_CLOSING_PARENTHESIS, shift)
    case '*' => Stroke(HID_KEYBOARD_SC_8_AND_ASTERISK, shift)
    case '+' => Stroke(HID_KEYBOARD_SC_EQUAL_AND_PLUS, shift)
    case ',' => Stroke(HID_KEYBOARD_SC_COMMA_AND_LESS_THAN_SIGN, 0)
    case '-' => Stroke(HID_KEYBOARD_SC_MINUS_AND_UNDERSCORE, 0)
    case '.' => Stroke(HID_KEYBOARD_SC_DOT_AND_GREATER_THAN_SIGN, 0)
    case '/' => Stroke(HID_KEYBOARD_SC_SLASH_AND_QUESTION_MARK, 0)
    case '0' => Stroke(HID_KEYBOARD_SC_0_AND_CLOSING_PARENTHESIS, 0)
    case '1' => Stroke(HID_KEYBOARD_SC_1_AND_EXCLAMATION, 0)
    case '2' => Stroke(HID_KEYBOARD_SC_2_AND_AT, 0)
    case '3' => Stroke(HID_KEYBOARD_SC_3_AND_HASHMARK, 0)
    case '4' => Stroke(HID_KEYBOARD_SC_4_AND_DOLLAR, 0)
    case '5' => Stroke(HID_KEYBOARD_SC_5_AND_PERCENTAGE, 0)
    case '6' => Stroke(HID_KEYBOARD_SC_6_AND_CARET, 0)
    case '7' => Stroke(HID_KEYBOARD_SC_7_AND_AND_AMPERSAND, 0)
    case '8' => Stroke(HID_KEYBOARD_SC_8_AND_ASTERISK, 0)
    case '9' => Stroke(HID_KEYBOARD_SC_9_AND_OPENING_PARENTHESIS, 0)
    case ':' => Stroke(HID_KEYBOARD_SC_SEMICOLON_AND_COLON, shift)
    case ';' => Stroke(HID_KEYBOARD_SC_SEMICOLON_AND_COLON, 0)
    case '<' => Stroke(HID_KEYBOARD_SC_COMMA_AND_LESS_THAN_SIGN, shift)
    case '=' => Stroke(HID_KEYBOARD_SC_EQUAL_AND_PLUS, 0)
    case '>' => Stroke(HID_KEYBOARD_SC_DOT_AND_GREATER_THAN_SIGN, shift)
    case '?' => Stroke(HID_KEYBOARD_SC_SLASH_AND_QUESTION_MARK, shift)
    case '@' => Stroke(HID_KEYBOARD_SC_2_AND_AT, shift)
    case '[' => Stroke(HID_KEYBOARD_SC_OPENING_BRACKET_AND_OPENING_BRACE, 0)
    case '\\' => Stroke(HID_KEYBOARD_SC_BACKSLASH_AND_PIPE, 0)
    case ']' => Stroke(HID_KEYBOARD_SC_CLOSING_BRACKET_AND_CLOSING_BRACE, 0)
    case '^' => Stroke(HID_KEYBOARD_SC_6_AND_CARET, shift)
    case '_' => Stroke(HID_KEYBOARD_SC_MINUS_AND_UNDERSCORE, shift)
    case '`' => Stroke(HID_KEYBOARD_SC_GRAVE_ACCENT_AND_TILDE, shift)
    case '{' => Stroke(HID_KEYBOARD_SC_OPENING_BRACKET_AND_OPENING_BRACE, shift)
    case '|' => Stroke(HID_KEYBOARD_SC_BACKSLASH_AND_PIPE, shift)
    case '}' => Stroke(HID_KEYBOARD_SC_CLOSING_BRACKET_AND_CLOSING_BRACE, shift)
    case '~' => Stroke(HID_KEYBOARD_SC_GRAVE_ACCENT_AND_TILDE, 0)
    case _ => Stroke(HID_KEYBOARD_SC_SLASH_AND_QUESTION_MARK, shift)
  }

  /** char_to_keys with the grave accent typed unshifted and the tilde shifted. */
  function CharToKeys(c: Char8): Stroke
  {
    if c == '`' then Stroke(HID_KEYBOARD_SC_GRAVE_ACCENT_AND_TILDE, 0)
    else if c == '~' then Stroke(HID_KEYBOARD_SC_GRAVE_ACCENT_AND_TILDE, HID_KEYBOARD_MODIFIER_LEFTSHIFT)
    else CharToKeysAsWritten(c)
  }

  /**
   * The legends of a key of the US keyboard layout: the character it types
   * unshifted and the one it types with shift.
   */
  function KeyLegends(key: byte): Option<(char, char)>
  {
    if HID_KEYBOARD_SC_A <= key < HID_KEYBOARD_SC_A + 26 then
      Some((('a' as int + (key - HID_KEYBOARD_SC_A)) as char, ('A' as int + (key - HID_KEYBOARD_SC_A)) as char))
    else if key == HID_KEYBOARD_SC_1_AND_EXCLAMATION then Some(('1', '!'))
    else if key == HID_KEYBOARD_SC_2_AND_AT then Some(('2', '@'))
    else if key == HID_KEYBOARD_SC_3_AND_HASHMARK then Some(('3', '#'))
    else if key == HID_KEYBOARD_SC_4_AND_DOLLAR then Some(('4', '$'))
    else if key == HID_KEYBOARD_SC_5_AND_PERCENTAGE then Some(('5', '%'))
    else if key == HID_KEYBOARD_SC_6_AND_CARET then Some(('6', '^'))
    else if key == HID_KEYBOARD_SC_7_AND_AND_AMPERSAND then Some(('7', '&'))
    else if key == HID_KEYBOARD_SC_8_AND_ASTERISK then Some(('8', '*'))
    else if key == HID_KEYBOARD_SC_9_AND_OPENING_PARENTHESIS then Some(('9', '('))
    else if key == HID_KEYBOARD_SC_0_AND_CLOSING_PARENTHESIS then Some(('0', ')'))
    else if key == HID_KEYBOARD_SC_SPACE then Some((' ', ' '))
    else if key == HID_KEYBOARD_SC_MINUS_AND_UNDERSCORE then Some(('-', '_'))
    else if key == HID_KEYBOARD_SC_EQUAL_AND_PLUS then Some(('=', '+'))
    else if key == HID_KEYBOARD_SC_OPENING_BRACKET_AND_OPENING_BRACE then Some(('[', '{'))
    else if key == HID_KEYBOARD_SC_CLOSING_BRACKET_AND_CLOSING_BRACE then Some((']', '}'))
    else if key == HID_KEYBOARD_SC_BACKSLASH_AND_PIPE then Some(('\\', '|'))
    else if key == HID_KEYBOARD_SC_SEMICOLON_AND_COLON then Some((';', ':'))
    else if key == HID_KEYBOARD_SC_APOSTROPHE_AND_QUOTE then Some(('\'', '"'))
    else if key == HID_KEYBOARD_SC_GRAVE_ACCENT_AND_TILDE then Some(('`', '~'))
    else if key == HID_KEYBOARD_SC_COMMA_AND_LESS_THAN_SIGN then Some((',', '<'))
    else if key == HID_KEYBOARD_SC_DOT_AND_GREATER_THAN_SIGN then Some(('.', '>'))
    else if key == HID_KEYBOARD_SC_SLASH_AND_QUESTION_MARK then Some(('/', '?'))
    else None
  }

  /** The character a US-layout host reads from a stroke with no modifier or with left shift only. */
  function Typed(s: Stroke): Option<char>
  {
    match KeyLegends(s.key)
    case None => None
    case Some(legends) =>
      if s.modifier == 0 then Some(legends.0)
      else if s.modifier == HID_KEYBOARD_MODIFIER_LEFTSHIFT then Some(legends.1)
      else None
  }

  /** A character the firmware can type: printable ASCII, space to tilde. */
  predicate Printable(c: char)
  {
    ' ' <= c <= '~'
  }

  /** Letters: the letter's key, shifted exactly for capitals. */
  lemma LetterStrokes(c: Char8)
    ensures 'a' <= c <= 'z' ==> CharToKeys(c) == Stroke(HID_KEYBOARD_SC_A + (c as int - 'a' as int), 0)
    ensures 'A' <= c <= 'Z' ==> CharToKeys(c) == Stroke(HID_KEYBOARD_SC_A + (c as int - 'A' as int), HID_KEYBOARD_MODIFIER_LEFTSHIFT)
    ensures !('a' <= c <= 'z' || 'A' <= c <= 'Z' || c == '`' || c == '~') ==> CharToKeys(c) == SymbolStroke(c)
  {
    var n := c as int;
    if 'a' <= c <= 'z' {
      assert (n / 32) % 2 == 1;
    } else if 'A' <= c <= 'Z' {
      assert (n / 32) % 2 == 0;
    } else {
      assert !('a' as int <= WithBit5(n) <= 'z' as int) by {
        if n < 64 { assert n / 32 < 2; }
        else if n < 128 {
          assert n / 32 == 2 || n / 32 == 3;
        } else {
          assert n / 32 >= 4;
        }
      }
    }
  }

  /** Every printable character is typed as itself on a US-layout host. */
  lemma TypesItself(c: Char8)
    requires Printable(c)
    ensures Typed(CharToKeys(c)) == Some(c as char)
  {
    LetterStrokes(c);
    if 'a' <= c <= 'z' || 'A' <= c <= 'Z' {
      LetterTyped(c);
    } else if c == '`' || c == '~' {
    } else if '0' <= c <= '9' {
      DigitTyped(c);
    } else {
      SymbolTyped(c);
    }
  }

  /** A letter's stroke is read back as the letter. */
  lemma LetterTyped(c: Char8)
    requires 'a' <= c <= 'z' || 'A' <= c <= 'Z'
    ensures 'a' <= c <= 'z' ==> Typed(Stroke(HID_KEYBOARD_SC_A + (c as int - 'a' as int), 0)) == Some(c as char)
    ensures 'A' <= c <= 'Z' ==> Typed(Stroke(HID_KEYBOARD_SC_A + (c as int - 'A' as int), HID_KEYBOARD_MODIFIER_LEFTSHIFT)) == Some(c as char)
  {
  }

  /** A digit's stroke is read back as the digit. */
  lemma DigitTyped(c: Char8)
    requires '0' <= c <= '9'
    ensures Typed(SymbolStroke(c)) == Some(c as char)
  {
  }

  /** The stroke of printable punctuation other than the grave accent and the tilde is read back as itself. */
  lemma SymbolTyped(c: Char8)
    requires Printable(c) && !('a' <= c <= 'z' || 'A' <= c <= 'Z' || '0' <= c <= '9' || c == '`' || c == '~')
    ensures Typed(SymbolStroke(c)) == Some(c as char)
  {
  }

  /** Any other character is typed as a shifted slash, a question mark. */
  lemma UnprintableAsQuestionMark(c: Char8)
    requires !Printable(c)
    ensures CharToKeys(c) == Stroke(HID_KEYBOARD_SC_SLASH_AND_QUESTION_MARK, HID_KEYBOARD_MODIFIER_LEFTSHIFT)
    ensures Typed(CharToKeys(c)) == Some('?')
  {
    LetterStrokes(c);
  }

  /** Distinct printable characters are typed with distinct strokes. */
  lemma StrokesDistinct(c: Char8, d: Char8)
    requires Printable(c) && Printable(d) && c != d
    ensures CharToKeys(c) != CharToKeys(d)
  {
    TypesItself(c);
    TypesItself(d);
  }

  /** As written, the grave accent is typed as a tilde and the tilde as a grave accent. */
  lemma AsWrittenGraveTildeSwapped()
    ensures Typed(CharToKeysAsWritten('`')) == Some('~')
    ensures Typed(CharToKeysAsWritten('~')) == Some('`')
    ensures forall c: Char8 :: c != '`' && c != '~' ==> CharToKeysAsWritten(c) == CharToKeys(c)
  {
    assert WithBit5('`' as int) == '`' as int;
    assert WithBit5('~' as int) == '~' as int;
  }

  /**
   * What the firmware's table types for a printable character: the character
   * itself, except that the grave accent and the tilde come out swapped.
   */
  lemma AsWrittenTyped(c: Char8)
    requires Printable(c)
    ensures Typed(CharToKeysAsWritten(c)) == Some(if c == '`' then '~' else if c == '~' then '`' else c as char)
  {
    AsWrittenGraveTildeSwapped();
    if c != '`' && c != '~' {
      TypesItself(c);
    }
  }
}
