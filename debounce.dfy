/**
 * What the 8-bit debounce shift register means when DEBOUNCE_MASK is the
 * usual run of `w` low bits: the history holds the last `w` raw readings of a
 * key, a key becomes pressed exactly when its last `w` readings were all
 * asserted, and its slot is freed exactly when they were all released.
 */
module Debounce {
  import opened Config
  import opened KeyState

  /** The mask of the `w` lowest bits. */
  function LowMask(w: nat): bv8
    requires 1 <= w <= 8
  {
    if w == 8 then 0xFF else ((1 as bv8) << w) - 1
  }

  /** A reading as a bit. */
  function Bit(reading: bool): bv8
  {
    if reading then 1 else 0
  }

  /** All readings shifted in, newest in bit 0 (older ones fall off the top). */
  function History(rs: seq<bool>): bv8
  {
    if rs == [] then 0 else (History(rs[..|rs| - 1]) << 1) | Bit(rs[|rs| - 1])
  }

  /** The last `w` readings exist and were all asserted. */
  predicate LastPressed(rs: seq<bool>, w: nat)
  {
    |rs| >= w && forall j :: |rs| - w <= j < |rs| ==> rs[j]
  }

  /** None of the last `w` readings (as many as there are) was asserted. */
  predicate LastReleased(rs: seq<bool>, w: nat)
  {
    forall j :: 0 <= j < |rs| && |rs| - w <= j ==> !rs[j]
  }

  /** A low mask forgets the bit shifted out of the window. */
  lemma ShiftForgets(w: nat, h: bv8, b: bv8)
    requires 1 <= w <= 8
    ensures LowMask(w) & (((LowMask(w) & h) << 1) | b) == LowMask(w) & ((h << 1) | b)
  {
    if w == 1 {} else if w == 2 {} else if w == 3 {} else if w == 4 {}
    else if w == 5 {} else if w == 6 {} else if w == 7 {} else {}
  }

  /** The window of `w` bits is full exactly when the new bit is set and the older `w-1` were full. */
  lemma FullStep(w: nat, h: bv8, b: bv8)
    requires 1 <= w <= 8 && (b == 0 || b == 1)
    ensures w == 1 ==> (LowMask(w) & ((h << 1) | b) == LowMask(w) <==> b == 1)
    ensures w > 1 ==>
      (LowMask(w) & ((h << 1) | b) == LowMask(w) <==> b == 1 && LowMask(w - 1) & h == LowMask(w - 1))
  {
    if w == 1 {} else if w == 2 {} else if w == 3 {} else if w == 4 {}
    else if w == 5 {} else if w == 6 {} else if w == 7 {} else {}
  }

  /** The window of `w` bits is empty exactly when the new bit is clear and the older `w-1` were empty. */
  lemma EmptyStep(w: nat, h: bv8, b: bv8)
    requires 1 <= w <= 8 && (b == 0 || b == 1)
    ensures w == 1 ==> (LowMask(w) & ((h << 1) | b) == 0 <==> b == 0)
    ensures w > 1 ==> (LowMask(w) & ((h << 1) | b) == 0 <==> b == 0 && LowMask(w - 1) & h == 0)
  {
    if w == 1 {} else if w == 2 {} else if w == 3 {} else if w == 4 {}
    else if w == 5 {} else if w == 6 {} else if w == 7 {} else {}
  }

  /** The masked history equals the mask exactly when the last `w` readings were all asserted. */
  lemma {:induction false} FullIffLastPressed(rs: seq<bool>, w: nat)
    requires 1 <= w <= 8
    ensures LowMask(w) & History(rs) == LowMask(w) <==> LastPressed(rs, w)
  {
    if rs == [] {
      assert LowMask(w) != 0 by { FullStep(w, 0, 0); }
    } else {
      var n := |rs| - 1;
      var p := rs[..n];
      FullStep(w, History(p), Bit(rs[n]));
      if w > 1 {
        FullIffLastPressed(p, w - 1);
        assert LastPressed(rs, w) <==> rs[n] && LastPressed(p, w - 1) by {
          if rs[n] && LastPressed(p, w - 1) {
            forall j | |rs| - w <= j < |rs| ensures rs[j] {
              if j < n { assert p[j] == rs[j]; }
            }
          }
          if LastPressed(rs, w) {
            forall j | |p| - (w - 1) <= j < |p| ensures p[j] {
              assert p[j] == rs[j];
            }
          }
        }
      }
    }
  }

  /** The masked history is zero exactly when none of the last `w` readings was asserted. */
  lemma {:induction false} EmptyIffLastReleased(rs: seq<bool>, w: nat)
    requires 1 <= w <= 8
    ensures LowMask(w) & History(rs) == 0 <==> LastReleased(rs, w)
  {
    if rs != [] {
      var n := |rs| - 1;
      var p := rs[..n];
      EmptyStep(w, History(p), Bit(rs[n]));
      if w > 1 {
        EmptyIffLastReleased(p, w - 1);
        assert LastReleased(rs, w) <==> !rs[n] && LastReleased(p, w - 1) by {
          if !rs[n] && LastReleased(p, w - 1) {
            forall j | 0 <= j < |rs| && |rs| - w <= j ensures !rs[j] {
              if j < n { assert p[j] == rs[j]; }
            }
          }
          if LastReleased(rs, w) {
            forall j | 0 <= j < |p| && |p| - (w - 1) <= j ensures !p[j] {
              assert p[j] == rs[j];
            }
          }
        }
      }
    }
  }

  /** The slot as the readings after its allocation leave it, one Track per reading. */
  function TrackAll(x: Slot, mask: bv8, rs: seq<bool>): Slot
  {
    if rs == [] then x else Track(TrackAll(x, mask, rs[..|rs| - 1]), mask, rs[|rs| - 1])
  }

  /** Some reading after the allocation completed a window of `w` asserted readings. */
  predicate EverFull(rs: seq<bool>, w: nat)
  {
    exists i :: 1 <= i <= |rs| && LastPressed([true] + rs[..i], w)
  }

  /** A new reading completes a full window, or an earlier one already did. */
  lemma EverFullStep(p: seq<bool>, r: bool, w: nat)
    ensures EverFull(p + [r], w) <==> EverFull(p, w) || LastPressed([true] + p + [r], w)
  {
    var rs := p + [r];
    if EverFull(p, w) {
      var i :| 1 <= i <= |p| && LastPressed([true] + p[..i], w);
      assert rs[..i] == p[..i];
    }
    if EverFull(rs, w) {
      var i :| 1 <= i <= |rs| && LastPressed([true] + rs[..i], w);
      if i <= |p| {
        assert rs[..i] == p[..i];
      } else {
        assert [true] + rs[..i] == [true] + p + [r];
      }
    }
    if LastPressed([true] + p + [r], w) {
      assert rs[..|rs|] == rs;
      assert [true] + p + [r] == [true] + rs[..|rs|];
      assert 1 <= |rs| && LastPressed([true] + rs[..|rs|], w);
    }
  }

  /**
   * The slot DebounceRun describes after the readings `rs`: tracking `k`,
   * pressed once some reading completed a full window, holding the last `w`
   * readings counting the allocating one.
   */
  function RunSlot(k: byte, w: nat, rs: seq<bool>): Slot
    requires 1 <= w <= 8
  {
    Slot(k, EverFull(rs, w), LowMask(w) & History([true] + rs))
  }

  /** One more reading, while the window is not left all released, keeps the run's description. */
  lemma DebounceStep(w: nat, k: byte, p: seq<bool>, r: bool)
    requires 1 <= w <= 8 && k != NO_KEY
    requires !LastReleased([true] + (p + [r]), w)
    ensures Track(RunSlot(k, w, p), LowMask(w), r) == RunSlot(k, w, p + [r])
  {
    assert [true] + (p + [r]) == [true] + p + [r];
    StepHistory(w, p, r);
    StepNonzero(w, p, r);
    StepFull(w, p, r);
    TrackLive(RunSlot(k, w, p), LowMask(w), r);
  }

  /** Shifting one reading into the masked history gives the masked history of the longer run. */
  lemma StepHistory(w: nat, p: seq<bool>, r: bool)
    requires 1 <= w <= 8
    ensures Shift(LowMask(w), LowMask(w) & History([true] + p), r) == LowMask(w) & History([true] + p + [r])
  {
    var full := [true] + p + [r];
    assert full[..|full| - 1] == [true] + p;
    ShiftForgets(w, History([true] + p), Bit(r));
  }

  /** While the window is not all released, the masked history is nonzero. */
  lemma StepNonzero(w: nat, p: seq<bool>, r: bool)
    requires 1 <= w <= 8 && !LastReleased([true] + p + [r], w)
    ensures LowMask(w) & History([true] + p + [r]) != 0
  {
    EmptyIffLastReleased([true] + p + [r], w);
  }

  /** A full window has been reached by the longer run iff it was before or the history is full now. */
  lemma StepFull(w: nat, p: seq<bool>, r: bool)
    requires 1 <= w <= 8
    ensures EverFull(p + [r], w) <==> EverFull(p, w) || LowMask(w) & History([true] + p + [r]) == LowMask(w)
  {
    FullIffLastPressed([true] + p + [r], w);
    EverFullStep(p, r, w);
  }

  /** A reading that leaves the history nonzero keeps the key, and presses it once the history is full. */
  lemma TrackLive(x: Slot, mask: bv8, r: bool)
    requires Shift(mask, x.debounce, r) != 0
    ensures Track(x, mask, r) == Slot(x.lKey, x.active || Shift(mask, x.debounce, r) == mask, Shift(mask, x.debounce, r))
  {
  }

  /** No reading after the allocation left the window all released. */
  predicate NeverReleased(rs: seq<bool>, w: nat)
  {
    forall i :: 1 <= i <= |rs| ==> !LastReleased([true] + rs[..i], w)
  }

  /**
   * The debounce behaviour of a slot allocated for key `k` (history 1, not
   * pressed) and then fed the readings `rs`, while none of those readings
   * leaves the window all released: the slot still tracks `k`, its history is
   * the last `w` readings counting the allocating one, and the key is pressed
   * exactly when, at some reading after the allocation, the last `w` readings
   * were all asserted.
   */
  lemma {:induction false} DebounceRun(w: nat, k: byte, rs: seq<bool>)
    requires 1 <= w <= 8 && k != NO_KEY && NeverReleased(rs, w)
    ensures TrackAll(Slot(k, false, 1), LowMask(w), rs)
         == Slot(k, EverFull(rs, w), LowMask(w) & History([true] + rs))
  {
    if rs == [] {
      FirstReading(w);
    } else {
      PrefixNeverReleased(w, rs);
      DebounceRun(w, k, rs[..|rs| - 1]);
      RunStep(w, k, rs);
    }
  }

  /** One more reading extends the run of DebounceRun. */
  lemma RunStep(w: nat, k: byte, rs: seq<bool>)
    requires 1 <= w <= 8 && k != NO_KEY && rs != []
    requires !LastReleased([true] + rs, w)
    requires TrackAll(Slot(k, false, 1), LowMask(w), rs[..|rs| - 1]) == RunSlot(k, w, rs[..|rs| - 1])
    ensures TrackAll(Slot(k, false, 1), LowMask(w), rs) == RunSlot(k, w, rs)
  {
    var p, r := rs[..|rs| - 1], rs[|rs| - 1];
    TrackAllLast(Slot(k, false, 1), LowMask(w), rs);
    assert rs == p + [r];
    DebounceStep(w, k, p, r);
  }

  /** The last reading of a run is tracked last. */
  lemma TrackAllLast(x: Slot, mask: bv8, rs: seq<bool>)
    requires rs != []
    ensures TrackAll(x, mask, rs) == Track(TrackAll(x, mask, rs[..|rs| - 1]), mask, rs[|rs| - 1])
  {
  }

  /** The allocating reading alone leaves history 1. */
  lemma FirstReading(w: nat)
    requires 1 <= w <= 8
    ensures LowMask(w) & History([true]) == 1
  {
    assert History([true]) == 1 by { assert [true][..0] == []; }
    if w == 1 {} else if w == 2 {} else if w == 3 {} else if w == 4 {}
    else if w == 5 {} else if w == 6 {} else if w == 7 {} else {}
  }

  /** The side condition of DebounceRun carries over to the run without its last reading, and holds at that reading. */
  lemma PrefixNeverReleased(w: nat, rs: seq<bool>)
    requires rs != [] && NeverReleased(rs, w)
    ensures NeverReleased(rs[..|rs| - 1], w) && !LastReleased([true] + rs, w)
  {
    var p := rs[..|rs| - 1];
    forall i | 1 <= i <= |p| ensures !LastReleased([true] + p[..i], w) {
      assert p[..i] == rs[..i];
    }
    assert rs[..|rs|] == rs;
  }

  /**
   * Holding a key: a slot allocated by an asserted reading and then fed `m`
   * more asserted readings is pressed exactly when `m >= 1` and the `m + 1`
   * asserted readings fill the window of `w` (fewer never press it).
   */
  lemma HeldKey(w: nat, k: byte, m: nat)
    requires 1 <= w <= 8 && k != NO_KEY
    ensures TrackAll(Slot(k, false, 1), LowMask(w), seq(m, _ => true)).active <==> m >= 1 && m + 1 >= w
  {
    var rs := seq(m, _ => true);
    forall i | 1 <= i <= |rs| ensures !LastReleased([true] + rs[..i], w) {
      assert ([true] + rs[..i])[i];
    }
    assert NeverReleased(rs, w);
    DebounceRun(w, k, rs);
    if m >= 1 && m + 1 >= w {
      assert LastPressed([true] + rs[..m], w);
    }
    if EverFull(rs, w) {
      var i :| 1 <= i <= |rs| && LastPressed([true] + rs[..i], w);
      assert m >= 1 && m + 1 >= w;
    }
  }
}
