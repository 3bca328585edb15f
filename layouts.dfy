/**
 * The persisted key-mapping store, as values: the live map, the ten saved
 * layout index entries, the 128-pair diff buffer and the sentinel byte, with
 * what reset, delete, save, load and boot-time initialisation make of them
 * (Keyboard.c, Eeprom_*), and the properties those operations keep.
 */
module Layouts {
  import opened Config

  /** One entry of `saved_key_mapping_indices`: an inclusive range of the diff
      buffer, empty when `start` is NO_KEY. */
  datatype Range = Range(start: byte, end: byte)

  /** One entry of `saved_key_mappings`: a logical key and the output code saved for it. */
  datatype Entry = Entry(lKey: byte, hKey: byte)

  /** What a store command reports; every failure leaves a message to print. */
  datatype Status = Ok | NoSuchLayout | OutOfSpace | NoChanges

  /** The message a failed command leaves in `print_buffer`. */
  function Message(st: Status): seq<Char8>
  {
    match st
    case Ok => ""
    case NoSuchLayout => "No such layout"
    case OutOfSpace => "Out of space, can't save layout."
    case NoChanges => "No changes, not saved."
  }

  /** The store's bytes: sentinel, live map, index and diff buffer. */
  datatype Image = Image(sentinel: byte, live: seq<byte>, index: seq<Range>, buffer: seq<Entry>)

  /** The array sizes the firmware declares. */
  predicate Shaped(img: Image, n: nat)
  {
    && |img.live| == n
    && |img.index| == NUM_KEY_MAPPING_INDICES
    && |img.buffer| == SAVED_KEY_MAPPINGS_BUFFER_SIZE
  }

  predicate Occupied(r: Range)
  {
    r.start != NO_KEY
  }

  /** The buffer positions a save may use: a save never writes at 127 or above. */
  const LAST_USABLE: nat := SAVED_KEY_MAPPINGS_BUFFER_SIZE - 2

  /** Every occupied range is non-empty and lies in the usable part of the buffer. */
  predicate InBounds(img: Image, n: nat)
  {
    && Shaped(img, n)
    && forall i :: 0 <= i < |img.index| && Occupied(img.index[i]) ==>
         img.index[i].start <= img.index[i].end <= LAST_USABLE
  }

  /** The pairs a range refers to. */
  function Slice(buffer: seq<Entry>, r: Range): seq<Entry>
  {
    if r.start <= r.end < |buffer| then buffer[r.start..r.end + 1] else []
  }

  /** The pairs saved for layout `i`. */
  function Stored(img: Image, i: nat): seq<Entry>
    requires i < |img.index|
  {
    Slice(img.buffer, img.index[i])
  }

  /** Strictly ascending logical keys, each a valid logical key. */
  predicate SortedDiff(es: seq<Entry>, n: nat)
  {
    && (forall a, b :: 0 <= a < b < |es| ==> es[a].lKey < es[b].lKey)
    && (forall a :: 0 <= a < |es| ==> es[a].lKey < n)
  }

  /** Two ranges share no buffer position. */
  predicate Disjoint(a: Range, b: Range)
  {
    a.end < b.start || b.end < a.start
  }

  /**
   * The store invariant every command keeps: ranges in bounds, pairwise
   * disjoint, and each holding a strictly ascending diff.
   */
  predicate Wf(img: Image, n: nat)
  {
    && InBounds(img, n)
    && (forall i, j :: 0 <= i < |img.index| && 0 <= j < |img.index| ==>
          (i != j && Occupied(img.index[i]) && Occupied(img.index[j]) ==> Disjoint(img.index[i], img.index[j])))
    && (forall i :: 0 <= i < |img.index| && Occupied(img.index[i]) ==> SortedDiff(Stored(img, i), n))
  }

  // ---------------------------------------------------------------------------
  // Diffs and the merge that loads them
  // ---------------------------------------------------------------------------

  /** The pairs (l, live[l]) for every l whose live code differs from its default, ascending in l. */
  function Diffs(live: seq<byte>, defaults: seq<byte>): seq<Entry>
    requires |live| == |defaults| < 256
  {
    if live == [] then []
    else
      var n := |live| - 1;
      Diffs(live[..n], defaults[..n]) + (if live[n] != defaults[n] then [Entry(n, live[n])] else [])
  }

  /** The code saved for `l` in a diff, or `dflt` when the diff has none. */
  function Lookup(es: seq<Entry>, l: int, dflt: byte): byte
  {
    if es == [] then dflt
    else if es[0].lKey == l then es[0].hKey
    else Lookup(es[1..], l, dflt)
  }

  /** The live map a load of diff `es` produces: the saved code where there is one, the default elsewhere. */
  function LoadMap(es: seq<Entry>, defaults: seq<byte>): (r: seq<byte>)
    ensures |r| == |defaults|
  {
    seq(|defaults|, l requires 0 <= l < |defaults| => Lookup(es, l, defaults[l]))
  }

  /** In a diff with distinct keys, the pair for `l` is the one a lookup finds. */
  lemma {:induction false} LookupFinds(es: seq<Entry>, q: nat, dflt: byte)
    requires q < |es|
    requires forall a, b :: 0 <= a < b < |es| ==> es[a].lKey < es[b].lKey
    ensures Lookup(es, es[q].lKey, dflt) == es[q].hKey
  {
    if q > 0 {
      LookupFinds(es[1..], q - 1, dflt);
    }
  }

  /** A key no pair mentions falls back to the default. */
  lemma {:induction false} LookupMisses(es: seq<Entry>, l: int, dflt: byte)
    requires forall a :: 0 <= a < |es| ==> es[a].lKey != l
    ensures Lookup(es, l, dflt) == dflt
  {
    if es != [] {
      LookupMisses(es[1..], l, dflt);
    }
  }

  /** The diff lists exactly the differing keys, each with its live code, in strictly ascending order. */
  lemma {:induction false} DiffsShape(live: seq<byte>, defaults: seq<byte>)
    requires |live| == |defaults| < 256
    ensures SortedDiff(Diffs(live, defaults), |live|)
    ensures forall a :: 0 <= a < |Diffs(live, defaults)| ==>
      var e := Diffs(live, defaults)[a]; live[e.lKey] == e.hKey && live[e.lKey] != defaults[e.lKey]
    ensures forall l :: 0 <= l < |live| && live[l] != defaults[l] ==>
      exists a :: 0 <= a < |Diffs(live, defaults)| && Diffs(live, defaults)[a].lKey == l
  {
    DiffsEntries(live, defaults);
    DiffsAscending(live, defaults);
    DiffsComplete(live, defaults);
    forall l | 0 <= l < |live| && live[l] != defaults[l]
      ensures exists a :: 0 <= a < |Diffs(live, defaults)| && Diffs(live, defaults)[a].lKey == l
    {
      assert Lists(Diffs(live, defaults), l);
    }
  }

  /** Each pair of the diff names a valid key whose live code differs from its default, and records that code. */
  lemma {:induction false} DiffsEntries(live: seq<byte>, defaults: seq<byte>)
    requires |live| == |defaults| < 256
    ensures forall a :: 0 <= a < |Diffs(live, defaults)| ==>
      var e := Diffs(live, defaults)[a];
      e.lKey < |live| && live[e.lKey] == e.hKey && live[e.lKey] != defaults[e.lKey]
  {
    if live != [] {
      var n := |live| - 1;
      DiffsEntries(live[..n], defaults[..n]);
      var p := Diffs(live[..n], defaults[..n]);
      var d := Diffs(live, defaults);
      forall a | 0 <= a < |d|
        ensures d[a].lKey < |live| && live[d[a].lKey] == d[a].hKey && live[d[a].lKey] != defaults[d[a].lKey]
      {
        if a < |p| {
          assert d[a] == p[a];
          assert live[..n][p[a].lKey] == live[p[a].lKey];
          assert defaults[..n][p[a].lKey] == defaults[p[a].lKey];
        }
      }
    }
  }

  /** The diff's keys are strictly ascending. */
  lemma {:induction false} DiffsAscending(live: seq<byte>, defaults: seq<byte>)
    requires |live| == |defaults| < 256
    ensures forall a, b :: 0 <= a < b < |Diffs(live, defaults)| ==>
      Diffs(live, defaults)[a].lKey < Diffs(live, defaults)[b].lKey
  {
    if live != [] {
      var n := |live| - 1;
      DiffsAscending(live[..n], defaults[..n]);
      DiffsEntries(live[..n], defaults[..n]);
      var p := Diffs(live[..n], defaults[..n]);
      var d := Diffs(live, defaults);
      forall a, b | 0 <= a < b < |d| ensures d[a].lKey < d[b].lKey {
        assert d[a] == p[a];
        if b < |p| {
          assert d[b] == p[b];
        }
      }
    }
  }

  /** Some pair of `es` is for logical key `l`. */
  predicate Lists(es: seq<Entry>, l: int)
  {
    exists a :: 0 <= a < |es| && es[a].lKey == l
  }

  /** Every key whose live code differs from its default appears in the diff. */
  lemma {:induction false} DiffsComplete(live: seq<byte>, defaults: seq<byte>)
    requires |live| == |defaults| < 256
    ensures forall l :: 0 <= l < |live| && live[l] != defaults[l] ==> Lists(Diffs(live, defaults), l)
  {
    if live != [] {
      var n := |live| - 1;
      DiffsComplete(live[..n], defaults[..n]);
      var p := Diffs(live[..n], defaults[..n]);
      var d := Diffs(live, defaults);
      assert d[..|p|] == p;
      forall l | 0 <= l < |live| && live[l] != defaults[l]
        ensures Lists(d, l)
      {
        if l < n {
          assert live[..n][l] == live[l] && defaults[..n][l] == defaults[l];
          assert Lists(p, l);
          var a :| 0 <= a < |p| && p[a].lKey == l;
          assert d[a] == p[a];
        } else {
          assert d[|d| - 1].lKey == l;
        }
      }
    }
  }

  /** Loading the diff of a live map reproduces that live map (the save/load round trip on values). */
  lemma DiffsRoundTrip(live: seq<byte>, defaults: seq<byte>)
    requires |live| == |defaults| < 256
    ensures LoadMap(Diffs(live, defaults), defaults) == live
  {
    var d := Diffs(live, defaults);
    DiffsShape(live, defaults);
    forall l | 0 <= l < |live| ensures Lookup(d, l, defaults[l]) == live[l] {
      if live[l] != defaults[l] {
        var a :| 0 <= a < |d| && d[a].lKey == l;
        LookupFinds(d, a, defaults[l]);
      } else {
        forall a | 0 <= a < |d| ensures d[a].lKey != l {
        }
        LookupMisses(d, l, defaults[l]);
      }
    }
  }

  // ---------------------------------------------------------------------------
  // Resets and boot
  // ---------------------------------------------------------------------------

  /** Eeprom_ResetDefaults: the live map becomes the default map. */
  function ResetDefaultsSpec(img: Image, defaults: seq<byte>): Image
  {
    img.(live := defaults)
  }

  /** Eeprom_ResetFully: sentinel set, every layout emptied (end bytes kept), live map reset. */
  function ResetFullySpec(img: Image, defaults: seq<byte>): Image
  {
    Image(EEPROM_SENTINEL,
          defaults,
          seq(|img.index|, i requires 0 <= i < |img.index| => Range(NO_KEY, img.index[i].end)),
          img.buffer)
  }

  /** Eeprom_Init: a full reset exactly when the sentinel is missing. */
  function InitSpec(img: Image, defaults: seq<byte>): Image
  {
    if img.sentinel != EEPROM_SENTINEL then ResetFullySpec(img, defaults) else img
  }

  /**
   * Boot: afterwards the sentinel is set; when it was missing, every layout
   * is empty, the index end bytes and the buffer are untouched, the live map
   * is the default map and the store invariant holds; otherwise nothing changes.
   */
  lemma InitEffect(img: Image, cfg: Config)
    requires cfg.Valid() && Shaped(img, cfg.numLogicalKeys)
    ensures var r := InitSpec(img, cfg.defaults);
      && r.sentinel == EEPROM_SENTINEL
      && (img.sentinel != EEPROM_SENTINEL ==>
            && r.live == cfg.defaults
            && (forall i :: 0 <= i < NUM_KEY_MAPPING_INDICES ==>
                  !Occupied(r.index[i]) && r.index[i].end == img.index[i].end)
            && r.buffer == img.buffer
            && Wf(r, cfg.numLogicalKeys))
      && (img.sentinel == EEPROM_SENTINEL ==> r == img)
  {
  }

  // ---------------------------------------------------------------------------
  // Delete
  // ---------------------------------------------------------------------------

  /** The largest `end` among occupied ranges starting after `end`, or `end` itself. */
  function MaxEndAfter(index: seq<Range>, end: byte): (m: byte)
    ensures m >= end
    ensures forall i :: 0 <= i < |index| && Occupied(index[i]) && index[i].start > end ==> index[i].end <= m
  {
    if index == [] then end
    else
      var m := MaxEndAfter(index[..|index| - 1], end);
      var r := index[|index| - 1];
      if Occupied(r) && r.start > end && r.end > m then r.end else m
  }

  /** The maximum is one of the ends it ranges over. */
  lemma {:induction false} MaxEndAfterIsEnd(index: seq<Range>, end: byte)
    ensures MaxEndAfter(index, end) == end
         || exists i :: 0 <= i < |index| && Occupied(index[i]) && index[i].start > end
                        && index[i].end == MaxEndAfter(index, end)
  {
    if index != [] {
      var n := |index| - 1;
      MaxEndAfterIsEnd(index[..n], end);
      if MaxEndAfter(index, end) != end && MaxEndAfter(index, end) == MaxEndAfter(index[..n], end) {
        var i :| 0 <= i < n && Occupied(index[..n][i]) && index[..n][i].start > end
                 && index[..n][i].end == MaxEndAfter(index[..n], end);
        assert index[i] == index[..n][i];
      }
    }
  }

  /** The length the firmware removes for a range, as written: `start - end + 1` in 8 bits. */
  function AsWrittenLength(r: Range): byte
  {
    (r.start - r.end + 1) % 256
  }

  /** The number of pairs a range holds: `end - start + 1`. */
  function RangeLength(r: Range): nat
    requires r.start <= r.end
  {
    r.end - r.start + 1
  }

  /** A range moved down by `length` positions, in 8-bit arithmetic. */
  function ShiftDown(e: Range, length: nat): Range
  {
    Range((e.start - length) % 256, (e.end - length) % 256)
  }

  /** The index after removing layout `num` and moving every later range down by `length`. */
  function DeleteIndex(index: seq<Range>, num: nat, length: nat): (r: seq<Range>)
    requires num < |index|
    ensures |r| == |index|
  {
    var end := index[num].end;
    seq(|index|, i requires 0 <= i < |index| =>
      if i == num then Range(NO_KEY, end)
      else if Occupied(index[i]) && index[i].start > end
        then ShiftDown(index[i], length)
      else index[i])
  }

  /**
   * The buffer after moving positions `from .. to` down by `length`. A move
   * whose target would lie below position 0 is outside the buffer and is
   * not part of this model: the buffer keeps its pair there.
   */
  function MoveDown(buffer: seq<Entry>, from: nat, to: int, length: nat): (r: seq<Entry>)
    requires to < |buffer|
    ensures |r| == |buffer|
  {
    seq(|buffer|, t requires 0 <= t < |buffer| =>
      if from - length <= t <= to - length then buffer[t + length] else buffer[t])
  }

  /**
   * Eeprom_DeleteLayout once the layout is known to exist, with the removed
   * length as a parameter: empty the entry, shift every range starting after
   * the removed one down by `length`, and move the buffer positions from just
   * after the removed range up to the largest shifted end down by `length`.
   */
  function DeleteSpec(img: Image, num: nat, length: nat): Image
    requires InBounds(img, |img.live|) && num < |img.index| && Occupied(img.index[num])
  {
    var r := img.index[num];
    var cleared := img.index[num := Range(NO_KEY, r.end)];
    var maxEnd := MaxEndAfter(cleared, r.end);
    MaxEndAfterIsEnd(cleared, r.end);
    img.(index := DeleteIndex(img.index, num, length),
         buffer := MoveDown(img.buffer, r.end + 1, maxEnd, length))
  }

  /** Layout `num` is gone after a delete. */
  lemma DeleteEmpties(img: Image, num: nat, length: nat)
    requires InBounds(img, |img.live|) && num < |img.index| && Occupied(img.index[num])
    ensures !Occupied(DeleteSpec(img, num, length).index[num])
    ensures DeleteSpec(img, num, length).live == img.live
  {
  }

  /** For a range before the removed one: its index entry and its pairs are untouched. */
  lemma DeleteKeepsEarlier(img: Image, cfg: Config, num: nat, j: nat)
    requires Wf(img, cfg.numLogicalKeys) && num < |img.index| && Occupied(img.index[num])
    requires j < |img.index| && j != num && Occupied(img.index[j])
    requires img.index[j].start <= img.index[num].end
    ensures var d := DeleteSpec(img, num, RangeLength(img.index[num]));
      d.index[j] == img.index[j] && Stored(d, j) == Stored(img, j)
  {
    var r := img.index[num];
    var d := DeleteSpec(img, num, RangeLength(r));
    var e := img.index[j];
    assert Disjoint(e, r);
    assert e.end < r.start;
    forall t | e.start <= t <= e.end ensures d.buffer[t] == img.buffer[t] {
    }
    assert d.buffer[e.start..e.end + 1] == img.buffer[e.start..e.end + 1];
  }

  /** For a range after the removed one: it moves down by the removed length and keeps its pairs. */
  lemma DeleteMovesLater(img: Image, cfg: Config, num: nat, j: nat)
    requires Wf(img, cfg.numLogicalKeys) && num < |img.index| && Occupied(img.index[num])
    requires j < |img.index| && j != num && Occupied(img.index[j])
    requires img.index[j].start > img.index[num].end
    ensures var r := img.index[num];
      var d := DeleteSpec(img, num, RangeLength(r));
      && d.index[j] == Range(img.index[j].start - RangeLength(r), img.index[j].end - RangeLength(r))
      && Stored(d, j) == Stored(img, j)
  {
    MovedIndex(img, num, j);
    MovedPairs(img, num, j);
  }

  /** The index entry of a range after the removed one, after the delete. */
  lemma MovedIndex(img: Image, num: nat, j: nat)
    requires InBounds(img, |img.live|) && num < |img.index| && Occupied(img.index[num])
    requires j < |img.index| && j != num && Occupied(img.index[j])
    requires img.index[j].start > img.index[num].end
    ensures var r := img.index[num];
      DeleteSpec(img, num, RangeLength(r)).index[j] == Range(img.index[j].start - RangeLength(r), img.index[j].end - RangeLength(r))
  {
    var r := img.index[num];
    assert DeleteIndex(img.index, num, RangeLength(r))[j] == ShiftDown(img.index[j], RangeLength(r));
  }

  /** The pairs of a range after the removed one, after the delete. */
  lemma MovedPairs(img: Image, num: nat, j: nat)
    requires InBounds(img, |img.live|) && num < |img.index| && Occupied(img.index[num])
    requires j < |img.index| && j != num && Occupied(img.index[j])
    requires img.index[j].start > img.index[num].end
    requires var r := img.index[num];
      DeleteSpec(img, num, RangeLength(r)).index[j] == Range(img.index[j].start - RangeLength(r), img.index[j].end - RangeLength(r))
    ensures Stored(DeleteSpec(img, num, RangeLength(img.index[num])), j) == Stored(img, j)
  {
    var r := img.index[num];
    var len := RangeLength(r);
    var d := DeleteSpec(img, num, len);
    var e := img.index[j];
    var cleared := img.index[num := Range(NO_KEY, r.end)];
    var maxEnd := MaxEndAfter(cleared, r.end);
    assert cleared[j] == e;
    assert e.end <= maxEnd;
    var ne := d.index[j];
    forall t | ne.start <= t <= ne.end ensures d.buffer[t] == img.buffer[t + len] {
    }
    assert d.buffer[ne.start..ne.end + 1] == img.buffer[e.start..e.end + 1];
  }

  /** Deleting a layout never changes the pairs any other layout holds. */
  lemma DeleteKeepsOthers(img: Image, cfg: Config, num: nat)
    requires Wf(img, cfg.numLogicalKeys) && num < |img.index| && Occupied(img.index[num])
    ensures var d := DeleteSpec(img, num, RangeLength(img.index[num]));
      forall j :: 0 <= j < |img.index| && j != num ==>
        (Occupied(d.index[j]) <==> Occupied(img.index[j]))
        && (Occupied(img.index[j]) ==> Stored(d, j) == Stored(img, j))
  {
    var d := DeleteSpec(img, num, RangeLength(img.index[num]));
    forall j | 0 <= j < |img.index| && j != num
      ensures (Occupied(d.index[j]) <==> Occupied(img.index[j]))
      ensures Occupied(img.index[j]) ==> Stored(d, j) == Stored(img, j)
    {
      if Occupied(img.index[j]) {
        if img.index[j].start <= img.index[num].end {
          DeleteKeepsEarlier(img, cfg, num, j);
        } else {
          DeleteMovesLater(img, cfg, num, j);
        }
      }
    }
  }

  /** Deleting a layout keeps the store invariant. */
  lemma DeleteWf(img: Image, cfg: Config, num: nat)
    requires Wf(img, cfg.numLogicalKeys) && num < |img.index| && Occupied(img.index[num])
    ensures Wf(DeleteSpec(img, num, RangeLength(img.index[num])), cfg.numLogicalKeys)
  {
    var n := cfg.numLogicalKeys;
    var r := img.index[num];
    var len := RangeLength(r);
    var d := DeleteSpec(img, num, len);
    DeleteKeepsOthers(img, cfg, num);
    forall j | 0 <= j < |d.index| && Occupied(d.index[j])
      ensures d.index[j].start <= d.index[j].end <= LAST_USABLE
      ensures SortedDiff(Stored(d, j), n)
    {
      if img.index[j].start <= r.end {
        DeleteKeepsEarlier(img, cfg, num, j);
      } else {
        DeleteMovesLater(img, cfg, num, j);
      }
    }
    forall i, j | 0 <= i < |d.index| && 0 <= j < |d.index| && i != j
        && Occupied(d.index[i]) && Occupied(d.index[j])
      ensures Disjoint(d.index[i], d.index[j])
    {
      assert Disjoint(img.index[i], img.index[j]);
      if img.index[i].start <= r.end { DeleteKeepsEarlier(img, cfg, num, i); } else { DeleteMovesLater(img, cfg, num, i); }
      if img.index[j].start <= r.end { DeleteKeepsEarlier(img, cfg, num, j); } else { DeleteMovesLater(img, cfg, num, j); }
      if img.index[i].start <= r.end { assert img.index[i].end < r.start; }
      if img.index[j].start <= r.end { assert img.index[j].end < r.start; }
    }
  }

  /**
   * The length as written agrees with the number of pairs in the range only
   * for a one-pair range: for `start < end` the 8-bit subtraction wraps.
   */
  lemma AsWrittenLengthWrong(r: Range)
    requires r.start <= r.end <= LAST_USABLE
    ensures AsWrittenLength(r) == RangeLength(r) <==> r.start == r.end
    ensures r.end == r.start + 1 ==> AsWrittenLength(r) == 0
    ensures r.end >= r.start + 2 ==> AsWrittenLength(r) > r.end + 1
  {
  }

  /** A store with layout 0 at positions 1..3 and layout 1 at position 4; position t holds (t, 9). */
  function TwoLayouts(): Image
  {
    Image(EEPROM_SENTINEL,
          seq(8, _ => 0),
          seq(10, i => if i == 0 then Range(1, 3) else if i == 1 then Range(4, 4) else Range(NO_KEY, 0)),
          seq(128, t => if 0 <= t < 8 then Entry(t, 9) else Entry(0, 0)))
  }

  /** The example store satisfies the invariant. */
  lemma TwoLayoutsWf()
    ensures Wf(TwoLayouts(), 8)
    ensures Stored(TwoLayouts(), 1) == [Entry(4, 9)]
  {
    var img := TwoLayouts();
    assert Stored(img, 0) == [Entry(1, 9), Entry(2, 9), Entry(3, 9)];
    assert Stored(img, 1) == [Entry(4, 9)];
  }

  /** In the example store, the largest end after layout 0 is layout 1's. */
  lemma TwoLayoutsMaxEnd()
    ensures MaxEndAfter(TwoLayouts().index[0 := Range(NO_KEY, 3)], 3) == 4
  {
    var cleared := TwoLayouts().index[0 := Range(NO_KEY, 3)];
    assert cleared[..1] == [Range(NO_KEY, 3)] && cleared[..1][..0] == [];
    assert MaxEndAfter(cleared[..1], 3) == 3;
    assert cleared[..2][..1] == cleared[..1];
    assert MaxEndAfter(cleared[..2], 3) == 4;
    var k := 2;
    while k < 10
      invariant 2 <= k <= 10 && MaxEndAfter(cleared[..k], 3) == 4
    {
      assert cleared[..k + 1][..k] == cleared[..k];
      k := k + 1;
    }
    assert cleared[..10] == cleared;
  }

  /**
   * The defect on a concrete store: deleting layout 0 (three pairs) with the
   * length as written (255) moves layout 1's entry up to position 5 instead
   * of down to 1, and the pair it then refers to is not the one it saved;
   * the move of position 4 would target 4 - 255, below the buffer. With the
   * intended length 3 layout 1 moves to position 1 and keeps its pair.
   */
  lemma AsWrittenDeleteLosesLayout()
    ensures Wf(TwoLayouts(), 8)
    ensures var img := TwoLayouts();
      var d := DeleteSpec(img, 0, AsWrittenLength(img.index[0]));
      && AsWrittenLength(img.index[0]) == 255
      && d.index[1] == Range(5, 5)
      && Stored(d, 1) == [Entry(5, 9)] != Stored(img, 1) == [Entry(4, 9)]
    ensures var img := TwoLayouts();
      var d := DeleteSpec(img, 0, RangeLength(img.index[0]));
      d.index[1] == Range(1, 1) && Stored(d, 1) == Stored(img, 1)
  {
    TwoLayoutsWf();
    TwoLayoutsMaxEnd();
    var img := TwoLayouts();
    var d := DeleteSpec(img, 0, AsWrittenLength(img.index[0]));
    assert d.buffer[5..6] == [Entry(5, 9)];
    var c := DeleteSpec(img, 0, RangeLength(img.index[0]));
    assert c.buffer[1..2] == [Entry(4, 9)];
  }

  /**
   * The defect is harmless for a two-pair layout: the length as written is 0,
   * so no range moves and the buffer is untouched. The layout's entry is
   * emptied, every other layout keeps its range and its pairs, and the two
   * pairs it held stay behind as unused space.
   */
  lemma AsWrittenTwoPairLeaks(img: Image, n: nat, num: nat)
    requires Wf(img, n) && num < |img.index| && Occupied(img.index[num])
    requires img.index[num].end == img.index[num].start + 1
    ensures var d := DeleteSpec(img, num, AsWrittenLength(img.index[num]));
      && !Occupied(d.index[num])
      && d.buffer == img.buffer
      && (forall j :: 0 <= j < |img.index| && j != num ==> d.index[j] == img.index[j] && Stored(d, j) == Stored(img, j))
      && Wf(d, n)
  {
    var r := img.index[num];
    assert AsWrittenLength(r) == 0;
    var d := DeleteSpec(img, num, 0);
    assert d.buffer == img.buffer;
    assert d.index == img.index[num := Range(NO_KEY, r.end)];
  }

  // ---------------------------------------------------------------------------
  // Save
  // ---------------------------------------------------------------------------

  /** The largest `end` among occupied ranges, or 0 when there are none. */
  function LastEnd(index: seq<Range>): (m: byte)
    ensures forall i :: 0 <= i < |index| && Occupied(index[i]) ==> index[i].end <= m
  {
    if index == [] then 0
    else
      var m := LastEnd(index[..|index| - 1]);
      var r := index[|index| - 1];
      if Occupied(r) && r.end > m then r.end else m
  }

  /** The maximum is 0 or one of the occupied ends. */
  lemma {:induction false} LastEndIsEnd(index: seq<Range>)
    ensures LastEnd(index) == 0
         || exists i :: 0 <= i < |index| && Occupied(index[i]) && index[i].end == LastEnd(index)
  {
    if index != [] {
      var n := |index| - 1;
      LastEndIsEnd(index[..n]);
      if LastEnd(index) != 0 && LastEnd(index) == LastEnd(index[..n]) {
        var i :| 0 <= i < n && Occupied(index[..n][i]) && index[..n][i].end == LastEnd(index[..n]);
        assert index[i] == index[..n][i];
      }
    }
  }

  /** The store after the delete that a save starts with. */
  function ClearForSave(img: Image, num: nat): Image
    requires InBounds(img, |img.live|) && num < |img.index|
  {
    if Occupied(img.index[num]) then DeleteSpec(img, num, RangeLength(img.index[num])) else img
  }

  /**
   * The delete a save starts with keeps every range inside the usable part of
   * the buffer: a range after the deleted one starts at least the deleted
   * length above 0, so moving it down never wraps.
   */
  lemma ClearForSaveInBounds(img: Image, num: nat)
    requires InBounds(img, |img.live|) && num < |img.index|
    ensures InBounds(ClearForSave(img, num), |img.live|) && ClearForSave(img, num).live == img.live
  {
    if Occupied(img.index[num]) {
      var r := img.index[num];
      var d := DeleteSpec(img, num, RangeLength(r));
      forall i | 0 <= i < |d.index| && Occupied(d.index[i])
        ensures d.index[i].start <= d.index[i].end <= LAST_USABLE
      {
        if i != num && Occupied(img.index[i]) && img.index[i].start > r.end {
          assert img.index[i].start >= RangeLength(r);
        }
      }
    }
  }

  /** The buffer with `es` written from `start` on, up to position 126 at most. */
  function WriteFrom(buffer: seq<Entry>, start: nat, es: seq<Entry>): (r: seq<Entry>)
    requires start <= LAST_USABLE + 1 && |buffer| == SAVED_KEY_MAPPINGS_BUFFER_SIZE
    ensures |r| == |buffer|
  {
    seq(|buffer|, t requires 0 <= t < |buffer| =>
      if start <= t <= LAST_USABLE && t - start < |es| then es[t - start] else buffer[t])
  }

  /**
   * Eeprom_SaveLayout: reject an index out of range; otherwise delete the
   * layout, then write the diff of the live map from one past the largest
   * occupied end (1 when none). Fail with "No changes" on an empty diff and
   * with "Out of space" (the layout left empty) when the diff does not fit
   * below position 127; otherwise record its range.
   */
  function SaveSpec(img: Image, num: nat, defaults: seq<byte>): (Image, Status)
    requires InBounds(img, |img.live|) && |defaults| == |img.live| < 256
  {
    if num >= NUM_KEY_MAPPING_INDICES then (img, NoSuchLayout)
    else
      ClearForSaveInBounds(img, num);
      SaveInto(ClearForSave(img, num), num, defaults)
  }

  /** The write half of a save, on the store the initial delete left. */
  function SaveInto(d: Image, num: nat, defaults: seq<byte>): (Image, Status)
    requires InBounds(d, |d.live|) && |defaults| == |d.live| < 256 && num < |d.index|
  {
    LastEndIsEnd(d.index);
    var start := LastEnd(d.index) + 1;
    var es := Diffs(d.live, defaults);
    var written := d.(buffer := WriteFrom(d.buffer, start, es));
    if |es| == 0 then (d, NoChanges)
    else if start + |es| > LAST_USABLE + 1 then (written, OutOfSpace)
    else (written.(index := d.index[num := Range(start, start + |es| - 1)]), Ok)
  }

  /** The delete a save starts with keeps the invariant and every other layout. */
  lemma ClearForSaveEffect(img: Image, cfg: Config, num: nat)
    requires Wf(img, cfg.numLogicalKeys) && num < NUM_KEY_MAPPING_INDICES
    ensures var d := ClearForSave(img, num);
      && Wf(d, cfg.numLogicalKeys) && !Occupied(d.index[num]) && d.live == img.live
      && forall j :: 0 <= j < |img.index| && j != num ==>
           (Occupied(d.index[j]) <==> Occupied(img.index[j]))
           && (Occupied(img.index[j]) ==> Stored(d, j) == Stored(img, j))
  {
    if Occupied(img.index[num]) {
      DeleteWf(img, cfg, num);
      DeleteKeepsOthers(img, cfg, num);
    }
  }

  /** Writing above every occupied range leaves the pairs of every range in place. */
  lemma WriteKeepsRanges(d: Image, start: nat, es: seq<Entry>)
    requires InBounds(d, |d.live|) && start == LastEnd(d.index) + 1 && start <= LAST_USABLE + 1
    ensures forall j :: 0 <= j < |d.index| && Occupied(d.index[j]) ==>
      Slice(WriteFrom(d.buffer, start, es), d.index[j]) == Slice(d.buffer, d.index[j])
  {
    var buf := WriteFrom(d.buffer, start, es);
    forall j | 0 <= j < |d.index| && Occupied(d.index[j])
      ensures Slice(buf, d.index[j]) == Slice(d.buffer, d.index[j])
    {
      var e := d.index[j];
      assert e.end < start;
      assert buf[e.start..e.end + 1] == d.buffer[e.start..e.end + 1];
    }
  }

  /** Adding a sorted range above every occupied one, over a buffer that keeps the
      occupied ranges' pairs, keeps the invariant. */
  lemma AddRangeWf(d: Image, n: nat, num: nat, nr: Range, buf: seq<Entry>)
    requires Wf(d, n) && num < |d.index| && !Occupied(d.index[num])
    requires LastEnd(d.index) < nr.start <= nr.end <= LAST_USABLE && |buf| == |d.buffer|
    requires SortedDiff(Slice(buf, nr), n)
    requires forall j :: 0 <= j < |d.index| && Occupied(d.index[j]) ==> Slice(buf, d.index[j]) == Slice(d.buffer, d.index[j])
    ensures Wf(d.(buffer := buf, index := d.index[num := nr]), n)
  {
    var s := d.(buffer := buf, index := d.index[num := nr]);
    forall j | 0 <= j < |s.index| && Occupied(s.index[j])
      ensures SortedDiff(Stored(s, j), n)
    {
      if j != num { assert Stored(s, j) == Stored(d, j); }
    }
    forall i, j | 0 <= i < |s.index| && 0 <= j < |s.index| && i != j && Occupied(s.index[i]) && Occupied(s.index[j])
      ensures Disjoint(s.index[i], s.index[j])
    {
      if i != num && j != num { assert Disjoint(d.index[i], d.index[j]); }
    }
  }

  /** The range a save records holds exactly the pairs it wrote. */
  lemma WrittenSlice(buffer: seq<Entry>, start: nat, es: seq<Entry>)
    requires 1 <= start && |es| > 0 && start + |es| <= LAST_USABLE + 1 && |buffer| == SAVED_KEY_MAPPINGS_BUFFER_SIZE
    ensures Slice(WriteFrom(buffer, start, es), Range(start, start + |es| - 1)) == es
  {
    var buf := WriteFrom(buffer, start, es);
    assert buf[start..start + |es|] == es;
  }

  /** A successful save records a range holding exactly the diff, disjoint from every other. */
  lemma SaveRecords(img: Image, cfg: Config, num: nat)
    requires cfg.Valid() && Wf(img, cfg.numLogicalKeys) && num < NUM_KEY_MAPPING_INDICES
    requires SaveSpec(img, num, cfg.defaults).1 == Ok
    ensures var s := SaveSpec(img, num, cfg.defaults).0;
      Wf(s, cfg.numLogicalKeys) && Stored(s, num) == Diffs(img.live, cfg.defaults)
  {
    var n := cfg.numLogicalKeys;
    var d := ClearForSave(img, num);
    ClearForSaveEffect(img, cfg, num);
    LastEndIsEnd(d.index);
    var start := LastEnd(d.index) + 1;
    var es := Diffs(d.live, cfg.defaults);
    DiffsShape(d.live, cfg.defaults);
    var buf := WriteFrom(d.buffer, start, es);
    var nr := Range(start, start + |es| - 1);
    var s := d.(buffer := buf, index := d.index[num := nr]);
    assert SaveSpec(img, num, cfg.defaults).0 == s;
    WrittenSlice(d.buffer, start, es);
    WriteKeepsRanges(d, start, es);
    AddRangeWf(d, n, num, nr, buf);
  }

  /** A failed save leaves the layout empty, the other layouts' pairs in place and the invariant. */
  lemma SaveFails(img: Image, cfg: Config, num: nat)
    requires cfg.Valid() && Wf(img, cfg.numLogicalKeys) && num < NUM_KEY_MAPPING_INDICES
    requires SaveSpec(img, num, cfg.defaults).1 != Ok
    ensures var s := SaveSpec(img, num, cfg.defaults).0;
      && Wf(s, cfg.numLogicalKeys) && s.index == ClearForSave(img, num).index
      && forall j :: 0 <= j < |s.index| && Occupied(s.index[j]) ==> Stored(s, j) == Stored(ClearForSave(img, num), j)
  {
    var s := SaveSpec(img, num, cfg.defaults).0;
    var d := ClearForSave(img, num);
    ClearForSaveEffect(img, cfg, num);
    LastEndIsEnd(d.index);
    var start := LastEnd(d.index) + 1;
    WriteKeepsRanges(d, start, Diffs(d.live, cfg.defaults));
    forall j | 0 <= j < |s.index| && Occupied(s.index[j])
      ensures Stored(s, j) == Stored(d, j)
    {
    }
  }

  /**
   * What a save does: on success the layout holds exactly the diff of the
   * live map against the defaults; on any failure the layout is empty
   * (out-of-range indices aside, which change nothing). "No changes" is
   * reported exactly when the live map equals the defaults. Every other
   * layout keeps its pairs, the live map is unchanged and the invariant holds.
   */
  lemma SaveEffect(img: Image, cfg: Config, num: nat)
    requires cfg.Valid() && Wf(img, cfg.numLogicalKeys)
    ensures var (s, st) := SaveSpec(img, num, cfg.defaults);
      && Wf(s, cfg.numLogicalKeys)
      && s.live == img.live
      && (num >= NUM_KEY_MAPPING_INDICES <==> st == NoSuchLayout)
      && (num >= NUM_KEY_MAPPING_INDICES ==> s == img)
      && (st == NoChanges <==> num < NUM_KEY_MAPPING_INDICES && img.live == cfg.defaults)
      && (num < NUM_KEY_MAPPING_INDICES ==>
            && (st == Ok <==> Occupied(s.index[num]))
            && (st == Ok ==> Stored(s, num) == Diffs(img.live, cfg.defaults))
            && forall j :: 0 <= j < |img.index| && j != num ==>
                 (Occupied(s.index[j]) <==> Occupied(img.index[j]))
                 && (Occupied(img.index[j]) ==> Stored(s, j) == Stored(img, j)))
  {
    if num < NUM_KEY_MAPPING_INDICES {
      var (s, st) := SaveSpec(img, num, cfg.defaults);
      var d := ClearForSave(img, num);
      ClearForSaveEffect(img, cfg, num);
      DiffsEmpty(d.live, cfg.defaults);
      if st == Ok {
        SaveRecords(img, cfg, num);
        forall j | 0 <= j < |img.index| && j != num && Occupied(img.index[j])
          ensures Stored(s, j) == Stored(img, j)
        {
          LastEndIsEnd(d.index);
          WriteKeepsRanges(d, LastEnd(d.index) + 1, Diffs(d.live, cfg.defaults));
          assert Stored(s, j) == Stored(d, j);
        }
      } else {
        SaveFails(img, cfg, num);
      }
    }
  }

  /** The diff is empty exactly when the live map equals the defaults. */
  lemma DiffsEmpty(live: seq<byte>, defaults: seq<byte>)
    requires |live| == |defaults| < 256
    ensures Diffs(live, defaults) == [] <==> live == defaults
  {
    DiffsShape(live, defaults);
    if live != defaults {
      var l :| 0 <= l < |live| && live[l] != defaults[l];
    }
  }

  /** The diff of one more key is the diff so far plus that key's pair when it differs. */
  lemma DiffsStep(live: seq<byte>, defaults: seq<byte>, l: nat)
    requires |live| == |defaults| < 256 && l < |live|
    ensures Diffs(live[..l + 1], defaults[..l + 1])
         == Diffs(live[..l], defaults[..l]) + (if live[l] != defaults[l] then [Entry(l, live[l])] else [])
  {
    assert live[..l + 1][..l] == live[..l];
    assert defaults[..l + 1][..l] == defaults[..l];
  }

  /** The diff of the first `l` keys is a prefix of the whole diff. */
  lemma {:induction false} DiffsPrefix(live: seq<byte>, defaults: seq<byte>, l: nat)
    requires |live| == |defaults| < 256 && l <= |live|
    ensures Diffs(live[..l], defaults[..l]) <= Diffs(live, defaults)
  {
    if l < |live| {
      var m := |live| - 1;
      DiffsPrefix(live[..m], defaults[..m], l);
      assert live[..m][..l] == live[..l];
      assert defaults[..m][..l] == defaults[..l];
    } else {
      assert live[..l] == live && defaults[..l] == defaults;
    }
  }

  /** Writing one more pair at the next position extends the written diff. */
  lemma WriteFromStep(buffer: seq<Entry>, start: nat, p: seq<Entry>, e: Entry)
    requires start + |p| <= LAST_USABLE && |buffer| == SAVED_KEY_MAPPINGS_BUFFER_SIZE
    ensures WriteFrom(buffer, start, p)[start + |p| := e] == WriteFrom(buffer, start, p + [e])
  {
  }

  /** Nothing written: the buffer is unchanged. */
  lemma WriteFromNothing(buffer: seq<Entry>, start: nat)
    requires start <= LAST_USABLE + 1 && |buffer| == SAVED_KEY_MAPPINGS_BUFFER_SIZE
    ensures WriteFrom(buffer, start, []) == buffer
  {
  }

  /** Once a prefix reaches position 126, writing the whole diff writes nothing more. */
  lemma WriteFromSaturated(buffer: seq<Entry>, start: nat, p: seq<Entry>, es: seq<Entry>)
    requires start <= LAST_USABLE + 1 && |buffer| == SAVED_KEY_MAPPINGS_BUFFER_SIZE
    requires p <= es && start + |p| >= LAST_USABLE + 1
    ensures WriteFrom(buffer, start, p) == WriteFrom(buffer, start, es)
  {
  }

  /** In a store in bounds, the largest occupied end lies in the usable part of the buffer. */
  lemma LastEndBound(img: Image, n: nat)
    requires InBounds(img, n)
    ensures LastEnd(img.index) <= LAST_USABLE
  {
    LastEndIsEnd(img.index);
  }

  // ---------------------------------------------------------------------------
  // Load
  // ---------------------------------------------------------------------------

  /**
   * Eeprom_LoadLayout: "No such layout" for an index out of range or an empty
   * entry; otherwise the live map becomes the defaults overridden by the
   * layout's pairs.
   */
  function LoadSpec(img: Image, num: nat, defaults: seq<byte>): (Image, Status)
  {
    if num >= NUM_KEY_MAPPING_INDICES || num >= |img.index| || !Occupied(img.index[num]) then (img, NoSuchLayout)
    else (img.(live := LoadMap(Stored(img, num), defaults)), Ok)
  }

  /**
   * The round trip: a successful save followed by a load of the same layout,
   * whatever happened to the live map in between (a reset to defaults, say),
   * restores the live map that was saved, and changes nothing else.
   */
  lemma SaveLoadRoundTrip(img: Image, cfg: Config, num: nat, between: seq<byte>)
    requires cfg.Valid() && Wf(img, cfg.numLogicalKeys)
    requires SaveSpec(img, num, cfg.defaults).1 == Ok
    ensures var s := SaveSpec(img, num, cfg.defaults).0;
      LoadSpec(s.(live := between), num, cfg.defaults) == (s.(live := img.live), Ok)
  {
    SaveEffect(img, cfg, num);
    DiffsRoundTrip(img.live, cfg.defaults);
  }

  /** A full reset leaves a store that satisfies the invariant, with every layout empty. */
  lemma ResetFullyWf(img: Image, cfg: Config)
    requires cfg.Valid() && Shaped(img, cfg.numLogicalKeys)
    ensures Wf(ResetFullySpec(img, cfg.defaults), cfg.numLogicalKeys)
    ensures forall i :: 0 <= i < NUM_KEY_MAPPING_INDICES ==> !Occupied(ResetFullySpec(img, cfg.defaults).index[i])
    ensures ResetFullySpec(img, cfg.defaults).live == cfg.defaults
  {
  }
}
