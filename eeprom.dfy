/**
 * The persisted store as the firmware keeps it: a sentinel byte, the live
 * logical-to-HID map, the ten saved-layout index entries and the diff
 * buffer, updated in place by the Eeprom_* routines (Keyboard.c). Each
 * method is proved against the value-level specification in module Layouts.
 */
module Eeprom {
  import opened Config
  import opened Layouts

  class Store {
    const cfg: Config
    var sentinel: byte
    /** `logical_to_hid_map`: the output code of every logical key. */
    const live: array<byte>
    /** `saved_key_mapping_indices`. */
    const index: array<Range>
    /** `saved_key_mappings`. */
    const buffer: array<Entry>

    /** The configuration is valid and the arrays have the declared sizes. */
    ghost predicate Valid()
    {
      && cfg.Valid()
      && live.Length == cfg.numLogicalKeys
      && index.Length == NUM_KEY_MAPPING_INDICES
      && buffer.Length == SAVED_KEY_MAPPINGS_BUFFER_SIZE
    }

    /** The store's bytes as a value. */
    function Contents(): Image
      reads this, live, index, buffer
    {
      Image(sentinel, live[..], index[..], buffer[..])
    }

    /** The store as the chip holds it at power-on. */
    constructor PowerOn(c: Config, img: Image)
      requires c.Valid() && Shaped(img, c.numLogicalKeys)
      ensures Valid() && Contents() == img && cfg == c
      ensures fresh(live) && fresh(index) && fresh(buffer)
    {
      cfg := c;
      sentinel := img.sentinel;
      live := new byte[|img.live|](i requires 0 <= i < |img.live| => img.live[i]);
      index := new Range[|img.index|](i requires 0 <= i < |img.index| => img.index[i]);
      buffer := new Entry[|img.buffer|](i requires 0 <= i < |img.buffer| => img.buffer[i]);
      new;
      assert live[..] == img.live;
      assert index[..] == img.index;
      assert buffer[..] == img.buffer;
    }

    /** Eeprom_ResetDefaults: copy the default map into the live map. */
    method ResetDefaults()
      requires Valid()
      modifies live
      ensures Valid() && Contents() == ResetDefaultsSpec(old(Contents()), cfg.defaults)
    {
      for i := 0 to cfg.numLogicalKeys
        invariant forall j :: 0 <= j < i ==> live[j] == cfg.defaults[j]
      {
        live[i] := cfg.defaults[i];
      }
      assert live[..] == cfg.defaults;
    }

    /** Eeprom_ResetFully: set the sentinel, empty every layout, reset the live map. */
    method ResetFully()
      requires Valid()
      modifies this, index, live
      ensures Valid() && Contents() == ResetFullySpec(old(Contents()), cfg.defaults)
    {
      sentinel := EEPROM_SENTINEL;
      for i := 0 to NUM_KEY_MAPPING_INDICES
        invariant sentinel == EEPROM_SENTINEL
        invariant forall j :: 0 <= j < i ==> index[j] == Range(NO_KEY, old(index[j]).end)
        invariant forall j :: i <= j < NUM_KEY_MAPPING_INDICES ==> index[j] == old(index[j])
      {
        index[i] := Range(NO_KEY, index[i].end);
      }
      assert index[..] == ResetFullySpec(old(Contents()), cfg.defaults).index;
      ResetDefaults();
    }

    /**
     * The index pass of Eeprom_DeleteLayout: empty entry `num`, shift every
     * range that starts after its end down by `length` (8-bit arithmetic)
     * and return the largest end among them, or the removed end itself.
     */
    method ShiftIndex(num: nat, length: byte) returns (maxEnd: byte)
      requires Valid() && num < NUM_KEY_MAPPING_INDICES
      modifies index
      ensures index[..] == DeleteIndex(old(index[..]), num, length)
      ensures maxEnd == MaxEndAfter(old(index[..])[num := Range(NO_KEY, old(index[num]).end)], old(index[num]).end)
    {
      var r := index[num];
      index[num] := Range(NO_KEY, r.end);
      ghost var cleared := index[..];
      ghost var di := DeleteIndex(old(index[..]), num, length);
      maxEnd := r.end;
      for i := 0 to NUM_KEY_MAPPING_INDICES
        invariant maxEnd == MaxEndAfter(cleared[..i], r.end)
        invariant forall j :: 0 <= j < i ==> index[j] == di[j]
        invariant forall j :: i <= j < NUM_KEY_MAPPING_INDICES ==> index[j] == cleared[j]
      {
        ShiftIndexStep(old(index[..]), num, length, i);
        var e := index[i];
        if e.start != NO_KEY && e.start > r.end {
          if e.end > maxEnd {
            maxEnd := e.end;
          }
          index[i] := ShiftDown(e, length);
        }
      }
      assert cleared[..NUM_KEY_MAPPING_INDICES] == cleared;
      assert index[..] == di;
    }

    /** The data pass of Eeprom_DeleteLayout: move positions `from .. to` down by `length`. */
    method MoveData(from: nat, to: nat, length: byte)
      requires Valid() && to < buffer.Length && from <= to + 1
      modifies buffer
      ensures buffer[..] == MoveDown(old(buffer[..]), from, to, length)
    {
      ghost var b0 := buffer[..];
      for i := from to to + 1
        invariant buffer[..] == MoveDown(b0, from, i - 1, length)
      {
        assert buffer[i] == b0[i];
        // A target below position 0 lies outside the buffer; see MoveDown.
        if length <= i {
          buffer[i - length] := buffer[i];
        }
        assert buffer[..] == MoveDown(b0, from, i, length);
      }
    }

    /**
     * The body of Eeprom_DeleteLayout once layout `num` is known to exist,
     * with the length it removes as a parameter.
     */
    method RemoveRange(num: nat, length: byte)
      requires Valid() && InBounds(Contents(), cfg.numLogicalKeys)
      requires num < NUM_KEY_MAPPING_INDICES && Occupied(index[num])
      modifies index, buffer
      ensures Valid() && Contents() == DeleteSpec(old(Contents()), num, length)
    {
      var r := index[num];
      MaxEndAfterIsEnd(index[..][num := Range(NO_KEY, r.end)], r.end);
      var maxEnd := ShiftIndex(num, length);
      MoveData(r.end + 1, maxEnd, length);
    }

    /**
     * Eeprom_DeleteLayout with the removed length corrected to the number of
     * pairs in the range: "No such layout" for an index out of range or an
     * empty entry (nothing changes), otherwise the layout is removed.
     */
    method DeleteLayoutCorrected(num: byte) returns (st: Status)
      requires Valid() && Wf(Contents(), cfg.numLogicalKeys)
      modifies index, buffer
      ensures Valid()
      ensures st == (if num < NUM_KEY_MAPPING_INDICES && Occupied(old(index[num])) then Ok else NoSuchLayout)
      ensures st == Ok ==> Contents() == DeleteSpec(old(Contents()), num, RangeLength(old(index[num])))
      ensures st != Ok ==> Contents() == old(Contents())
    {
      if num >= NUM_KEY_MAPPING_INDICES {
        return NoSuchLayout;
      }
      var r := index[num];
      if r.start == NO_KEY {
        return NoSuchLayout;
      }
      assert InBounds(Contents(), cfg.numLogicalKeys);
      RemoveRange(num, RangeLength(r));
      st := Ok;
    }

    /**
     * Eeprom_DeleteLayout as written: the removed length is computed as
     * `start - end + 1` in 8 bits, which is right only for one-pair layouts.
     */
    method DeleteLayout(num: byte) returns (st: Status)
      requires Valid() && Wf(Contents(), cfg.numLogicalKeys)
      modifies index, buffer
      ensures Valid()
      ensures st == (if num < NUM_KEY_MAPPING_INDICES && Occupied(old(index[num])) then Ok else NoSuchLayout)
      ensures st == Ok ==> Contents() == DeleteSpec(old(Contents()), num, AsWrittenLength(old(index[num])))
      ensures st != Ok ==> Contents() == old(Contents())
    {
      if num >= NUM_KEY_MAPPING_INDICES {
        return NoSuchLayout;
      }
      var r := index[num];
      if r.start == NO_KEY {
        return NoSuchLayout;
      }
      assert InBounds(Contents(), cfg.numLogicalKeys);
      RemoveRange(num, AsWrittenLength(r));
      st := Ok;
    }

    /** The largest occupied end in the index (the "find last offset" scan). */
    method LastOffset() returns (oldEnd: byte)
      requires Valid()
      ensures oldEnd == LastEnd(index[..])
    {
      oldEnd := 0;
      for i := 0 to NUM_KEY_MAPPING_INDICES
        invariant oldEnd == LastEnd(index[..i])
      {
        assert index[..i + 1][..i] == index[..i];
        var e := index[i];
        if e.start == NO_KEY {
          continue;
        }
        if e.end > oldEnd {
          oldEnd := e.end;
        }
      }
      assert index[..NUM_KEY_MAPPING_INDICES] == index[..];
    }

    /**
     * The write pass of Eeprom_SaveLayout: from `start` on, write the pair of
     * every logical key whose live code differs from its default, failing
     * when another pair is due once the cursor has reached 127. On success
     * the cursor is one past the last pair written.
     */
    method WriteDiffs(start: byte) returns (fits: bool, cursor: byte)
      requires Valid() && start <= LAST_USABLE + 1
      modifies buffer
      ensures buffer[..] == WriteFrom(old(buffer[..]), start, Diffs(live[..], cfg.defaults))
      ensures fits <==> start + |Diffs(live[..], cfg.defaults)| <= LAST_USABLE + 1
      ensures fits ==> cursor == start + |Diffs(live[..], cfg.defaults)|
    {
      ghost var b0 := buffer[..];
      ghost var es := Diffs(live[..], cfg.defaults);
      cursor := start;
      for l := 0 to cfg.numLogicalKeys
        invariant cursor == start + |Diffs(live[..l], cfg.defaults[..l])| <= LAST_USABLE + 1
        invariant buffer[..] == WriteFrom(b0, start, Diffs(live[..l], cfg.defaults[..l]))
      {
        DiffsStep(live[..], cfg.defaults, l);
        DiffsPrefix(live[..], cfg.defaults, l + 1);
        var p := Diffs(live[..l], cfg.defaults[..l]);
        var h := live[l];
        if h != cfg.defaults[l] {
          if cursor >= SAVED_KEY_MAPPINGS_BUFFER_SIZE - 1 {
            DiffsPrefix(live[..], cfg.defaults, l);
            WriteFromSaturated(b0, start, p, es);
            return false, cursor;
          }
          WriteFromStep(b0, start, p, Entry(l, h));
          buffer[cursor] := Entry(l, h);
          cursor := cursor + 1;
        }
      }
      assert live[..cfg.numLogicalKeys] == live[..] && cfg.defaults[..cfg.numLogicalKeys] == cfg.defaults;
      fits := true;
    }

    /**
     * Eeprom_SaveLayout: delete the layout, then write the diff of the live
     * map from one past the largest occupied end and record its range.
     */
    method SaveLayout(num: byte) returns (st: Status)
      requires Valid() && Wf(Contents(), cfg.numLogicalKeys)
      modifies index, buffer
      ensures Valid() && (Contents(), st) == SaveSpec(old(Contents()), num, cfg.defaults)
    {
      if num >= NUM_KEY_MAPPING_INDICES {
        return NoSuchLayout;
      }
      var _ := DeleteLayoutCorrected(num);
      assert Contents() == ClearForSave(old(Contents()), num);
      ClearForSaveEffect(old(Contents()), cfg, num);
      st := WriteLayout(num);
    }

    /**
     * The rest of Eeprom_SaveLayout once the old layout is gone: write the
     * diff of the live map from one past the largest occupied end and record
     * its range.
     */
    method WriteLayout(num: byte) returns (st: Status)
      requires Valid() && InBounds(Contents(), cfg.numLogicalKeys) && num < NUM_KEY_MAPPING_INDICES
      modifies index, buffer
      ensures Valid() && (Contents(), st) == SaveInto(old(Contents()), num, cfg.defaults)
    {
      var oldEnd := LastOffset();
      LastEndBound(Contents(), cfg.numLogicalKeys);
      var start: byte := oldEnd + 1;
      var fits, cursor := WriteDiffs(start);
      if !fits {
        return OutOfSpace;
      }
      if start != cursor {
        index[num] := Range(start, cursor - 1);
        st := Ok;
      } else {
        WriteFromNothing(old(buffer[..]), start);
        st := NoChanges;
      }
    }

    /**
     * Eeprom_LoadLayout: one pass over the logical keys, merging the
     * layout's ascending pairs with the default map.
     */
    method LoadLayout(num: byte) returns (st: Status)
      requires Valid() && Wf(Contents(), cfg.numLogicalKeys)
      modifies live
      ensures Valid() && (Contents(), st) == LoadSpec(old(Contents()), num, cfg.defaults)
    {
      if num >= NUM_KEY_MAPPING_INDICES {
        return NoSuchLayout;
      }
      var start := index[num].start;
      if start == NO_KEY {
        return NoSuchLayout;
      }
      var end := index[num].end;
      ghost var es := Stored(Contents(), num);
      assert es == buffer[start..end + 1];
      assert SortedDiff(es, cfg.numLogicalKeys);
      MergePairs(start, end, es);
      st := Ok;
    }

    /**
     * The loop of Eeprom_LoadLayout over the logical keys: a cursor walks the
     * ascending pairs `buffer[start..end]`, and each key gets the code of its
     * pair or, when the cursor's key differs, its default.
     */
    method MergePairs(start: byte, end: byte, ghost es: seq<Entry>)
      requires Valid() && start <= end < buffer.Length
      requires es == buffer[start..end + 1] && SortedDiff(es, cfg.numLogicalKeys)
      modifies live
      ensures live[..] == LoadMap(es, cfg.defaults)
    {
      var offset := start;
      var next := buffer[offset];
      offset := offset + 1;
      for lkey := 0 to cfg.numLogicalKeys
        invariant start < offset <= end + 1
        invariant next == es[offset - start - 1]
        invariant offset - start == |es| || next.lKey >= lkey
        invariant forall q :: 0 <= q < offset - start - 1 ==> es[q].lKey < lkey
        invariant forall l :: 0 <= l < lkey ==> live[l] == Lookup(es, l, cfg.defaults[l])
      {
        if lkey != next.lKey {
          CursorMisses(es, offset - start - 1, lkey, cfg.defaults[lkey]);
          live[lkey] := cfg.defaults[lkey];
        } else {
          LookupFinds(es, offset - start - 1, cfg.defaults[lkey]);
          live[lkey] := next.hKey;
          if offset <= end {
            next := buffer[offset];
            offset := offset + 1;
          }
        }
      }
      assert live[..] == LoadMap(es, cfg.defaults);
    }

    /** Eeprom_Init: a full reset exactly when the sentinel is missing. */
    method Init()
      requires Valid()
      modifies this, index, live
      ensures Valid() && Contents() == InitSpec(old(Contents()), cfg.defaults)
    {
      if sentinel != EEPROM_SENTINEL {
        ResetFully();
      }
    }
  }

  /** A key the load cursor does not sit on, with every earlier pair below it and every later one above it, gets its default. */
  lemma CursorMisses(es: seq<Entry>, i: nat, l: int, dflt: byte)
    requires i < |es| && forall a, b :: 0 <= a < b < |es| ==> es[a].lKey < es[b].lKey
    requires forall q :: 0 <= q < i ==> es[q].lKey < l
    requires es[i].lKey != l && (i + 1 == |es| || es[i].lKey >= l)
    ensures Lookup(es, l, dflt) == dflt
  {
    forall q | 0 <= q < |es| ensures es[q].lKey != l {
      if q > i {
        assert es[i].lKey < es[q].lKey;
      }
    }
    LookupMisses(es, l, dflt);
  }

  /** One iteration of ShiftIndex's loop: the running maximum and the entry it rewrites. */
  lemma ShiftIndexStep(index: seq<Range>, num: nat, length: byte, i: nat)
    requires num < |index| && i < |index|
    ensures var end := index[num].end;
      var cleared := index[num := Range(NO_KEY, end)];
      var m := MaxEndAfter(cleared[..i], end);
      && MaxEndAfter(cleared[..i + 1], end)
         == (if Occupied(cleared[i]) && cleared[i].start > end && cleared[i].end > m then cleared[i].end else m)
      && DeleteIndex(index, num, length)[i]
         == (if Occupied(cleared[i]) && cleared[i].start > end
             then ShiftDown(cleared[i], length)
             else cleared[i])
  {
    var cleared := index[num := Range(NO_KEY, index[num].end)];
    assert cleared[..i + 1][..i] == cleared[..i];
  }
}
