/**
 Block::Iter of table/block.cc over a finished block: a cursor on the entries that were added, under any mix
 of moves, with a binary search over the restart points for Seek.
 */
module BlockIteration {
  import opened ByteStrings
  import opened Comparators
  import opened BlockFormat
  import opened BlockBuilding

  lemma EndIsLength(l: Layout, data: Bytes)
    requires WellFormed(l, data)
    ensures l.starts[|l.entries|] == |data|
  {
  }

  lemma OnlyEndIsEnd(l: Layout, data: Bytes, k: nat)
    requires WellFormed(l, data) && k <= |l.entries|
    ensures l.starts[k] <= |data|
    ensures l.starts[k] < |data| <==> k < |l.entries|
  {
    StartsOrder(l, data, k, |l.entries|);
  }

  lemma RestartSharesNothing(l: Layout, data: Bytes, r: nat)
    requires WellFormed(l, data) && r < |l.firsts|
    ensures l.firsts[r] < |l.entries| ==> l.shares[l.firsts[r]] == 0
  {
    assert RestartAt(l, data, r);
  }

  lemma EntriesFirst(l: Layout, data: Bytes, contents: Bytes, o: nat)
    requires Finished(l, data, contents) && o <= |data|
    ensures |data| <= |contents| && contents[..|data|] == data && contents[o..|data|] == data[o..]
  {
    hide WellFormed;
  }

  lemma SplitAt(key: Bytes, n: nat)
    requires n <= |key|
    ensures key[..n] + key[n..] == key
  {
  }

  // Where the pieces of entry k end up.
  lemma EntryPieces(l: Layout, data: Bytes, k: nat, header: Header)
    requires WellFormed(l, data) && k < |l.entries|
    requires header == DecodeEntry(InputAt(l, data, k))
    ensures l.starts[k] < l.starts[k + 1] <= |data| && l.shares[k] <= |l.entries[k].key|
    ensures header.Header? && header.shared == l.shares[k] && header.nonShared <= |header.rest| <= |data|
    ensures header.rest[..header.nonShared] == l.entries[k].key[l.shares[k]..]
    ensures |data| - |header.rest| + header.nonShared + header.valueLength == l.starts[k + 1]
    ensures header.valueLength == |l.entries[k].value| <= l.starts[k + 1]
    ensures data[l.starts[k + 1] - header.valueLength..l.starts[k + 1]] == l.entries[k].value
  {
    hide DecodeEntry, WellFormed;
    EntryParses(l, data, k);
    var e := l.entries[k];
    var tail := data[l.starts[k + 1]..];
    assert header.rest == e.key[l.shares[k]..] + e.value + tail;
    assert header.rest[..header.nonShared] == e.key[l.shares[k]..];
    RestIsEnd(l, data, k, header);
    assert data[|data| - |header.rest|..] == header.rest;
    assert data[l.starts[k + 1] - |e.value|..l.starts[k + 1]] == header.rest[header.nonShared..header.nonShared + |e.value|];
  }

  lemma LastRestart(l: Layout, data: Bytes)
    requires WellFormed(l, data)
    ensures l.entries != [] ==> l.firsts[|l.firsts| - 1] < |l.entries|
    ensures l.firsts[|l.firsts| - 1] <= |l.entries|
  {
    FirstInRange(l, data, |l.firsts| - 1);
  }

  lemma FirstPointIsZero(l: Layout, data: Bytes, p: nat)
    requires WellFormed(l, data) && p < |l.entries|
    ensures Point(l, data, 0) == 0
    ensures l.starts[p] == 0 <==> p == 0
  {
    StartsOrder(l, data, 0, p);
  }

  // The key at a restart point is written in full.
  lemma RestartKey(l: Layout, data: Bytes, contents: Bytes, r: nat)
    requires Finished(l, data, contents) && 0 < r < |l.firsts|
    ensures Point(l, data, r) <= |data| <= |contents| && l.firsts[r] < |l.entries|
    ensures var header := DecodeEntry(contents[Point(l, data, r)..|data|]);
            && header.Header? && header.shared == 0 && header.nonShared <= |header.rest|
            && header.rest[..header.nonShared] == l.entries[l.firsts[r]].key
  {
    hide DecodeEntry;
    assert RestartAt(l, data, r);
    FirstInRange(l, data, r);
    var k := l.firsts[r];
    PointInData(l, data, r);
    EntriesFirst(l, data, contents, Point(l, data, r));
    EntryPieces(l, data, k, DecodeEntry(InputAt(l, data, k)));
    assert l.entries[k].key[0..] == l.entries[k].key;
  }

  // All entries before restart point r come before the target when that restart point does.
  lemma AllBefore(cmp: Comparator, l: Layout, data: Bytes, r: nat, target: Bytes)
    requires cmp.Ordered() && WellFormed(l, data) && Increasing(cmp, l.entries) && r < |l.firsts|
    requires r > 0 ==> l.firsts[r] < |l.entries| && cmp.less(l.entries[l.firsts[r]].key, target)
    ensures l.firsts[r] <= |l.entries|
    ensures forall i | 0 <= i < l.firsts[r] :: cmp.less(l.entries[i].key, target)
  {
    FirstInRange(l, data, r);
  }

  class Iter {
    const cmp: Comparator   // the comparator
    const contents: Bytes
    const restarts: nat         // offset of the restart array
    const numRestarts: nat
    var current: nat
    var restartIndex: nat
    var key: Bytes
    var valueAt: nat            // value_, as a range of the contents
    var valueLength: nat
    var corrupt: bool

    ghost const layout: Layout
    ghost const data: Bytes
    ghost var pos: nat          // the entry the cursor is on, or the number of entries when it is on none

    ghost predicate Fixed() {
      && Finished(layout, data, contents)
      && Increasing(cmp, layout.entries) && cmp.Ordered()
      && restarts == |data| && numRestarts == |layout.firsts|
    }

    // The restart index is that of the region of offset o, or of the one before when o starts a region.
    ghost predicate Region(o: nat)
      requires Fixed()
      reads this`restartIndex
    {
      && restartIndex < numRestarts
      && Point(layout, data, restartIndex) <= o
      && (restartIndex + 1 < numRestarts ==> o <= Point(layout, data, restartIndex + 1))
    }

    ghost predicate OnEntry(k: nat)
      requires Fixed()
      reads this`current, this`restartIndex, this`key, this`valueAt, this`valueLength
    {
      && k < |layout.entries|
      && current == layout.starts[k]
      && key == layout.entries[k].key
      && valueAt + valueLength == layout.starts[k + 1] <= |data|
      && data[valueAt..valueAt + valueLength] == layout.entries[k].value
      && Region(current)
    }

    ghost predicate Good()
      reads this`current, this`restartIndex, this`key, this`valueAt, this`valueLength, this`corrupt, this`pos
    {
      && Fixed()
      && !corrupt && pos <= |layout.entries|
      && if pos < |layout.entries| then OnEntry(pos) else current == restarts && restartIndex == numRestarts
    }

    predicate Valid()
      reads this`current
    {
      current < restarts
    }

    // key() and value() of a valid cursor.
    lemma CurrentEntry()
      requires Good()
      ensures Valid() <==> pos < |layout.entries|
      ensures pos <= |layout.entries|
      ensures Valid() ==> key == layout.entries[pos].key
      ensures Valid() ==> valueAt + valueLength <= |contents|
      ensures Valid() ==> contents[valueAt..valueAt + valueLength] == layout.entries[pos].value
    {
      hide WellFormed, Increasing;
      if pos < |layout.entries| {
        StartsIncrease(layout, data, pos, |layout.entries|);
        EndIsLength(layout, data);
        assert contents[valueAt..valueAt + valueLength] == data[valueAt..valueAt + valueLength];
      }
    }

    lemma AtEntry()
      requires Good() && pos < |layout.entries|
      ensures current == layout.starts[pos] && Region(current)
    {
    }

    constructor (cmp: Comparator, contents: Bytes, restarts: nat, numRestarts: nat,
                 ghost layout: Layout, ghost data: Bytes)
      requires Finished(layout, data, contents) && Increasing(cmp, layout.entries) && cmp.Ordered()
      requires OpenBlock(contents) == Open(restarts, numRestarts)
      ensures Good() && !Valid() && this.layout == layout && this.cmp == cmp
    {
      hide WellFormed, Increasing;
      this.cmp, this.contents, this.restarts, this.numRestarts := cmp, contents, restarts, numRestarts;
      this.layout, this.data, pos := layout, data, |layout.entries|;
      current, restartIndex, key, valueAt, valueLength, corrupt := restarts, numRestarts, [], 0, 0, false;
      OpensAtRestarts(layout, data, contents);
    }

    function NextEntryOffset(): nat
      reads this`valueAt, this`valueLength
    {
      valueAt + valueLength
    }

    method GetRestartPoint(index: nat) returns (offset: nat)
      requires Fixed() && index < numRestarts
      ensures offset == Point(layout, data, index) <= |data|
    {
      hide WellFormed, Increasing;
      RestartReadsBack(layout, data, index);
      PointInData(layout, data, index);
      offset := DecodeFixed32(contents[restarts + 4 * index..]);
    }

    // About to parse entry k: the value ends where it starts, and the key holds the bytes it shares.
    ghost predicate Before(k: nat)
      requires Fixed()
      reads this`restartIndex, this`key, this`valueAt, this`valueLength
    {
      && k <= |layout.entries|
      && NextEntryOffset() == layout.starts[k]
      && restartIndex < numRestarts
      && Point(layout, data, restartIndex) <= layout.starts[k]
      && (k < |layout.entries| ==>
            && layout.shares[k] <= |key| && layout.shares[k] <= |layout.entries[k].key|
            && key[..layout.shares[k]] == layout.entries[k].key[..layout.shares[k]])
    }

    lemma OnEntryIsBefore(k: nat)
      requires Fixed() && OnEntry(k)
      ensures Before(k + 1)
    {
      StartsOrder(layout, data, k, k + 1);
      if k + 1 < |layout.entries| {
        assert EntryAt(layout, data, k + 1);
      }
    }

    method SeekToRestartPoint(index: nat)
      requires Fixed() && index < numRestarts
      modifies this`key, this`restartIndex, this`valueAt, this`valueLength
      ensures layout.firsts[index] <= |layout.entries| && Before(layout.firsts[index])
    {
      hide Increasing, WellFormed;
      key := [];
      restartIndex := index;
      var offset := GetRestartPoint(index);
      valueAt, valueLength := offset, 0;
      FirstInRange(layout, data, index);
      RestartSharesNothing(layout, data, index);
    }

    method CorruptionError()
      modifies this`current, this`restartIndex, this`corrupt, this`key, this`valueAt, this`valueLength
      ensures corrupt && current == restarts && restartIndex == numRestarts
    {
      current := restarts;
      restartIndex := numRestarts;
      corrupt := true;
      key, valueAt, valueLength := [], 0, 0;
    }

    // The end of ParseNextKey: on to the restart region of the current entry.
    method AdvanceRestartIndex()
      requires Fixed() && restartIndex < numRestarts && Point(layout, data, restartIndex) <= current
      modifies this`restartIndex
      ensures Region(current)
    {
      hide Increasing, WellFormed;
      while restartIndex + 1 < numRestarts
        invariant restartIndex < numRestarts && Point(layout, data, restartIndex) <= current
      {
        var next := GetRestartPoint(restartIndex + 1);
        if next >= current {
          break;
        }
        restartIndex := restartIndex + 1;
      }
    }

    method ParseNextKey(ghost k: nat) returns (ok: bool)
      requires Fixed() && Before(k) && !corrupt
      modifies this`current, this`restartIndex, this`corrupt, this`key, this`valueAt, this`valueLength, this`pos
      ensures Good() && pos == k && ok == (k < |layout.entries|)
      ensures ok ==> NextEntryOffset() == layout.starts[k + 1]
    {
      hide Increasing, WellFormed, DecodeEntry, EntryBytes;
      current := NextEntryOffset();
      pos := k;
      OnlyEndIsEnd(layout, data, k);
      if current >= restarts {
        current := restarts;
        restartIndex := numRestarts;
        return false;
      }
      EntriesFirst(layout, data, contents, current);
      var header := DecodeEntry(contents[current..restarts]);
      if header.BadEntry? || |key| < header.shared {
        CorruptionError();
        ok := false;
        EntryPieces(layout, data, k, header);
        assert false;
      } else {
        EntryPieces(layout, data, k, header);
        SplitAt(layout.entries[k].key, layout.shares[k]);
        key := key[..header.shared];
        key := key + header.rest[..header.nonShared];
        valueAt, valueLength := restarts - |header.rest| + header.nonShared, header.valueLength;
        AdvanceRestartIndex();
        ok := true;
      }
    }

    method Next()
      requires Good() && Valid()
      modifies this
      ensures Good() && pos == old(pos) + 1
    {
      hide WellFormed, Increasing;
      CurrentEntry();
      OnEntryIsBefore(pos);
      var _ := ParseNextKey(pos + 1);
    }

    method SeekToFirst()
      requires Good()
      modifies this
      ensures Good() && pos == 0
    {
      hide WellFormed, Increasing, OnEntry;
      SeekToRestartPoint(0);
      var _ := ParseNextKey(0);
    }

    method SeekToLast()
      requires Good()
      modifies this
      ensures Good() && pos == if layout.entries == [] then 0 else |layout.entries| - 1
    {
      hide WellFormed, Increasing, OnEntry;
      SeekToRestartPoint(numRestarts - 1);
      ghost var k := layout.firsts[numRestarts - 1];
      var ok := ParseNextKey(k);
      LastRestart(layout, data);
      while ok && NextEntryOffset() < restarts
        invariant Good() && pos == k && ok == (k < |layout.entries|)
        invariant ok ==> NextEntryOffset() == layout.starts[k + 1]
        invariant k == |layout.entries| ==> layout.entries == []
        decreases |layout.entries| - k
      {
        OnlyEndIsEnd(layout, data, k + 1);
        OnEntryIsBefore(k);
        k := k + 1;
        ok := ParseNextKey(k);
      }
      if ok {
        OnlyEndIsEnd(layout, data, k + 1);
      }
    }

    // The entry before, found by parsing forward from a restart point before the current entry.
    method Prev()
      requires Good() && Valid()
      modifies this
      ensures Good() && pos == if old(pos) == 0 then |layout.entries| else old(pos) - 1
    {
      hide WellFormed, Increasing, OnEntry;
      CurrentEntry();
      var original := current;
      ghost var p := pos;
      AtEntry();
      var point := GetRestartPoint(restartIndex);
      while point >= original
        invariant Fixed() && !corrupt && restartIndex < numRestarts && point == Point(layout, data, restartIndex)
        decreases restartIndex
      {
        if restartIndex == 0 {
          FirstPointIsZero(layout, data, p);
          current := restarts;
          restartIndex := numRestarts;
          pos := |layout.entries|;
          return;
        }
        restartIndex := restartIndex - 1;
        point := GetRestartPoint(restartIndex);
      }
      ghost var k := layout.firsts[restartIndex];
      SeekToRestartPoint(restartIndex);
      StartsOrder(layout, data, k, p);
      var ok := ParseNextKey(k);
      while ok && NextEntryOffset() < original
        invariant Good() && pos == k < p && ok && NextEntryOffset() == layout.starts[k + 1]
        decreases p - k
      {
        StartsOrder(layout, data, k + 1, p);
        OnEntryIsBefore(k);
        k := k + 1;
        ok := ParseNextKey(k);
      }
      StartsOrder(layout, data, k + 1, p);
    }

    // The first entry whose key is not before the target.
    method Seek(target: Bytes)
      requires Good()
      modifies this
      ensures Good()
      ensures forall i | 0 <= i < pos :: cmp.less(layout.entries[i].key, target)
      ensures pos < |layout.entries| ==> !cmp.less(layout.entries[pos].key, target)
    {
      hide WellFormed, Increasing, OnEntry, DecodeEntry;
      var left, right := 0, numRestarts - 1;
      while left < right
        invariant 0 <= left <= right < numRestarts && Good()
        invariant left > 0 ==> layout.firsts[left] < |layout.entries|
        invariant left > 0 ==> cmp.less(layout.entries[layout.firsts[left]].key, target)
      {
        var mid := (left + right + 1) / 2;
        var regionOffset := GetRestartPoint(mid);
        var header := DecodeEntry(contents[regionOffset..restarts]);
        if header.BadEntry? || header.shared != 0 {
          CorruptionError();
          RestartKey(layout, data, contents, mid);
          assert false;
        } else {
          RestartKey(layout, data, contents, mid);
          var midKey := header.rest[..header.nonShared];
          if cmp.less(midKey, target) {
            left := mid;
          } else {
            right := mid - 1;
          }
        }
      }
      SeekToRestartPoint(left);
      ghost var k := layout.firsts[left];
      AllBefore(cmp, layout, data, left, target);
      while true
        invariant Fixed() && !corrupt && Before(k)
        invariant forall i | 0 <= i < k :: cmp.less(layout.entries[i].key, target)
        decreases |layout.entries| - k
      {
        var ok := ParseNextKey(k);
        if !ok {
          return;
        }
        CurrentEntry();
        if !cmp.less(key, target) {
          return;
        }
        OnEntryIsBefore(k);
        k := k + 1;
      }
    }
  }
}
