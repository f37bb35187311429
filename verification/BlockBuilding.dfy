/**
 BlockBuilder of table/block_builder.cc. Below 4 GB, where offsets fit in 32 bits, what it writes is a
 well-formed layout of exactly the entries added, with a restart point at every interval-th of them.
 */
module BlockBuilding {
  import opened ByteStrings
  import opened Comparators
  import opened BlockFormat

  // Keys in the strictly increasing order of the comparator.
  ghost predicate Increasing(cmp: Comparator, entries: seq<KeyValue>) {
    forall i, j | 0 <= i < j < |entries| :: cmp.less(entries[i].key, entries[j].key)
  }

  // The layout with one more entry, which may start a restart region.
  function Extend(l: Layout, end: nat, shared: nat, entry: KeyValue, restart: bool): Layout {
    Layout(l.entries + [entry], l.shares + [shared], l.starts + [end],
           if restart then l.firsts + [|l.entries|] else l.firsts)
  }

  lemma ExtendIsWellFormed(l: Layout, data: Bytes, shared: nat, entry: KeyValue, restart: bool)
    requires WellFormed(l, data)
    requires shared <= |entry.key| && shared <= |KeyBefore(l, |l.entries|)|
    requires entry.key[..shared] == KeyBefore(l, |l.entries|)[..shared]
    requires restart ==> shared == 0 && l.entries != []
    requires |data + EntryBytes(shared, entry)| < LIMIT
    ensures var data' := data + EntryBytes(shared, entry);
            var l' := Extend(l, |data'|, shared, entry, restart);
            && WellFormed(l', data')
            && Points(l', data') == if restart then Points(l, data) + [|data|] else Points(l, data)
  {
    hide EncodeVarint;
    var data' := data + EntryBytes(shared, entry);
    var l' := Extend(l, |data'|, shared, entry, restart);
    assert |EntryBytes(shared, entry)| > 0;
    var n := |l.entries|;
    forall i: nat | i < |l'.entries|
      ensures EntryAt(l', data', i)
    {
      if i < n {
        assert EntryAt(l, data, i);
        assert data'[l.starts[i]..l.starts[i + 1]] == data[l.starts[i]..l.starts[i + 1]];
      } else {
        assert data'[|data|..] == EntryBytes(shared, entry);
      }
    }
    forall r: nat | r < |l'.firsts|
      ensures RestartAt(l', data', r)
    {
      if r < |l.firsts| {
        assert RestartAt(l, data, r);
        FirstInRange(l, data, r);
      } else {
        FirstInRange(l, data, r - 1);
      }
    }
    SamePoints(l, data, l', data');
  }

  lemma SamePoints(l: Layout, data: Bytes, l': Layout, data': Bytes)
    requires WellFormed(l, data) && WellFormed(l', data')
    requires l.firsts <= l'.firsts && l.starts <= l'.starts
    requires |l'.firsts| == |l.firsts| || (l'.firsts == l.firsts + [|l.entries|])
    ensures Points(l', data') == if |l'.firsts| == |l.firsts| then Points(l, data) else Points(l, data) + [|data|]
  {
    forall r: nat | r < |l.firsts|
      ensures Point(l', data', r) == Point(l, data, r)
    {
      FirstInRange(l, data, r);
    }
  }

  // What a builder's fields stand for. Beyond 4 GB the written offsets and lengths are cut off.
  ghost predicate Builds(cmp: Comparator, interval: nat, l: Layout, buffer: Bytes, restarts: seq<Word>,
                         counter: nat, lastKey: Bytes)
  {
    && cmp.Ordered() && interval >= 1 && counter <= interval
    && |l.firsts| >= 1
    && |l.entries| == l.firsts[|l.firsts| - 1] + counter
    && (forall r | 1 <= r < |l.firsts| :: l.firsts[r] == l.firsts[r - 1] + interval)
    && lastKey == KeyBefore(l, |l.entries|)
    && Increasing(cmp, l.entries)
    && (buffer == [] <==> l.entries == [])
    && (|buffer| < LIMIT ==> WellFormed(l, buffer) && restarts == Points(l, buffer))
  }

  lemma SharedFits(l: Layout, data: Bytes, shared: nat)
    requires WellFormed(l, data) && shared <= |KeyBefore(l, |l.entries|)|
    ensures shared < LIMIT
  {
    if l.entries != [] {
      KeyFits(l, data, |l.entries| - 1);
    }
  }

  lemma NothingCut(entry: KeyValue, shared: nat, written: Bytes)
    requires shared <= |entry.key| && shared < LIMIT && |written| < LIMIT
    requires written == EncodeVarint(shared % LIMIT) + EncodeVarint((|entry.key| - shared) % LIMIT)
                      + EncodeVarint(|entry.value| % LIMIT) + entry.key[shared..] + entry.value
    ensures written == EntryBytes(shared, entry)
  {
    hide EncodeVarint;
    assert |written| >= |entry.key| - shared + |entry.value|;
  }

  lemma BuildsMore(cmp: Comparator, interval: nat, l: Layout, buffer: Bytes, restarts: seq<Word>,
                   counter: nat, lastKey: Bytes, entry: KeyValue, shared: nat, written: Bytes)
    requires Builds(cmp, interval, l, buffer, restarts, counter, lastKey)
    requires l.entries == [] || cmp.less(lastKey, entry.key)
    requires shared <= |entry.key| && shared <= |lastKey| && entry.key[..shared] == lastKey[..shared]
    requires counter >= interval ==> shared == 0
    requires written == EncodeVarint(shared % LIMIT) + EncodeVarint((|entry.key| - shared) % LIMIT)
                      + EncodeVarint(|entry.value| % LIMIT) + entry.key[shared..] + entry.value
    ensures var restart := counter >= interval;
            Builds(cmp, interval, Extend(l, |buffer + written|, shared, entry, restart), buffer + written,
                   if restart then restarts + [|buffer| % LIMIT] else restarts,
                   if restart then 1 else counter + 1, entry.key)
  {
    hide EncodeVarint, WellFormed, Points;
    var restart := counter >= interval;
    var l' := Extend(l, |buffer + written|, shared, entry, restart);
    if |buffer + written| < LIMIT {
      SharedFits(l, buffer, shared);
      NothingCut(entry, shared, written);
      ExtendIsWellFormed(l, buffer, shared, entry, restart);
      assert |buffer| % LIMIT == |buffer|;
    }
    if l.entries != [] {
      var last := |l.entries| - 1;
      assert forall i | 0 <= i < last :: cmp.less(l.entries[i].key, l.entries[last].key);
    }
  }

  lemma BuildsMeans(cmp: Comparator, interval: nat, l: Layout, buffer: Bytes, restarts: seq<Word>,
                    counter: nat, lastKey: Bytes)
    requires Builds(cmp, interval, l, buffer, restarts, counter, lastKey)
    ensures interval >= 1 && counter <= interval
  {
  }

  lemma CountOfPoints(l: Layout, data: Bytes)
    requires WellFormed(l, data)
    ensures |Points(l, data)| == |l.firsts|
  {
  }

  lemma Pieces(a: Bytes, b: Bytes, c: Bytes, d: Bytes, e: Bytes, f: Bytes)
    ensures a + (b + c + d + e + f) == a + b + c + d + e + f
  {
  }

  class BlockBuilder {
    const interval: nat
    const cmp: Comparator
    var buffer: Bytes
    var restarts: seq<Word>
    var counter: nat
    var finished: bool
    var lastKey: Bytes
    ghost var layout: Layout   // where the entries added so far lie

    ghost predicate Good()
      reads this
    {
      !finished && Builds(cmp, interval, layout, buffer, restarts, counter, lastKey)
    }

    constructor (interval: nat, cmp: Comparator)
      requires interval >= 1 && cmp.Ordered()
      ensures Good() && layout.entries == [] && this.interval == interval && this.cmp == cmp
    {
      this.interval, this.cmp := interval, cmp;
      buffer, restarts, counter, finished, lastKey := [], [0], 0, false, [];
      layout := Layout([], [], [0], [0]);
    }

    predicate Empty()
      reads this`buffer
    {
      buffer == []
    }

    lemma EmptyMeans()
      requires Good()
      ensures Empty() <==> layout.entries == []
    {
    }

    function CurrentSizeEstimate(): nat
      reads this`buffer, this`restarts
    {
      |buffer| + 4 * |restarts| + 4
    }

    // What the index block's next key must follow.
    lemma LastKeyMeans()
      requires Good()
      ensures cmp.Ordered() && interval >= 1 && Increasing(cmp, layout.entries)
      ensures layout.entries != [] ==> lastKey == layout.entries[|layout.entries| - 1].key
    {
      hide WellFormed, Points;
    }

    // Back to the state of a new builder.
    method Reset()
      requires interval >= 1 && cmp.Ordered()
      modifies this
      ensures Good() && layout.entries == []
    {
      buffer, restarts, counter, finished, lastKey := [], [0], 0, false, [];
      layout := Layout([], [], [0], [0]);
    }

    method PutEntry(shared: nat, nonShared: nat, key: Bytes, value: Bytes)
      requires shared + nonShared == |key|
      modifies this`buffer
      ensures buffer == old(buffer) + (EncodeVarint(shared % LIMIT) + EncodeVarint(nonShared % LIMIT)
                        + EncodeVarint(|value| % LIMIT) + key[shared..] + value)
    {
      hide EncodeVarint;
      Pieces(buffer, EncodeVarint(shared % LIMIT), EncodeVarint(nonShared % LIMIT), EncodeVarint(|value| % LIMIT),
             key[shared..], value);
      buffer := buffer + EncodeVarint(shared % LIMIT);
      buffer := buffer + EncodeVarint(nonShared % LIMIT);
      buffer := buffer + EncodeVarint(|value| % LIMIT);
      buffer := buffer + key[shared..];
      buffer := buffer + value;
    }

    // The loop of Add that compares the new key with the one before it.
    method SharedPrefix(key: Bytes) returns (shared: nat)
      ensures shared == CommonPrefix(lastKey, key)
    {
      hide CommonPrefix;
      shared := 0;
      var minLength := if |lastKey| < |key| then |lastKey| else |key|;
      while shared < minLength && lastKey[shared] == key[shared]
        invariant shared <= minLength && lastKey[..shared] == key[..shared]
      {
        shared := shared + 1;
      }
      LongestIsCommonPrefix(lastKey, key, shared);
    }

    method Add(key: Bytes, value: Bytes)
      requires Good()
      requires layout.entries == [] || cmp.less(lastKey, key)
      modifies this
      ensures Good() && layout.entries == old(layout.entries) + [KeyValue(key, value)]
      ensures layout.shares == old(layout.shares) + [if old(counter) < interval then CommonPrefix(old(lastKey), key) else 0]
      ensures old(buffer) <= buffer
    {
      hide EncodeVarint, Builds, CommonPrefix;
      var shared: nat := 0;
      ghost var restarts0, counter0 := restarts, counter;
      BuildsMeans(cmp, interval, layout, buffer, restarts, counter, lastKey);
      if counter < interval {
        shared := SharedPrefix(key);
      } else {
        restarts := restarts + [|buffer| % LIMIT];
        counter := 0;
      }
      var nonShared := |key| - shared;
      ghost var written := EncodeVarint(shared % LIMIT) + EncodeVarint(nonShared % LIMIT)
                           + EncodeVarint(|value| % LIMIT) + key[shared..] + value;
      BuildsMore(cmp, interval, layout, buffer, restarts0, counter0, lastKey, KeyValue(key, value), shared, written);
      layout := Extend(layout, |buffer + written|, shared, KeyValue(key, value), counter0 >= interval);
      PutEntry(shared, nonShared, key, value);
      lastKey := lastKey[..shared];
      lastKey := lastKey + key[shared..];
      assert lastKey == key;
      counter := counter + 1;
    }

    // Appends the restart array. The result stays readable until the builder is reset.
    method Finish() returns (block: Bytes)
      requires Good()
      modifies this
      ensures finished && layout == old(layout) && block == buffer == BlockBytes(old(buffer), restarts)
      ensures restarts == old(restarts) && |block| == old(CurrentSizeEstimate())
      ensures |old(buffer)| < LIMIT ==>
                Finished(layout, old(buffer), block) && OpenBlock(block) == Open(|old(buffer)|, |restarts|)
    {
      hide EncodeFixed32, WellFormed, Points, OpenBlock;
      ghost var data := buffer;
      var i := 0;
      while i < |restarts|
        invariant 0 <= i <= |restarts| && buffer == data + FixedArray(restarts[..i])
        invariant restarts == old(restarts) && layout == old(layout)
      {
        assert restarts[..i + 1][..i] == restarts[..i];
        buffer := buffer + EncodeFixed32(restarts[i]);
        i := i + 1;
      }
      assert restarts[..i] == restarts;
      buffer := buffer + EncodeFixed32(|restarts| % LIMIT);
      finished := true;
      block := buffer;
      if |data| < LIMIT {
        OpensAtRestarts(layout, data, block);
        CountOfPoints(layout, data);
      }
    }
  }
}
