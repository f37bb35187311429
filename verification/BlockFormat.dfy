/**
 The prefix-compressed block format of table/block_builder.cc and table/block.cc.
 */
module BlockFormat {
  import opened ByteStrings
  import opened Coding

  datatype KeyValue = KeyValue(key: Bytes, value: Bytes)

  const LIMIT: nat := 0x1_0000_0000

  // One entry whose first shared key bytes are those of the entry before it.
  function EntryBytes(shared: nat, entry: KeyValue): Bytes
    requires shared <= |entry.key|
  {
    EncodeVarint(shared) + EncodeVarint(|entry.key| - shared) + EncodeVarint(|entry.value|)
    + entry.key[shared..] + entry.value
  }

  datatype Header = Header(shared: Word, nonShared: Word, valueLength: Word, rest: Bytes) | BadEntry

  // The slow path of DecodeEntry: three varints.
  function DecodeVarints(input: Bytes): Header {
    match GetVarint32(input)
    case Malformed => BadEntry
    case Parsed(shared, rest1) =>
      match GetVarint32(rest1)
      case Malformed => BadEntry
      case Parsed(nonShared, rest2) =>
        match GetVarint32(rest2)
        case Malformed => BadEntry
        case Parsed(valueLength, rest3) => Header(shared, nonShared, valueLength, rest3)
  }

  // DecodeEntry, on the bytes from the entry up to the restart array. The two lengths are added in 32 bits.
  function DecodeEntry(input: Bytes): Header {
    if |input| < 3 then BadEntry
    else
      var header :=
        if input[0] < 128 && input[1] < 128 && input[2] < 128 then Header(input[0], input[1], input[2], input[3..])
        else DecodeVarints(input);
      if header.BadEntry? then BadEntry
      else if |header.rest| % LIMIT < (header.nonShared + header.valueLength) % LIMIT then BadEntry
      else header
  }

  lemma VarintsBack(a: Word, b: Word, c: Word, rest: Bytes)
    ensures DecodeVarints(EncodeVarint(a) + EncodeVarint(b) + EncodeVarint(c) + rest) == Header(a, b, c, rest)
  {
    hide GetVarint32, EncodeVarint;
    var x, y, z := EncodeVarint(a), EncodeVarint(b), EncodeVarint(c);
    assert x + y + z + rest == x + (y + (z + rest));
    VarintRoundTrip(a, y + (z + rest));
    VarintRoundTrip(b, z + rest);
    VarintRoundTrip(c, rest);
  }

  // When the first bytes are all below 128 the three numbers are those bytes.
  lemma FastPathAgrees(a: Word, b: Word, c: Word, rest: Bytes)
    ensures var input := EncodeVarint(a) + EncodeVarint(b) + EncodeVarint(c) + rest;
            && |input| >= 3
            && (input[0] < 128 && input[1] < 128 && input[2] < 128 ==>
                  a == input[0] && b == input[1] && c == input[2] && rest == input[3..])
  {
    hide EncodeVarint;
    var x, y, z := EncodeVarint(a), EncodeVarint(b), EncodeVarint(c);
    var input := x + y + z + rest;
    assert input == x + (y + (z + rest));
    FirstByteOf(a, y + (z + rest));
    SmallVarint(a);
    SmallVarint(b);
    SmallVarint(c);
    if input[0] < 128 {
      FirstByteOf(b, z + rest);
      assert input[1..] == y + (z + rest);
      if input[1] < 128 {
        FirstByteOf(c, rest);
        assert input[2..] == z + rest;
      }
    }
  }

  lemma SmallVarint(a: nat)
    ensures a < 128 ==> EncodeVarint(a) == [a]
  {
  }

  // DecodeEntry undoes the encoding of an entry.
  lemma EntryBack(shared: nat, entry: KeyValue, rest: Bytes)
    requires shared <= |entry.key| && shared < LIMIT && |entry.key| - shared + |entry.value| + |rest| < LIMIT
    ensures DecodeEntry(EntryBytes(shared, entry) + rest)
         == Header(shared, |entry.key| - shared, |entry.value|, entry.key[shared..] + entry.value + rest)
  {
    hide EncodeVarint, DecodeVarints;
    var a, b, c := shared, |entry.key| - shared, |entry.value|;
    var body := entry.key[shared..] + entry.value + rest;
    var input := EntryBytes(shared, entry) + rest;
    assert input == EncodeVarint(a) + EncodeVarint(b) + EncodeVarint(c) + body;
    VarintsBack(a, b, c, body);
    FastPathAgrees(a, b, c, body);
    assert |body| % LIMIT == |body| && (b + c) % LIMIT == b + c;
  }

  // ---------------------------------------------------------------------------
  // Layout of a block
  // ---------------------------------------------------------------------------

  // Where the entries and the restart points of a block lie: entry i takes the bytes from starts[i] up to
  // starts[i + 1] and repeats shares[i] bytes of the key before it; restart point r is entry firsts[r].
  datatype Layout = Layout(entries: seq<KeyValue>, shares: seq<nat>, starts: seq<nat>, firsts: seq<nat>)

  ghost predicate Shapes(l: Layout, data: Bytes) {
    && |data| < LIMIT
    && |l.shares| == |l.entries| && |l.starts| == |l.entries| + 1 && |l.firsts| >= 1
    && l.starts[0] == 0 && l.starts[|l.entries|] == |data|
    && l.firsts[0] == 0
  }

  // The key an entry is written against.
  function KeyBefore(l: Layout, i: nat): Bytes
    requires i <= |l.entries|
  {
    if i == 0 then [] else l.entries[i - 1].key
  }

  ghost predicate EntryAt(l: Layout, data: Bytes, i: nat)
    requires Shapes(l, data) && i < |l.entries|
  {
    && l.shares[i] <= |l.entries[i].key|
    && l.starts[i] < l.starts[i + 1] <= |data|
    && data[l.starts[i]..l.starts[i + 1]] == EntryBytes(l.shares[i], l.entries[i])
    && l.shares[i] <= |KeyBefore(l, i)|
    && l.entries[i].key[..l.shares[i]] == KeyBefore(l, i)[..l.shares[i]]
  }

  ghost predicate RestartAt(l: Layout, data: Bytes, r: nat)
    requires Shapes(l, data) && r < |l.firsts|
  {
    && (r > 0 ==> l.firsts[r - 1] < l.firsts[r] < |l.entries|)
    && (l.firsts[r] < |l.entries| ==> l.shares[l.firsts[r]] == 0)
  }

  // The bytes before the restart array hold these entries, laid out so.
  ghost predicate WellFormed(l: Layout, data: Bytes): (ok: bool)
    ensures ok ==> Shapes(l, data)
  {
    && Shapes(l, data)
    && (forall i: nat | i < |l.entries| :: EntryAt(l, data, i))
    && (forall r: nat | r < |l.firsts| :: RestartAt(l, data, r))
  }

  lemma {:induction false} FirstInRange(l: Layout, data: Bytes, r: nat)
    requires WellFormed(l, data) && r < |l.firsts|
    ensures r <= l.firsts[r] <= |l.entries|
    ensures l.entries != [] ==> l.firsts[r] < |l.entries|
  {
    assert RestartAt(l, data, r);
    if r > 0 {
      FirstInRange(l, data, r - 1);
    }
  }

  // Restart point r as an offset.
  ghost function Point(l: Layout, data: Bytes, r: nat): nat
    requires WellFormed(l, data) && r < |l.firsts|
  {
    FirstInRange(l, data, r);
    l.starts[l.firsts[r]]
  }

  ghost function Points(l: Layout, data: Bytes): seq<nat>
    requires WellFormed(l, data)
  {
    seq(|l.firsts|, r requires 0 <= r < |l.firsts| => Point(l, data, r))
  }

  lemma {:induction false} StartsIncrease(l: Layout, data: Bytes, i: nat, j: nat)
    requires WellFormed(l, data) && i < j <= |l.entries|
    ensures l.starts[i] < l.starts[j] <= |data| && j <= l.starts[j]
    decreases j
  {
    assert EntryAt(l, data, j - 1);
    if i < j - 1 {
      StartsIncrease(l, data, i, j - 1);
    } else if j - 1 > 0 {
      StartsIncrease(l, data, 0, j - 1);
    }
  }

  // The positions are ordered exactly as the entries.
  lemma StartsOrder(l: Layout, data: Bytes, i: nat, j: nat)
    requires WellFormed(l, data) && i <= |l.entries| && j <= |l.entries|
    ensures l.starts[i] < l.starts[j] <==> i < j
    ensures l.starts[i] <= |data|
  {
    if i < j {
      StartsIncrease(l, data, i, j);
    } else if j < i {
      StartsIncrease(l, data, j, i);
    } else if i > 0 {
      StartsIncrease(l, data, 0, i);
    }
  }

  // There are fewer restart points than bytes, unless the block is empty.
  lemma FewRestarts(l: Layout, data: Bytes)
    requires WellFormed(l, data)
    ensures 1 <= |l.firsts| <= |data| + 1 && |l.firsts| < LIMIT
  {
    var r := |l.firsts| - 1;
    FirstInRange(l, data, r);
    if l.entries != [] {
      StartsIncrease(l, data, 0, |l.entries|);
    }
  }

  // ---------------------------------------------------------------------------
  // The restart array
  // ---------------------------------------------------------------------------

  function FixedArray(points: seq<nat>): (b: Bytes)
    ensures |b| == 4 * |points|
  {
    if points == [] then []
    else FixedArray(points[..|points| - 1]) + EncodeFixed32(points[|points| - 1] % LIMIT)
  }

  // A whole block.
  function BlockBytes(data: Bytes, points: seq<nat>): Bytes {
    data + FixedArray(points) + EncodeFixed32(|points| % LIMIT)
  }

  lemma {:induction false} FixedArrayAt(points: seq<nat>, r: nat, rest: Bytes)
    requires r < |points| && points[r] < LIMIT
    ensures var b := FixedArray(points) + rest;
            4 * r + 4 <= |b| && DecodeFixed32(b[4 * r..]) == points[r]
    decreases |points|
  {
    hide EncodeFixed32, DecodeFixed32;
    var n := |points| - 1;
    var last := EncodeFixed32(points[n] % LIMIT);
    assert FixedArray(points) + rest == FixedArray(points[..n]) + (last + rest);
    if r < n {
      FixedArrayAt(points[..n], r, last + rest);
    } else {
      assert (FixedArray(points) + rest)[4 * r..] == last + rest;
      FixedFront(points[n], rest);
    }
  }

  lemma FixedFront(x: Word, rest: Bytes)
    ensures DecodeFixed32(EncodeFixed32(x) + rest) == x
  {
    Fixed32RoundTrip(x);
  }

  // Block::Block and Block::NewIterator: what is read from the end of the contents.
  datatype Opened = BadContents | NoEntries | Open(restarts: nat, numRestarts: nat)

  function OpenBlock(contents: Bytes): Opened {
    if |contents| < 4 then BadContents
    else
      var numRestarts := DecodeFixed32(contents[|contents| - 4..]);
      if numRestarts > (|contents| - 4) / 4 then BadContents
      else if numRestarts == 0 then NoEntries
      else Open(|contents| - (1 + numRestarts) * 4, numRestarts)
  }

  // The finished block of these entries.
  ghost predicate Finished(l: Layout, data: Bytes, contents: Bytes) {
    WellFormed(l, data) && contents == BlockBytes(data, Points(l, data))
  }

  // A finished block is opened at its restart array, and every restart point reads back.
  lemma OpensAtRestarts(l: Layout, data: Bytes, contents: Bytes)
    requires Finished(l, data, contents)
    ensures OpenBlock(contents) == Open(|data|, |l.firsts|)
  {
    hide WellFormed, EncodeFixed32, DecodeFixed32, FixedArray;
    var points := Points(l, data);
    FewRestarts(l, data);
    assert contents[|contents| - 4..] == EncodeFixed32(|points|) + [];
    FixedFront(|points|, []);
  }

  lemma RestartReadsBack(l: Layout, data: Bytes, r: nat)
    requires WellFormed(l, data) && r < |l.firsts|
    ensures var contents := BlockBytes(data, Points(l, data));
            |data| + 4 * r + 4 <= |contents| && DecodeFixed32(contents[|data| + 4 * r..]) == Point(l, data, r)
  {
    hide WellFormed, EncodeFixed32, DecodeFixed32, FixedArray;
    var points := Points(l, data);
    var contents := BlockBytes(data, points);
    var rest := EncodeFixed32(|points| % LIMIT);
    PointInData(l, data, r);
    FixedArrayAt(points, r, rest);
    assert contents[|data| + 4 * r..] == (FixedArray(points) + rest)[4 * r..];
  }

  lemma PointInData(l: Layout, data: Bytes, r: nat)
    requires WellFormed(l, data) && r < |l.firsts|
    ensures Point(l, data, r) <= |data| < LIMIT
  {
    FirstInRange(l, data, r);
    StartsOrder(l, data, l.firsts[r], 0);
  }

  // A key is no longer than the bytes written for it and for the keys before it.
  lemma {:induction false} KeyFits(l: Layout, data: Bytes, i: nat)
    requires WellFormed(l, data) && i < |l.entries|
    ensures |l.entries[i].key| <= l.starts[i + 1] <= |data|
  {
    hide EncodeVarint;
    assert EntryAt(l, data, i);
    assert |EntryBytes(l.shares[i], l.entries[i])| >= |l.entries[i].key| - l.shares[i];
    if i > 0 {
      KeyFits(l, data, i - 1);
    }
  }

  ghost predicate Reads(h: Header, shared: nat, nonShared: nat, valueLength: nat, rest: Bytes) {
    h.Header? && h.shared == shared && h.nonShared == nonShared && h.valueLength == valueLength && h.rest == rest
  }

  // What stands at the start of entry i, up to the restart array.
  lemma EntryParses(l: Layout, data: Bytes, i: nat)
    requires WellFormed(l, data) && i < |l.entries|
    ensures l.starts[i] < l.starts[i + 1] <= |data| && l.shares[i] <= |l.entries[i].key|
    ensures var e := l.entries[i];
            Reads(DecodeEntry(data[l.starts[i]..]), l.shares[i], |e.key| - l.shares[i], |e.value|,
                  e.key[l.shares[i]..] + e.value + data[l.starts[i + 1]..])
  {
    hide DecodeEntry, EncodeVarint;
    var s, t := l.starts[i], l.starts[i + 1];
    assert EntryAt(l, data, i);
    var e := l.entries[i];
    var rest := data[t..];
    var bytes := EntryBytes(l.shares[i], e);
    assert data[s..] == bytes + rest by {
      assert data[s..] == data[s..t] + rest;
    }
    assert |bytes| >= |e.key| - l.shares[i] + |e.value|;
    KeyFits(l, data, i);
    EntryBack(l.shares[i], e, rest);
  }

  // The input DecodeEntry gets for entry i.
  ghost function InputAt(l: Layout, data: Bytes, i: nat): Bytes
    requires WellFormed(l, data) && i <= |l.entries|
  {
    StartsOrder(l, data, i, i);
    data[l.starts[i]..]
  }

  // The pieces that follow the header are the last of the data.
  lemma RestIsEnd(l: Layout, data: Bytes, i: nat, header: Header)
    requires WellFormed(l, data) && i < |l.entries|
    requires header == DecodeEntry(InputAt(l, data, i))
    ensures header.Header? && |header.rest| <= |data| && data[|data| - |header.rest|..] == header.rest
  {
    hide DecodeEntry, EncodeVarint;
    EntryParses(l, data, i);
    assert EntryAt(l, data, i);
    var s, t, e := l.starts[i], l.starts[i + 1], l.entries[i];
    var bytes := EntryBytes(l.shares[i], e);
    var body := e.key[l.shares[i]..] + e.value;
    assert bytes[|bytes| - |body|..] == body;
    assert data[t - |body|..t] == data[s..t][|bytes| - |body|..];
    assert data[t - |body|..] == data[t - |body|..t] + data[t..];
  }
}
