/**
 The filter block of table/filter_block.cc: one filter for every 2 KB of file offset a data block may start in.
 */
module FilterBlock {
  import opened ByteStrings
  import opened BlockFormat
  import opened Comparators
  import Bloom

  const FILTER_BASE_LG: Byte := 11
  const FILTER_BASE: nat := 2048

  datatype FilterPolicy = FilterPolicy(create: seq<Bytes> -> Bytes, mayMatch: (Bytes, Bytes) -> bool) {
    // What include/leveldb/filter_policy.h asks: a key the filter was created from matches.
    ghost predicate Sound() {
      forall keys, key :: key in keys ==> mayMatch(key, create(keys))
    }
  }

  function BloomPolicy(hash: Bloom.Hash, bitsPerKey: nat, k: Byte): FilterPolicy {
    FilterPolicy(keys => Bloom.Filter(hash, bitsPerKey, k, keys), (key, filter) => Bloom.Matches(hash, key, filter))
  }

  lemma BloomIsSound(hash: Bloom.Hash, bitsPerKey: nat, k: Byte)
    ensures BloomPolicy(hash, bitsPerKey, k).Sound()
  {
    hide Bloom.Filter, Bloom.Matches;
    forall keys, key | key in keys
      ensures Bloom.Matches(hash, key, Bloom.Filter(hash, bitsPerKey, k, keys))
    {
      Bloom.AddedKeyMatches(hash, bitsPerKey, k, keys, key);
    }
  }

  function UserParts(keys: seq<Bytes>): seq<Bytes> {
    seq(|keys|, i requires 0 <= i < |keys| => UserPart(keys[i]))
  }

  // InternalFilterPolicy of db/dbformat.cc: filters on user keys.
  function InternalPolicy(user: FilterPolicy): FilterPolicy {
    FilterPolicy(keys => user.create(UserParts(keys)), (key, filter) => user.mayMatch(UserPart(key), filter))
  }

  // Any key with the user key of an added one matches.
  lemma InternalPolicyMatches(user: FilterPolicy, keys: seq<Bytes>, added: Bytes, key: Bytes)
    requires user.Sound() && added in keys && UserPart(key) == UserPart(added)
    ensures InternalPolicy(user).mayMatch(key, InternalPolicy(user).create(keys))
  {
    hide UserPart;
    var i :| 0 <= i < |keys| && keys[i] == added;
    assert UserParts(keys)[i] == UserPart(added);
    assert UserPart(key) in UserParts(keys);
  }

  // ---------------------------------------------------------------------------
  // Layout
  // ---------------------------------------------------------------------------

  // The filter of one range of offsets; no filter is made for no keys.
  function FilterOf(policy: FilterPolicy, keys: seq<Bytes>): Bytes {
    if keys == [] then [] else policy.create(keys)
  }

  function FilterData(policy: FilterPolicy, filters: seq<seq<Bytes>>): Bytes {
    if filters == [] then []
    else FilterData(policy, filters[..|filters| - 1]) + FilterOf(policy, filters[|filters| - 1])
  }

  function OffsetOf(policy: FilterPolicy, filters: seq<seq<Bytes>>, i: nat): nat
    requires i <= |filters|
  {
    |FilterData(policy, filters[..i])|
  }

  function Offsets(policy: FilterPolicy, filters: seq<seq<Bytes>>): (offsets: seq<nat>)
    ensures |offsets| == |filters|
  {
    seq(|filters|, i requires 0 <= i < |filters| => OffsetOf(policy, filters, i))
  }

  // A finished filter block.
  function FilterBytes(policy: FilterPolicy, filters: seq<seq<Bytes>>): Bytes {
    FilterData(policy, filters) + FixedArray(Offsets(policy, filters))
    + EncodeFixed32(|FilterData(policy, filters)| % LIMIT) + [FILTER_BASE_LG]
  }

  lemma {:induction false} FilterPrefix(policy: FilterPolicy, filters: seq<seq<Bytes>>, i: nat)
    requires i <= |filters|
    ensures FilterData(policy, filters[..i]) <= FilterData(policy, filters)
    decreases |filters| - i
  {
    hide FilterOf;
    if i == |filters| {
      assert filters[..i] == filters;
    } else {
      FilterPrefix(policy, filters, i + 1);
      assert filters[..i + 1][..i] == filters[..i];
    }
  }

  // Filter i lies between its offset and the next.
  lemma FilterAt(policy: FilterPolicy, filters: seq<seq<Bytes>>, i: nat)
    requires i < |filters|
    ensures OffsetOf(policy, filters, i) <= OffsetOf(policy, filters, i + 1) <= |FilterData(policy, filters)|
    ensures FilterData(policy, filters)[OffsetOf(policy, filters, i)..OffsetOf(policy, filters, i + 1)]
         == FilterOf(policy, filters[i])
  {
    hide FilterOf, FilterData;
    FilterPrefix(policy, filters, i + 1);
    LastFilter(policy, filters, i);
    Middle(FilterData(policy, filters[..i]), FilterOf(policy, filters[i]), FilterData(policy, filters));
  }

  lemma LastFilter(policy: FilterPolicy, filters: seq<seq<Bytes>>, i: nat)
    requires i < |filters|
    ensures FilterData(policy, filters[..i + 1]) == FilterData(policy, filters[..i]) + FilterOf(policy, filters[i])
  {
    hide FilterOf;
    assert filters[..i + 1][..i] == filters[..i];
  }

  lemma Middle(a: Bytes, b: Bytes, all: Bytes)
    requires a + b <= all
    ensures |a| + |b| <= |all| && all[|a|..|a| + |b|] == b
  {
    assert all[|a|..|a| + |b|] == (a + b)[|a|..];
  }

  lemma OffsetsSnoc(policy: FilterPolicy, filters: seq<seq<Bytes>>, keys: seq<Bytes>)
    ensures Offsets(policy, filters + [keys]) == Offsets(policy, filters) + [|FilterData(policy, filters)|]
    ensures FilterData(policy, filters + [keys]) == FilterData(policy, filters) + FilterOf(policy, keys)
  {
    hide FilterOf;
    var all := filters + [keys];
    assert all[..|filters|] == filters;
    forall i | 0 <= i < |filters|
      ensures all[..i] == filters[..i]
    {
    }
  }

  // ---------------------------------------------------------------------------
  // FilterBlockBuilder
  // ---------------------------------------------------------------------------

  function Flat(keys: seq<Bytes>): Bytes {
    if keys == [] then [] else Flat(keys[..|keys| - 1]) + keys[|keys| - 1]
  }

  // Where each key starts in the flattened keys.
  function Starts(keys: seq<Bytes>): (starts: seq<nat>)
    ensures |starts| == |keys|
  {
    seq(|keys|, i requires 0 <= i < |keys| => |Flat(keys[..i])|)
  }

  lemma FlatSnoc(keys: seq<Bytes>, key: Bytes)
    ensures Flat(keys + [key]) == Flat(keys) + key && Starts(keys + [key]) == Starts(keys) + [|Flat(keys)|]
  {
    var all := keys + [key];
    assert all[..|keys|] == keys;
    forall i | 0 <= i < |keys|
      ensures all[..i] == keys[..i]
    {
    }
  }

  lemma {:induction false} FlatPrefix(keys: seq<Bytes>, i: nat)
    requires i <= |keys|
    ensures Flat(keys[..i]) <= Flat(keys)
    decreases |keys| - i
  {
    if i == |keys| {
      assert keys[..i] == keys;
    } else {
      FlatPrefix(keys, i + 1);
      assert keys[..i + 1][..i] == keys[..i];
    }
  }

  lemma FlatAt(keys: seq<Bytes>, i: nat)
    requires i < |keys|
    ensures var s, t := |Flat(keys[..i])|, |Flat(keys[..i + 1])|; s <= t <= |Flat(keys)| && Flat(keys)[s..t] == keys[i]
    ensures i + 1 < |keys| ==> |Flat(keys[..i + 1])| == Starts(keys)[i + 1]
    ensures i + 1 == |keys| ==> |Flat(keys[..i + 1])| == |Flat(keys)|
  {
    FlatPrefix(keys, i + 1);
    assert keys[..i + 1][..i] == keys[..i];
    Middle(Flat(keys[..i]), keys[i], Flat(keys));
    if i + 1 == |keys| {
      assert keys[..i + 1] == keys;
    }
  }

  lemma StartsCount(keys: seq<Bytes>)
    ensures |Starts(keys)| == |keys|
    ensures keys == [] ==> Flat(keys) == [] && Starts(keys) == []
  {
  }

  class FilterBlockBuilder {
    const policy: FilterPolicy
    var keys: Bytes
    var start: seq<nat>
    var result: Bytes
    var filterOffsets: seq<Word>
    ghost var pending: seq<Bytes>        // the keys added since the last filter was made
    ghost var filters: seq<seq<Bytes>>   // the keys of each filter made

    ghost predicate Valid()
      reads this
    {
      && keys == Flat(pending) && start == Starts(pending)
      && result == FilterData(policy, filters)
      && |filterOffsets| == |filters|
      && (|result| < LIMIT ==> filterOffsets == Offsets(policy, filters))
    }

    constructor (policy: FilterPolicy)
      ensures Valid() && filters == [] && pending == [] && this.policy == policy
    {
      this.policy := policy;
      keys, start, result, filterOffsets, pending, filters := [], [], [], [], [], [];
    }

    method AddKey(key: Bytes)
      requires Valid()
      modifies this`keys, this`start, this`pending
      ensures Valid() && pending == old(pending) + [key]
    {
      FlatSnoc(pending, key);
      start := start + [|keys|];
      keys := keys + key;
      pending := pending + [key];
    }

    method GenerateFilter()
      requires Valid()
      modifies this
      ensures Valid() && filters == old(filters) + [old(pending)] && pending == []
    {
      hide FilterData, Offsets, Flat, Starts;
      OffsetsSnoc(policy, filters, pending);
      StartsCount(pending);
      var numKeys := |start|;
      if numKeys == 0 {
        filterOffsets := filterOffsets + [|result| % LIMIT];
        filters := filters + [pending];
        return;
      }
      var tmpKeys := TmpKeys();
      filterOffsets := filterOffsets + [|result| % LIMIT];
      result := result + policy.create(tmpKeys);
      filters := filters + [pending];
      keys, start, pending := [], [], [];
      StartsCount([]);
    }

    // keys and start taken apart again into the keys that were added.
    method TmpKeys() returns (tmpKeys: seq<Bytes>)
      requires Valid()
      ensures tmpKeys == pending
    {
      tmpKeys := [];
      while |tmpKeys| < |start|
        invariant |tmpKeys| <= |start| && tmpKeys == pending[..|tmpKeys|]
      {
        var i := |tmpKeys|;
        FlatAt(pending, i);
        var end := if i + 1 < |start| then start[i + 1] else |keys|;
        tmpKeys := tmpKeys + [keys[start[i]..end]];
      }
    }

    // A block starts here: filters are made until the next is the one for its offset.
    method StartBlock(blockOffset: nat)
      requires Valid() && |filters| <= blockOffset / FILTER_BASE
      modifies this
      ensures Valid() && |filters| == blockOffset / FILTER_BASE && old(filters) <= filters
      ensures if old(|filters|) == |filters| then pending == old(pending)
              else pending == [] && filters[old(|filters|)] == old(pending)
    {
      hide FilterData, Offsets, Flat, Starts;
      var filterIndex := blockOffset / FILTER_BASE;
      while filterIndex > |filterOffsets|
        invariant Valid() && |filters| <= filterIndex && old(filters) <= filters
        invariant if old(|filters|) == |filters| then pending == old(pending)
                  else pending == [] && filters[old(|filters|)] == old(pending)
        decreases filterIndex - |filterOffsets|
      {
        GenerateFilter();
      }
    }

    method Finish() returns (block: Bytes)
      requires Valid()
      modifies this
      ensures filters == old(filters) + if old(pending) == [] then [] else [old(pending)]
      ensures |FilterData(policy, filters)| <= |block|
      ensures |FilterData(policy, filters)| < LIMIT ==> block == FilterBytes(policy, filters)
    {
      hide FilterData, Flat, EncodeFixed32;
      StartsCount(pending);
      if start != [] {
        GenerateFilter();
      }
      var arrayOffset := |result| % LIMIT;
      ghost var data, offsets, made := result, filterOffsets, filters;
      var i := 0;
      while i < |filterOffsets|
        invariant 0 <= i <= |filterOffsets| && result == data + FixedArray(filterOffsets[..i])
        invariant filterOffsets == offsets && filters == made
      {
        assert filterOffsets[..i + 1][..i] == filterOffsets[..i];
        result := result + EncodeFixed32(filterOffsets[i]);
        i := i + 1;
      }
      assert filterOffsets[..i] == filterOffsets;
      result := result + EncodeFixed32(arrayOffset);
      result := result + [FILTER_BASE_LG];
      block := result;
    }
  }

  // ---------------------------------------------------------------------------
  // FilterBlockReader
  // ---------------------------------------------------------------------------

  // contents with the offset of the filters' array in it; num is 0 when the block could not be opened.
  datatype FilterReader = FilterReader(policy: FilterPolicy, contents: Bytes, array_: nat, num: nat, baseLg: Byte) {
    predicate InBounds() {
      array_ + 4 * num + 4 <= |contents| || num == 0
    }
  }

  function OpenFilter(policy: FilterPolicy, contents: Bytes): (r: FilterReader)
    ensures r.InBounds()
  {
    var n := |contents|;
    if n < 5 then FilterReader(policy, [], 0, 0, 0)
    else
      var baseLg, lastWord := contents[n - 1], DecodeFixed32(contents[n - 5..]);
      if lastWord > n - 5 then FilterReader(policy, [], 0, 0, baseLg)
      else FilterReader(policy, contents, lastWord, (n - 5 - lastWord) / 4, baseLg)
  }

  // A block that cannot be read turns no key away.
  predicate KeyMayMatch(r: FilterReader, blockOffset: nat, key: Bytes)
    requires r.InBounds()
  {
    var index := Shift(blockOffset, Pow2(r.baseLg));
    index < r.num ==>
      var start, limit := WordAt(r, index), WordAt(r, index + 1);
      if start <= limit <= r.array_ then r.policy.mayMatch(key, r.contents[start..limit]) else start != limit
  }

  function WordAt(r: FilterReader, i: nat): Word
    requires r.array_ + 4 * i + 4 <= |r.contents|
  {
    DecodeFixed32(r.contents[r.array_ + 4 * i..])
  }

  lemma Pow2Of11()
    ensures Pow2(11) == FILTER_BASE
  {
    hide Pow2;
    Pow2Of7();
    assert Pow2(4) == 16 by { Pow2Of4(); }
    Pow2Add(7, 4);
  }

  lemma Pow2Of4()
    ensures Pow2(4) == 16
  {
    assert Pow2(1) == 2 && Pow2(3) == 8;
  }

  lemma OpensAtArray(policy: FilterPolicy, filters: seq<seq<Bytes>>)
    requires |FilterData(policy, filters)| < LIMIT
    ensures OpenFilter(policy, FilterBytes(policy, filters))
         == FilterReader(policy, FilterBytes(policy, filters), |FilterData(policy, filters)|, |filters|, FILTER_BASE_LG)
  {
    hide FilterData, EncodeFixed32, DecodeFixed32, FixedArray;
    var data := FilterData(policy, filters);
    var contents, n := FilterBytes(policy, filters), |FilterBytes(policy, filters)|;
    assert contents[n - 5..] == EncodeFixed32(|data|) + [FILTER_BASE_LG];
    FixedFront(|data|, [FILTER_BASE_LG]);
  }

  // Word i of the array is where filter i starts, and the one after the last is where the array starts.
  lemma WordIsOffset(policy: FilterPolicy, filters: seq<seq<Bytes>>, i: nat)
    requires |FilterData(policy, filters)| < LIMIT && i <= |filters|
    ensures var r := OpenFilter(policy, FilterBytes(policy, filters));
            r.array_ + 4 * i + 4 <= |r.contents| && WordAt(r, i) == OffsetOf(policy, filters, i)
  {
    hide FilterData, EncodeFixed32, DecodeFixed32, FixedArray, OpenFilter;
    OpensAtArray(policy, filters);
    var data, offsets := FilterData(policy, filters), Offsets(policy, filters);
    var contents, rest := FilterBytes(policy, filters), EncodeFixed32(|data|) + [FILTER_BASE_LG];
    assert contents == data + (FixedArray(offsets) + rest);
    assert contents[|data| + 4 * i..] == (FixedArray(offsets) + rest)[4 * i..];
    if i < |filters| {
      FilterPrefix(policy, filters, i);
      FixedArrayAt(offsets, i, rest);
    } else {
      assert filters[..i] == filters;
      assert (FixedArray(offsets) + rest)[4 * i..] == rest;
      FixedFront(|data|, [FILTER_BASE_LG]);
    }
  }

  // What the reader of a finished filter block says: exactly what the policy says of the filter for that offset.
  lemma ReaderAsksTheFilter(policy: FilterPolicy, filters: seq<seq<Bytes>>, blockOffset: nat, key: Bytes)
    requires |FilterData(policy, filters)| < LIMIT
    ensures var index := blockOffset / FILTER_BASE;
            KeyMayMatch(OpenFilter(policy, FilterBytes(policy, filters)), blockOffset, key) <==>
              index >= |filters| || policy.mayMatch(key, FilterOf(policy, filters[index]))
  {
    hide FilterData, FilterOf, OpenFilter, FilterBytes, WordAt, Pow2;
    var index := blockOffset / FILTER_BASE;
    var data := FilterData(policy, filters);
    OpensAtArray(policy, filters);
    Pow2Of11();
    if index < |filters| {
      WordIsOffset(policy, filters, index);
      WordIsOffset(policy, filters, index + 1);
      FilterAt(policy, filters, index);
      DataComesFirst(policy, filters, OffsetOf(policy, filters, index), OffsetOf(policy, filters, index + 1));
    }
  }

  lemma DataComesFirst(policy: FilterPolicy, filters: seq<seq<Bytes>>, i: nat, j: nat)
    requires i <= j <= |FilterData(policy, filters)|
    ensures j <= |FilterBytes(policy, filters)|
    ensures FilterBytes(policy, filters)[i..j] == FilterData(policy, filters)[i..j]
  {
    hide FilterData, EncodeFixed32, FixedArray;
  }
}
