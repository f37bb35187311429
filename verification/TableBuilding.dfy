/**
 TableBuilder of table/table_builder.cc: what it writes is a finished table of exactly the entries added.
 */
module TableBuilding {
  import opened ByteStrings
  import opened BlockFormat
  import opened Comparators
  import opened TableFormat
  import opened TableLayout
  import opened FilterBlock
  import opened Keys
  import B = BlockBuilding

  // What a builder between two calls has written and still holds.
  ghost predicate Builds(o: Options, file: Bytes, entries: seq<KeyValue>, cuts: seq<nat>, blocks: seq<Block>,
                         data: seq<KeyValue>, index: seq<KeyValue>, pending: bool, pendingHandle: BlockHandle)
  {
    && o.Sensible() && B.Increasing(o.cmp, entries)
    && Cut(entries, cuts, blocks) && AllStored(o.crc, file, blocks) && Placed(blocks, |file|)
    && data == entries[cuts[|blocks|]..]
    && Indexed(o.cmp, entries, cuts, blocks, index)
    && (pending <==> blocks != [] && data == [])
    && (pending ==> |index| == |blocks| - 1 && pendingHandle == blocks[|blocks| - 1].handle)
    && (!pending ==> |index| == |blocks|)
  }

  ghost predicate Covers(fileSize: nat, blocks: seq<Block>, data: seq<KeyValue>, filters: seq<seq<Bytes>>,
                         pendingKeys: seq<Bytes>) {
    && |filters| == fileSize / FILTER_BASE
    && BlocksCovered(filters, pendingKeys, blocks)
    && KeysCovered(filters, pendingKeys, fileSize, data)
  }

  lemma IndexFollows(o: Options, file: Bytes, entries: seq<KeyValue>, cuts: seq<nat>, blocks: seq<Block>,
                     index: seq<KeyValue>, c: nat, n: nat)
    requires o.Sensible() && B.Increasing(o.cmp, entries)
    requires Cut(entries, cuts, blocks) && Indexed(o.cmp, entries, cuts, blocks, index)
    requires n == |index| < |blocks| && c == cuts[n + 1]
    ensures 0 < c <= |entries|
    ensures index == [] || o.cmp.less(index[n - 1].key, IndexKey(o.cmp, entries, c))
  {
    hide IndexKey;
    CutsInRange(entries, cuts, blocks, n + 1);
    if n > 0 {
      assert IndexAt(o.cmp, entries, cuts, blocks, n - 1, index[n - 1]);
      CutsIncrease(entries, cuts, blocks, n, n + 1);
      IndexKeysIncrease(o.cmp, entries, cuts[n], c);
    }
  }

  lemma AddStep(o: Options, file: Bytes, entries: seq<KeyValue>, cuts: seq<nat>, blocks: seq<Block>,
                data: seq<KeyValue>, index: seq<KeyValue>, pending: bool, handle: BlockHandle, e: KeyValue)
    requires Builds(o, file, entries, cuts, blocks, data, index, pending, handle)
    requires entries == [] || o.cmp.less(entries[|entries| - 1].key, e.key)
    ensures pending ==> entries != []
    ensures pending ==>
      var k := o.cmp.separator(entries[|entries| - 1].key, e.key);
      && (index == [] || o.cmp.less(index[|index| - 1].key, k))
      && Builds(o, file, entries + [e], cuts, blocks, data + [e], index + [KeyValue(k, EncodeHandle(handle))], false, handle)
    ensures !pending ==> Builds(o, file, entries + [e], cuts, blocks, data + [e], index, false, handle)
  {
    hide AllStored, EncodeHandle, Cut, Indexed, B.Increasing, IndexKey;
    var n := |blocks|;
    AddKeeps(o, file, entries, cuts, blocks, data, index, pending, handle, e);
    if pending {
      CutsInRange(entries, cuts, blocks, n);
      IndexFollows(o, file, entries + [e], cuts, blocks, index, |entries|, n - 1);
      KeyBeforeNew(o.cmp, entries, e);
      OneMoreIndexed(o.cmp, entries + [e], cuts, blocks, index, |entries|, handle);
    }
  }

  lemma AddKeeps(o: Options, file: Bytes, entries: seq<KeyValue>, cuts: seq<nat>, blocks: seq<Block>,
                 data: seq<KeyValue>, index: seq<KeyValue>, pending: bool, handle: BlockHandle, e: KeyValue)
    requires Builds(o, file, entries, cuts, blocks, data, index, pending, handle)
    requires entries == [] || o.cmp.less(entries[|entries| - 1].key, e.key)
    ensures B.Increasing(o.cmp, entries + [e])
    ensures Cut(entries, cuts, blocks) && Cut(entries + [e], cuts, blocks)
    ensures (entries + [e])[cuts[|blocks|]..] == data + [e]
    ensures Indexed(o.cmp, entries + [e], cuts, blocks, index)
    ensures pending ==> cuts[|blocks|] == |entries|
  {
    hide AllStored, EncodeHandle, IndexAt, CutAt;
    IncreasingMore(o.cmp, entries, e);
    CutsInRange(entries, cuts, blocks, |blocks|);
    CutMore(entries, cuts, blocks, e);
    if index != [] {
      CutsIncrease(entries, cuts, blocks, |index|, |blocks|);
    }
    IndexedMore(o.cmp, entries, cuts, blocks, index, e);
  }

  lemma KeyBeforeNew(cmp: Comparator, entries: seq<KeyValue>, e: KeyValue)
    requires entries != []
    ensures IndexKey(cmp, entries + [e], |entries|) == cmp.separator(entries[|entries| - 1].key, e.key)
  {
  }

  lemma OneMoreIndexed(cmp: Comparator, entries: seq<KeyValue>, cuts: seq<nat>, blocks: seq<Block>,
                       index: seq<KeyValue>, c: nat, handle: BlockHandle)
    requires Indexed(cmp, entries, cuts, blocks, index) && |index| < |blocks|
    requires c == cuts[|index| + 1] && 0 < c <= |entries| && handle == blocks[|index|].handle
    ensures Indexed(cmp, entries, cuts, blocks, index + [KeyValue(IndexKey(cmp, entries, c), EncodeHandle(handle))])
  {
    hide IndexKey, EncodeHandle;
    var index' := index + [KeyValue(IndexKey(cmp, entries, c), EncodeHandle(handle))];
    forall i: nat | i < |index'|
      ensures IndexAt(cmp, entries, cuts, blocks, i, index'[i])
    {
      assert i < |index| ==> IndexAt(cmp, entries, cuts, blocks, i, index[i]);
    }
  }

  lemma IncreasingMore(cmp: Comparator, entries: seq<KeyValue>, e: KeyValue)
    requires cmp.Ordered() && B.Increasing(cmp, entries)
    requires entries == [] || cmp.less(entries[|entries| - 1].key, e.key)
    ensures B.Increasing(cmp, entries + [e])
  {
    forall i | 0 <= i < |entries|
      ensures cmp.less(entries[i].key, e.key)
    {
      if i < |entries| - 1 {
        assert cmp.less(entries[i].key, entries[|entries| - 1].key);
      }
    }
  }

  lemma FlushStep(o: Options, file: Bytes, entries: seq<KeyValue>, cuts: seq<nat>, blocks: seq<Block>,
                  data: seq<KeyValue>, index: seq<KeyValue>, handle: BlockHandle, file': Bytes, b: Block)
    requires Builds(o, file, entries, cuts, blocks, data, index, false, handle) && data != []
    requires file <= file' && Stored(o.crc, file', b) && b.layout.entries == data
    requires b.handle.offset == |file| < |file'|
    ensures Builds(o, file', entries, cuts + [|entries|], blocks + [b], [], index, true, b.handle)
  {
    hide Stored;
    CutsInRange(entries, cuts, blocks, |blocks|);
    CutAgain(entries, cuts, blocks, b);
    AllStoredInMore(o.crc, file, file', blocks);
    forall i: nat | i < |index|
      ensures IndexAt(o.cmp, entries, cuts + [|entries|], blocks + [b], i, index[i])
    {
      assert IndexAt(o.cmp, entries, cuts, blocks, i, index[i]);
    }
  }

  // The last index entry.
  lemma FinishStep(o: Options, file: Bytes, entries: seq<KeyValue>, cuts: seq<nat>, blocks: seq<Block>,
                   index: seq<KeyValue>, handle: BlockHandle)
    requires Builds(o, file, entries, cuts, blocks, [], index, true, handle)
    ensures entries != []
    ensures var k := o.cmp.successor(entries[|entries| - 1].key);
            (index == [] || o.cmp.less(index[|index| - 1].key, k)) &&
            Indexed(o.cmp, entries, cuts, blocks, index + [KeyValue(k, EncodeHandle(handle))])
  {
    hide AllStored, EncodeHandle;
    CutsInRange(entries, cuts, blocks, |blocks|);
    assert cuts[|blocks|] == |entries|;
    IndexFollows(o, file, entries, cuts, blocks, index, |entries|, |blocks| - 1);
    OneMoreIndexed(o.cmp, entries, cuts, blocks, index, |entries|, handle);
  }

  lemma LaterBlock(a: nat, b: nat)
    requires a <= b
    ensures a / FILTER_BASE <= b / FILTER_BASE
  {
  }

  // The filters for the block just written are started, or will be made of the keys pending.
  lemma StartCovers(fileSize: nat, fileSize': nat, blocks: seq<Block>, data: seq<KeyValue>, b: Block,
                    filters: seq<seq<Bytes>>, pending: seq<Bytes>, filters': seq<seq<Bytes>>, pending': seq<Bytes>)
    requires Covers(fileSize, blocks, data, filters, pending)
    requires b.handle.offset == fileSize && b.layout.entries == data
    requires filters <= filters' && |filters'| == fileSize' / FILTER_BASE
    requires if |filters| == |filters'| then pending' == pending else filters'[|filters|] == pending
    ensures Covers(fileSize', blocks + [b], [], filters', pending')
  {
    hide KeysCovered;
    assert BlocksCovered(filters, pending, blocks + [b]);
    StartKeepsCovered(filters, pending, filters', pending', blocks + [b]);
    NothingToCover(filters', pending', fileSize');
  }

  lemma NothingToCover(filters: seq<seq<Bytes>>, pending: seq<Bytes>, offset: nat)
    ensures KeysCovered(filters, pending, offset, [])
  {
  }

  lemma AddCovers(fileSize: nat, blocks: seq<Block>, data: seq<KeyValue>, filters: seq<seq<Bytes>>,
                  pending: seq<Bytes>, e: KeyValue)
    requires Covers(fileSize, blocks, data, filters, pending)
    ensures Covers(fileSize, blocks, data + [e], filters, pending + [e.key])
  {
    AddKeepsBlocksCovered(filters, pending, e.key, blocks);
    AddKeepsCovered(filters, pending, e.key, fileSize, data);
  }

  lemma NotPending(o: Options, file: Bytes, entries: seq<KeyValue>, cuts: seq<nat>, blocks: seq<Block>,
                   data: seq<KeyValue>, index: seq<KeyValue>, pending: bool, handle: BlockHandle)
    requires Builds(o, file, entries, cuts, blocks, data, index, pending, handle)
    ensures data != [] ==> !pending
    ensures o.interval >= 1
  {
  }

  lemma DataFollows(o: Options, file: Bytes, entries: seq<KeyValue>, cuts: seq<nat>, blocks: seq<Block>,
                    data: seq<KeyValue>, index: seq<KeyValue>, pending: bool, handle: BlockHandle)
    requires Builds(o, file, entries, cuts, blocks, data, index, pending, handle)
    ensures data != [] ==> entries != [] && data[|data| - 1] == entries[|entries| - 1]
  {
  }

  lemma CoversMeans(fileSize: nat, blocks: seq<Block>, data: seq<KeyValue>, filters: seq<seq<Bytes>>,
                    pending: seq<Bytes>)
    requires Covers(fileSize, blocks, data, filters, pending)
    ensures |filters| == fileSize / FILTER_BASE && BlocksCovered(filters, pending, blocks)
  {
  }

  lemma FinishFacts(o: Options, file: Bytes, entries: seq<KeyValue>, cuts: seq<nat>, blocks: seq<Block>,
                    index: seq<KeyValue>, pending: bool, handle: BlockHandle)
    requires Builds(o, file, entries, cuts, blocks, [], index, pending, handle)
    ensures o.Sensible() && o.interval >= 1 && B.Increasing(o.cmp, entries)
    ensures Cut(entries, cuts, blocks) && cuts[|blocks|] == |entries| && AllStored(o.crc, file, blocks)
    ensures Placed(blocks, |file|)
    ensures pending ==> entries != []
    ensures pending && index != [] ==> o.cmp.less(index[|index| - 1].key, o.cmp.successor(entries[|entries| - 1].key))
    ensures var all := index + if pending
                               then [KeyValue(o.cmp.successor(entries[|entries| - 1].key), EncodeHandle(handle))] else [];
            |all| == |blocks| && Indexed(o.cmp, entries, cuts, blocks, all)
  {
    hide AllStored, EncodeHandle;
    CutsInRange(entries, cuts, blocks, |blocks|);
    if pending {
      FinishStep(o, file, entries, cuts, blocks, index, handle);
    } else {
      assert index + [] == index;
    }
  }

  lemma AllBuilt(o: Options, file0: Bytes, file1: Bytes, file2: Bytes, file3: Bytes, t: Table)
    requires file0 <= file1 <= file2 <= file3
    requires o.Sensible() && B.Increasing(o.cmp, t.entries)
    requires Cut(t.entries, t.cuts, t.blocks) && t.cuts[|t.blocks|] == |t.entries| && AllStored(o.crc, file0, t.blocks)
    requires Placed(t.blocks, |file0|)
    requires o.policy.Some? ==> FiltersHold(t.filters, t.blocks)
    requires o.policy.Some? && |file1| < LIMIT ==>
               StoredAt(o.crc, file1, t.filterHandle, FilterBytes(o.policy.value, t.filters))
    requires Stored(o.crc, file2, t.meta) && t.meta.layout.entries == MetaEntries(o, t.filterHandle)
    requires Stored(o.crc, file3, t.index) && |t.index.layout.entries| == |t.blocks|
    requires Indexed(o.cmp, t.entries, t.cuts, t.blocks, t.index.layout.entries)
    ensures var file := file3 + FooterBytes(t.meta.handle, t.index.handle); |file| < LIMIT ==> Built(o, file, t)
  {
    hide AllStored, Stored, StoredAt, FilterBytes, FiltersHold, FooterBytes, Cut, Indexed, MetaEntries;
    var file := file3 + FooterBytes(t.meta.handle, t.index.handle);
    AllStoredInMore(o.crc, file0, file, t.blocks);
    StoredInMore(o.crc, file2, file, t.meta);
    StoredInMore(o.crc, file3, file, t.index);
    if o.policy.Some? && |file| < LIMIT {
      StaysStored(o.crc, file1, file, t.filterHandle, FilterBytes(o.policy.value, t.filters));
    }
  }

  lemma StartOfTable(o: Options)
    ensures o.Sensible() ==> Builds(o, [], [], [0], [], [], [], false, NO_HANDLE)
    ensures o.Sensible() ==> o.interval >= 1 && o.cmp.Ordered()
    ensures forall pending :: Covers(0, [], [], [], pending)
  {
  }

  method NewFilterBlock(policy: Option<FilterPolicy>) returns (f: FilterBlockBuilder?)
    ensures policy.None? ==> f == null
    ensures policy.Some? ==> f != null && fresh(f) && f.Valid() && f.policy == policy.value
    ensures policy.Some? ==> f.filters == [] && f.pending == []
  {
    hide FilterData, Flat, Starts, Offsets;
    f := null;
    if policy.Some? {
      f := new FilterBlockBuilder(policy.value);
      f.StartBlock(0);
    }
  }

  // The entries of the open block, if there are any, became one more block of this size.
  ghost predicate Flushed(blocks: seq<Block>, blocks': seq<Block>, data: seq<KeyValue>, size: nat) {
    if data == [] then blocks' == blocks
    else exists b :: blocks' == blocks + [b] && b.layout.entries == data && |b.contents| == size
  }

  lemma NothingFlushed(blocks: seq<Block>, size: nat)
    ensures Flushed(blocks, blocks, [], size)
  {
  }

  lemma OneFlushed(blocks: seq<Block>, b: Block)
    ensures b.layout.entries != [] ==> Flushed(blocks, blocks + [b], b.layout.entries, |b.contents|)
  {
  }

  class TableBuilder {
    const options: Options
    const dataBlock: B.BlockBuilder
    const indexBlock: B.BlockBuilder
    const filterBlock: FilterBlockBuilder?
    var file: Bytes               // what has been appended; offset is its length
    var lastKey: Bytes
    var numEntries: nat
    var closed: bool
    var pendingIndexEntry: bool
    var pendingHandle: BlockHandle
    ghost var entries: seq<KeyValue>
    ghost var cuts: seq<nat>
    ghost var blocks: seq<Block>

    ghost function Parts(): set<object> {
      {this, dataBlock, indexBlock} + if filterBlock == null then {} else {filterBlock}
    }

    ghost predicate Parted()
      reads dataBlock, indexBlock
    {
      && dataBlock != indexBlock
      && dataBlock.Good() && dataBlock.cmp == options.cmp && dataBlock.interval == options.interval
      && indexBlock.Good() && indexBlock.cmp == options.cmp && indexBlock.interval == 1
    }

    ghost predicate Filtered()
      reads this`file, this`blocks, dataBlock, filterBlock
    {
      if options.policy.None? then filterBlock == null
      else
        && filterBlock != null && filterBlock.Valid() && filterBlock.policy == options.policy.value
        && Covers(|file|, blocks, dataBlock.layout.entries, filterBlock.filters, filterBlock.pending)
    }

    ghost predicate Valid()
      reads Parts()
    {
      && Parted() && Filtered()
      && Builds(options, file, entries, cuts, blocks, dataBlock.layout.entries, indexBlock.layout.entries,
                pendingIndexEntry, pendingHandle)
      && numEntries == |entries|
      && (entries != [] ==> lastKey == entries[|entries| - 1].key)
    }

    constructor (options: Options)
      requires options.Sensible()
      ensures Valid() && !closed && entries == [] && this.options == options
      ensures fresh(Parts())
    {
      hide *;
      StartOfTable(options);
      this.options := options;
      dataBlock := new B.BlockBuilder(options.interval, options.cmp);
      indexBlock := new B.BlockBuilder(1, options.cmp);
      var filter := NewFilterBlock(options.policy);
      filterBlock := filter;
      file, lastKey, numEntries, closed := [], [], 0, false;
      pendingIndexEntry, pendingHandle := false, NO_HANDLE;
      entries, cuts, blocks := [], [0], [];
      new;
      IsParted();
      IsFiltered();
      Holds();
      AllParts();
    }

    lemma AllParts()
      ensures Parts() == {this, dataBlock, indexBlock} + if filterBlock == null then {} else {filterBlock}
    {
    }

    // What Valid asks of the pieces.
    lemma Holds()
      requires Parted() && Filtered()
      requires Builds(options, file, entries, cuts, blocks, dataBlock.layout.entries, indexBlock.layout.entries,
                      pendingIndexEntry, pendingHandle)
      requires numEntries == |entries| && (entries != [] ==> lastKey == entries[|entries| - 1].key)
      ensures Valid()
    {
    }

    lemma Pieces()
      requires Valid()
      ensures dataBlock != indexBlock
      ensures dataBlock.Good() && dataBlock.cmp == options.cmp && dataBlock.interval == options.interval
      ensures indexBlock.Good() && indexBlock.cmp == options.cmp && indexBlock.interval == 1
      ensures options.policy.None? ==> filterBlock == null
      ensures options.policy.Some? ==>
        && filterBlock != null && filterBlock.Valid() && filterBlock.policy == options.policy.value
        && Covers(|file|, blocks, dataBlock.layout.entries, filterBlock.filters, filterBlock.pending)
      ensures Builds(options, file, entries, cuts, blocks, dataBlock.layout.entries, indexBlock.layout.entries,
                     pendingIndexEntry, pendingHandle)
      ensures numEntries == |entries| && (entries != [] ==> lastKey == entries[|entries| - 1].key)
    {
      hide Builds, Covers, B.Builds, FilterData, Flat, Starts, Offsets;
    }

    lemma IsParted()
      requires dataBlock != indexBlock
      requires dataBlock.Good() && dataBlock.cmp == options.cmp && dataBlock.interval == options.interval
      requires indexBlock.Good() && indexBlock.cmp == options.cmp && indexBlock.interval == 1
      ensures Parted()
    {
    }

    lemma IsFiltered()
      requires options.policy.None? ==> filterBlock == null
      requires options.policy.Some? ==>
        && filterBlock != null && filterBlock.Valid() && filterBlock.policy == options.policy.value
        && Covers(|file|, blocks, dataBlock.layout.entries, filterBlock.filters, filterBlock.pending)
      ensures Filtered()
    {
    }

    method WriteRawBlock(contents: Bytes) returns (handle: BlockHandle)
      modifies this`file
      ensures file == old(file) + (contents + Trailer(options.crc, contents))
      ensures handle == BlockHandle(|old(file)|, |contents|)
      ensures StoredAt(options.crc, file, handle, contents)
    {
      hide Trailer, StoredAt;
      handle := BlockHandle(|file|, |contents|);
      WrittenIsStored(options.crc, file, contents);
      assert file + (contents + Trailer(options.crc, contents)) == file + contents + Trailer(options.crc, contents);
      file := file + contents;
      file := file + Trailer(options.crc, contents);
    }

    method WriteBlock(block: B.BlockBuilder) returns (handle: BlockHandle, ghost b: Block)
      requires block.Good() && options.interval >= 1
      modifies this`file, block
      ensures block.Good() && block.layout.entries == []
      ensures old(file) <= file && handle.offset == |old(file)| && |file| > |old(file)|
      ensures b.handle == handle && b.layout == old(block.layout) && Stored(options.crc, file, b)
      ensures |b.contents| == old(block.CurrentSizeEstimate())
    {
      hide Trailer, StoredAt, Finished;
      block.LastKeyMeans();
      ghost var layout, data := block.layout, block.buffer;
      var contents := block.Finish();
      handle := WriteRawBlock(contents);
      b := Block(handle, contents, layout, data);
      block.Reset();
    }

    method Flush()
      requires Valid() && !closed
      modifies Parts()
      ensures Valid() && !closed && entries == old(entries)
      ensures dataBlock.layout.entries == []
      ensures Flushed(old(blocks), blocks, old(dataBlock.layout.entries), old(dataBlock.CurrentSizeEstimate()))
    {
      hide *;
      AllParts();
      Pieces();
      NothingFlushed(blocks, dataBlock.CurrentSizeEstimate());
      dataBlock.EmptyMeans();
      if dataBlock.Empty() {
        return;
      }
      ghost var data, file0 := dataBlock.layout.entries, file;
      NotPending(options, file, entries, cuts, blocks, data, indexBlock.layout.entries, pendingIndexEntry, pendingHandle);
      ghost var b;
      pendingHandle, b := WriteBlock(dataBlock);
      FlushStep(options, file0, entries, cuts, blocks, data, indexBlock.layout.entries, old(pendingHandle), file, b);
      pendingIndexEntry := true;
      ghost var blocks0 := blocks;
      cuts, blocks := cuts + [|entries|], blocks + [b];
      StartFilterBlock(|file0|, blocks0, data, b);
      OneFlushed(blocks0, b);
      IsParted();
      IsFiltered();
      Holds();
    }

    // The end of Flush: filters up to where the next block will start.
    method StartFilterBlock(ghost fileSize: nat, ghost blocks0: seq<Block>, ghost data: seq<KeyValue>, ghost b: Block)
      requires fileSize <= |file| && b.handle.offset == fileSize && b.layout.entries == data
      requires filterBlock != null ==>
                 filterBlock.Valid() && Covers(fileSize, blocks0, data, filterBlock.filters, filterBlock.pending)
      modifies if filterBlock == null then {} else {filterBlock}
      ensures filterBlock != null ==>
                filterBlock.Valid() && Covers(|file|, blocks0 + [b], [], filterBlock.filters, filterBlock.pending)
    {
      hide Covers, FilterData, Flat, Starts, Offsets;
      if filterBlock != null {
        ghost var filters0, pending0 := filterBlock.filters, filterBlock.pending;
        CoversMeans(fileSize, blocks0, data, filters0, pending0);
        LaterBlock(fileSize, |file|);
        filterBlock.StartBlock(|file|);
        StartCovers(fileSize, |file|, blocks0, data, b, filters0, pending0, filterBlock.filters, filterBlock.pending);
      }
    }

    method Add(key: Bytes, value: Bytes)
      requires Valid() && !closed
      requires numEntries > 0 ==> options.cmp.less(lastKey, key)
      modifies Parts()
      ensures Valid() && !closed && entries == old(entries) + [KeyValue(key, value)]
      // the open block goes to the file when it has reached its size, and not before
      ensures var data := old(dataBlock.layout.entries) + [KeyValue(key, value)];
              if dataBlock.layout.entries == [] then
                exists size :: size >= options.blockSize && Flushed(old(blocks), blocks, data, size)
              else
                blocks == old(blocks) && dataBlock.layout.entries == data
                && dataBlock.CurrentSizeEstimate() < options.blockSize
    {
      hide Flushed;
      AddToBlocks(key, value);
      var estimatedBlockSize := dataBlock.CurrentSizeEstimate();
      if estimatedBlockSize >= options.blockSize {
        Flush();
      }
    }

    // The index entry of the block before, now that the first key after it is known.
    method AddIndexEntry(key: Bytes)
      requires indexBlock.Good() && indexBlock.cmp == options.cmp
      requires pendingIndexEntry && indexBlock.layout.entries != [] ==>
                 options.cmp.less(indexBlock.layout.entries[|indexBlock.layout.entries| - 1].key,
                                  options.cmp.separator(lastKey, key))
      modifies this`lastKey, this`pendingIndexEntry, indexBlock
      ensures indexBlock.Good() && !pendingIndexEntry
      ensures indexBlock.layout.entries == old(indexBlock.layout.entries) +
                if old(pendingIndexEntry)
                then [KeyValue(options.cmp.separator(old(lastKey), key), EncodeHandle(pendingHandle))] else []
    {
      hide EncodeHandle, B.Builds, CommonPrefix;
      indexBlock.LastKeyMeans();
      if pendingIndexEntry {
        lastKey := options.cmp.separator(lastKey, key);
        indexBlock.Add(lastKey, EncodeHandle(pendingHandle));
        pendingIndexEntry := false;
      }
    }

    // The part of Add before the block may be flushed.
    method AddToBlocks(key: Bytes, value: Bytes)
      requires Valid() && !closed
      requires numEntries > 0 ==> options.cmp.less(lastKey, key)
      modifies Parts()
      ensures Valid() && !closed && entries == old(entries) + [KeyValue(key, value)]
      ensures blocks == old(blocks) && dataBlock.layout.entries == old(dataBlock.layout.entries) + [KeyValue(key, value)]
    {
      hide *;
      AllParts();
      Pieces();
      ghost var e, data, index := KeyValue(key, value), dataBlock.layout.entries, indexBlock.layout.entries;
      AddStep(options, file, entries, cuts, blocks, data, index, pendingIndexEntry, pendingHandle, e);
      DataFollows(options, file, entries, cuts, blocks, data, index, pendingIndexEntry, pendingHandle);
      dataBlock.LastKeyMeans();
      indexBlock.LastKeyMeans();
      AddIndexEntry(key);
      assert index + [] == index;
      if filterBlock != null {
        AddCovers(|file|, blocks, data, filterBlock.filters, filterBlock.pending, e);
        filterBlock.AddKey(key);
      }
      lastKey := key;
      numEntries := numEntries + 1;
      dataBlock.Add(key, value);
      entries := entries + [e];
      IsParted();
      IsFiltered();
      Holds();
    }

    // The filter block, when there is a policy.
    method WriteFilter() returns (handle: BlockHandle, ghost filters: seq<seq<Bytes>>)
      requires options.policy.None? ==> filterBlock == null
      requires options.policy.Some? ==>
        && filterBlock != null && filterBlock.Valid() && filterBlock.policy == options.policy.value
        && BlocksCovered(filterBlock.filters, filterBlock.pending, blocks)
      modifies this`file, if filterBlock == null then {} else {filterBlock}
      ensures old(file) <= file
      ensures options.policy.Some? ==> FiltersHold(filters, blocks)
      ensures options.policy.Some? && |file| < LIMIT ==>
                StoredAt(options.crc, file, handle, FilterBytes(options.policy.value, filters))
    {
      hide Trailer, StoredAt, FilterData, FilterBytes, Flat, Starts, Offsets, BlocksCovered, FiltersHold;
      handle, filters := NO_HANDLE, [];
      if filterBlock != null {
        FinishCovers(filterBlock.filters, filterBlock.pending, blocks);
        var contents := filterBlock.Finish();
        handle := WriteRawBlock(contents);
        filters := filterBlock.filters;
      }
    }

    method WriteMetaIndex(filterHandle: BlockHandle) returns (handle: BlockHandle, ghost b: Block)
      requires options.Sensible() && (filterBlock != null <==> options.policy.Some?)
      modifies this`file
      ensures old(file) <= file && b.handle == handle && Stored(options.crc, file, b)
      ensures b.layout.entries == MetaEntries(options, filterHandle)
    {
      hide Stored, EncodeHandle, B.Builds, CommonPrefix, FilterKey;
      var metaIndexBlock := new B.BlockBuilder(options.interval, options.cmp);
      if filterBlock != null {
        metaIndexBlock.Add(FilterKey(options), EncodeHandle(filterHandle));
      }
      handle, b := WriteBlock(metaIndexBlock);
    }

    method WriteIndex() returns (handle: BlockHandle, ghost b: Block)
      requires options.interval >= 1 && indexBlock.Good() && indexBlock.cmp == options.cmp
      requires pendingIndexEntry && indexBlock.layout.entries != [] ==>
                 options.cmp.less(indexBlock.layout.entries[|indexBlock.layout.entries| - 1].key,
                                  options.cmp.successor(lastKey))
      modifies this`lastKey, this`pendingIndexEntry, this`file, indexBlock
      ensures old(file) <= file && b.handle == handle && Stored(options.crc, file, b)
      ensures b.layout.entries == old(indexBlock.layout.entries) +
                if old(pendingIndexEntry)
                then [KeyValue(options.cmp.successor(old(lastKey)), EncodeHandle(pendingHandle))] else []
    {
      hide Stored, EncodeHandle, B.Builds, CommonPrefix;
      indexBlock.LastKeyMeans();
      if pendingIndexEntry {
        lastKey := options.cmp.successor(lastKey);
        indexBlock.Add(lastKey, EncodeHandle(pendingHandle));
        pendingIndexEntry := false;
      }
      handle, b := WriteBlock(indexBlock);
    }

    method Finish() returns (ghost t: Table)
      requires Valid() && !closed
      modifies Parts()
      ensures closed && t.entries == old(entries)
      ensures |file| < LIMIT ==> Built(options, file, t)
    {
      hide *;
      AllParts();
      Flush();
      Pieces();
      closed := true;
      ghost var file0 := file;
      FinishFacts(options, file, entries, cuts, blocks, indexBlock.layout.entries, pendingIndexEntry, pendingHandle);
      if filterBlock != null {
        CoversMeans(|file|, blocks, [], filterBlock.filters, filterBlock.pending);
      }
      var filterHandle, filters := WriteFilter();
      ghost var file1 := file;
      var metaIndexHandle, meta := WriteMetaIndex(filterHandle);
      ghost var file2 := file;
      var indexHandle, index := WriteIndex();
      ghost var file3 := file;
      file := file + FooterBytes(metaIndexHandle, indexHandle);
      t := Table(entries, cuts, blocks, index, meta, filters, filterHandle);
      AllBuilt(options, file0, file1, file2, file3, t);
    }
  }
}
