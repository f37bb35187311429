/**
 What a table file holds: sorted entries cut into data blocks, an index entry for each block, and filters that
 cover the keys of every block.
 */
module TableLayout {
  import opened ByteStrings
  import opened BlockFormat
  import opened Comparators
  import opened TableFormat
  import opened FilterBlock
  import opened Keys
  import B = BlockBuilding
  import L = LogFormat

  datatype Options = Options(cmp: Comparator, interval: nat, blockSize: nat, verify: bool,
                             policy: Option<FilterPolicy>, policyName: Bytes, crc: L.Checksum)
  {
    ghost predicate Sensible() {
      interval >= 1 && cmp.Lawful()
    }
  }

  // A block of the file, the entries in it and where they lie.
  datatype Block = Block(handle: BlockHandle, contents: Bytes, layout: Layout, data: Bytes)

  // ---------------------------------------------------------------------------
  // Data blocks
  // ---------------------------------------------------------------------------

  // Block i holds the entries from cuts[i] up to cuts[i + 1].
  ghost predicate Cut(entries: seq<KeyValue>, cuts: seq<nat>, blocks: seq<Block>) {
    && |cuts| == |blocks| + 1 && cuts[0] == 0 && cuts[|blocks|] <= |entries|
    && forall i: nat | i < |blocks| :: CutAt(entries, cuts, blocks, i)
  }

  ghost predicate CutAt(entries: seq<KeyValue>, cuts: seq<nat>, blocks: seq<Block>, i: nat)
    requires i < |blocks| && |cuts| == |blocks| + 1
  {
    cuts[i] < cuts[i + 1] <= |entries| && blocks[i].layout.entries == entries[cuts[i]..cuts[i + 1]]
  }

  ghost predicate Stored(crc: L.Checksum, file: Bytes, b: Block) {
    StoredAt(crc, file, b.handle, b.contents) && (|file| < LIMIT ==> Finished(b.layout, b.data, b.contents))
  }

  ghost predicate AllStored(crc: L.Checksum, file: Bytes, blocks: seq<Block>) {
    forall i: nat | i < |blocks| :: Stored(crc, file, blocks[i])
  }

  // One block after the other, all before this offset.
  ghost predicate Placed(blocks: seq<Block>, end: nat) {
    && (forall i: nat | i < |blocks| :: blocks[i].handle.offset < end)
    && forall i, j | 0 <= i < j < |blocks| :: blocks[i].handle.offset < blocks[j].handle.offset
  }

  lemma StoredInMore(crc: L.Checksum, file: Bytes, file': Bytes, b: Block)
    requires Stored(crc, file, b) && file <= file'
    ensures Stored(crc, file', b)
  {
    hide StoredAt, Finished;
    StaysStored(crc, file, file', b.handle, b.contents);
  }

  lemma AllStoredInMore(crc: L.Checksum, file: Bytes, file': Bytes, blocks: seq<Block>)
    requires AllStored(crc, file, blocks) && file <= file'
    ensures AllStored(crc, file', blocks)
  {
    hide Stored;
    forall i: nat | i < |blocks|
      ensures Stored(crc, file', blocks[i])
    {
      StoredInMore(crc, file, file', blocks[i]);
    }
  }

  lemma {:induction false} CutsInRange(entries: seq<KeyValue>, cuts: seq<nat>, blocks: seq<Block>, i: nat)
    requires Cut(entries, cuts, blocks) && i <= |blocks|
    ensures i <= cuts[i] <= |entries|
  {
    if i > 0 {
      CutsInRange(entries, cuts, blocks, i - 1);
      assert CutAt(entries, cuts, blocks, i - 1);
    }
  }

  lemma {:induction false} CutsIncrease(entries: seq<KeyValue>, cuts: seq<nat>, blocks: seq<Block>, i: nat, j: nat)
    requires Cut(entries, cuts, blocks) && i <= j <= |blocks|
    ensures cuts[i] <= cuts[j] && (i < j ==> cuts[i] < cuts[j])
    decreases j
  {
    if i < j {
      CutsIncrease(entries, cuts, blocks, i, j - 1);
      assert CutAt(entries, cuts, blocks, j - 1);
    }
  }

  lemma CutMore(entries: seq<KeyValue>, cuts: seq<nat>, blocks: seq<Block>, entry: KeyValue)
    requires Cut(entries, cuts, blocks)
    ensures Cut(entries + [entry], cuts, blocks)
  {
    forall i: nat | i < |blocks|
      ensures CutAt(entries + [entry], cuts, blocks, i)
    {
      assert CutAt(entries, cuts, blocks, i);
    }
  }

  // The entries after the last cut become a block.
  lemma CutAgain(entries: seq<KeyValue>, cuts: seq<nat>, blocks: seq<Block>, b: Block)
    requires Cut(entries, cuts, blocks) && cuts[|blocks|] < |entries|
    requires b.layout.entries == entries[cuts[|blocks|]..]
    ensures Cut(entries, cuts + [|entries|], blocks + [b])
  {
    forall i: nat | i < |blocks| + 1
      ensures CutAt(entries, cuts + [|entries|], blocks + [b], i)
    {
      if i < |blocks| {
        assert CutAt(entries, cuts, blocks, i);
      }
    }
  }

  // ---------------------------------------------------------------------------
  // The index
  // ---------------------------------------------------------------------------

  // The index key of a block that ends before entry c.
  function IndexKey(cmp: Comparator, entries: seq<KeyValue>, c: nat): Bytes
    requires 0 < c <= |entries|
  {
    if c < |entries| then cmp.separator(entries[c - 1].key, entries[c].key) else cmp.successor(entries[c - 1].key)
  }

  ghost predicate IndexAt(cmp: Comparator, entries: seq<KeyValue>, cuts: seq<nat>, blocks: seq<Block>, i: nat,
                          e: KeyValue)
    requires i < |blocks| && |cuts| == |blocks| + 1
  {
    && 0 < cuts[i + 1] <= |entries|
    && e.key == IndexKey(cmp, entries, cuts[i + 1]) && e.value == EncodeHandle(blocks[i].handle)
  }

  // The index entries of the first blocks.
  ghost predicate Indexed(cmp: Comparator, entries: seq<KeyValue>, cuts: seq<nat>, blocks: seq<Block>,
                          index: seq<KeyValue>) {
    && |cuts| == |blocks| + 1 && |index| <= |blocks|
    && forall i: nat | i < |index| :: IndexAt(cmp, entries, cuts, blocks, i, index[i])
  }

  // An index key is at or after the last key of its block and before the first key of the next.
  lemma IndexKeyBetween(cmp: Comparator, entries: seq<KeyValue>, c: nat)
    requires cmp.Lawful() && B.Increasing(cmp, entries) && 0 < c <= |entries|
    ensures !cmp.less(IndexKey(cmp, entries, c), entries[c - 1].key)
    ensures c < |entries| ==> cmp.less(IndexKey(cmp, entries, c), entries[c].key)
  {
  }

  lemma IndexKeysIncrease(cmp: Comparator, entries: seq<KeyValue>, c: nat, d: nat)
    requires cmp.Lawful() && B.Increasing(cmp, entries) && 0 < c < d <= |entries|
    ensures cmp.less(IndexKey(cmp, entries, c), IndexKey(cmp, entries, d))
  {
    hide IndexKey;
    IndexKeyBetween(cmp, entries, c);
    IndexKeyBetween(cmp, entries, d);
    var k, l, x, y := IndexKey(cmp, entries, c), IndexKey(cmp, entries, d), entries[c].key, entries[d - 1].key;
    assert c < d - 1 ==> cmp.less(x, y);
    BeforeAtLeast(cmp, k, y, l) by {
      assert cmp.less(k, y);
    }
  }

  lemma BeforeAtLeast(cmp: Comparator, a: Bytes, b: Bytes, c: Bytes)
    requires cmp.Ordered()
    ensures cmp.less(a, b) && !cmp.less(c, b) ==> cmp.less(a, c)
    ensures !cmp.less(b, a) && cmp.less(b, c) ==> cmp.less(a, c)
  {
  }

  lemma IndexedMore(cmp: Comparator, entries: seq<KeyValue>, cuts: seq<nat>, blocks: seq<Block>,
                    index: seq<KeyValue>, entry: KeyValue)
    requires Cut(entries, cuts, blocks) && Indexed(cmp, entries, cuts, blocks, index)
    requires index == [] || cuts[|index|] < |entries|
    ensures Indexed(cmp, entries + [entry], cuts, blocks, index)
  {
    forall i: nat | i < |index|
      ensures IndexAt(cmp, entries + [entry], cuts, blocks, i, index[i])
    {
      assert IndexAt(cmp, entries, cuts, blocks, i, index[i]);
      CutsIncrease(entries, cuts, blocks, i + 1, |index|);
    }
  }

  // ---------------------------------------------------------------------------
  // Filters
  // ---------------------------------------------------------------------------

  // The keys the filter for this range of offsets is, or will be, made of.
  function KeysAt(filters: seq<seq<Bytes>>, pending: seq<Bytes>, i: nat): seq<Bytes> {
    if i < |filters| then filters[i] else if i == |filters| then pending else []
  }

  ghost predicate KeysCovered(filters: seq<seq<Bytes>>, pending: seq<Bytes>, offset: nat, entries: seq<KeyValue>) {
    forall e | e in entries :: e.key in KeysAt(filters, pending, offset / FILTER_BASE)
  }

  ghost predicate BlocksCovered(filters: seq<seq<Bytes>>, pending: seq<Bytes>, blocks: seq<Block>) {
    forall i: nat | i < |blocks| ::
      KeysCovered(filters, pending, blocks[i].handle.offset, blocks[i].layout.entries)
  }

  // Making filters for later offsets changes none of the sets of keys so far.
  lemma StartKeepsKeys(filters: seq<seq<Bytes>>, pending: seq<Bytes>, filters': seq<seq<Bytes>>,
                       pending': seq<Bytes>, i: nat)
    requires filters <= filters'
    requires if |filters| == |filters'| then pending' == pending else filters'[|filters|] == pending
    ensures i <= |filters| ==> KeysAt(filters', pending', i) == KeysAt(filters, pending, i)
    ensures forall key :: key in KeysAt(filters, pending, i) ==> i <= |filters|
  {
  }

  lemma StartKeepsCovered(filters: seq<seq<Bytes>>, pending: seq<Bytes>, filters': seq<seq<Bytes>>,
                          pending': seq<Bytes>, blocks: seq<Block>)
    requires filters <= filters'
    requires if |filters| == |filters'| then pending' == pending else filters'[|filters|] == pending
    requires BlocksCovered(filters, pending, blocks)
    ensures BlocksCovered(filters', pending', blocks)
  {
    hide KeysAt;
    forall i: nat | i < |blocks|
      ensures KeysCovered(filters', pending', blocks[i].handle.offset, blocks[i].layout.entries)
    {
      assert KeysCovered(filters, pending, blocks[i].handle.offset, blocks[i].layout.entries);
      StartKeepsKeys(filters, pending, filters', pending', blocks[i].handle.offset / FILTER_BASE);
    }
  }

  lemma AddKeepsCovered(filters: seq<seq<Bytes>>, pending: seq<Bytes>, key: Bytes, offset: nat, entries: seq<KeyValue>)
    requires KeysCovered(filters, pending, offset, entries)
    ensures KeysCovered(filters, pending + [key], offset, entries)
  {
    forall e | e in entries
      ensures e.key in KeysAt(filters, pending + [key], offset / FILTER_BASE)
    {
      assert e.key in KeysAt(filters, pending, offset / FILTER_BASE);
    }
  }

  lemma AddKeepsBlocksCovered(filters: seq<seq<Bytes>>, pending: seq<Bytes>, key: Bytes, blocks: seq<Block>)
    requires BlocksCovered(filters, pending, blocks)
    ensures BlocksCovered(filters, pending + [key], blocks)
  {
    hide KeysCovered;
    forall i: nat | i < |blocks|
      ensures KeysCovered(filters, pending + [key], blocks[i].handle.offset, blocks[i].layout.entries)
    {
      AddKeepsCovered(filters, pending, key, blocks[i].handle.offset, blocks[i].layout.entries);
    }
  }

  // Every key of a block is in the filter for its offset.
  ghost predicate FiltersHold(filters: seq<seq<Bytes>>, blocks: seq<Block>) {
    BlocksCovered(filters, [], blocks)
  }

  lemma FinishCovers(filters: seq<seq<Bytes>>, pending: seq<Bytes>, blocks: seq<Block>)
    requires BlocksCovered(filters, pending, blocks)
    ensures FiltersHold(filters + if pending == [] then [] else [pending], blocks)
  {
    if pending == [] {
      assert filters + [] == filters;
    } else {
      StartKeepsCovered(filters, pending, filters + [pending], [], blocks);
    }
  }

  // ---------------------------------------------------------------------------
  // The whole file
  // ---------------------------------------------------------------------------

  datatype Table = Table(entries: seq<KeyValue>, cuts: seq<nat>, blocks: seq<Block>, index: Block, meta: Block,
                         filters: seq<seq<Bytes>>, filterHandle: BlockHandle)

  // The one entry of the metaindex block: "filter." and the policy's name.
  function FilterKey(o: Options): Bytes {
    [0x66, 0x69, 0x6c, 0x74, 0x65, 0x72, 0x2e] + o.policyName
  }

  function MetaEntries(o: Options, filterHandle: BlockHandle): seq<KeyValue> {
    if o.policy.None? then [] else [KeyValue(FilterKey(o), EncodeHandle(filterHandle))]
  }

  ghost predicate FilterStored(o: Options, file: Bytes, t: Table) {
    o.policy.Some? ==>
      && StoredAt(o.crc, file, t.filterHandle, FilterBytes(o.policy.value, t.filters))
      && FiltersHold(t.filters, t.blocks)
  }

  // The file is the finished table of these entries.
  ghost predicate Built(o: Options, file: Bytes, t: Table) {
    && o.Sensible() && |file| < LIMIT
    && B.Increasing(o.cmp, t.entries)
    && Cut(t.entries, t.cuts, t.blocks) && t.cuts[|t.blocks|] == |t.entries|
    && AllStored(o.crc, file, t.blocks) && Placed(t.blocks, |file|)
    && Stored(o.crc, file, t.index) && Stored(o.crc, file, t.meta)
    && |t.index.layout.entries| == |t.blocks|
    && Indexed(o.cmp, t.entries, t.cuts, t.blocks, t.index.layout.entries)
    && t.meta.layout.entries == MetaEntries(o, t.filterHandle)
    && FilterStored(o, file, t)
    && |file| >= FOOTER_SIZE
    && file[|file| - FOOTER_SIZE..] == FooterBytes(t.meta.handle, t.index.handle)
  }
}
