/**
 Table of table/table.cc: opening a finished table, and looking a key up in it through the index, the filter of
 the block and the block.
 */
module TableReading {
  import opened ByteStrings
  import opened Coding
  import opened BlockFormat
  import opened Comparators
  import opened TableFormat
  import opened TableLayout
  import opened FilterBlock
  import opened Keys
  import B = BlockBuilding
  import I = BlockIteration
  import L = LogFormat

  // ---------------------------------------------------------------------------
  // The first entry at or after a key
  // ---------------------------------------------------------------------------

  ghost function FirstAt(cmp: Comparator, entries: seq<KeyValue>, key: Bytes): (p: nat)
    ensures p <= |entries|
  {
    if entries == [] || !cmp.less(entries[0].key, key) then 0 else 1 + FirstAt(cmp, entries[1..], key)
  }

  lemma {:induction false} OnlyFirst(cmp: Comparator, entries: seq<KeyValue>, key: Bytes, p: nat)
    requires p <= |entries| && forall j | 0 <= j < p :: cmp.less(entries[j].key, key)
    requires p < |entries| ==> !cmp.less(entries[p].key, key)
    ensures FirstAt(cmp, entries, key) == p
  {
    if p > 0 {
      OnlyFirst(cmp, entries[1..], key, p - 1);
    }
  }

  lemma {:induction false} FirstMeans(cmp: Comparator, entries: seq<KeyValue>, key: Bytes)
    ensures var p := FirstAt(cmp, entries, key);
            && (forall j | 0 <= j < p :: cmp.less(entries[j].key, key))
            && (p < |entries| ==> !cmp.less(entries[p].key, key))
  {
    if entries != [] && cmp.less(entries[0].key, key) {
      FirstMeans(cmp, entries[1..], key);
      var p := FirstAt(cmp, entries, key);
      forall j | 0 <= j < p
        ensures cmp.less(entries[j].key, key)
      {
        assert j > 0 ==> entries[j] == entries[1..][j - 1];
      }
    }
  }

  // ---------------------------------------------------------------------------
  // Which lookups a table answers
  // ---------------------------------------------------------------------------

  // Keys that are the same are never told apart by a shortened index key or by a filter.
  ghost predicate Suits(cmp: Comparator, policy: Option<FilterPolicy>, same: (Bytes, Bytes) -> bool) {
    && (forall start, limit, key ::
          cmp.less(start, limit) && cmp.less(start, key) && !cmp.less(cmp.separator(start, limit), key) ==> !same(key, limit))
    && (policy.Some? ==> forall keys, added, key ::
          added in keys && same(key, added) ==> policy.value.mayMatch(key, policy.value.create(keys)))
  }

  lemma NotSame(cmp: Comparator, policy: Option<FilterPolicy>, same: (Bytes, Bytes) -> bool, start: Bytes,
                limit: Bytes, key: Bytes)
    requires Suits(cmp, policy, same)
    requires cmp.less(start, limit) && cmp.less(start, key) && !cmp.less(cmp.separator(start, limit), key)
    ensures !same(key, limit)
  {
  }

  // Any comparator and filter, for keys that are equal.
  lemma EqualKeysSuit(cmp: Comparator, policy: Option<FilterPolicy>)
    requires cmp.Lawful() && (policy.Some? ==> policy.value.Sound())
    ensures Suits(cmp, policy, (a, b) => a == b)
  {
  }

  // The comparator and filter of db/dbformat.cc, for internal keys with the same user key.
  lemma SameUserKeysSuit(user: Comparator, policy: Option<FilterPolicy>)
    requires user.Lawful() && (policy.Some? ==> policy.value.Sound())
    ensures Suits(Internal(user), if policy.None? then None else Some(InternalPolicy(policy.value)),
                  (a, b) => UserPart(a) == UserPart(b))
  {
    hide UserPart, TagPart, InternalSeparator, InternalLess, UserParts;
    forall start, limit, key | InternalLess(user, start, limit) && InternalLess(user, start, key)
                             && !InternalLess(user, InternalSeparator(user, start, limit), key)
      ensures UserPart(key) != UserPart(limit)
    {
      NothingBetween(user, start, limit, key);
    }
    if policy.Some? {
      forall keys, added, key | added in keys && UserPart(key) == UserPart(added)
        ensures InternalPolicy(policy.value).mayMatch(key, InternalPolicy(policy.value).create(keys))
      {
        InternalPolicyMatches(policy.value, keys, added, key);
      }
    }
  }

  // ---------------------------------------------------------------------------
  // Where the first entry can be
  // ---------------------------------------------------------------------------

  // The index leads to block i: the index keys of the blocks before are before the key, and its own is not.
  ghost predicate Leads(cmp: Comparator, index: seq<KeyValue>, key: Bytes, i: nat) {
    && i <= |index| && (forall j | 0 <= j < i :: cmp.less(index[j].key, key))
    && (i < |index| ==> !cmp.less(index[i].key, key))
  }

  ghost predicate Ordinary(o: Options, t: Table) {
    && o.Sensible() && B.Increasing(o.cmp, t.entries)
    && Cut(t.entries, t.cuts, t.blocks) && t.cuts[|t.blocks|] == |t.entries|
    && |t.index.layout.entries| == |t.blocks|
    && Indexed(o.cmp, t.entries, t.cuts, t.blocks, t.index.layout.entries)
  }

  // Nothing before block i is at or after the key.
  lemma BeforeBlock(o: Options, t: Table, key: Bytes, i: nat)
    requires Ordinary(o, t) && Leads(o.cmp, t.index.layout.entries, key, i)
    ensures t.cuts[i] <= |t.entries|
    ensures forall j | 0 <= j < t.cuts[i] :: o.cmp.less(t.entries[j].key, key)
  {
    hide IndexKey;
    CutsInRange(t.entries, t.cuts, t.blocks, i);
    if i > 0 {
      var c, k := t.cuts[i], t.index.layout.entries[i - 1].key;
      assert IndexAt(o.cmp, t.entries, t.cuts, t.blocks, i - 1, t.index.layout.entries[i - 1]);
      IndexKeyBetween(o.cmp, t.entries, c);
      var last := t.entries[c - 1].key;
      BeforeAtLeast(o.cmp, last, k, key);
      forall j | 0 <= j < c
        ensures o.cmp.less(t.entries[j].key, key)
      {
        assert j < c - 1 ==> o.cmp.less(t.entries[j].key, last);
      }
    }
  }

  // When nothing in block i is at or after the key, the first entry that is starts the next block, and the index
  // key stands between them.
  lemma AfterBlock(o: Options, t: Table, key: Bytes, i: nat)
    requires Ordinary(o, t) && Leads(o.cmp, t.index.layout.entries, key, i) && i < |t.blocks|
    requires forall j | 0 <= j < |t.blocks[i].layout.entries| :: o.cmp.less(t.blocks[i].layout.entries[j].key, key)
    ensures 0 < t.cuts[i + 1] && FirstAt(o.cmp, t.entries, key) == t.cuts[i + 1]
    ensures t.cuts[i + 1] < |t.entries| ==>
      var start, limit := t.entries[t.cuts[i + 1] - 1].key, t.entries[t.cuts[i + 1]].key;
      o.cmp.less(start, limit) && o.cmp.less(start, key) && !o.cmp.less(o.cmp.separator(start, limit), key)
  {
    BeforeBlock(o, t, key, i);
    assert CutAt(t.entries, t.cuts, t.blocks, i);
    var b, c, entries := t.cuts[i], t.cuts[i + 1], t.blocks[i].layout.entries;
    forall j | 0 <= j < c
      ensures o.cmp.less(t.entries[j].key, key)
    {
      assert j >= b ==> t.entries[j] == entries[j - b];
    }
    assert IndexAt(o.cmp, t.entries, t.cuts, t.blocks, i, t.index.layout.entries[i]);
    IndexKeyBetween(o.cmp, t.entries, c);
    if c < |t.entries| {
      BeforeAtLeast(o.cmp, IndexKey(o.cmp, t.entries, c), t.entries[c].key, key);
    }
    OnlyFirst(o.cmp, t.entries, key, c);
  }

  lemma InBlock(o: Options, t: Table, key: Bytes, i: nat, q: nat)
    requires Ordinary(o, t) && Leads(o.cmp, t.index.layout.entries, key, i) && i < |t.blocks|
    requires q < |t.blocks[i].layout.entries| && !o.cmp.less(t.blocks[i].layout.entries[q].key, key)
    requires forall j | 0 <= j < q :: o.cmp.less(t.blocks[i].layout.entries[j].key, key)
    ensures var p := FirstAt(o.cmp, t.entries, key);
            p == t.cuts[i] + q < |t.entries| && t.entries[p] == t.blocks[i].layout.entries[q]
  {
    hide IndexKey;
    BeforeBlock(o, t, key, i);
    assert CutAt(t.entries, t.cuts, t.blocks, i);
    var b, entries := t.cuts[i], t.blocks[i].layout.entries;
    forall j | 0 <= j < b + q
      ensures o.cmp.less(t.entries[j].key, key)
    {
      assert j >= b ==> t.entries[j] == entries[j - b];
    }
    OnlyFirst(o.cmp, t.entries, key, b + q);
  }

  lemma IndexIncreases(o: Options, t: Table)
    requires Ordinary(o, t)
    ensures B.Increasing(o.cmp, t.index.layout.entries)
  {
    hide IndexKey;
    var index := t.index.layout.entries;
    forall i, j | 0 <= i < j < |index|
      ensures o.cmp.less(index[i].key, index[j].key)
    {
      assert IndexAt(o.cmp, t.entries, t.cuts, t.blocks, i, index[i]);
      assert IndexAt(o.cmp, t.entries, t.cuts, t.blocks, j, index[j]);
      CutsIncrease(t.entries, t.cuts, t.blocks, i + 1, j + 1);
      IndexKeysIncrease(o.cmp, t.entries, t.cuts[i + 1], t.cuts[j + 1]);
    }
  }

  lemma BlockIncreases(o: Options, t: Table, i: nat)
    requires Ordinary(o, t) && i < |t.blocks|
    ensures B.Increasing(o.cmp, t.blocks[i].layout.entries)
  {
    assert CutAt(t.entries, t.cuts, t.blocks, i);
  }

  // A key the filter turns away is the same as no key of the block.
  lemma FilterTurnsAway(o: Options, t: Table, key: Bytes, i: nat, same: (Bytes, Bytes) -> bool, q: nat)
    requires o.policy.Some? && |FilterBytes(o.policy.value, t.filters)| < LIMIT && FiltersHold(t.filters, t.blocks)
    requires i < |t.blocks| && q < |t.blocks[i].layout.entries|
    requires !KeyMayMatch(OpenFilter(o.policy.value, FilterBytes(o.policy.value, t.filters)), t.blocks[i].handle.offset, key)
    requires Suits(o.cmp, o.policy, same)
    ensures !same(key, t.blocks[i].layout.entries[q].key)
  {
    hide FilterData, OpenFilter, KeyMayMatch;
    var policy, b, e := o.policy.value, t.blocks[i], t.blocks[i].layout.entries[q];
    ReaderAsksTheFilter(policy, t.filters, b.handle.offset, key);
    assert KeysCovered(t.filters, [], b.handle.offset, b.layout.entries);
    assert e.key in KeysAt(t.filters, [], b.handle.offset / FILTER_BASE);
  }

  // A lookup that block i, or the filter for it, does not answer has nothing to find.
  lemma NothingToFind(o: Options, t: Table, key: Bytes, i: nat, same: (Bytes, Bytes) -> bool)
    requires Ordinary(o, t) && Leads(o.cmp, t.index.layout.entries, key, i) && Suits(o.cmp, o.policy, same)
    requires i < |t.blocks| ==>
               forall q | 0 <= q < |t.blocks[i].layout.entries| ::
                 o.cmp.less(t.blocks[i].layout.entries[q].key, key) || !same(key, t.blocks[i].layout.entries[q].key)
    ensures var p := FirstAt(o.cmp, t.entries, key); p < |t.entries| ==> !same(key, t.entries[p].key)
  {
    hide Indexed;
    if i == |t.blocks| {
      BeforeBlock(o, t, key, i);
      OnlyFirst(o.cmp, t.entries, key, |t.entries|);
    } else {
      var entries := t.blocks[i].layout.entries;
      var q := FirstAt(o.cmp, entries, key);
      FirstMeans(o.cmp, entries, key);
      if q < |entries| {
        InBlock(o, t, key, i, q);
      } else {
        AfterBlock(o, t, key, i);
        var c := t.cuts[i + 1];
        if c < |t.entries| {
          NotSame(o.cmp, o.policy, same, t.entries[c - 1].key, t.entries[c].key, key);
        }
      }
    }
  }

  // ---------------------------------------------------------------------------
  // Opening a table
  // ---------------------------------------------------------------------------

  datatype Status = Ok | Corruption(message: string)

  // What Table::Open reads before anything else, and what it makes of any file.
  datatype Opening = Refused(status: Status) | Opened(meta: BlockHandle, index: Bytes)

  function ReadStatus(r: ReadResult): Status {
    match r
    case Contents(_) => Ok
    case Truncated => Corruption("truncated block read")
    case ChecksumMismatch => Corruption("block checksum mismatch")
    case Compressed(_) => Corruption("corrupted compressed block contents")
    case BadType => Corruption("bad block type")
  }

  function OpenFile(o: Options, file: Bytes): Opening {
    if |file| < FOOTER_SIZE then Refused(Corruption("file is too short to be an sstable"))
    else
      match DecodeFooter(file[|file| - FOOTER_SIZE..])
      case BadMagic => Refused(Corruption("not an sstable (bad magic number)"))
      case BadHandle => Refused(Corruption("bad block handle"))
      case Footer(meta, index) =>
        var r := ReadBlock(o.crc, file, o.verify, index);
        if r.Contents? then Opened(meta, r.data) else Refused(ReadStatus(r))
  }

  lemma StoredFits(crc: L.Checksum, file: Bytes, h: BlockHandle, contents: Bytes)
    requires StoredAt(crc, file, h, contents) && |file| < LIMIT
    ensures h.Fits() && |contents| < LIMIT && DecodeHandle(EncodeHandle(h)) == Parsed(h, [])
  {
    hide EncodeHandle, DecodeHandle;
    HandleRoundTrip(h, []);
    assert EncodeHandle(h) + [] == EncodeHandle(h);
  }

  lemma BuiltOpens(o: Options, file: Bytes, t: Table)
    requires Built(o, file, t)
    ensures OpenFile(o, file) == Opened(t.meta.handle, t.index.contents)
  {
    hide FooterBytes, DecodeFooter, ReadBlock, StoredAt, Finished, FilterStored, Indexed, Cut, AllStored;
    StoredFits(o.crc, file, t.meta.handle, t.meta.contents);
    StoredFits(o.crc, file, t.index.handle, t.index.contents);
    FooterRoundTrip(t.meta.handle, t.index.handle);
    StoredReadsBack(o.crc, file, o.verify, t.index.handle, t.index.contents);
  }

  lemma MetaReads(o: Options, file: Bytes, t: Table)
    requires Built(o, file, t) && o.policy.Some?
    ensures ReadBlock(o.crc, file, o.verify, t.meta.handle) == Contents(t.meta.contents)
    ensures Finished(t.meta.layout, t.meta.data, t.meta.contents)
    ensures t.meta.layout.entries == [KeyValue(FilterKey(o), EncodeHandle(t.filterHandle))]
    ensures B.Increasing(Bytewise(), t.meta.layout.entries) && Bytewise().Ordered()
    ensures !Bytewise().less(FilterKey(o), FilterKey(o))
  {
    hide ReadBlock, StoredAt, Finished, FilterStored, Indexed, Cut, AllStored, FilterKey, EncodeHandle, FooterBytes;
    hide Bytewise, BytesLess, ShortestSeparator, ShortSuccessor;
    StoredReadsBack(o.crc, file, o.verify, t.meta.handle, t.meta.contents);
    BytewiseIsLawful();
  }

  lemma DataReads(o: Options, file: Bytes, t: Table, i: nat)
    requires Built(o, file, t) && i < |t.blocks|
    ensures var b := t.blocks[i];
            && DecodeHandle(EncodeHandle(b.handle)) == Parsed(b.handle, [])
            && ReadBlock(o.crc, file, o.verify, b.handle) == Contents(b.contents)
            && Finished(b.layout, b.data, b.contents)
            && B.Increasing(o.cmp, b.layout.entries) && o.cmp.Ordered()
  {
    hide ReadBlock, StoredAt, Finished, FilterStored, FooterBytes, EncodeHandle, DecodeHandle, Indexed, Cut,
         B.Increasing;
    var b := t.blocks[i];
    assert Stored(o.crc, file, b);
    StoredFits(o.crc, file, b.handle, b.contents);
    StoredReadsBack(o.crc, file, o.verify, b.handle, b.contents);
    BlockIncreases(o, t, i);
  }

  lemma IndexReads(o: Options, file: Bytes, t: Table)
    requires Built(o, file, t)
    ensures Ordinary(o, t) && o.cmp.Ordered()
    ensures Finished(t.index.layout, t.index.data, t.index.contents) && B.Increasing(o.cmp, t.index.layout.entries)
  {
    hide StoredAt, Finished, FilterStored, FooterBytes, Indexed, Cut, B.Increasing, AllStored;
    IndexIncreases(o, t);
  }

  lemma IndexValue(o: Options, file: Bytes, t: Table, i: nat)
    requires Built(o, file, t) && i < |t.blocks|
    ensures |t.index.layout.entries| == |t.blocks|
    ensures t.index.layout.entries[i].value == EncodeHandle(t.blocks[i].handle)
    ensures DecodeHandle(EncodeHandle(t.blocks[i].handle)) == Parsed(t.blocks[i].handle, [])
  {
    hide StoredAt, Finished, FilterStored, FooterBytes, Cut, B.Increasing, EncodeHandle, DecodeHandle, AllStored;
    DataReads(o, file, t, i);
    assert IndexAt(o.cmp, t.entries, t.cuts, t.blocks, i, t.index.layout.entries[i]);
  }

  // NothingToFind, as InternalGet needs it: only when the keys suit.
  lemma NotFound(o: Options, t: Table, key: Bytes, i: nat, same: (Bytes, Bytes) -> bool)
    requires Ordinary(o, t) && Leads(o.cmp, t.index.layout.entries, key, i)
    requires i < |t.blocks| ==>
               forall q | 0 <= q < |t.blocks[i].layout.entries| :: o.cmp.less(t.blocks[i].layout.entries[q].key, key)
    ensures var p := FirstAt(o.cmp, t.entries, key);
            Suits(o.cmp, o.policy, same) && p < |t.entries| ==> !same(key, t.entries[p].key)
  {
    hide Suits, Ordinary, Leads, FirstAt;
    if Suits(o.cmp, o.policy, same) {
      NothingToFind(o, t, key, i, same);
    }
  }

  lemma TurnedAway(o: Options, file: Bytes, t: Table, key: Bytes, i: nat, same: (Bytes, Bytes) -> bool)
    requires Built(o, file, t) && Leads(o.cmp, t.index.layout.entries, key, i) && i < |t.blocks| && o.policy.Some?
    requires !KeyMayMatch(OpenFilter(o.policy.value, FilterBytes(o.policy.value, t.filters)), t.blocks[i].handle.offset, key)
    ensures var p := FirstAt(o.cmp, t.entries, key);
            Suits(o.cmp, o.policy, same) && p < |t.entries| ==> !same(key, t.entries[p].key)
  {
    hide Suits, Leads, FirstAt, StoredAt, Stored, AllStored, FooterBytes, FilterBytes, OpenFilter, KeyMayMatch,
         FiltersHold, Indexed, Cut;
    if Suits(o.cmp, o.policy, same) {
      IndexReads(o, file, t);
      StoredFits(o.crc, file, t.filterHandle, FilterBytes(o.policy.value, t.filters));
      forall q | 0 <= q < |t.blocks[i].layout.entries|
        ensures !same(key, t.blocks[i].layout.entries[q].key)
      {
        FilterTurnsAway(o, t, key, i, same, q);
      }
      NothingToFind(o, t, key, i, same);
    }
  }

  // A lookup that comes to block i gets past the filter for it, and the block has an entry at or after the key.
  ghost predicate Finds(o: Options, t: Table, key: Bytes, i: nat) {
    && i < |t.blocks|
    && (o.policy.None? || KeyMayMatch(OpenFilter(o.policy.value, FilterBytes(o.policy.value, t.filters)),
                                      t.blocks[i].handle.offset, key))
    && FirstAt(o.cmp, t.blocks[i].layout.entries, key) < |t.blocks[i].layout.entries|
  }

  // The one block a lookup comes to, and whether it reports.
  ghost predicate Looked(o: Options, t: Table, key: Bytes, found: bool) {
    exists i :: Leads(o.cmp, t.index.layout.entries, key, i) && found == Finds(o, t, key, i)
  }

  lemma LookedAt(o: Options, t: Table, key: Bytes, i: nat, found: bool)
    requires Leads(o.cmp, t.index.layout.entries, key, i) && found == Finds(o, t, key, i)
    ensures Looked(o, t, key, found)
  {
    hide Finds, Leads;
  }

  lemma Located(o: Options, t: Table, key: Bytes, i: nat, q: nat)
    requires i < |t.blocks| && q <= |t.blocks[i].layout.entries|
    requires forall j | 0 <= j < q :: o.cmp.less(t.blocks[i].layout.entries[j].key, key)
    requires q < |t.blocks[i].layout.entries| ==> !o.cmp.less(t.blocks[i].layout.entries[q].key, key)
    ensures FirstAt(o.cmp, t.blocks[i].layout.entries, key) == q
  {
    OnlyFirst(o.cmp, t.blocks[i].layout.entries, key, q);
  }

  function StatusOf(o: Opening): Status {
    if o.Opened? then Ok else o.status
  }

  lemma RefusedIsError(o: Options, file: Bytes)
    ensures OpenFile(o, file).Refused? ==> OpenFile(o, file).status.Corruption?
  {
    hide ReadBlock, DecodeFooter;
  }

  // If the file opens and its metaindex block can be read, that block is a finished one with increasing keys.
  ghost predicate MetaIsBlock(o: Options, file: Bytes, t: Table) {
    var first := OpenFile(o, file);
    first.Opened? && o.policy.Some? ==>
      var r := ReadBlock(o.crc, file, o.verify, first.meta);
      r.Contents? ==> Finished(t.meta.layout, t.meta.data, r.data) && B.Increasing(Bytewise(), t.meta.layout.entries)
  }

  lemma BuiltHasMeta(o: Options, file: Bytes, t: Table)
    requires Built(o, file, t)
    ensures MetaIsBlock(o, file, t)
  {
    hide Built, OpenFile, ReadBlock, Finished, Bytewise, B.Increasing;
    BuiltOpens(o, file, t);
    if o.policy.Some? {
      MetaReads(o, file, t);
    }
  }

  lemma BytewiseOrdered()
    ensures Bytewise().Ordered()
  {
    BytewiseIsLawful();
  }

  method NewIterator(cmp: Comparator, contents: Bytes, ghost layout: Layout, ghost data: Bytes) returns (iter: I.Iter)
    requires Finished(layout, data, contents) && B.Increasing(cmp, layout.entries) && cmp.Ordered()
    ensures fresh(iter) && iter.Good() && !iter.Valid() && iter.layout == layout && iter.cmp == cmp
  {
    hide Finished, B.Increasing, OpenBlock;
    OpensAtRestarts(layout, data, contents);
    var found := OpenBlock(contents);
    iter := new I.Iter(cmp, contents, found.restarts, found.numRestarts, layout, data);
  }

  function ValueOf(iter: I.Iter): Bytes
    requires iter.valueAt + iter.valueLength <= |iter.contents|
    reads iter
  {
    iter.contents[iter.valueAt..iter.valueAt + iter.valueLength]
  }

  class TableReader {
    const options: Options
    const file: Bytes
    const indexBlock: Bytes
    const metaindexHandle: BlockHandle
    var filter: Option<FilterReader>
    ghost const t: Table

    ghost predicate Fixed() {
      && Built(options, file, t)
      && indexBlock == t.index.contents && metaindexHandle == t.meta.handle
    }

    ghost predicate Good()
      reads this
    {
      && Fixed()
      && filter == if options.policy.None? then None
                   else Some(OpenFilter(options.policy.value, FilterBytes(options.policy.value, t.filters)))
    }

    constructor (options: Options, file: Bytes, indexBlock: Bytes, metaindexHandle: BlockHandle, ghost t: Table)
      ensures this.options == options && this.file == file && this.indexBlock == indexBlock
      ensures this.metaindexHandle == metaindexHandle && this.t == t && filter == None
    {
      this.options, this.file, this.indexBlock, this.metaindexHandle := options, file, indexBlock, metaindexHandle;
      this.t, filter := t, None;
    }

    // Any file: Open says what OpenFile says of it. A table that was built is opened with the filters that were
    // written; of any other file it is only asked that its metaindex block, if it can be read, is a block.
    static method Open(options: Options, file: Bytes, ghost t: Table) returns (status: Status, table: TableReader?)
      requires MetaIsBlock(options, file, t)
      ensures status == StatusOf(OpenFile(options, file)) && (table != null <==> status.Ok?)
      ensures table != null ==>
        && fresh(table) && table.options == options && table.file == file && table.t == t
        && OpenFile(options, file) == Opened(table.metaindexHandle, table.indexBlock)
        && (Built(options, file, t) ==> table.Good())
    {
      hide Built, OpenFile, MetaIsBlock;
      match OpenFile(options, file) {
        case Refused(s) =>
          RefusedIsError(options, file);
          status, table := s, null;
        case Opened(meta, index) =>
          status := Ok;
          table := new TableReader(options, file, index, meta, t);
          table.ReadMeta();
          if Built(options, file, t) {
            BuiltOpens(options, file, t);
          }
      }
    }

    method ReadMeta()
      requires filter == None && MetaIsBlock(options, file, t)
      requires OpenFile(options, file) == Opened(metaindexHandle, indexBlock)
      modifies this`filter
      ensures Built(options, file, t) && Fixed() ==> Good()
    {
      hide Built, ReadBlock, Finished, FilterBytes, OpenFilter, FilterKey, EncodeHandle, Bytewise, B.Increasing;
      hide OpenFile;
      if options.policy.None? {
        return;
      }
      if Built(options, file, t) {
        MetaReads(options, file, t);
      }
      var contents := ReadBlock(options.crc, file, options.verify, metaindexHandle);
      if contents.Contents? {
        BytewiseOrdered();
        var iter := NewIterator(Bytewise(), contents.data, t.meta.layout, t.meta.data);
        var key := FilterKey(options);
        iter.Seek(key);
        iter.CurrentEntry();
        ghost var entries := iter.layout.entries;
        assert |entries| == 1 && entries[0].key == key ==> iter.Valid() by {
          assert |entries| == 1 ==> iter.pos == 0 || Bytewise().less(entries[0].key, key);
        }
        if iter.Valid() && iter.key == key {
          ReadFilter(ValueOf(iter));
        }
      }
    }

    method ReadFilter(filterHandleValue: Bytes)
      requires options.policy.Some?
      modifies this`filter
      ensures Fixed() && filterHandleValue == EncodeHandle(t.filterHandle) ==> Good()
    {
      hide ReadBlock, StoredAt, FilterBytes, OpenFilter, EncodeHandle, DecodeHandle, Finished, Indexed, Cut, AllStored,
           FiltersHold;
      var policy := options.policy.value;
      if Fixed() {
        StoredFits(options.crc, file, t.filterHandle, FilterBytes(policy, t.filters));
        StoredReadsBack(options.crc, file, options.verify, t.filterHandle, FilterBytes(policy, t.filters));
      }
      var handle := DecodeHandle(filterHandleValue);
      if handle.Parsed? {
        var block := ReadBlock(options.crc, file, options.verify, handle.value);
        if block.Contents? {
          filter := Some(OpenFilter(policy, block.data));
        }
      }
    }

    // BlockReader, for the index value of block i.
    method BlockReader(indexValue: Bytes, ghost i: nat) returns (status: Status, iter: I.Iter?)
      requires Fixed() && i < |t.blocks| && indexValue == EncodeHandle(t.blocks[i].handle)
      ensures status.Ok? && iter != null && fresh(iter) && iter.Good()
      ensures iter.cmp == options.cmp && iter.layout == t.blocks[i].layout
    {
      hide Built, ReadBlock, Finished, EncodeHandle, DecodeHandle, B.Increasing;
      DataReads(options, file, t, i);
      var handle := DecodeHandle(indexValue);
      if handle.Malformed? {
        status, iter := Corruption("bad block handle"), null;
        assert false;
      } else {
        var contents := ReadBlock(options.crc, file, options.verify, handle.value);
        if !contents.Contents? {
          status, iter := ReadStatus(contents), null;
          assert false;
        } else {
          status := Ok;
          iter := NewIterator(options.cmp, contents.data, t.blocks[i].layout, t.blocks[i].data);
        }
      }
    }

    // Reports only the first entry at or after the key, and exactly when the block that the index leads to has it and
    // the filter for the block lets the key pass. So it does whenever that entry has the same key, for any notion of
    // sameness the comparator and the filter respect.
    method InternalGet(key: Bytes, ghost same: (Bytes, Bytes) -> bool)
      returns (status: Status, result: Option<KeyValue>)
      requires Good()
      ensures status.Ok?
      ensures var p := FirstAt(options.cmp, t.entries, key);
              && (result.Some? ==> p < |t.entries| && result.value == t.entries[p])
              && (Suits(options.cmp, options.policy, same) && p < |t.entries| && same(key, t.entries[p].key) ==>
                    result.Some?)
      ensures Looked(options, t, key, result.Some?)
    {
      hide Built, Finished, EncodeHandle, DecodeHandle, B.Increasing, KeyMayMatch, OpenFilter, FirstAt, Suits,
           FilterBytes, Looked;
      status, result := Ok, None;
      IndexReads(options, file, t);
      var iiter := NewIterator(options.cmp, indexBlock, t.index.layout, t.index.data);
      iiter.Seek(key);
      iiter.CurrentEntry();
      ghost var i := iiter.pos;
      if iiter.Valid() {
        var handleValue := ValueOf(iiter);
        IndexValue(options, file, t, i);
        var handle := DecodeHandle(handleValue);
        if filter.Some? && handle.Parsed? && !KeyMayMatch(filter.value, handle.value.offset, key) {
          TurnedAway(options, file, t, key, i, same);
        } else {
          var blockIter;
          status, blockIter := BlockReader(handleValue, i);
          blockIter.Seek(key);
          blockIter.CurrentEntry();
          Located(options, t, key, i, blockIter.pos);
          if blockIter.Valid() {
            result := Some(KeyValue(blockIter.key, ValueOf(blockIter)));
            InBlock(options, t, key, i, blockIter.pos);
          } else {
            NotFound(options, t, key, i, same);
          }
        }
      } else {
        NotFound(options, t, key, i, same);
      }
      LookedAt(options, t, key, i, result.Some?);
    }
  }
}
