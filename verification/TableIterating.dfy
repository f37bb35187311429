/**
 Table::NewIterator: the two-level iterator of table/two_level_iterator.cc over the index and the data blocks of a
 table file. It is a cursor on exactly the entries the table was built from, under any mix of moves.
 */
module TableIterating {
  import opened ByteStrings
  import opened BlockFormat
  import opened Comparators
  import opened TableFormat
  import opened TableLayout
  import opened TableReading
  import opened Coding
  import opened Keys
  import B = BlockBuilding
  import I = BlockIteration

  // Different blocks have different index values.
  lemma IndexValuesDiffer(o: Options, file: Bytes, t: Table, i: nat, j: nat)
    requires Built(o, file, t) && i < |t.blocks| && j < |t.blocks|
    requires EncodeHandle(t.blocks[i].handle) == EncodeHandle(t.blocks[j].handle)
    ensures i == j
  {
    hide StoredAt, Finished, FilterStored, FooterBytes, Cut, B.Increasing, EncodeHandle, DecodeHandle, AllStored, Indexed;
    IndexValue(o, file, t, i);
    IndexValue(o, file, t, j);
  }

  // A block has as many entries as there are between its cuts, and at least one.
  lemma BlockLength(o: Options, t: Table, i: nat)
    requires Ordinary(o, t) && i < |t.blocks|
    ensures |t.cuts| == |t.blocks| + 1 && t.cuts[0] == 0 && t.cuts[|t.blocks|] == |t.entries|
    ensures t.cuts[i] < t.cuts[i + 1] <= |t.entries|
    ensures t.blocks[i].layout.entries == t.entries[t.cuts[i]..t.cuts[i + 1]]
  {
    assert CutAt(t.entries, t.cuts, t.blocks, i);
  }

  lemma NoBlocks(o: Options, t: Table)
    requires Ordinary(o, t)
    ensures |t.cuts| == |t.blocks| + 1 && t.cuts[0] == 0 && t.cuts[|t.blocks|] == |t.entries|
    ensures |t.index.layout.entries| == |t.blocks|
  {
  }

  lemma IndexOf(table: TableReader)
    requires table.Good()
    ensures Ordinary(table.options, table.t) && table.options.cmp.Ordered()
    ensures |table.t.index.layout.entries| == |table.t.blocks|
    ensures Finished(table.t.index.layout, table.t.index.data, table.indexBlock)
    ensures B.Increasing(table.options.cmp, table.t.index.layout.entries)
  {
    hide Built;
    IndexReads(table.options, table.file, table.t);
  }

  lemma IndexEntry(table: TableReader, i: nat)
    requires table.Good() && i < |table.t.blocks|
    ensures table.Fixed() && |table.t.index.layout.entries| == |table.t.blocks|
    ensures table.t.index.layout.entries[i].value == EncodeHandle(table.t.blocks[i].handle)
  {
    hide Built, EncodeHandle;
    IndexValue(table.options, table.file, table.t, i);
  }

  lemma SameBlock(table: TableReader, i: nat, j: nat)
    requires table.Good() && i < |table.t.blocks| && j < |table.t.blocks|
    requires EncodeHandle(table.t.blocks[i].handle) == EncodeHandle(table.t.blocks[j].handle)
    ensures i == j
  {
    hide Built, EncodeHandle;
    IndexValuesDiffer(table.options, table.file, table.t, i, j);
  }

  // Where a block starts among the entries.
  ghost function Start(t: Table, i: nat): nat {
    if i < |t.cuts| then t.cuts[i] else 0
  }

  class TableIterator {
    const table: TableReader
    const indexIter: I.Iter
    var dataIter: I.Iter?
    var dataBlockHandle: Bytes   // the index value dataIter was made from
    ghost var block: nat         // the block dataIter is on

    ghost predicate Wired()
      reads this, table, indexIter, dataIter
    {
      && table.Good() && Ordinary(table.options, table.t)
      && indexIter.Good() && indexIter.cmp == table.options.cmp && indexIter.layout == table.t.index.layout
      && indexIter != dataIter
      && (dataIter != null ==>
            && block < |table.t.blocks| && dataIter.Good() && dataIter.cmp == table.options.cmp
            && dataIter.layout == table.t.blocks[block].layout
            && dataBlockHandle == EncodeHandle(table.t.blocks[block].handle))
    }

    // The data iterator is that of the index entry the index iterator is on.
    ghost predicate InStep()
      reads this, table, indexIter, dataIter
    {
      && Wired()
      && if dataIter == null then indexIter.pos == |table.t.blocks| else block == indexIter.pos
    }

    ghost predicate Good()
      reads this, table, indexIter, dataIter
    {
      InStep() && (dataIter != null ==> dataIter.pos < |dataIter.layout.entries|)
    }

    predicate Valid()
      reads this, dataIter
    {
      dataIter != null && dataIter.Valid()
    }

    // The entry of the table the cursor is on, or the number of entries when it is on none.
    ghost function At(): nat
      reads this, table, dataIter
    {
      if dataIter == null then |table.t.entries| else Start(table.t, block) + dataIter.pos
    }

    constructor (table: TableReader)
      requires table.Good()
      ensures Good() && !Valid() && this.table == table && fresh(indexIter) && dataIter == null
    {
      hide TableReader.Good, I.Iter.Good, Ordinary, EncodeHandle, Built, Finished, B.Increasing;
      IndexOf(table);
      var index := NewIterator(table.options.cmp, table.indexBlock, table.t.index.layout, table.t.index.data);
      this.table := table;
      indexIter := index;
      dataIter, dataBlockHandle, block := null, [], 0;
      new;
      indexIter.CurrentEntry();
    }

    // key() and value() of a valid cursor are those of the entry it is on.
    lemma CurrentEntry()
      requires Good()
      ensures Valid() <==> At() < |table.t.entries|
      ensures Valid() ==> dataIter.key == table.t.entries[At()].key
      ensures Valid() ==> dataIter.valueAt + dataIter.valueLength <= |dataIter.contents|
      ensures Valid() ==> ValueOf(dataIter) == table.t.entries[At()].value
    {
      hide TableReader.Good, I.Iter.Good, Ordinary, EncodeHandle;
      NoBlocks(table.options, table.t);
      if dataIter != null {
        BlockLength(table.options, table.t, block);
        dataIter.CurrentEntry();
      }
    }

    // The data iterator for the index entry; the one there is stays if it is for the same block.
    method InitDataBlock()
      requires Wired()
      modifies this
      ensures InStep() && (dataIter != null ==> dataIter == old(dataIter) || fresh(dataIter))
      ensures indexIter.pos == old(indexIter.pos)
    {
      hide TableReader.Good, I.Iter.Good, Ordinary, EncodeHandle, Built;
      indexIter.CurrentEntry();
      NoBlocks(table.options, table.t);
      if !indexIter.Valid() {
        dataIter := null;
      } else {
        var handle := ValueOf(indexIter);
        ghost var i := indexIter.pos;
        IndexEntry(table, i);
        if dataIter != null && handle == dataBlockHandle {
          SameBlock(table, i, block);
        } else {
          var status, iter := table.BlockReader(handle, i);
          dataIter, dataBlockHandle, block := iter, handle, i;
        }
      }
    }

    // Moves on to the next entry when the data iterator has run off its block.
    method SkipEmptyDataBlocksForward()
      requires InStep()
      modifies this, indexIter, dataIter
      ensures Good() && At() == old(At()) && (dataIter != null ==> dataIter == old(dataIter) || fresh(dataIter))
    {
      hide TableReader.Good, I.Iter.Good, Ordinary, EncodeHandle;
      NoBlocks(table.options, table.t);
      while dataIter == null || !dataIter.Valid()
        invariant InStep() && At() == old(At())
        invariant dataIter != null ==> dataIter == old(dataIter) || fresh(dataIter)
        decreases if dataIter == null then 0 else 1 + |table.t.blocks| - indexIter.pos
      {
        if dataIter != null {
          dataIter.CurrentEntry();
          BlockLength(table.options, table.t, block);
        }
        indexIter.CurrentEntry();
        if !indexIter.Valid() {
          dataIter := null;
          return;
        }
        indexIter.Next();
        InitDataBlock();
        if dataIter != null {
          dataIter.SeekToFirst();
        }
      }
      dataIter.CurrentEntry();
    }

    // The entry before the place where the data iterator stands: where it is, unless it has gone back past the
    // first entry of its block.
    ghost function Before(): int
      reads this, table, dataIter
    {
      if dataIter == null then -1
      else if dataIter.pos < |dataIter.layout.entries| then Start(table.t, block) + dataIter.pos
      else Start(table.t, block) - 1
    }

    method SkipEmptyDataBlocksBackward()
      requires InStep()
      modifies this, indexIter, dataIter
      ensures Good() && At() == if old(Before()) < 0 then |table.t.entries| else old(Before())
      ensures dataIter != null ==> dataIter == old(dataIter) || fresh(dataIter)
    {
      hide TableReader.Good, I.Iter.Good, Ordinary, EncodeHandle;
      NoBlocks(table.options, table.t);
      while dataIter == null || !dataIter.Valid()
        invariant InStep() && Before() == old(Before())
        invariant dataIter != null ==> dataIter == old(dataIter) || fresh(dataIter)
        decreases if dataIter == null then 0 else 1 + indexIter.pos
      {
        if dataIter != null {
          dataIter.CurrentEntry();
          BlockLength(table.options, table.t, block);
        }
        indexIter.CurrentEntry();
        if !indexIter.Valid() {
          dataIter := null;
          return;
        }
        indexIter.Prev();
        InitDataBlock();
        if dataIter != null {
          BlockLength(table.options, table.t, block);
          dataIter.SeekToLast();
        }
      }
      dataIter.CurrentEntry();
    }

    method SeekToFirst()
      requires Good()
      modifies this, indexIter, dataIter
      ensures Good() && At() == 0
      ensures dataIter != null ==> dataIter == old(dataIter) || fresh(dataIter)
    {
      hide TableReader.Good, I.Iter.Good, Ordinary, EncodeHandle;
      NoBlocks(table.options, table.t);
      indexIter.SeekToFirst();
      InitDataBlock();
      if dataIter != null {
        dataIter.SeekToFirst();
      }
      SkipEmptyDataBlocksForward();
    }

    method SeekToLast()
      requires Good()
      modifies this, indexIter, dataIter
      ensures Good() && At() == if table.t.entries == [] then 0 else |table.t.entries| - 1
      ensures dataIter != null ==> dataIter == old(dataIter) || fresh(dataIter)
    {
      hide TableReader.Good, I.Iter.Good, Ordinary, EncodeHandle;
      NoBlocks(table.options, table.t);
      indexIter.SeekToLast();
      InitDataBlock();
      if dataIter != null {
        BlockLength(table.options, table.t, block);
        dataIter.SeekToLast();
      }
      SkipEmptyDataBlocksBackward();
    }

    // The first entry of the table at or after the target.
    method Seek(target: Bytes)
      requires Good()
      modifies this, indexIter, dataIter
      ensures Good() && At() == FirstAt(table.options.cmp, table.t.entries, target)
      ensures dataIter != null ==> dataIter == old(dataIter) || fresh(dataIter)
    {
      hide TableReader.Good, I.Iter.Good, Ordinary, EncodeHandle, FirstAt;
      NoBlocks(table.options, table.t);
      indexIter.Seek(target);
      indexIter.CurrentEntry();
      InitDataBlock();
      if dataIter != null {
        dataIter.Seek(target);
        dataIter.CurrentEntry();
        BlockLength(table.options, table.t, block);
        FirstInBlock(table.options, table.t, target, block, dataIter.pos);
      } else {
        AfterAll(table.options, table.t, target);
      }
      SkipEmptyDataBlocksForward();
    }

    method Next()
      requires Good() && Valid()
      modifies this, indexIter, dataIter
      ensures Good() && At() == old(At()) + 1
      ensures dataIter != null ==> dataIter == old(dataIter) || fresh(dataIter)
    {
      hide TableReader.Good, I.Iter.Good, Ordinary, EncodeHandle;
      dataIter.Next();
      SkipEmptyDataBlocksForward();
    }

    method Prev()
      requires Good() && Valid()
      modifies this, indexIter, dataIter
      ensures Good() && At() == if old(At()) == 0 then |table.t.entries| else old(At()) - 1
      ensures dataIter != null ==> dataIter == old(dataIter) || fresh(dataIter)
    {
      hide TableReader.Good, I.Iter.Good, Ordinary, EncodeHandle;
      BlockLength(table.options, table.t, block);
      dataIter.Prev();
      SkipEmptyDataBlocksBackward();
    }
  }

  // Where the first entry is, from what the index and the block say.
  lemma FirstInBlock(o: Options, t: Table, key: Bytes, i: nat, q: nat)
    requires Ordinary(o, t) && Leads(o.cmp, t.index.layout.entries, key, i) && i < |t.blocks|
    requires q <= |t.blocks[i].layout.entries|
    requires forall j | 0 <= j < q :: o.cmp.less(t.blocks[i].layout.entries[j].key, key)
    requires q < |t.blocks[i].layout.entries| ==> !o.cmp.less(t.blocks[i].layout.entries[q].key, key)
    ensures |t.cuts| == |t.blocks| + 1 && FirstAt(o.cmp, t.entries, key) == t.cuts[i] + q
  {
    hide Cut, Indexed, FirstAt, B.Increasing;
    BlockLength(o, t, i);
    if q < |t.blocks[i].layout.entries| {
      InBlock(o, t, key, i, q);
    } else {
      AfterBlock(o, t, key, i);
    }
  }

  lemma AfterAll(o: Options, t: Table, key: Bytes)
    requires Ordinary(o, t) && Leads(o.cmp, t.index.layout.entries, key, |t.blocks|)
    ensures FirstAt(o.cmp, t.entries, key) == |t.entries|
  {
    hide Cut, Indexed, FirstAt, B.Increasing;
    NoBlocks(o, t);
    BeforeBlock(o, t, key, |t.blocks|);
    OnlyFirst(o.cmp, t.entries, key, |t.entries|);
  }
}
