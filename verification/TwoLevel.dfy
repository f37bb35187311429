/**
 TwoLevelIterator of table/two_level_iterator.cc: an index over blocks, read as one sorted run.
 */
module TwoLevel {
  import opened Keys
  import opened ReadPath

  function Flatten(blocks: seq<seq<Entry>>): seq<Entry> {
    if blocks == [] then [] else Flatten(blocks[..|blocks| - 1]) + blocks[|blocks| - 1]
  }

  // Position of the first entry of block b in the flattened run.
  function Start(blocks: seq<seq<Entry>>, b: nat): nat
    requires b <= |blocks|
  {
    |Flatten(blocks[..b])|
  }

  lemma {:induction false} StartStep(blocks: seq<seq<Entry>>, b: nat)
    requires b < |blocks|
    ensures Start(blocks, b + 1) == Start(blocks, b) + |blocks[b]|
    ensures Start(blocks, 0) == 0 && Start(blocks, |blocks|) == |Flatten(blocks)|
  {
    assert blocks[..b + 1][..b] == blocks[..b];
    assert blocks[..|blocks|] == blocks;
  }

  lemma {:induction false} FlattenPrefix(blocks: seq<seq<Entry>>, b: nat)
    requires b <= |blocks|
    ensures Flatten(blocks[..b]) <= Flatten(blocks)
    decreases |blocks| - b
  {
    if b == |blocks| {
      assert blocks[..b] == blocks;
    } else {
      FlattenPrefix(blocks, b + 1);
      assert blocks[..b + 1][..b] == blocks[..b];
    }
  }

  // Entry k of block b in the flattened run.
  lemma {:induction false} FlattenAt(blocks: seq<seq<Entry>>, b: nat, k: nat)
    requires b < |blocks| && k < |blocks[b]|
    ensures Start(blocks, b) + k < |Flatten(blocks)|
    ensures Flatten(blocks)[Start(blocks, b) + k] == blocks[b][k]
  {
    FlattenPrefix(blocks, b + 1);
    assert blocks[..b + 1][..b] == blocks[..b];
    var p := Flatten(blocks[..b + 1]);
    assert p == Flatten(blocks[..b]) + blocks[b];
    assert p[Start(blocks, b) + k] == blocks[b][k];
  }

  // Every position of the flattened run lies in a block.
  lemma {:induction false} BlockOf(blocks: seq<seq<Entry>>, n: nat) returns (b: nat, k: nat)
    requires n < |Flatten(blocks)|
    ensures b < |blocks| && k < |blocks[b]| && n == Start(blocks, b) + k
  {
    var last := |blocks| - 1;
    if n >= |Flatten(blocks[..last])| {
      b, k := last, n - |Flatten(blocks[..last])|;
    } else {
      b, k := BlockOf(blocks[..last], n);
      assert blocks[..last][..b] == blocks[..b];
    }
  }

  // Separators bound their block from above and the later blocks from below.
  ghost predicate Indexed(blocks: seq<seq<Entry>>, separators: seq<InternalKey>) {
    && |separators| == |blocks|
    && Sorted(Flatten(blocks))
    && (forall i, j | 0 <= i < j < |separators| :: Less(separators[i], separators[j]))
    && (forall b, e | 0 <= b < |blocks| && e in blocks[b] :: !Less(separators[b], e.key))
    && (forall b, c, e | 0 <= b < c < |blocks| && e in blocks[c] :: Less(separators[b], e.key))
  }

  lemma {:induction false} BlockSorted(blocks: seq<seq<Entry>>, b: nat)
    requires b < |blocks| && Sorted(Flatten(blocks))
    ensures Sorted(blocks[b])
  {
    forall i, j | 0 <= i < j < |blocks[b]|
      ensures Less(blocks[b][i].key, blocks[b][j].key)
    {
      FlattenAt(blocks, b, i);
      FlattenAt(blocks, b, j);
    }
  }

  // The index iterator's own seek.
  function SeekSeparator(separators: seq<InternalKey>, target: InternalKey): (i: nat)
    ensures i <= |separators|
    ensures forall k | 0 <= k < i :: Less(separators[k], target)
    ensures i < |separators| ==> !Less(separators[i], target)
  {
    if separators == [] || !Less(separators[0], target) then 0
    else
      var i := SeekSeparator(separators[1..], target);
      assert forall k | 1 <= k < i + 1 :: separators[k] == separators[1..][k - 1];
      i + 1
  }

  class TwoLevelIterator {
    const blocks: seq<seq<Entry>>
    const separators: seq<InternalKey>
    var index: nat          // cursor over the index, |blocks| when not valid
    var data: Option<nat>   // block the data iterator was opened on, None when there is no data iterator
    var offset: nat         // cursor of the data iterator, the block's length when not valid

    ghost predicate Good()
      reads this
    {
      && Indexed(blocks, separators)
      && index <= |blocks|
      && (data.Some? ==> data.value < |blocks| && offset <= |blocks[data.value]|)
      && (Valid() ==> data == Some(index))
    }

    predicate Valid()
      reads this
    {
      data.Some? && data.value < |blocks| && offset < |blocks[data.value]|
    }

    // Position in the flattened run, its length when not valid.
    ghost function At(): nat
      requires Good()
      reads this
    {
      if Valid() then Start(blocks, index) + offset else |Flatten(blocks)|
    }

    constructor (blocks: seq<seq<Entry>>, separators: seq<InternalKey>)
      requires Indexed(blocks, separators)
      ensures Good() && !Valid() && this.blocks == blocks && this.separators == separators
    {
      this.blocks, this.separators := blocks, separators;
      index, data, offset := |blocks|, None, 0;
    }

    lemma CurrentIsAt()
      requires Good() && Valid()
      ensures At() < |Flatten(blocks)| && blocks[index][offset] == Flatten(blocks)[At()]
    {
      FlattenAt(blocks, index, offset);
    }

    // Opens the block the index points at, unless it is open already.
    method InitDataBlock()
      requires index <= |blocks|
      requires data.Some? ==> data.value < |blocks| && offset <= |blocks[data.value]|
      modifies this`data, this`offset
      ensures data == if index < |blocks| then Some(index) else None
      ensures data.Some? ==> offset <= |blocks[index]|
      ensures old(data) == data ==> offset == old(offset)
    {
      if index >= |blocks| {
        data := None;
      } else {
        var handle := index;
        if data.Some? && handle == data.value {
          // already open
        } else {
          data := Some(handle);
          offset := |blocks[handle]|;
        }
      }
    }

    // Moves on to the next entry when the data iterator has run off its block.
    method SkipEmptyDataBlocksForward()
      requires Indexed(blocks, separators) && index <= |blocks|
      requires data == if index < |blocks| then Some(index) else None
      requires data.Some? ==> offset <= |blocks[index]|
      modifies this
      ensures Good()
      ensures At() == if old(data).None? then |Flatten(blocks)| else Start(blocks, old(index)) + old(offset)
    {
      ghost var goal := if data.None? then |Flatten(blocks)| else Start(blocks, index) + offset;
      while data.None? || !(offset < |blocks[data.value]|)
        invariant index <= |blocks| && data == if index < |blocks| then Some(index) else None
        invariant data.Some? ==> offset <= |blocks[index]|
        invariant goal == if data.None? then |Flatten(blocks)| else Start(blocks, index) + offset
        decreases |blocks| - index, data.Some?
      {
        if index >= |blocks| {
          data := None;
          return;
        }
        StartStep(blocks, index);
        index := index + 1;
        InitDataBlock();
        if data.Some? {
          offset := 0;
        }
      }
    }

    // Moves back to the previous entry when the data iterator has run off its block.
    method SkipEmptyDataBlocksBackward()
      requires Indexed(blocks, separators) && index <= |blocks|
      requires data == if index < |blocks| then Some(index) else None
      requires data.Some? ==> offset <= |blocks[index]|
      modifies this
      ensures Good()
      ensures old(data.Some? && offset < |blocks[index]|) ==> At() == Start(blocks, old(index)) + old(offset)
      ensures old(data.Some? && offset == |blocks[index]|) ==>
                At() == if Start(blocks, old(index)) == 0 then |Flatten(blocks)| else Start(blocks, old(index)) - 1
      ensures old(data.None?) ==> At() == |Flatten(blocks)|
    {
      if data.Some? && offset < |blocks[index]| {
        return;
      }
      ghost var goal := if data.None? then 0 else Start(blocks, index);
      while data.None? || !(offset < |blocks[data.value]|)
        invariant index <= |blocks| && data == if index < |blocks| then Some(index) else None
        invariant data.Some? ==> offset <= |blocks[index]|
        invariant data.Some? && offset < |blocks[index]| ==> goal == Start(blocks, index) + offset + 1
        invariant data.Some? && offset == |blocks[index]| ==> goal == Start(blocks, index)
        invariant data.None? ==> goal == 0
        decreases if index < |blocks| then index + 1 else 0
      {
        if index >= |blocks| {
          data := None;
          return;
        }
        StartStep(blocks, index);
        index := if index == 0 then |blocks| else index - 1;
        InitDataBlock();
        if data.Some? {
          StartStep(blocks, index);
          offset := if |blocks[index]| == 0 then 0 else |blocks[index]| - 1;
        }
      }
    }

    method SeekToFirst()
      requires Good()
      modifies this
      ensures Good() && At() == 0
    {
      index := 0;
      InitDataBlock();
      if data.Some? {
        offset := 0;
        StartStep(blocks, 0);
      }
      SkipEmptyDataBlocksForward();
    }

    method SeekToLast()
      requires Good()
      modifies this
      ensures Good() && At() == if |Flatten(blocks)| == 0 then 0 else |Flatten(blocks)| - 1
    {
      index := if blocks == [] then 0 else |blocks| - 1;
      InitDataBlock();
      if data.Some? {
        offset := if |blocks[index]| == 0 then 0 else |blocks[index]| - 1;
        StartStep(blocks, index);
      }
      SkipEmptyDataBlocksBackward();
    }

    // The first entry of the whole run at or after target.
    method Seek(target: InternalKey)
      requires Good()
      modifies this
      ensures Good()
      ensures forall n | 0 <= n < At() && n < |Flatten(blocks)| :: Less(Flatten(blocks)[n].key, target)
      ensures At() < |Flatten(blocks)| ==> !Less(Flatten(blocks)[At()].key, target)
    {
      index := SeekSeparator(separators, target);
      InitDataBlock();
      if data.Some? {
        offset := SeekIndex(blocks[index], target);
      }
      SeekSplits(blocks, separators, target, index, if index < |blocks| then SeekIndex(blocks[index], target) else 0);
      SkipEmptyDataBlocksForward();
    }

    method Next()
      requires Good() && Valid()
      modifies this
      ensures Good() && At() == old(At()) + 1
    {
      offset := offset + 1;
      SkipEmptyDataBlocksForward();
    }

    method Prev()
      requires Good() && Valid()
      modifies this
      ensures Good() && At() == if old(At()) == 0 then |Flatten(blocks)| else old(At()) - 1
    {
      CurrentIsAt();
      offset := if offset == 0 then |blocks[index]| else offset - 1;
      SkipEmptyDataBlocksBackward();
    }
  }

  // Where the index and block searches stop splits the whole run at target.
  lemma SeekSplits(blocks: seq<seq<Entry>>, separators: seq<InternalKey>, target: InternalKey, b: nat, k: nat)
    requires Indexed(blocks, separators) && b <= |blocks|
    requires forall i | 0 <= i < b :: Less(separators[i], target)
    requires b < |blocks| ==> !Less(separators[b], target) && k == SeekIndex(blocks[b], target)
    ensures var n := if b < |blocks| then Start(blocks, b) + k else |Flatten(blocks)|;
            && n <= |Flatten(blocks)|
            && (forall m | 0 <= m < n :: Less(Flatten(blocks)[m].key, target))
            && (n < |Flatten(blocks)| ==> !Less(Flatten(blocks)[n].key, target))
  {
    var all := Flatten(blocks);
    var n := if b < |blocks| then Start(blocks, b) + k else |all|;
    if b < |blocks| {
      StartStep(blocks, b);
      FlattenPrefix(blocks, b + 1);
    }
    forall m | 0 <= m < |all|
      ensures Less(all[m].key, target) <==> m < n
    {
      var c, j := BlockOf(blocks, m);
      FlattenAt(blocks, c, j);
      SplitsAt(blocks, separators, target, b, k, c, j);
    }
  }

  lemma SplitsAt(blocks: seq<seq<Entry>>, separators: seq<InternalKey>, target: InternalKey, b: nat, k: nat,
                 c: nat, j: nat)
    requires Indexed(blocks, separators) && b <= |blocks| && c < |blocks| && j < |blocks[c]|
    requires forall i | 0 <= i < b :: Less(separators[i], target)
    requires b < |blocks| ==> !Less(separators[b], target) && k == SeekIndex(blocks[b], target)
    ensures Less(blocks[c][j].key, target) <==>
              b == |blocks| || Start(blocks, c) + j < Start(blocks, b) + k
  {
    var e := blocks[c][j];
    assert e in blocks[c];
    if c < b {
      assert !Less(separators[c], e.key);
      if b < |blocks| {
        StartMonotone(blocks, c + 1, b);
        StartStep(blocks, c);
      }
    } else if c == b {
      BlockSorted(blocks, b);
      assert k < j ==> Less(blocks[b][k].key, blocks[b][j].key);
    } else {
      assert Less(separators[b], e.key);
      StartMonotone(blocks, b + 1, c);
      StartStep(blocks, b);
    }
  }

  lemma {:induction false} StartMonotone(blocks: seq<seq<Entry>>, b: nat, c: nat)
    requires b <= c <= |blocks|
    ensures Start(blocks, b) <= Start(blocks, c)
    decreases c - b
  {
    if b < c {
      StartStep(blocks, c - 1);
      StartMonotone(blocks, b, c - 1);
    }
  }
}
