/**
 The compaction loop of db/db_impl.cc and what it does to readers.
 */
module Compacting {
  import opened Keys
  import opened Files
  import opened Picker
  import opened ReadPath

  // No file below the output level has u in its range.
  ghost predicate BaseLevel(levels: Levels, level: nat, u: UserKey) {
    forall l, f | level + 2 <= l < |levels| && f in levels[l] :: !(f.smallest.user <= u <= f.largest.user)
  }

  // Every file before a pointer ends before the last user key asked about.
  ghost predicate PointersPassed(levels: Levels, level: nat, ptrs: seq<nat>, asked: Option<UserKey>)
    requires |levels| == NUM_LEVELS && |ptrs| == NUM_LEVELS
  {
    forall l | level + 2 <= l < NUM_LEVELS ::
      && ptrs[l] <= |levels[l]|
      && forall k | 0 <= k < ptrs[l] :: asked.Some? && levels[l][k].largest.user < asked.value
  }

  // The fields of Compaction that are advanced while its entries are processed.
  class CompactionScan {
    const levels: Levels
    const level: nat
    const grandparents: seq<FileMeta>
    const maxFileSize: nat
    var levelPtrs: seq<nat>
    var grandparentIndex: nat
    var seenKey: bool
    var overlappedBytes: nat
    ghost var lastAsked: Option<UserKey>
    ghost var stops: seq<InternalKey>   // the keys before which the output had to stop

    ghost predicate Valid()
      reads this
    {
      && SortedLevels(levels)
      && level + 1 < NUM_LEVELS
      && |levelPtrs| == NUM_LEVELS
      && PointersPassed(levels, level, levelPtrs, lastAsked)
      && GoodFiles(grandparents) && SortedDisjoint(grandparents) && grandparentIndex <= |grandparents|
    }

    // Nothing was asked yet.
    ghost predicate AtStart()
      reads this
    {
      lastAsked == None && stops == [] && grandparentIndex == 0 && !seenKey && overlappedBytes == 0
    }

    constructor (levels: Levels, level: nat, grandparents: seq<FileMeta>, maxFileSize: nat)
      requires SortedLevels(levels) && level + 1 < NUM_LEVELS && GoodFiles(grandparents) && SortedDisjoint(grandparents)
      ensures Valid() && AtStart()
      ensures this.levels == levels && this.level == level
      ensures this.grandparents == grandparents && this.maxFileSize == maxFileSize
    {
      this.levels, this.level := levels, level;
      this.grandparents, this.maxFileSize := grandparents, maxFileSize;
      levelPtrs := seq(NUM_LEVELS, _ => 0);
      grandparentIndex, seenKey, overlappedBytes := 0, false, 0;
      lastAsked, stops := None, [];
    }

    // Forward-only scan: exact as long as the keys asked about never decrease.
    method IsBaseLevelForKey(u: UserKey) returns (base: bool)
      requires Valid()
      requires lastAsked.Some? ==> lastAsked.value <= u
      modifies this`levelPtrs, this`lastAsked
      ensures Valid() && lastAsked == Some(u)
      ensures base <==> BaseLevel(levels, level, u)
    {
      lastAsked := Some(u);
      var lvl := level + 2;
      while lvl < NUM_LEVELS
        invariant level + 2 <= lvl
        invariant Valid() && lastAsked == Some(u)
        invariant forall l, f | level + 2 <= l < lvl && l < NUM_LEVELS && f in levels[l] ::
          !(f.smallest.user <= u <= f.largest.user)
      {
        var files := levels[lvl];
        while levelPtrs[lvl] < |files|
          invariant Valid() && lastAsked == Some(u)
          decreases |files| - levelPtrs[lvl]
        {
          var f := files[levelPtrs[lvl]];
          if u <= f.largest.user {
            if u >= f.smallest.user {
              assert f in levels[lvl];
              return false;
            }
            break;
          }
          levelPtrs := levelPtrs[lvl := levelPtrs[lvl] + 1];
        }
        LevelPassed(files, levelPtrs[lvl], u);
        lvl := lvl + 1;
      }
      base := true;
    }

    // Whether the current output should end before key because it overlaps too many grandparents.
    method ShouldStopBefore(key: InternalKey) returns (stop: bool)
      requires Valid()
      modifies this`grandparentIndex, this`seenKey, this`overlappedBytes, this`stops
      ensures Valid() && seenKey && stops == old(stops) + if stop then [key] else []
      ensures forall k | old(grandparentIndex) <= k < grandparentIndex :: Less(grandparents[k].largest, key)
      ensures grandparentIndex < |grandparents| ==> !Less(grandparents[grandparentIndex].largest, key)
      ensures old(grandparentIndex) <= grandparentIndex
      ensures var passed := if old(seenKey) then
                TotalFileSize(grandparents[..grandparentIndex]) - TotalFileSize(grandparents[..old(grandparentIndex)])
                else 0;
              && stop == (old(overlappedBytes) + passed > MaxGrandParentOverlapBytes(maxFileSize))
              && overlappedBytes == if stop then 0 else old(overlappedBytes) + passed
    {
      while grandparentIndex < |grandparents| && Less(grandparents[grandparentIndex].largest, key)
        invariant Valid()
        invariant old(grandparentIndex) <= grandparentIndex && seenKey == old(seenKey) && stops == old(stops)
        invariant forall k | old(grandparentIndex) <= k < grandparentIndex :: Less(grandparents[k].largest, key)
        invariant overlappedBytes == old(overlappedBytes) +
          if seenKey then
            TotalFileSize(grandparents[..grandparentIndex]) - TotalFileSize(grandparents[..old(grandparentIndex)])
          else 0
        decreases |grandparents| - grandparentIndex
      {
        assert grandparents[..grandparentIndex + 1][..grandparentIndex] == grandparents[..grandparentIndex];
        if seenKey {
          overlappedBytes := overlappedBytes + grandparents[grandparentIndex].fileSize;
        }
        grandparentIndex := grandparentIndex + 1;
      }
      seenKey := true;
      stop := overlappedBytes > MaxGrandParentOverlapBytes(maxFileSize);
      if stop {
        overlappedBytes := 0;
        stops := stops + [key];
      }
    }
  }

  // Files before the pointer end before u; the file at the pointer, and so all later ones, start after it.
  lemma LevelPassed(files: seq<FileMeta>, ptr: nat, u: UserKey)
    requires GoodFiles(files) && SortedDisjoint(files) && ptr <= |files|
    requires forall k | 0 <= k < ptr :: files[k].largest.user < u
    requires ptr < |files| ==> u < files[ptr].smallest.user
    ensures forall f | f in files :: !(f.smallest.user <= u <= f.largest.user)
  {
    forall f | f in files
      ensures !(f.smallest.user <= u <= f.largest.user)
    {
      var i :| 0 <= i < |files| && files[i] == f;
      if ptr < i {
        UserAscending(files, ptr, i);
      }
    }
  }

  // ---------------------------------------------------------------------------
  // Which entries survive
  // ---------------------------------------------------------------------------

  // A newer entry for the same user key already answers every snapshot at or above ss.
  ghost predicate Hidden(merged: seq<Entry>, i: nat, ss: nat)
    requires i < |merged|
  {
    exists j :: 0 <= j < i && merged[j].key.user == merged[i].key.user && merged[j].key.sequence <= ss
  }

  // A deletion marker with nothing below the output level left to hide.
  ghost predicate Obsolete(levels: Levels, level: nat, e: Entry, ss: nat) {
    e.key.kind.TypeDeletion? && e.key.sequence <= ss && BaseLevel(levels, level, e.key.user)
  }

  ghost predicate Kept(levels: Levels, level: nat, merged: seq<Entry>, i: nat, ss: nat)
    requires i < |merged|
  {
    !Hidden(merged, i, ss) && !Obsolete(levels, level, merged[i], ss)
  }

  ghost function Survivors(levels: Levels, level: nat, merged: seq<Entry>, n: nat, ss: nat): seq<Entry>
    requires n <= |merged|
  {
    if n == 0 then []
    else Survivors(levels, level, merged, n - 1, ss) +
         if Kept(levels, level, merged, n - 1, ss) then [merged[n - 1]] else []
  }

  lemma {:induction false} SurvivorsMembers(levels: Levels, level: nat, merged: seq<Entry>, n: nat, ss: nat)
    requires n <= |merged|
    ensures forall e :: e in Survivors(levels, level, merged, n, ss) <==>
              exists i :: 0 <= i < n && Kept(levels, level, merged, i, ss) && merged[i] == e
  {
    if n > 0 {
      SurvivorsMembers(levels, level, merged, n - 1, ss);
    }
  }

  lemma {:induction false} SurvivorsSorted(levels: Levels, level: nat, merged: seq<Entry>, n: nat, ss: nat)
    requires n <= |merged| && Sorted(merged)
    ensures Sorted(Survivors(levels, level, merged, n, ss))
  {
    if n > 0 {
      SurvivorsSorted(levels, level, merged, n - 1, ss);
      SurvivorsMembers(levels, level, merged, n - 1, ss);
      var r := Survivors(levels, level, merged, n - 1, ss);
      forall k | 0 <= k < |r|
        ensures Less(r[k].key, merged[n - 1].key)
      {
        assert r[k] in r;
      }
    }
  }

  // ---------------------------------------------------------------------------
  // DoCompactionWork
  // ---------------------------------------------------------------------------

  function Concat(files: seq<FileMeta>): seq<Entry> {
    if files == [] then [] else Concat(files[..|files| - 1]) + files[|files| - 1].entries
  }

  function MakeFile(number: nat, es: seq<Entry>, fileSize: nat): FileMeta
    requires es != []
  {
    FileMeta(number, fileSize, es[0].key, es[|es| - 1].key, es)
  }

  // Output files numbered from first on, holding exactly es.
  ghost predicate OutputsOf(outputs: seq<FileMeta>, es: seq<Entry>, first: nat) {
    && Concat(outputs) == es
    && (forall k | 0 <= k < |outputs| :: GoodFile(outputs[k]) && outputs[k].number == first + k)
    && SortedDisjoint(outputs)
  }

  lemma SortedPrefix(es: seq<Entry>, n: nat)
    requires Sorted(es) && Legal(es) && n <= |es|
    ensures Sorted(es[..n]) && Legal(es[..n]) && Sorted(es[n..]) && Legal(es[n..])
  {
    forall e | e in es[..n] || e in es[n..]
      ensures e in es
    {
    }
  }

  lemma {:induction false} ConcatContains(files: seq<FileMeta>)
    ensures forall e :: e in Concat(files) <==> exists k :: 0 <= k < |files| && e in files[k].entries
  {
    if files != [] {
      ConcatContains(files[..|files| - 1]);
      forall e
        ensures e in Concat(files) <==> exists k :: 0 <= k < |files| && e in files[k].entries
      {
        InLastOrBefore(files, e);
      }
    }
  }

  lemma InLastOrBefore(files: seq<FileMeta>, e: Entry)
    requires files != []
    ensures var n := |files| - 1;
            (exists k :: 0 <= k < |files| && e in files[k].entries) <==>
            (exists k :: 0 <= k < n && e in files[..n][k].entries) || e in files[n].entries
  {
    var n := |files| - 1;
    if k :| 0 <= k < n && e in files[k].entries {
      assert e in files[..n][k].entries;
    }
    if k :| 0 <= k < n && e in files[..n][k].entries {
      assert e in files[k].entries;
    }
  }

  lemma MadeFileIsGood(done: seq<Entry>, builder: seq<Entry>, number: nat, fileSize: nat)
    requires builder != [] && Sorted(done + builder) && Legal(done + builder)
    ensures GoodFile(MakeFile(number, builder, fileSize))
  {
    SortedPrefix(done + builder, |done|);
    assert (done + builder)[|done|..] == builder;
  }

  lemma {:induction false} ConcatAppend(outputs: seq<FileMeta>, f: FileMeta)
    ensures Concat(outputs + [f]) == Concat(outputs) + f.entries
  {
    assert (outputs + [f])[..|outputs|] == outputs;
  }

  lemma SortedDisjointAppend(outputs: seq<FileMeta>, f: FileMeta)
    requires SortedDisjoint(outputs) && forall k | 0 <= k < |outputs| :: Less(outputs[k].largest, f.smallest)
    ensures SortedDisjoint(outputs + [f])
  {
  }

  // Closing the current output keeps the outputs a partition of a sorted run.
  lemma {:induction false} CloseOutput(outputs: seq<FileMeta>, done: seq<Entry>, builder: seq<Entry>, first: nat,
                                       fileSize: nat)
    requires OutputsOf(outputs, done, first) && builder != []
    requires Sorted(done + builder) && Legal(done + builder)
    ensures OutputsOf(outputs + [MakeFile(first + |outputs|, builder, fileSize)], done + builder, first)
  {
    hide Sorted, Legal, GoodFile, Less, Concat, SortedDisjoint;
    var f := MakeFile(first + |outputs|, builder, fileSize);
    MadeFileIsGood(done, builder, first + |outputs|, fileSize);
    ConcatAppend(outputs, f);
    forall k | 0 <= k < |outputs|
      ensures Less(outputs[k].largest, f.smallest)
    {
      OutputBefore(outputs, done, builder, k);
    }
    SortedDisjointAppend(outputs, f);
  }

  lemma {:induction false} OutputBefore(outputs: seq<FileMeta>, done: seq<Entry>, builder: seq<Entry>, k: nat)
    requires Concat(outputs) == done && k < |outputs| && GoodFile(outputs[k])
    requires builder != [] && Sorted(done + builder)
    ensures Less(outputs[k].largest, builder[0].key)
  {
    ConcatContains(outputs);
    var last := outputs[k].entries[|outputs[k].entries| - 1];
    assert last in outputs[k].entries;
    assert last in done;
    var a :| 0 <= a < |done| && done[a] == last;
    assert (done + builder)[a] == last && (done + builder)[|done|] == builder[0];
  }

  // The entry just before i decides whether i is hidden.
  lemma HiddenByPrevious(merged: seq<Entry>, i: nat, ss: nat)
    requires Sorted(merged) && i < |merged|
    ensures Hidden(merged, i, ss) <==>
              i > 0 && merged[i - 1].key.user == merged[i].key.user && merged[i - 1].key.sequence <= ss
  {
    if Hidden(merged, i, ss) {
      var j :| 0 <= j < i && merged[j].key.user == merged[i].key.user && merged[j].key.sequence <= ss;
      assert Less(merged[i - 1].key, merged[i].key);
      assert j < i - 1 ==> Less(merged[j].key, merged[i - 1].key);
    }
  }

  method FinishOutput(outputs: seq<FileMeta>, ghost done: seq<Entry>, builder: seq<Entry>, first: nat,
                      tableSize: seq<Entry> -> nat)
    returns (r: seq<FileMeta>)
    requires OutputsOf(outputs, done, first) && builder != []
    requires Sorted(done + builder) && Legal(done + builder)
    ensures OutputsOf(r, done + builder, first)
    ensures r == outputs + [MakeFile(first + |outputs|, builder, tableSize(builder))]
  {
    CloseOutput(outputs, done, builder, first, tableSize(builder));
    r := outputs + [MakeFile(first + |outputs|, builder, tableSize(builder))];
  }

  // The two drop rules, given the sequence number of the previous entry for the same user key.
  method DropEntry(scan: CompactionScan, merged: seq<Entry>, i: nat, lastSequenceForKey: nat, ss: nat)
    returns (drop: bool)
    requires scan.Valid() && Sorted(merged) && i < |merged| && ss < MAX_SEQUENCE
    requires scan.lastAsked.Some? ==> scan.lastAsked.value <= merged[i].key.user
    requires lastSequenceForKey == if i > 0 && merged[i - 1].key.user == merged[i].key.user
                                   then merged[i - 1].key.sequence else MAX_SEQUENCE
    modifies scan`levelPtrs, scan`lastAsked
    ensures scan.Valid()
    ensures scan.lastAsked.Some? ==> scan.lastAsked.value <= merged[i].key.user
    ensures drop <==> !Kept(scan.levels, scan.level, merged, i, ss)
  {
    HiddenByPrevious(merged, i, ss);
    var ikey := merged[i].key;
    drop := false;
    if lastSequenceForKey <= ss {
      drop := true;
    } else if ikey.kind.TypeDeletion? && ikey.sequence <= ss {
      drop := scan.IsBaseLevelForKey(ikey.user);
    }
  }

  lemma PreviousUser(merged: seq<Entry>, i: nat)
    requires Sorted(merged) && i < |merged|
    ensures i > 0 ==> merged[i - 1].key.user <= merged[i].key.user
  {
    assert i > 0 ==> Less(merged[i - 1].key, merged[i].key);
  }

  lemma NothingYet(levels: Levels, level: nat, merged: seq<Entry>, ss: nat, first: nat)
    ensures Building([], [], [], Survivors(levels, level, merged, 0, ss), first)
  {
  }

  lemma NothingPending(outputs: seq<FileMeta>, done: seq<Entry>, kept: seq<Entry>, first: nat)
    requires Building(outputs, done, [], kept, first)
    ensures OutputsOf(outputs, kept, first)
  {
    assert done + [] == done;
  }

  // Closed outputs hold done, and done plus the current output is everything that survived so far.
  ghost predicate Building(outputs: seq<FileMeta>, done: seq<Entry>, builder: seq<Entry>, kept: seq<Entry>,
                           first: nat) {
    OutputsOf(outputs, done, first) && done + builder == kept
  }

  function Closed(outputs: seq<FileMeta>, builder: seq<Entry>, first: nat, tableSize: seq<Entry> -> nat): seq<FileMeta> {
    if builder == [] then outputs else outputs + [MakeFile(first + |outputs|, builder, tableSize(builder))]
  }

  // Ends the current output, if there is one. kept is everything that survived so far.
  method StopOutput(outputs: seq<FileMeta>, ghost done: seq<Entry>, builder: seq<Entry>, ghost kept: seq<Entry>,
                    first: nat, tableSize: seq<Entry> -> nat)
    returns (outputs': seq<FileMeta>, ghost done': seq<Entry>, builder': seq<Entry>)
    requires Building(outputs, done, builder, kept, first) && Sorted(kept) && Legal(kept)
    ensures Building(outputs', done', builder', kept, first) && builder' == []
    ensures outputs' == Closed(outputs, builder, first, tableSize)
  {
    hide OutputsOf, Sorted, Legal;
    outputs', done', builder' := outputs, done, builder;
    if builder != [] {
      outputs' := FinishOutput(outputs, done, builder, first, tableSize);
      done', builder' := kept, [];
    }
  }

  // Adds an entry to the current output and closes the output when it is big enough.
  method AddOutput(outputs: seq<FileMeta>, ghost done: seq<Entry>, builder: seq<Entry>, ghost kept: seq<Entry>,
                   e: Entry, first: nat, tableSize: seq<Entry> -> nat, limit: nat)
    returns (outputs': seq<FileMeta>, ghost done': seq<Entry>, builder': seq<Entry>)
    requires Building(outputs, done, builder, kept, first) && Sorted(kept + [e]) && Legal(kept + [e])
    ensures Building(outputs', done', builder', kept + [e], first)
    ensures if tableSize(builder + [e]) >= limit
            then builder' == [] && outputs' == Closed(outputs, builder + [e], first, tableSize)
            else builder' == builder + [e] && outputs' == outputs
  {
    hide OutputsOf, Sorted, Legal;
    outputs', done', builder' := outputs, done, builder + [e];
    assert kept + [e] == done + builder';
    if tableSize(builder') >= limit {
      outputs' := FinishOutput(outputs, done, builder', first, tableSize);
      done', builder' := done + builder', [];
    }
  }

  // ---------------------------------------------------------------------------
  // Where outputs are cut
  // ---------------------------------------------------------------------------

  // The bytes of the files that end before key.
  function BytesBefore(files: seq<FileMeta>, key: InternalKey): nat {
    if files == [] then 0
    else
      var last := files[|files| - 1];
      BytesBefore(files[..|files| - 1], key) + if Less(last.largest, key) then last.fileSize else 0
  }

  // The last entry before entry i at which an output had to stop, or else the first entry of all.
  function LastStop(grandparents: seq<FileMeta>, maxFileSize: nat, merged: seq<Entry>, i: nat): (s: nat)
    requires i <= |merged|
    ensures i > 0 ==> s < i
    decreases i, 0
  {
    if i <= 1 then 0
    else if IsStop(grandparents, maxFileSize, merged, i - 1) then i - 1
    else LastStop(grandparents, maxFileSize, merged, i - 1)
  }

  // An output stops before entry i when too many bytes of the grandparents lie between the last stop and it.
  predicate IsStop(grandparents: seq<FileMeta>, maxFileSize: nat, merged: seq<Entry>, i: nat)
    requires i < |merged|
    decreases i, 1
  {
    var s := LastStop(grandparents, maxFileSize, merged, i);
    i > 0 && BytesBefore(grandparents, merged[i].key) - BytesBefore(grandparents, merged[s].key)
             > MaxGrandParentOverlapBytes(maxFileSize)
  }

  // The keys of the first n entries before which an output stops.
  function StopKeys(grandparents: seq<FileMeta>, maxFileSize: nat, merged: seq<Entry>, n: nat): seq<InternalKey>
    requires n <= |merged|
  {
    if n == 0 then []
    else StopKeys(grandparents, maxFileSize, merged, n - 1) +
         if IsStop(grandparents, maxFileSize, merged, n - 1) then [merged[n - 1].key] else []
  }

  // The scan has come to entry i, and stopped where it had to.
  ghost predicate Scanned(scan: CompactionScan, merged: seq<Entry>, i: nat)
    reads scan`stops, scan`grandparentIndex, scan`seenKey, scan`overlappedBytes
    requires i <= |merged|
  {
    ScannedTo(scan.grandparents, scan.maxFileSize, merged, i, scan.stops, scan.grandparentIndex, scan.seenKey,
              scan.overlappedBytes)
  }

  ghost predicate ScannedTo(grandparents: seq<FileMeta>, maxFileSize: nat, merged: seq<Entry>, i: nat,
                            stops: seq<InternalKey>, index: nat, seen: bool, bytes: nat)
    requires i <= |merged|
  {
    && index <= |grandparents| && seen == (i > 0)
    && stops == StopKeys(grandparents, maxFileSize, merged, i)
    && (i == 0 ==> index == 0 && bytes == 0)
    && (i > 0 ==>
          var s := LastStop(grandparents, maxFileSize, merged, i);
          && (forall k | 0 <= k < index :: Less(grandparents[k].largest, merged[i - 1].key))
          && TotalFileSize(grandparents[..index]) == BytesBefore(grandparents, merged[i - 1].key)
          && bytes == BytesBefore(grandparents, merged[i - 1].key) - BytesBefore(grandparents, merged[s].key))
  }

  lemma NothingScanned(scan: CompactionScan, merged: seq<Entry>)
    requires scan.AtStart()
    ensures Scanned(scan, merged, 0) && scan.lastAsked == None && scan.stops == []
  {
  }

  lemma ScannedMeans(scan: CompactionScan, merged: seq<Entry>, i: nat)
    requires i <= |merged| && Scanned(scan, merged, i)
    ensures scan.stops == StopKeys(scan.grandparents, scan.maxFileSize, merged, i)
    ensures ScannedTo(scan.grandparents, scan.maxFileSize, merged, i, scan.stops, scan.grandparentIndex, scan.seenKey,
                      scan.overlappedBytes)
  {
  }

  lemma {:induction false} BytesOfFirst(files: seq<FileMeta>, n: nat, key: InternalKey)
    requires n <= |files|
    requires forall k | 0 <= k < n :: Less(files[k].largest, key)
    requires forall k | n <= k < |files| :: !Less(files[k].largest, key)
    ensures BytesBefore(files, key) == TotalFileSize(files[..n])
  {
    hide Less;
    if files != [] {
      var m := |files| - 1;
      if n == |files| {
        BytesOfFirst(files[..m], m, key);
        assert files[..m][..m] == files[..n][..m] && files[..n] == files;
      } else {
        BytesOfFirst(files[..m], n, key);
        assert files[..m][..n] == files[..n];
      }
    }
  }

  lemma ScanStep(scan: CompactionScan, merged: seq<Entry>, i: nat, before: seq<InternalKey>, bytes: nat, index: nat,
                 seen: bool, stop: bool)
    requires i < |merged| && Sorted(merged) && scan.Valid() && scan.seenKey
    requires ScannedTo(scan.grandparents, scan.maxFileSize, merged, i, before, index, seen, bytes)
    requires index <= scan.grandparentIndex && scan.stops == before + if stop then [merged[i].key] else []
    requires forall k | index <= k < scan.grandparentIndex :: Less(scan.grandparents[k].largest, merged[i].key)
    requires scan.grandparentIndex < |scan.grandparents| ==>
               !Less(scan.grandparents[scan.grandparentIndex].largest, merged[i].key)
    requires var passed := if seen then
               TotalFileSize(scan.grandparents[..scan.grandparentIndex]) - TotalFileSize(scan.grandparents[..index])
               else 0;
             && stop == (bytes + passed > MaxGrandParentOverlapBytes(scan.maxFileSize))
             && scan.overlappedBytes == if stop then 0 else bytes + passed
    ensures Scanned(scan, merged, i + 1)
  {
    hide SortedLevels, PointersPassed, TotalFileSize, BytesBefore, GoodFile;
    var gs, m := scan.grandparents, scan.grandparentIndex;
    assert i > 0 ==> Less(merged[i - 1].key, merged[i].key);
    forall k | m <= k < |gs|
      ensures !Less(gs[k].largest, merged[i].key)
    {
      LargestAscending(gs, k);
    }
    BytesOfFirst(gs, m, merged[i].key);
  }

  // Everything but the whole of it is below the limit.
  ghost predicate Tight(es: seq<Entry>, tableSize: seq<Entry> -> nat, limit: nat) {
    forall n | 0 < n < |es| :: tableSize(es[..n]) < limit
  }

  // No table goes on over a stop.
  ghost predicate Uncrossed(es: seq<Entry>, stops: seq<InternalKey>) {
    forall k | k in stops :: (forall e | e in es :: Less(e.key, k)) || (forall e | e in es :: !Less(e.key, k))
  }

  ghost predicate Fits(f: FileMeta, stops: seq<InternalKey>, tableSize: seq<Entry> -> nat, limit: nat) {
    f.fileSize == tableSize(f.entries) && Tight(f.entries, tableSize, limit) && Uncrossed(f.entries, stops)
  }

  ghost predicate StopsAfter(outputs: seq<FileMeta>, k: nat, s: InternalKey)
    requires k < |outputs|
  {
    Less(outputs[k].largest, s) && forall m | k < m < |outputs| :: !Less(outputs[m].smallest, s)
  }

  // Table k was closed because it was full, or at a stop, which comes before all that follows.
  ghost predicate HasReason(outputs: seq<FileMeta>, k: nat, stops: seq<InternalKey>, tableSize: seq<Entry> -> nat,
                            limit: nat)
    requires k < |outputs|
  {
    tableSize(outputs[k].entries) >= limit || exists s :: s in stops && StopsAfter(outputs, k, s)
  }

  ghost predicate WellCut(outputs: seq<FileMeta>, stops: seq<InternalKey>, tableSize: seq<Entry> -> nat, limit: nat) {
    && (forall k: nat | k < |outputs| :: Fits(outputs[k], stops, tableSize, limit))
    && forall k: nat | k + 1 < |outputs| :: HasReason(outputs, k, stops, tableSize, limit)
  }

  ghost predicate AfterStops(es: seq<Entry>, stops: seq<InternalKey>) {
    forall e, k | e in es && k in stops :: !Less(e.key, k)
  }

  // The same with an output still open, which starts after all stops.
  ghost predicate Cutting(outputs: seq<FileMeta>, builder: seq<Entry>, stops: seq<InternalKey>,
                          tableSize: seq<Entry> -> nat, limit: nat)
  {
    && (forall k: nat | k < |outputs| :: Fits(outputs[k], stops, tableSize, limit))
    && (forall k: nat | k < |outputs| :: HasReason(outputs, k, stops, tableSize, limit))
    && (forall n | 0 < n <= |builder| :: tableSize(builder[..n]) < limit)
    && AfterStops(builder, stops)
  }

  // The stops so far came before entries already seen.
  ghost predicate Passed(stops: seq<InternalKey>, merged: seq<Entry>, i: nat)
    requires i <= |merged|
  {
    forall k | k in stops :: i > 0 && !Less(merged[i - 1].key, k)
  }

  lemma NothingCut(tableSize: seq<Entry> -> nat, limit: nat, merged: seq<Entry>)
    ensures Cutting([], [], [], tableSize, limit) && Passed([], merged, 0)
  {
  }

  lemma StopsPassed(before: seq<InternalKey>, stops: seq<InternalKey>, stop: bool, merged: seq<Entry>, i: nat)
    requires Sorted(merged) && i < |merged| && Passed(before, merged, i)
    requires stops == before + if stop then [merged[i].key] else []
    ensures Passed(stops, merged, i + 1) && AfterStops([merged[i]], stops)
  {
    assert i > 0 ==> Less(merged[i - 1].key, merged[i].key);
  }

  // What was seen so far is before the entry that comes next.
  ghost predicate AllBefore(outputs: seq<FileMeta>, builder: seq<Entry>, key: InternalKey) {
    && (forall e | e in builder :: Less(e.key, key))
    && forall k: nat | k < |outputs| :: FileBefore(outputs[k], key)
  }

  ghost predicate FileBefore(f: FileMeta, key: InternalKey) {
    (forall e | e in f.entries :: Less(e.key, key)) && f.entries != []
  }

  lemma SeenIsBefore(levels: Levels, level: nat, merged: seq<Entry>, i: nat, ss: nat, outputs: seq<FileMeta>,
                     done: seq<Entry>, builder: seq<Entry>, first: nat)
    requires i < |merged| && Sorted(merged)
    requires Building(outputs, done, builder, Survivors(levels, level, merged, i, ss), first)
    ensures AllBefore(outputs, builder, merged[i].key)
  {
    hide Survivors, SortedDisjoint, Concat, GoodFile, Kept, Less;
    SurvivorsMembers(levels, level, merged, i, ss);
    ConcatContains(outputs);
    var kept := Survivors(levels, level, merged, i, ss);
    forall e | e in kept
      ensures Less(e.key, merged[i].key)
    {
    }
    forall k: nat | k < |outputs|
      ensures FileBefore(outputs[k], merged[i].key)
    {
      NotEmpty(outputs[k]);
    }
  }

  lemma NotEmpty(f: FileMeta)
    requires GoodFile(f)
    ensures f.entries != []
  {
  }

  // Closing the open output keeps the reasons of the others.
  lemma OneMoreClosed(outputs: seq<FileMeta>, f: FileMeta, stops: seq<InternalKey>, tableSize: seq<Entry> -> nat,
                      limit: nat, k: nat)
    requires k < |outputs| && HasReason(outputs, k, stops, tableSize, limit)
    requires forall s | s in stops :: !Less(f.smallest, s)
    ensures HasReason(outputs + [f], k, stops, tableSize, limit)
  {
    hide Less;
    if tableSize(outputs[k].entries) < limit {
      var s :| s in stops && StopsAfter(outputs, k, s);
      assert StopsAfter(outputs + [f], k, s);
    }
  }

  lemma MoreStops(outputs: seq<FileMeta>, stops: seq<InternalKey>, key: InternalKey, tableSize: seq<Entry> -> nat,
                  limit: nat, k: nat)
    requires k < |outputs| && HasReason(outputs, k, stops, tableSize, limit)
    ensures HasReason(outputs, k, stops + [key], tableSize, limit)
  {
    hide StopsAfter;
    if tableSize(outputs[k].entries) < limit {
      var s :| s in stops && StopsAfter(outputs, k, s);
      assert s in stops + [key];
    }
  }

  lemma BuiltFits(builder: seq<Entry>, number: nat, stops: seq<InternalKey>, tableSize: seq<Entry> -> nat, limit: nat)
    requires builder != [] && AfterStops(builder, stops) && Tight(builder, tableSize, limit)
    ensures Fits(MakeFile(number, builder, tableSize(builder)), stops, tableSize, limit)
    ensures forall s | s in stops :: !Less(builder[0].key, s)
  {
    hide Less, Tight;
    assert builder[0] in builder;
  }

  // The output stops before key, which becomes a stop.
  lemma CutAtStop(outputs: seq<FileMeta>, builder: seq<Entry>, stops: seq<InternalKey>, tableSize: seq<Entry> -> nat,
                  limit: nat, first: nat, key: InternalKey)
    requires Cutting(outputs, builder, stops, tableSize, limit) && AllBefore(outputs, builder, key)
    ensures Cutting(Closed(outputs, builder, first, tableSize), [], stops + [key], tableSize, limit)
  {
    hide Less, Tight, HasReason, Uncrossed;
    var closed, n := Closed(outputs, builder, first, tableSize), |outputs|;
    forall k: nat | k < |outputs|
      ensures Fits(outputs[k], stops + [key], tableSize, limit) && HasReason(closed, k, stops + [key], tableSize, limit)
    {
      assert Fits(outputs[k], stops, tableSize, limit) && FileBefore(outputs[k], key);
      UncrossedToo(outputs[k].entries, stops, key);
      if builder != [] {
        BuiltStarts(builder, stops);
        OneMoreClosed(outputs, closed[n], stops, tableSize, limit, k);
      }
      MoreStops(closed, stops, key, tableSize, limit, k);
    }
    if builder != [] {
      TightWhenOpen(builder, tableSize, limit);
      BuiltFits(builder, first + n, stops, tableSize, limit);
      UncrossedToo(builder, stops, key);
      StopIsReason(closed, stops, key, tableSize, limit, builder);
    }
  }

  lemma BuiltStarts(builder: seq<Entry>, stops: seq<InternalKey>)
    requires builder != [] && AfterStops(builder, stops)
    ensures forall s | s in stops :: !Less(builder[0].key, s)
  {
    hide Less;
    assert builder[0] in builder;
  }

  lemma TightWhenOpen(builder: seq<Entry>, tableSize: seq<Entry> -> nat, limit: nat)
    requires forall n | 0 < n <= |builder| :: tableSize(builder[..n]) < limit
    ensures Tight(builder, tableSize, limit)
  {
  }

  lemma UncrossedToo(es: seq<Entry>, stops: seq<InternalKey>, key: InternalKey)
    requires Uncrossed(es, stops) && forall e | e in es :: Less(e.key, key)
    ensures Uncrossed(es, stops + [key])
  {
    hide Less;
  }

  lemma StopIsReason(closed: seq<FileMeta>, stops: seq<InternalKey>, key: InternalKey, tableSize: seq<Entry> -> nat,
                     limit: nat, builder: seq<Entry>)
    requires closed != [] && builder != [] && closed[|closed| - 1].largest == builder[|builder| - 1].key
    requires forall e | e in builder :: Less(e.key, key)
    ensures HasReason(closed, |closed| - 1, stops + [key], tableSize, limit)
  {
    hide Less;
    assert builder[|builder| - 1] in builder;
    assert key in stops + [key] && StopsAfter(closed, |closed| - 1, key);
  }

  // An entry after all stops is added, and the output closed if it is full.
  lemma CutWhenFull(outputs: seq<FileMeta>, builder: seq<Entry>, stops: seq<InternalKey>, tableSize: seq<Entry> -> nat,
                    limit: nat, first: nat, e: Entry)
    requires Cutting(outputs, builder, stops, tableSize, limit) && AfterStops([e], stops)
    ensures var builder' := builder + [e];
            if tableSize(builder') >= limit
            then Cutting(Closed(outputs, builder', first, tableSize), [], stops, tableSize, limit)
            else Cutting(outputs, builder', stops, tableSize, limit)
  {
    hide Less, HasReason, Fits;
    var builder', n := builder + [e], |outputs|;
    assert e in [e];
    assert AfterStops(builder', stops);
    forall m | 0 < m < |builder'|
      ensures tableSize(builder'[..m]) < limit
    {
      assert builder'[..m] == builder[..m];
    }
    assert builder'[..|builder'|] == builder';
    if tableSize(builder') >= limit {
      var closed := Closed(outputs, builder', first, tableSize);
      BuiltFits(builder', first + n, stops, tableSize, limit);
      forall k: nat | k < n
        ensures HasReason(closed, k, stops, tableSize, limit)
      {
        OneMoreClosed(outputs, closed[n], stops, tableSize, limit, k);
      }
      FullIsReason(closed, stops, tableSize, limit);
    }
  }

  lemma FullIsReason(closed: seq<FileMeta>, stops: seq<InternalKey>, tableSize: seq<Entry> -> nat, limit: nat)
    requires closed != [] && tableSize(closed[|closed| - 1].entries) >= limit
    ensures HasReason(closed, |closed| - 1, stops, tableSize, limit)
  {
  }

  // The last output is closed because there is nothing more.
  lemma CutAtEnd(outputs: seq<FileMeta>, builder: seq<Entry>, stops: seq<InternalKey>, tableSize: seq<Entry> -> nat,
                 limit: nat, first: nat)
    requires Cutting(outputs, builder, stops, tableSize, limit)
    ensures WellCut(Closed(outputs, builder, first, tableSize), stops, tableSize, limit)
  {
    hide Less, HasReason, Fits, Tight;
    if builder != [] {
      var closed, n := Closed(outputs, builder, first, tableSize), |outputs|;
      TightWhenOpen(builder, tableSize, limit);
      BuiltFits(builder, first + n, stops, tableSize, limit);
      forall k: nat | k < n
        ensures HasReason(closed, k, stops, tableSize, limit)
      {
        OneMoreClosed(outputs, closed[n], stops, tableSize, limit, k);
      }
    }
  }

  // tableSize stands for TableBuilder::FileSize after the given entries.
  method DoCompactionWork(scan: CompactionScan, merged: seq<Entry>, ss: nat, first: nat, tableSize: seq<Entry> -> nat)
    returns (outputs: seq<FileMeta>)
    requires scan.Valid() && scan.AtStart()
    requires Sorted(merged) && Legal(merged) && ss < MAX_SEQUENCE
    modifies scan
    ensures OutputsOf(outputs, Survivors(scan.levels, scan.level, merged, |merged|, ss), first)
    ensures WellCut(outputs, StopKeys(scan.grandparents, scan.maxFileSize, merged, |merged|), tableSize,
                    scan.maxFileSize)
  {
    hide *;
    ghost var levels, level := scan.levels, scan.level;
    NothingYet(levels, level, merged, ss, first);
    NothingCut(tableSize, scan.maxFileSize, merged);
    NothingScanned(scan, merged);
    outputs := [];
    var builder: seq<Entry> := [];
    ghost var done: seq<Entry> := [];
    var hasCurrentUserKey, currentUserKey, lastSequenceForKey := false, 0.0, MAX_SEQUENCE;
    var i := 0;
    while i < |merged|
      invariant 0 <= i <= |merged|
      invariant scan.Valid()
      invariant scan.lastAsked.Some? ==> i > 0 && scan.lastAsked.value <= merged[i - 1].key.user
      invariant hasCurrentUserKey == (i > 0)
      invariant i > 0 ==> currentUserKey == merged[i - 1].key.user && lastSequenceForKey == merged[i - 1].key.sequence
      invariant Building(outputs, done, builder, Survivors(levels, level, merged, i, ss), first)
      invariant Cutting(outputs, builder, scan.stops, tableSize, scan.maxFileSize)
      invariant Passed(scan.stops, merged, i) && Scanned(scan, merged, i)
    {
      var ikey := merged[i].key;
      PreviousUser(merged, i);
      SurvivorsStep(levels, level, merged, i, ss);
      ghost var before, bytes, index, seen := scan.stops, scan.overlappedBytes, scan.grandparentIndex, scan.seenKey;
      ScannedMeans(scan, merged, i);
      var stop := scan.ShouldStopBefore(ikey);
      ScanStep(scan, merged, i, before, bytes, index, seen, stop);
      assert before + [] == before;
      ghost var kept := Survivors(levels, level, merged, i, ss);
      if stop {
        SeenIsBefore(levels, level, merged, i, ss, outputs, done, builder, first);
        CutAtStop(outputs, builder, before, tableSize, scan.maxFileSize, first, ikey);
        outputs, done, builder := StopOutput(outputs, done, builder, kept, first, tableSize);
      }

      if !hasCurrentUserKey || ikey.user != currentUserKey {
        currentUserKey := ikey.user;
        hasCurrentUserKey := true;
        lastSequenceForKey := MAX_SEQUENCE;
      }
      var drop := DropEntry(scan, merged, i, lastSequenceForKey, ss);
      lastSequenceForKey := ikey.sequence;

      StopsPassed(before, scan.stops, stop, merged, i);
      if !drop {
        CutWhenFull(outputs, builder, scan.stops, tableSize, scan.maxFileSize, first, merged[i]);
        outputs, done, builder :=
          AddOutput(outputs, done, builder, kept, merged[i], first, tableSize, scan.maxFileSize);
      }
      i := i + 1;
    }
    SurvivorsAre(levels, level, merged, ss);
    ScannedMeans(scan, merged, i);
    CutAtEnd(outputs, builder, scan.stops, tableSize, scan.maxFileSize, first);
    outputs, done, builder := StopOutput(outputs, done, builder, Survivors(levels, level, merged, i, ss),
                                         first, tableSize);
    NothingPending(outputs, done, Survivors(levels, level, merged, i, ss), first);
  }

  lemma SurvivorsStep(levels: Levels, level: nat, merged: seq<Entry>, i: nat, ss: nat)
    requires i < |merged| && Sorted(merged) && Legal(merged)
    ensures Kept(levels, level, merged, i, ss) ==>
              Survivors(levels, level, merged, i + 1, ss) == Survivors(levels, level, merged, i, ss) + [merged[i]]
    ensures !Kept(levels, level, merged, i, ss) ==>
              Survivors(levels, level, merged, i + 1, ss) == Survivors(levels, level, merged, i, ss)
    ensures Sorted(Survivors(levels, level, merged, i, ss)) && Legal(Survivors(levels, level, merged, i, ss))
    ensures Sorted(Survivors(levels, level, merged, i + 1, ss)) && Legal(Survivors(levels, level, merged, i + 1, ss))
  {
    SurvivorsLegal(levels, level, merged, i, ss);
    SurvivorsLegal(levels, level, merged, i + 1, ss);
  }

  lemma SurvivorsAre(levels: Levels, level: nat, merged: seq<Entry>, ss: nat)
    requires Sorted(merged) && Legal(merged)
    ensures Sorted(Survivors(levels, level, merged, |merged|, ss)) && Legal(Survivors(levels, level, merged, |merged|, ss))
  {
    SurvivorsLegal(levels, level, merged, |merged|, ss);
  }

  lemma SurvivorsLegal(levels: Levels, level: nat, merged: seq<Entry>, n: nat, ss: nat)
    requires n <= |merged| && Sorted(merged) && Legal(merged)
    ensures Sorted(Survivors(levels, level, merged, n, ss)) && Legal(Survivors(levels, level, merged, n, ss))
  {
    SurvivorsSorted(levels, level, merged, n, ss);
    SurvivorsMembers(levels, level, merged, n, ss);
  }

  // Of all the entries of a user key that no reader from the smallest snapshot on tells apart, at most one survives.
  lemma OneOldVersionSurvives(levels: Levels, level: nat, merged: seq<Entry>, ss: nat, a: Entry, b: Entry)
    requires Sorted(merged)
    requires a in Survivors(levels, level, merged, |merged|, ss) && b in Survivors(levels, level, merged, |merged|, ss)
    requires a.key.user == b.key.user && a.key.sequence <= ss && b.key.sequence <= ss
    ensures a == b
  {
    hide Survivors, Obsolete, Less, Hidden;
    SurvivorsMembers(levels, level, merged, |merged|, ss);
    var i :| 0 <= i < |merged| && merged[i] == a && Kept(levels, level, merged, i, ss);
    var j :| 0 <= j < |merged| && merged[j] == b && Kept(levels, level, merged, j, ss);
    NothingOldBefore(merged, i, ss);
    NothingOldBefore(merged, j, ss);
  }

  lemma NothingOldBefore(merged: seq<Entry>, i: nat, ss: nat)
    requires i < |merged| && !Hidden(merged, i, ss)
    ensures forall j | 0 <= j < i && merged[j].key.user == merged[i].key.user :: merged[j].key.sequence > ss
  {
  }

  // No deletion marker survives that a reader from the smallest snapshot on can do without.
  lemma ObsoleteMarkersGo(levels: Levels, level: nat, merged: seq<Entry>, ss: nat, e: Entry)
    requires e in Survivors(levels, level, merged, |merged|, ss) && e.key.kind.TypeDeletion? && e.key.sequence <= ss
    ensures !BaseLevel(levels, level, e.key.user)
  {
    hide Survivors, Hidden, BaseLevel;
    SurvivorsMembers(levels, level, merged, |merged|, ss);
  }

  // ---------------------------------------------------------------------------
  // What readers notice
  // ---------------------------------------------------------------------------

  // u's newest entry at ss is a deletion marker this compaction throws away, and the entries it leaves
  // alone still answer u with a value.
  ghost predicate Resurrects(rest: set<Entry>, levels: Levels, level: nat, merged: seq<Entry>, ss: nat, u: UserKey) {
    exists t, v ::
      && Newest(rest + ToSet(merged), u, ss, t)
      && t in merged && t.key.kind.TypeDeletion? && BaseLevel(levels, level, u)
      && Newest(rest, u, ss, v) && v.key.kind.TypeValue?
  }

  ghost function After(rest: set<Entry>, levels: Levels, level: nat, merged: seq<Entry>, ss: nat): set<Entry> {
    rest + ToSet(Survivors(levels, level, merged, |merged|, ss))
  }

  // The newest entry visible at or above ss is only ever dropped as an obsolete deletion marker.
  lemma NewestIsKept(rest: set<Entry>, levels: Levels, level: nat, merged: seq<Entry>, ss: nat,
                     u: UserKey, s: nat, n: Entry)
    requires Sorted(merged) && SeqUnique(rest + ToSet(merged)) && s >= ss
    requires Newest(rest + ToSet(merged), u, s, n) && n in merged && !Obsolete(levels, level, n, ss)
    ensures n in Survivors(levels, level, merged, |merged|, ss)
  {
    var i :| 0 <= i < |merged| && merged[i] == n;
    SurvivorsMembers(levels, level, merged, |merged|, ss);
    forall j | 0 <= j < i && merged[j].key.user == merged[i].key.user
      ensures merged[j].key.sequence > ss
    {
      assert Less(merged[j].key, merged[i].key);
      assert merged[j] in ToSet(merged) && n in ToSet(merged);
    }
    assert Kept(levels, level, merged, i, ss);
  }

  // Everything in the inputs at or below a dropped deletion marker goes with it.
  lemma NothingBelowObsolete(levels: Levels, level: nat, merged: seq<Entry>, ss: nat, n: Entry, x: Entry)
    requires Sorted(merged) && n in merged && Obsolete(levels, level, n, ss)
    requires x in Survivors(levels, level, merged, |merged|, ss) && x.key.user == n.key.user
    ensures x.key.sequence > ss || Less(x.key, n.key)
  {
    SurvivorsMembers(levels, level, merged, |merged|, ss);
    var i :| 0 <= i < |merged| && Kept(levels, level, merged, i, ss) && merged[i] == x;
    var k :| 0 <= k < |merged| && merged[k] == n;
    assert i < k ==> Less(merged[i].key, merged[k].key);
  }

  lemma SurvivorsShrink(rest: set<Entry>, levels: Levels, level: nat, merged: seq<Entry>, ss: nat)
    ensures After(rest, levels, level, merged, ss) <= rest + ToSet(merged)
    ensures SeqUnique(rest + ToSet(merged)) ==> SeqUnique(After(rest, levels, level, merged, ss)) && SeqUnique(rest)
  {
    SurvivorsMembers(levels, level, merged, |merged|, ss);
    assert forall e | e in rest :: e in rest + ToSet(merged);
  }

  // Once the newest entry of u at s is a dropped deletion marker, only the untouched entries answer.
  lemma ReadBehindObsolete(rest: set<Entry>, levels: Levels, level: nat, merged: seq<Entry>, ss: nat,
                           u: UserKey, s: nat, n: Entry)
    requires Sorted(merged) && SeqUnique(rest + ToSet(merged)) && s >= ss
    requires Newest(rest + ToSet(merged), u, s, n) && n in merged && Obsolete(levels, level, n, ss)
    ensures Newest(rest + ToSet(merged), u, ss, n)
    ensures Read(After(rest, levels, level, merged, ss), u, s) == Read(rest, u, ss)
  {
    var after := After(rest, levels, level, merged, ss);
    SurvivorsShrink(rest, levels, level, merged, ss);
    forall x | x in rest + ToSet(merged) && VisibleAt(x, u, ss)
      ensures VisibleAt(x, u, s)
    {
    }
    forall x | x in after && VisibleAt(x, u, s)
      ensures x in rest && VisibleAt(x, u, ss)
    {
      assert x.key.sequence <= n.key.sequence;
      if x in Survivors(levels, level, merged, |merged|, ss) {
        NothingBelowObsolete(levels, level, merged, ss, n, x);
      }
    }
    if AnyVisible(rest, u, ss) {
      var v := NewestExists(rest, u, ss);
      ReadOfNewest(rest, u, ss, v);
      assert Newest(after, u, s, v);
      ReadOfNewest(after, u, s, v);
    } else {
      assert !AnyVisible(after, u, s);
    }
  }

  // Every snapshot at or above ss reads the same before and after, provided u is not resurrected.
  lemma DropKeepsReads(rest: set<Entry>, levels: Levels, level: nat, merged: seq<Entry>, ss: nat, u: UserKey, s: nat)
    requires Sorted(merged) && SeqUnique(rest + ToSet(merged)) && s >= ss
    requires !Resurrects(rest, levels, level, merged, ss, u)
    ensures Read(After(rest, levels, level, merged, ss), u, s) == Read(rest + ToSet(merged), u, s)
  {
    var all := rest + ToSet(merged);
    var after := After(rest, levels, level, merged, ss);
    SurvivorsShrink(rest, levels, level, merged, ss);
    if AnyVisible(all, u, s) {
      var n := NewestExists(all, u, s);
      ReadOfNewest(all, u, s, n);
      if n in merged && n !in rest && Obsolete(levels, level, n, ss) {
        ReadBehindObsolete(rest, levels, level, merged, ss, u, s, n);
        if AnyVisible(rest, u, ss) {
          var v := NewestExists(rest, u, ss);
          ReadOfNewest(rest, u, ss, v);
        }
      } else {
        if n !in rest {
          NewestIsKept(rest, levels, level, merged, ss, u, s, n);
        }
        assert Newest(after, u, s, n);
        ReadOfNewest(after, u, s, n);
      }
    } else {
      assert !AnyVisible(after, u, s);
    }
  }

  // A compaction is invisible to all snapshots at or above ss exactly when no user key is resurrected.
  lemma ReadsKeptIffNoResurrection(rest: set<Entry>, levels: Levels, level: nat, merged: seq<Entry>, ss: nat)
    requires Sorted(merged) && SeqUnique(rest + ToSet(merged))
    ensures (forall u: UserKey, s: nat | s >= ss ::
               Read(After(rest, levels, level, merged, ss), u, s) == Read(rest + ToSet(merged), u, s))
            <==> forall u: UserKey :: !Resurrects(rest, levels, level, merged, ss, u)
  {
    if forall u: UserKey :: !Resurrects(rest, levels, level, merged, ss, u) {
      forall u: UserKey, s: nat | s >= ss
        ensures Read(After(rest, levels, level, merged, ss), u, s) == Read(rest + ToSet(merged), u, s)
      {
        DropKeepsReads(rest, levels, level, merged, ss, u, s);
      }
    } else {
      var u: UserKey :| Resurrects(rest, levels, level, merged, ss, u);
      var t, v :| && Newest(rest + ToSet(merged), u, ss, t)
                  && t in merged && t.key.kind.TypeDeletion? && BaseLevel(levels, level, u)
                  && Newest(rest, u, ss, v) && v.key.kind.TypeValue?;
      SurvivorsShrink(rest, levels, level, merged, ss);
      ReadBehindObsolete(rest, levels, level, merged, ss, u, ss, t);
      ReadOfNewest(rest, u, ss, v);
      ReadOfNewest(rest + ToSet(merged), u, ss, t);
      assert Read(After(rest, levels, level, merged, ss), u, ss) != Read(rest + ToSet(merged), u, ss);
    }
  }
}
