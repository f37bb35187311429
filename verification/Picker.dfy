/**
 Choosing what to compact: PickCompaction, CompactRange and SetupOtherInputs of
 db/version_set.cc, and the level a flushed memtable goes to.
 */
module Picker {
  import opened Keys
  import opened Files

  // The files of one version, level by level.
  type Levels = seq<seq<FileMeta>>

  ghost predicate SortedLevels(levels: Levels) {
    && |levels| == NUM_LEVELS
    && (forall l | 0 <= l < |levels| :: GoodFiles(levels[l]))
    && (forall l | 1 <= l < |levels| :: SortedDisjoint(levels[l]))
    && NoDuplicates(levels[0])
  }

  ghost predicate NoDuplicates(files: seq<FileMeta>) {
    forall i, j | 0 <= i < j < |files| :: files[i] != files[j]
  }

  ghost predicate AllIn(files: seq<FileMeta>, levelFiles: seq<FileMeta>) {
    forall f | f in files :: f in levelFiles
  }

  // The inputs are the consecutive files i, ..., j-1 of the level.
  ghost predicate Slice(levelFiles: seq<FileMeta>, files: seq<FileMeta>, i: nat, j: nat) {
    i < j <= |levelFiles| && files == levelFiles[i..j]
  }

  predicate UserDisjoint(f: FileMeta, g: FileMeta) {
    f.largest.user < g.smallest.user || g.largest.user < f.smallest.user
  }

  // A file of the level left out of the inputs shares no user key with an input, or ends before it starts.
  ghost predicate LeftOutPrecedes(levelFiles: seq<FileMeta>, files: seq<FileMeta>) {
    forall f, g | f in files && g in levelFiles && g !in files ::
      UserDisjoint(f, g) || Less(g.largest, f.smallest)
  }

  ghost predicate IsSmallestKey(files: seq<FileMeta>, key: InternalKey) {
    && (exists f :: f in files && f.smallest == key)
    && forall f | f in files :: !Less(f.smallest, key)
  }

  // Files of one level that may be moved down together.
  ghost predicate Mergeable(levelFiles: seq<FileMeta>, level: nat, files: seq<FileMeta>) {
    && files != []
    && AllIn(files, levelFiles)
    && NoDuplicates(files)
    && (level > 0 ==> SortedDisjoint(files))
    && LeftOutPrecedes(levelFiles, files)
  }

  // in1 is all of levelFiles that in0's user-key range touches.
  ghost predicate NextLevelInputs(levelFiles: seq<FileMeta>, in0: seq<FileMeta>, in1: seq<FileMeta>) {
    exists lo, hi ::
      && IsSmallestKey(in0, lo)
      && IsLargestKey(in0, hi)
      && in1 == Select(levelFiles, Some(lo.user), Some(hi.user))
  }

  // What a compaction of `level` is guaranteed to merge.
  ghost predicate CompactionInputs(levels: Levels, level: nat, in0: seq<FileMeta>, in1: seq<FileMeta>)
    requires |levels| == NUM_LEVELS && level + 1 < NUM_LEVELS
  {
    Mergeable(levels[level], level, in0) && NextLevelInputs(levels[level + 1], in0, in1)
  }

  // The files followed by those that continue the user key they end with, one after the other.
  ghost predicate WithBoundary(levelFiles: seq<FileMeta>, files: seq<FileMeta>, r: seq<FileMeta>) {
    && files <= r && BoundaryClosed(levelFiles, r)
    && forall i | |files| <= i < |r| :: Continues(levelFiles, r[..i], r[i])
  }

  // All files of the level across the range of a first choice of inputs.
  ghost predicate Wider(levels: Levels, level: nat, in0: seq<FileMeta>, in1: seq<FileMeta>, wide: seq<FileMeta>)
    requires |levels| == NUM_LEVELS && level + 1 < NUM_LEVELS
  {
    exists lo, hi, across ::
      && IsSmallestKey(in0 + in1, lo) && IsLargestKey(in0 + in1, hi)
      && Across(levels[level], level, Some(lo.user), Some(hi.user), across)
      && WithBoundary(levels[level], across, wide)
  }

  // Growing pays: there are more files, together they stay small, and they touch no more files below.
  ghost predicate Grows(next: seq<FileMeta>, maxFileSize: nat, in0: seq<FileMeta>, in1: seq<FileMeta>,
                        wide: seq<FileMeta>)
  {
    && |wide| > |in0|
    && TotalFileSize(in1) + TotalFileSize(wide) < ExpandedCompactionByteSizeLimit(maxFileSize)
    && exists below :: NextLevelInputs(next, wide, below) && |below| == |in1|
  }

  // The inputs that SetupOtherInputs makes of the files it starts from: these with their boundary files and what they
  // touch below, or the wider choice exactly when that grows.
  ghost predicate Chosen(levels: Levels, maxFileSize: nat, level: nat, seed: seq<FileMeta>, in0: seq<FileMeta>,
                         in1: seq<FileMeta>)
    requires |levels| == NUM_LEVELS && level + 1 < NUM_LEVELS
  {
    exists first0, first1 ::
      && WithBoundary(levels[level], seed, first0) && NextLevelInputs(levels[level + 1], first0, first1)
      && GrownFrom(levels, maxFileSize, level, first0, first1, in0, in1)
  }

  ghost predicate GrownFrom(levels: Levels, maxFileSize: nat, level: nat, first0: seq<FileMeta>, first1: seq<FileMeta>,
                            in0: seq<FileMeta>, in1: seq<FileMeta>)
    requires |levels| == NUM_LEVELS && level + 1 < NUM_LEVELS
  {
    if first1 == [] then in0 == first0 && in1 == []
    else exists wide ::
      && Wider(levels, level, first0, first1, wide)
      && if Grows(levels[level + 1], maxFileSize, first0, first1, wide)
         then in0 == wide && NextLevelInputs(levels[level + 1], wide, in1)
         else in0 == first0 && in1 == first1
  }

  // ---------------------------------------------------------------------------
  // Facts about sorted levels
  // ---------------------------------------------------------------------------

  lemma SortedTwo(files: seq<FileMeta>, f: FileMeta, g: FileMeta)
    requires GoodFiles(files) && SortedDisjoint(files) && f in files && g in files
    ensures f == g || Less(f.largest, g.smallest) || Less(g.largest, f.smallest)
    ensures Less(f.smallest, g.smallest) <==> Less(f.largest, g.smallest)
    ensures f.smallest == g.smallest ==> f == g
  {
    hide GoodFile;
    FileEnds(f);
    FileEnds(g);
    var i :| 0 <= i < |files| && files[i] == f;
    var j :| 0 <= j < |files| && files[j] == g;
    assert i < j ==> Less(files[i].largest, files[j].smallest);
    assert j < i ==> Less(files[j].largest, files[i].smallest);
  }

  lemma {:induction false} SelectNoDuplicates(files: seq<FileMeta>, b: Option<UserKey>, e: Option<UserKey>)
    requires NoDuplicates(files)
    ensures NoDuplicates(Select(files, b, e))
  {
    if files != [] {
      var n := |files| - 1;
      var r := Select(files[..n], b, e);
      SelectNoDuplicates(files[..n], b, e);
      SelectContains(files[..n], b, e);
      forall i | 0 <= i < |r|
        ensures r[i] != files[n]
      {
        assert r[i] in r;
        var k :| 0 <= k < n && files[..n][k] == r[i];
        assert files[k] == r[i];
      }
    }
  }

  lemma SortedNoDuplicates(files: seq<FileMeta>)
    requires GoodFiles(files) && SortedDisjoint(files)
    ensures NoDuplicates(files)
  {
    hide GoodFile;
    forall i, j | 0 <= i < j < |files|
      ensures files[i] != files[j]
    {
      assert Less(files[i].largest, files[j].smallest);
      FileEnds(files[i]);
    }
  }

  lemma {:induction false} SelectConcat(x: seq<FileMeta>, y: seq<FileMeta>, b: Option<UserKey>, e: Option<UserKey>)
    ensures Select(x + y, b, e) == Select(x, b, e) + Select(y, b, e)
  {
    if y == [] {
      assert x + y == x;
    } else {
      var n := |y| - 1;
      SelectConcat(x, y[..n], b, e);
      assert (x + y)[..|x + y| - 1] == x + y[..n];
    }
  }

  lemma {:induction false} SelectUniform(x: seq<FileMeta>, b: Option<UserKey>, e: Option<UserKey>)
    ensures (forall f | f in x :: Overlaps(f, b, e)) ==> Select(x, b, e) == x
    ensures (forall f | f in x :: !Overlaps(f, b, e)) ==> Select(x, b, e) == []
  {
    if x != [] {
      var n := |x| - 1;
      SelectUniform(x[..n], b, e);
      assert x == x[..n] + [x[n]];
    }
  }

  lemma SelectOfSplit(files: seq<FileMeta>, b: Option<UserKey>, e: Option<UserKey>, i: nat, j: nat)
    requires i <= j <= |files|
    requires forall k | i <= k < j :: Overlaps(files[k], b, e)
    requires forall k | 0 <= k < |files| && !(i <= k < j) :: !Overlaps(files[k], b, e)
    ensures Select(files, b, e) == files[i..j]
  {
    assert forall f | f in files[..i] :: !Overlaps(f, b, e);
    assert forall f | f in files[i..j] :: Overlaps(f, b, e);
    assert forall f | f in files[j..] :: !Overlaps(f, b, e);
    assert files[..i] + files[i..j] + files[j..] == files;
    SelectThree(files[..i], files[i..j], files[j..], b, e);
  }

  lemma SelectThree(x: seq<FileMeta>, y: seq<FileMeta>, z: seq<FileMeta>, b: Option<UserKey>, e: Option<UserKey>)
    requires forall f | f in x || f in z :: !Overlaps(f, b, e)
    requires forall f | f in y :: Overlaps(f, b, e)
    ensures Select(x + y + z, b, e) == y
  {
    SelectUniform(x, b, e);
    SelectUniform(y, b, e);
    SelectUniform(z, b, e);
    SelectConcat(x, y, b, e);
    SelectConcat(x + y, z, b, e);
  }

  lemma UserAscending(files: seq<FileMeta>, i: nat, j: nat)
    requires GoodFiles(files) && SortedDisjoint(files) && i < j < |files|
    ensures files[i].smallest.user <= files[i].largest.user <= files[j].smallest.user <= files[j].largest.user
  {
    hide GoodFile;
    FileEnds(files[i]);
    FileEnds(files[j]);
    assert Less(files[i].largest, files[j].smallest);
  }

  // In a sorted level the files overlapping a range are consecutive.
  lemma SelectIsSlice(files: seq<FileMeta>, b: Option<UserKey>, e: Option<UserKey>) returns (i: nat, j: nat)
    requires GoodFiles(files) && SortedDisjoint(files)
    ensures i <= j <= |files| && Select(files, b, e) == files[i..j]
  {
    hide GoodFile;
    forall k, m | 0 <= k < m < |files|
      ensures files[k].smallest.user <= files[k].largest.user <= files[m].smallest.user <= files[m].largest.user
    {
      UserAscending(files, k, m);
    }
    i := 0;
    while i < |files| && AfterFile(b, files[i])
      invariant i <= |files| && forall k | 0 <= k < i :: AfterFile(b, files[k])
    {
      i := i + 1;
    }
    j := i;
    while j < |files| && !BeforeFile(e, files[j])
      invariant i <= j <= |files| && forall k | i <= k < j :: Overlaps(files[k], b, e)
    {
      j := j + 1;
    }
    SelectOfSplit(files, b, e, i, j);
  }

  lemma SliceKey(files: seq<FileMeta>, i: nat, j: nat, key: InternalKey)
    requires GoodFiles(files) && SortedDisjoint(files) && i < j <= |files|
    ensures IsLargestKey(files[i..j], key) <==> key == files[j - 1].largest
    ensures IsSmallestKey(files[i..j], key) <==> key == files[i].smallest
  {
    hide GoodFile;
    var s := files[i..j];
    assert s[j - 1 - i] == files[j - 1] && s[0] == files[i];
    forall f | f in s
      ensures !Less(files[j - 1].largest, f.largest) && (f.largest == files[j - 1].largest || Less(f.largest, files[j - 1].largest))
      ensures !Less(f.smallest, files[i].smallest) && (f.smallest == files[i].smallest || Less(files[i].smallest, f.smallest))
    {
      var k :| 0 <= k < |s| && s[k] == f;
      assert files[i + k] == f;
      FileEnds(f);
      FileEnds(files[i]);
      FileEnds(files[j - 1]);
      assert i + k < j - 1 ==> Less(files[i + k].largest, files[j - 1].smallest);
      assert 0 < k ==> Less(files[i].largest, files[i + k].smallest);
    }
    assert files[j - 1] in s && files[i] in s;
  }

  // A boundary file of a file comes after it, and the next file is a boundary file too.
  lemma BoundaryIndex(levelFiles: seq<FileMeta>, j: nat, k: nat)
    requires GoodFiles(levelFiles) && SortedDisjoint(levelFiles) && 0 < j <= |levelFiles| && k < |levelFiles|
    requires IsBoundary(levelFiles[k], levelFiles[j - 1].largest)
    ensures j <= k && IsBoundary(levelFiles[j], levelFiles[j - 1].largest)
    ensures j < k ==> Less(levelFiles[j].smallest, levelFiles[k].smallest)
  {
    hide GoodFile;
    FileEnds(levelFiles[k]);
    FileEnds(levelFiles[j - 1]);
    if j < k {
      UserAscending(levelFiles, j - 1, j);
      UserAscending(levelFiles, j, k);
      FileEnds(levelFiles[j]);
    }
  }

  // The boundary file after a slice is the next file of the level.
  lemma ContinuesIsNext(levelFiles: seq<FileMeta>, i: nat, j: nat, f: FileMeta)
    requires GoodFiles(levelFiles) && SortedDisjoint(levelFiles) && i < j <= |levelFiles|
    requires Continues(levelFiles, levelFiles[i..j], f)
    ensures j < |levelFiles| && f == levelFiles[j]
  {
    hide GoodFile;
    var key :| && IsLargestKey(levelFiles[i..j], key)
               && IsBoundary(f, key)
               && forall g | g in levelFiles && IsBoundary(g, key) :: !Less(g.smallest, f.smallest);
    SliceKey(levelFiles, i, j, key);
    var k :| 0 <= k < |levelFiles| && levelFiles[k] == f;
    BoundaryIndex(levelFiles, j, k);
  }

  // Extending a slice by boundary files gives a longer slice.
  lemma {:induction false} BoundaryInputsSlice(levelFiles: seq<FileMeta>, r: seq<FileMeta>, i: nat, j: nat)
    returns (j': nat)
    requires GoodFiles(levelFiles) && SortedDisjoint(levelFiles)
    requires i < j <= |levelFiles| && levelFiles[i..j] <= r
    requires forall k | j - i <= k < |r| :: Continues(levelFiles, r[..k], r[k])
    ensures Slice(levelFiles, r, i, j')
    decreases |r| - (j - i)
  {
    hide GoodFile;
    j' := j;
    if |r| > j - i {
      assert r[..j - i] == levelFiles[i..j];
      ContinuesIsNext(levelFiles, i, j, r[j - i]);
      assert levelFiles[i..j + 1] == levelFiles[i..j] + [levelFiles[j]];
      j' := BoundaryInputsSlice(levelFiles, r, i, j + 1);
    }
  }

  lemma SliceSorted(levelFiles: seq<FileMeta>, i: nat, j: nat)
    requires GoodFiles(levelFiles) && SortedDisjoint(levelFiles) && i <= j <= |levelFiles|
    ensures AllIn(levelFiles[i..j], levelFiles)
    ensures SortedDisjoint(levelFiles[i..j]) && NoDuplicates(levelFiles[i..j])
  {
    hide GoodFile;
    var files := levelFiles[i..j];
    assert forall k | 0 <= k < |files| :: files[k] == levelFiles[i + k];
    SortedNoDuplicates(files);
  }

  lemma OutsideSlice(levelFiles: seq<FileMeta>, i: nat, j: nat, a: nat, k: nat)
    requires GoodFiles(levelFiles) && SortedDisjoint(levelFiles) && i <= a < j <= |levelFiles|
    requires BoundaryClosed(levelFiles, levelFiles[i..j])
    requires k < |levelFiles| && !(i <= k < j)
    ensures UserDisjoint(levelFiles[a], levelFiles[k]) || Less(levelFiles[k].largest, levelFiles[a].smallest)
  {
    hide GoodFile;
    var key := levelFiles[j - 1].largest;
    SliceKey(levelFiles, i, j, key);
    if j <= k {
      assert !IsBoundary(levelFiles[k], key);
      UserAscending(levelFiles, a, k);
      UserAscending(levelFiles, j - 1, k);
      if a < j - 1 {
        UserAscending(levelFiles, a, j - 1);
      }
    }
  }

  lemma SliceLeftOut(levelFiles: seq<FileMeta>, i: nat, j: nat)
    requires GoodFiles(levelFiles) && SortedDisjoint(levelFiles) && i < j <= |levelFiles|
    requires BoundaryClosed(levelFiles, levelFiles[i..j])
    ensures LeftOutPrecedes(levelFiles, levelFiles[i..j])
  {
    hide GoodFile;
    var files := levelFiles[i..j];
    forall f, g | f in files && g in levelFiles && g !in files
      ensures UserDisjoint(f, g) || Less(g.largest, f.smallest)
    {
      var a :| 0 <= a < |files| && files[a] == f;
      var k :| 0 <= k < |levelFiles| && levelFiles[k] == g;
      assert files[a] == levelFiles[i + a];
      OutsideSlice(levelFiles, i, j, i + a, k);
    }
  }

  // ---------------------------------------------------------------------------
  // Level 0
  // ---------------------------------------------------------------------------

  ghost predicate UserClosed(levelFiles: seq<FileMeta>, files: seq<FileMeta>) {
    forall f, g | f in files && g in levelFiles && g !in files :: UserDisjoint(f, g)
  }

  lemma ClosedSelectIsUserClosed(files: seq<FileMeta>, b: Option<UserKey>, e: Option<UserKey>)
    requires Closed(files, b, e)
    ensures UserClosed(files, Select(files, b, e))
  {
    var r := Select(files, b, e);
    SelectContains(files, b, e);
    forall f, g | f in r && g in files && g !in r
      ensures UserDisjoint(f, g)
    {
      assert Overlaps(f, b, e) && !Overlaps(g, b, e);
    }
  }

  // A user-closed set has no boundary file to add.
  lemma UserClosedNoBoundary(levelFiles: seq<FileMeta>, files: seq<FileMeta>, r: seq<FileMeta>)
    requires GoodFiles(levelFiles) && AllIn(files, levelFiles) && UserClosed(levelFiles, files)
    requires files <= r
    requires forall i | |files| <= i < |r| :: Continues(levelFiles, r[..i], r[i])
    ensures r == files
  {
    hide GoodFile;
    if |r| > |files| {
      var n := |files|;
      assert r[..n] == files;
      var f := r[n];
      assert Continues(levelFiles, files, f);
      var key :| IsLargestKey(files, key) && IsBoundary(f, key);
      var m :| m in files && m.largest == key;
      FileEnds(f);
      FileEnds(m);
      assert false;
    }
  }

  // ---------------------------------------------------------------------------
  // Setting up a compaction
  // ---------------------------------------------------------------------------

  function TotalFileSize(files: seq<FileMeta>): nat {
    if files == [] then 0 else TotalFileSize(files[..|files| - 1]) + files[|files| - 1].fileSize
  }

  function MaxGrandParentOverlapBytes(maxFileSize: nat): nat { 10 * maxFileSize }

  function ExpandedCompactionByteSizeLimit(maxFileSize: nat): nat { 25 * maxFileSize }

  // The smallest and largest internal keys of a non-empty set of files.
  method GetRange(inputs: seq<FileMeta>) returns (smallest: InternalKey, largest: InternalKey)
    requires inputs != []
    ensures IsSmallestKey(inputs, smallest) && IsLargestKey(inputs, largest)
  {
    smallest, largest := inputs[0].smallest, inputs[0].largest;
    var i := 1;
    while i < |inputs|
      invariant 1 <= i <= |inputs|
      invariant exists j :: 0 <= j < i && inputs[j].smallest == smallest
      invariant exists j :: 0 <= j < i && inputs[j].largest == largest
      invariant forall j | 0 <= j < i :: !Less(inputs[j].smallest, smallest) && !Less(largest, inputs[j].largest)
    {
      if Less(inputs[i].smallest, smallest) {
        smallest := inputs[i].smallest;
      }
      if Less(largest, inputs[i].largest) {
        largest := inputs[i].largest;
      }
      i := i + 1;
    }
  }

  // Files a compaction may start from: closed under user-key overlap at level 0, consecutive above.
  ghost predicate Seed(levelFiles: seq<FileMeta>, level: nat, files: seq<FileMeta>) {
    && files != []
    && (level == 0 ==> AllIn(files, levelFiles) && NoDuplicates(files) && UserClosed(levelFiles, files))
    && (level > 0 ==> exists i, j :: Slice(levelFiles, files, i, j))
  }

  // GetOverlappingInputs always delivers a seed.
  lemma OverlappingIsSeed(levels: Levels, level: nat, begin: Option<UserKey>, end: Option<UserKey>,
                          inputs: seq<FileMeta>)
    requires SortedLevels(levels) && level < NUM_LEVELS && inputs != []
    requires Across(levels[level], level, begin, end, inputs)
    ensures Seed(levels[level], level, inputs)
  {
    hide GoodFile;
    if level == 0 {
      var b, e :| LeastClosed(levels[0], begin, end, b, e) && inputs == Select(levels[0], b, e);
      ClosedSelectIsUserClosed(levels[0], b, e);
      SelectNoDuplicates(levels[0], b, e);
      SelectContains(levels[0], b, e);
    } else {
      var i, j := SelectIsSlice(levels[level], begin, end);
      assert Slice(levels[level], inputs, i, j);
    }
  }

  // A seed extended by its boundary files may be merged into the next level.
  lemma SeedWithBoundary(levels: Levels, level: nat, seed: seq<FileMeta>, r: seq<FileMeta>)
    requires SortedLevels(levels) && level < NUM_LEVELS && Seed(levels[level], level, seed)
    requires seed <= r && BoundaryClosed(levels[level], r)
    requires forall i | |seed| <= i < |r| :: Continues(levels[level], r[..i], r[i])
    ensures Mergeable(levels[level], level, r)
  {
    hide GoodFile;
    if level == 0 {
      UserClosedNoBoundary(levels[0], seed, r);
    } else {
      var i, j :| Slice(levels[level], seed, i, j);
      var j' := BoundaryInputsSlice(levels[level], r, i, j);
      SliceSorted(levels[level], i, j');
      SliceLeftOut(levels[level], i, j');
    }
  }

  // Every input overlaps the range of all inputs, so widening to that range keeps it.
  lemma InputsOverlapTheirRange(levels: Levels, level: nat, in0: seq<FileMeta>, in1: seq<FileMeta>,
                                lo: InternalKey, hi: InternalKey, overlapping: seq<FileMeta>)
    requires SortedLevels(levels) && level < NUM_LEVELS && AllIn(in0, levels[level]) && in0 != []
    requires IsSmallestKey(in0 + in1, lo) && IsLargestKey(in0 + in1, hi)
    requires Across(levels[level], level, Some(lo.user), Some(hi.user), overlapping)
    ensures forall f | f in in0 :: f in overlapping
    ensures overlapping != []
  {
    hide GoodFile;
    var b, e := Some(lo.user), Some(hi.user);
    if level == 0 {
      b, e :| LeastClosed(levels[0], Some(lo.user), Some(hi.user), b, e) && overlapping == Select(levels[0], b, e);
    }
    SelectContains(levels[level], b, e);
    forall f | f in in0
      ensures f in overlapping
    {
      FileEnds(f);
      assert f in in0 + in1;
    }
    assert in0[0] in in0;
  }

  ghost predicate IsSlice(levelFiles: seq<FileMeta>, files: seq<FileMeta>) {
    exists i: nat, j: nat :: Slice(levelFiles, files, i, j)
  }

  lemma SeedWithBoundaryIsSlice(levels: Levels, level: nat, seed: seq<FileMeta>, r: seq<FileMeta>)
    requires SortedLevels(levels) && 0 < level < NUM_LEVELS && Seed(levels[level], level, seed) && seed <= r
    requires forall i | |seed| <= i < |r| :: Continues(levels[level], r[..i], r[i])
    ensures IsSlice(levels[level], r)
  {
    hide GoodFile;
    var i, j :| Slice(levels[level], seed, i, j);
    var j' := BoundaryInputsSlice(levels[level], r, i, j);
  }

  // Adds the boundary files at `level`.
  method CompleteLevel(levels: Levels, level: nat, seed: seq<FileMeta>) returns (in0: seq<FileMeta>)
    requires SortedLevels(levels) && level < NUM_LEVELS && Seed(levels[level], level, seed)
    ensures Mergeable(levels[level], level, in0) && WithBoundary(levels[level], seed, in0)
    ensures level == 0 ==> in0 == seed
    ensures level > 0 ==> IsSlice(levels[level], in0)
    ensures forall f | f in seed :: f in in0
  {
    hide GoodFile, IsSlice;
    in0 := AddBoundaryInputs(levels[level], seed);
    SeedWithBoundary(levels, level, seed, in0);
    if level == 0 {
      UserClosedNoBoundary(levels[0], seed, in0);
    } else {
      SeedWithBoundaryIsSlice(levels, level, seed, in0);
    }
  }

  // Takes more files of `level` when the next level's inputs stay the same and all of it stays small.
  method ExpandInputs(levels: Levels, maxFileSize: nat, level: nat, in0: seq<FileMeta>, in1: seq<FileMeta>,
                      allStart: InternalKey, allLimit: InternalKey)
    returns (r0: seq<FileMeta>, r1: seq<FileMeta>)
    requires SortedLevels(levels) && level + 1 < NUM_LEVELS && CompactionInputs(levels, level, in0, in1)
    requires IsSmallestKey(in0 + in1, allStart) && IsLargestKey(in0 + in1, allLimit)
    ensures CompactionInputs(levels, level, r0, r1)
    ensures level > 0 && IsSlice(levels[level], in0) ==> IsSlice(levels[level], r0)
    ensures forall f | f in in0 :: f in r0
    ensures in1 != [] ==> GrownFrom(levels, maxFileSize, level, in0, in1, r0, r1)
  {
    hide GoodFile, IsSlice, WithBoundary, NextLevelInputs, LeftOutPrecedes, Across, Wider, IsSmallestKey, IsLargestKey;
    hide NoDuplicates, SortedDisjoint, TotalFileSize;
    r0, r1 := in0, in1;
    var overlapping := GetOverlappingInputs(levels[level], level, Some(allStart.user), Some(allLimit.user));
    InputsOverlapTheirRange(levels, level, in0, in1, allStart, allLimit, overlapping);
    OverlappingIsSeed(levels, level, Some(allStart.user), Some(allLimit.user), overlapping);
    var expanded0 := CompleteLevel(levels, level, overlapping);
    WiderIs(levels, level, in0, in1, allStart, allLimit, overlapping, expanded0);
    if |expanded0| > |in0| &&
       TotalFileSize(in1) + TotalFileSize(expanded0) < ExpandedCompactionByteSizeLimit(maxFileSize)
    {
      var newStart, newLimit := GetRange(expanded0);
      var expanded1 := GetOverlappingInputs(levels[level + 1], level + 1, Some(newStart.user), Some(newLimit.user));
      BelowIs(levels, level, expanded0, newStart, newLimit, expanded1);
      BelowIsUnique(levels[level + 1], expanded0, expanded1);
      if |expanded1| == |in1| {
        r0, r1 := expanded0, expanded1;
        forall f | f in in0
          ensures f in r0
        {
          assert f in overlapping;
        }
      }
    }
  }

  lemma BelowIs(levels: Levels, level: nat, in0: seq<FileMeta>, lo: InternalKey, hi: InternalKey, in1: seq<FileMeta>)
    requires |levels| == NUM_LEVELS && level + 1 < NUM_LEVELS && IsSmallestKey(in0, lo) && IsLargestKey(in0, hi)
    requires Across(levels[level + 1], level + 1, Some(lo.user), Some(hi.user), in1)
    ensures NextLevelInputs(levels[level + 1], in0, in1)
  {
  }

  lemma WiderIs(levels: Levels, level: nat, in0: seq<FileMeta>, in1: seq<FileMeta>, lo: InternalKey, hi: InternalKey,
                across: seq<FileMeta>, wide: seq<FileMeta>)
    requires |levels| == NUM_LEVELS && level + 1 < NUM_LEVELS
    requires IsSmallestKey(in0 + in1, lo) && IsLargestKey(in0 + in1, hi)
    requires Across(levels[level], level, Some(lo.user), Some(hi.user), across)
    requires WithBoundary(levels[level], across, wide)
    ensures Wider(levels, level, in0, in1, wide)
  {
  }

  lemma BelowIsUnique(next: seq<FileMeta>, in0: seq<FileMeta>, in1: seq<FileMeta>)
    requires NextLevelInputs(next, in0, in1)
    ensures forall other | NextLevelInputs(next, in0, other) :: other == in1
  {
    hide Select;
    var lo, hi :| && IsSmallestKey(in0, lo) && IsLargestKey(in0, hi)
                  && in1 == Select(next, Some(lo.user), Some(hi.user));
    forall other | NextLevelInputs(next, in0, other)
      ensures other == in1
    {
      var lo', hi' :| && IsSmallestKey(in0, lo') && IsLargestKey(in0, hi')
                      && other == Select(next, Some(lo'.user), Some(hi'.user));
      LargestKeyUnique(in0, hi, hi');
      SmallestKeyUnique(in0, lo, lo');
    }
  }

  lemma SmallestKeyUnique(files: seq<FileMeta>, a: InternalKey, b: InternalKey)
    requires IsSmallestKey(files, a) && IsSmallestKey(files, b)
    ensures a == b
  {
  }

  // All inputs of a compaction that starts from seed. Boundary files are added at `level` only.
  method ChooseInputs(levels: Levels, maxFileSize: nat, level: nat, seed: seq<FileMeta>)
    returns (largest: InternalKey, in0: seq<FileMeta>, in1: seq<FileMeta>, grandparents: seq<FileMeta>)
    requires SortedLevels(levels) && level + 1 < NUM_LEVELS && Seed(levels[level], level, seed)
    ensures CompactionInputs(levels, level, in0, in1)
    ensures level > 0 ==> IsSlice(levels[level], in0)
    ensures forall f | f in seed :: f in in0
    ensures Chosen(levels, maxFileSize, level, seed, in0, in1) && IsLargestKey(in0, largest)
    ensures level + 2 < NUM_LEVELS ==> NextLevelInputs(levels[level + 2], in0 + in1, grandparents)
  {
    hide GoodFile, SortedDisjoint, LeftOutPrecedes, NoDuplicates, AllIn, Select, IsSmallestKey, IsLargestKey, IsSlice;
    hide WithBoundary, Wider, Grows;
    in0 := CompleteLevel(levels, level, seed);
    var smallest;
    smallest, largest := GetRange(in0);
    in1 := GetOverlappingInputs(levels[level + 1], level + 1, Some(smallest.user), Some(largest.user));
    var allStart, allLimit := GetRange(in0 + in1);
    ghost var first0, first1 := in0, in1;
    if in1 != [] {
      in0, in1 := ExpandInputs(levels, maxFileSize, level, in0, in1, allStart, allLimit);
      smallest, largest := GetRange(in0);
      allStart, allLimit := GetRange(in0 + in1);
    }
    assert GrownFrom(levels, maxFileSize, level, first0, first1, in0, in1);
    grandparents := [];
    if level + 2 < NUM_LEVELS {
      grandparents := GetOverlappingInputs(levels[level + 2], level + 2, Some(allStart.user), Some(allLimit.user));
    }
  }

  // ---------------------------------------------------------------------------
  // There is one choice
  // ---------------------------------------------------------------------------

  lemma AcrossIsUnique(levelFiles: seq<FileMeta>, level: nat, begin: Option<UserKey>, end: Option<UserKey>,
                       r: seq<FileMeta>, r': seq<FileMeta>)
    requires Across(levelFiles, level, begin, end, r) && Across(levelFiles, level, begin, end, r')
    ensures r == r'
  {
    hide Select;
    if level == 0 {
      var b, e :| LeastClosed(levelFiles, begin, end, b, e) && r == Select(levelFiles, b, e);
      var b', e' :| LeastClosed(levelFiles, begin, end, b', e') && r' == Select(levelFiles, b', e');
      assert Widens(b, e, b', e') && Widens(b', e', b, e);
    }
  }

  // Two ways of adding boundary files to a seed agree.
  lemma {:induction false} BoundaryIsUnique(levels: Levels, level: nat, seed: seq<FileMeta>, r: seq<FileMeta>,
                                            r': seq<FileMeta>, n: nat)
    requires SortedLevels(levels) && level < NUM_LEVELS && Seed(levels[level], level, seed)
    requires WithBoundary(levels[level], seed, r) && WithBoundary(levels[level], seed, r')
    requires |seed| <= n <= |r| && n <= |r'| && r[..n] == r'[..n]
    ensures r == r'
    decreases |r| - n
  {
    hide GoodFile, Seed, BoundaryClosed, Continues, SortedDisjoint, NoDuplicates;
    if level == 0 {
      NoBoundaryAtZero(levels, seed, r);
      NoBoundaryAtZero(levels, seed, r');
    } else if n == |r| || n == |r'| {
      assert r[..|r|] == r && r'[..|r'|] == r';
      if n < |r| {
        NothingContinues(levels[level], r[..n], r[n]);
      } else if n < |r'| {
        NothingContinues(levels[level], r'[..n], r'[n]);
      }
    } else {
      SameContinues(levels[level], r[..n], r[n], r'[n]);
      assert r[..n + 1] == r[..n] + [r[n]] && r'[..n + 1] == r'[..n] + [r'[n]];
      BoundaryIsUnique(levels, level, seed, r, r', n + 1);
    }
  }

  lemma NoBoundaryAtZero(levels: Levels, seed: seq<FileMeta>, r: seq<FileMeta>)
    requires SortedLevels(levels) && Seed(levels[0], 0, seed) && WithBoundary(levels[0], seed, r)
    ensures r == seed
  {
    hide GoodFile, BoundaryClosed, Continues;
    UserClosedNoBoundary(levels[0], seed, r);
  }

  lemma NothingContinues(levelFiles: seq<FileMeta>, files: seq<FileMeta>, f: FileMeta)
    requires Continues(levelFiles, files, f)
    ensures !BoundaryClosed(levelFiles, files)
  {
  }

  lemma SameContinues(levelFiles: seq<FileMeta>, files: seq<FileMeta>, f: FileMeta, g: FileMeta)
    requires GoodFiles(levelFiles) && SortedDisjoint(levelFiles)
    requires Continues(levelFiles, files, f) && Continues(levelFiles, files, g)
    ensures f == g
  {
    hide GoodFile, IsLargestKey, SortedDisjoint;
    var key :| && IsLargestKey(files, key) && IsBoundary(f, key)
               && forall x | x in levelFiles && IsBoundary(x, key) :: !Less(x.smallest, f.smallest);
    var key' :| && IsLargestKey(files, key') && IsBoundary(g, key')
                && forall x | x in levelFiles && IsBoundary(x, key') :: !Less(x.smallest, g.smallest);
    LargestKeyUnique(files, key, key');
    SortedTwo(levelFiles, f, g);
  }

  lemma AcrossIsSeed(levels: Levels, level: nat, in0: seq<FileMeta>, in1: seq<FileMeta>, lo: InternalKey,
                     hi: InternalKey, across: seq<FileMeta>)
    requires SortedLevels(levels) && level < NUM_LEVELS && AllIn(in0, levels[level]) && in0 != []
    requires IsSmallestKey(in0 + in1, lo) && IsLargestKey(in0 + in1, hi)
    requires Across(levels[level], level, Some(lo.user), Some(hi.user), across)
    ensures Seed(levels[level], level, across)
  {
    hide GoodFile;
    InputsOverlapTheirRange(levels, level, in0, in1, lo, hi, across);
    OverlappingIsSeed(levels, level, Some(lo.user), Some(hi.user), across);
  }

  lemma WiderIsUnique(levels: Levels, level: nat, in0: seq<FileMeta>, in1: seq<FileMeta>, wide: seq<FileMeta>,
                      wide': seq<FileMeta>)
    requires SortedLevels(levels) && level + 1 < NUM_LEVELS && AllIn(in0, levels[level]) && in0 != []
    requires Wider(levels, level, in0, in1, wide) && Wider(levels, level, in0, in1, wide')
    ensures wide == wide'
  {
    hide GoodFiles, SortedDisjoint, NoDuplicates, Across, WithBoundary, IsSmallestKey, IsLargestKey, Seed, AllIn;
    var lo, hi, across :| && IsSmallestKey(in0 + in1, lo) && IsLargestKey(in0 + in1, hi)
                          && Across(levels[level], level, Some(lo.user), Some(hi.user), across)
                          && WithBoundary(levels[level], across, wide);
    var lo', hi', across' :| && IsSmallestKey(in0 + in1, lo') && IsLargestKey(in0 + in1, hi')
                             && Across(levels[level], level, Some(lo'.user), Some(hi'.user), across')
                             && WithBoundary(levels[level], across', wide');
    SmallestKeyUnique(in0 + in1, lo, lo');
    LargestKeyUnique(in0 + in1, hi, hi');
    AcrossIsUnique(levels[level], level, Some(lo.user), Some(hi.user), across, across');
    AcrossIsSeed(levels, level, in0, in1, lo, hi, across);
    BoundaryStarts(levels[level], across, wide, wide');
    BoundaryIsUnique(levels, level, across, wide, wide', |across|);
  }

  lemma BoundaryStarts(levelFiles: seq<FileMeta>, seed: seq<FileMeta>, r: seq<FileMeta>, r': seq<FileMeta>)
    requires WithBoundary(levelFiles, seed, r) && WithBoundary(levelFiles, seed, r')
    ensures |seed| <= |r| && |seed| <= |r'| && r[..|seed|] == r'[..|seed|]
  {
    hide BoundaryClosed, Continues;
  }

  // SetupOtherInputs has one result for each seed.
  lemma ChosenIsUnique(levels: Levels, maxFileSize: nat, level: nat, seed: seq<FileMeta>, in0: seq<FileMeta>,
                       in1: seq<FileMeta>, out0: seq<FileMeta>, out1: seq<FileMeta>)
    requires SortedLevels(levels) && level + 1 < NUM_LEVELS && Seed(levels[level], level, seed)
    requires Chosen(levels, maxFileSize, level, seed, in0, in1) && Chosen(levels, maxFileSize, level, seed, out0, out1)
    ensures in0 == out0 && in1 == out1
  {
    hide GoodFiles, SortedDisjoint, NoDuplicates, WithBoundary, Seed, GrownFrom, NextLevelInputs;
    var next := levels[level + 1];
    var a0, a1 :| WithBoundary(levels[level], seed, a0) && NextLevelInputs(next, a0, a1)
                  && GrownFrom(levels, maxFileSize, level, a0, a1, in0, in1);
    var b0, b1 :| WithBoundary(levels[level], seed, b0) && NextLevelInputs(next, b0, b1)
                  && GrownFrom(levels, maxFileSize, level, b0, b1, out0, out1);
    BoundaryStarts(levels[level], seed, a0, b0);
    BoundaryIsUnique(levels, level, seed, a0, b0, |seed|);
    BelowIsUnique(next, a0, a1);
    FirstChoiceIn(levels, level, seed, a0);
    GrownIsUnique(levels, maxFileSize, level, a0, a1, in0, in1, out0, out1);
  }

  lemma FirstChoiceIn(levels: Levels, level: nat, seed: seq<FileMeta>, r: seq<FileMeta>)
    requires SortedLevels(levels) && level < NUM_LEVELS && Seed(levels[level], level, seed)
    requires WithBoundary(levels[level], seed, r)
    ensures AllIn(r, levels[level]) && r != []
  {
    hide GoodFile, SortedDisjoint, NoDuplicates, LeftOutPrecedes, BoundaryClosed, Continues;
    SeedWithBoundary(levels, level, seed, r);
  }

  lemma GrownIsUnique(levels: Levels, maxFileSize: nat, level: nat, first0: seq<FileMeta>, first1: seq<FileMeta>,
                      in0: seq<FileMeta>, in1: seq<FileMeta>, out0: seq<FileMeta>, out1: seq<FileMeta>)
    requires SortedLevels(levels) && level + 1 < NUM_LEVELS && AllIn(first0, levels[level]) && first0 != []
    requires GrownFrom(levels, maxFileSize, level, first0, first1, in0, in1)
    requires GrownFrom(levels, maxFileSize, level, first0, first1, out0, out1)
    ensures in0 == out0 && in1 == out1
  {
    hide GoodFiles, SortedDisjoint, NoDuplicates, Wider, Grows, NextLevelInputs, AllIn;
    if first1 != [] {
      var next := levels[level + 1];
      var wide :| && Wider(levels, level, first0, first1, wide)
                  && if Grows(next, maxFileSize, first0, first1, wide)
                     then in0 == wide && NextLevelInputs(next, wide, in1) else in0 == first0 && in1 == first1;
      var wide' :| && Wider(levels, level, first0, first1, wide')
                   && if Grows(next, maxFileSize, first0, first1, wide')
                      then out0 == wide' && NextLevelInputs(next, wide', out1) else out0 == first0 && out1 == first1;
      WiderIsUnique(levels, level, first0, first1, wide, wide');
      if Grows(next, maxFileSize, first0, first1, wide) {
        BelowIsUnique(next, wide, in1);
      }
    }
  }

  class Compaction {
    const level: nat
    var inputs0: seq<FileMeta>
    var inputs1: seq<FileMeta>
    var grandparents: seq<FileMeta>

    constructor (level: nat, inputs0: seq<FileMeta>)
      ensures this.level == level && this.inputs0 == inputs0
      ensures this.inputs1 == [] && this.grandparents == []
    {
      this.level := level;
      this.inputs0, this.inputs1, this.grandparents := inputs0, [], [];
    }

    predicate IsTrivialMove(maxFileSize: nat)
      reads this
    {
      |inputs0| == 1 && |inputs1| == 0 && TotalFileSize(grandparents) <= MaxGrandParentOverlapBytes(maxFileSize)
    }
  }

  // Cuts a long list off after the file that brings it to the byte limit.
  method LimitBytes(files: seq<FileMeta>, limit: nat) returns (r: seq<FileMeta>)
    requires files != []
    ensures BytesReach(files, limit, |r|) && r == files[..|r|]
  {
    var total, i := 0, 0;
    while i < |files|
      invariant 0 <= i <= |files|
      invariant total == TotalFileSize(files[..i])
      invariant forall k | 0 < k <= i :: TotalFileSize(files[..k]) < limit
    {
      assert files[..i + 1][..i] == files[..i];
      total := total + files[i].fileSize;
      if total >= limit {
        return files[..i + 1];
      }
      i := i + 1;
    }
    r := files;
  }

  // Level 0 takes every overlapping file; deeper levels stop once limit bytes are collected.
  ghost predicate IsRangeSeed(levelFiles: seq<FileMeta>, limit: nat, level: nat,
                              begin: Option<UserKey>, end: Option<UserKey>, seed: seq<FileMeta>)
  {
    if level == 0 then Across(levelFiles, 0, begin, end, seed)
    else
      BytesReach(Select(levelFiles, begin, end), limit, |seed|)
      && seed == Select(levelFiles, begin, end)[..|seed|]
  }

  // The files a manual compaction of [begin, end] starts from.
  method RangeSeed(levels: Levels, maxFileSize: nat, level: nat, begin: Option<UserKey>, end: Option<UserKey>)
    returns (inputs: seq<FileMeta>)
    requires SortedLevels(levels) && level < NUM_LEVELS
    ensures inputs == [] <==> forall f | f in levels[level] :: !Overlaps(f, begin, end)
    ensures inputs != [] ==> Seed(levels[level], level, inputs)
    ensures inputs != [] ==> IsRangeSeed(levels[level], maxFileSize, level, begin, end, inputs)
  {
    hide GoodFile;
    inputs := GetOverlappingInputs(levels[level], level, begin, end);
    NothingOverlaps(levels, level, begin, end, inputs);
    if inputs == [] {
      return;
    }
    OverlappingIsSeed(levels, level, begin, end, inputs);
    if level > 0 {
      var all := inputs;
      inputs := LimitBytes(all, maxFileSize);
      PrefixIsSlice(levels[level], all, |inputs|);
    }
  }

  // The pointer of the level goes to the largest key of the inputs, the others stay.
  ghost predicate PointerMoves(before: seq<Option<InternalKey>>, after: seq<Option<InternalKey>>, level: nat,
                               in0: seq<FileMeta>)
  {
    && level < |before|
    && exists key :: IsLargestKey(in0, key) && after == before[level := Some(key)]
  }

  // The files two levels down across the range of all inputs.
  ghost predicate GrandparentsOf(levels: Levels, level: nat, in0: seq<FileMeta>, in1: seq<FileMeta>,
                                 grandparents: seq<FileMeta>)
    requires |levels| == NUM_LEVELS
  {
    if level + 2 < NUM_LEVELS then NextLevelInputs(levels[level + 2], in0 + in1, grandparents)
    else grandparents == []
  }

  // What a compaction that starts from one file starts from.
  ghost predicate StartsFrom(levelFiles: seq<FileMeta>, level: nat, first: FileMeta, seed: seq<FileMeta>) {
    if level > 0 then seed == [first]
    else Across(levelFiles, 0, Some(first.smallest.user), Some(first.largest.user), seed)
  }

  // The first file of a compaction: past the compaction pointer, wrapping around, or the one that too many seeks
  // missed.
  ghost predicate IsFirst(levels: Levels, pointers: seq<Option<InternalKey>>, trigger: Trigger, first: FileMeta) {
    match trigger
    case Nothing => false
    case BySeek(level, file) => first == file
    case BySize(level) =>
      && level < |levels| && level < |pointers|
      && exists i: nat :: FirstAfterPointer(levels[level], pointers[level], i) && first == levels[level][i]
  }

  // The inputs PickCompaction makes of a trigger.
  ghost predicate Picked(levels: Levels, maxFileSize: nat, pointers: seq<Option<InternalKey>>, trigger: Trigger,
                         in0: seq<FileMeta>, in1: seq<FileMeta>)
    requires |levels| == NUM_LEVELS && !trigger.Nothing? && trigger.level + 1 < NUM_LEVELS
  {
    exists first, seed ::
      && IsFirst(levels, pointers, trigger, first) && StartsFrom(levels[trigger.level], trigger.level, first, seed)
      && Chosen(levels, maxFileSize, trigger.level, seed, in0, in1)
  }

  // The inputs CompactRange makes of a range.
  ghost predicate FromRange(levels: Levels, maxFileSize: nat, level: nat, begin: Option<UserKey>, end: Option<UserKey>,
                            in0: seq<FileMeta>, in1: seq<FileMeta>)
    requires |levels| == NUM_LEVELS && level + 1 < NUM_LEVELS
  {
    exists seed ::
      && IsRangeSeed(levels[level], maxFileSize, level, begin, end, seed)
      && Chosen(levels, maxFileSize, level, seed, in0, in1)
  }

  datatype Trigger = BySize(level: nat) | BySeek(level: nat, file: FileMeta) | Nothing

  class VersionSet {
    const maxFileSize: nat
    var files: Levels
    var compactPointer: seq<Option<InternalKey>>

    ghost predicate Valid()
      reads this
    {
      SortedLevels(files) && |compactPointer| == NUM_LEVELS
    }

    constructor (maxFileSize: nat)
      ensures Valid() && this.maxFileSize == maxFileSize
      ensures files == seq(NUM_LEVELS, _ => []) && compactPointer == seq(NUM_LEVELS, _ => None)
    {
      this.maxFileSize := maxFileSize;
      this.files := seq(NUM_LEVELS, _ => []);
      this.compactPointer := seq(NUM_LEVELS, _ => None);
    }

    // Completes the inputs of c.
    method SetupOtherInputs(c: Compaction)
      requires Valid() && c.level + 1 < NUM_LEVELS
      requires Seed(files[c.level], c.level, c.inputs0)
      modifies this`compactPointer, c
      ensures Valid()
      ensures CompactionInputs(files, c.level, c.inputs0, c.inputs1)
      ensures c.level > 0 ==> IsSlice(files[c.level], c.inputs0)
      ensures forall f | f in old(c.inputs0) :: f in c.inputs0
      ensures Chosen(files, maxFileSize, c.level, old(c.inputs0), c.inputs0, c.inputs1)
      ensures PointerMoves(old(compactPointer), compactPointer, c.level, c.inputs0)
      ensures c.level + 2 < NUM_LEVELS ==> NextLevelInputs(files[c.level + 2], c.inputs0 + c.inputs1, c.grandparents)
      ensures c.level + 2 >= NUM_LEVELS ==> c.grandparents == old(c.grandparents)
    {
      hide GoodFile, Chosen;
      var largest, in0, in1, grandparents := ChooseInputs(files, maxFileSize, c.level, c.inputs0);
      c.inputs0, c.inputs1 := in0, in1;
      if c.level + 2 < NUM_LEVELS {
        c.grandparents := grandparents;
      }
      compactPointer := compactPointer[c.level := Some(largest)];
    }

    // The level and file are chosen by statistics that are not modelled; they arrive as the trigger.
    method PickCompaction(trigger: Trigger) returns (c: Compaction?)
      requires Valid()
      requires trigger.BySize? ==> trigger.level + 1 < NUM_LEVELS && files[trigger.level] != []
      requires trigger.BySeek? ==> trigger.level + 1 < NUM_LEVELS && trigger.file in files[trigger.level]
      modifies this`compactPointer
      ensures Valid()
      ensures c == null <==> trigger.Nothing?
      ensures c != null ==> fresh(c) && c.level == trigger.level
      ensures c != null ==>
                && CompactionInputs(files, c.level, c.inputs0, c.inputs1)
                && Picked(files, maxFileSize, old(compactPointer), trigger, c.inputs0, c.inputs1)
                && PointerMoves(old(compactPointer), compactPointer, c.level, c.inputs0)
                && GrandparentsOf(files, c.level, c.inputs0, c.inputs1, c.grandparents)
      ensures c == null ==> compactPointer == old(compactPointer)
    {
      hide GoodFile, GoodFiles, Chosen, IsSlice, StartsFrom, CompactionInputs, SortedDisjoint, PointerMoves, Seed;
      hide NextLevelInputs, FirstAfterPointer, AllIn, NoDuplicates;
      var first;
      match trigger {
        case Nothing =>
          return null;
        case BySeek(level, file) =>
          first := file;
        case BySize(level) =>
          var pointer := compactPointer[level];
          var i := 0;
          while i < |files[level]| && !PastPointer(pointer, files[level][i])
            invariant 0 <= i <= |files[level]|
            invariant forall k | 0 <= k < i :: !PastPointer(pointer, files[level][k])
          {
            i := i + 1;
          }
          if i == |files[level]| {
            i := 0;
          }
          FirstIs(files, compactPointer, level, i);
          first := files[level][i];
      }
      var seed := SeedFrom(files, trigger.level, first);
      c := new Compaction(trigger.level, seed);
      SetupOtherInputs(c);
    }

    method CompactRange(level: nat, begin: Option<InternalKey>, end: Option<InternalKey>) returns (c: Compaction?)
      requires Valid() && level + 1 < NUM_LEVELS
      modifies this`compactPointer
      ensures Valid()
      ensures c != null ==> fresh(c) && c.level == level
      ensures c != null ==> CompactionInputs(files, c.level, c.inputs0, c.inputs1)
      ensures c == null <==> forall f | f in files[level] :: !Overlaps(f, UserOf(begin), UserOf(end))
      ensures c != null ==>
                && FromRange(files, maxFileSize, level, UserOf(begin), UserOf(end), c.inputs0, c.inputs1)
                && PointerMoves(old(compactPointer), compactPointer, level, c.inputs0)
                && GrandparentsOf(files, level, c.inputs0, c.inputs1, c.grandparents)
      ensures c == null ==> compactPointer == old(compactPointer)
      ensures c != null ==> c.inputs0 != [] && LeftBeyond(files[level], c.inputs0, UserOf(begin), UserOf(end))
    {
      hide GoodFile, IsSlice, LeftBeyond, Chosen, IsRangeSeed;
      var inputs := RangeSeed(files, maxFileSize, level, UserOf(begin), UserOf(end));
      if inputs == [] {
        return null;
      }
      c := new Compaction(level, inputs);
      SetupOtherInputs(c);
      assert AllIn(inputs, c.inputs0);
      RestIsBeyond(files, level, maxFileSize, UserOf(begin), UserOf(end), inputs, c.inputs0);
    }
  }

  lemma FirstIs(levels: Levels, pointers: seq<Option<InternalKey>>, level: nat, i: nat)
    requires level < |levels| && level < |pointers| && i < |levels[level]|
    requires if PastPointer(pointers[level], levels[level][i])
             then forall k | 0 <= k < i :: !PastPointer(pointers[level], levels[level][k])
             else i == 0 && forall k | 0 <= k < |levels[level]| :: !PastPointer(pointers[level], levels[level][k])
    ensures IsFirst(levels, pointers, BySize(level), levels[level][i])
  {
    assert FirstAfterPointer(levels[level], pointers[level], i);
  }

  // A file of the range that is left out starts where the inputs end, or after.
  ghost predicate LeftBeyond(levelFiles: seq<FileMeta>, in0: seq<FileMeta>, begin: Option<UserKey>, end: Option<UserKey>) {
    in0 != [] ==>
      forall f | f in levelFiles && f !in in0 && Overlaps(f, begin, end) ::
        in0[|in0| - 1].largest.user <= f.smallest.user
  }

  lemma RestIsBeyond(levels: Levels, level: nat, limit: nat, begin: Option<UserKey>, end: Option<UserKey>,
                     seed: seq<FileMeta>, in0: seq<FileMeta>)
    requires SortedLevels(levels) && level < NUM_LEVELS && seed != [] && AllIn(seed, in0)
    requires IsRangeSeed(levels[level], limit, level, begin, end, seed)
    requires level > 0 ==> IsSlice(levels[level], in0)
    ensures in0 != [] && LeftBeyond(levels[level], in0, begin, end)
  {
    hide GoodFile, SortedDisjoint, Select, Overlaps, IsRangeSeed;
    assert seed[0] in seed;
    SeedOfRange(levels[level], limit, level, begin, end, seed);
    if level > 0 {
      var files := levels[level];
      var i: nat, j: nat :| Slice(files, in0, i, j);
      forall f | f in files && f !in in0 && Overlaps(f, begin, end)
        ensures in0[|in0| - 1].largest.user <= f.smallest.user
      {
        BeyondSlice(files, begin, end, seed, i, j, f);
      }
    }
  }

  lemma SeedOfRange(levelFiles: seq<FileMeta>, limit: nat, level: nat, begin: Option<UserKey>, end: Option<UserKey>,
                    seed: seq<FileMeta>)
    requires IsRangeSeed(levelFiles, limit, level, begin, end, seed)
    ensures level > 0 ==> seed <= Select(levelFiles, begin, end)
    ensures level == 0 ==> forall f | f in levelFiles && Overlaps(f, begin, end) :: f in seed
  {
    hide Select, Overlaps, TotalFileSize;
    if level == 0 {
      AcrossHolds(levelFiles, begin, end, seed);
    }
  }

  lemma AcrossHolds(levelFiles: seq<FileMeta>, begin: Option<UserKey>, end: Option<UserKey>, r: seq<FileMeta>)
    requires Across(levelFiles, 0, begin, end, r)
    ensures forall f | f in levelFiles && Overlaps(f, begin, end) :: f in r
  {
    var b, e :| LeastClosed(levelFiles, begin, end, b, e) && r == Select(levelFiles, b, e);
    SelectContains(levelFiles, b, e);
  }

  lemma BeyondSlice(files: seq<FileMeta>, begin: Option<UserKey>, end: Option<UserKey>, seed: seq<FileMeta>,
                    i: nat, j: nat, f: FileMeta)
    requires GoodFiles(files) && SortedDisjoint(files) && i < j <= |files|
    requires seed != [] && seed <= Select(files, begin, end) && AllIn(seed, files[i..j])
    requires f in files && f !in files[i..j] && Overlaps(f, begin, end)
    ensures files[j - 1].largest.user <= f.smallest.user
  {
    hide GoodFile, Select, Overlaps;
    SelectContains(files, begin, end);
    var a, b := SelectIsSlice(files, begin, end);
    var k :| 0 <= k < |files| && files[k] == f;
    assert seed[0] == files[a] && seed[0] in files[i..j];
    var m :| 0 <= m < j - i && files[i..j][m] == files[a];
    SortedNoDuplicates(files);
    assert i + m == a;
    InSelected(files, begin, end, a, b, k);
    forall x | i <= x < j
      ensures files[x] in files[i..j]
    {
      assert files[i..j][x - i] == files[x];
    }
    UserAscending(files, j - 1, k);
  }

  lemma InSelected(files: seq<FileMeta>, begin: Option<UserKey>, end: Option<UserKey>, a: nat, b: nat, k: nat)
    requires GoodFiles(files) && SortedDisjoint(files) && Slice(files, Select(files, begin, end), a, b)
    requires k < |files| && Overlaps(files[k], begin, end)
    ensures a <= k
  {
    hide GoodFile;
    SelectContains(files, begin, end);
    SortedNoDuplicates(files);
    var m :| 0 <= m < b - a && files[a..b][m] == files[k];
  }

  predicate PastPointer(pointer: Option<InternalKey>, f: FileMeta) {
    pointer.None? || Less(pointer.value, f.largest)
  }

  // n is the least positive count of leading files that reaches limit bytes, or all of them.
  ghost predicate BytesReach(files: seq<FileMeta>, limit: nat, n: nat) {
    && 0 < n <= |files|
    && (n == |files| || TotalFileSize(files[..n]) >= limit)
    && forall k | 0 < k < n :: TotalFileSize(files[..k]) < limit
  }

  // i is the first file past the pointer, or the first file of all when none is.
  predicate FirstAfterPointer(files: seq<FileMeta>, pointer: Option<InternalKey>, i: nat) {
    && i < |files|
    && (if PastPointer(pointer, files[i])
        then forall k | 0 <= k < i :: !PastPointer(pointer, files[k])
        else i == 0 && forall k | 0 <= k < |files| :: !PastPointer(pointer, files[k]))
  }

  function UserOf(key: Option<InternalKey>): Option<UserKey> {
    if key.Some? then Some(key.value.user) else None
  }

  lemma PrefixIsSlice(levelFiles: seq<FileMeta>, files: seq<FileMeta>, n: nat)
    requires exists i: nat, j: nat :: Slice(levelFiles, files, i, j)
    requires 0 < n <= |files|
    ensures exists i: nat, j: nat :: Slice(levelFiles, files[..n], i, j)
  {
    var i: nat, j: nat :| Slice(levelFiles, files, i, j);
    assert levelFiles[i..j][..n] == levelFiles[i..i + n];
    assert Slice(levelFiles, files[..n], i, i + n);
  }

  // GetOverlappingInputs comes back empty exactly when no file overlaps the range asked for.
  lemma NothingOverlaps(levels: Levels, level: nat, begin: Option<UserKey>, end: Option<UserKey>, inputs: seq<FileMeta>)
    requires SortedLevels(levels) && level < NUM_LEVELS
    requires Across(levels[level], level, begin, end, inputs)
    ensures inputs == [] <==> forall f | f in levels[level] :: !Overlaps(f, begin, end)
  {
    hide GoodFile;
    var b, e := begin, end;
    if level == 0 {
      b, e :| LeastClosed(levels[0], begin, end, b, e) && inputs == Select(levels[0], b, e);
    }
    SelectContains(levels[level], b, e);
    if inputs != [] {
      assert inputs[0] in inputs;
      if level == 0 {
        assert Widens(begin, end, begin, end);
        assert (forall f | f in levels[level] :: !Overlaps(f, begin, end)) ==> Closed(levels[0], begin, end);
      }
    } else {
      forall f | f in levels[level]
        ensures !Overlaps(f, begin, end)
      {
        assert !Overlaps(f, b, e);
      }
    }
  }

  // The files a compaction of one picked file starts from.
  method SeedFrom(levels: Levels, level: nat, first: FileMeta) returns (seed: seq<FileMeta>)
    requires SortedLevels(levels) && level < NUM_LEVELS && first in levels[level]
    ensures Seed(levels[level], level, seed) && first in seed && StartsFrom(levels[level], level, first, seed)
  {
    hide GoodFile;
    seed := [first];
    if level == 0 {
      var smallest, largest := GetRange(seed);
      seed := GetOverlappingInputs(levels[0], 0, Some(smallest.user), Some(largest.user));
      InputsOverlapTheirRange(levels, 0, [first], [], smallest, largest, seed);
      OverlappingIsSeed(levels, 0, Some(smallest.user), Some(largest.user), seed);
      assert first in [first];
    } else {
      var i :| 0 <= i < |levels[level]| && levels[level][i] == first;
      assert Slice(levels[level], seed, i, i + 1);
    }
  }

  // ---------------------------------------------------------------------------
  // Where a flushed memtable goes
  // ---------------------------------------------------------------------------

  ghost predicate Touches(files: seq<FileMeta>, lo: UserKey, hi: UserKey) {
    exists f :: f in files && Overlaps(f, Some(lo), Some(hi))
  }

  // The table may be pushed from l to l + 1.
  ghost predicate CanPush(levels: Levels, maxFileSize: nat, l: nat, lo: UserKey, hi: UserKey)
    requires |levels| == NUM_LEVELS && l < MAX_MEM_COMPACT_LEVEL
  {
    && !Touches(levels[l + 1], lo, hi)
    && TotalFileSize(Select(levels[l + 2], Some(lo), Some(hi))) <= MaxGrandParentOverlapBytes(maxFileSize)
  }

  // The deepest level a table can be pushed to, one push after the other, if it touches nothing in level 0.
  ghost predicate DeepestPush(levels: Levels, maxFileSize: nat, lo: UserKey, hi: UserKey, level: nat)
    requires |levels| == NUM_LEVELS
  {
    && level <= MAX_MEM_COMPACT_LEVEL
    && (level > 0 ==> forall l | 0 <= l <= level :: !Touches(levels[l], lo, hi))
    && (forall l | 0 <= l < level :: CanPush(levels, maxFileSize, l, lo, hi))
    && (level < MAX_MEM_COMPACT_LEVEL ==>
          (level == 0 && Touches(levels[0], lo, hi)) || !CanPush(levels, maxFileSize, level, lo, hi))
  }

  method PickLevelForMemTableOutput(levels: Levels, maxFileSize: nat, lo: UserKey, hi: UserKey) returns (level: nat)
    requires SortedLevels(levels)
    ensures DeepestPush(levels, maxFileSize, lo, hi, level)
  {
    hide GoodFile;
    level := 0;
    var overlap := SomeFileOverlapsRange(false, levels[0], Some(lo), Some(hi));
    if !overlap {
      while level < MAX_MEM_COMPACT_LEVEL
        invariant level <= MAX_MEM_COMPACT_LEVEL
        invariant forall l | 0 <= l <= level :: !Touches(levels[l], lo, hi)
        invariant forall l | 0 <= l < level :: CanPush(levels, maxFileSize, l, lo, hi)
      {
        var next := SomeFileOverlapsRange(true, levels[level + 1], Some(lo), Some(hi));
        if next {
          break;
        }
        if level + 2 < NUM_LEVELS {
          var overlaps := GetOverlappingInputs(levels[level + 2], level + 2, Some(lo), Some(hi));
          if TotalFileSize(overlaps) > MaxGrandParentOverlapBytes(maxFileSize) {
            break;
          }
        }
        level := level + 1;
      }
    }
  }
}
