/**
 Table files of one level and the searches of db/version_set.cc over them.
 */
module Files {
  import opened Keys

  const NUM_LEVELS: nat := 7
  const MAX_MEM_COMPACT_LEVEL: nat := 2

  // FileMetaData together with the contents of the table it names.
  datatype FileMeta = FileMeta(number: nat, fileSize: nat, smallest: InternalKey, largest: InternalKey,
                               entries: seq<Entry>)

  ghost predicate GoodFile(f: FileMeta) {
    && |f.entries| > 0
    && Sorted(f.entries)
    && Legal(f.entries)
    && f.smallest == f.entries[0].key
    && f.largest == f.entries[|f.entries| - 1].key
  }

  ghost predicate GoodFiles(files: seq<FileMeta>) {
    forall f | f in files :: GoodFile(f)
  }

  // Levels above 0: files in key order, no two with a common internal key range.
  ghost predicate SortedDisjoint(files: seq<FileMeta>) {
    forall i, j | 0 <= i < j < |files| :: Less(files[i].largest, files[j].smallest)
  }

  lemma FileBounds(f: FileMeta, e: Entry)
    requires GoodFile(f) && e in f.entries
    ensures !Less(e.key, f.smallest) && !Less(f.largest, e.key)
    ensures f.smallest.user <= e.key.user <= f.largest.user
    ensures !Less(f.largest, f.smallest)
  {
    var i :| 0 <= i < |f.entries| && f.entries[i] == e;
    var last := |f.entries| - 1;
    assert i > 0 ==> Less(f.entries[0].key, f.entries[i].key);
    assert i < last ==> Less(f.entries[i].key, f.entries[last].key);
    assert last > 0 ==> Less(f.entries[0].key, f.entries[last].key);
  }

  lemma FileEnds(f: FileMeta)
    requires GoodFile(f)
    ensures !Less(f.largest, f.smallest) && f.smallest.user <= f.largest.user
    ensures f.smallest.sequence <= MAX_SEQUENCE && f.largest.sequence <= MAX_SEQUENCE
  {
    assert f.entries[0] in f.entries && f.entries[|f.entries| - 1] in f.entries;
    FileBounds(f, f.entries[0]);
  }

  // ---------------------------------------------------------------------------
  // FindFile
  // ---------------------------------------------------------------------------

  // The first file whose largest key is at or after key.
  method FindFile(files: seq<FileMeta>, key: InternalKey) returns (index: nat)
    requires GoodFiles(files) && SortedDisjoint(files)
    ensures index <= |files|
    ensures forall i | 0 <= i < index :: Less(files[i].largest, key)
    ensures forall i | index <= i < |files| :: !Less(files[i].largest, key)
  {
    hide GoodFile;
    var left, right := 0, |files|;
    while left < right
      invariant 0 <= left <= right <= |files|
      invariant forall i | 0 <= i < left :: Less(files[i].largest, key)
      invariant forall i | right <= i < |files| :: !Less(files[i].largest, key)
    {
      var mid := (left + right) / 2;
      LargestAscending(files, mid);
      if Less(files[mid].largest, key) {
        left := mid + 1;
      } else {
        right := mid;
      }
    }
    index := right;
  }

  lemma LargestAscending(files: seq<FileMeta>, mid: nat)
    requires GoodFiles(files) && SortedDisjoint(files) && mid < |files|
    ensures forall i | 0 <= i < mid :: Less(files[i].largest, files[mid].largest)
    ensures forall i | mid < i < |files| :: Less(files[mid].largest, files[i].largest)
  {
    hide GoodFile;
    forall i | 0 <= i < |files|
      ensures !Less(files[i].largest, files[i].smallest)
    {
      FileEnds(files[i]);
    }
  }

  // ---------------------------------------------------------------------------
  // User-key ranges; None is an unbounded side
  // ---------------------------------------------------------------------------

  predicate AfterFile(user: Option<UserKey>, f: FileMeta) {
    user.Some? && user.value > f.largest.user
  }

  predicate BeforeFile(user: Option<UserKey>, f: FileMeta) {
    user.Some? && user.value < f.smallest.user
  }

  predicate Overlaps(f: FileMeta, begin: Option<UserKey>, end: Option<UserKey>) {
    !AfterFile(begin, f) && !BeforeFile(end, f)
  }

  ghost predicate Inside(f: FileMeta, begin: Option<UserKey>, end: Option<UserKey>) {
    && (begin.Some? ==> begin.value <= f.smallest.user)
    && (end.Some? ==> f.largest.user <= end.value)
  }

  method SomeFileOverlapsRange(disjointSorted: bool, files: seq<FileMeta>,
                               begin: Option<UserKey>, end: Option<UserKey>)
    returns (overlap: bool)
    requires GoodFiles(files)
    requires disjointSorted ==> SortedDisjoint(files)
    ensures overlap <==> exists f :: f in files && Overlaps(f, begin, end)
  {
    hide GoodFile;
    if !disjointSorted {
      var i := 0;
      while i < |files|
        invariant 0 <= i <= |files|
        invariant forall j | 0 <= j < i :: !Overlaps(files[j], begin, end)
      {
        if AfterFile(begin, files[i]) || BeforeFile(end, files[i]) {
        } else {
          assert files[i] in files && Overlaps(files[i], begin, end);
          return true;
        }
        i := i + 1;
      }
      return false;
    }
    forall f | f in files
      ensures f.largest.sequence <= MAX_SEQUENCE && f.smallest.user <= f.largest.user
    {
      FileEnds(f);
    }
    var index := 0;
    if begin.Some? {
      index := FindFile(files, SeekKey(begin.value, MAX_SEQUENCE));
    }
    assert forall i | 0 <= i < index :: AfterFile(begin, files[i]);
    if index >= |files| {
      return false;
    }
    assert forall i | index <= i < |files| :: files[index].smallest.user <= files[i].smallest.user;
    overlap := !BeforeFile(end, files[index]);
    assert overlap ==> Overlaps(files[index], begin, end);
  }

  // ---------------------------------------------------------------------------
  // GetOverlappingInputs
  // ---------------------------------------------------------------------------

  function Select(files: seq<FileMeta>, begin: Option<UserKey>, end: Option<UserKey>): seq<FileMeta> {
    if files == [] then []
    else
      var last := files[|files| - 1];
      Select(files[..|files| - 1], begin, end) + if Overlaps(last, begin, end) then [last] else []
  }

  lemma {:induction false} SelectContains(files: seq<FileMeta>, begin: Option<UserKey>, end: Option<UserKey>)
    ensures forall f :: f in Select(files, begin, end) <==> f in files && Overlaps(f, begin, end)
  {
    if files != [] {
      SelectContains(files[..|files| - 1], begin, end);
      assert files == files[..|files| - 1] + [files[|files| - 1]];
    }
  }

  // [b, e] contains [begin, end] and is bounded on the same sides.
  ghost predicate Widens(b: Option<UserKey>, e: Option<UserKey>, begin: Option<UserKey>, end: Option<UserKey>) {
    && b.Some? == begin.Some?
    && e.Some? == end.Some?
    && (b.Some? ==> b.value <= begin.value)
    && (e.Some? ==> end.value <= e.value)
  }

  // No file sticks out of a range it overlaps.
  ghost predicate Closed(files: seq<FileMeta>, b: Option<UserKey>, e: Option<UserKey>) {
    forall f | f in files && Overlaps(f, b, e) :: Inside(f, b, e)
  }

  // The least closed range around [begin, end].
  ghost predicate LeastClosed(files: seq<FileMeta>, begin: Option<UserKey>, end: Option<UserKey>,
                              b: Option<UserKey>, e: Option<UserKey>)
  {
    && Widens(b, e, begin, end)
    && Closed(files, b, e)
    && forall b', e' | Widens(b', e', begin, end) && Closed(files, b', e') :: Widens(b', e', b, e)
  }

  // Files that begin before b, respectively end after e.
  function CountLeft(files: seq<FileMeta>, b: Option<UserKey>): nat {
    if files == [] then 0
    else CountLeft(files[1..], b) + if b.Some? && files[0].smallest.user < b.value then 1 else 0
  }

  function CountRight(files: seq<FileMeta>, e: Option<UserKey>): nat {
    if files == [] then 0
    else CountRight(files[1..], e) + if e.Some? && e.value < files[0].largest.user then 1 else 0
  }

  lemma {:induction false} CountLeftDrops(files: seq<FileMeta>, b: UserKey, b': UserKey)
    requires b' < b
    ensures CountLeft(files, Some(b')) <= CountLeft(files, Some(b))
    ensures (exists f :: f in files && b' <= f.smallest.user < b) ==>
              CountLeft(files, Some(b')) < CountLeft(files, Some(b))
  {
    if files != [] {
      CountLeftDrops(files[1..], b, b');
    }
  }

  lemma {:induction false} CountRightDrops(files: seq<FileMeta>, e: UserKey, e': UserKey)
    requires e < e'
    ensures CountRight(files, Some(e')) <= CountRight(files, Some(e))
    ensures (exists f :: f in files && e < f.largest.user <= e') ==>
              CountRight(files, Some(e')) < CountRight(files, Some(e))
  {
    if files != [] {
      CountRightDrops(files[1..], e, e');
    }
  }

  lemma SelectNothing(b: Option<UserKey>, e: Option<UserKey>)
    ensures Select([], b, e) == []
  {
  }

  lemma SelectStep(files: seq<FileMeta>, i: nat, b: Option<UserKey>, e: Option<UserKey>)
    requires i < |files|
    ensures Select(files[..i + 1], b, e) ==
              Select(files[..i], b, e) + if Overlaps(files[i], b, e) then [files[i]] else []
    ensures Closed(files[..i], b, e) && (Overlaps(files[i], b, e) ==> Inside(files[i], b, e)) ==>
              Closed(files[..i + 1], b, e)
  {
    assert files[..i + 1][..i] == files[..i];
    assert files[..i + 1] == files[..i] + [files[i]];
  }

  // A file that overlaps the range so far lies inside every closed range around the original one.
  lemma WideningIsForced(files: seq<FileMeta>, begin: Option<UserKey>, end: Option<UserKey>,
                         userBegin: Option<UserKey>, userEnd: Option<UserKey>, f: FileMeta)
    requires f in files && Overlaps(f, userBegin, userEnd)
    requires forall b, e | Widens(b, e, begin, end) && Closed(files, b, e) :: Widens(b, e, userBegin, userEnd)
    ensures forall b, e | Widens(b, e, begin, end) && Closed(files, b, e) :: Inside(f, b, e)
  {
    forall b, e | Widens(b, e, begin, end) && Closed(files, b, e)
      ensures Inside(f, b, e)
    {
      assert Widens(b, e, userBegin, userEnd);
      assert Overlaps(f, b, e);
    }
  }

  // What GetOverlappingInputs finds: the files across a range, at level 0 across the least closed range around it.
  ghost predicate Across(levelFiles: seq<FileMeta>, level: nat, begin: Option<UserKey>, end: Option<UserKey>,
                         r: seq<FileMeta>)
  {
    if level > 0 then r == Select(levelFiles, begin, end)
    else exists b, e :: LeastClosed(levelFiles, begin, end, b, e) && r == Select(levelFiles, b, e)
  }

  // Which files of a level lie across the range. At level 0 one that sticks out of the
  // range widens it and restarts the search.
  method GetOverlappingInputs(files: seq<FileMeta>, level: nat, begin: Option<UserKey>, end: Option<UserKey>)
    returns (inputs: seq<FileMeta>)
    requires GoodFiles(files)
    ensures Across(files, level, begin, end, inputs)
  {
    hide GoodFile, Select;
    var userBegin, userEnd := begin, end;
    inputs := [];
    SelectNothing(userBegin, userEnd);
    var i := 0;
    while i < |files|
      invariant 0 <= i <= |files|
      invariant inputs == Select(files[..i], userBegin, userEnd)
      invariant level > 0 ==> userBegin == begin && userEnd == end
      invariant Widens(userBegin, userEnd, begin, end)
      invariant level == 0 ==> Closed(files[..i], userBegin, userEnd)
      invariant forall b, e | Widens(b, e, begin, end) && Closed(files, b, e) :: Widens(b, e, userBegin, userEnd)
      decreases CountLeft(files, userBegin) + CountRight(files, userEnd), |files| - i
    {
      var f := files[i];
      SelectStep(files, i, userBegin, userEnd);
      FileEnds(f);
      i := i + 1;
      if userBegin.Some? && f.largest.user < userBegin.value {
        // completely before the range
      } else if userEnd.Some? && f.smallest.user > userEnd.value {
        // completely after the range
      } else {
        inputs := inputs + [f];
        if level == 0 {
          WideningIsForced(files, begin, end, userBegin, userEnd, f);
          if userBegin.Some? && f.smallest.user < userBegin.value {
            CountLeftDrops(files, userBegin.value, f.smallest.user);
            userBegin := Some(f.smallest.user);
            SelectNothing(userBegin, userEnd);
            inputs := [];
            i := 0;
          } else if userEnd.Some? && f.largest.user > userEnd.value {
            CountRightDrops(files, userEnd.value, f.largest.user);
            userEnd := Some(f.largest.user);
            SelectNothing(userBegin, userEnd);
            inputs := [];
            i := 0;
          }
        }
      }
    }
    assert files[..i] == files;
  }

  // ---------------------------------------------------------------------------
  // AddBoundaryInputs
  // ---------------------------------------------------------------------------

  ghost predicate IsLargestKey(files: seq<FileMeta>, key: InternalKey) {
    && (exists f :: f in files && f.largest == key)
    && forall f | f in files :: !Less(key, f.largest)
  }

  method FindLargestKey(files: seq<FileMeta>) returns (found: bool, largestKey: InternalKey)
    ensures found == (files != [])
    ensures found ==> IsLargestKey(files, largestKey)
  {
    if files == [] {
      return false, InternalKey(0.0, 0, TypeDeletion);
    }
    largestKey := files[0].largest;
    var i := 1;
    while i < |files|
      invariant 1 <= i <= |files|
      invariant exists j :: 0 <= j < i && files[j].largest == largestKey
      invariant forall j | 0 <= j < i :: !Less(largestKey, files[j].largest)
    {
      if Less(largestKey, files[i].largest) {
        largestKey := files[i].largest;
      }
      i := i + 1;
    }
    found := true;
  }

  // f starts after key but still inside key's user key.
  predicate IsBoundary(f: FileMeta, key: InternalKey) {
    Less(key, f.smallest) && f.smallest.user == key.user
  }

  method FindSmallestBoundaryFile(levelFiles: seq<FileMeta>, largestKey: InternalKey)
    returns (r: Option<FileMeta>)
    ensures r.None? ==> forall f | f in levelFiles :: !IsBoundary(f, largestKey)
    ensures r.Some? ==> r.value in levelFiles && IsBoundary(r.value, largestKey)
    ensures r.Some? ==> forall f | f in levelFiles && IsBoundary(f, largestKey) :: !Less(f.smallest, r.value.smallest)
  {
    r := None;
    var i := 0;
    while i < |levelFiles|
      invariant 0 <= i <= |levelFiles|
      invariant r.None? ==> forall j | 0 <= j < i :: !IsBoundary(levelFiles[j], largestKey)
      invariant r.Some? ==> r.value in levelFiles && IsBoundary(r.value, largestKey)
      invariant r.Some? ==>
        forall j | 0 <= j < i && IsBoundary(levelFiles[j], largestKey) :: !Less(levelFiles[j].smallest, r.value.smallest)
    {
      var f := levelFiles[i];
      if IsBoundary(f, largestKey) {
        if r.None? || Less(f.smallest, r.value.smallest) {
          r := Some(f);
        }
      }
      i := i + 1;
    }
  }

  // Level files that start after key.
  function CountBeyond(files: seq<FileMeta>, key: InternalKey): nat {
    if files == [] then 0
    else CountBeyond(files[1..], key) + if Less(key, files[0].smallest) then 1 else 0
  }

  lemma {:induction false} CountBeyondDrops(files: seq<FileMeta>, key: InternalKey, key': InternalKey)
    requires !Less(key', key)
    ensures CountBeyond(files, key') <= CountBeyond(files, key)
    ensures (exists f :: f in files && Less(key, f.smallest) && !Less(key', f.smallest)) ==>
              CountBeyond(files, key') < CountBeyond(files, key)
  {
    if files != [] {
      CountBeyondDrops(files[1..], key, key');
    }
  }

  // No file of the level starts after all of files but inside the user key they end with.
  ghost predicate BoundaryClosed(levelFiles: seq<FileMeta>, files: seq<FileMeta>) {
    forall key | IsLargestKey(files, key) :: forall f | f in levelFiles :: !IsBoundary(f, key)
  }

  lemma LargestKeyUnique(files: seq<FileMeta>, a: InternalKey, b: InternalKey)
    requires IsLargestKey(files, a) && IsLargestKey(files, b)
    ensures a == b
  {
  }

  // f is the first level file that starts inside the user key files end with.
  ghost predicate Continues(levelFiles: seq<FileMeta>, files: seq<FileMeta>, f: FileMeta) {
    && f in levelFiles
    && exists key ::
         && IsLargestKey(files, key)
         && IsBoundary(f, key)
         && forall g | g in levelFiles && IsBoundary(g, key) :: !Less(g.smallest, f.smallest)
  }

  lemma LargestExtends(files: seq<FileMeta>, key: InternalKey, f: FileMeta)
    requires IsLargestKey(files, key) && Less(key, f.smallest) && !Less(f.largest, f.smallest)
    ensures IsLargestKey(files + [f], f.largest)
  {
    assert f in files + [f];
  }

  lemma ContinuesStep(levelFiles: seq<FileMeta>, first: seq<FileMeta>, r: seq<FileMeta>, key: InternalKey, f: FileMeta)
    requires IsLargestKey(r, key) && first <= r
    requires f in levelFiles && IsBoundary(f, key) && !Less(f.largest, f.smallest)
    requires forall g | g in levelFiles && IsBoundary(g, key) :: !Less(g.smallest, f.smallest)
    requires forall i | |first| <= i < |r| :: Continues(levelFiles, r[..i], r[i])
    ensures IsLargestKey(r + [f], f.largest)
    ensures forall i | |first| <= i < |r + [f]| :: Continues(levelFiles, (r + [f])[..i], (r + [f])[i])
  {
    assert Continues(levelFiles, r, f);
    LargestExtends(r, key, f);
    hide Continues, IsLargestKey;
    var r' := r + [f];
    assert r'[..|r|] == r;
    forall i | |first| <= i < |r'|
      ensures Continues(levelFiles, r'[..i], r'[i])
    {
      if i < |r| {
        assert r'[..i] == r[..i];
      }
    }
  }

  lemma BoundaryClosedAt(levelFiles: seq<FileMeta>, files: seq<FileMeta>, key: InternalKey)
    requires files == [] || (IsLargestKey(files, key) && forall f | f in levelFiles :: !IsBoundary(f, key))
    ensures BoundaryClosed(levelFiles, files)
  {
    forall k | IsLargestKey(files, k)
      ensures k == key
    {
      if files != [] {
        LargestKeyUnique(files, k, key);
      }
    }
  }

  method AddBoundaryInputs(levelFiles: seq<FileMeta>, compactionFiles: seq<FileMeta>)
    returns (r: seq<FileMeta>)
    requires GoodFiles(levelFiles)
    ensures compactionFiles <= r
    ensures BoundaryClosed(levelFiles, r)
    // every added file is the first one that continues the user key its predecessors end with
    ensures forall i | |compactionFiles| <= i < |r| :: Continues(levelFiles, r[..i], r[i])
  {
    hide GoodFile, Continues, IsLargestKey;
    r := compactionFiles;
    var found, largestKey := FindLargestKey(compactionFiles);
    if !found {
      BoundaryClosedAt(levelFiles, r, largestKey);
      return;
    }
    var continueSearching := true;
    while continueSearching
      invariant compactionFiles <= r
      invariant IsLargestKey(r, largestKey)
      invariant !continueSearching ==> forall f | f in levelFiles :: !IsBoundary(f, largestKey)
      invariant forall i | |compactionFiles| <= i < |r| :: Continues(levelFiles, r[..i], r[i])
      decreases continueSearching, CountBeyond(levelFiles, largestKey)
    {
      var boundary := FindSmallestBoundaryFile(levelFiles, largestKey);
      if boundary.Some? {
        FileEnds(boundary.value);
        CountBeyondDrops(levelFiles, largestKey, boundary.value.largest);
        ContinuesStep(levelFiles, compactionFiles, r, largestKey, boundary.value);
        r := r + [boundary.value];
        largestKey := boundary.value.largest;
      } else {
        continueSearching := false;
      }
    }
    BoundaryClosedAt(levelFiles, r, largestKey);
  }
}
