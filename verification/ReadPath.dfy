/**
 Point lookups: MemTable::Get, Version::Get and DBImpl::Get.
 */
module ReadPath {
  import opened Keys
  import opened Files
  import opened Picker

  // ---------------------------------------------------------------------------
  // The order of ages inside a version
  // ---------------------------------------------------------------------------

  // For every user key, a's entries are newer than b's.
  ghost predicate NewerEntries(a: seq<Entry>, b: seq<Entry>) {
    forall x, y | x in a && y in b && x.key.user == y.key.user :: x.key.sequence > y.key.sequence
  }

  ghost predicate NewerThan(f: FileMeta, g: FileMeta) {
    NewerEntries(f.entries, g.entries)
  }

  ghost function LevelEntries(files: seq<FileMeta>): set<Entry> {
    set f, e | f in files && e in f.entries :: e
  }

  ghost function AllEntries(levels: Levels): set<Entry> {
    set l, f, e | 0 <= l < |levels| && f in levels[l] && e in f.entries :: e
  }

  // Shallower levels are newer, and so are higher-numbered files of level 0.
  ghost predicate AgeOrdered(levels: Levels) {
    && (forall l, m, f, g | 0 <= l < m < |levels| && f in levels[l] && g in levels[m] :: NewerThan(f, g))
    && (|levels| > 0 ==> forall f, g | f in levels[0] && g in levels[0] && f.number > g.number :: NewerThan(f, g))
    && (|levels| > 0 ==> forall f, g | f in levels[0] && g in levels[0] && f.number == g.number :: f == g)
  }

  ghost predicate LevelInvariant(levels: Levels) {
    SortedLevels(levels) && AgeOrdered(levels) && SeqUnique(AllEntries(levels))
  }

  // ---------------------------------------------------------------------------
  // Seeking in one sorted run of entries
  // ---------------------------------------------------------------------------

  // Index of the first entry at or after key.
  function SeekIndex(es: seq<Entry>, key: InternalKey): (i: nat)
    ensures i <= |es|
    ensures forall k | 0 <= k < i :: Less(es[k].key, key)
    ensures i < |es| ==> !Less(es[i].key, key)
  {
    if es == [] || !Less(es[0].key, key) then 0
    else
      var i := SeekIndex(es[1..], key);
      assert forall k | 1 <= k < i + 1 :: es[k] == es[1..][k - 1];
      i + 1
  }

  // The entry a seek for (u, s) stops at, if it belongs to u.
  function SeekHit(es: seq<Entry>, u: UserKey, s: nat): Option<Entry> {
    var i := SeekIndex(es, SeekKey(u, s));
    if i < |es| && es[i].key.user == u then Some(es[i]) else None
  }

  // r is what a lookup of (u, s) in es has to find.
  ghost predicate Answers(es: set<Entry>, u: UserKey, s: nat, r: Option<Entry>) {
    && (r.None? ==> !AnyVisible(es, u, s))
    && (r.Some? ==> Newest(es, u, s, r.value))
  }

  lemma VisibleIsAtOrAfter(e: Entry, u: UserKey, s: nat)
    requires e.key.user == u
    ensures e.key.sequence <= s <==> !Less(e.key, SeekKey(u, s))
  {
  }

  lemma SeekHitAnswers(es: seq<Entry>, u: UserKey, s: nat)
    requires Sorted(es)
    ensures Answers(ToSet(es), u, s, SeekHit(es, u, s))
  {
    var i := SeekIndex(es, SeekKey(u, s));
    forall x | x in es && VisibleAt(x, u, s)
      ensures i < |es| && es[i].key.user == u && x.key.sequence <= es[i].key.sequence
    {
      VisibleIsAtOrAfter(x, u, s);
      var k :| 0 <= k < |es| && es[k] == x;
      assert i < k ==> Less(es[i].key, es[k].key);
    }
  }

  // ---------------------------------------------------------------------------
  // Version::Get
  // ---------------------------------------------------------------------------

  function InsertByNumber(f: FileMeta, files: seq<FileMeta>): seq<FileMeta> {
    if files == [] || f.number > files[0].number then [f] + files
    else [files[0]] + InsertByNumber(f, files[1..])
  }

  // std::sort with NewestFirst.
  function SortNewestFirst(files: seq<FileMeta>): seq<FileMeta> {
    if files == [] then [] else InsertByNumber(files[0], SortNewestFirst(files[1..]))
  }

  ghost predicate NewestFirst(files: seq<FileMeta>) {
    forall i, j | 0 <= i < j < |files| :: files[i].number >= files[j].number
  }

  lemma {:induction false} InsertSorted(f: FileMeta, files: seq<FileMeta>)
    requires NewestFirst(files)
    ensures NewestFirst(InsertByNumber(f, files))
    ensures forall g :: g in InsertByNumber(f, files) <==> g == f || g in files
  {
    if files == [] || f.number > files[0].number {
    } else {
      InsertSorted(f, files[1..]);
      var r := InsertByNumber(f, files[1..]);
      forall k | 0 <= k < |r|
        ensures r[k].number <= files[0].number
      {
        assert r[k] in r;
      }
      assert files == [files[0]] + files[1..];
    }
  }

  lemma {:induction false} SortSorted(files: seq<FileMeta>)
    ensures NewestFirst(SortNewestFirst(files))
    ensures forall g :: g in SortNewestFirst(files) <==> g in files
  {
    if files != [] {
      SortSorted(files[1..]);
      InsertSorted(files[0], SortNewestFirst(files[1..]));
      assert files == [files[0]] + files[1..];
    }
  }

  // The files of one level a lookup opens, in order.
  method FilesToSearch(levelFiles: seq<FileMeta>, level: nat, u: UserKey, s: nat) returns (r: seq<FileMeta>)
    requires GoodFiles(levelFiles) && (level > 0 ==> SortedDisjoint(levelFiles))
    ensures AllIn(r, levelFiles)
    ensures level == 0 ==> NewestFirst(r) && forall f :: f in r <==> f in levelFiles && Overlaps(f, Some(u), Some(u))
    ensures level > 0 ==> |r| <= 1
    ensures level > 0 ==> Answers(LevelEntries(levelFiles), u, s, if r == [] then None else SeekHit(r[0].entries, u, s))
  {
    if level == 0 {
      var tmp := [];
      var i := 0;
      while i < |levelFiles|
        invariant 0 <= i <= |levelFiles|
        invariant AllIn(tmp, levelFiles)
        invariant forall k | 0 <= k < i && Overlaps(levelFiles[k], Some(u), Some(u)) :: levelFiles[k] in tmp
        invariant forall f | f in tmp :: Overlaps(f, Some(u), Some(u))
      {
        var f := levelFiles[i];
        if u >= f.smallest.user && u <= f.largest.user {
          tmp := tmp + [f];
        }
        i := i + 1;
      }
      SortSorted(tmp);
      r := SortNewestFirst(tmp);
    } else {
      var index := FindFile(levelFiles, SeekKey(u, s));
      if index >= |levelFiles| || u < levelFiles[index].smallest.user {
        r := [];
      } else {
        r := [levelFiles[index]];
      }
      SortedLevelAnswers(levelFiles, u, s, index);
    }
  }

  lemma SortedLevelAnswers(files: seq<FileMeta>, u: UserKey, s: nat, index: nat)
    requires GoodFiles(files) && SortedDisjoint(files) && index <= |files|
    requires forall i | 0 <= i < index :: Less(files[i].largest, SeekKey(u, s))
    requires forall i | index <= i < |files| :: !Less(files[i].largest, SeekKey(u, s))
    ensures Answers(LevelEntries(files), u, s,
                    if index == |files| || u < files[index].smallest.user then None
                    else SeekHit(files[index].entries, u, s))
  {
    var r := if index == |files| || u < files[index].smallest.user then None
             else SeekHit(files[index].entries, u, s);
    forall f, x | f in files && x in f.entries && VisibleAt(x, u, s)
      ensures r.Some? && x.key.sequence <= r.value.key.sequence
    {
      var i :| 0 <= i < |files| && files[i] == f;
      VisibleFromIndex(files, u, s, index, i, x);
    }
    if r.Some? {
      assert files[index] in files;
      SeekHitAnswers(files[index].entries, u, s);
      assert r.value in ToSet(files[index].entries);
    }
  }

  // A visible entry of the level forces a hit in the file FindFile stops at, and the hit is no older.
  lemma VisibleFromIndex(files: seq<FileMeta>, u: UserKey, s: nat, index: nat, i: nat, x: Entry)
    requires GoodFiles(files) && SortedDisjoint(files) && index <= |files| && i < |files|
    requires forall i | 0 <= i < index :: Less(files[i].largest, SeekKey(u, s))
    requires forall i | index <= i < |files| :: !Less(files[i].largest, SeekKey(u, s))
    requires x in files[i].entries && VisibleAt(x, u, s)
    ensures index <= i && files[index].smallest.user <= u
    ensures SeekHit(files[index].entries, u, s).Some?
    ensures x.key.sequence <= SeekHit(files[index].entries, u, s).value.key.sequence
  {
    FileBounds(files[i], x);
    VisibleIsAtOrAfter(x, u, s);
    assert index <= i;
    var es := files[index].entries;
    assert GoodFile(files[index]);
    SeekHitAnswers(es, u, s);
    if index < i {
      var last := es[|es| - 1];
      assert Less(files[index].largest, files[i].smallest);
      FileBounds(files[index], last);
      VisibleIsAtOrAfter(last, u, s);
      assert last in ToSet(es);
      assert last.key.user == u ==> VisibleAt(last, u, s);
    } else {
      assert x in ToSet(es);
    }
  }

  ghost predicate NothingVisible(files: seq<FileMeta>, u: UserKey, s: nat) {
    forall f, e | f in files && e in f.entries :: !VisibleAt(e, u, s)
  }

  // The newest visible entry of a level is the newest of all when shallower levels have none.
  lemma LevelHitIsNewest(levels: Levels, level: nat, u: UserKey, s: nat, e: Entry)
    requires LevelInvariant(levels) && level < NUM_LEVELS
    requires forall m | 0 <= m < level :: NothingVisible(levels[m], u, s)
    requires Newest(LevelEntries(levels[level]), u, s, e)
    ensures Newest(AllEntries(levels), u, s, e)
  {
    var f :| f in levels[level] && e in f.entries;
    forall x | x in AllEntries(levels) && VisibleAt(x, u, s)
      ensures x.key.sequence <= e.key.sequence
    {
      var m, g :| 0 <= m < |levels| && g in levels[m] && x in g.entries;
      if m == level {
        assert x in LevelEntries(levels[level]);
      } else if level < m {
        assert NewerThan(f, g);
      }
    }
  }

  // A hit in the i-th file searched at level 0 is the newest of the level.
  lemma LevelZeroHit(levels: Levels, files: seq<FileMeta>, i: nat, u: UserKey, s: nat)
    requires LevelInvariant(levels)
    requires AllIn(files, levels[0]) && NewestFirst(files) && i < |files|
    requires forall f | f in levels[0] && Overlaps(f, Some(u), Some(u)) :: f in files
    requires forall k | 0 <= k < i :: SeekHit(files[k].entries, u, s).None?
    requires SeekHit(files[i].entries, u, s).Some?
    ensures Newest(LevelEntries(levels[0]), u, s, SeekHit(files[i].entries, u, s).value)
  {
    hide Sorted, Legal, NoDuplicates, SortedDisjoint, SeqUnique;
    var e := SeekHit(files[i].entries, u, s).value;
    assert files[i] in levels[0];
    SeekHitAnswers(files[i].entries, u, s);
    assert e in ToSet(files[i].entries);
    forall x | x in LevelEntries(levels[0]) && VisibleAt(x, u, s)
      ensures x.key.sequence <= e.key.sequence
    {
      var g :| g in levels[0] && x in g.entries;
      FileBounds(g, x);
      assert Overlaps(g, Some(u), Some(u));
      var k :| 0 <= k < |files| && files[k] == g;
      assert x in ToSet(g.entries);
      SeekHitAnswers(g.entries, u, s);
      if i < k {
        assert files[i].number >= files[k].number;
        assert files[i].number == g.number ==> files[i] == g;
        assert files[i].number > g.number ==> NewerThan(files[i], g);
      }
    }
  }

  lemma LevelZeroMiss(levels: Levels, files: seq<FileMeta>, u: UserKey, s: nat)
    requires LevelInvariant(levels)
    requires forall f | f in levels[0] && Overlaps(f, Some(u), Some(u)) :: f in files
    requires forall k | 0 <= k < |files| :: SeekHit(files[k].entries, u, s).None?
    ensures !AnyVisible(LevelEntries(levels[0]), u, s)
  {
    forall f, e | f in levels[0] && e in f.entries
      ensures !VisibleAt(e, u, s)
    {
      FileBounds(f, e);
      SeekHitAnswers(f.entries, u, s);
      if e.key.user == u {
        assert Overlaps(f, Some(u), Some(u));
        assert e in ToSet(f.entries);
      }
    }
  }

  // Searches the files of one level in order.
  method SearchLevel(levels: Levels, level: nat, u: UserKey, s: nat) returns (r: Option<Entry>)
    requires LevelInvariant(levels) && level < NUM_LEVELS
    ensures Answers(LevelEntries(levels[level]), u, s, r)
  {
    hide AgeOrdered, GoodFile, SeqUnique, Newest, AnyVisible, NoDuplicates;
    var files := FilesToSearch(levels[level], level, u, s);
    var i := 0;
    while i < |files|
      invariant 0 <= i <= |files|
      invariant forall k | 0 <= k < i :: SeekHit(files[k].entries, u, s).None?
    {
      r := SeekHit(files[i].entries, u, s);
      if r.Some? {
        if level == 0 {
          LevelZeroHit(levels, files, i, u, s);
        }
        return;
      }
      i := i + 1;
    }
    r := None;
    if level == 0 {
      LevelZeroMiss(levels, files, u, s);
    }
  }

  lemma LevelMiss(files: seq<FileMeta>, u: UserKey, s: nat)
    requires !AnyVisible(LevelEntries(files), u, s)
    ensures NothingVisible(files, u, s)
  {
    forall f, e | f in files && e in f.entries
      ensures !VisibleAt(e, u, s)
    {
      assert e in LevelEntries(files);
    }
  }

  lemma NoLevelVisible(levels: Levels, u: UserKey, s: nat)
    requires forall m | 0 <= m < |levels| :: NothingVisible(levels[m], u, s)
    ensures !AnyVisible(AllEntries(levels), u, s)
  {
    forall e | e in AllEntries(levels)
      ensures !VisibleAt(e, u, s)
    {
      var l, f :| 0 <= l < |levels| && f in levels[l] && e in f.entries;
      assert NothingVisible(levels[l], u, s);
    }
  }

  // Searches level by level and stops at the first hit.
  method VersionGet(levels: Levels, u: UserKey, s: nat) returns (r: Option<Entry>)
    requires LevelInvariant(levels)
    ensures Answers(AllEntries(levels), u, s, r)
  {
    hide AgeOrdered, SortedDisjoint, GoodFile, SeqUnique, AllEntries, LevelEntries, Newest, AnyVisible,
         NothingVisible, NoDuplicates;
    var level := 0;
    while level < NUM_LEVELS
      invariant 0 <= level <= NUM_LEVELS
      invariant forall m | 0 <= m < level :: NothingVisible(levels[m], u, s)
    {
      r := SearchLevel(levels, level, u, s);
      if r.Some? {
        LevelHitIsNewest(levels, level, u, s, r.value);
        return;
      }
      LevelMiss(levels[level], u, s);
      level := level + 1;
    }
    r := None;
    NoLevelVisible(levels, u, s);
  }

  // ---------------------------------------------------------------------------
  // DBImpl::Get
  // ---------------------------------------------------------------------------

  // Everything the store holds.
  ghost function Stored(mem: seq<Entry>, imm: Option<seq<Entry>>, levels: Levels): set<Entry> {
    ToSet(mem) + (if imm.Some? then ToSet(imm.value) else {}) + AllEntries(levels)
  }

  ghost predicate NewerThanFiles(es: seq<Entry>, levels: Levels) {
    forall l, f | 0 <= l < |levels| && f in levels[l] :: NewerEntries(es, f.entries)
  }

  // The memtables are sorted, and newer than everything behind them.
  ghost predicate StoreInvariant(mem: seq<Entry>, imm: Option<seq<Entry>>, levels: Levels) {
    && LevelInvariant(levels)
    && Sorted(mem) && NewerThanFiles(mem, levels)
    && (imm.Some? ==> Sorted(imm.value) && NewerThanFiles(imm.value, levels) && NewerEntries(mem, imm.value))
    && SeqUnique(Stored(mem, imm, levels))
  }

  // What a lookup that stops at the first hit has found, whichever of the three it comes from.
  lemma FirstHitIsRead(mem: seq<Entry>, imm: Option<seq<Entry>>, levels: Levels, u: UserKey, s: nat, hit: Option<Entry>)
    requires StoreInvariant(mem, imm, levels)
    requires var first := SeekHit(mem, u, s);
             var second := if imm.Some? then SeekHit(imm.value, u, s) else None;
             if first.Some? then hit == first
             else if second.Some? then hit == second
             else Answers(AllEntries(levels), u, s, hit)
    ensures Read(Stored(mem, imm, levels), u, s) == if hit.Some? then Outcome(hit.value) else None
  {
    var all := Stored(mem, imm, levels);
    SeekHitAnswers(mem, u, s);
    if imm.Some? {
      SeekHitAnswers(imm.value, u, s);
    }
    if hit.Some? {
      forall x | x in all && VisibleAt(x, u, s)
        ensures x.key.sequence <= hit.value.key.sequence
      {
        if x in AllEntries(levels) {
          var l, f :| 0 <= l < |levels| && f in levels[l] && x in f.entries;
          assert NewerEntries(mem, f.entries);
        }
      }
      ReadOfNewest(all, u, s, hit.value);
    } else {
      assert !AnyVisible(all, u, s);
    }
  }
}
