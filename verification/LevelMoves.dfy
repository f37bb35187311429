/**
 Installing a flush, a compaction or a trivial move keeps the order of a version.
 */
module LevelMoves {
  import opened Keys
  import opened Files
  import opened Picker
  import opened ReadPath
  import opened VersionBuilder

  ghost predicate OrderedLevels(levels: Levels) {
    forall l | 0 <= l < |levels| :: Ordered(levels[l])
  }

  // next lists, in order, the files of old without del plus the files of add.
  ghost predicate Replaced(old_: seq<FileMeta>, del: seq<FileMeta>, add: seq<FileMeta>, next: seq<FileMeta>) {
    && Ordered(next)
    && forall f :: f in next <==> (f in old_ && f !in del) || f in add
  }

  // in0 leaves `level`, in1 leaves the next level, and outs takes their place there.
  ghost predicate Moved(levels: Levels, levels': Levels, level: nat,
                        in0: seq<FileMeta>, in1: seq<FileMeta>, outs: seq<FileMeta>)
  {
    && |levels| == |levels'| == NUM_LEVELS && level + 1 < NUM_LEVELS
    && (forall l | 0 <= l < NUM_LEVELS && l != level && l != level + 1 :: levels'[l] == levels[l])
    && Replaced(levels[level], in0, [], levels'[level])
    && Replaced(levels[level + 1], in1, outs, levels'[level + 1])
  }

  ghost predicate Holds(files: seq<FileMeta>, e: Entry) {
    exists f :: f in files && e in f.entries
  }

  lemma OrderedDisjoint(files: seq<FileMeta>)
    requires GoodFiles(files) && Ordered(files)
    requires forall f, g | f in files && g in files :: f == g || Less(f.largest, g.smallest) || Less(g.largest, f.smallest)
    ensures SortedDisjoint(files)
  {
    hide GoodFile;
    forall i, j | 0 <= i < j < |files|
      ensures Less(files[i].largest, files[j].smallest)
    {
      var f, g := files[i], files[j];
      assert f in files && g in files;
      assert BySmallestKey(f, g);
      SmallestTotal(f, g);
      FileEnds(g);
    }
  }

  lemma OrderedNoDuplicates(files: seq<FileMeta>)
    requires Ordered(files)
    ensures NoDuplicates(files)
  {
    forall i, j | 0 <= i < j < |files|
      ensures files[i] != files[j]
    {
      assert BySmallestKey(files[i], files[j]);
      SmallestTotal(files[i], files[j]);
    }
  }

  lemma AllEntriesMember(levels: Levels, l: nat, f: FileMeta, e: Entry)
    requires l < |levels| && f in levels[l] && e in f.entries
    ensures e in AllEntries(levels)
  {
  }

  // f entirely before g, or sharing no user key, has only newer entries for shared user keys.
  lemma PrecedingIsNewer(levels: Levels, l: nat, f: FileMeta, g: FileMeta)
    requires SortedLevels(levels) && SeqUnique(AllEntries(levels)) && l < NUM_LEVELS
    requires f in levels[l] && g in levels[l]
    requires UserDisjoint(g, f) || Less(f.largest, g.smallest)
    ensures NewerThan(f, g)
  {
    hide GoodFile;
    forall x, y | x in f.entries && y in g.entries && x.key.user == y.key.user
      ensures x.key.sequence > y.key.sequence
    {
      FileBounds(f, x);
      FileBounds(g, y);
      AllEntriesMember(levels, l, f, x);
      AllEntriesMember(levels, l, g, y);
    }
  }

  // ---------------------------------------------------------------------------
  // The next level's left-out files stay beside everything that is merged
  // ---------------------------------------------------------------------------

  lemma LeftOutBeside(levels: Levels, level: nat, in0: seq<FileMeta>, in1: seq<FileMeta>, g: FileMeta)
    requires SortedLevels(levels) && level + 1 < NUM_LEVELS && CompactionInputs(levels, level, in0, in1)
    requires g in levels[level + 1] && g !in in1
    ensures (forall e | Holds(in0 + in1, e) :: Less(g.largest, e.key))
            || (forall e | Holds(in0 + in1, e) :: Less(e.key, g.smallest))
  {
    hide GoodFile;
    var lo, hi :| && IsSmallestKey(in0, lo) && IsLargestKey(in0, hi)
                  && in1 == Select(levels[level + 1], Some(lo.user), Some(hi.user));
    SelectContains(levels[level + 1], Some(lo.user), Some(hi.user));
    forall e | Holds(in0 + in1, e)
      ensures if g.largest.user < lo.user then Less(g.largest, e.key) else Less(e.key, g.smallest)
    {
      var f :| f in in0 + in1 && e in f.entries;
      if f in in0 {
        assert f in levels[level];
        BesideRange(f, e, lo, hi, g);
      } else {
        BesideOverlapping(levels[level + 1], f, e, lo, hi, g);
      }
    }
  }

  lemma BesideRange(f: FileMeta, e: Entry, lo: InternalKey, hi: InternalKey, g: FileMeta)
    requires GoodFile(f) && GoodFile(g) && e in f.entries
    requires !Less(f.smallest, lo) && !Less(hi, f.largest)
    requires !Overlaps(g, Some(lo.user), Some(hi.user))
    ensures if g.largest.user < lo.user then Less(g.largest, e.key) else Less(e.key, g.smallest)
  {
    FileBounds(f, e);
  }

  lemma BesideOverlapping(files: seq<FileMeta>, f: FileMeta, e: Entry, lo: InternalKey, hi: InternalKey, g: FileMeta)
    requires GoodFiles(files) && SortedDisjoint(files) && f in files && g in files && e in f.entries
    requires Overlaps(f, Some(lo.user), Some(hi.user)) && !Overlaps(g, Some(lo.user), Some(hi.user))
    ensures if g.largest.user < lo.user then Less(g.largest, e.key) else Less(e.key, g.smallest)
  {
    hide GoodFile;
    FileBounds(f, e);
    FileEnds(f);
    FileEnds(g);
    SortedTwo(files, f, g);
  }

  lemma NextLevelStaysSorted(levels: Levels, levels': Levels, level: nat,
                             in0: seq<FileMeta>, in1: seq<FileMeta>, outs: seq<FileMeta>)
    requires SortedLevels(levels) && level + 1 < NUM_LEVELS && CompactionInputs(levels, level, in0, in1)
    requires Moved(levels, levels', level, in0, in1, outs)
    requires GoodFiles(outs) && SortedDisjoint(outs)
    requires forall f, e | f in outs && e in f.entries :: Holds(in0 + in1, e)
    ensures GoodFiles(levels'[level + 1]) && SortedDisjoint(levels'[level + 1])
  {
    hide GoodFile;
    var files := levels'[level + 1];
    forall f, g | f in files && g in files
      ensures f == g || Less(f.largest, g.smallest) || Less(g.largest, f.smallest)
    {
      if f in outs && g in outs {
        SortedTwo(outs, f, g);
      } else if f in outs {
        OutBeside(levels, level, in0, in1, f, g);
      } else if g in outs {
        OutBeside(levels, level, in0, in1, g, f);
      } else {
        SortedTwo(levels[level + 1], f, g);
      }
    }
    OrderedDisjoint(files);
  }

  lemma OutBeside(levels: Levels, level: nat, in0: seq<FileMeta>, in1: seq<FileMeta>, f: FileMeta, g: FileMeta)
    requires SortedLevels(levels) && level + 1 < NUM_LEVELS && CompactionInputs(levels, level, in0, in1)
    requires GoodFile(f) && forall e | e in f.entries :: Holds(in0 + in1, e)
    requires g in levels[level + 1] && g !in in1
    ensures Less(f.largest, g.smallest) || Less(g.largest, f.smallest)
  {
    LeftOutBeside(levels, level, in0, in1, g);
    assert f.entries[0] in f.entries && f.entries[|f.entries| - 1] in f.entries;
  }

  // ---------------------------------------------------------------------------
  // Ages
  // ---------------------------------------------------------------------------

  // A file that stays at or above `level` is newer than every input of the compaction.
  lemma StayingIsNewer(levels: Levels, level: nat, in0: seq<FileMeta>, in1: seq<FileMeta>,
                       l: nat, f: FileMeta, h: FileMeta)
    requires LevelInvariant(levels) && level + 1 < NUM_LEVELS && CompactionInputs(levels, level, in0, in1)
    requires l <= level && f in levels[l] && (l == level ==> f !in in0)
    requires h in in0 || (h in in1 && h in levels[level + 1])
    ensures NewerThan(f, h)
  {
    if h in in0 {
      assert h in levels[level];
      if l == level {
        PrecedingIsNewer(levels, level, f, h);
      }
    }
  }

  lemma InputsInLevels(levels: Levels, level: nat, in0: seq<FileMeta>, in1: seq<FileMeta>)
    requires |levels| == NUM_LEVELS && level + 1 < NUM_LEVELS && CompactionInputs(levels, level, in0, in1)
    ensures AllIn(in0, levels[level]) && AllIn(in1, levels[level + 1])
  {
    var lo, hi :| && IsSmallestKey(in0, lo) && IsLargestKey(in0, hi)
                  && in1 == Select(levels[level + 1], Some(lo.user), Some(hi.user));
    SelectContains(levels[level + 1], Some(lo.user), Some(hi.user));
  }

  lemma OutsKeepAge(levels: Levels, level: nat, in0: seq<FileMeta>, in1: seq<FileMeta>,
                    out: FileMeta, l: nat, f: FileMeta)
    requires LevelInvariant(levels) && level + 1 < NUM_LEVELS && CompactionInputs(levels, level, in0, in1)
    requires forall e | e in out.entries :: Holds(in0 + in1, e)
    requires l < NUM_LEVELS && f in levels[l] && l != level + 1 && (l == level ==> f !in in0)
    ensures l <= level ==> NewerThan(f, out)
    ensures l > level + 1 ==> NewerThan(out, f)
  {
    InputsInLevels(levels, level, in0, in1);
    forall x, y | x in f.entries && y in out.entries && x.key.user == y.key.user
      ensures if l <= level then x.key.sequence > y.key.sequence else y.key.sequence > x.key.sequence
    {
      var h :| h in in0 + in1 && y in h.entries;
      if l <= level {
        StayingIsNewer(levels, level, in0, in1, l, f, h);
      } else if h in in0 {
        assert NewerThan(h, f);
      } else {
        assert NewerThan(h, f);
      }
    }
  }

  lemma MovedKeepsAges(levels: Levels, levels': Levels, level: nat,
                       in0: seq<FileMeta>, in1: seq<FileMeta>, outs: seq<FileMeta>)
    requires LevelInvariant(levels) && level + 1 < NUM_LEVELS && CompactionInputs(levels, level, in0, in1)
    requires Moved(levels, levels', level, in0, in1, outs)
    requires forall f, e | f in outs && e in f.entries :: Holds(in0 + in1, e)
    ensures AgeOrdered(levels')
  {
    forall l, m, f, g | 0 <= l < m < |levels'| && f in levels'[l] && g in levels'[m]
      ensures NewerThan(f, g)
    {
      if l == level + 1 && f in outs {
        OutsKeepAge(levels, level, in0, in1, f, m, g);
      } else if m == level + 1 && g in outs {
        OutsKeepAge(levels, level, in0, in1, g, l, f);
      } else {
        assert f in levels[l] && g in levels[m];
      }
    }
    assert forall f | f in levels'[0] :: f in levels[0];
  }

  // ---------------------------------------------------------------------------
  // Main lemmas
  // ---------------------------------------------------------------------------

  lemma RemovedKeepsSorted(files: seq<FileMeta>, del: seq<FileMeta>, next: seq<FileMeta>, level: nat)
    requires GoodFiles(files) && (level > 0 ==> SortedDisjoint(files)) && Replaced(files, del, [], next)
    ensures GoodFiles(next) && (level > 0 ==> SortedDisjoint(next))
  {
    hide GoodFile;
    if level > 0 {
      forall f, g | f in next && g in next
        ensures f == g || Less(f.largest, g.smallest) || Less(g.largest, f.smallest)
      {
        SortedTwo(files, f, g);
      }
      OrderedDisjoint(next);
    }
  }

  lemma MovedKeepsSorted(levels: Levels, levels': Levels, level: nat,
                         in0: seq<FileMeta>, in1: seq<FileMeta>, outs: seq<FileMeta>)
    requires SortedLevels(levels) && OrderedLevels(levels)
    requires level + 1 < NUM_LEVELS && CompactionInputs(levels, level, in0, in1)
    requires Moved(levels, levels', level, in0, in1, outs)
    requires GoodFiles(outs) && SortedDisjoint(outs)
    requires forall f, e | f in outs && e in f.entries :: Holds(in0 + in1, e)
    ensures SortedLevels(levels') && OrderedLevels(levels')
  {
    hide GoodFile, SortedDisjoint, Ordered, Holds, CompactionInputs;
    NextLevelStaysSorted(levels, levels', level, in0, in1, outs);
    RemovedKeepsSorted(levels[level], in0, levels'[level], level);
    OrderedNoDuplicates(levels'[0]);
    forall l | 0 <= l < NUM_LEVELS
      ensures GoodFiles(levels'[l]) && Ordered(levels'[l]) && (l > 0 ==> SortedDisjoint(levels'[l]))
    {
      if l != level && l != level + 1 {
        assert levels'[l] == levels[l];
      }
    }
  }

  // The three level invariants survive a compaction or trivial move.
  lemma MovedKeepsInvariant(levels: Levels, levels': Levels, level: nat,
                            in0: seq<FileMeta>, in1: seq<FileMeta>, outs: seq<FileMeta>)
    requires LevelInvariant(levels) && OrderedLevels(levels)
    requires level + 1 < NUM_LEVELS && CompactionInputs(levels, level, in0, in1)
    requires Moved(levels, levels', level, in0, in1, outs)
    requires GoodFiles(outs) && SortedDisjoint(outs)
    requires forall f, e | f in outs && e in f.entries :: Holds(in0 + in1, e)
    ensures LevelInvariant(levels') && OrderedLevels(levels')
    ensures AllEntries(levels') <= AllEntries(levels)
  {
    hide GoodFile, Holds, NewerThan, SortedDisjoint, Replaced, Ordered;
    MovedKeepsSorted(levels, levels', level, in0, in1, outs);
    MovedKeepsAges(levels, levels', level, in0, in1, outs);
    InputsInLevels(levels, level, in0, in1);
    MovedShrinks(levels, levels', level, in0, in1, outs);
  }

  lemma MovedShrinks(levels: Levels, levels': Levels, level: nat,
                     in0: seq<FileMeta>, in1: seq<FileMeta>, outs: seq<FileMeta>)
    requires |levels| == NUM_LEVELS && level + 1 < NUM_LEVELS
    requires AllIn(in0, levels[level]) && AllIn(in1, levels[level + 1])
    requires Moved(levels, levels', level, in0, in1, outs)
    requires forall f, e | f in outs && e in f.entries :: Holds(in0 + in1, e)
    ensures AllEntries(levels') <= AllEntries(levels)
  {
    forall e | e in AllEntries(levels')
      ensures e in AllEntries(levels)
    {
      var l, f :| 0 <= l < |levels'| && f in levels'[l] && e in f.entries;
      if l == level + 1 && f in outs {
        assert Holds(in0 + in1, e);
        var h :| h in in0 + in1 && e in h.entries;
        AllEntriesMember(levels, if h in in0 then level else level + 1, h, e);
      } else {
        AllEntriesMember(levels, l, f, e);
      }
    }
  }

  // A new table from the memtable, placed as PickLevelForMemTableOutput allows.
  lemma FlushKeepsInvariant(levels: Levels, levels': Levels, level: nat, f: FileMeta)
    requires LevelInvariant(levels) && OrderedLevels(levels)
    requires GoodFile(f) && NewerThanFiles(f.entries, levels) && SeqUnique(AllEntries(levels) + ToSet(f.entries))
    requires forall g | g in levels[0] :: g.number < f.number
    requires level <= MAX_MEM_COMPACT_LEVEL
    requires level > 0 ==> forall l | 0 <= l <= level :: !Touches(levels[l], f.smallest.user, f.largest.user)
    requires |levels'| == NUM_LEVELS && Replaced(levels[level], [], [f], levels'[level])
    requires forall l | 0 <= l < NUM_LEVELS && l != level :: levels'[l] == levels[l]
    ensures LevelInvariant(levels') && OrderedLevels(levels')
    ensures AllEntries(levels') == AllEntries(levels) + ToSet(f.entries)
  {
    assert |levels| == NUM_LEVELS;
    hide GoodFile, AgeOrdered, SortedLevels, OrderedLevels, Touches, Replaced, NewerThanFiles, SeqUnique;
    FlushKeepsAges(levels, levels', level, f);
    FlushKeepsSorted(levels, levels', level, f);
    FlushEntries(levels, levels', level, f);
  }

  // At level 0 or below nothing overlapping: the table shares no user key with the file.
  lemma UntouchedIsNewer(levels: Levels, l: nat, f: FileMeta, g: FileMeta)
    requires GoodFile(f) && GoodFile(g) && l < |levels| && g in levels[l]
    requires !Touches(levels[l], f.smallest.user, f.largest.user)
    ensures UserDisjoint(f, g) && NewerThan(g, f)
  {
    assert !Overlaps(g, Some(f.smallest.user), Some(f.largest.user));
    forall x, y | x in g.entries && y in f.entries
      ensures x.key.user != y.key.user
    {
      FileBounds(g, x);
      FileBounds(f, y);
    }
  }

  lemma FlushKeepsSorted(levels: Levels, levels': Levels, level: nat, f: FileMeta)
    requires SortedLevels(levels) && OrderedLevels(levels) && GoodFile(f) && level < NUM_LEVELS
    requires level > 0 ==> !Touches(levels[level], f.smallest.user, f.largest.user)
    requires |levels'| == NUM_LEVELS && Replaced(levels[level], [], [f], levels'[level])
    requires forall l | 0 <= l < NUM_LEVELS && l != level :: levels'[l] == levels[l]
    ensures SortedLevels(levels') && OrderedLevels(levels')
  {
    hide GoodFile, NewerThan;
    assert GoodFiles(levels'[level]);
    if level > 0 {
      forall a, b | a in levels'[level] && b in levels'[level]
        ensures a == b || Less(a.largest, b.smallest) || Less(b.largest, a.smallest)
      {
        FileEnds(a);
        FileEnds(b);
        if a == f && b != f {
          UntouchedIsNewer(levels, level, f, b);
        } else if b == f && a != f {
          UntouchedIsNewer(levels, level, f, a);
        } else if a != f {
          SortedTwo(levels[level], a, b);
        }
      }
      OrderedDisjoint(levels'[level]);
    }
    OrderedNoDuplicates(levels'[0]);
  }

  lemma FlushKeepsAges(levels: Levels, levels': Levels, level: nat, f: FileMeta)
    requires LevelInvariant(levels) && NewerThanFiles(f.entries, levels) && level < NUM_LEVELS && GoodFile(f)
    requires forall g | g in levels[0] :: g.number < f.number
    requires level > 0 ==> forall l | 0 <= l <= level :: !Touches(levels[l], f.smallest.user, f.largest.user)
    requires |levels'| == NUM_LEVELS && Replaced(levels[level], [], [f], levels'[level])
    requires forall l | 0 <= l < NUM_LEVELS && l != level :: levels'[l] == levels[l]
    ensures AgeOrdered(levels')
  {
    hide GoodFile, Touches, SeqUnique, SortedDisjoint, NoDuplicates;
    forall l, m, a, b | 0 <= l < m < |levels'| && a in levels'[l] && b in levels'[m]
      ensures NewerThan(a, b)
    {
      if l == level && a == f {
        assert b in levels[m];
        assert NewerEntries(f.entries, b.entries);
      } else if m == level && b == f {
        assert a in levels[l];
        UntouchedIsNewer(levels, l, f, a);
      } else {
        assert a in levels[l] && b in levels[m];
      }
    }
    forall a, b | a in levels'[0] && b in levels'[0] && a.number > b.number
      ensures NewerThan(a, b)
    {
      if level == 0 && a == f {
        assert b in levels[0];
        assert NewerEntries(f.entries, b.entries);
      } else {
        assert a in levels[0];
      }
    }
  }

  lemma FlushEntries(levels: Levels, levels': Levels, level: nat, f: FileMeta)
    requires |levels| == |levels'| == NUM_LEVELS && level < NUM_LEVELS
    requires Replaced(levels[level], [], [f], levels'[level])
    requires forall l | 0 <= l < NUM_LEVELS && l != level :: levels'[l] == levels[l]
    ensures AllEntries(levels') == AllEntries(levels) + ToSet(f.entries)
  {
    forall e
      ensures e in AllEntries(levels') <==> e in AllEntries(levels) || e in f.entries
    {
      if e in AllEntries(levels) {
        var l, g :| 0 <= l < |levels| && g in levels[l] && e in g.entries;
        AllEntriesMember(levels', l, g, e);
      }
      if e in f.entries {
        AllEntriesMember(levels', level, f, e);
      }
      if e in AllEntries(levels') {
        var l, g :| 0 <= l < |levels'| && g in levels'[l] && e in g.entries;
        if g in levels[l] {
          AllEntriesMember(levels, l, g, e);
        }
      }
    }
  }
}
