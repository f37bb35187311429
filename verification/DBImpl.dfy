/**
 The operations of db/db_impl.cc, put together from their parts: each one takes the state of the database to the next
 by a step of the state machine in Database.
 */
module DBImpl {
  import opened Keys
  import opened Files
  import opened Picker
  import opened ReadPath
  import opened Compacting
  import opened VersionBuilder
  import opened LevelMoves
  import opened MergeInputs
  import opened MemTables
  import opened Database
  import opened Merger
  import opened DBIterator
  import SkipList

  // ---------------------------------------------------------------------------
  // Installing an edit
  // ---------------------------------------------------------------------------

  // One level after VersionSet::LogAndApply.
  function Installed(base: seq<FileMeta>, edit: VersionEdit, level: nat): seq<FileMeta> {
    var st := ApplyLevel(edit, level, NO_CHANGE);
    Live(MergeList(base, st.added), st.deleted)
  }

  // The Builder part of VersionSet::LogAndApply.
  method LogAndApply(base: Levels, edit: VersionEdit) returns (v: Levels)
    requires forall p | p in edit.deletedFiles :: p.0 < |base|
    requires forall p | p in edit.newFiles :: p.0 < |base|
    ensures |v| == |base| && forall l | 0 <= l < |v| :: v[l] == Installed(base[l], edit, l)
  {
    hide ApplyLevel, Live, MergeList;
    var builder := new Builder(base);
    builder.Apply(edit);
    v := builder.SaveTo();
  }

  // An edit that adds only files the level does not list deletes and adds what it says.
  lemma InstalledFiles(base: seq<FileMeta>, edit: VersionEdit, l: nat, u: set<FileMeta>)
    requires Ordered(base) && Identifying(u) && (forall f | f in base :: f in u)
    requires AddedFrom(edit.newFiles, l, u) && forall f | f in FilesAt(edit.newFiles, l) :: f !in base
    ensures var news := FilesAt(edit.newFiles, l);
            && Ordered(Installed(base, edit, l))
            && forall f :: f in Installed(base, edit, l) <==>
                 (f in base || f in news) && f.number !in DeletedAt(edit, l) - Numbers(news)
  {
    hide Live, MergeList, AddAll, BySmallestKey;
    var none: set<nat> := {};
    assert none + DeletedAt(edit, l) == DeletedAt(edit, l);
    NothingOrdered();
    AddAllMembers(edit.newFiles, l, LevelState(DeletedAt(edit, l), []), u);
    var st := ApplyLevel(edit, l, NO_CHANGE);
    forall f, g | f in base && g in st.added
      ensures !SameSlot(f, g)
    {
      assert f in u && g in u;
    }
    SavedWhenNoCommonSlot(base, st.deleted, st.added);
  }

  lemma NothingOrdered()
    ensures Ordered([])
  {
  }

  function NumbersOf(files: seq<FileMeta>): set<nat> {
    set f | f in files :: f.number
  }

  // AddInputDeletions and the additions of InstallCompactionResults, or a trivial move.
  function CompactionEdit(level: nat, in0: seq<FileMeta>, in1: seq<FileMeta>, outs: seq<FileMeta>): VersionEdit {
    VersionEdit((set f | f in in0 :: (level, f.number)) + (set f | f in in1 :: (level + 1, f.number)),
                seq(|outs|, i requires 0 <= i < |outs| => (level + 1, outs[i])))
  }

  lemma EditParts(level: nat, in0: seq<FileMeta>, in1: seq<FileMeta>, outs: seq<FileMeta>, l: nat)
    ensures var e := CompactionEdit(level, in0, in1, outs);
            && DeletedAt(e, l) == (if l == level then NumbersOf(in0) else if l == level + 1 then NumbersOf(in1) else {})
            && FilesAt(e.newFiles, l) == (if l == level + 1 then set f | f in outs else {})
  {
    var e := CompactionEdit(level, in0, in1, outs);
    forall n
      ensures n in DeletedAt(e, l) <==> n in (if l == level then NumbersOf(in0) else if l == level + 1 then NumbersOf(in1) else {})
    {
      if l == level && n in NumbersOf(in0) {
        assert (level, n) in e.deletedFiles;
      }
      if l == level + 1 && n in NumbersOf(in1) {
        assert (level + 1, n) in e.deletedFiles;
      }
    }
    forall f
      ensures f in FilesAt(e.newFiles, l) <==> l == level + 1 && f in outs
    {
      if l == level + 1 && f in outs {
        var i :| 0 <= i < |outs| && outs[i] == f;
        assert e.newFiles[i] == (l, f);
      }
    }
  }

  ghost function FilesIn(levels: Levels): set<FileMeta> {
    set l, f | 0 <= l < |levels| && f in levels[l] :: f
  }

  // New files have numbers of their own, or are inputs that move.
  ghost predicate Additions(outs: seq<FileMeta>, in0: seq<FileMeta>, next: nat) {
    && (forall f | f in outs :: f.number >= next || f in in0)
    && forall f, g | f in outs && g in outs && f.number == g.number :: f == g
  }

  lemma AllIdentified(levels: Levels, outs: seq<FileMeta>, in0: seq<FileMeta>, level: nat, next: nat)
    requires NumbersUsed(levels, next) && Additions(outs, in0, next) && level < |levels| && AllIn(in0, levels[level])
    ensures Identifying(FilesIn(levels) + set f | f in outs)
  {
    var u := FilesIn(levels) + set f | f in outs;
    forall f, g | f in u && g in u && f.number == g.number
      ensures f == g
    {
      if f in outs && f.number < next {
        assert f in levels[level];
      }
      if g in outs && g.number < next {
        assert g in levels[level];
      }
    }
  }

  ghost predicate Setting(levels: Levels, level: nat, in0: seq<FileMeta>, in1: seq<FileMeta>, outs: seq<FileMeta>,
                          next: nat)
  {
    && |levels| == NUM_LEVELS && level + 1 < NUM_LEVELS
    && OrderedLevels(levels) && NumbersUsed(levels, next) && Additions(outs, in0, next)
    && AllIn(in0, levels[level]) && AllIn(in1, levels[level + 1])
  }

  // What is deleted from and added to one level.
  function DeletedFrom(level: nat, in0: seq<FileMeta>, in1: seq<FileMeta>, l: nat): set<nat> {
    if l == level then NumbersOf(in0) else if l == level + 1 then NumbersOf(in1) else {}
  }

  function AddedTo(level: nat, outs: seq<FileMeta>, l: nat): set<FileMeta> {
    if l == level + 1 then set f | f in outs else {}
  }

  lemma InstalledAt(levels: Levels, level: nat, in0: seq<FileMeta>, in1: seq<FileMeta>, outs: seq<FileMeta>,
                    next: nat, l: nat)
    requires Setting(levels, level, in0, in1, outs, next) && l < NUM_LEVELS
    ensures var v, news := Installed(levels[l], CompactionEdit(level, in0, in1, outs), l), AddedTo(level, outs, l);
            && Ordered(v)
            && forall f :: f in v <==>
                 (f in levels[l] || f in news) && f.number !in DeletedFrom(level, in0, in1, l) - Numbers(news)
  {
    var e := CompactionEdit(level, in0, in1, outs);
    var u := FilesIn(levels) + set f | f in outs;
    AllIdentified(levels, outs, in0, level, next);
    EditParts(level, in0, in1, outs, l);
    OutsAreNew(levels, level, in0, outs, next);
    AddedAreKnown(e, l, level, outs, u);
    assert forall f | f in levels[l] :: f in u;
    hide Installed, Ordered, CompactionEdit, NumbersUsed, Identifying, NumbersOf, Numbers, FilesAt, DeletedAt;
    InstalledFiles(levels[l], e, l, u);
  }

  // The levels after such an edit was installed.
  lemma InstalledMoves(levels: Levels, v: Levels, level: nat, in0: seq<FileMeta>, in1: seq<FileMeta>,
                       outs: seq<FileMeta>, next: nat)
    requires Setting(levels, level, in0, in1, outs, next) && |v| == NUM_LEVELS
    requires forall l | 0 <= l < |v| :: v[l] == Installed(levels[l], CompactionEdit(level, in0, in1, outs), l)
    ensures Moved(levels, v, level, in0, in1, outs)
  {
    hide Installed, Ordered, CompactionEdit, NumbersUsed, Additions, NumbersOf, Numbers;
    forall l: nat | l < NUM_LEVELS && l != level && l != level + 1
      ensures v[l] == levels[l]
    {
      InstalledAt(levels, level, in0, in1, outs, next, l);
      OrderedUnique(v[l], levels[l]);
    }
    InstalledAt(levels, level, in0, in1, outs, next, level);
    NumberStands(levels, level, in0, next);
    InstalledAt(levels, level, in0, in1, outs, next, level + 1);
    NumberStands(levels, level + 1, in1, next);
    OutputsStay(levels, level, in0, in1, outs, next);
    NoNumbers();
  }

  lemma AddedAreKnown(e: VersionEdit, l: nat, level: nat, outs: seq<FileMeta>, u: set<FileMeta>)
    requires FilesAt(e.newFiles, l) == (if l == level + 1 then set f | f in outs else {})
    requires forall f | f in outs :: f in u
    ensures AddedFrom(e.newFiles, l, u)
  {
    forall p | p in e.newFiles && p.0 == l
      ensures p.1 in u
    {
      assert p.1 in FilesAt(e.newFiles, l);
    }
  }

  lemma OutsAreNew(levels: Levels, level: nat, in0: seq<FileMeta>, outs: seq<FileMeta>, next: nat)
    requires NumbersUsed(levels, next) && level + 1 < |levels| && Additions(outs, in0, next) && AllIn(in0, levels[level])
    ensures forall f | f in outs :: f !in levels[level + 1]
  {
  }

  // Among the files of a level a number in the set stands for a file in the list.
  lemma NumberStands(levels: Levels, l: nat, files: seq<FileMeta>, next: nat)
    requires NumbersUsed(levels, next) && l < |levels| && AllIn(files, levels[l])
    ensures forall f | f in levels[l] :: f.number in NumbersOf(files) <==> f in files
  {
  }

  lemma OutputsStay(levels: Levels, level: nat, in0: seq<FileMeta>, in1: seq<FileMeta>, outs: seq<FileMeta>, next: nat)
    requires NumbersUsed(levels, next) && level + 1 < |levels| && Additions(outs, in0, next)
    requires AllIn(in0, levels[level]) && AllIn(in1, levels[level + 1])
    ensures forall f | f in outs :: f.number !in NumbersOf(in1)
    ensures forall f | f in in1 :: f.number !in Numbers(AddedTo(level, outs, level + 1))
  {
  }

  lemma NoNumbers()
    ensures Numbers({}) == {}
  {
  }

  // WriteLevel0Table's edit.
  function FlushEdit(level: nat, f: FileMeta): VersionEdit {
    VersionEdit({}, [(level, f)])
  }

  lemma FlushParts(level: nat, f: FileMeta, l: nat)
    ensures DeletedAt(FlushEdit(level, f), l) == {}
    ensures FilesAt(FlushEdit(level, f).newFiles, l) == if l == level then {f} else {}
  {
    assert FlushEdit(level, f).newFiles[0] == (level, f);
  }

  lemma InstalledFlush(levels: Levels, v: Levels, level: nat, f: FileMeta, next: nat)
    requires |levels| == |v| && level < |levels| && OrderedLevels(levels) && NumbersUsed(levels, next)
    requires f.number >= next
    requires forall l | 0 <= l < |v| :: v[l] == Installed(levels[l], FlushEdit(level, f), l)
    ensures Replaced(levels[level], [], [f], v[level])
    ensures forall l | 0 <= l < |v| && l != level :: v[l] == levels[l]
  {
    hide Installed, Ordered, FlushEdit, NumbersUsed, Replaced;
    forall l: nat | l < |v|
      ensures if l == level then Replaced(levels[l], [], [f], v[l]) else v[l] == levels[l]
    {
      FlushedLevel(levels, level, f, next, l);
    }
  }

  lemma FlushedLevel(levels: Levels, level: nat, f: FileMeta, next: nat, l: nat)
    requires level < |levels| && OrderedLevels(levels) && NumbersUsed(levels, next) && f.number >= next && l < |levels|
    ensures var v := Installed(levels[l], FlushEdit(level, f), l);
            if l == level then Replaced(levels[l], [], [f], v) else v == levels[l]
  {
    var u := FilesIn(levels) + {f};
    assert Identifying(u);
    hide Installed, Ordered, FlushEdit, NumbersUsed, Identifying;
    FlushParts(level, f, l);
    FlushedIsNew(levels, f, next, l);
    FlushedIsKnown(levels, level, f, l, u);
    InstalledFiles(levels[l], FlushEdit(level, f), l, u);
    if l != level {
      OrderedUnique(Installed(levels[l], FlushEdit(level, f), l), levels[l]);
    }
  }

  lemma FlushedIsNew(levels: Levels, f: FileMeta, next: nat, l: nat)
    requires NumbersUsed(levels, next) && f.number >= next && l < |levels|
    ensures f !in levels[l]
  {
  }

  lemma FlushedIsKnown(levels: Levels, level: nat, f: FileMeta, l: nat, u: set<FileMeta>)
    requires l < |levels| && u == FilesIn(levels) + {f}
    ensures AddedFrom(FlushEdit(level, f).newFiles, l, u) && forall g | g in levels[l] :: g in u
  {
  }

  // ---------------------------------------------------------------------------
  // The inputs of a compaction are apart
  // ---------------------------------------------------------------------------

  // In a sound state no two files hold entries with the same key.
  lemma FilesApart(st: State, l: nat, m: nat, f: FileMeta, g: FileMeta, x: Entry, y: Entry)
    requires Structure(st) && l < NUM_LEVELS && m < NUM_LEVELS && f in st.levels[l] && g in st.levels[m] && f != g
    requires x in f.entries && y in g.entries
    ensures x.key != y.key
  {
    hide Ordered, UpTo, NewerThanFiles, NewerEntries, SeqUnique;
    if l != m {
      KeysOfNewer(if l < m then f else g, if l < m then g else f);
      assert if l < m then NewerThan(f, g) else NewerThan(g, f);
    } else if l == 0 {
      assert f.number != g.number;
      KeysOfNewer(if f.number > g.number then f else g, if f.number > g.number then g else f);
    } else {
      hide GoodFile, SortedDisjoint;
      SortedTwo(st.levels[l], f, g);
      FileBounds(f, x);
      FileBounds(g, y);
    }
  }

  lemma KeysOfNewer(f: FileMeta, g: FileMeta)
    requires NewerThan(f, g)
    ensures forall x, y | x in f.entries && y in g.entries :: x.key != y.key
  {
  }

  lemma InputsApart(st: State, level: nat, in0: seq<FileMeta>, in1: seq<FileMeta>)
    requires Structure(st) && level + 1 < NUM_LEVELS && CompactionInputs(st.levels, level, in0, in1)
    ensures Apart(in0 + in1) && SortedDisjoint(in1) && (level > 0 ==> SortedDisjoint(in0))
    ensures AllIn(in0, st.levels[level]) && AllIn(in1, st.levels[level + 1]) && GoodFiles(in0 + in1)
  {
    InputsInLevels(st.levels, level, in0, in1);
    SelectedSorted(st.levels, level, in0, in1);
    NumbersInUse(st);
    InputsDistinct(st.levels, level, in0, in1, st.nextFile);
    InputsGood(st, level, in0, in1);
    hide Structure, GoodFile, CompactionInputs, SortedDisjoint, NoDuplicates;
    var all := in0 + in1;
    forall f, g, x, y | f in all && g in all && f != g && x in f.entries && y in g.entries
      ensures x.key != y.key
    {
      FilesApart(st, if f in in0 then level else level + 1, if g in in0 then level else level + 1, f, g, x, y);
    }
  }

  lemma NumbersInUse(st: State)
    requires Structure(st)
    ensures |st.levels| == NUM_LEVELS && NumbersUsed(st.levels, st.nextFile)
  {
  }

  lemma InputsGood(st: State, level: nat, in0: seq<FileMeta>, in1: seq<FileMeta>)
    requires Structure(st) && level + 1 < NUM_LEVELS && AllIn(in0, st.levels[level]) && AllIn(in1, st.levels[level + 1])
    ensures GoodFiles(in0 + in1)
  {
    hide GoodFile, AgeOrdered, SeqUnique;
  }

  lemma SelectedSorted(levels: Levels, level: nat, in0: seq<FileMeta>, in1: seq<FileMeta>)
    requires SortedLevels(levels) && level + 1 < NUM_LEVELS && CompactionInputs(levels, level, in0, in1)
    ensures SortedDisjoint(in1) && (level > 0 ==> SortedDisjoint(in0)) && NoDuplicates(in0) && NoDuplicates(in1)
  {
    hide GoodFile, SortedDisjoint, NoDuplicates, LeftOutPrecedes;
    var lo, hi :| && IsSmallestKey(in0, lo) && IsLargestKey(in0, hi)
                  && in1 == Select(levels[level + 1], Some(lo.user), Some(hi.user));
    var i, j := SelectIsSlice(levels[level + 1], Some(lo.user), Some(hi.user));
    SliceSorted(levels[level + 1], i, j);
    SortedNoDuplicates(levels[level + 1]);
    SelectNoDuplicates(levels[level + 1], Some(lo.user), Some(hi.user));
  }

  lemma SliceSorted(files: seq<FileMeta>, i: nat, j: nat)
    requires SortedDisjoint(files) && i <= j <= |files|
    ensures SortedDisjoint(files[i..j])
  {
  }

  lemma InputsDistinct(levels: Levels, level: nat, in0: seq<FileMeta>, in1: seq<FileMeta>, next: nat)
    requires |levels| == NUM_LEVELS && NumbersUsed(levels, next) && level + 1 < NUM_LEVELS
    requires AllIn(in0, levels[level]) && AllIn(in1, levels[level + 1])
    requires NoDuplicates(in0) && NoDuplicates(in1)
    ensures NoDuplicates(in0 + in1)
  {
    var all := in0 + in1;
    forall i, j | 0 <= i < j < |all|
      ensures all[i] != all[j]
    {
      if i < |in0| && j >= |in0| {
        assert all[i] in levels[level] && all[j] in levels[level + 1];
      }
    }
  }

  // ---------------------------------------------------------------------------
  // The database
  // ---------------------------------------------------------------------------

  class DB {
    const versions: VersionSet
    const tableSize: seq<Entry> -> nat   // TableBuilder::FileSize after these entries
    var mem: MemTable
    var imm: MemTable?
    var lastSequence: nat
    var snapshots: seq<nat>
    var nextFile: nat
    // What the two memtables hold.
    ghost var memory: seq<Entry>
    ghost var frozen: Option<seq<Entry>>
    ghost var memParts: set<object>
    ghost var immParts: set<object>
    ghost var history: set<Entry>
    ghost var floor: nat

    ghost function State(): State
      reads this, versions`files
    {
      Database.State(memory, frozen, versions.files, lastSequence, snapshots, nextFile, history, floor)
    }

    ghost predicate Valid()
      reads this, versions`files, versions`compactPointer, memParts, immParts
    {
      && Structure(State()) && |versions.compactPointer| == NUM_LEVELS
      && Held(mem, memParts, Some(memory)) && Held(imm, immParts, frozen)
      && (imm == null <==> frozen == None)
      && memParts !! immParts && this !in memParts + immParts && versions !in memParts + immParts
    }

    constructor (maxFileSize: nat, tableSize: seq<Entry> -> nat)
      ensures Valid() && Initial(State()) && ReadsAgree(State()) && fresh(versions)
      ensures versions.maxFileSize == maxFileSize && this.tableSize == tableSize
      ensures versions.compactPointer == seq(NUM_LEVELS, _ => None)
    {
      hide Structure, Held, MemTable.Valid, MemTable.Contents, MemTable.Parts, ReadsAgree, VersionSet.Valid;
      versions := new VersionSet(maxFileSize);
      this.tableSize := tableSize;
      mem := new MemTable();
      imm := null;
      lastSequence, snapshots, nextFile := 0, [], 2;
      memory, frozen, history, floor := [], None, {}, 0;
      memParts, immParts := {}, {};
      new;
      memParts := mem.Parts();
      IsHeld(mem);
      NoneHeld();
      InitialInvariants(State());
    }

    // A batch that starts at the sequence number after the last. The heights are what the skip list draws.
    method Write(batch: seq<Change>, heights: seq<nat>)
      requires Valid() && lastSequence + |batch| < MAX_SEQUENCE && HeightsFor(batch, heights)
      modifies this`memory, this`memParts, this`lastSequence, this`history, memParts
      ensures Valid() && |old(State()).levels| == NUM_LEVELS && Next(old(State()), State(), Database.Write(batch))
    {
      hide Structure, Held, BatchEntries;
      ghost var st := State();
      LevelsHave(st);
      memory, memParts := InsertInto(mem, memParts, batch, lastSequence + 1, heights, st);
      assert batch[..|batch|] == batch;
      history := history + BatchEntries(batch, lastSequence + 1);
      lastSequence := lastSequence + |batch|;
      StepKeepsStructure(st, State(), Database.Write(batch));
    }

    // The switch in MakeRoomForWrite.
    method SwitchMemTable()
      requires Valid() && imm == null
      modifies this`mem, this`imm, this`memory, this`frozen, this`memParts, this`immParts
      ensures Valid() && |old(State()).levels| == NUM_LEVELS && Next(old(State()), State(), Switch)
    {
      hide Structure, Held, MemTable.Valid, MemTable.Contents, MemTable.Parts;
      ghost var st := State();
      LevelsHave(st);
      imm, frozen, immParts := mem, Some(memory), memParts;
      mem := new MemTable();
      IsHeld(mem);
      memory, memParts := [], mem.Parts();
      StepKeepsStructure(st, State(), Switch);
    }

    // CompactMemTable, as one step.
    method CompactMemTable() returns (ghost step: Step)
      requires Valid() && imm != null
      modifies this`imm, this`frozen, this`immParts, this`nextFile, versions`files
      ensures Valid() && step.Flush? && |old(State()).levels| == NUM_LEVELS && Next(old(State()), State(), step)
      ensures Flushes(old(State()), step, versions.maxFileSize, tableSize)
    {
      hide Structure, Held, Next, Flushes, MemTable.Valid, MemTable.Contents, MemTable.Parts;
      ghost var st := State();
      LevelsHave(st);
      HeldIs(imm, immParts, frozen);
      var entries := imm.Entries();
      imm, frozen, immParts := null, None, {};
      NoneHeld();
      if entries == [] {
        step := Flush(0, NoTable());
        NothingFlushed(st, State(), step, versions.maxFileSize, tableSize);
      } else {
        step := WriteLevel0Table(entries, st);
      }
      LevelsHave(st);
      StepKeepsStructure(st, State(), step);
    }

    // WriteLevel0Table, with its edit installed.
    method WriteLevel0Table(entries: seq<Entry>, ghost st: State) returns (ghost step: Step)
      requires Structure(st) && |st.levels| == NUM_LEVELS && st.imm == Some(entries) && entries != []
      requires versions.files == st.levels && nextFile == st.nextFile
      modifies this`nextFile, versions`files
      ensures Next(st, st.(imm := None, levels := versions.files, nextFile := nextFile), step) && step.Flush?
      ensures Flushes(st, step, versions.maxFileSize, tableSize)
    {
      hide Structure, OrderedLevels, NumbersUsed, SortedLevels, FlushStep, Touches, Installed, Replaced, FlushEdit, Next;
      hide CanPush;
      SoundLevels(st);
      var meta := MakeFile(nextFile, entries, tableSize(entries));
      var level := PickLevelForMemTableOutput(versions.files, versions.maxFileSize,
                                              meta.smallest.user, meta.largest.user);
      FlushInLevels(level, meta);
      var v := LogAndApply(versions.files, FlushEdit(level, meta));
      InstalledFlush(versions.files, v, level, meta, nextFile);
      versions.files := v;
      nextFile := nextFile + 1;
      step := Flush(level, meta);
      TableFlushed(st, st.(imm := None, levels := v, nextFile := nextFile), level, meta);
    }

    // BackgroundCompaction once there is no immutable memtable. The choice of level and file by statistics
    // arrives as the trigger.
    method BackgroundCompaction(trigger: Trigger) returns (ghost step: Option<Step>)
      requires Valid() && imm == null
      requires trigger.BySize? ==> trigger.level + 1 < NUM_LEVELS && versions.files[trigger.level] != []
      requires trigger.BySeek? ==> trigger.level + 1 < NUM_LEVELS && trigger.file in versions.files[trigger.level]
      modifies this`nextFile, this`floor, versions`files, versions`compactPointer
      ensures Valid() && |old(State()).levels| == NUM_LEVELS
      ensures step.None? ==> trigger.Nothing? && State() == old(State())
      ensures step.Some? ==> !trigger.Nothing? && Next(old(State()), State(), step.value)
      ensures step.Some? ==>
                && CarriesOut(old(State()), step.value, old(versions.compactPointer), trigger, versions.maxFileSize, tableSize)
                && PointerMoves(old(versions.compactPointer), versions.compactPointer, trigger.level,
                                FirstInputs(step.value))
    {
      hide Structure, Held, OrderedLevels, NumbersUsed, SortedLevels, CompactionInputs, Next, CarriesOut, Picked, Cuts,
           GrandparentsOf, PointerMoves, TotalFileSize;
      ghost var st := State();
      SoundLevels(st);
      var c := versions.PickCompaction(trigger);
      if c == null {
        return None;
      }
      if c.IsTrivialMove(versions.maxFileSize) {
        var f := c.inputs0[0];
        assert c.inputs0 == [f] && c.inputs1 == [];
        step := MoveFile(c.level, f, st);
      } else {
        step := RunCompaction(c.level, c.inputs0, c.inputs1, c.grandparents, st);
      }
      StepIs(st, step.value, old(versions.compactPointer), trigger, versions.maxFileSize, tableSize, c.grandparents);
    }

    // The manual branch of BackgroundCompaction: one compaction of a range, which never moves files.
    method ManualCompaction(level: nat, begin: Option<InternalKey>, end: Option<InternalKey>)
      returns (manualEnd: Option<InternalKey>, ghost step: Option<Step>)
      requires Valid() && imm == null && level + 1 < NUM_LEVELS
      modifies this`nextFile, this`floor, versions`files, versions`compactPointer
      ensures Valid() && |old(State()).levels| == NUM_LEVELS && (manualEnd.None? <==> step.None?)
      ensures step.None? ==> State() == old(State()) && NoneOverlap(versions.files[level], UserOf(begin), UserOf(end))
      ensures step.Some? ==> step.value.Compact? && Next(old(State()), State(), step.value)
      ensures step.Some? ==>
                && step.value.job.level == level && manualEnd == Some(LastOf(step.value.job.in0))
                && Compacts(old(State()), step.value.job, UserOf(begin), UserOf(end), versions.maxFileSize, tableSize)
                && PointerMoves(old(versions.compactPointer), versions.compactPointer, level, step.value.job.in0)
      ensures step.Some? ==> OnlyNear(old(versions.files), versions.files, level)
      ensures step.Some? ==> Listed(versions.files[level]) < Listed(old(versions.files[level]))
      ensures step.Some? ==> Remain(versions.files[level], UserOf(begin), UserOf(end), UserOf(manualEnd))
    {
      hide Structure, Held, OrderedLevels, NumbersUsed, SortedLevels, CompactionInputs, LeftBeyond, OnlyNear, Remain,
           Next, FromRange, GrandparentsOf, Cuts, Compacts, PointerMoves;
      ghost var st := State();
      SoundLevels(st);
      var c := versions.CompactRange(level, begin, end);
      if c == null {
        return None, None;
      }
      manualEnd := Some(c.inputs0[|c.inputs0| - 1].largest);
      step := RunCompaction(c.level, c.inputs0, c.inputs1, c.grandparents, st);
      ManualMoves(st, State(), step.value.job, UserOf(begin), UserOf(end));
      RangeIs(st, step.value.job, UserOf(begin), UserOf(end), versions.maxFileSize, tableSize, c.grandparents);
    }

    // TEST_CompactRange: one compaction after the other, each from where the last one ended.
    method CompactLevel(level: nat, begin: Option<UserKey>, end: Option<UserKey>)
      returns (ghost states: seq<Database.State>, ghost steps: seq<Step>)
      requires Valid() && imm == null && level + 1 < NUM_LEVELS
      modifies this`nextFile, this`floor, versions`files, versions`compactPointer
      ensures Valid() && Path(old(State()), State(), states, steps) && |versions.files| == NUM_LEVELS
      ensures RangeSteps(states, steps, begin, end, versions.maxFileSize, tableSize) && AllAt(steps, level)
      ensures NoneOverlap(versions.files[level], begin, end)
      ensures OnlyNear(old(versions.files), versions.files, level)
    {
      hide Structure, Held, OnlyNear, Remain, Next, NoneOverlap, Path, Compacts, RangeSteps, AllAt, PointerMoves;
      LevelsHave(State());
      var from := if begin.None? then None else Some(SeekKey(begin.value, MAX_SEQUENCE));
      var to := if end.None? then None else Some(InternalKey(end.value, 0, TypeDeletion));
      states, steps := [State()], [];
      NothingCompacted(State(), level, begin, end);
      NoRangeStep(State(), begin, end, versions.maxFileSize, tableSize, level);
      var done := false;
      while !done
        invariant Valid() && imm == null && Path(old(State()), State(), states, steps)
        invariant |versions.files| == NUM_LEVELS
        invariant Remain(versions.files[level], begin, end, UserOf(from)) && UserOf(to) == end
        invariant OnlyNear(old(versions.files), versions.files, level)
        invariant RangeSteps(states, steps, begin, end, versions.maxFileSize, tableSize) && AllAt(steps, level)
        invariant UserOf(from) == LeftFrom(steps, begin)
        invariant done ==> NoneOverlap(versions.files[level], UserOf(from), end)
        decreases Listed(versions.files[level]), !done
      {
        ghost var st := State();
        LevelsHave(st);
        var manualEnd;
        ghost var step;
        manualEnd, step := ManualCompaction(level, from, to);
        LevelsHave(State());
        if manualEnd.None? {
          done := true;
        } else {
          PathExtends(old(State()), st, State(), states, steps, step.value);
          OneMoreOfRange(states, steps, State(), step.value.job, begin, end, versions.maxFileSize, tableSize);
          states, steps := states + [State()], steps + [step.value];
          StillRemain(st.levels[level], versions.files[level], begin, end, UserOf(from), UserOf(manualEnd));
          StillNear(old(versions.files), st.levels, versions.files, level);
          from := manualEnd;
        }
      }
      NoneRemain(versions.files[level], begin, end, UserOf(from));
    }

    // TEST_CompactMemTable.
    method CompactMemTables() returns (ghost states: seq<Database.State>, ghost steps: seq<Step>)
      requires Valid()
      modifies this`mem, this`imm, this`memory, this`frozen, this`memParts, this`immParts,
               this`nextFile, versions`files
      ensures Valid() && memory == [] && imm == null && Path(old(State()), State(), states, steps)
      ensures FlushSteps(states, steps, versions.maxFileSize, tableSize)
    {
      hide Structure, Held, Path, Next, Flushes, MemTable.Valid, MemTable.Contents, MemTable.Parts, NumbersUsed;
      ghost var st := State();
      ghost var step;
      states, steps := [st], [];
      NoPath(st);
      LevelsHave(st);
      if imm != null {
        step := CompactMemTable();
        PathExtends(old(State()), st, State(), states, steps, step);
        FlushKeepsMemory(st, State(), step);
        st, states, steps := State(), states + [State()], steps + [step];
        LevelsHave(st);
      }
      SwitchMemTable();
      Switches(st, State());
      PathExtends(old(State()), st, State(), states, steps, Switch);
      st, states, steps := State(), states + [State()], steps + [Switch];
      LevelsHave(st);
      step := CompactMemTable();
      PathExtends(old(State()), st, State(), states, steps, step);
      FlushKeepsMemory(st, State(), step);
      states, steps := states + [State()], steps + [step];
      LevelsHave(State());
    }

    // CompactRange: the memtables, then every level above the deepest one, m, that had files in the range. What is in
    // the range ends up at level m or below.
    method CompactRange(begin: Option<UserKey>, end: Option<UserKey>)
      returns (m: nat, ghost states: seq<Database.State>, ghost steps: seq<Step>)
      requires Valid()
      modifies this`mem, this`imm, this`memory, this`frozen, this`memParts, this`immParts,
               this`nextFile, this`floor, versions`files, versions`compactPointer
      ensures Valid() && memory == [] && imm == null && Path(old(State()), State(), states, steps)
      ensures RangeSteps(states, steps, begin, end, versions.maxFileSize, tableSize) && AllAbove(steps, m)
      ensures 1 <= m < NUM_LEVELS && (m > 1 ==> !NoneOverlap(old(versions.files)[m], begin, end))
      ensures forall l | m < l < NUM_LEVELS :: NoneOverlap(old(versions.files)[l], begin, end)
      ensures forall l | 0 <= l < m :: NoneOverlap(versions.files[l], begin, end)
    {
      hide Structure, Held, NoneOverlap, Next, Path, SortedLevels, RangeSteps, AllAbove, AllAt, FlushSteps;
      m := DeepestOverlap(begin, end);
      states, steps := CompactMemTables();
      FlushStepsAre(states, steps, begin, end, versions.maxFileSize, tableSize);
      LevelsHave(State());
      var level := 0;
      while level < m
        invariant Valid() && memory == [] && imm == null && Path(old(State()), State(), states, steps)
        invariant 0 <= level <= m && |versions.files| == NUM_LEVELS
        invariant RangeSteps(states, steps, begin, end, versions.maxFileSize, tableSize) && AllAbove(steps, level)
        invariant forall l | 0 <= l < level :: NoneOverlap(versions.files[l], begin, end)
      {
        ghost var st := State();
        ghost var states', steps' := CompactLevel(level, begin, end);
        LevelsHave(State());
        PathsJoin(old(State()), st, State(), states, steps, states', steps');
        RangeStepsJoin(states, steps, states', steps', begin, end, versions.maxFileSize, tableSize, level);
        states, steps := states[..|states| - 1] + states', steps + steps';
        level := level + 1;
      }
    }

    // The level loop at the start of CompactRange.
    method DeepestOverlap(begin: Option<UserKey>, end: Option<UserKey>) returns (m: nat)
      requires Valid()
      ensures |versions.files| == NUM_LEVELS
      ensures 1 <= m < NUM_LEVELS && (m > 1 ==> !NoneOverlap(versions.files[m], begin, end))
      ensures forall l | m < l < NUM_LEVELS :: NoneOverlap(versions.files[l], begin, end)
    {
      hide Structure, Held, NoneOverlap, Overlaps;
      SoundLevels(State());
      m := 1;
      var level := 1;
      while level < NUM_LEVELS
        invariant 1 <= level <= NUM_LEVELS && 1 <= m < NUM_LEVELS
        invariant m > 1 ==> !NoneOverlap(versions.files[m], begin, end)
        invariant forall l | m < l < level :: NoneOverlap(versions.files[l], begin, end)
      {
        var overlap := SomeFileOverlapsRange(level > 0, versions.files[level], begin, end);
        OverlapIs(versions.files[level], begin, end, overlap);
        if overlap {
          m := level;
        }
        level := level + 1;
      }
    }

    // The trivial move in BackgroundCompaction.
    method MoveFile(level: nat, f: FileMeta, ghost st: Database.State) returns (ghost step: Option<Step>)
      requires Valid() && st == State() && level + 1 < NUM_LEVELS && |st.levels| == NUM_LEVELS
      requires CompactionInputs(st.levels, level, [f], [])
      modifies versions`files
      ensures Valid() && step == Some(Move(level, f)) && Next(st, State(), step.value)
    {
      hide Structure, Held, OrderedLevels, NumbersUsed, SortedLevels, CompactionInputs, CompactionEdit, Installed, Moved;
      SoundLevels(st);
      CompactionInLevels(level, [f], [], [f]);
      var v := LogAndApply(versions.files, CompactionEdit(level, [f], [], [f]));
      MoveSetting(st, level, f);
      InstalledMoves(st.levels, v, level, [f], [], [f], st.nextFile);
      versions.files := v;
      step := Some(Move(level, f));
      StepKeepsStructure(st, State(), step.value);
    }

    // DoCompactionWork and InstallCompactionResults, as one step.
    method RunCompaction(level: nat, in0: seq<FileMeta>, in1: seq<FileMeta>, grandparents: seq<FileMeta>,
                         ghost st: Database.State)
      returns (ghost step: Option<Step>)
      requires Valid() && st == State() && level + 1 < NUM_LEVELS && |st.levels| == NUM_LEVELS
      requires CompactionInputs(st.levels, level, in0, in1) && GrandparentsOf(st.levels, level, in0, in1, grandparents)
      modifies this`nextFile, this`floor, versions`files
      ensures Valid() && step.Some? && step.value.Compact? && Next(st, State(), step.value)
      ensures step.value.job.level == level && step.value.job.in0 == in0 && step.value.job.in1 == in1
      ensures Cuts(step.value.job, grandparents, versions.maxFileSize, tableSize)
    {
      hide Structure, Held, OrderedLevels, NumbersUsed, SortedLevels, CompactionInputs, CompactionEdit, Installed, Moved,
           Apart, SortedDisjoint, MergeOf, OutputsOf, Survivors, Next, WellCut, StopKeys, GrandparentsOf, CompactionScan.Valid,
           CompactionScan.AtStart, Setting, GoodFiles;
      SoundLevels(st);
      GrandparentsSound(st, level, in0, in1, grandparents);
      InputsApart(st, level, in0, in1);
      var merged := MergeFiles(level, in0, in1);
      MergedIsLegal(st, level, in0, in1, merged);
      var smallestSnapshot := if snapshots == [] then lastSequence else snapshots[0];
      var scan := new CompactionScan(versions.files, level, grandparents, versions.maxFileSize);
      var outs := DoCompactionWork(scan, merged, smallestSnapshot, nextFile, tableSize);
      CompactSetting(st, level, in0, in1, outs, Survivors(st.levels, level, merged, |merged|, smallestSnapshot));
      InstallCompactionResults(level, in0, in1, outs);
      floor := smallestSnapshot;
      ghost var job := Job(level, in0, in1, merged, outs);
      step := Some(Compact(job));
      Compacted(st, State(), job);
      StepKeepsStructure(st, State(), step.value);
    }

    method InstallCompactionResults(level: nat, in0: seq<FileMeta>, in1: seq<FileMeta>, outs: seq<FileMeta>)
      requires Setting(versions.files, level, in0, in1, outs, nextFile)
      modifies this`nextFile, versions`files
      ensures Moved(old(versions.files), versions.files, level, in0, in1, outs)
      ensures |versions.files| == NUM_LEVELS && nextFile == old(nextFile) + |outs|
    {
      hide CompactionEdit, Installed, Moved, OrderedLevels, NumbersUsed, Additions;
      CompactionInLevels(level, in0, in1, outs);
      var v := LogAndApply(versions.files, CompactionEdit(level, in0, in1, outs));
      InstalledMoves(versions.files, v, level, in0, in1, outs, nextFile);
      versions.files := v;
      nextFile := nextFile + |outs|;
    }

    // GetSnapshot and ReleaseSnapshot.
    method GetSnapshot() returns (s: nat)
      requires Valid()
      modifies this`snapshots
      ensures Valid() && |old(State()).levels| == NUM_LEVELS && Next(old(State()), State(), TakeSnapshot)
      ensures s == lastSequence
    {
      hide Structure, Held;
      ghost var st := State();
      LevelsHave(st);
      s := lastSequence;
      snapshots := snapshots + [s];
      StepKeepsStructure(st, State(), TakeSnapshot);
    }

    method Release(index: nat)
      requires Valid() && index < |snapshots|
      modifies this`snapshots
      ensures Valid() && |old(State()).levels| == NUM_LEVELS && Next(old(State()), State(), ReleaseSnapshot(index))
    {
      hide Structure, Held;
      ghost var st := State();
      LevelsHave(st);
      snapshots := snapshots[..index] + snapshots[index + 1..];
      StepKeepsStructure(st, State(), ReleaseSnapshot(index));
    }

    // The memtables, each file of level 0, and each deeper level as one run.
    method NewInternalIterator() returns (it: MergingIterator)
      requires Valid()
      ensures it.Good() && fresh(it) && fresh(it.Parts()) && ToSet(it.all) == All(State())
    {
      hide Structure, Held, Collected, KeysApart, Union, MergingIterator.Good, Runs, Stored;
      ghost var st := State();
      SoundLevels(st);
      MemoryCollected(st);
      HeldIs(mem, memParts, Some(memory));
      var entries := mem.Entries();
      var lists := [entries];
      if imm != null {
        HeldIs(imm, immParts, frozen);
        entries := imm.Entries();
        lists := lists + [entries];
      }
      assert lists == if st.imm.Some? then [st.mem, st.imm.value] else [st.mem];
      var l := 0;
      while l < NUM_LEVELS
        invariant 0 <= l <= NUM_LEVELS && Collected(st, lists, l)
      {
        LevelCollected(st, lists, l);
        lists := lists + Runs(l, versions.files[l]);
        l := l + 1;
      }
      AllCollected(st);
      CollectedApart(st, lists, l);
      it := NewMergingIterator(lists);
    }

    // An iterator at a snapshot: a cursor on the sorted map of what was written, as the snapshot sees it.
    method NewIterator(s: nat) returns (it: DBIter)
      requires Valid() && ReadsAgree(State()) && s >= floor
      ensures it.Good() && !it.valid && fresh(it) && it.sequence == s
      ensures forall u: UserKey, v :: (u, v) in it.Keys() <==> Read(history, u, s) == Some(v)
      ensures forall i, j | 0 <= i < j < |it.Keys()| :: it.Keys()[i].0 < it.Keys()[j].0
    {
      hide Structure, Held, ReadsAgree, MergingIterator.Good, DBIter.Good, View, ToSet, Read;
      var inner := NewInternalIterator();
      it := new DBIter(inner, s);
      ViewIsHistory(State(), inner.all, s);
    }

    // DBImpl::Get at a snapshot: what was written.
    method Get(u: UserKey, s: nat) returns (r: Option<string>)
      requires Valid() && ReadsAgree(State()) && s >= floor
      ensures r == Read(history, u, s)
    {
      hide Structure, Held, ReadsAgree, Read, Stored, StoreInvariant, Held;
      ReadsHistory(State(), u, s);
      r := MemTables.Get(mem, imm, versions.files, u, s, memory, frozen, memParts, immParts);
    }
  }

  // ---------------------------------------------------------------------------
  // Which step it is
  // ---------------------------------------------------------------------------

  // The immutable memtable goes to one table, as deep as it can be pushed.
  ghost predicate Flushes(st: State, step: Step, maxFileSize: nat, tableSize: seq<Entry> -> nat)
    requires |st.levels| == NUM_LEVELS
  {
    && step.Flush? && st.imm.Some?
    && var es, f := st.imm.value, step.table;
       if es == [] then step == Flush(0, NoTable())
       else
         && f == MakeFile(st.nextFile, es, tableSize(es))
         && DeepestPush(st.levels, maxFileSize, f.smallest.user, f.largest.user, step.flushLevel)
  }

  // The outputs end where they are full or the grandparents make them stop, and nowhere else.
  ghost predicate Cuts(job: Job, grandparents: seq<FileMeta>, maxFileSize: nat, tableSize: seq<Entry> -> nat) {
    WellCut(job.outs, StopKeys(grandparents, maxFileSize, job.merged, |job.merged|), tableSize, maxFileSize)
  }

  // The compaction of a range.
  ghost predicate Compacts(st: State, job: Job, begin: Option<UserKey>, end: Option<UserKey>, maxFileSize: nat,
                           tableSize: seq<Entry> -> nat)
    requires |st.levels| == NUM_LEVELS
  {
    && job.level + 1 < NUM_LEVELS && FromRange(st.levels, maxFileSize, job.level, begin, end, job.in0, job.in1)
    && exists grandparents ::
         && GrandparentsOf(st.levels, job.level, job.in0, job.in1, grandparents)
         && Cuts(job, grandparents, maxFileSize, tableSize)
  }

  // The inputs can move as they are: one file, nothing to merge it with, and little two levels down.
  ghost predicate Trivial(in0: seq<FileMeta>, in1: seq<FileMeta>, grandparents: seq<FileMeta>, maxFileSize: nat) {
    |in0| == 1 && in1 == [] && TotalFileSize(grandparents) <= MaxGrandParentOverlapBytes(maxFileSize)
  }

  function FirstInputs(step: Step): seq<FileMeta> {
    match step
    case Compact(job) => job.in0
    case Move(_, file) => [file]
    case _ => []
  }

  // What a trigger leads to: the files PickCompaction picks move or are merged.
  ghost predicate CarriesOut(st: State, step: Step, pointers: seq<Option<InternalKey>>, trigger: Trigger,
                          maxFileSize: nat, tableSize: seq<Entry> -> nat)
    requires |st.levels| == NUM_LEVELS
  {
    && !trigger.Nothing? && trigger.level + 1 < NUM_LEVELS
    && exists grandparents :: CarriesOutWith(st, step, pointers, trigger, maxFileSize, tableSize, grandparents)
  }

  ghost predicate CarriesOutWith(st: State, step: Step, pointers: seq<Option<InternalKey>>, trigger: Trigger,
                              maxFileSize: nat, tableSize: seq<Entry> -> nat, grandparents: seq<FileMeta>)
    requires |st.levels| == NUM_LEVELS && !trigger.Nothing? && trigger.level + 1 < NUM_LEVELS
  {
    match step
    case Move(level, file) =>
      && level == trigger.level && Picked(st.levels, maxFileSize, pointers, trigger, [file], [])
      && GrandparentsOf(st.levels, level, [file], [], grandparents) && Trivial([file], [], grandparents, maxFileSize)
    case Compact(job) =>
      && job.level == trigger.level && Picked(st.levels, maxFileSize, pointers, trigger, job.in0, job.in1)
      && GrandparentsOf(st.levels, job.level, job.in0, job.in1, grandparents)
      && !Trivial(job.in0, job.in1, grandparents, maxFileSize) && Cuts(job, grandparents, maxFileSize, tableSize)
    case _ => false
  }

  lemma StepIs(st: State, step: Step, pointers: seq<Option<InternalKey>>, trigger: Trigger, maxFileSize: nat,
               tableSize: seq<Entry> -> nat, grandparents: seq<FileMeta>)
    requires |st.levels| == NUM_LEVELS && !trigger.Nothing? && trigger.level + 1 < NUM_LEVELS
    requires CarriesOutWith(st, step, pointers, trigger, maxFileSize, tableSize, grandparents)
    ensures CarriesOut(st, step, pointers, trigger, maxFileSize, tableSize)
  {
  }

  lemma RangeIs(st: State, job: Job, begin: Option<UserKey>, end: Option<UserKey>, maxFileSize: nat,
                tableSize: seq<Entry> -> nat, grandparents: seq<FileMeta>)
    requires |st.levels| == NUM_LEVELS && job.level + 1 < NUM_LEVELS
    requires FromRange(st.levels, maxFileSize, job.level, begin, end, job.in0, job.in1)
    requires GrandparentsOf(st.levels, job.level, job.in0, job.in1, grandparents)
    requires Cuts(job, grandparents, maxFileSize, tableSize)
    ensures Compacts(st, job, begin, end, maxFileSize, tableSize)
  {
    hide FromRange, GrandparentsOf, Cuts;
  }

  function LastOf(files: seq<FileMeta>): InternalKey {
    if files == [] then InternalKey(0.0, 0, TypeDeletion) else files[|files| - 1].largest
  }

  // Step i is one that compacting a range takes: a switch, a flush, or the compaction of what is left of the range, from
  // where the compaction of the level before it ended.
  ghost predicate RangeStep(states: seq<State>, steps: seq<Step>, i: nat, begin: Option<UserKey>,
                            end: Option<UserKey>, maxFileSize: nat, tableSize: seq<Entry> -> nat)
    requires i < |steps| < |states| && |states[i].levels| == NUM_LEVELS
  {
    match steps[i]
    case Switch => true
    case Flush(_, _) => Flushes(states[i], steps[i], maxFileSize, tableSize)
    case Compact(job) =>
      var goesOn := i > 0 && steps[i - 1].Compact? && steps[i - 1].job.level == job.level;
      var from := if goesOn then Some(LastOf(steps[i - 1].job.in0).user) else begin;
      Compacts(states[i], job, from, end, maxFileSize, tableSize)
    case _ => false
  }

  ghost predicate RangeSteps(states: seq<State>, steps: seq<Step>, begin: Option<UserKey>, end: Option<UserKey>,
                             maxFileSize: nat, tableSize: seq<Entry> -> nat)
  {
    && |states| == |steps| + 1
    && forall i | 0 <= i < |steps| ::
         |states[i].levels| == NUM_LEVELS && RangeStep(states, steps, i, begin, end, maxFileSize, tableSize)
  }

  ghost predicate AllAt(steps: seq<Step>, level: nat) {
    forall s | s in steps :: s.Compact? && s.job.level == level
  }

  ghost predicate AllAbove(steps: seq<Step>, level: nat) {
    forall s | s in steps && s.Compact? :: s.job.level < level
  }

  // Where a level's next compaction starts.
  ghost function LeftFrom(steps: seq<Step>, begin: Option<UserKey>): Option<UserKey> {
    if steps == [] then begin
    else
      var last := steps[|steps| - 1];
      if last.Compact? then Some(LastOf(last.job.in0).user) else begin
  }

  lemma NoRangeStep(st: State, begin: Option<UserKey>, end: Option<UserKey>, maxFileSize: nat,
                    tableSize: seq<Entry> -> nat, level: nat)
    ensures RangeSteps([st], [], begin, end, maxFileSize, tableSize) && AllAt([], level)
  {
  }

  lemma OneMoreOfRange(states: seq<State>, steps: seq<Step>, st': State, job: Job, begin: Option<UserKey>,
                       end: Option<UserKey>, maxFileSize: nat, tableSize: seq<Entry> -> nat)
    requires RangeSteps(states, steps, begin, end, maxFileSize, tableSize) && AllAt(steps, job.level)
    requires |states[|steps|].levels| == NUM_LEVELS
    requires Compacts(states[|steps|], job, LeftFrom(steps, begin), end, maxFileSize, tableSize)
    ensures RangeSteps(states + [st'], steps + [Compact(job)], begin, end, maxFileSize, tableSize)
    ensures AllAt(steps + [Compact(job)], job.level) && LeftFrom(steps + [Compact(job)], begin) == Some(LastOf(job.in0).user)
  {
    hide Compacts, Flushes;
    var all, done, n := states + [st'], steps + [Compact(job)], |steps|;
    forall i | 0 <= i < |done|
      ensures |all[i].levels| == NUM_LEVELS && RangeStep(all, done, i, begin, end, maxFileSize, tableSize)
    {
      if i < n {
        assert RangeStep(states, steps, i, begin, end, maxFileSize, tableSize);
      } else if n > 0 {
        assert steps[n - 1] in steps;
      }
    }
  }

  // Flushing both memtables: the immutable one if there is one, then the other.
  ghost predicate FlushSteps(states: seq<State>, steps: seq<Step>, maxFileSize: nat, tableSize: seq<Entry> -> nat) {
    && 2 <= |steps| <= 3 && |states| == |steps| + 1
    && (forall s | s in states :: |s.levels| == NUM_LEVELS)
    && steps[|steps| - 2].Switch? && (|steps| == 3 <==> states[0].imm.Some?)
    && forall i | 0 <= i < |steps| && i != |steps| - 2 :: Flushes(states[i], steps[i], maxFileSize, tableSize)
  }

  lemma FlushStepsAre(states: seq<State>, steps: seq<Step>, begin: Option<UserKey>, end: Option<UserKey>,
                      maxFileSize: nat, tableSize: seq<Entry> -> nat)
    requires FlushSteps(states, steps, maxFileSize, tableSize)
    ensures RangeSteps(states, steps, begin, end, maxFileSize, tableSize) && AllAbove(steps, 0)
  {
    hide DeepestPush, MakeFile;
  }

  // The steps of one more level follow those of the levels above it.
  lemma RangeStepsJoin(states: seq<State>, steps: seq<Step>, states': seq<State>, steps': seq<Step>,
                       begin: Option<UserKey>, end: Option<UserKey>, maxFileSize: nat, tableSize: seq<Entry> -> nat,
                       level: nat)
    requires RangeSteps(states, steps, begin, end, maxFileSize, tableSize) && AllAbove(steps, level)
    requires RangeSteps(states', steps', begin, end, maxFileSize, tableSize) && AllAt(steps', level)
    requires states[|steps|] == states'[0]
    ensures RangeSteps(states[..|states| - 1] + states', steps + steps', begin, end, maxFileSize, tableSize)
    ensures AllAbove(steps + steps', level + 1)
  {
    hide Compacts, Flushes;
    var all, done, n := states[..|states| - 1] + states', steps + steps', |steps|;
    forall i | 0 <= i < |done|
      ensures |all[i].levels| == NUM_LEVELS && RangeStep(all, done, i, begin, end, maxFileSize, tableSize)
    {
      if i < n {
        assert RangeStep(states, steps, i, begin, end, maxFileSize, tableSize);
      } else {
        assert RangeStep(states', steps', i - n, begin, end, maxFileSize, tableSize);
        assert steps'[i - n] in steps';
        if i == n && n > 0 {
          assert steps[n - 1] in steps;
        } else if i > n {
          assert steps'[i - n - 1] in steps';
        }
      }
    }
  }

  // ---------------------------------------------------------------------------
  // Compacting a range
  // ---------------------------------------------------------------------------

  // From one state to another by steps of the state machine.
  ghost predicate Path(st: State, st': State, states: seq<State>, steps: seq<Step>) {
    && |states| == |steps| + 1 && states[0] == st && states[|steps|] == st'
    && forall i | 0 <= i < |steps| :: Leads(states[i], states[i + 1], steps[i])
  }

  ghost predicate Leads(st: State, st': State, step: Step) {
    |st.levels| == NUM_LEVELS && Next(st, st', step)
  }

  lemma NoPath(st: State)
    ensures Path(st, st, [st], [])
  {
  }

  lemma PathExtends(st: State, st': State, st'': State, states: seq<State>, steps: seq<Step>, step: Step)
    requires Path(st, st', states, steps) && |st'.levels| == NUM_LEVELS && Next(st', st'', step)
    ensures Path(st, st'', states + [st''], steps + [step])
    ensures |states| == |steps| + 1 && states[0] == st && states[|steps|] == st'
  {
    hide Next;
    assert Leads(st', st'', step);
  }

  lemma PathsJoin(st: State, st': State, st'': State, states: seq<State>, steps: seq<Step>,
                  states': seq<State>, steps': seq<Step>)
    requires Path(st, st', states, steps) && Path(st', st'', states', steps')
    ensures |states| > 0 && Path(st, st'', states[..|states| - 1] + states', steps + steps')
    ensures |states| == |steps| + 1 && |states'| > 0 && states[|steps|] == states'[0]
  {
    hide Leads;
    var all, n := states[..|states| - 1] + states', |steps|;
    forall i | 0 <= i < |steps + steps'|
      ensures Leads(all[i], all[i + 1], (steps + steps')[i])
    {
      if i < n {
        assert Leads(states[i], states[i + 1], steps[i]);
      } else {
        assert Leads(states'[i - n], states'[i - n + 1], steps'[i - n]);
      }
    }
  }

  ghost predicate NoneOverlap(files: seq<FileMeta>, begin: Option<UserKey>, end: Option<UserKey>) {
    forall f | f in files :: !Overlaps(f, begin, end)
  }

  lemma OverlapIs(files: seq<FileMeta>, begin: Option<UserKey>, end: Option<UserKey>, overlap: bool)
    requires overlap <==> exists f :: f in files && Overlaps(f, begin, end)
    ensures overlap <==> !NoneOverlap(files, begin, end)
  {
  }

  // Only the files of two levels changed.
  ghost predicate OnlyNear(levels: Levels, levels': Levels, level: nat) {
    |levels| == |levels'| && forall l | 0 <= l < |levels| && l != level && l != level + 1 :: levels'[l] == levels[l]
  }

  ghost function Listed(files: seq<FileMeta>): set<FileMeta> {
    set f | f in files
  }

  // The files of the range lie in what is left of it from begin' on.
  ghost predicate Remain(files: seq<FileMeta>, begin: Option<UserKey>, end: Option<UserKey>, begin': Option<UserKey>) {
    forall f | f in files && Overlaps(f, begin, end) :: Overlaps(f, begin', end)
  }

  lemma NothingCompacted(st: State, level: nat, begin: Option<UserKey>, end: Option<UserKey>)
    requires |st.levels| == NUM_LEVELS && level < NUM_LEVELS
    ensures Path(st, st, [st], []) && OnlyNear(st.levels, st.levels, level)
    ensures Remain(st.levels[level], begin, end, begin)
  {
  }

  lemma StillRemain(files: seq<FileMeta>, files': seq<FileMeta>, begin: Option<UserKey>, end: Option<UserKey>,
                    from: Option<UserKey>, from': Option<UserKey>)
    requires Remain(files, begin, end, from) && Remain(files', from, end, from') && Listed(files') <= Listed(files)
    ensures Remain(files', begin, end, from')
  {
    hide Overlaps;
    forall f | f in files' && Overlaps(f, begin, end)
      ensures Overlaps(f, from', end)
    {
      assert f in Listed(files');
    }
  }

  lemma StillNear(levels: Levels, levels': Levels, levels'': Levels, level: nat)
    requires OnlyNear(levels, levels', level) && OnlyNear(levels', levels'', level)
    ensures OnlyNear(levels, levels'', level)
  {
  }

  lemma NoneRemain(files: seq<FileMeta>, begin: Option<UserKey>, end: Option<UserKey>, from: Option<UserKey>)
    requires Remain(files, begin, end, from) && NoneOverlap(files, from, end)
    ensures NoneOverlap(files, begin, end)
  {
    hide Overlaps;
  }

  lemma ManualMoves(st: State, st': State, job: Job, begin: Option<UserKey>, end: Option<UserKey>)
    requires Structure(st) && Structure(st') && |st.levels| == NUM_LEVELS && Next(st, st', Compact(job))
    requires job.level < NUM_LEVELS && job.in0 != [] && LeftBeyond(st.levels[job.level], job.in0, begin, end)
    ensures |st'.levels| == NUM_LEVELS && OnlyNear(st.levels, st'.levels, job.level)
    ensures Listed(st'.levels[job.level]) < Listed(st.levels[job.level])
    ensures Remain(st'.levels[job.level], begin, end, Some(job.in0[|job.in0| - 1].largest.user))
  {
    hide Structure, Next, LeftBeyond, GoodFiles;
    JobMoves(st, st', job);
    SoundLevels(st');
    LevelMoved(st.levels[job.level], st'.levels[job.level], job.in0, begin, end);
  }

  lemma JobMoves(st: State, st': State, job: Job)
    requires |st.levels| == NUM_LEVELS && Next(st, st', Compact(job))
    ensures job.level + 1 < NUM_LEVELS && |st'.levels| == NUM_LEVELS && OnlyNear(st.levels, st'.levels, job.level)
    ensures Replaced(st.levels[job.level], job.in0, [], st'.levels[job.level])
    ensures AllIn(job.in0, st.levels[job.level])
  {
    hide MergeOf, OutputsOf, Survivors, Replaced, AllIn, NextLevelInputs, NoDuplicates, LeftOutPrecedes;
  }

  lemma LevelMoved(files: seq<FileMeta>, files': seq<FileMeta>, in0: seq<FileMeta>, begin: Option<UserKey>,
                   end: Option<UserKey>)
    requires Replaced(files, in0, [], files') && AllIn(in0, files) && in0 != [] && GoodFiles(files')
    requires LeftBeyond(files, in0, begin, end)
    ensures Listed(files') < Listed(files)
    ensures Remain(files', begin, end, Some(in0[|in0| - 1].largest.user))
  {
    hide GoodFile, Ordered;
    assert in0[0] in Listed(files) && in0[0] !in Listed(files');
    forall f | f in files'
      ensures f.smallest.user <= f.largest.user
    {
      FileEnds(f);
    }
  }

  lemma Switches(st: State, st': State)
    requires |st.levels| == NUM_LEVELS && Next(st, st', Switch)
    ensures st'.mem == [] && st'.imm == Some(st.mem)
  {
  }

  // A flush takes the immutable memtable and leaves the other.
  lemma FlushKeepsMemory(st: State, st': State, step: Step)
    requires |st.levels| == NUM_LEVELS && step.Flush? && Next(st, st', step)
    ensures st'.mem == st.mem && st'.imm == None
  {
  }

  lemma CollectedApart(st: State, lists: seq<seq<Entry>>, l: nat)
    requires l <= |st.levels| && Collected(st, lists, l)
    ensures KeysApart(lists) && Union(lists) == Stored(st.mem, st.imm, st.levels[..l])
  {
  }

  lemma ViewIsHistory(st: State, all: seq<Entry>, s: nat)
    requires Structure(st) && ReadsAgree(st) && s >= st.floor && Sorted(all) && ToSet(all) == All(st)
    ensures forall u: UserKey, v :: (u, v) in View(all, s, |all|) <==> Read(st.history, u, s) == Some(v)
    ensures forall i, j | 0 <= i < j < |View(all, s, |all|)| :: View(all, s, |all|)[i].0 < View(all, s, |all|)[j].0
  {
    HistoryIsUnique(st);
    hide Structure, Sorted, ToSet, View, Read, SeqUnique;
    ViewSorted(all, s, |all|);
    forall u: UserKey, v
      ensures (u, v) in View(all, s, |all|) <==> Read(st.history, u, s) == Some(v)
    {
      ViewIsSnapshot(all, s, u, v);
      assert Read(All(st), u, s) == Read(st.history, u, s);
    }
  }

  // ---------------------------------------------------------------------------
  // Iterators
  // ---------------------------------------------------------------------------

  // The runs collected so far hold what is in memory and in the first l levels.
  ghost predicate Collected(st: State, lists: seq<seq<Entry>>, l: nat)
    requires l <= |st.levels|
  {
    KeysApart(lists) && Union(lists) == Stored(st.mem, st.imm, st.levels[..l])
  }

  lemma MemoryCollected(st: State)
    requires Structure(st)
    ensures Collected(st, if st.imm.Some? then [st.mem, st.imm.value] else [st.mem], 0)
  {
    hide OrderedLevels, NumbersUsed, SeqUnique, UpTo, LevelInvariant, NewerThanFiles;
    var lists := if st.imm.Some? then [st.mem, st.imm.value] else [st.mem];
    assert lists[0] == st.mem;
    assert st.imm.Some? ==> lists[1] == st.imm.value;
    NothingInNoLevels(st.levels);
    forall e
      ensures e in Union(lists) <==> e in Stored(st.mem, st.imm, st.levels[..0])
    {
    }
  }

  lemma NothingInNoLevels(levels: Levels)
    ensures AllEntries(levels[..0]) == {}
  {
  }

  lemma OneMoreLevel(levels: Levels, l: nat, e: Entry)
    requires l < |levels|
    ensures e in AllEntries(levels[..l + 1]) <==> e in AllEntries(levels[..l]) || Holds(levels[l], e)
  {
    var a, b := levels[..l], levels[..l + 1];
    if e in AllEntries(a) {
      var m: int, f: FileMeta :| 0 <= m < |a| && f in a[m] && e in f.entries;
      assert b[m] == a[m];
      AllEntriesMember(b, m, f, e);
    }
    if Holds(levels[l], e) {
      var f :| f in levels[l] && e in f.entries;
      assert b[l] == levels[l];
      AllEntriesMember(b, l, f, e);
    }
    if e in AllEntries(b) {
      var m: int, f: FileMeta :| 0 <= m < |b| && f in b[m] && e in f.entries;
      assert b[m] == levels[m];
      if m < l {
        assert a[m] == levels[m];
        AllEntriesMember(a, m, f, e);
      } else {
        assert f in levels[l];
      }
    }
  }

  lemma LevelApart(st: State, l: nat)
    requires Structure(st) && l < NUM_LEVELS
    ensures |st.levels| == NUM_LEVELS && Apart(st.levels[l]) && (l > 0 ==> SortedDisjoint(st.levels[l]))
  {
    SoundLevels(st);
    var files := st.levels[l];
    OrderedNoDuplicates(files);
    hide Structure, GoodFile, NumbersUsed;
    forall f, g, x, y | f in files && g in files && f != g && x in f.entries && y in g.entries
      ensures x.key != y.key
    {
      FilesApart(st, l, l, f, g, x, y);
    }
  }

  // An entry stored above a level has another key than the entries of the level.
  lemma AboveHasOtherKeys(st: State, l: nat, x: Entry, y: Entry)
    requires Structure(st) && l < NUM_LEVELS && |st.levels| == NUM_LEVELS
    requires x in Stored(st.mem, st.imm, st.levels[..l]) && Holds(st.levels[l], y)
    ensures x.key != y.key
  {
    hide Structure, NewerThan;
    var g :| g in st.levels[l] && y in g.entries;
    if x in AllEntries(st.levels[..l]) {
      var m, f :| 0 <= m < l && f in st.levels[..l][m] && x in f.entries;
      assert f in st.levels[m];
      AgesDescend(st, m, l, f, g);
      KeysOfNewer(f, g);
    } else if x in ToSet(st.mem) {
      MemoryAhead(st, l, g, st.mem);
    } else {
      MemoryAhead(st, l, g, st.imm.value);
    }
  }

  lemma AgesDescend(st: State, m: nat, l: nat, f: FileMeta, g: FileMeta)
    requires Structure(st) && m < l < NUM_LEVELS && f in st.levels[m] && g in st.levels[l]
    ensures NewerThan(f, g)
  {
    hide NewerThan;
  }

  lemma MemoryAhead(st: State, l: nat, g: FileMeta, es: seq<Entry>)
    requires Structure(st) && l < NUM_LEVELS && g in st.levels[l] && (es == st.mem || st.imm == Some(es))
    ensures forall x, y | x in es && y in g.entries :: x.key != y.key
  {
    LevelsHave(st);
    hide LevelInvariant, OrderedLevels, NumbersUsed, SeqUnique, UpTo;
    assert NewerThanFiles(es, st.levels);
    assert NewerEntries(es, g.entries);
  }

  lemma LevelCollected(st: State, lists: seq<seq<Entry>>, l: nat)
    requires Structure(st) && |st.levels| == NUM_LEVELS && l < NUM_LEVELS && Collected(st, lists, l)
    ensures Collected(st, lists + Runs(l, st.levels[l]), l + 1)
  {
    hide Structure, Runs, KeysApart, Union, AllEntries;
    var runs := Runs(l, st.levels[l]);
    LevelApart(st, l);
    RunsMergeable(l, st.levels[l]);
    forall x, y | x in Union(lists) && y in Union(runs)
      ensures x.key != y.key
    {
      RunsHold(l, st.levels[l], y);
      AboveHasOtherKeys(st, l, x, y);
    }
    ConcatMergeable(lists, runs);
    forall e
      ensures e in Union(lists + runs) <==> e in Stored(st.mem, st.imm, st.levels[..l + 1])
    {
      UnionOfTwo(lists, runs, e);
      RunsHold(l, st.levels[l], e);
      OneMoreLevel(st.levels, l, e);
    }
  }

  lemma AllCollected(st: State)
    requires |st.levels| == NUM_LEVELS
    ensures Stored(st.mem, st.imm, st.levels[..NUM_LEVELS]) == All(st)
  {
    assert st.levels[..NUM_LEVELS] == st.levels;
  }

  lemma CompactionInLevels(level: nat, in0: seq<FileMeta>, in1: seq<FileMeta>, outs: seq<FileMeta>)
    requires level + 1 < NUM_LEVELS
    ensures forall p | p in CompactionEdit(level, in0, in1, outs).deletedFiles :: p.0 < NUM_LEVELS
    ensures forall p | p in CompactionEdit(level, in0, in1, outs).newFiles :: p.0 < NUM_LEVELS
  {
  }

  lemma GrandparentsSound(st: State, level: nat, in0: seq<FileMeta>, in1: seq<FileMeta>, grandparents: seq<FileMeta>)
    requires Structure(st) && |st.levels| == NUM_LEVELS && GrandparentsOf(st.levels, level, in0, in1, grandparents)
    ensures GoodFiles(grandparents) && SortedDisjoint(grandparents)
  {
    if level + 2 < NUM_LEVELS {
      SoundLevels(st);
      hide Structure, GoodFile;
      var files := st.levels[level + 2];
      var lo, hi :| && IsSmallestKey(in0 + in1, lo) && IsLargestKey(in0 + in1, hi)
                    && grandparents == Select(files, Some(lo.user), Some(hi.user));
      var i, j := SelectIsSlice(files, Some(lo.user), Some(hi.user));
      SliceSorted(files, i, j);
      SelectContains(files, Some(lo.user), Some(hi.user));
    }
  }

  lemma MoveSetting(st: State, level: nat, f: FileMeta)
    requires Structure(st) && level + 1 < NUM_LEVELS && CompactionInputs(st.levels, level, [f], [])
    ensures Setting(st.levels, level, [f], [], [f], st.nextFile)
  {
    LevelsHave(st);
    hide OrderedLevels, SortedLevels, AgeOrdered, GoodFile;
    InputsInLevels(st.levels, level, [f], []);
  }

  lemma CompactSetting(st: State, level: nat, in0: seq<FileMeta>, in1: seq<FileMeta>, outs: seq<FileMeta>,
                       es: seq<Entry>)
    requires Structure(st) && level + 1 < NUM_LEVELS
    requires AllIn(in0, st.levels[level]) && AllIn(in1, st.levels[level + 1]) && OutputsOf(outs, es, st.nextFile)
    ensures Setting(st.levels, level, in0, in1, outs, st.nextFile)
  {
    hide OrderedLevels, SortedLevels, AgeOrdered, GoodFile, SortedDisjoint;
    NumbersInUse(st);
  }

  lemma MergedIsLegal(st: State, level: nat, in0: seq<FileMeta>, in1: seq<FileMeta>, merged: seq<Entry>)
    requires Structure(st) && MergeOf(merged, in0 + in1) && GoodFiles(in0 + in1)
    ensures Sorted(merged) && Legal(merged)
    ensures SmallestSnapshot(st) < MAX_SEQUENCE
    ensures SmallestSnapshot(st) == if st.snapshots == [] then st.lastSequence else st.snapshots[0]
  {
    hide StoreInvariant, OrderedLevels, NumbersUsed, Sorted;
    forall e | e in merged
      ensures e.key.sequence <= MAX_SEQUENCE
    {
      assert Holds(in0 + in1, e);
      var f :| f in in0 + in1 && e in f.entries;
      assert Legal(f.entries);
    }
  }

  lemma Compacted(st: State, st': State, job: Job)
    requires |st.levels| == NUM_LEVELS && job.level + 1 < NUM_LEVELS
    requires CompactionInputs(st.levels, job.level, job.in0, job.in1) && MergeOf(job.merged, job.in0 + job.in1)
    requires OutputsOf(job.outs, Survivors(st.levels, job.level, job.merged, |job.merged|, SmallestSnapshot(st)), st.nextFile)
    requires Moved(st.levels, st'.levels, job.level, job.in0, job.in1, job.outs)
    requires st' == st.(levels := st'.levels, nextFile := st.nextFile + |job.outs|, floor := SmallestSnapshot(st))
    ensures Next(st, st', Compact(job))
  {
    hide CompactionInputs, MergeOf, OutputsOf, Survivors, Moved;
  }

  // Stands for the table that an empty memtable does not leave.
  function NoTable(): FileMeta {
    MakeFile(0, [Entry(InternalKey(0.0, 0, TypeDeletion), "")], 0)
  }

  lemma SoundLevels(st: State)
    requires Structure(st)
    ensures |st.levels| == NUM_LEVELS && SortedLevels(st.levels) && OrderedLevels(st.levels)
    ensures NumbersUsed(st.levels, st.nextFile)
  {
  }

  lemma NothingFlushed(st: State, st': State, step: Step, maxFileSize: nat, tableSize: seq<Entry> -> nat)
    requires |st.levels| == NUM_LEVELS && st.imm == Some([]) && st' == st.(imm := None) && step == Flush(0, NoTable())
    ensures Next(st, st', step) && Flushes(st, step, maxFileSize, tableSize)
  {
  }

  lemma TableFlushed(st: State, st': State, level: nat, f: FileMeta)
    requires |st.levels| == |st'.levels| == NUM_LEVELS && st.imm.Some? && st.imm.value != []
    requires f == MakeFile(st.nextFile, st.imm.value, f.fileSize) && level <= MAX_MEM_COMPACT_LEVEL
    requires level > 0 ==> forall l | 0 <= l <= level :: !Touches(st.levels[l], f.smallest.user, f.largest.user)
    requires Replaced(st.levels[level], [], [f], st'.levels[level])
    requires forall l | 0 <= l < NUM_LEVELS && l != level :: st'.levels[l] == st.levels[l]
    requires st' == st.(imm := None, levels := st'.levels, nextFile := st.nextFile + 1)
    ensures Next(st, st', Flush(level, f))
  {
    hide Touches, Replaced, MakeFile;
  }

  // The first i operations of the batch have been added to mem, which made it mem'.
  ghost predicate Added(mem: seq<Entry>, batch: seq<Change>, i: nat, first: nat, mem': seq<Entry>)
    requires i <= |batch|
  {
    Sorted(mem') && ToSet(mem') == ToSet(mem) + BatchEntries(batch[..i], first)
  }

  lemma AddOneMore(st: State, batch: seq<Change>, i: nat, mem': seq<Entry>)
    requires Structure(st) && i < |batch| && Added(st.mem, batch, i, st.lastSequence + 1, mem')
    ensures var first := st.lastSequence + 1;
            && Added(st.mem, batch, i + 1, first, InsertEntry(mem', ChangeEntry(batch[i], first + i)))
            && (forall x | x in mem' :: x.key != InternalKey(batch[i].user, first + i, KindOf(batch[i])))
            && ChangeEntry(batch[i], first + i) ==
               Entry(InternalKey(batch[i].user, first + i, KindOf(batch[i])), ValueOf(batch[i]))
  {
    hide Structure, Sorted, InsertEntry, BatchEntries, ToSet;
    var first := st.lastSequence + 1;
    KeysBelow(st, batch, i, mem');
    InsertEntrySorts(mem', ChangeEntry(batch[i], first + i));
    OneMoreChange(batch, i, first);
  }

  predicate HeightsFor(batch: seq<Change>, heights: seq<nat>) {
    |heights| == |batch| && forall h | h in heights :: 1 <= h <= SkipList.MAX_HEIGHT
  }

  // WriteBatchInternal::InsertInto: the i-th operation gets the i-th sequence number from first on.
  method InsertInto(mem: MemTable, ghost parts: set<object>, batch: seq<Change>, first: nat, heights: seq<nat>,
                    ghost st: State)
    returns (ghost memory: seq<Entry>, ghost parts': set<object>)
    requires Structure(st) && first == st.lastSequence + 1 && HeightsFor(batch, heights)
    requires Held(mem, parts, Some(st.mem))
    modifies parts
    ensures Held(mem, parts', Some(memory)) && fresh(parts' - parts)
    ensures Added(st.mem, batch, |batch|, first, memory)
  {
    hide *;
    NoneAdded(st, batch, first);
    memory, parts' := st.mem, parts;
    var i := 0;
    while i < |batch|
      invariant 0 <= i <= |batch| && Added(st.mem, batch, i, first, memory)
      invariant Held(mem, parts', Some(memory)) && fresh(parts' - parts)
    {
      HeldIs(mem, parts', Some(memory));
      AddOneMore(st, batch, i, memory);
      HeightsAre(batch, heights, i);
      ghost var added := mem.Add(first + i, KindOf(batch[i]), batch[i].user, ValueOf(batch[i]), heights[i]);
      memory, parts' := mem.Contents(), parts' + added;
      IsHeld(mem);
      i := i + 1;
    }
  }

  function KindOf(op: Change): ValueType {
    if op.Put? then TypeValue else TypeDeletion
  }

  function ValueOf(op: Change): string {
    if op.Put? then op.value else ""
  }

  lemma HeightsAre(batch: seq<Change>, heights: seq<nat>, i: nat)
    requires HeightsFor(batch, heights) && i < |batch|
    ensures i < |heights| && 1 <= heights[i] <= SkipList.MAX_HEIGHT
  {
    assert heights[i] in heights;
  }

  lemma NoneAdded(st: State, batch: seq<Change>, first: nat)
    requires Structure(st)
    ensures Added(st.mem, batch, 0, first, st.mem)
  {
    assert batch[..0] == [];
  }

  lemma LevelsHave(st: State)
    requires Structure(st)
    ensures |st.levels| == NUM_LEVELS
  {
  }

  lemma FlushInLevels(level: nat, f: FileMeta)
    requires level < NUM_LEVELS
    ensures forall p | p in FlushEdit(level, f).deletedFiles :: p.0 < NUM_LEVELS
    ensures forall p | p in FlushEdit(level, f).newFiles :: p.0 < NUM_LEVELS
  {
  }

  // The entries of a batch so far all have smaller sequence numbers than the next.
  lemma KeysBelow(st: State, batch: seq<Change>, i: nat, mem: seq<Entry>)
    requires Structure(st) && i < |batch|
    requires ToSet(mem) == ToSet(st.mem) + BatchEntries(batch[..i], st.lastSequence + 1)
    ensures forall x | x in mem :: x.key != ChangeEntry(batch[i], st.lastSequence + 1 + i).key
  {
    hide StoreInvariant, OrderedLevels, NumbersUsed, SeqUnique;
    forall x | x in mem
      ensures x.key.sequence < st.lastSequence + 1 + i
    {
      assert x in ToSet(mem);
      if x in ToSet(st.mem) {
        assert x in All(st);
      }
    }
  }

  lemma OneMoreChange(batch: seq<Change>, i: nat, first: nat)
    requires i < |batch|
    ensures BatchEntries(batch[..i + 1], first) == BatchEntries(batch[..i], first) + {ChangeEntry(batch[i], first + i)}
  {
    var a, b := batch[..i], batch[..i + 1];
    assert forall k | 0 <= k < i :: a[k] == b[k];
    assert b[i] == batch[i];
  }
}
