/**
 The database as a state machine: writes, memtable switches, flushes, compactions, trivial moves
 and snapshots. Flushes and compactions are atomic steps.
 */
module Database {
  import opened Keys
  import opened Files
  import opened Picker
  import opened ReadPath
  import opened Compacting
  import opened VersionBuilder
  import opened LevelMoves
  import opened MergeInputs
  import opened MemTables

  datatype Change = Put(user: UserKey, value: string) | Delete(user: UserKey)

  // history and floor are bookkeeping of the model: every entry ever written, and the largest
  // smallest_snapshot a compaction has used.
  datatype State = State(mem: seq<Entry>, imm: Option<seq<Entry>>, levels: Levels, lastSequence: nat,
                         snapshots: seq<nat>, nextFile: nat, history: set<Entry>, floor: nat)

  ghost function All(st: State): set<Entry> {
    Stored(st.mem, st.imm, st.levels)
  }

  function ChangeEntry(op: Change, sequence: nat): Entry {
    match op
    case Put(u, v) => Entry(InternalKey(u, sequence, TypeValue), v)
    case Delete(u) => Entry(InternalKey(u, sequence, TypeDeletion), "")
  }

  // The i-th operation of a batch gets the i-th sequence number from first on.
  ghost function BatchEntries(batch: seq<Change>, first: nat): set<Entry> {
    set i | 0 <= i < |batch| :: ChangeEntry(batch[i], first + i)
  }

  // ---------------------------------------------------------------------------
  // Invariants
  // ---------------------------------------------------------------------------

  ghost predicate NumbersUsed(levels: Levels, nextFile: nat) {
    && (forall l, f | 0 <= l < |levels| && f in levels[l] :: f.number < nextFile)
    && (forall l, m, f, g | 0 <= l < |levels| && 0 <= m < |levels| && f in levels[l] && g in levels[m]
                            && f.number == g.number :: f == g && l == m)
  }

  ghost predicate UpTo(es: set<Entry>, sequence: nat) {
    forall e | e in es :: e.key.sequence <= sequence
  }

  ghost predicate Structure(st: State) {
    && StoreInvariant(st.mem, st.imm, st.levels)
    && OrderedLevels(st.levels)
    && NumbersUsed(st.levels, st.nextFile)
    && All(st) <= st.history
    && SeqUnique(st.history)
    && UpTo(st.history, st.lastSequence)
    && st.lastSequence < MAX_SEQUENCE
    && st.floor <= st.lastSequence
    && (forall i | 0 <= i < |st.snapshots| :: st.floor <= st.snapshots[i] <= st.lastSequence)
    && (forall i, j | 0 <= i < j < |st.snapshots| :: st.snapshots[i] <= st.snapshots[j])
  }

  // Every snapshot at or above the floor reads what was written.
  ghost predicate ReadsAgree(st: State) {
    forall u: UserKey, s: nat | s >= st.floor :: Read(All(st), u, s) == Read(st.history, u, s)
  }

  ghost predicate Initial(st: State) {
    st == State([], None, seq(NUM_LEVELS, _ => []), 0, [], 2, {}, 0)
  }

  // ---------------------------------------------------------------------------
  // Steps
  // ---------------------------------------------------------------------------

  ghost predicate WriteStep(st: State, st': State, batch: seq<Change>) {
    var added := BatchEntries(batch, st.lastSequence + 1);
    && st.lastSequence + |batch| < MAX_SEQUENCE
    && Sorted(st'.mem) && ToSet(st'.mem) == ToSet(st.mem) + added
    && st' == st.(mem := st'.mem, lastSequence := st.lastSequence + |batch|, history := st.history + added)
  }

  // MakeRoomForWrite: the full memtable becomes immutable.
  ghost predicate SwitchStep(st: State, st': State) {
    st.imm.None? && st' == st.(mem := [], imm := Some(st.mem))
  }

  // Where PickLevelForMemTableOutput may put a table.
  ghost predicate FlushLevel(levels: Levels, level: nat, f: FileMeta)
    requires |levels| == NUM_LEVELS
  {
    && level <= MAX_MEM_COMPACT_LEVEL
    && (level > 0 ==> forall l | 0 <= l <= level :: !Touches(levels[l], f.smallest.user, f.largest.user))
  }

  // CompactMemTable: an empty memtable leaves no table behind.
  ghost predicate FlushStep(st: State, st': State, level: nat, f: FileMeta)
    requires |st.levels| == NUM_LEVELS
  {
    && st.imm.Some?
    && if st.imm.value == [] then
         st' == st.(imm := None)
       else
         && f == MakeFile(st.nextFile, st.imm.value, f.fileSize)
         && FlushLevel(st.levels, level, f)
         && |st'.levels| == NUM_LEVELS
         && Replaced(st.levels[level], [], [f], st'.levels[level])
         && (forall l | 0 <= l < NUM_LEVELS && l != level :: st'.levels[l] == st.levels[l])
         && st' == st.(imm := None, levels := st'.levels, nextFile := st.nextFile + 1)
  }

  function SmallestSnapshot(st: State): nat {
    if st.snapshots == [] then st.lastSequence else st.snapshots[0]
  }

  datatype Job = Job(level: nat, in0: seq<FileMeta>, in1: seq<FileMeta>, merged: seq<Entry>, outs: seq<FileMeta>)

  ghost predicate CompactStep(st: State, st': State, job: Job)
    requires |st.levels| == NUM_LEVELS
  {
    && job.level + 1 < NUM_LEVELS
    && CompactionInputs(st.levels, job.level, job.in0, job.in1)
    && MergeOf(job.merged, job.in0 + job.in1)
    && OutputsOf(job.outs, Survivors(st.levels, job.level, job.merged, |job.merged|, SmallestSnapshot(st)), st.nextFile)
    && Moved(st.levels, st'.levels, job.level, job.in0, job.in1, job.outs)
    && st' == st.(levels := st'.levels, nextFile := st.nextFile + |job.outs|, floor := SmallestSnapshot(st))
  }

  ghost predicate MoveStep(st: State, st': State, level: nat, f: FileMeta)
    requires |st.levels| == NUM_LEVELS
  {
    && level + 1 < NUM_LEVELS
    && CompactionInputs(st.levels, level, [f], [])
    && Moved(st.levels, st'.levels, level, [f], [], [f])
    && st' == st.(levels := st'.levels)
  }

  ghost predicate SnapshotStep(st: State, st': State) {
    st' == st.(snapshots := st.snapshots + [st.lastSequence])
  }

  ghost predicate ReleaseStep(st: State, st': State, i: nat) {
    i < |st.snapshots| && st' == st.(snapshots := st.snapshots[..i] + st.snapshots[i + 1..])
  }

  datatype Step =
    | Write(batch: seq<Change>)
    | Switch
    | Flush(flushLevel: nat, table: FileMeta)
    | Compact(job: Job)
    | Move(moveLevel: nat, file: FileMeta)
    | TakeSnapshot
    | ReleaseSnapshot(index: nat)

  ghost predicate Next(st: State, st': State, step: Step)
    requires |st.levels| == NUM_LEVELS
  {
    match step
    case Write(batch) => WriteStep(st, st', batch)
    case Switch => SwitchStep(st, st')
    case Flush(level, f) => FlushStep(st, st', level, f)
    case Compact(job) => CompactStep(st, st', job)
    case Move(level, f) => MoveStep(st, st', level, f)
    case TakeSnapshot => SnapshotStep(st, st')
    case ReleaseSnapshot(i) => ReleaseStep(st, st', i)
  }

  // Entries a compaction does not touch.
  ghost function Untouched(st: State, job: Job): set<Entry> {
    ToSet(st.mem) + (if st.imm.Some? then ToSet(st.imm.value) else {}) +
    LeftOut(st.levels, job.level, job.in0, job.in1)
  }

  predicate Taken(level: nat, in0: seq<FileMeta>, in1: seq<FileMeta>, l: nat, f: FileMeta) {
    (l == level && f in in0) || (l == level + 1 && f in in1)
  }

  ghost function LeftOut(levels: Levels, level: nat, in0: seq<FileMeta>, in1: seq<FileMeta>): set<Entry> {
    set l, f, e | 0 <= l < |levels| && f in levels[l] && e in f.entries && !Taken(level, in0, in1, l, f) :: e
  }

  // No user key comes back to life in this step.
  ghost predicate Safe(st: State, step: Step) {
    step.Compact? ==>
      forall u: UserKey ::
        !Resurrects(Untouched(st, step.job), st.levels, step.job.level, step.job.merged, SmallestSnapshot(st), u)
  }

  // ---------------------------------------------------------------------------
  // Writes
  // ---------------------------------------------------------------------------

  lemma BatchIsNewer(st: State, batch: seq<Change>)
    requires Structure(st)
    ensures var added := BatchEntries(batch, st.lastSequence + 1);
            && (forall e | e in added :: st.lastSequence < e.key.sequence <= st.lastSequence + |batch|)
            && SeqUnique(st.history + added)
  {
  }

  // Adding the same newer entries to two stores that read alike keeps them alike.
  lemma AddNewerKeepsAgreement(a: set<Entry>, b: set<Entry>, added: set<Entry>, last: nat, u: UserKey, s: nat)
    requires UpTo(a, last) && UpTo(b, last) && forall e | e in added :: e.key.sequence > last
    requires SeqUnique(a + added) && SeqUnique(b + added) && SeqUnique(a) && SeqUnique(b)
    requires Read(a, u, s) == Read(b, u, s)
    ensures Read(a + added, u, s) == Read(b + added, u, s)
  {
    if AnyVisible(added, u, s) {
      var e := NewestExists(added, u, s);
      assert Newest(a + added, u, s, e) && Newest(b + added, u, s, e);
      ReadOfNewest(a + added, u, s, e);
      ReadOfNewest(b + added, u, s, e);
    } else {
      ReadWithoutAdded(a, added, u, s);
      ReadWithoutAdded(b, added, u, s);
    }
  }

  lemma ReadWithoutAdded(a: set<Entry>, added: set<Entry>, u: UserKey, s: nat)
    requires SeqUnique(a + added) && SeqUnique(a) && !AnyVisible(added, u, s)
    ensures Read(a + added, u, s) == Read(a, u, s)
  {
    if AnyVisible(a, u, s) {
      var e := NewestExists(a, u, s);
      assert Newest(a + added, u, s, e);
      ReadOfNewest(a, u, s, e);
      ReadOfNewest(a + added, u, s, e);
    } else {
      assert !AnyVisible(a + added, u, s);
    }
  }

  lemma NewerExtends(old_: seq<Entry>, next: seq<Entry>, added: set<Entry>, last: nat, es: seq<Entry>)
    requires ToSet(next) == ToSet(old_) + added
    requires (forall x | x in added :: x.key.sequence > last) && forall y | y in es :: y.key.sequence <= last
    requires NewerEntries(old_, es)
    ensures NewerEntries(next, es)
  {
    forall x, y | x in next && y in es && x.key.user == y.key.user
      ensures x.key.sequence > y.key.sequence
    {
      assert x in ToSet(next);
    }
  }

  lemma WriteKeepsMemNewer(st: State, st': State, batch: seq<Change>)
    requires Structure(st) && WriteStep(st, st', batch)
    ensures NewerThanFiles(st'.mem, st.levels)
    ensures st.imm.Some? ==> NewerEntries(st'.mem, st.imm.value)
  {
    var added := BatchEntries(batch, st.lastSequence + 1);
    BatchIsNewer(st, batch);
    assert ToSet(st'.mem) == ToSet(st.mem) + added;
    assert forall y | y in All(st) :: y.key.sequence <= st.lastSequence;
    hide AgeOrdered, OrderedLevels, NumbersUsed, SeqUnique, Sorted, SortedDisjoint, GoodFile, NewerEntries,
         WriteStep, UpTo, BatchEntries;
    forall l, f | 0 <= l < |st.levels| && f in st.levels[l]
      ensures NewerEntries(st'.mem, f.entries)
    {
      forall y | y in f.entries
        ensures y.key.sequence <= st.lastSequence
      {
        AllEntriesMember(st.levels, l, f, y);
      }
      NewerExtends(st.mem, st'.mem, added, st.lastSequence, f.entries);
    }
    if st.imm.Some? {
      forall y | y in st.imm.value
        ensures y.key.sequence <= st.lastSequence
      {
        assert y in ToSet(st.imm.value);
      }
      NewerExtends(st.mem, st'.mem, added, st.lastSequence, st.imm.value);
    }
  }

  lemma WriteKeepsStructure(st: State, st': State, batch: seq<Change>)
    requires Structure(st) && WriteStep(st, st', batch)
    ensures Structure(st')
    ensures All(st') == All(st) + BatchEntries(batch, st.lastSequence + 1)
  {
    BatchIsNewer(st, batch);
    WriteKeepsMemNewer(st, st', batch);
    hide AgeOrdered, OrderedLevels, NumbersUsed, NewerThanFiles, NewerEntries, SortedDisjoint, GoodFile;
    assert All(st') == All(st) + BatchEntries(batch, st.lastSequence + 1);
  }

  lemma WriteKeepsReads(st: State, st': State, batch: seq<Change>)
    requires Structure(st) && ReadsAgree(st) && WriteStep(st, st', batch)
    ensures ReadsAgree(st')
  {
    var added := BatchEntries(batch, st.lastSequence + 1);
    BatchIsNewer(st, batch);
    WriteKeepsStructure(st, st', batch);
    forall u: UserKey, s: nat | s >= st'.floor
      ensures Read(All(st'), u, s) == Read(st'.history, u, s)
    {
      AddNewerKeepsAgreement(All(st), st.history, added, st.lastSequence, u, s);
    }
  }

  // ---------------------------------------------------------------------------
  // Switch and flush
  // ---------------------------------------------------------------------------

  lemma SwitchKeepsStructure(st: State, st': State)
    requires Structure(st) && SwitchStep(st, st')
    ensures Structure(st') && All(st') == All(st)
  {
  }

  lemma ImmFile(st: State, size: nat)
    requires Structure(st) && st.imm.Some? && st.imm.value != []
    ensures GoodFile(MakeFile(st.nextFile, st.imm.value, size))
  {
    forall e | e in st.imm.value
      ensures e.key.sequence <= MAX_SEQUENCE
    {
      assert e in ToSet(st.imm.value);
    }
  }

  lemma FlushKeepsNumbers(levels: Levels, levels': Levels, level: nat, f: FileMeta)
    requires NumbersUsed(levels, f.number) && |levels| == |levels'| && level < |levels|
    requires Replaced(levels[level], [], [f], levels'[level])
    requires forall l | 0 <= l < |levels| && l != level :: levels'[l] == levels[l]
    ensures NumbersUsed(levels', f.number + 1)
  {
    hide Ordered;
    forall l, g | 0 <= l < |levels'| && g in levels'[l]
      ensures (g in levels[l] && g.number < f.number) || (l == level && g == f)
    {
    }
  }

  lemma FlushKeepsMemNewer(st: State, st': State, level: nat, f: FileMeta)
    requires Structure(st) && FlushStep(st, st', level, f) && st.imm.value != []
    ensures NewerThanFiles(st'.mem, st'.levels)
  {
    forall l, g | 0 <= l < |st'.levels| && g in st'.levels[l]
      ensures NewerEntries(st'.mem, g.entries)
    {
      if g in st.levels[l] {
        assert NewerEntries(st.mem, g.entries);
      } else {
        assert g == f;
      }
    }
  }

  lemma FlushKeepsLevels(st: State, st': State, level: nat, f: FileMeta)
    requires Structure(st) && FlushStep(st, st', level, f) && st.imm.value != []
    ensures LevelInvariant(st'.levels) && OrderedLevels(st'.levels)
    ensures All(st') == All(st)
  {
    ImmFile(st, f.fileSize);
    ImmIsUnique(st, f);
    FlushFacts(st, st', level, f);
    hide *;
    FlushKeepsInvariant(st.levels, st'.levels, level, f);
    FlushKeepsEntries(st, st');
  }

  lemma FlushFacts(st: State, st': State, level: nat, f: FileMeta)
    requires Structure(st) && FlushStep(st, st', level, f) && st.imm.value != []
    ensures LevelInvariant(st.levels) && OrderedLevels(st.levels) && NewerThanFiles(f.entries, st.levels)
    ensures forall g | g in st.levels[0] :: g.number < f.number
    ensures f.entries == st.imm.value && level <= MAX_MEM_COMPACT_LEVEL && |st'.levels| == |st.levels| == NUM_LEVELS
    ensures level > 0 ==> forall l | 0 <= l <= level :: !Touches(st.levels[l], f.smallest.user, f.largest.user)
    ensures Replaced(st.levels[level], [], [f], st'.levels[level])
    ensures forall l | 0 <= l < NUM_LEVELS && l != level :: st'.levels[l] == st.levels[l]
    ensures st'.mem == st.mem && st'.imm == None
  {
    hide AgeOrdered, OrderedLevels, SeqUnique, UpTo, NewerEntries, Touches, Replaced, SortedDisjoint, GoodFile;
  }

  lemma FlushKeepsEntries(st: State, st': State)
    requires st.imm.Some? && st'.imm.None? && st'.mem == st.mem
    requires AllEntries(st'.levels) == AllEntries(st.levels) + ToSet(st.imm.value)
    ensures All(st') == All(st)
  {
  }

  lemma ImmIsUnique(st: State, f: FileMeta)
    requires Structure(st) && st.imm.Some? && f.entries == st.imm.value
    ensures SeqUnique(AllEntries(st.levels) + ToSet(f.entries))
  {
    assert AllEntries(st.levels) + ToSet(f.entries) <= All(st);
  }

  lemma FlushKeepsStructure(st: State, st': State, level: nat, f: FileMeta)
    requires Structure(st) && FlushStep(st, st', level, f)
    ensures Structure(st') && All(st') == All(st)
  {
    hide GoodFile, AgeOrdered, OrderedLevels, NumbersUsed, SeqUnique, UpTo, NewerEntries, Replaced, Sorted;
    if st.imm.value == [] {
      assert All(st') == All(st);
    } else {
      FlushKeepsLevels(st, st', level, f);
      FlushKeepsMemNewer(st, st', level, f);
      FlushKeepsNumbers(st.levels, st'.levels, level, f);
    }
  }

  // ---------------------------------------------------------------------------
  // Compaction
  // ---------------------------------------------------------------------------

  lemma OutputsHoldInputs(st: State, job: Job)
    requires job.level + 1 < NUM_LEVELS && |st.levels| == NUM_LEVELS
    requires MergeOf(job.merged, job.in0 + job.in1)
    requires OutputsOf(job.outs, Survivors(st.levels, job.level, job.merged, |job.merged|, SmallestSnapshot(st)), st.nextFile)
    ensures forall f, e | f in job.outs && e in f.entries :: Holds(job.in0 + job.in1, e)
    ensures GoodFiles(job.outs)
    ensures forall f | f in job.outs :: st.nextFile <= f.number < st.nextFile + |job.outs|
  {
    var es := Survivors(st.levels, job.level, job.merged, |job.merged|, SmallestSnapshot(st));
    ConcatContains(job.outs);
    SurvivorsMembers(st.levels, job.level, job.merged, |job.merged|, SmallestSnapshot(st));
    forall f, e | f in job.outs && e in f.entries
      ensures Holds(job.in0 + job.in1, e)
    {
      var k :| 0 <= k < |job.outs| && job.outs[k] == f;
      assert e in es;
      assert e in job.merged;
    }
  }

  lemma MovedKeepsMemNewer(es: seq<Entry>, levels: Levels, levels': Levels)
    requires NewerThanFiles(es, levels)
    requires AllEntries(levels') <= AllEntries(levels)
    ensures NewerThanFiles(es, levels')
  {
    forall l, f | 0 <= l < |levels'| && f in levels'[l]
      ensures NewerEntries(es, f.entries)
    {
      forall x, y | x in es && y in f.entries && x.key.user == y.key.user
        ensures x.key.sequence > y.key.sequence
      {
        AllEntriesMember(levels', l, f, y);
        assert y in AllEntries(levels);
        var m, g :| 0 <= m < |levels| && g in levels[m] && y in g.entries;
        assert NewerEntries(es, g.entries);
      }
    }
  }

  lemma MovedFile(levels: Levels, levels': Levels, level: nat, in0: seq<FileMeta>, in1: seq<FileMeta>,
                  outs: seq<FileMeta>, l: nat, f: FileMeta)
    requires Moved(levels, levels', level, in0, in1, outs) && l < |levels'|
    ensures |levels| == |levels'| == NUM_LEVELS
    ensures f in levels'[l] <==>
              (f in levels[l] && !Taken(level, in0, in1, l, f)) || (l == level + 1 && f in outs)
  {
  }

  lemma MovedKeepsNumbers(levels: Levels, levels': Levels, level: nat, in0: seq<FileMeta>, in1: seq<FileMeta>,
                          outs: seq<FileMeta>, nextFile: nat)
    requires NumbersUsed(levels, nextFile) && Moved(levels, levels', level, in0, in1, outs)
    requires forall k | 0 <= k < |outs| :: outs[k].number == nextFile + k
    ensures NumbersUsed(levels', nextFile + |outs|)
  {
    forall l, f | 0 <= l < |levels'| && f in levels'[l]
      ensures f.number < nextFile + |outs|
    {
      MovedFile(levels, levels', level, in0, in1, outs, l, f);
    }
    forall l, m, f, g | 0 <= l < |levels'| && 0 <= m < |levels'| && f in levels'[l] && g in levels'[m]
                        && f.number == g.number
      ensures f == g && l == m
    {
      MovedFile(levels, levels', level, in0, in1, outs, l, f);
      MovedFile(levels, levels', level, in0, in1, outs, m, g);
    }
  }

  lemma MovedFileKeepsNumbers(levels: Levels, levels': Levels, level: nat, f: FileMeta, nextFile: nat)
    requires NumbersUsed(levels, nextFile) && Moved(levels, levels', level, [f], [], [f])
    requires f in levels[level]
    ensures NumbersUsed(levels', nextFile)
  {
    assert |levels| == |levels'| == NUM_LEVELS;
    hide Moved;
    forall l, g | 0 <= l < |levels'| && g in levels'[l]
      ensures g.number < nextFile && if g == f then l == level + 1 else g in levels[l]
    {
      MovedFile(levels, levels', level, [f], [], [f], l, g);
    }
  }

  // Replacing the files by ones that hold no other entries.
  lemma NewFilesKeepStructure(st: State, st': State)
    requires Structure(st)
    requires LevelInvariant(st'.levels) && OrderedLevels(st'.levels) && NumbersUsed(st'.levels, st'.nextFile)
    requires AllEntries(st'.levels) <= AllEntries(st.levels)
    requires st'.floor == st.floor || st'.floor == SmallestSnapshot(st)
    requires st' == st.(levels := st'.levels, nextFile := st'.nextFile, floor := st'.floor)
    ensures Structure(st')
  {
    MovedKeepsMemNewer(st.mem, st.levels, st'.levels);
    if st.imm.Some? {
      MovedKeepsMemNewer(st.imm.value, st.levels, st'.levels);
    }
    assert All(st') <= All(st);
  }

  lemma JobKeepsLevels(levels: Levels, levels': Levels, job: Job, nextFile: nat)
    requires LevelInvariant(levels) && OrderedLevels(levels) && NumbersUsed(levels, nextFile)
    requires job.level + 1 < NUM_LEVELS && CompactionInputs(levels, job.level, job.in0, job.in1)
    requires Moved(levels, levels', job.level, job.in0, job.in1, job.outs)
    requires GoodFiles(job.outs) && SortedDisjoint(job.outs)
    requires forall f, e | f in job.outs && e in f.entries :: Holds(job.in0 + job.in1, e)
    requires forall k | 0 <= k < |job.outs| :: job.outs[k].number == nextFile + k
    ensures LevelInvariant(levels') && OrderedLevels(levels') && NumbersUsed(levels', nextFile + |job.outs|)
    ensures AllEntries(levels') <= AllEntries(levels)
  {
    MovedKeepsInvariant(levels, levels', job.level, job.in0, job.in1, job.outs);
    MovedKeepsNumbers(levels, levels', job.level, job.in0, job.in1, job.outs, nextFile);
  }

  lemma CompactKeepsStructure(st: State, st': State, job: Job)
    requires Structure(st) && CompactStep(st, st', job)
    ensures Structure(st')
  {
    hide AgeOrdered, SortedLevels, OrderedLevels, NumbersUsed, SeqUnique, UpTo, NewerThanFiles, NewerEntries, Sorted;
    OutputsHoldInputs(st, job);
    JobKeepsLevels(st.levels, st'.levels, job, st.nextFile);
    NewFilesKeepStructure(st, st');
  }

  lemma MoveKeepsLevels(levels: Levels, levels': Levels, level: nat, f: FileMeta)
    requires LevelInvariant(levels) && OrderedLevels(levels)
    requires level + 1 < NUM_LEVELS && CompactionInputs(levels, level, [f], [])
    requires Moved(levels, levels', level, [f], [], [f])
    ensures LevelInvariant(levels') && OrderedLevels(levels')
    ensures f in levels[level]
  {
    assert f in [f];
    assert GoodFiles([f]) && SortedDisjoint([f]);
    forall g, e | g in [f] && e in g.entries
      ensures Holds([f] + [], e)
    {
      assert f in [f] + [];
    }
    MovedKeepsInvariant(levels, levels', level, [f], [], [f]);
  }

  lemma MoveKeepsStructure(st: State, st': State, level: nat, f: FileMeta)
    requires Structure(st) && MoveStep(st, st', level, f)
    ensures Structure(st') && All(st') == All(st)
  {
    MoveKeepsLevels(st.levels, st'.levels, level, f);
    MovedFileKeepsNumbers(st.levels, st'.levels, level, f, st.nextFile);
    MoveKeepsEntries(st.levels, st'.levels, level, f);
    NewFilesKeepStructure(st, st');
    assert All(st') == All(st);
  }

  lemma MoveKeepsEntries(levels: Levels, levels': Levels, level: nat, f: FileMeta)
    requires Moved(levels, levels', level, [f], [], [f]) && f in levels[level]
    ensures AllEntries(levels) == AllEntries(levels')
  {
    forall e
      ensures e in AllEntries(levels) <==> e in AllEntries(levels')
    {
      if e in AllEntries(levels) {
        var l, g :| 0 <= l < |levels| && g in levels[l] && e in g.entries;
        if l == level && g == f {
          AllEntriesMember(levels', level + 1, f, e);
        } else {
          AllEntriesMember(levels', l, g, e);
        }
      }
      if e in AllEntries(levels') {
        var l, g :| 0 <= l < |levels'| && g in levels'[l] && e in g.entries;
        if g == f {
          AllEntriesMember(levels, level, f, e);
        } else {
          AllEntriesMember(levels, l, g, e);
        }
      }
    }
  }

  lemma LevelsBefore(levels: Levels, level: nat, in0: seq<FileMeta>, in1: seq<FileMeta>, merged: seq<Entry>)
    requires |levels| == NUM_LEVELS && level + 1 < NUM_LEVELS
    requires AllIn(in0, levels[level]) && AllIn(in1, levels[level + 1]) && MergeOf(merged, in0 + in1)
    ensures AllEntries(levels) == LeftOut(levels, level, in0, in1) + ToSet(merged)
  {
    forall e
      ensures e in AllEntries(levels) <==> e in LeftOut(levels, level, in0, in1) || e in merged
    {
      if e in AllEntries(levels) {
        var l, f :| 0 <= l < |levels| && f in levels[l] && e in f.entries;
        if Taken(level, in0, in1, l, f) {
          assert f in in0 + in1;
          assert Holds(in0 + in1, e);
        }
      }
      if e in merged {
        assert Holds(in0 + in1, e);
        var f :| f in in0 + in1 && e in f.entries;
        AllEntriesMember(levels, if f in in0 then level else level + 1, f, e);
      }
    }
  }

  lemma LevelsAfter(levels: Levels, levels': Levels, level: nat, in0: seq<FileMeta>, in1: seq<FileMeta>,
                    outs: seq<FileMeta>)
    requires Moved(levels, levels', level, in0, in1, outs)
    ensures AllEntries(levels') == LeftOut(levels, level, in0, in1) + ToSet(Concat(outs))
  {
    ConcatContains(outs);
    forall e
      ensures e in AllEntries(levels') <==> e in LeftOut(levels, level, in0, in1) || e in Concat(outs)
    {
      if e in AllEntries(levels') {
        var l, f :| 0 <= l < |levels'| && f in levels'[l] && e in f.entries;
        MovedFile(levels, levels', level, in0, in1, outs, l, f);
        if l == level + 1 && f in outs {
          var k :| 0 <= k < |outs| && outs[k] == f;
        }
      }
      if e in LeftOut(levels, level, in0, in1) {
        var l, f :| 0 <= l < |levels| && f in levels[l] && e in f.entries && !Taken(level, in0, in1, l, f);
        MovedFile(levels, levels', level, in0, in1, outs, l, f);
        AllEntriesMember(levels', l, f, e);
      }
      if e in Concat(outs) {
        var k :| 0 <= k < |outs| && e in outs[k].entries;
        MovedFile(levels, levels', level, in0, in1, outs, level + 1, outs[k]);
        AllEntriesMember(levels', level + 1, outs[k], e);
      }
    }
  }

  // Before: untouched entries and inputs. After: untouched entries and survivors.
  lemma CompactEntries(st: State, st': State, job: Job)
    requires |st.levels| == NUM_LEVELS && CompactStep(st, st', job)
    ensures All(st) == Untouched(st, job) + ToSet(job.merged)
    ensures All(st') == After(Untouched(st, job), st.levels, job.level, job.merged, SmallestSnapshot(st))
  {
    InputsInLevels(st.levels, job.level, job.in0, job.in1);
    LevelsBefore(st.levels, job.level, job.in0, job.in1, job.merged);
    LevelsAfter(st.levels, st'.levels, job.level, job.in0, job.in1, job.outs);
  }

  // A compaction leaves readers alone exactly when it resurrects no user key.
  lemma CompactKeepsReadsIffSafe(st: State, st': State, job: Job)
    requires Structure(st) && ReadsAgree(st) && CompactStep(st, st', job)
    ensures ReadsAgree(st') <==> Safe(st, Compact(job))
  {
    hide AgeOrdered, OrderedLevels, NumbersUsed, SeqUnique, UpTo, NewerThanFiles, NewerEntries, Sorted;
    hide CompactionInputs, Moved, OutputsOf, Resurrects, Newest;
    var rest := Untouched(st, job);
    var ss := SmallestSnapshot(st);
    CompactEntries(st, st', job);
    HistoryIsUnique(st);
    AgreementIff(rest, st.levels, job, ss, All(st), All(st'), st.history, st.floor);
  }

  lemma AgreementIff(rest: set<Entry>, levels: Levels, job: Job, ss: nat,
                     a: set<Entry>, b: set<Entry>, history: set<Entry>, floor: nat)
    requires Sorted(job.merged) && ss >= floor && SeqUnique(a)
    requires a == rest + ToSet(job.merged) && b == After(rest, levels, job.level, job.merged, ss)
    requires forall u: UserKey, s: nat | s >= floor :: Read(a, u, s) == Read(history, u, s)
    ensures (forall u: UserKey, s: nat | s >= ss :: Read(b, u, s) == Read(history, u, s)) <==>
            forall u: UserKey :: !Resurrects(rest, levels, job.level, job.merged, ss, u)
  {
    ReadsKeptIffNoResurrection(rest, levels, job.level, job.merged, ss);
    SameHistory(a, b, history, floor, ss);
  }

  lemma HistoryIsUnique(st: State)
    requires Structure(st)
    ensures SeqUnique(All(st)) && SmallestSnapshot(st) >= st.floor
  {
  }

  lemma SameHistory(a: set<Entry>, b: set<Entry>, history: set<Entry>, floor: nat, ss: nat)
    requires ss >= floor
    requires forall u: UserKey, s: nat | s >= floor :: Read(a, u, s) == Read(history, u, s)
    ensures (forall u: UserKey, s: nat | s >= ss :: Read(b, u, s) == Read(history, u, s)) <==>
            (forall u: UserKey, s: nat | s >= ss :: Read(b, u, s) == Read(a, u, s))
  {
    forall u: UserKey, s: nat | s >= ss
      ensures Read(a, u, s) == Read(history, u, s)
    {
    }
  }

  // ---------------------------------------------------------------------------
  // Steps and runs
  // ---------------------------------------------------------------------------

  lemma SnapshotsKeepInvariants(st: State, st': State, i: nat)
    requires Structure(st) && (SnapshotStep(st, st') || ReleaseStep(st, st', i))
    ensures Structure(st') && (ReadsAgree(st) ==> ReadsAgree(st'))
  {
    hide StoreInvariant, OrderedLevels, NumbersUsed, SeqUnique, UpTo;
  }

  lemma StepKeepsStructure(st: State, st': State, step: Step)
    requires Structure(st) && Next(st, st', step)
    ensures Structure(st')
  {
    hide Structure, WriteStep, SwitchStep, FlushStep, CompactStep, MoveStep, SnapshotStep, ReleaseStep;
    match step
    case Write(batch) => WriteKeepsStructure(st, st', batch);
    case Switch => SwitchKeepsStructure(st, st');
    case Flush(level, f) => FlushKeepsStructure(st, st', level, f);
    case Compact(job) => CompactKeepsStructure(st, st', job);
    case Move(level, f) => MoveKeepsStructure(st, st', level, f);
    case TakeSnapshot => SnapshotsKeepInvariants(st, st', 0);
    case ReleaseSnapshot(i) => SnapshotsKeepInvariants(st, st', i);
  }

  // Steps that leave the stored entries, the history and the floor alone.
  lemma SameEntriesKeepReads(st: State, st': State)
    requires All(st') == All(st) && st'.history == st.history && st'.floor == st.floor && ReadsAgree(st)
    ensures ReadsAgree(st')
  {
  }

  lemma FlushKeepsReads(st: State, st': State, level: nat, f: FileMeta)
    requires Structure(st) && ReadsAgree(st) && FlushStep(st, st', level, f)
    ensures ReadsAgree(st')
  {
    FlushKeepsStructure(st, st', level, f);
    hide Structure, ReadsAgree, FlushLevel, Replaced;
    SameEntriesKeepReads(st, st');
  }

  lemma MoveKeepsReads(st: State, st': State, level: nat, f: FileMeta)
    requires Structure(st) && ReadsAgree(st) && MoveStep(st, st', level, f)
    ensures ReadsAgree(st')
  {
    MoveKeepsStructure(st, st', level, f);
    hide Structure, ReadsAgree, CompactionInputs, Moved;
    SameEntriesKeepReads(st, st');
  }

  lemma SwitchKeepsReads(st: State, st': State)
    requires Structure(st) && ReadsAgree(st) && SwitchStep(st, st')
    ensures ReadsAgree(st')
  {
    SwitchKeepsStructure(st, st');
    hide Structure, ReadsAgree;
    SameEntriesKeepReads(st, st');
  }

  // Every step keeps the reads of every snapshot that matters exactly when it is safe.
  lemma StepKeepsReads(st: State, st': State, step: Step)
    requires Structure(st) && ReadsAgree(st) && Next(st, st', step)
    ensures ReadsAgree(st') <==> Safe(st, step)
  {
    hide Structure, ReadsAgree, WriteStep, SwitchStep, FlushStep, CompactStep, MoveStep, SnapshotStep, ReleaseStep;
    match step
    case Write(batch) => WriteKeepsReads(st, st', batch);
    case Switch => SwitchKeepsReads(st, st');
    case Flush(level, f) => FlushKeepsReads(st, st', level, f);
    case Compact(job) => CompactKeepsReadsIffSafe(st, st', job);
    case Move(level, f) => MoveKeepsReads(st, st', level, f);
    case TakeSnapshot => SnapshotsKeepInvariants(st, st', 0);
    case ReleaseSnapshot(i) => SnapshotsKeepInvariants(st, st', i);
  }

  // A run from the empty database.
  ghost predicate Run(states: seq<State>, steps: seq<Step>) {
    && |states| == |steps| + 1
    && Initial(states[0])
    && forall i | 0 <= i < |steps| :: |states[i].levels| == NUM_LEVELS && Next(states[i], states[i + 1], steps[i])
  }

  lemma InitialInvariants(st: State)
    requires Initial(st)
    ensures Structure(st) && ReadsAgree(st)
  {
    assert AllEntries(st.levels) == {};
    assert All(st) == {};
  }

  // The level and memtable invariants hold in every reachable state.
  lemma {:induction false} RunKeepsStructure(states: seq<State>, steps: seq<Step>, n: nat)
    requires Run(states, steps) && n < |states|
    ensures Structure(states[n])
  {
    hide Structure, Next, Initial;
    if n == 0 {
      InitialInvariants(states[0]);
    } else {
      RunKeepsStructure(states, steps, n - 1);
      StepKeepsStructure(states[n - 1], states[n], steps[n - 1]);
    }
  }

  // In a run of safe steps every snapshot at or above the floor, so every live one, reads what was written.
  lemma {:induction false} RunReadsAgree(states: seq<State>, steps: seq<Step>, n: nat)
    requires Run(states, steps) && n < |states|
    requires forall i | 0 <= i < n :: Safe(states[i], steps[i])
    ensures ReadsAgree(states[n])
    ensures forall i | 0 <= i < |states[n].snapshots| :: states[n].snapshots[i] >= states[n].floor
  {
    hide ReadsAgree, Next, Safe, Initial;
    RunKeepsStructure(states, steps, n);
    if n == 0 {
      InitialInvariants(states[0]);
    } else {
      RunReadsAgree(states, steps, n - 1);
      RunKeepsStructure(states, steps, n - 1);
      StepKeepsReads(states[n - 1], states[n], steps[n - 1]);
    }
  }

  // Get on any reachable state of such a run.
  method GetOnRun(ghost states: seq<State>, ghost steps: seq<Step>, ghost n: nat,
                  mem: MemTable, imm: MemTable?, levels: Levels, u: UserKey, s: nat,
                  ghost memParts: set<object>, ghost immParts: set<object>)
    returns (r: Option<string>)
    requires Run(states, steps) && n < |states| && levels == states[n].levels
    requires Held(mem, memParts, Some(states[n].mem)) && Held(imm, immParts, states[n].imm)
    requires forall i | 0 <= i < n :: Safe(states[i], steps[i])
    requires s >= states[n].floor
    ensures r == Read(states[n].history, u, s)
  {
    hide *;
    RunKeepsStructure(states, steps, n);
    RunReadsAgree(states, steps, n);
    ReadsHistory(states[n], u, s);
    r := Get(mem, imm, levels, u, s, states[n].mem, states[n].imm, memParts, immParts);
  }

  lemma ReadsHistory(st: State, u: UserKey, s: nat)
    requires Structure(st) && ReadsAgree(st) && s >= st.floor
    ensures StoreInvariant(st.mem, st.imm, st.levels)
    ensures Read(Stored(st.mem, st.imm, st.levels), u, s) == Read(st.history, u, s)
  {
    hide StoreInvariant, Read, Stored;
  }
}
