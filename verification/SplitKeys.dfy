/**
 When is a compaction safe? SetupOtherInputs adds boundary files at the compacted level only, so a
 file of the next level that is left out may share a user key with one that is merged.
 */
module SplitKeys {
  import opened Keys
  import opened Files
  import opened Picker
  import opened ReadPath
  import opened Compacting
  import opened VersionBuilder
  import opened LevelMoves
  import opened MergeInputs
  import opened Database

  // No left-out file of the next level shares a user key with a file that is merged.
  ghost predicate NoSplit(levelFiles: seq<FileMeta>, in1: seq<FileMeta>) {
    forall f, g | f in in1 && g in levelFiles && g !in in1 :: UserDisjoint(f, g)
  }

  lemma LeftOutBesideInput(levels: Levels, level: nat, in0: seq<FileMeta>, in1: seq<FileMeta>, h: FileMeta, g: FileMeta)
    requires |levels| == NUM_LEVELS && level + 1 < NUM_LEVELS && NextLevelInputs(levels[level + 1], in0, in1)
    requires h in in0 && g in levels[level + 1] && g !in in1
    ensures UserDisjoint(h, g)
  {
    var lo, hi :| && IsSmallestKey(in0, lo) && IsLargestKey(in0, hi)
                  && in1 == Select(levels[level + 1], Some(lo.user), Some(hi.user));
    SelectContains(levels[level + 1], Some(lo.user), Some(hi.user));
    assert !Less(h.smallest, lo) && !Less(hi, h.largest);
  }

  // A left-out file of the next level holds nothing for a user key of the inputs.
  lemma LeftOutElsewhere(levels: Levels, level: nat, in0: seq<FileMeta>, in1: seq<FileMeta>,
                         h: FileMeta, t: Entry, g: FileMeta, v: Entry)
    requires |levels| == NUM_LEVELS && level + 1 < NUM_LEVELS && NextLevelInputs(levels[level + 1], in0, in1)
    requires NoSplit(levels[level + 1], in1)
    requires GoodFile(h) && GoodFile(g)
    requires h in in0 + in1 && t in h.entries
    requires g in levels[level + 1] && g !in in1 && v in g.entries
    ensures v.key.user != t.key.user
  {
    hide GoodFile, NextLevelInputs, Less;
    FileBounds(h, t);
    FileBounds(g, v);
    if h in in0 {
      LeftOutBesideInput(levels, level, in0, in1, h, g);
    }
  }

  // An untouched table entry for the user key of an input entry is newer, unless it lies below.
  lemma UntouchedTableEntry(levels: Levels, level: nat, in0: seq<FileMeta>, in1: seq<FileMeta>,
                            t: Entry, l: nat, g: FileMeta, v: Entry)
    requires LevelInvariant(levels) && level + 1 < NUM_LEVELS && CompactionInputs(levels, level, in0, in1)
    requires NoSplit(levels[level + 1], in1) && Holds(in0 + in1, t)
    requires BaseLevel(levels, level, t.key.user)
    requires l < NUM_LEVELS && g in levels[l] && v in g.entries && !Taken(level, in0, in1, l, g)
    requires v.key.user == t.key.user
    ensures v.key.sequence > t.key.sequence
  {
    InputsInLevels(levels, level, in0, in1);
    var h :| h in in0 + in1 && t in h.entries;
    FileBounds(g, v);
    if l <= level {
      StayingIsNewer(levels, level, in0, in1, l, g, h);
    } else if l == level + 1 {
      LeftOutElsewhere(levels, level, in0, in1, h, t, g, v);
    }
  }

  lemma MemoryIsNewer(es: seq<Entry>, levels: Levels, level: nat, in0: seq<FileMeta>, in1: seq<FileMeta>,
                      t: Entry, v: Entry)
    requires |levels| == NUM_LEVELS && level + 1 < NUM_LEVELS && CompactionInputs(levels, level, in0, in1)
    requires NewerThanFiles(es, levels) && Holds(in0 + in1, t) && v in es && v.key.user == t.key.user
    ensures v.key.sequence > t.key.sequence
  {
    InputsInLevels(levels, level, in0, in1);
    var h :| h in in0 + in1 && t in h.entries;
    hide CompactionInputs;
    var l := if h in in0 then level else level + 1;
    assert h in levels[l];
    assert NewerEntries(es, h.entries);
  }

  lemma UntouchedIsNewer(st: State, job: Job, t: Entry, v: Entry)
    requires Structure(st) && job.level + 1 < NUM_LEVELS
    requires CompactionInputs(st.levels, job.level, job.in0, job.in1) && NoSplit(st.levels[job.level + 1], job.in1)
    requires Holds(job.in0 + job.in1, t) && BaseLevel(st.levels, job.level, t.key.user)
    requires v in Untouched(st, job) && v.key.user == t.key.user
    ensures v.key.sequence > t.key.sequence
  {
    hide OrderedLevels, NumbersUsed, SeqUnique, UpTo, Sorted, BaseLevel, CompactionInputs, NoSplit, AgeOrdered, Holds,
         NewerThanFiles, NewerEntries;
    if v in LeftOut(st.levels, job.level, job.in0, job.in1) {
      var l, g :| 0 <= l < |st.levels| && g in st.levels[l] && v in g.entries && !Taken(job.level, job.in0, job.in1, l, g);
      UntouchedTableEntry(st.levels, job.level, job.in0, job.in1, t, l, g, v);
    } else {
      var es := if v in ToSet(st.mem) then st.mem else st.imm.value;
      assert v in es;
      MemoryIsNewer(es, st.levels, job.level, job.in0, job.in1, t, v);
    }
  }

  // File metadata alone can rule the problem out.
  lemma NoSplitIsSafe(st: State, job: Job)
    requires Structure(st) && job.level + 1 < NUM_LEVELS
    requires CompactionInputs(st.levels, job.level, job.in0, job.in1) && MergeOf(job.merged, job.in0 + job.in1)
    requires NoSplit(st.levels[job.level + 1], job.in1)
    ensures Safe(st, Compact(job))
  {
    var rest, ss := Untouched(st, job), SmallestSnapshot(st);
    forall u: UserKey, t, v | t in job.merged && t.key.user == u && BaseLevel(st.levels, job.level, u)
                              && v in rest && v.key.user == u
      ensures v.key.sequence > t.key.sequence
    {
      UntouchedIsNewer(st, job, t, v);
    }
    hide Structure, CompactionInputs, NoSplit, BaseLevel, Untouched, MergeOf;
    forall u: UserKey
      ensures !Resurrects(rest, st.levels, job.level, job.merged, ss, u)
    {
    }
  }

  // A step whose compaction, if it is one, splits no user key: file metadata decides it.
  ghost predicate SplitsNothing(st: State, step: Step) {
    step.Compact? ==>
      step.job.level + 1 < |st.levels| && NoSplit(st.levels[step.job.level + 1], step.job.in1)
  }

  lemma SplitsNothingIsSafe(st: State, st': State, step: Step)
    requires Structure(st) && Next(st, st', step) && SplitsNothing(st, step)
    ensures Safe(st, step)
  {
    hide Structure, CompactionInputs, MergeOf, OutputsOf, Moved, NoSplit, Safe;
    if step.Compact? {
      NoSplitIsSafe(st, step.job);
    } else {
      OnlyCompactionsMatter(st, step);
    }
  }

  lemma OnlyCompactionsMatter(st: State, step: Step)
    requires !step.Compact?
    ensures Safe(st, step)
  {
  }

  // In a run whose compactions split no user key every snapshot at or above the floor reads what was written.
  lemma RunWithoutSplitsReadsAgree(states: seq<State>, steps: seq<Step>, n: nat)
    requires Run(states, steps) && n < |states|
    requires forall i | 0 <= i < n :: SplitsNothing(states[i], steps[i])
    ensures ReadsAgree(states[n])
    ensures forall i | 0 <= i < |states[n].snapshots| :: states[n].snapshots[i] >= states[n].floor
  {
    hide ReadsAgree, Next, Safe, Initial, SplitsNothing, Structure;
    forall i | 0 <= i < n
      ensures Safe(states[i], steps[i])
    {
      RunKeepsStructure(states, steps, i);
      SplitsNothingIsSafe(states[i], states[i + 1], steps[i]);
    }
    RunReadsAgree(states, steps, n);
  }

  // ---------------------------------------------------------------------------
  // A run in which a deleted key comes back
  // ---------------------------------------------------------------------------

  const OLD_SEVEN := Entry(InternalKey(7.0, 1, TypeValue), "ghost")
  const OLD_FIVE := Entry(InternalKey(5.0, 2, TypeValue), "old")
  const GONE_SEVEN := Entry(InternalKey(7.0, 3, TypeDeletion), "")
  const NEW_FIVE := Entry(InternalKey(5.0, 4, TypeValue), "new")

  // All three first entries are flushed together; compacting them under a snapshot splits the deletion of 7 from
  // the value it hides.
  function Flushed(): FileMeta { MakeFile(2, [OLD_FIVE, GONE_SEVEN, OLD_SEVEN], 1) }
  function Left(): FileMeta { MakeFile(3, [OLD_FIVE, GONE_SEVEN], 1) }
  function Right(): FileMeta { MakeFile(4, [OLD_SEVEN], 1) }
  function Upper(): FileMeta { MakeFile(5, [NEW_FIVE], 1) }
  function Output(): FileMeta { MakeFile(6, [NEW_FIVE], 1) }

  function Levels23(two: seq<FileMeta>, three: seq<FileMeta>): Levels {
    [[], [], two, three, [], [], []]
  }

  function FirstJob(): Job {
    Job(2, [Flushed()], [], [OLD_FIVE, GONE_SEVEN, OLD_SEVEN], [Left(), Right()])
  }

  function SecondJob(): Job {
    Job(2, [Upper()], [Left()], [NEW_FIVE, OLD_FIVE, GONE_SEVEN], [Output()])
  }

  // The run, state by state and step by step.
  function Stage(i: nat): State
    requires i <= 11
  {
    if i == 0 then State([], None, Levels23([], []), 0, [], 2, {}, 0)
    else if i == 1 then State([OLD_SEVEN], None, Levels23([], []), 1, [], 2, {OLD_SEVEN}, 0)
    else if i == 2 then State([OLD_SEVEN], None, Levels23([], []), 1, [1], 2, {OLD_SEVEN}, 0)
    else if i == 3 then
      State([OLD_FIVE, GONE_SEVEN, OLD_SEVEN], None, Levels23([], []), 3, [1], 2, {OLD_FIVE, GONE_SEVEN, OLD_SEVEN}, 0)
    else if i == 4 then
      State([], Some([OLD_FIVE, GONE_SEVEN, OLD_SEVEN]), Levels23([], []), 3, [1], 2, {OLD_FIVE, GONE_SEVEN, OLD_SEVEN}, 0)
    else if i == 5 then
      State([], None, Levels23([Flushed()], []), 3, [1], 3, {OLD_FIVE, GONE_SEVEN, OLD_SEVEN}, 0)
    else if i == 6 then
      State([], None, Levels23([], [Left(), Right()]), 3, [1], 5, {OLD_FIVE, GONE_SEVEN, OLD_SEVEN}, 1)
    else if i == 7 then
      State([], None, Levels23([], [Left(), Right()]), 3, [], 5, {OLD_FIVE, GONE_SEVEN, OLD_SEVEN}, 1)
    else if i == 8 then
      State([NEW_FIVE], None, Levels23([], [Left(), Right()]), 4, [], 5, {OLD_FIVE, GONE_SEVEN, OLD_SEVEN, NEW_FIVE}, 1)
    else if i == 9 then
      State([], Some([NEW_FIVE]), Levels23([], [Left(), Right()]), 4, [], 5, {OLD_FIVE, GONE_SEVEN, OLD_SEVEN, NEW_FIVE}, 1)
    else if i == 10 then
      State([], None, Levels23([Upper()], [Left(), Right()]), 4, [], 6, {OLD_FIVE, GONE_SEVEN, OLD_SEVEN, NEW_FIVE}, 1)
    else
      State([], None, Levels23([], [Output(), Right()]), 4, [], 7, {OLD_FIVE, GONE_SEVEN, OLD_SEVEN, NEW_FIVE}, 4)
  }

  function StageStep(i: nat): Step
    requires i < 11
  {
    if i == 0 then Write([Put(7.0, "ghost")])
    else if i == 1 then TakeSnapshot
    else if i == 2 then Write([Put(5.0, "old"), Delete(7.0)])
    else if i == 3 then Switch
    else if i == 4 then Flush(2, Flushed())
    else if i == 5 then Compact(FirstJob())
    else if i == 6 then ReleaseSnapshot(0)
    else if i == 7 then Write([Put(5.0, "new")])
    else if i == 8 then Switch
    else if i == 9 then Flush(2, Upper())
    else Compact(SecondJob())
  }

  function RunStates(): seq<State> {
    seq(12, i requires 0 <= i < 12 => Stage(i))
  }

  function RunSteps(): seq<Step> {
    seq(11, i requires 0 <= i < 11 => StageStep(i))
  }

  lemma FileFacts()
    ensures GoodFile(Flushed()) && GoodFile(Upper()) && GoodFile(Left()) && GoodFile(Right()) && GoodFile(Output())
    ensures forall e :: e in Upper().entries <==> e == NEW_FIVE
    ensures forall e :: e in Left().entries <==> e == OLD_FIVE || e == GONE_SEVEN
    ensures forall e :: e in Right().entries <==> e == OLD_SEVEN
    ensures forall e :: e in Output().entries <==> e == NEW_FIVE
    ensures forall e :: e in Flushed().entries <==> e == OLD_FIVE || e == GONE_SEVEN || e == OLD_SEVEN
  {
  }

  lemma WriteStages()
    ensures Next(Stage(0), Stage(1), StageStep(0))
    ensures Next(Stage(2), Stage(3), StageStep(2))
    ensures Next(Stage(7), Stage(8), StageStep(7))
  {
    OneEntryBatch(Put(7.0, "ghost"), 1);
    OneEntryBatch(Put(5.0, "new"), 4);
    TwoEntryBatch(Put(5.0, "old"), Delete(7.0), 2);
    assert ToSet(Stage(1).mem) == {OLD_SEVEN} && ToSet(Stage(0).mem) == {};
    assert ToSet(Stage(3).mem) == {OLD_FIVE, GONE_SEVEN, OLD_SEVEN} && ToSet(Stage(2).mem) == {OLD_SEVEN};
    assert ToSet(Stage(8).mem) == {NEW_FIVE} && ToSet(Stage(7).mem) == {};
    hide BatchEntries;
    assert Stage(1).history == Stage(0).history + {OLD_SEVEN};
    assert Stage(3).history == Stage(2).history + {OLD_FIVE, GONE_SEVEN};
    assert Stage(8).history == Stage(7).history + {NEW_FIVE};
  }

  lemma OneEntryBatch(op: Change, first: nat)
    ensures BatchEntries([op], first) == {ChangeEntry(op, first)}
  {
    assert [op][0] == op;
  }

  lemma TwoEntryBatch(op: Change, op': Change, first: nat)
    ensures BatchEntries([op, op'], first) == {ChangeEntry(op, first), ChangeEntry(op', first + 1)}
  {
    assert [op, op'][0] == op && [op, op'][1] == op';
  }

  lemma PlainStages()
    ensures Next(Stage(1), Stage(2), StageStep(1))
    ensures Next(Stage(3), Stage(4), StageStep(3))
    ensures Next(Stage(6), Stage(7), StageStep(6))
    ensures Next(Stage(8), Stage(9), StageStep(8))
  {
    assert [1][..0] + [1][1..] == [];
  }

  lemma FlushStages()
    ensures Next(Stage(4), Stage(5), StageStep(4))
    ensures Next(Stage(9), Stage(10), StageStep(9))
  {
    assert Replaced([], [], [Flushed()], [Flushed()]);
    assert Replaced([], [], [Upper()], [Upper()]);
    hide Replaced, MakeFile;
    NothingTouched(Stage(4).levels, Flushed());
    NothingTouched(Stage(9).levels, Upper());
  }

  lemma NothingTouched(levels: Levels, f: FileMeta)
    requires |levels| == NUM_LEVELS && levels[0] == [] && levels[1] == [] && levels[2] == []
    ensures FlushLevel(levels, 2, f)
  {
  }

  // Every file number of a stage, once and at one level.
  lemma StageLevels(two: seq<FileMeta>, three: seq<FileMeta>, l: nat)
    requires l < NUM_LEVELS
    ensures Levels23(two, three)[l] == if l == 2 then two else if l == 3 then three else []
  {
  }

  // The compactions

  lemma OneInput(f: FileMeta, lo: UserKey, hi: UserKey, three: seq<FileMeta>, in1: seq<FileMeta>)
    requires f.smallest.user == lo && f.largest.user == hi && in1 == Select(three, Some(lo), Some(hi))
    ensures CompactionInputs(Levels23([f], three), 2, [f], in1)
  {
    assert IsSmallestKey([f], f.smallest) && IsLargestKey([f], f.largest) by {
      assert f in [f];
    }
    assert Mergeable([f], 2, [f]);
    hide Select, IsSmallestKey, IsLargestKey, Mergeable;
    assert NextLevelInputs(three, [f], in1);
  }

  lemma FirstMerge()
    ensures MergeOf(FirstJob().merged, [Flushed()] + [])
  {
    FileFacts();
    hide GoodFile, Flushed;
    assert Flushed() in [Flushed()] + [];
  }

  lemma SecondMerge()
    ensures MergeOf(SecondJob().merged, [Upper()] + [Left()])
  {
    FileFacts();
    hide GoodFile, Upper, Left;
    assert Upper() in [Upper()] + [Left()] && Left() in [Upper()] + [Left()];
  }

  // The snapshot at 1 keeps all three entries.
  lemma FirstDrops()
    ensures Survivors(Levels23([Flushed()], []), 2, FirstJob().merged, 3, 1) == FirstJob().merged
  {
    var m := FirstJob().merged;
    var levels := Levels23([Flushed()], []);
    assert m[0] == OLD_FIVE && m[1] == GONE_SEVEN && m[2] == OLD_SEVEN;
    assert !Hidden(m, 0, 1) && !Hidden(m, 1, 1) && !Hidden(m, 2, 1);
    assert Kept(levels, 2, m, 0, 1) && Kept(levels, 2, m, 1, 1) && Kept(levels, 2, m, 2, 1);
    hide Hidden, BaseLevel, Obsolete, Kept;
    assert Survivors(levels, 2, m, 1, 1) == [OLD_FIVE];
    assert Survivors(levels, 2, m, 2, 1) == [OLD_FIVE, GONE_SEVEN];
  }

  // With no snapshot left the deletion marker is dropped, as nothing lies below level 3.
  lemma SecondDrops()
    ensures Survivors(Levels23([Upper()], [Left(), Right()]), 2, SecondJob().merged, 3, 4) == [NEW_FIVE]
  {
    var m := SecondJob().merged;
    var levels := Levels23([Upper()], [Left(), Right()]);
    assert m[0] == NEW_FIVE && m[1] == OLD_FIVE && m[2] == GONE_SEVEN;
    assert !Hidden(m, 0, 4) && Hidden(m, 1, 4) && !Hidden(m, 2, 4);
    assert BaseLevel(levels, 2, 7.0);
    assert Obsolete(levels, 2, GONE_SEVEN, 4) && !Obsolete(levels, 2, NEW_FIVE, 4);
    assert Kept(levels, 2, m, 0, 4) && !Kept(levels, 2, m, 1, 4) && !Kept(levels, 2, m, 2, 4);
    hide Hidden, BaseLevel, Obsolete, Kept;
    assert Survivors(levels, 2, m, 1, 4) == [NEW_FIVE];
    assert Survivors(levels, 2, m, 2, 4) == [NEW_FIVE];
  }

  lemma FirstOutputs()
    ensures OutputsOf([Left(), Right()], [OLD_FIVE, GONE_SEVEN, OLD_SEVEN], 3)
  {
    FileFacts();
    hide GoodFile;
    assert [Left(), Right()][..1] == [Left()] && [Left()][..0] == [];
    assert Concat([Left()]) == [OLD_FIVE, GONE_SEVEN];
    assert [OLD_FIVE, GONE_SEVEN] + [OLD_SEVEN] == [OLD_FIVE, GONE_SEVEN, OLD_SEVEN];
  }

  lemma SecondOutputs()
    ensures OutputsOf([Output()], [NEW_FIVE], 6)
  {
    FileFacts();
    assert [Output()][..0] == [];
  }

  lemma FirstMoves()
    ensures Moved(Levels23([Flushed()], []), Levels23([], [Left(), Right()]), 2, [Flushed()], [], [Left(), Right()])
  {
    assert Ordered([Left(), Right()]);
    assert Replaced([Flushed()], [Flushed()], [], []);
    assert Replaced([], [], [Left(), Right()], [Left(), Right()]);
    hide Replaced, MakeFile;
  }

  lemma FirstCompaction()
    ensures Next(Stage(5), Stage(6), StageStep(5))
  {
    hide CompactionInputs, MergeOf, Survivors, OutputsOf, Moved, MakeFile, Flushed, Left, Right, Levels23;
    StageFive();
    OneInput(Flushed(), 5.0, 7.0, [], []);
    FirstMerge();
    FirstDrops();
    FirstOutputs();
    FirstMoves();
    hide Stage;
    assert CompactStep(Stage(5), Stage(6), FirstJob());
  }

  lemma StageFive()
    ensures Flushed().smallest.user == 5.0 && Flushed().largest.user == 7.0 && Select([], Some(5.0), Some(7.0)) == []
    ensures |Stage(5).levels| == NUM_LEVELS && Stage(5).levels == Levels23([Flushed()], [])
    ensures SmallestSnapshot(Stage(5)) == 1 && Stage(5).nextFile == 3
    ensures Stage(6) == Stage(5).(levels := Levels23([], [Left(), Right()]), nextFile := 5, floor := 1)
  {
  }

  lemma LeftOverlaps()
    ensures Select([Left(), Right()], Some(5.0), Some(5.0)) == [Left()]
  {
    assert [Left(), Right()][..1] == [Left()] && [Left()][..0] == [];
    assert Overlaps(Left(), Some(5.0), Some(5.0)) && !Overlaps(Right(), Some(5.0), Some(5.0));
    hide Overlaps;
    assert Select([Left()], Some(5.0), Some(5.0)) == [Left()];
  }

  lemma SecondMoves()
    ensures Moved(Levels23([Upper()], [Left(), Right()]), Levels23([], [Output(), Right()]), 2,
                  [Upper()], [Left()], [Output()])
  {
    assert Ordered([Output(), Right()]) && Left() != Right();
    assert Replaced([Upper()], [Upper()], [], []);
    assert Replaced([Left(), Right()], [Left()], [Output()], [Output(), Right()]);
    hide Replaced, MakeFile;
  }

  lemma SecondCompaction()
    ensures Next(Stage(10), Stage(11), StageStep(10))
  {
    hide CompactionInputs, MergeOf, Survivors, OutputsOf, Moved, MakeFile, Upper, Left, Right, Output, Levels23, Select;
    StageTen();
    LeftOverlaps();
    OneInput(Upper(), 5.0, 5.0, [Left(), Right()], [Left()]);
    SecondMerge();
    SecondDrops();
    SecondOutputs();
    SecondMoves();
    hide Stage;
    assert CompactStep(Stage(10), Stage(11), SecondJob());
  }

  lemma StageTen()
    ensures Upper().smallest.user == 5.0 && Upper().largest.user == 5.0
    ensures |Stage(10).levels| == NUM_LEVELS && Stage(10).levels == Levels23([Upper()], [Left(), Right()])
    ensures SmallestSnapshot(Stage(10)) == 4 && Stage(10).nextFile == 6
    ensures Stage(11) == Stage(10).(levels := Levels23([], [Output(), Right()]), nextFile := 7, floor := 4)
  {
  }

  lemma FirstStage()
    ensures Initial(Stage(0))
  {
    assert Levels23([], []) == seq(NUM_LEVELS, _ => []);
  }

  lemma StageNext(i: nat)
    requires i < 11
    ensures |Stage(i).levels| == NUM_LEVELS
    ensures Next(Stage(i), Stage(i + 1), StageStep(i))
  {
    hide *;
    StageHasLevels(i);
    if i == 0 || i == 2 || i == 7 {
      WriteStages();
    } else if i == 1 || i == 3 || i == 6 || i == 8 {
      PlainStages();
    } else if i == 4 || i == 9 {
      FlushStages();
    } else if i == 5 {
      FirstCompaction();
    } else {
      SecondCompaction();
    }
  }

  lemma StageHasLevels(i: nat)
    requires i <= 11
    ensures |Stage(i).levels| == NUM_LEVELS
  {
  }

  lemma StagesAreARun()
    ensures Run(RunStates(), RunSteps())
  {
    FirstStage();
    hide Next, Initial, Stage, StageStep;
    var states, steps := RunStates(), RunSteps();
    forall i | 0 <= i < |steps|
      ensures |states[i].levels| == NUM_LEVELS && Next(states[i], states[i + 1], steps[i])
    {
      StageNext(i);
    }
  }

  // What is stored before and after the second compaction.
  lemma EntriesBefore(e: Entry)
    ensures e in AllEntries(Levels23([Upper()], [Left(), Right()]))
            <==> e == NEW_FIVE || e == OLD_FIVE || e == GONE_SEVEN || e == OLD_SEVEN
  {
    FileFacts();
    var levels: Levels := Levels23([Upper()], [Left(), Right()]);
    hide GoodFile, Upper, Left, Right;
    assert levels[2] == [Upper()] && levels[3] == [Left(), Right()];
    AllEntriesMember(levels, 2, Upper(), NEW_FIVE);
    AllEntriesMember(levels, 3, Left(), OLD_FIVE);
    AllEntriesMember(levels, 3, Left(), GONE_SEVEN);
    AllEntriesMember(levels, 3, Right(), OLD_SEVEN);
    if e in AllEntries(levels) {
      var l: int, f: FileMeta :| 0 <= l < |levels| && f in levels[l] && e in f.entries;
      StageLevels([Upper()], [Left(), Right()], l);
    }
  }

  lemma EntriesAfter(e: Entry)
    ensures e in AllEntries(Levels23([], [Output(), Right()])) <==> e == NEW_FIVE || e == OLD_SEVEN
  {
    FileFacts();
    var levels: Levels := Levels23([], [Output(), Right()]);
    hide GoodFile, Output, Right;
    assert levels[3] == [Output(), Right()];
    AllEntriesMember(levels, 3, Output(), NEW_FIVE);
    AllEntriesMember(levels, 3, Right(), OLD_SEVEN);
    if e in AllEntries(levels) {
      var l: int, f: FileMeta :| 0 <= l < |levels| && f in levels[l] && e in f.entries;
      StageLevels([], [Output(), Right()], l);
    }
  }

  lemma StoredIs()
    ensures All(Stage(10)) == AllEntries(Levels23([Upper()], [Left(), Right()]))
    ensures All(Stage(11)) == AllEntries(Levels23([], [Output(), Right()]))
    ensures Stage(11).history == {OLD_FIVE, GONE_SEVEN, OLD_SEVEN, NEW_FIVE}
  {
    hide AllEntries, Levels23;
  }

  lemma ReadBefore(es: set<Entry>)
    requires es == {OLD_FIVE, GONE_SEVEN, OLD_SEVEN, NEW_FIVE}
    ensures Read(es, 7.0, 4) == None
  {
    assert Newest(es, 7.0, 4, GONE_SEVEN);
    ReadOfNewest(es, 7.0, 4, GONE_SEVEN);
  }

  lemma ReadAfter(es: set<Entry>)
    requires es == {OLD_SEVEN, NEW_FIVE}
    ensures Read(es, 7.0, 4) == Some("ghost")
  {
    assert Newest(es, 7.0, 4, OLD_SEVEN);
    ReadOfNewest(es, 7.0, 4, OLD_SEVEN);
  }

  lemma WhatReadersSee()
    ensures Read(All(Stage(10)), 7.0, 4) == None && Read(All(Stage(11)), 7.0, 4) == Some("ghost")
    ensures Read(Stage(11).history, 7.0, 4) == None
  {
    StoredIs();
    hide Stored, Stage, Read, AllEntries, Levels23;
    assert All(Stage(10)) == {OLD_FIVE, GONE_SEVEN, OLD_SEVEN, NEW_FIVE} by {
      forall e
        ensures e in All(Stage(10)) <==> e in {OLD_FIVE, GONE_SEVEN, OLD_SEVEN, NEW_FIVE}
      {
        EntriesBefore(e);
      }
    }
    assert All(Stage(11)) == {OLD_SEVEN, NEW_FIVE} by {
      forall e
        ensures e in All(Stage(11)) <==> e in {OLD_SEVEN, NEW_FIVE}
      {
        EntriesAfter(e);
      }
    }
    ReadBefore(All(Stage(10)));
    ReadBefore(Stage(11).history);
    ReadAfter(All(Stage(11)));
  }

  // A run of the empty database, every step but the last of them safe, whose last compaction lets a reader of 7 see
  // the value that was deleted. Its inputs are forced: level 2 has one file, and only Left overlaps it.
  lemma DeletedKeyComesBack()
    ensures Run(RunStates(), RunSteps()) && |RunSteps()| == 11
    ensures forall i | 0 <= i < 10 :: Safe(RunStates()[i], RunSteps()[i])
    ensures RunSteps()[10] == Compact(SecondJob()) && !Safe(RunStates()[10], RunSteps()[10])
    ensures Read(All(RunStates()[10]), 7.0, 4) == None && Read(All(RunStates()[11]), 7.0, 4) == Some("ghost")
  {
    StagesAreARun();
    WhatReadersSee();
    FirstIsSafe();
    var states, steps := RunStates(), RunSteps();
    hide Run, Structure, ReadsAgree, Next, Stored;
    forall i | 0 <= i < 10
      ensures Safe(states[i], steps[i])
    {
    }
    RunKeepsStructure(states, steps, 10);
    RunReadsAgree(states, steps, 10);
    LastIsNext();
    StepKeepsReads(states[10], states[11], steps[10]);
    NoLongerAgrees();
  }

  lemma LastIsNext()
    ensures Next(RunStates()[10], RunStates()[11], RunSteps()[10])
  {
    SecondCompaction();
    hide Next;
  }

  lemma FirstIsSafe()
    ensures Safe(Stage(5), Compact(FirstJob()))
  {
    hide Structure, CompactionInputs, MergeOf, Safe, MakeFile, Flushed, Stage, RunStates, RunSteps, Levels23, Run,
         NoSplit;
    StageFive();
    FirstNoSplit();
    StagesAreARun();
    RunKeepsStructure(RunStates(), RunSteps(), 5);
    OneInput(Flushed(), 5.0, 7.0, [], []);
    FirstMerge();
    NoSplitIsSafe(Stage(5), FirstJob());
  }

  lemma FirstNoSplit()
    ensures FirstJob().level == 2 && FirstJob().in0 == [Flushed()] && FirstJob().in1 == []
    ensures Levels23([Flushed()], [])[3] == [] && NoSplit([], [])
    ensures |RunStates()| == 12 && RunStates()[5] == Stage(5)
  {
  }

  lemma NoLongerAgrees()
    ensures !ReadsAgree(Stage(11))
  {
    WhatReadersSee();
    hide Stored;
    assert Read(All(Stage(11)), 7.0, 4) != Read(Stage(11).history, 7.0, 4);
  }
}
