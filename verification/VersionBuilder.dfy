/**
 VersionSet::Builder: applying version edits and saving the result, and replaying a manifest.
 */
module VersionBuilder {
  import opened Keys
  import opened Files
  import opened Picker

  // Increasing smallest key, ties broken by file number.
  predicate BySmallestKey(f: FileMeta, g: FileMeta) {
    Less(f.smallest, g.smallest) || (f.smallest == g.smallest && f.number < g.number)
  }

  // Neither comes first: the same element of a FileSet.
  predicate SameSlot(f: FileMeta, g: FileMeta) {
    f.smallest == g.smallest && f.number == g.number
  }

  ghost predicate Ordered(files: seq<FileMeta>) {
    forall i, j | 0 <= i < j < |files| :: BySmallestKey(files[i], files[j])
  }

  lemma SmallestTotal(f: FileMeta, g: FileMeta)
    ensures BySmallestKey(f, g) || BySmallestKey(g, f) || SameSlot(f, g)
    ensures !(BySmallestKey(f, g) && BySmallestKey(g, f))
    ensures SameSlot(f, g) ==> !BySmallestKey(f, g)
  {
  }

  lemma SmallestTransitive(f: FileMeta, g: FileMeta, h: FileMeta)
    requires BySmallestKey(f, g) && (BySmallestKey(g, h) || SameSlot(g, h))
    ensures BySmallestKey(f, h)
  {
  }

  // std::set::insert: an element already in the set stays.
  function InsertFile(f: FileMeta, files: seq<FileMeta>): seq<FileMeta> {
    if files == [] || BySmallestKey(f, files[0]) then [f] + files
    else if SameSlot(f, files[0]) then files
    else [files[0]] + InsertFile(f, files[1..])
  }

  lemma {:induction false} InsertFileOrdered(f: FileMeta, files: seq<FileMeta>)
    requires Ordered(files)
    ensures Ordered(InsertFile(f, files))
    ensures forall g :: g in InsertFile(f, files) <==>
              g in files || (g == f && forall h | h in files :: !SameSlot(f, h))
  {
    if files == [] {
    } else if BySmallestKey(f, files[0]) {
      forall h | h in files
        ensures BySmallestKey(f, h)
      {
        var k :| 0 <= k < |files| && files[k] == h;
        if k > 0 {
          SmallestTransitive(f, files[0], files[k]);
        }
      }
      forall h | h in files
        ensures !SameSlot(f, h)
      {
        SmallestTotal(f, h);
      }
    } else if SameSlot(f, files[0]) {
    } else {
      SmallestTotal(f, files[0]);
      var tail := files[1..];
      InsertFileOrdered(f, tail);
      assert files == [files[0]] + tail;
      var r := InsertFile(f, tail);
      forall k | 0 <= k < |r|
        ensures BySmallestKey(files[0], r[k])
      {
        assert r[k] in r;
        if r[k] in tail {
          var m :| 0 <= m < |tail| && tail[m] == r[k];
          assert files[m + 1] == r[k];
        }
      }
    }
  }

  // Two ordered lists with the same members are the same list.
  lemma {:induction false} OrderedUnique(a: seq<FileMeta>, b: seq<FileMeta>)
    requires Ordered(a) && Ordered(b)
    requires forall f :: f in a <==> f in b
    ensures a == b
  {
    hide BySmallestKey, SameSlot;
    assert a == [] || a[0] in a;
    assert b == [] || b[0] in b;
    if a != [] {
      FirstIsLeast(a, b[0]);
      FirstIsLeast(b, a[0]);
      assert a[0] in a && b[0] in b;
      assert a[0] == b[0] by {
        SmallestTotal(a[0], b[0]);
      }
      forall f
        ensures f in a[1..] <==> f in b[1..]
      {
        TailMember(a, f);
        TailMember(b, f);
      }
      OrderedUnique(a[1..], b[1..]);
      assert a == [a[0]] + a[1..] && b == [b[0]] + b[1..];
    }
  }

  lemma FirstIsLeast(a: seq<FileMeta>, f: FileMeta)
    requires Ordered(a) && f in a
    ensures f == a[0] || BySmallestKey(a[0], f)
  {
    var k :| 0 <= k < |a| && a[k] == f;
  }

  lemma TailMember(a: seq<FileMeta>, f: FileMeta)
    requires Ordered(a) && a != []
    ensures f in a[1..] <==> f in a && f != a[0]
  {
    if f in a[1..] {
      var k :| 0 <= k < |a| - 1 && a[1..][k] == f;
      assert a[k + 1] == f;
      SmallestTotal(a[0], f);
    }
    if f in a && f != a[0] {
      var k :| 0 <= k < |a| && a[k] == f;
      assert a[1..][k - 1] == f;
    }
  }

  // ---------------------------------------------------------------------------
  // SaveTo
  // ---------------------------------------------------------------------------

  function Live(files: seq<FileMeta>, deleted: set<nat>): seq<FileMeta> {
    if files == [] then []
    else
      var last := files[|files| - 1];
      Live(files[..|files| - 1], deleted) + if last.number in deleted then [] else [last]
  }

  lemma {:induction false} LiveMembers(files: seq<FileMeta>, deleted: set<nat>)
    ensures forall f :: f in Live(files, deleted) <==> f in files && f.number !in deleted
  {
    if files != [] {
      var n := |files| - 1;
      LiveMembers(files[..n], deleted);
      assert files == files[..n] + [files[n]];
    }
  }

  lemma {:induction false} LiveOrdered(files: seq<FileMeta>, deleted: set<nat>)
    requires Ordered(files)
    ensures Ordered(Live(files, deleted))
  {
    if files != [] {
      var n := |files| - 1;
      LiveOrdered(files[..n], deleted);
      LiveMembers(files[..n], deleted);
      var r := Live(files[..n], deleted);
      forall k | 0 <= k < |r|
        ensures BySmallestKey(r[k], files[n])
      {
        assert r[k] in r;
        var m :| 0 <= m < n && files[..n][m] == r[k];
        assert files[m] == r[k];
      }
    }
  }

  // v lists the files of base and added that are not deleted, in order.
  ghost predicate Saved(base: seq<FileMeta>, deleted: set<nat>, added: seq<FileMeta>, v: seq<FileMeta>) {
    && Ordered(v)
    && forall f :: f in v <==> (f in base || f in added) && f.number !in deleted
  }

  ghost predicate NoCommonSlot(base: seq<FileMeta>, added: seq<FileMeta>) {
    forall f, g | f in base && g in added :: !SameSlot(f, g)
  }

  // Base files go first as long as the next added file does not come before them.
  function MergeList(base: seq<FileMeta>, added: seq<FileMeta>): seq<FileMeta>
    decreases |base| + |added|
  {
    if added == [] then base
    else if base != [] && !BySmallestKey(added[0], base[0]) then [base[0]] + MergeList(base[1..], added)
    else [added[0]] + MergeList(base, added[1..])
  }

  lemma {:induction false} MergeMembers(base: seq<FileMeta>, added: seq<FileMeta>)
    ensures forall f :: f in MergeList(base, added) <==> f in base || f in added
    decreases |base| + |added|
  {
    hide BySmallestKey, SameSlot;
    if added == [] {
    } else if base != [] && !BySmallestKey(added[0], base[0]) {
      MergeMembers(base[1..], added);
      assert base == [base[0]] + base[1..];
    } else {
      MergeMembers(base, added[1..]);
      assert added == [added[0]] + added[1..];
    }
  }

  // Nothing added comes before the first base file, once the first added file does not.
  lemma BaseFirst(base: seq<FileMeta>, added: seq<FileMeta>)
    requires Ordered(base) && Ordered(added) && base != [] && added != [] && !BySmallestKey(added[0], base[0])
    ensures forall g | g in added :: BySmallestKey(base[0], g) <==> !SameSlot(base[0], g)
    ensures forall g | g in base[1..] :: BySmallestKey(base[0], g)
  {
    SmallestTotal(base[0], added[0]);
    forall g | g in added
      ensures BySmallestKey(base[0], g) <==> !SameSlot(base[0], g)
    {
      FirstIsLeast(added, g);
      SmallestTotal(base[0], g);
      if g != added[0] {
        if SameSlot(base[0], added[0]) {
          SameSlotTransitive(base[0], added[0], g);
        } else {
          SmallestTransitive(base[0], added[0], g);
        }
      }
    }
    forall g | g in base[1..]
      ensures BySmallestKey(base[0], g)
    {
      TailMember(base, g);
      FirstIsLeast(base, g);
    }
  }

  lemma AddedFirst(base: seq<FileMeta>, added: seq<FileMeta>)
    requires Ordered(base) && Ordered(added) && added != []
    requires base == [] || BySmallestKey(added[0], base[0])
    ensures forall g | g in base :: BySmallestKey(added[0], g) && !SameSlot(g, added[0])
    ensures forall g | g in added[1..] :: BySmallestKey(added[0], g)
  {
    forall g | g in base
      ensures BySmallestKey(added[0], g) && !SameSlot(g, added[0])
    {
      FirstIsLeast(base, g);
      if g != base[0] {
        SmallestTransitive(added[0], base[0], g);
      }
      SmallestTotal(added[0], g);
    }
    forall g | g in added[1..]
      ensures BySmallestKey(added[0], g)
    {
      TailMember(added, g);
      FirstIsLeast(added, g);
    }
  }

  lemma OrderedTail(a: seq<FileMeta>)
    requires Ordered(a) && a != []
    ensures Ordered(a[1..])
  {
  }

  lemma NothingCommon(base: seq<FileMeta>)
    ensures NoCommonSlot(base, [])
  {
  }

  lemma SlotsOfBase(base: seq<FileMeta>, added: seq<FileMeta>)
    requires base != []
    ensures NoCommonSlot(base, added) <==>
              NoCommonSlot(base[1..], added) && forall g | g in added :: !SameSlot(base[0], g)
  {
    assert base == [base[0]] + base[1..];
  }

  lemma SlotsOfAdded(base: seq<FileMeta>, added: seq<FileMeta>)
    requires added != []
    ensures NoCommonSlot(base, added) <==>
              NoCommonSlot(base, added[1..]) && forall f | f in base :: !SameSlot(f, added[0])
  {
    assert added == [added[0]] + added[1..];
  }

  // The merged list is strictly ordered exactly when no added file takes the slot of a base file.
  lemma {:induction false} MergeOrderedIffNoCommonSlot(base: seq<FileMeta>, added: seq<FileMeta>)
    requires Ordered(base) && Ordered(added)
    ensures Ordered(MergeList(base, added)) <==> NoCommonSlot(base, added)
    decreases |base| + |added|
  {
    hide BySmallestKey, SameSlot, NoCommonSlot;
    if added == [] {
      NothingCommon(base);
    } else if base != [] && !BySmallestKey(added[0], base[0]) {
      OrderedTail(base);
      MergeOrderedIffNoCommonSlot(base[1..], added);
      HeadOfMerge(base[0], base[1..], added);
      BaseFirst(base, added);
      SlotsOfBase(base, added);
    } else {
      OrderedTail(added);
      MergeOrderedIffNoCommonSlot(base, added[1..]);
      HeadOfMerge(added[0], base, added[1..]);
      AddedFirst(base, added);
      SlotsOfAdded(base, added);
    }
  }

  lemma SameSlotTransitive(f: FileMeta, g: FileMeta, h: FileMeta)
    requires SameSlot(f, g) && BySmallestKey(g, h)
    ensures BySmallestKey(f, h)
  {
  }

  lemma HeadOfMerge(head: FileMeta, base: seq<FileMeta>, added: seq<FileMeta>)
    ensures Ordered([head] + MergeList(base, added)) <==>
              Ordered(MergeList(base, added)) && forall g | g in base || g in added :: BySmallestKey(head, g)
  {
    var r := MergeList(base, added);
    var all := [head] + r;
    MergeMembers(base, added);
    if Ordered(all) {
      forall i, j | 0 <= i < j < |r|
        ensures BySmallestKey(r[i], r[j])
      {
        assert all[i + 1] == r[i] && all[j + 1] == r[j];
      }
      forall g | g in r
        ensures BySmallestKey(head, g)
      {
        var k :| 0 <= k < |r| && r[k] == g;
        assert all[0] == head && all[k + 1] == g;
      }
    }
  }

  function LiveOne(f: FileMeta, deleted: set<nat>): seq<FileMeta> {
    if f.number in deleted then [] else [f]
  }

  // What is left to emit once the first b base files and the first a added files are taken.
  function Remaining(base: seq<FileMeta>, b: nat, added: seq<FileMeta>, a: nat, deleted: set<nat>): seq<FileMeta>
    requires b <= |base| && a <= |added|
  {
    Live(MergeList(base[b..], added[a..]), deleted)
  }

  lemma {:induction false} LiveFront(f: FileMeta, files: seq<FileMeta>, deleted: set<nat>)
    ensures Live([f] + files, deleted) == LiveOne(f, deleted) + Live(files, deleted)
  {
    if files == [] {
      assert [f] + files == [f] && [f][..0] == [];
    } else {
      var n := |files| - 1;
      LiveFront(f, files[..n], deleted);
      assert ([f] + files)[..n + 1] == [f] + files[..n];
    }
  }

  lemma RemainingBase(base: seq<FileMeta>, b: nat, added: seq<FileMeta>, a: nat, deleted: set<nat>)
    requires b < |base| && a <= |added| && (a < |added| ==> !BySmallestKey(added[a], base[b]))
    ensures Remaining(base, b, added, a, deleted) ==
              LiveOne(base[b], deleted) + Remaining(base, b + 1, added, a, deleted)
  {
    assert base[b..] == [base[b]] + base[b + 1..];
    LiveFront(base[b], MergeList(base[b + 1..], added[a..]), deleted);
  }

  lemma RemainingAdded(base: seq<FileMeta>, b: nat, added: seq<FileMeta>, a: nat, deleted: set<nat>)
    requires b <= |base| && a < |added| && (b < |base| ==> BySmallestKey(added[a], base[b]))
    ensures Remaining(base, b, added, a, deleted) ==
              LiveOne(added[a], deleted) + Remaining(base, b, added, a + 1, deleted)
  {
    assert added[a..] == [added[a]] + added[a + 1..];
    LiveFront(added[a], MergeList(base[b..], added[a + 1..]), deleted);
  }

  lemma RemainingEnds(base: seq<FileMeta>, added: seq<FileMeta>, deleted: set<nat>)
    ensures Remaining(base, 0, added, 0, deleted) == Live(MergeList(base, added), deleted)
    ensures Remaining(base, |base|, added, |added|, deleted) == []
  {
    assert base[0..] == base && added[0..] == added;
  }

  method MaybeAddFile(v: seq<FileMeta>, deleted: set<nat>, f: FileMeta) returns (r: seq<FileMeta>)
    ensures r == v + LiveOne(f, deleted)
  {
    if f.number in deleted {
      r := v;
    } else {
      r := v + [f];
    }
  }

  // Merges added files into the base files of one level, skipping deleted ones.
  method SaveLevel(base: seq<FileMeta>, deleted: set<nat>, added: seq<FileMeta>) returns (v: seq<FileMeta>)
    ensures v == Live(MergeList(base, added), deleted)
  {
    hide Live, MergeList, BySmallestKey, LiveOne, Remaining;
    v := [];
    var b, a := 0, 0;
    RemainingEnds(base, added, deleted);
    while a < |added|
      invariant 0 <= b <= |base| && 0 <= a <= |added|
      invariant v + Remaining(base, b, added, a, deleted) == Live(MergeList(base, added), deleted)
    {
      // base files up to upper_bound of the next added file
      while b < |base| && !BySmallestKey(added[a], base[b])
        invariant 0 <= b <= |base|
        invariant v + Remaining(base, b, added, a, deleted) == Live(MergeList(base, added), deleted)
      {
        RemainingBase(base, b, added, a, deleted);
        v := MaybeAddFile(v, deleted, base[b]);
        b := b + 1;
      }
      RemainingAdded(base, b, added, a, deleted);
      v := MaybeAddFile(v, deleted, added[a]);
      a := a + 1;
    }
    while b < |base|
      invariant 0 <= b <= |base|
      invariant v + Remaining(base, b, added, a, deleted) == Live(MergeList(base, added), deleted)
    {
      RemainingBase(base, b, added, a, deleted);
      v := MaybeAddFile(v, deleted, base[b]);
      b := b + 1;
    }
  }

  lemma SavedWhenNoCommonSlot(base: seq<FileMeta>, deleted: set<nat>, added: seq<FileMeta>)
    requires Ordered(base) && Ordered(added) && NoCommonSlot(base, added)
    ensures Saved(base, deleted, added, Live(MergeList(base, added), deleted))
  {
    var m := MergeList(base, added);
    MergeMembers(base, added);
    MergeOrderedIffNoCommonSlot(base, added);
    LiveMembers(m, deleted);
    LiveOrdered(m, deleted);
  }

  // ---------------------------------------------------------------------------
  // Builder
  // ---------------------------------------------------------------------------

  // Numbers of deleted files, metadata of new ones and where compactions start next, with their levels.
  datatype VersionEdit = VersionEdit(deletedFiles: set<(nat, nat)>, newFiles: seq<(nat, FileMeta)>,
                                     compactPointers: seq<(nat, InternalKey)> := [])

  datatype LevelState = LevelState(deleted: set<nat>, added: seq<FileMeta>)

  const NO_CHANGE := LevelState({}, [])

  function DeletedAt(edit: VersionEdit, level: nat): set<nat> {
    set p | p in edit.deletedFiles && p.0 == level :: p.1
  }

  function AddAll(newFiles: seq<(nat, FileMeta)>, level: nat, st: LevelState): LevelState {
    if newFiles == [] then st
    else
      var last := newFiles[|newFiles| - 1];
      var before := AddAll(newFiles[..|newFiles| - 1], level, st);
      if last.0 == level then
        LevelState(before.deleted - {last.1.number}, InsertFile(last.1, before.added))
      else
        before
  }

  // The state of one level after an edit: deletions first, then additions, which undo deletions.
  function ApplyLevel(edit: VersionEdit, level: nat, st: LevelState): LevelState {
    AddAll(edit.newFiles, level, LevelState(st.deleted + DeletedAt(edit, level), st.added))
  }

  // The compaction pointers after some were set; the last one for a level counts.
  function PointersAfter(pointers: seq<(nat, InternalKey)>, m: map<nat, InternalKey>): map<nat, InternalKey> {
    if pointers == [] then m
    else
      var last := pointers[|pointers| - 1];
      PointersAfter(pointers[..|pointers| - 1], m)[last.0 := last.1]
  }

  class Builder {
    const base: Levels
    var levels: seq<LevelState>
    var compactPointer: map<nat, InternalKey>   // compact_pointer_ of the version set

    constructor (base: Levels)
      ensures this.base == base && compactPointer == map[]
      ensures |levels| == |base| && forall l | 0 <= l < |levels| :: levels[l] == NO_CHANGE
    {
      this.base := base;
      this.levels := seq(|base|, _ => NO_CHANGE);
      this.compactPointer := map[];
    }

    // The first loop of Apply.
    method SetPointers(pointers: seq<(nat, InternalKey)>)
      modifies this`compactPointer
      ensures compactPointer == PointersAfter(pointers, old(compactPointer))
    {
      var i := 0;
      while i < |pointers|
        invariant 0 <= i <= |pointers| && compactPointer == PointersAfter(pointers[..i], old(compactPointer))
      {
        assert pointers[..i + 1][..i] == pointers[..i];
        compactPointer := compactPointer[pointers[i].0 := pointers[i].1];
        i := i + 1;
      }
      assert pointers[..i] == pointers;
    }

    method Apply(edit: VersionEdit)
      requires |levels| == |base|
      requires forall p | p in edit.deletedFiles :: p.0 < |levels|
      requires forall p | p in edit.newFiles :: p.0 < |levels|
      modifies this
      ensures |levels| == |base|
      ensures forall l | 0 <= l < |levels| :: levels[l] == ApplyLevel(edit, l, old(levels)[l])
      ensures compactPointer == PointersAfter(edit.compactPointers, old(compactPointer))
    {
      SetPointers(edit.compactPointers);
      var todo := edit.deletedFiles;
      while todo != {}
        invariant todo <= edit.deletedFiles && |levels| == |base|
        invariant compactPointer == PointersAfter(edit.compactPointers, old(compactPointer))
        invariant forall l | 0 <= l < |levels| ::
          && levels[l].added == old(levels)[l].added
          && levels[l].deleted <= old(levels)[l].deleted + DeletedAt(edit, l)
          && old(levels)[l].deleted + DeletedAt(edit, l) <= levels[l].deleted + (set p | p in todo && p.0 == l :: p.1)
        decreases todo
      {
        var p :| p in todo;
        todo := todo - {p};
        levels := levels[p.0 := levels[p.0].(deleted := levels[p.0].deleted + {p.1})];
      }
      forall l | 0 <= l < |levels|
        ensures levels[l] == LevelState(old(levels)[l].deleted + DeletedAt(edit, l), old(levels)[l].added)
      {
      }
      ghost var start := levels;
      var i := 0;
      while i < |edit.newFiles|
        invariant 0 <= i <= |edit.newFiles| && |levels| == |base|
        invariant compactPointer == PointersAfter(edit.compactPointers, old(compactPointer))
        invariant forall l | 0 <= l < |levels| :: levels[l] == AddAll(edit.newFiles[..i], l, start[l])
      {
        var p := edit.newFiles[i];
        assert edit.newFiles[..i + 1][..i] == edit.newFiles[..i];
        var st := levels[p.0];
        levels := levels[p.0 := LevelState(st.deleted - {p.1.number}, InsertFile(p.1, st.added))];
        i := i + 1;
      }
      assert edit.newFiles[..i] == edit.newFiles;
    }

    method SaveTo() returns (v: Levels)
      requires |levels| == |base|
      ensures |v| == |base|
      ensures forall l | 0 <= l < |v| :: v[l] == Live(MergeList(base[l], levels[l].added), levels[l].deleted)
    {
      v := [];
      while |v| < |base|
        invariant |v| <= |base|
        invariant forall l | 0 <= l < |v| :: v[l] == Live(MergeList(base[l], levels[l].added), levels[l].deleted)
      {
        var files := SaveLevel(base[|v|], levels[|v|].deleted, levels[|v|].added);
        v := v + [files];
      }
    }
  }

  // ---------------------------------------------------------------------------
  // Replaying a manifest
  // ---------------------------------------------------------------------------

  // One Builder for all edits, as Recover does.
  function ReplayLevel(edits: seq<VersionEdit>, level: nat): LevelState {
    if edits == [] then NO_CHANGE
    else ApplyLevel(edits[|edits| - 1], level, ReplayLevel(edits[..|edits| - 1], level))
  }

  function RecoverLevel(base: seq<FileMeta>, edits: seq<VersionEdit>, level: nat): seq<FileMeta> {
    var st := ReplayLevel(edits, level);
    Live(MergeList(base, st.added), st.deleted)
  }

  // One Builder per edit, as LogAndApply does.
  function InstallLevel(base: seq<FileMeta>, edits: seq<VersionEdit>, level: nat): seq<FileMeta> {
    if edits == [] then base
    else
      var st := ApplyLevel(edits[|edits| - 1], level, NO_CHANGE);
      Live(MergeList(InstallLevel(base, edits[..|edits| - 1], level), st.added), st.deleted)
  }

  // A file number identifies its metadata.
  ghost predicate Identifying(u: set<FileMeta>) {
    forall f, g | f in u && g in u && f.number == g.number :: f == g
  }

  ghost predicate AddedFrom(newFiles: seq<(nat, FileMeta)>, level: nat, u: set<FileMeta>) {
    forall p | p in newFiles && p.0 == level :: p.1 in u
  }

  ghost function FilesAt(newFiles: seq<(nat, FileMeta)>, level: nat): set<FileMeta> {
    set p | p in newFiles && p.0 == level :: p.1
  }

  ghost function Numbers(files: set<FileMeta>): set<nat> {
    set f | f in files :: f.number
  }

  lemma {:induction false} AddAllMembers(newFiles: seq<(nat, FileMeta)>, level: nat, st: LevelState, u: set<FileMeta>)
    requires Identifying(u) && AddedFrom(newFiles, level, u) && Ordered(st.added)
    requires forall f | f in st.added :: f in u
    ensures var r := AddAll(newFiles, level, st);
            && Ordered(r.added)
            && (forall f :: f in r.added <==> f in st.added || f in FilesAt(newFiles, level))
            && r.deleted == st.deleted - Numbers(FilesAt(newFiles, level))
  {
    if newFiles == [] {
      assert Numbers(FilesAt(newFiles, level)) == {};
    } else {
      var n := |newFiles| - 1;
      var p := newFiles[n];
      var rest := newFiles[..n];
      assert newFiles == rest + [p];
      AddAllMembers(rest, level, st, u);
      var before := AddAll(rest, level, st);
      if p.0 == level {
        assert FilesAt(newFiles, level) == FilesAt(rest, level) + {p.1};
        assert Numbers(FilesAt(newFiles, level)) == Numbers(FilesAt(rest, level)) + {p.1.number};
        InsertFileOrdered(p.1, before.added);
        assert p.1 in u && forall h | h in before.added :: h in u;
      } else {
        assert FilesAt(newFiles, level) == FilesAt(rest, level);
      }
    }
  }

  // No edit adds a file that the version it is applied to already has at this level, nor, for a base that is not
  // the empty version recovery starts from, one that the base has.
  ghost predicate NeverReAdded(base: seq<FileMeta>, edits: seq<VersionEdit>, level: nat) {
    forall i | 0 <= i < |edits| :: AddsOnlyNew(base, InstallLevel(base, edits[..i], level), edits[i], level)
  }

  ghost predicate AddsOnlyNew(base: seq<FileMeta>, version: seq<FileMeta>, edit: VersionEdit, level: nat) {
    forall f | f in FilesAt(edit.newFiles, level) :: f !in base && f !in version
  }

  lemma {:induction false} ReplayInvariant(base: seq<FileMeta>, edits: seq<VersionEdit>, level: nat, u: set<FileMeta>)
    requires Ordered(base) && Identifying(u) && (forall f | f in base :: f in u)
    requires forall e | e in edits :: AddedFrom(e.newFiles, level, u)
    requires NeverReAdded(base, edits, level)
    ensures var st := ReplayLevel(edits, level);
            && Ordered(st.added)
            && (forall f | f in st.added :: f in u && f !in base)
            && Saved(base, st.deleted, st.added, InstallLevel(base, edits, level))
  {
    if edits == [] {
    } else {
      var n := |edits| - 1;
      var rest, e := edits[..n], edits[n];
      assert forall i | 0 <= i < n :: rest[i] == edits[i] && rest[..i] == edits[..i];
      assert forall x | x in rest :: x in edits;
      ReplayInvariant(base, rest, level, u);
      assert AddedFrom(e.newFiles, level, u) by {
        assert e in edits;
      }
      var st := ReplayLevel(rest, level);
      var prev := InstallLevel(base, rest, level);
      AddAllMembers(e.newFiles, level, LevelState(st.deleted + DeletedAt(e, level), st.added), u);
      AddAllMembers(e.newFiles, level, LevelState(NO_CHANGE.deleted + DeletedAt(e, level), []), u);
      var once := ApplyLevel(e, level, NO_CHANGE);
      forall f, g | f in prev && g in once.added
        ensures !SameSlot(f, g)
      {
        assert f in u && g in u;
        assert g in FilesAt(edits[n].newFiles, level);
        assert edits[..n] == rest;
      }
      SavedWhenNoCommonSlot(prev, once.deleted, once.added);
      StepAgrees(base, st, e, level, u, prev, InstallLevel(base, edits, level));
    }
  }

  lemma StepAgrees(base: seq<FileMeta>, st: LevelState, e: VersionEdit, level: nat, u: set<FileMeta>,
                   prev: seq<FileMeta>, next: seq<FileMeta>)
    requires Identifying(u) && AddedFrom(e.newFiles, level, u) && Ordered(st.added)
    requires (forall f | f in base :: f in u) && forall f | f in st.added :: f in u && f !in base
    requires forall f | f in FilesAt(e.newFiles, level) :: f !in base
    requires Saved(base, st.deleted, st.added, prev)
    requires var once := ApplyLevel(e, level, NO_CHANGE); Saved(prev, once.deleted, once.added, next)
    ensures var r := ApplyLevel(e, level, st);
            && Ordered(r.added)
            && (forall f | f in r.added :: f in u && f !in base)
            && Saved(base, r.deleted, r.added, next)
  {
    AddAllMembers(e.newFiles, level, LevelState(st.deleted + DeletedAt(e, level), st.added), u);
    AddAllMembers(e.newFiles, level, LevelState(NO_CHANGE.deleted + DeletedAt(e, level), []), u);
    var r := ApplyLevel(e, level, st);
    var news := FilesAt(e.newFiles, level);
    forall f
      ensures f in next <==> (f in base || f in r.added) && f.number !in r.deleted
    {
      if f in u {
        assert f.number in Numbers(news) <==> f in news by {
          if f.number in Numbers(news) {
            var g :| g in news && g.number == f.number;
            assert g in u;
          }
        }
      }
    }
  }

  // Recovering from the whole manifest gives the same files, in the same order, as installing edit by edit.
  lemma RecoverEqualsInstall(base: seq<FileMeta>, edits: seq<VersionEdit>, level: nat, u: set<FileMeta>)
    requires Ordered(base) && Identifying(u) && (forall f | f in base :: f in u)
    requires forall e | e in edits :: AddedFrom(e.newFiles, level, u)
    requires NeverReAdded(base, edits, level)
    ensures RecoverLevel(base, edits, level) == InstallLevel(base, edits, level)
  {
    ReplayInvariant(base, edits, level, u);
    var st := ReplayLevel(edits, level);
    forall f, g | f in base && g in st.added
      ensures !SameSlot(f, g)
    {
      assert f in u && g in u;
    }
    SavedWhenNoCommonSlot(base, st.deleted, st.added);
    OrderedUnique(RecoverLevel(base, edits, level), InstallLevel(base, edits, level));
  }

  // How often a file is listed

  lemma HeadCounts(files: seq<FileMeta>)
    requires files != []
    ensures multiset(files) == multiset{files[0]} + multiset(files[1..])
  {
    assert files == [files[0]] + files[1..];
  }

  lemma {:induction false} MergeCounts(base: seq<FileMeta>, added: seq<FileMeta>)
    ensures multiset(MergeList(base, added)) == multiset(base) + multiset(added)
    decreases |base| + |added|
  {
    hide BySmallestKey;
    var r := MergeList(base, added);
    if added == [] {
    } else if base != [] && !BySmallestKey(added[0], base[0]) {
      MergeCounts(base[1..], added);
      HeadCounts(base);
      assert r[0] == base[0] && r[1..] == MergeList(base[1..], added);
      HeadCounts(r);
    } else {
      MergeCounts(base, added[1..]);
      HeadCounts(added);
      assert r[0] == added[0] && r[1..] == MergeList(base, added[1..]);
      HeadCounts(r);
    }
  }

  lemma {:induction false} LiveCounts(files: seq<FileMeta>, deleted: set<nat>, f: FileMeta)
    requires f.number !in deleted
    ensures multiset(Live(files, deleted))[f] == multiset(files)[f]
  {
    if files != [] {
      var n := |files| - 1;
      LiveCounts(files[..n], deleted, f);
      assert files == files[..n] + [files[n]];
    }
  }

  lemma {:induction false} OrderedCounts(files: seq<FileMeta>, f: FileMeta)
    requires Ordered(files)
    ensures multiset(files)[f] <= 1
  {
    if files != [] {
      var n := |files| - 1;
      assert files == files[..n] + [files[n]];
      OrderedCounts(files[..n], f);
      forall k | 0 <= k < n
        ensures files[..n][k] != files[n]
      {
        SmallestTotal(files[k], files[n]);
      }
    }
  }

  // Recovery starts from the empty version, and its list is in order whatever the edits do.
  lemma {:induction false} ReplayOrdered(edits: seq<VersionEdit>, level: nat, u: set<FileMeta>)
    requires Identifying(u) && forall e | e in edits :: AddedFrom(e.newFiles, level, u)
    ensures var st := ReplayLevel(edits, level); Ordered(st.added) && forall f | f in st.added :: f in u
  {
    if edits != [] {
      var n := |edits| - 1;
      assert edits[n] in edits && forall e | e in edits[..n] :: e in edits;
      ReplayOrdered(edits[..n], level, u);
      var st := ReplayLevel(edits[..n], level);
      AddAllMembers(edits[n].newFiles, level, LevelState(st.deleted + DeletedAt(edits[n], level), st.added), u);
    }
  }

  lemma RecoverOrdered(edits: seq<VersionEdit>, level: nat, u: set<FileMeta>)
    requires Identifying(u) && forall e | e in edits :: AddedFrom(e.newFiles, level, u)
    ensures Ordered(RecoverLevel([], edits, level))
  {
    ReplayOrdered(edits, level, u);
    var st := ReplayLevel(edits, level);
    SavedWhenNoCommonSlot([], st.deleted, st.added);
  }

  // Installing an edit that adds a file the version already lists lists it once more.
  lemma ReAddingDoubles(edits: seq<VersionEdit>, level: nat, u: set<FileMeta>, i: nat, f: FileMeta)
    requires Identifying(u) && forall e | e in edits :: AddedFrom(e.newFiles, level, u)
    requires i < |edits| && f in FilesAt(edits[i].newFiles, level) && f in InstallLevel([], edits[..i], level)
    ensures !Ordered(InstallLevel([], edits[..i + 1], level))
  {
    var prev := InstallLevel([], edits[..i], level);
    assert edits[..i + 1][..i] == edits[..i] && edits[i] in edits;
    AddAllMembers(edits[i].newFiles, level, LevelState(NO_CHANGE.deleted + DeletedAt(edits[i], level), []), u);
    var once := ApplyLevel(edits[i], level, NO_CHANGE);
    assert f.number in Numbers(FilesAt(edits[i].newFiles, level));
    MergeCounts(prev, once.added);
    LiveCounts(MergeList(prev, once.added), once.deleted, f);
    var next := Live(MergeList(prev, once.added), once.deleted);
    assert multiset(prev)[f] >= 1 && multiset(once.added)[f] >= 1;
    if Ordered(next) {
      OrderedCounts(next, f);
    }
  }

  // The exact condition: recovery agrees with installing, whichever edit the log ends with, if and only if no edit
  // adds a file that the version it is applied to already lists.
  lemma RecoverAgreesIffNeverReAdded(edits: seq<VersionEdit>, level: nat, u: set<FileMeta>)
    requires Identifying(u) && forall e | e in edits :: AddedFrom(e.newFiles, level, u)
    ensures (forall n | 0 <= n <= |edits| :: RecoverLevel([], edits[..n], level) == InstallLevel([], edits[..n], level))
            <==> NeverReAdded([], edits, level)
  {
    if NeverReAdded([], edits, level) {
      forall n | 0 <= n <= |edits|
        ensures RecoverLevel([], edits[..n], level) == InstallLevel([], edits[..n], level)
      {
        PrefixNeverReAdds(edits, level, n);
        assert forall e | e in edits[..n] :: e in edits;
        RecoverEqualsInstall([], edits[..n], level, u);
      }
    } else {
      var i :| 0 <= i < |edits| && !AddsOnlyNew([], InstallLevel([], edits[..i], level), edits[i], level);
      var f :| f in FilesAt(edits[i].newFiles, level) && f in InstallLevel([], edits[..i], level);
      ReAddingDoubles(edits, level, u, i, f);
      assert forall e | e in edits[..i + 1] :: e in edits;
      RecoverOrdered(edits[..i + 1], level, u);
      assert RecoverLevel([], edits[..i + 1], level) != InstallLevel([], edits[..i + 1], level);
    }
  }

  lemma PrefixNeverReAdds(edits: seq<VersionEdit>, level: nat, n: nat)
    requires NeverReAdded([], edits, level) && n <= |edits|
    ensures NeverReAdded([], edits[..n], level)
  {
    hide InstallLevel, FilesAt;
    var prefix := edits[..n];
    forall i | 0 <= i < |prefix|
      ensures AddsOnlyNew([], InstallLevel([], prefix[..i], level), prefix[i], level)
    {
      assert prefix[..i] == edits[..i] && prefix[i] == edits[i];
    }
  }

  // The least failing log: two edits that add the same file. The installed version lists it twice, the recovered one
  // once.
  lemma ReAddedFileIsDoubled(f: FileMeta, level: nat)
    ensures var add := VersionEdit({}, [(level, f)]);
            InstallLevel([], [add, add], level) == [f, f] && RecoverLevel([], [add, add], level) == [f]
  {
    var add := VersionEdit({}, [(level, f)]);
    OneThenTwo(f);
    AddOne(f, level, {}, []);
    AddOne(f, level, {}, [f]);
    hide ApplyLevel, Live, MergeList, InsertFile;
    assert [add, add][..1] == [add] && [add][..0] == [];
    assert ReplayLevel([add], level) == LevelState({}, [f]);
    assert ReplayLevel([add, add], level) == LevelState({}, [f]);
    assert InstallLevel([], [add], level) == [f];
    assert InstallLevel([], [add, add], level) == [f, f];
  }

  lemma OneThenTwo(f: FileMeta)
    ensures InsertFile(f, []) == [f] && InsertFile(f, [f]) == [f]
    ensures Live(MergeList([], [f]), {}) == [f] && Live(MergeList([f], [f]), {}) == [f, f]
  {
    assert MergeList([], [f]) == [f] + MergeList([], []);
    assert MergeList([f], [f]) == [f] + MergeList([], [f]);
    assert [f, f][..1] == [f] && [f][..0] == [];
    assert Live([f], {}) == [f];
  }

  lemma AddOne(f: FileMeta, level: nat, deleted: set<nat>, added: seq<FileMeta>)
    requires f.number !in deleted
    ensures ApplyLevel(VersionEdit({}, [(level, f)]), level, LevelState(deleted, added)) == LevelState(deleted, InsertFile(f, added))
  {
    var add := VersionEdit({}, [(level, f)]);
    assert DeletedAt(add, level) == {} && deleted + {} == deleted && deleted - {f.number} == deleted;
    assert add.newFiles[..0] == [];
    assert AddAll([], level, LevelState(deleted, added)) == LevelState(deleted, added);
  }
}
