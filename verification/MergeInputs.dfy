/**
 The merged views of db/db_impl.cc and db/version_set.cc: VersionSet::MakeInputIterator and
 DBImpl::NewInternalIterator hand a MergingIterator one child per run of files.
 */
module MergeInputs {
  import opened Keys
  import opened Files
  import opened Picker
  import opened ReadPath
  import opened Compacting
  import opened LevelMoves
  import opened Iterators
  import opened Merger

  // ---------------------------------------------------------------------------
  // Sorted runs
  // ---------------------------------------------------------------------------

  // A new entry in its place; MemTable::Add puts it there.
  function InsertEntry(es: seq<Entry>, e: Entry): seq<Entry> {
    var i := SeekIndex(es, e.key);
    es[..i] + [e] + es[i..]
  }

  lemma LessTotal(a: InternalKey, b: InternalKey)
    ensures a == b || Less(a, b) || Less(b, a)
    ensures !Less(a, a)
  {
  }

  lemma InsertEntrySorts(es: seq<Entry>, e: Entry)
    requires Sorted(es) && forall x | x in es :: x.key != e.key
    ensures Sorted(InsertEntry(es, e)) && ToSet(InsertEntry(es, e)) == ToSet(es) + {e}
  {
    var i := SeekIndex(es, e.key);
    forall k | i <= k < |es|
      ensures Less(e.key, es[k].key)
    {
      assert es[k] in es;
      LessTotal(e.key, es[k].key);
      assert i < k ==> Less(es[i].key, es[k].key);
    }
    hide Less;
    AppendSorted(es[..i], [e]);
    AppendSorted(es[..i] + [e], es[i..]);
    InsertEntryMembers(es, e);
  }

  lemma InsertEntryMembers(es: seq<Entry>, e: Entry)
    ensures ToSet(InsertEntry(es, e)) == ToSet(es) + {e}
  {
    var i := SeekIndex(es, e.key);
    assert es == es[..i] + es[i..];
  }

  // No two entries have the same key.
  ghost predicate DistinctKeys(es: set<Entry>) {
    forall x, y | x in es && y in es && x.key == y.key :: x == y
  }

  lemma {:induction false} SortedRun(es: set<Entry>) returns (r: seq<Entry>)
    requires DistinctKeys(es)
    ensures Sorted(r) && ToSet(r) == es
    decreases es
  {
    if es == {} {
      r := [];
    } else {
      var e :| e in es;
      var rest := SortedRun(es - {e});
      forall x | x in rest
        ensures x.key != e.key
      {
        assert x in ToSet(rest);
      }
      InsertEntrySorts(rest, e);
      r := InsertEntry(rest, e);
    }
  }

  lemma {:induction false} ConcatSorted(files: seq<FileMeta>)
    requires GoodFiles(files) && SortedDisjoint(files)
    ensures Sorted(Concat(files))
  {
    if files != [] {
      var n := |files| - 1;
      var before, last := Concat(files[..n]), files[n];
      assert files == files[..n] + [last];
      ConcatSorted(files[..n]);
      ConcatContains(files[..n]);
      hide GoodFile;
      forall i, j | 0 <= i < |before| && 0 <= j < |last.entries|
        ensures Less(before[i].key, last.entries[j].key)
      {
        assert before[i] in before;
        var k :| 0 <= k < n && before[i] in files[..n][k].entries;
        assert Less(files[k].largest, files[n].smallest);
        FileBounds(files[k], before[i]);
        FileBounds(last, last.entries[j]);
      }
      LastIsSorted(last);
      AppendSorted(before, last.entries);
    }
  }

  lemma LastIsSorted(f: FileMeta)
    requires GoodFile(f)
    ensures Sorted(f.entries)
  {
  }

  lemma AppendSorted(a: seq<Entry>, b: seq<Entry>)
    requires Sorted(a) && Sorted(b)
    requires forall i, j | 0 <= i < |a| && 0 <= j < |b| :: Less(a[i].key, b[j].key)
    ensures Sorted(a + b)
  {
  }

  // ---------------------------------------------------------------------------
  // A merging iterator over runs
  // ---------------------------------------------------------------------------

  // Sorted runs that share no key.
  ghost predicate KeysApart(lists: seq<seq<Entry>>) {
    && (forall i | 0 <= i < |lists| :: Sorted(lists[i]))
    && (forall i, j, x, y | 0 <= i < j < |lists| && x in lists[i] && y in lists[j] :: x.key != y.key)
  }

  ghost function Union(lists: seq<seq<Entry>>): set<Entry> {
    set i, e | 0 <= i < |lists| && e in lists[i] :: e
  }

  lemma UnionIsDistinct(lists: seq<seq<Entry>>)
    requires KeysApart(lists)
    ensures DistinctKeys(Union(lists))
  {
    hide Sorted;
    forall x, y | x in Union(lists) && y in Union(lists) && x.key == y.key
      ensures x == y
    {
      var i :| 0 <= i < |lists| && x in lists[i];
      var j :| 0 <= j < |lists| && y in lists[j];
      if i == j {
        InRunOnce(lists[i], x, y);
      }
    }
  }

  lemma InRunOnce(es: seq<Entry>, x: Entry, y: Entry)
    requires Sorted(es) && x in es && y in es && x.key == y.key
    ensures x == y
  {
    forall i, j | 0 <= i < j < |es|
      ensures es[i].key != es[j].key
    {
      LessTotal(es[i].key, es[i].key);
    }
  }

  // One cursor per run, merged.
  method NewMergingIterator(lists: seq<seq<Entry>>) returns (it: MergingIterator)
    requires KeysApart(lists)
    ensures it.Good() && fresh(it) && fresh(it.Parts()) && !it.Valid()
    ensures ToSet(it.all) == Union(lists)
  {
    UnionIsDistinct(lists);
    ghost var all := SortedRun(Union(lists));
    var children: seq<Cursor> := [];
    while |children| < |lists|
      invariant |children| <= |lists|
      invariant forall i | 0 <= i < |children| :: fresh(children[i]) && children[i].Good() && children[i].entries == lists[i]
      invariant forall i, j | 0 <= i < j < |children| :: children[i] != children[j]
    {
      var child := new Cursor(lists[|children|]);
      children := children + [child];
    }
    assert seq(|children|, i requires 0 <= i < |children| => children[i].entries) == lists;
    UnionIs(all, lists);
    it := new MergingIterator(children, all);
  }

  lemma UnionIs(all: seq<Entry>, lists: seq<seq<Entry>>)
    requires KeysApart(lists) && Sorted(all) && ToSet(all) == Union(lists)
    ensures IsUnion(all, lists)
  {
    forall e
      ensures e in all <==> exists i :: 0 <= i < |lists| && e in lists[i]
    {
      assert e in ToSet(all) <==> e in Union(lists);
    }
  }

  // Reads an iterator from its first entry to its last.
  method ReadThrough(it: MergingIterator) returns (merged: seq<Entry>)
    requires it.Good()
    modifies it, it.Parts()
    ensures merged == it.all
  {
    hide MergingIterator.Good;
    it.SeekToFirst();
    merged := [];
    while it.Valid()
      invariant it.Good() && merged == it.all[..it.at]
      decreases |it.all| - it.at
    {
      merged := merged + [it.Current()];
      it.Next();
    }
  }

  // ---------------------------------------------------------------------------
  // The inputs of a compaction
  // ---------------------------------------------------------------------------

  // The order in which MakeInputIterator delivers the inputs.
  ghost predicate MergeOf(merged: seq<Entry>, files: seq<FileMeta>) {
    Sorted(merged) && forall e :: e in merged <==> Holds(files, e)
  }

  // The runs of one level's files: each file by itself at level 0, their concatenation below.
  function Runs(level: nat, files: seq<FileMeta>): seq<seq<Entry>> {
    if files == [] then []
    else if level == 0 then seq(|files|, i requires 0 <= i < |files| => files[i].entries)
    else [Concat(files)]
  }

  lemma RunsHold(level: nat, files: seq<FileMeta>, e: Entry)
    ensures e in Union(Runs(level, files)) <==> Holds(files, e)
  {
    var runs := Runs(level, files);
    ConcatContains(files);
    if Holds(files, e) {
      var f :| f in files && e in f.entries;
      var k :| 0 <= k < |files| && files[k] == f;
      if level == 0 {
        assert e in runs[k];
      } else {
        assert e in runs[0];
      }
    }
    if e in Union(runs) {
      var i :| 0 <= i < |runs| && e in runs[i];
      if level == 0 {
        assert e in files[i].entries;
      } else {
        var k :| 0 <= k < |files| && e in files[k].entries;
      }
    }
  }

  // No entry lies in two of these files, and no two entries have the same key.
  ghost predicate Apart(files: seq<FileMeta>) {
    && GoodFiles(files) && NoDuplicates(files)
    && forall f, g, x, y | f in files && g in files && f != g && x in f.entries && y in g.entries :: x.key != y.key
  }

  lemma RunsMergeable(level: nat, files: seq<FileMeta>)
    requires Apart(files) && (level > 0 ==> SortedDisjoint(files))
    ensures KeysApart(Runs(level, files))
  {
    var runs := Runs(level, files);
    if level > 0 {
      ConcatSorted(files);
    } else {
      hide GoodFile;
      forall i | 0 <= i < |runs|
        ensures Sorted(runs[i])
      {
        LastIsSorted(files[i]);
      }
      forall i, j, x: Entry, y: Entry | 0 <= i < j < |runs| && x in runs[i] && y in runs[j]
        ensures x.key != y.key
      {
        assert files[i] in files && files[j] in files && files[i] != files[j];
      }
    }
  }

  // MakeInputIterator, read through.
  method MergeFiles(level: nat, in0: seq<FileMeta>, in1: seq<FileMeta>) returns (merged: seq<Entry>)
    requires Apart(in0 + in1) && SortedDisjoint(in1) && (level > 0 ==> SortedDisjoint(in0))
    ensures MergeOf(merged, in0 + in1)
  {
    hide Runs, KeysApart, Union, GoodFile, SortedDisjoint, Concat, MergingIterator.Good, Sorted;
    var lists := Runs(level, in0) + Runs(level + 1, in1);
    InputsMergeable(level, in0, in1);
    var it := NewMergingIterator(lists);
    SortedAll(it);
    merged := ReadThrough(it);
    forall e
      ensures e in merged <==> Holds(in0 + in1, e)
    {
      assert e in ToSet(merged) <==> e in merged;
      UnionOfTwo(Runs(level, in0), Runs(level + 1, in1), e);
      RunsHold(level, in0, e);
      RunsHold(level + 1, in1, e);
      HoldsEither(in0, in1, e);
    }
  }

  lemma SortedAll(it: MergingIterator)
    requires it.Good()
    ensures Sorted(it.all)
  {
  }

  lemma HoldsEither(in0: seq<FileMeta>, in1: seq<FileMeta>, e: Entry)
    ensures Holds(in0 + in1, e) <==> Holds(in0, e) || Holds(in1, e)
  {
    if Holds(in0, e) {
      var f :| f in in0 && e in f.entries;
      assert f in in0 + in1;
    }
    if Holds(in1, e) {
      var f :| f in in1 && e in f.entries;
      assert f in in0 + in1;
    }
  }

  lemma UnionOfTwo(a: seq<seq<Entry>>, b: seq<seq<Entry>>, e: Entry)
    ensures e in Union(a + b) <==> e in Union(a) || e in Union(b)
  {
    if e in Union(a) {
      var i :| 0 <= i < |a| && e in a[i];
      assert e in (a + b)[i];
    }
    if e in Union(b) {
      var i :| 0 <= i < |b| && e in b[i];
      assert e in (a + b)[|a| + i];
    }
    if e in Union(a + b) {
      var i :| 0 <= i < |a + b| && e in (a + b)[i];
      if i < |a| {
        assert e in a[i];
      } else {
        assert e in b[i - |a|];
      }
    }
  }

  lemma InputsMergeable(level: nat, in0: seq<FileMeta>, in1: seq<FileMeta>)
    requires Apart(in0 + in1) && SortedDisjoint(in1) && (level > 0 ==> SortedDisjoint(in0))
    ensures KeysApart(Runs(level, in0) + Runs(level + 1, in1))
  {
    hide GoodFile, SortedDisjoint, Concat, Sorted;
    PartsApart(in0, in1);
    var a, b := Runs(level, in0), Runs(level + 1, in1);
    RunsMergeable(level, in0);
    RunsMergeable(level + 1, in1);
    forall x, y | x in Union(a) && y in Union(b)
      ensures x.key != y.key
    {
      RunsHold(level, in0, x);
      RunsHold(level + 1, in1, y);
      var f :| f in in0 && x in f.entries;
      var g :| g in in1 && y in g.entries;
      InDifferent(in0, in1, f, g);
      assert f in in0 + in1 && g in in0 + in1;
    }
    ConcatMergeable(a, b);
  }

  lemma PartsApart(in0: seq<FileMeta>, in1: seq<FileMeta>)
    requires Apart(in0 + in1)
    ensures Apart(in0) && Apart(in1)
  {
    hide GoodFile;
    var all := in0 + in1;
    assert forall f | f in in0 || f in in1 :: f in all;
    assert forall i | 0 <= i < |in0| :: all[i] == in0[i];
    assert forall i | 0 <= i < |in1| :: all[|in0| + i] == in1[i];
  }

  lemma InDifferent(in0: seq<FileMeta>, in1: seq<FileMeta>, f: FileMeta, g: FileMeta)
    requires NoDuplicates(in0 + in1) && f in in0 && g in in1
    ensures f != g
  {
    var i :| 0 <= i < |in0| && in0[i] == f;
    var j :| 0 <= j < |in1| && in1[j] == g;
    assert (in0 + in1)[i] == f && (in0 + in1)[|in0| + j] == g;
  }

  lemma ConcatMergeable(a: seq<seq<Entry>>, b: seq<seq<Entry>>)
    requires KeysApart(a) && KeysApart(b)
    requires forall x, y | x in Union(a) && y in Union(b) :: x.key != y.key
    ensures KeysApart(a + b)
  {
    hide Sorted;
    var c := a + b;
    forall i, j, x: Entry, y: Entry | 0 <= i < j < |c| && x in c[i] && y in c[j]
      ensures x.key != y.key
    {
      if i < |a| && j >= |a| {
        assert x in a[i] && y in b[j - |a|];
        assert x in Union(a) && y in Union(b);
      } else if j < |a| {
        assert x in a[i] && y in a[j];
      } else {
        assert x in b[i - |a|] && y in b[j - |a|];
      }
    }
  }
}
