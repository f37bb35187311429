/**
 Readers of the skip list that the writer overtakes: every search, however its loads are interleaved with the
 stores of insertions, finds what a search of the bottom level would have found at one moment of its run.
 */
module SkipListReaders {
  import opened SkipList

  // A search in FindGreaterOrEqual, between two loads, and after its last.
  datatype Search = Searching(x: Node, level: nat) | Found(node: Node?)

  // Where a node is in the list.
  ghost function IndexOf(nodes: seq<Node>, x: Node): (a: nat)
    ensures a <= |nodes| && (x in nodes ==> a < |nodes| && nodes[a] == x)
  {
    if nodes == [] || nodes[0] == x then 0 else 1 + IndexOf(nodes[1..], x)
  }

  // One turn of the loop, its load taking place at this moment.
  ghost function Turn(s: Snapshot, key: Key, r: Search): Search {
    if r.Found? then r
    else
      var a := IndexOf(s.nodes, r.x);
      if a < |s.nexts| && r.level < |s.nexts[a]| then
        var next := s.nexts[a][r.level];
        if next != null && Before(next.key, key) then Searching(next, r.level)
        else if r.level == 0 then Found(next)
        else Searching(r.x, r.level - 1)
      else r
  }

  // The search stands at a node before the key that is linked on the level it searches.
  ghost predicate OnTrack(s: Snapshot, key: Key, r: Search) {
    r.Searching? ==>
      exists a :: 0 <= a < |s.nodes| == |s.levels| && s.nodes[a] == r.x && s.levels[a] > r.level
                  && (a > 0 ==> Before(r.x.key, key))
  }

  // The first node at or after the key.
  ghost function FirstAtOrAfter(s: Snapshot, key: Key): Node? {
    FirstIn(s.nodes, key)
  }

  ghost function FirstIn(nodes: seq<Node>, key: Key): Node? {
    NodeAt(nodes, LowerBound(KeysOf(nodes), key) + 1)
  }

  lemma TurnStaysOnTrack(s: Snapshot, key: Key, r: Search)
    requires Consistent(s) && OnTrack(s, key, r) && r.Searching?
    ensures OnTrack(s, key, Turn(s, key, r))
    ensures Turn(s, key, r).Found? ==> Turn(s, key, r).node == FirstAtOrAfter(s, key)
  {
    hide Succ, LowerBound;
    var a :| 0 <= a < |s.nodes| && s.nodes[a] == r.x && s.levels[a] > r.level && (a > 0 ==> Before(r.x.key, key));
    assert IndexOf(s.nodes, r.x) == a;
    var b := Succ(s.levels, r.level, a);
    assert s.nexts[a][r.level] == NodeAt(s.nodes, b);
    if b < |s.nodes| && Before(s.nodes[b].key, key) {
      assert s.levels[b] > r.level;
    } else if r.level == 0 {
      SuccIs(s.levels, 0, a, a + 1);
      BoundIs(s, key, a);
    }
  }

  // Between a node before the key and one at or after it lies the key's place.
  lemma BoundIs(s: Snapshot, key: Key, a: nat)
    requires Consistent(s) && a < |s.nodes| && (a > 0 ==> Before(s.nodes[a].key, key))
    requires a + 1 < |s.nodes| ==> !Before(s.nodes[a + 1].key, key)
    ensures LowerBound(KeysOf(s.nodes), key) == a
  {
    var keys := KeysOf(s.nodes);
    var j := LowerBound(keys, key);
    if a > 0 {
      assert keys[a - 1] == s.nodes[a].key;
    }
    if j < |keys| {
      assert keys[j] == s.nodes[j + 1].key;
    }
    if a < |keys| {
      assert keys[a] == s.nodes[a + 1].key;
    }
  }

  // A store of the writer does not throw a search off.
  lemma WriterLeavesOnTrack(s: Snapshot, t: Snapshot, key: Key, r: Search)
    requires Consistent(s) && Consistent(t) && Extends(s, t) && OnTrack(s, key, r)
    ensures OnTrack(t, key, r)
  {
    if r.Searching? {
      var a :| 0 <= a < |s.nodes| && s.nodes[a] == r.x && s.levels[a] > r.level && (a > 0 ==> Before(r.x.key, key));
      assert Holds(t.nodes, t.levels, s.nodes[a], s.levels[a]);
      var b :| 0 <= b < |t.nodes| && t.nodes[b] == s.nodes[a] && t.levels[b] >= s.levels[a];
      if b > 0 {
        assert t.nodes[0] == t.head == s.nodes[0];
      }
    }
  }

  // A run of one search: at every moment the writer has stored something or nothing, and the search has made
  // its next load or not.
  ghost predicate IsRun(moments: seq<Snapshot>, key: Key, search: seq<Search>) {
    && |search| == |moments| + 1 > 1
    && (forall k :: 0 <= k < |moments| ==> Consistent(moments[k]))
    && (forall k :: 0 <= k < |moments| - 1 ==> Extends(moments[k], moments[k + 1]))
    && search[0] == Searching(moments[0].head, moments[0].maxHeight - 1)
    && forall k :: 0 <= k < |moments| ==>
         search[k + 1] == search[k] || search[k + 1] == Turn(moments[k], key, search[k])
  }

  lemma {:induction false} RunStaysOnTrack(moments: seq<Snapshot>, key: Key, search: seq<Search>, k: nat)
    requires IsRun(moments, key, search) && k < |moments|
    ensures OnTrack(moments[k], key, search[k])
    decreases k
  {
    hide Consistent, Extends, OnTrack, Turn;
    if k == 0 {
      StartsOnTrack(moments[0], key);
    } else {
      RunStaysOnTrack(moments, key, search, k - 1);
      if search[k - 1].Searching? {
        TurnStaysOnTrack(moments[k - 1], key, search[k - 1]);
      } else {
        FoundStays(moments[k - 1], key, search[k - 1]);
      }
      assert Extends(moments[k - 1], moments[k - 1 + 1]);
      WriterLeavesOnTrack(moments[k - 1], moments[k], key, search[k]);
    }
  }

  lemma FoundStays(s: Snapshot, key: Key, r: Search)
    requires r.Found?
    ensures Turn(s, key, r) == r
  {
  }

  lemma StartsOnTrack(s: Snapshot, key: Key)
    requires Consistent(s)
    ensures OnTrack(s, key, Searching(s.head, s.maxHeight - 1))
  {
    assert s.nodes[0] == s.head && s.levels[0] > s.maxHeight - 1;
  }

  /** What a search returns was the first node at or after the key at some moment of its run. */
  lemma {:induction false} SearchIsLinearizable(moments: seq<Snapshot>, key: Key, search: seq<Search>, k: nat)
    returns (moment: nat)
    requires IsRun(moments, key, search) && k < |search| && search[k].Found?
    ensures moment < k && search[k].node == FirstAtOrAfter(moments[moment], key)
    decreases k
  {
    hide Consistent, Extends, OnTrack, Turn, FirstAtOrAfter;
    if search[k - 1].Found? {
      FoundStays(moments[k - 1], key, search[k - 1]);
      moment := SearchIsLinearizable(moments, key, search, k - 1);
    } else {
      moment := k - 1;
      RunStaysOnTrack(moments, key, search, moment);
      TurnStaysOnTrack(moments[moment], key, search[moment]);
      assert search[moment + 1] == Turn(moments[moment], key, search[moment]);
    }
  }

  // ---------------------------------------------------------------------------
  // Searches and insertions
  // ---------------------------------------------------------------------------

  // A search whose k-th load, if it makes one then, takes place after store at[k] of the writer.
  ghost predicate Overlaps(stores: seq<Snapshot>, at: seq<nat>, key: Key, search: seq<Search>)
    requires Grows(stores)
  {
    && |search| == |at| + 1 > 1
    && (forall k :: 0 <= k < |at| ==> at[k] < |stores|)
    && (forall k :: 0 < k < |at| ==> at[k - 1] <= at[k])
    && search[0] == Searching(stores[at[0]].head, stores[at[0]].maxHeight - 1)
    && forall k :: 0 <= k < |at| ==>
         search[k + 1] == search[k] || search[k + 1] == Turn(stores[at[k]], key, search[k])
  }

  lemma ExtendsTransitive(s: Snapshot, t: Snapshot, u: Snapshot)
    requires Extends(s, t) && Extends(t, u)
    ensures Extends(s, u)
  {
    forall a | 0 <= a < |s.nodes|
      ensures Holds(u.nodes, u.levels, s.nodes[a], s.levels[a])
    {
      assert Holds(t.nodes, t.levels, s.nodes[a], s.levels[a]);
      var b :| 0 <= b < |t.nodes| && t.nodes[b] == s.nodes[a] && t.levels[b] >= s.levels[a];
      assert Holds(u.nodes, u.levels, t.nodes[b], t.levels[b]);
    }
  }

  lemma {:induction false} GrowsBetween(stores: seq<Snapshot>, i: nat, j: nat)
    requires Grows(stores) && i <= j < |stores|
    ensures Extends(stores[i], stores[j])
    decreases j
  {
    hide Consistent, Extends;
    if i == j {
      ExtendsItself(stores[i]);
    } else {
      GrowsBetween(stores, i, j - 1);
      ExtendsTransitive(stores[i], stores[j - 1], stores[j]);
    }
  }

  lemma ExtendsItself(s: Snapshot)
    requires Consistent(s)
    ensures Extends(s, s)
  {
    SameExtended(s.nodes, s.levels);
  }

  // A search during any stores that grow the list, such as those of Insert one after the other, is right about the
  // list as it was after one of them.
  lemma OverlappedSearchIsRight(stores: seq<Snapshot>, at: seq<nat>, key: Key, search: seq<Search>, k: nat)
    returns (store: nat)
    requires Grows(stores) && Overlaps(stores, at, key, search) && k < |search| && search[k].Found?
    ensures store < |stores| && search[k].node == FirstAtOrAfter(stores[store], key)
  {
    hide Consistent, Extends, Turn, FirstAtOrAfter;
    var moments := seq(|at|, i requires 0 <= i < |at| => stores[at[i]]);
    forall i | 0 <= i < |at| - 1
      ensures Extends(moments[i], moments[i + 1])
    {
      assert at[i + 1 - 1] <= at[i + 1];
      GrowsBetween(stores, at[i], at[i + 1]);
    }
    var moment := SearchIsLinearizable(moments, key, search, k);
    store := at[moment];
  }

  // A search during one insertion gives what a search before it or a search after it gives.
  lemma SearchDuringInsert(stores: seq<Snapshot>, at: seq<nat>, key: Key, search: seq<Search>, k: nat,
                           now: Snapshot, before: seq<Node>, after: seq<Node>)
    requires Story(stores, now, before, after)
    requires Overlaps(stores, at, key, search) && k < |search| && search[k].Found?
    ensures search[k].node in [FirstIn(before, key), FirstIn(after, key)]
  {
    hide Consistent, Extends, Turn, Grows, Overlaps, FirstIn;
    var store := OverlappedSearchIsRight(stores, at, key, search, k);
    assert stores[store].nodes == before || stores[store].nodes == after;
  }
}
