/**
 The skip list of db/skiplist.h, one writer and any number of readers.

 An insertion is a sequence of stores; the list is valid after each of them, so that a search made at any
 moment finds what a search of the bottom level would find. A search that the writer overtakes is still right
 about the moment of its last load.
 */
module SkipList {

  import K = Keys

  // The memtable's list: its comparator looks at the internal key of an entry.
  type Key = K.InternalKey

  predicate Before(a: Key, b: Key) {
    K.Less(a, b)
  }

  const MAX_HEIGHT: nat := 12

  class Node {
    const key: Key
    const value: string
    var next: seq<Node?>

    constructor (key: Key, value: string, height: nat)
      ensures this.key == key && this.value == value && |next| == height && forall i :: 0 <= i < height ==> next[i] == null
    {
      this.key, this.value := key, value;
      next := seq(height, _ => null);
    }

    method SetNext(n: nat, x: Node?)
      requires n < |next|
      modifies this
      ensures next == old(next)[n := x]
    {
      next := next[n := x];
    }
  }

  // Given on how many levels each node of the list is linked: the node after a on a level, or the end.
  function Succ(levels: seq<nat>, level: nat, a: nat): (b: nat)
    requires a < |levels|
    ensures a < b <= |levels| && (b < |levels| ==> levels[b] > level)
    ensures forall c :: a < c < b ==> levels[c] <= level
    decreases |levels| - a
  {
    if a + 1 == |levels| || levels[a + 1] > level then a + 1 else Succ(levels, level, a + 1)
  }

  lemma SuccIs(levels: seq<nat>, level: nat, a: nat, b: nat)
    requires a < b <= |levels| && (b < |levels| ==> levels[b] > level)
    requires forall c :: a < c < b ==> levels[c] <= level
    ensures Succ(levels, level, a) == b
  {
  }

  // How many of the keys are before the given one.
  function LowerBound(keys: seq<Key>, key: Key): (j: nat)
    ensures j <= |keys| && (forall k :: 0 <= k < j ==> Before(keys[k], key)) && (j < |keys| ==> !Before(keys[j], key))
  {
    if keys == [] || !Before(keys[0], key) then 0 else 1 + LowerBound(keys[1..], key)
  }

  // Nodes with their pointers and the number of levels they are linked on.
  ghost predicate Shape(head: Node, maxHeight: nat, nodes: seq<Node>, nexts: seq<seq<Node?>>, levels: seq<nat>) {
    && |nodes| == |nexts| == |levels| > 0 && nodes[0] == head && levels[0] == MAX_HEIGHT
    && 1 <= maxHeight <= MAX_HEIGHT
    && (forall a :: 0 <= a < |nodes| ==> 1 <= levels[a] <= |nexts[a]|)
    && (forall a :: 0 < a < |nodes| ==> levels[a] <= maxHeight)
  }

  // The bottom level is sorted.
  ghost predicate Sorted(nodes: seq<Node>) {
    && (forall a, b :: 0 <= a < b < |nodes| ==> nodes[a] != nodes[b])
    && (forall a, b :: 0 < a < b < |nodes| ==> Before(nodes[a].key, nodes[b].key))
  }

  // Every level is the sublist of the nodes linked on it.
  ghost predicate Linked(nodes: seq<Node>, nexts: seq<seq<Node?>>, levels: seq<nat>) {
    && |nodes| == |nexts| == |levels|
    && forall a, i :: 0 <= a < |nodes| && 0 <= i < levels[a] && i < |nexts[a]| ==>
         nexts[a][i] == NodeAt(nodes, Succ(levels, i, a))
  }

  // The last node on a level before position j.
  ghost predicate IsPrev(nodes: seq<Node>, levels: seq<nat>, n: Node, level: nat, j: nat) {
    && j <= |nodes| == |levels|
    && exists a :: 0 <= a < j && nodes[a] == n && levels[a] > level && forall c :: a < c < j ==> levels[c] <= level
  }

  // Nodes stay in the list, linked on at least the levels they were linked on.
  ghost predicate Extended(nodes: seq<Node>, levels: seq<nat>, nodes': seq<Node>, levels': seq<nat>) {
    && |nodes| == |levels| && |nodes'| == |levels'|
    && forall a :: 0 <= a < |nodes| ==> Holds(nodes', levels', nodes[a], levels[a])
  }

  ghost predicate Holds(nodes: seq<Node>, levels: seq<nat>, x: Node, level: nat)
    requires |nodes| == |levels|
  {
    exists b :: 0 <= b < |nodes| && nodes[b] == x && levels[b] >= level
  }

  lemma SameExtended(nodes: seq<Node>, levels: seq<nat>)
    requires |nodes| == |levels|
    ensures Extended(nodes, levels, nodes, levels)
  {
  }

  lemma InsertedExtended(nodes: seq<Node>, levels: seq<nat>, j: nat, x: Node)
    requires |nodes| == |levels| && j <= |nodes|
    ensures Extended(nodes, levels, Inserted(nodes, j, x), Inserted(levels, j, 1))
  {
    forall a | 0 <= a < |nodes|
      ensures Holds(Inserted(nodes, j, x), Inserted(levels, j, 1), nodes[a], levels[a])
    {
      var b := if a < j then a else a + 1;
      assert Inserted(nodes, j, x)[b] == nodes[a] && Inserted(levels, j, 1)[b] == levels[a];
    }
  }

  lemma RaisedExtended(nodes: seq<Node>, levels: seq<nat>, p: nat)
    requires |nodes| == |levels| && p < |nodes|
    ensures Extended(nodes, levels, nodes, levels[p := levels[p] + 1])
  {
    forall a | 0 <= a < |nodes|
      ensures Holds(nodes, levels[p := levels[p] + 1], nodes[a], levels[a])
    {
      assert nodes[a] == nodes[a] && levels[p := levels[p] + 1][a] >= levels[a];
    }
  }

  // The list at one moment.
  datatype Snapshot = Snapshot(head: Node, maxHeight: nat, nodes: seq<Node>, nexts: seq<seq<Node?>>, levels: seq<nat>)

  ghost predicate Consistent(s: Snapshot) {
    && Shape(s.head, s.maxHeight, s.nodes, s.nexts, s.levels)
    && Sorted(s.nodes)
    && Linked(s.nodes, s.nexts, s.levels)
  }

  // Of the levels of x, the lowest i are linked at place j of before.
  ghost predicate LinkedUpTo(nodes: seq<Node>, levels: seq<nat>, x: Node, height: nat, i: nat, prev: seq<Node>, j: nat,
                             before: seq<Node>, heights: seq<nat>)
  {
    && i <= height <= |prev| == MAX_HEIGHT && 1 <= j <= |before| == |heights|
    && x !in before && nodes == (if i == 0 then before else Inserted(before, j, x))
    && levels == (if i == 0 then heights else Inserted(heights, j, i))
    && (forall l :: i <= l < height ==> IsPrev(nodes, levels, prev[l], l, j))
    && forall a :: 0 < a < |before| ==> if a < j then Before(before[a].key, x.key) else Before(x.key, before[a].key)
  }

  // What every store of an insertion does to the list.
  ghost predicate Extends(s: Snapshot, t: Snapshot) {
    s.head == t.head && Extended(s.nodes, s.levels, t.nodes, t.levels)
  }

  // The list before and after each of some stores: consistent, and never less than before.
  ghost predicate Grows(moments: seq<Snapshot>) {
    && moments != []
    && (forall k :: 0 <= k < |moments| ==> Consistent(moments[k]))
    && forall k :: 0 < k < |moments| ==> Extends(moments[k - 1], moments[k])
  }

  // At every moment the bottom level is one of these two.
  ghost predicate Either(moments: seq<Snapshot>, before: seq<Node>, after: seq<Node>) {
    forall k :: 0 <= k < |moments| ==> moments[k].nodes == before || moments[k].nodes == after
  }

  // The moments so far, the last of them now.
  ghost predicate Story(moments: seq<Snapshot>, now: Snapshot, before: seq<Node>, after: seq<Node>) {
    Grows(moments) && moments[|moments| - 1] == now && Either(moments, before, after)
  }

  lemma StoryBegins(s: Snapshot)
    requires Consistent(s)
    ensures Story([s], s, s.nodes, s.nodes)
  {
  }

  lemma StoryWidens(moments: seq<Snapshot>, now: Snapshot, before: seq<Node>, after: seq<Node>)
    requires Story(moments, now, before, before)
    ensures Story(moments, now, before, after)
  {
  }

  lemma StoryGoesOn(moments: seq<Snapshot>, s: Snapshot, t: Snapshot, before: seq<Node>, after: seq<Node>)
    requires Story(moments, s, before, after) && Consistent(t) && Extends(s, t) && t.nodes in [before, after]
    ensures Story(moments + [t], t, before, after)
  {
    hide Consistent, Extends;
  }

  function NodeAt(nodes: seq<Node>, b: nat): Node? {
    if b < |nodes| then nodes[b] else null
  }

  // The keys behind the head.
  function KeysOf(nodes: seq<Node>): (keys: seq<Key>)
    ensures |nodes| > 0 ==> |keys| == |nodes| - 1 && forall k :: 0 <= k < |keys| ==> keys[k] == nodes[k + 1].key
  {
    if |nodes| == 0 then [] else seq(|nodes| - 1, k requires 0 <= k < |nodes| - 1 => nodes[k + 1].key)
  }

  class List {
    const head: Node
    var maxHeight: nat
    // The bottom level, the head first, and on how many levels each node is linked.
    ghost var nodes: seq<Node>
    ghost var levels: seq<nat>

    ghost predicate Valid()
      reads this, nodes
    {
      && Shape(head, maxHeight, nodes, Nexts(), levels)
      && Sorted(nodes)
      && Linked(nodes, Nexts(), levels)
    }

    ghost function Nexts(): (nexts: seq<seq<Node?>>)
      reads this, nodes
      ensures |nexts| == |nodes| && forall a :: 0 <= a < |nodes| ==> nexts[a] == nodes[a].next
    {
      seq(|nodes|, a requires 0 <= a < |nodes| reads this, nodes => nodes[a].next)
    }

    ghost function Now(): Snapshot
      reads this, nodes
    {
      Snapshot(head, maxHeight, nodes, Nexts(), levels)
    }

    lemma ValidNow()
      ensures Valid() <==> Consistent(Now())
      ensures Now().nodes == nodes && Now().levels == levels && Now().head == head
    {
    }

    ghost function At(b: nat): Node?
      reads this
    {
      NodeAt(nodes, b)
    }

    ghost function Keys(): (keys: seq<Key>)
      reads this
    {
      KeysOf(nodes)
    }

    constructor ()
      ensures Valid() && Keys() == [] && fresh(nodes) && maxHeight == 1
    {
      head := new Node(K.InternalKey(0.0, 0, K.TypeDeletion), "", MAX_HEIGHT);
      maxHeight := 1;
      new;
      nodes, levels := [head], [MAX_HEIGHT];
    }

    method KeyIsAfterNode(key: Key, n: Node?) returns (after: bool)
      ensures after == (n != null && Before(n.key, key))
    {
      after := n != null && Before(n.key, key);
    }

    // The position of the first node at or after the key.
    ghost function Position(key: Key): (j: nat)
      requires |nodes| > 0
      reads this
      ensures 1 <= j <= |nodes|
    {
      LowerBound(Keys(), key) + 1
    }

    method FindGreaterOrEqual(key: Key) returns (found: Node?, prev: seq<Node>)
      requires Valid()
      ensures found == At(Position(key))
      ensures |prev| == MAX_HEIGHT && forall l :: 0 <= l < maxHeight ==> IsPrev(nodes, levels, prev[l], l, Position(key))
    {
      hide Shape, Sorted, Linked, IsPrev, Succ, Position, Keys;
      HeadIsLinked();
      ghost var j := Position(key);
      ghost var a: nat := 0;
      var x: Node := head;
      var level := maxHeight - 1;
      prev := seq(MAX_HEIGHT, _ => head);
      while true
        invariant 0 <= level < maxHeight && |prev| == MAX_HEIGHT
        invariant a < j <= |nodes| == |levels| && nodes[a] == x && levels[a] > level
        invariant forall l :: level < l < maxHeight ==> IsPrev(nodes, levels, prev[l], l, j)
        decreases level, |nodes| - a
      {
        NextIsSucc(a, level);
        var next := x.next[level];
        ghost var b := Succ(levels, level, a);
        PositionSplits(key, b);
        var after := KeyIsAfterNode(key, next);
        if after {
          x := next;
          a := b;
        } else {
          LastBefore(a, level, j);
          prev := prev[level := x];
          if level == 0 {
            BottomSucc(a);
            return next, prev;
          }
          level := level - 1;
        }
      }
    }

    method FindLessThan(key: Key) returns (found: Node)
      requires Valid()
      ensures found == nodes[Position(key) - 1]
    {
      hide Shape, Sorted, Linked, IsPrev, Succ, Position, Keys;
      HeadIsLinked();
      ghost var j := Position(key);
      ghost var a: nat := 0;
      var x: Node := head;
      var level := maxHeight - 1;
      while true
        invariant 0 <= level < maxHeight
        invariant a < j <= |nodes| == |levels| && nodes[a] == x && levels[a] > level
        decreases level, |nodes| - a
      {
        NextIsSucc(a, level);
        var next := x.next[level];
        ghost var b := Succ(levels, level, a);
        PositionSplits(key, b);
        if next == null || !Before(next.key, key) {
          if level == 0 {
            BottomSucc(a);
            return x;
          }
          level := level - 1;
        } else {
          x := next;
          a := b;
        }
      }
    }

    method FindLast() returns (found: Node)
      requires Valid()
      ensures |nodes| > 0 && found == nodes[|nodes| - 1]
    {
      hide Shape, Sorted, Linked, IsPrev, Succ, Position, Keys;
      HeadIsLinked();
      ghost var a: nat := 0;
      var x: Node := head;
      var level := maxHeight - 1;
      while true
        invariant 0 <= level < maxHeight
        invariant a < |nodes| == |levels| && nodes[a] == x && levels[a] > level
        decreases level, |nodes| - a
      {
        NextIsSucc(a, level);
        var next := x.next[level];
        if next == null {
          if level == 0 {
            BottomSucc(a);
            return x;
          }
          level := level - 1;
        } else {
          x := next;
          a := Succ(levels, level, a);
        }
      }
    }

    method Contains(key: Key) returns (found: bool)
      requires Valid()
      ensures found <==> key in Keys()
    {
      hide Shape, Sorted, Linked, Position, Keys;
      HeadIsLinked();
      var x, _ := FindGreaterOrEqual(key);
      found := x != null && x.key == key;
      KeyAtPosition(key);
    }

    lemma KeyAtPosition(key: Key)
      requires Valid()
      ensures |nodes| > 0 && (key in Keys() <==> Position(key) < |nodes| && nodes[Position(key)].key == key)
    {
      var keys, j := Keys(), Position(key);
      if key in keys {
        var k :| 0 <= k < |keys| && keys[k] == key;
        assert nodes[k + 1].key == key;
        PositionSplits(key, k + 1);
      } else if j < |nodes| {
        assert keys[j - 1] == nodes[j].key;
      }
    }

    // A key that is not in the list falls between its position and the node before.
    lemma Neighbours(key: Key)
      requires Valid() && key !in Keys()
      ensures |nodes| > 0
      ensures forall a :: 0 < a < |nodes| ==> if a < Position(key) then Before(nodes[a].key, key) else Before(key, nodes[a].key)
    {
      forall a | 0 < a < |nodes| ensures if a < Position(key) then Before(nodes[a].key, key) else Before(key, nodes[a].key) {
        assert Keys()[a - 1] == nodes[a].key;
        PositionSplits(key, a);
      }
    }

    lemma HeadIsLinked()
      requires Valid()
      ensures |nodes| == |levels| > 0 && nodes[0] == head && levels[0] == MAX_HEIGHT && 1 <= maxHeight <= MAX_HEIGHT
    {
    }

    // What a load of a next pointer yields.
    lemma NextIsSucc(a: nat, level: nat)
      requires Valid() && a < |levels| && level < levels[a]
      ensures |nodes| == |levels| && level < |nodes[a].next|
      ensures nodes[a].next[level] == At(Succ(levels, level, a))
    {
    }

    lemma LastBefore(a: nat, level: nat, j: nat)
      requires Valid() && a < |levels| && levels[a] > level && a < j <= Succ(levels, level, a)
      ensures |nodes| == |levels| && IsPrev(nodes, levels, nodes[a], level, j)
    {
    }

    // On the bottom level every node is linked.
    lemma BottomSucc(a: nat)
      requires Valid() && a < |levels|
      ensures Succ(levels, 0, a) == a + 1
    {
    }

    // The nodes before a key's position are those with smaller keys.
    lemma PositionSplits(key: Key, b: nat)
      requires Valid() && 0 < b <= |nodes|
      ensures b < |nodes| ==> (Before(nodes[b].key, key) <==> b < Position(key))
      ensures Position(key) <= b <==> b == |nodes| || !Before(nodes[b].key, key)
    {
      var keys := Keys();
      if b < |nodes| {
        assert keys[b - 1] == nodes[b].key;
        if Position(key) < b {
          assert keys[Position(key) - 1] == nodes[Position(key)].key;
        }
      }
    }

    // The levels above the list's height are empty.
    lemma EmptyLevel(level: nat, j: nat)
      requires Valid() && maxHeight <= level < MAX_HEIGHT && 1 <= j <= |nodes|
      ensures IsPrev(nodes, levels, head, level, j)
    {
      assert nodes[0] == head && levels[0] > level;
    }

    // max_height_.store.
    method RaiseMaxHeight(height: nat, ghost moments: seq<Snapshot>, ghost before: seq<Node>)
      returns (ghost moments': seq<Snapshot>)
      requires Valid() && maxHeight < height <= MAX_HEIGHT && nodes == before
      requires Story(moments, Now(), before, before)
      modifies `maxHeight
      ensures Valid() && maxHeight == height && Extended(old(nodes), old(levels), nodes, levels)
      ensures Story(moments', Now(), before, before) && moments <= moments'
    {
      hide Extended, Succ, Story, Consistent;
      ghost var s := Now();
      SameExtended(nodes, levels);
      maxHeight := height;
      ValidNow();
      StoryGoesOn(moments, s, Now(), before, before);
      moments' := moments + [Now()];
    }

    // The store into a node that is not yet linked on the level.
    method PrepareLink(x: Node, i: nat, prev: Node)
      requires Valid() && i < |x.next| && i < |prev.next|
      requires forall a :: 0 <= a < |nodes| && nodes[a] == x ==> levels[a] <= i
      modifies x
      ensures Valid() && x.next == old(x.next)[i := old(prev.next)[i]]
      ensures Extended(old(nodes), old(levels), nodes, levels)
    {
      hide Extended, Succ, Sorted;
      SameExtended(nodes, levels);
      x.SetNext(i, prev.next[i]);
    }

    // The store that links a node on level i, where it is linked on the levels below; on the bottom level it
    // enters the list at position j.
    method PublishLink(x: Node, i: nat, prev: Node, ghost j: nat)
      requires Valid() && i < |x.next| && i < maxHeight && 1 <= j <= |nodes|
      requires IsPrev(nodes, levels, prev, i, j) && i < |prev.next| && x.next[i] == prev.next[i]
      requires if i == 0 then x !in nodes else j < |nodes| == |levels| && nodes[j] == x && levels[j] == i
      requires forall a :: 0 < a < |nodes| && nodes[a] != x ==>
        if a < j then Before(nodes[a].key, x.key) else Before(x.key, nodes[a].key)
      modifies this`nodes, this`levels, prev
      ensures Valid() && prev.next == old(prev.next)[i := x]
      ensures nodes == if i == 0 then Inserted(old(nodes), j, x) else old(nodes)
      ensures levels == if i == 0 then Inserted(old(levels), j, 1) else old(levels)[j := i + 1]
      ensures Extended(old(nodes), old(levels), nodes, levels)
    {
      hide *;
      HeadIsLinked();
      ghost var nodes', levels', nexts', a := AfterPublish(x, i, prev, j);
      if i == 0 {
        InsertedExtended(nodes, levels, j, x);
      } else {
        RaisedExtended(nodes, levels, j);
      }
      OthersDiffer(nodes, a);
      nodes, levels := nodes', levels';
      prev.SetNext(i, x);
      NextsAre(nexts');
    }

    // The list as the store of PublishLink leaves it.
    lemma AfterPublish(x: Node, i: nat, prev: Node, j: nat)
      returns (nodes': seq<Node>, levels': seq<nat>, nexts': seq<seq<Node?>>, a: nat)
      requires Valid() && i < |x.next| && i < maxHeight && 1 <= j <= |nodes|
      requires IsPrev(nodes, levels, prev, i, j) && i < |prev.next| && x.next[i] == prev.next[i]
      requires if i == 0 then x !in nodes else j < |nodes| == |levels| && nodes[j] == x && levels[j] == i
      requires forall a :: 0 < a < |nodes| && nodes[a] != x ==>
        if a < j then Before(nodes[a].key, x.key) else Before(x.key, nodes[a].key)
      ensures Shape(head, maxHeight, nodes', nexts', levels') && Sorted(nodes') && Linked(nodes', nexts', levels')
      ensures nodes' == if i == 0 then Inserted(nodes, j, x) else nodes
      ensures levels' == if i == 0 then Inserted(levels, j, 1) else levels[j := i + 1]
      ensures Sorted(nodes) && a < j && nodes[a] == prev && |nexts'| == |nodes'|
      ensures forall b :: 0 <= b < |nodes'| ==>
        nexts'[b] == if nodes'[b] == prev then prev.next[i := x] else nodes'[b].next
    {
      hide Succ, Shape, Sorted, Linked;
      var nexts := Nexts();
      HeadIsLinked();
      a :| a < j && nodes[a] == prev && levels[a] > i && forall c :: a < c < j ==> levels[c] <= i;
      OthersDiffer(nodes, a);
      if i == 0 {
        BottomPrev(prev, j);
        ShapeInserted(head, maxHeight, nodes, nexts, levels, j, x, x.next);
        SortedInserted(nodes, j, x);
        LinkInserted(nodes, nexts, levels, j, x, x.next);
        nodes', levels' := Inserted(nodes, j, x), Inserted(levels, j, 1);
        nexts' := Inserted(nexts[j - 1 := nexts[j - 1][0 := x]], j, x.next);
      } else {
        LinkRaised(head, maxHeight, nodes, nexts, levels, j, a);
        nodes', levels', nexts' := nodes, levels[j := i + 1], nexts[a := nexts[a][i := x]];
      }
    }

    lemma NextsAre(nexts: seq<seq<Node?>>)
      requires |nexts| == |nodes| && forall a :: 0 <= a < |nodes| ==> nexts[a] == nodes[a].next
      requires Shape(head, maxHeight, nodes, nexts, levels) && Sorted(nodes) && Linked(nodes, nexts, levels)
      ensures Valid()
    {
      hide Shape, Sorted, Linked;
      assert Nexts() == nexts;
    }

    lemma BottomPrev(prev: Node, j: nat)
      requires Valid() && 1 <= j <= |nodes| && IsPrev(nodes, levels, prev, 0, j)
      ensures |nodes| == |levels| && prev == nodes[j - 1] && |prev.next| > 0 && prev.next[0] == At(j)
    {
      BottomSucc(j - 1);
      NextIsSucc(j - 1, 0);
    }

    // Inserts a key that the list does not hold, at any height RandomHeight may choose. The moments are the list
    // before the insertion and after each of its stores.
    method Insert(key: Key, value: string, height: nat) returns (ghost moments: seq<Snapshot>)
      requires Valid() && key !in Keys() && 1 <= height <= MAX_HEIGHT
      modifies this, nodes
      ensures Valid() && old(Position(key)) < |nodes| && fresh(nodes[old(Position(key))])
      ensures nodes == Inserted(old(nodes), old(Position(key)), nodes[old(Position(key))])
      ensures levels == Inserted(old(levels), old(Position(key)), height)
      ensures Keys() == Inserted(old(Keys()), old(Position(key)) - 1, key)
      ensures nodes[old(Position(key))].key == key && nodes[old(Position(key))].value == value
      ensures Story(moments, Now(), old(nodes), nodes) && [old(Now())] <= moments
    {
      hide Succ, Shape, Sorted, Linked, IsPrev, Position, KeysOf, Extended, Story, Now;
      HeadIsLinked();
      ValidNow();
      StoryBegins(Now());
      moments := [Now()];
      ghost var j, before, heights := Position(key), nodes, levels;
      KeyAtPosition(key);
      Neighbours(key);
      var found: Node?, prev: seq<Node>;
      found, prev := FindGreaterOrEqual(key);
      assert found == null || found.key != key;
      if height > maxHeight {
        EmptyLevels(j);
        for i := maxHeight to height
          invariant |prev| == MAX_HEIGHT
          invariant forall l :: 0 <= l < i ==> IsPrev(before, heights, prev[l], l, j)
        {
          prev := prev[i := head];
        }
        moments := RaiseMaxHeight(height, moments, before);
      }
      var x := new Node(key, value, height);
      moments := LinkNode(x, prev, j, moments);
      KeysInserted(before, x, j);
    }

    // The loop of Insert: links a new node on its levels, from the bottom up.
    method LinkNode(x: Node, prev: seq<Node>, ghost j: nat, ghost moments: seq<Snapshot>)
      returns (ghost moments': seq<Snapshot>)
      requires Valid() && x !in nodes && 1 <= |x.next| <= maxHeight && |prev| == MAX_HEIGHT && 1 <= j <= |nodes|
      requires forall l :: 0 <= l < |x.next| ==> IsPrev(nodes, levels, prev[l], l, j)
      requires forall a :: 0 < a < |nodes| ==> if a < j then Before(nodes[a].key, x.key) else Before(x.key, nodes[a].key)
      requires Story(moments, Now(), nodes, nodes)
      modifies this`nodes, this`levels, nodes, x
      ensures Valid() && nodes == Inserted(old(nodes), j, x)
      ensures levels == Inserted(old(levels), j, old(|x.next|))
      ensures Story(moments', Now(), old(nodes), nodes) && moments <= moments'
    {
      hide *;
      HeadIsLinked();
      ghost var before, heights := nodes, levels;
      StoryWidens(moments, Now(), before, Inserted(before, j, x));
      moments' := moments;
      var height := |x.next|;
      NothingLinked(x, prev, j);
      for i := 0 to height
        invariant j <= |before| && |x.next| == height && Halfway(x, i, prev, j, before, heights)
        invariant Story(moments', Now(), before, Inserted(before, j, x)) && moments <= moments'
      {
        moments' := LinkStep(x, i, prev, j, moments', before, heights);
      }
      AllLinked(x, height, prev, j, before, heights);
    }

    // x is linked on its lowest i levels.
    ghost predicate Halfway(x: Node, i: nat, prev: seq<Node>, j: nat, before: seq<Node>, heights: seq<nat>)
      reads this, nodes, x
    {
      Valid() && |x.next| <= maxHeight && LinkedUpTo(nodes, levels, x, |x.next|, i, prev, j, before, heights)
    }

    lemma NothingLinked(x: Node, prev: seq<Node>, j: nat)
      requires Valid() && x !in nodes && 1 <= |x.next| <= maxHeight && |prev| == MAX_HEIGHT && 1 <= j <= |nodes|
      requires forall l :: 0 <= l < |x.next| ==> IsPrev(nodes, levels, prev[l], l, j)
      requires forall a :: 0 < a < |nodes| ==> if a < j then Before(nodes[a].key, x.key) else Before(x.key, nodes[a].key)
      ensures Halfway(x, 0, prev, j, nodes, levels)
    {
      hide Succ, Shape, Sorted, Linked, IsPrev;
      HeadIsLinked();
    }

    lemma AllLinked(x: Node, i: nat, prev: seq<Node>, j: nat, before: seq<Node>, heights: seq<nat>)
      requires Halfway(x, i, prev, j, before, heights) && i > 0
      ensures Valid() && j <= |before| && |heights| == |before|
      ensures nodes == Inserted(before, j, x) && levels == Inserted(heights, j, i)
    {
    }

    // One turn of that loop.
    method LinkStep(x: Node, i: nat, prev: seq<Node>, ghost j: nat, ghost moments: seq<Snapshot>,
                    ghost before: seq<Node>, ghost heights: seq<nat>)
      returns (ghost moments': seq<Snapshot>)
      requires Halfway(x, i, prev, j, before, heights) && i < |x.next| && j <= |before|
      requires Story(moments, Now(), before, Inserted(before, j, x))
      modifies this`nodes, this`levels, before, x
      ensures |x.next| == old(|x.next|) && Halfway(x, i + 1, prev, j, before, heights)
      ensures Story(moments', Now(), before, Inserted(before, j, x)) && moments <= moments'
    {
      hide *;
      ghost var l0, n0 := levels, nodes;
      HalfwayMeans(x, i, prev, j, before, heights);
      moments' := LinkLevel(x, i, prev[i], j, moments, before, Inserted(before, j, x));
      HalfwayOn(x, i, prev, j, before, heights, n0, l0);
    }

    // What LinkLevel needs.
    lemma HalfwayMeans(x: Node, i: nat, prev: seq<Node>, j: nat, before: seq<Node>, heights: seq<nat>)
      requires Halfway(x, i, prev, j, before, heights) && i < |x.next|
      ensures LinkedUpTo(nodes, levels, x, |x.next|, i, prev, j, before, heights)
      ensures Valid() && |x.next| <= maxHeight && |prev| == MAX_HEIGHT && i < |prev| && 1 <= j <= |nodes|
      ensures j <= |before| == |heights| && |nodes| == |levels| && IsPrev(nodes, levels, prev[i], i, j)
      ensures if i == 0 then x !in nodes else j < |nodes| && nodes[j] == x && levels[j] == i
      ensures forall a :: 0 < a < |nodes| && nodes[a] != x ==>
        if a < j then Before(nodes[a].key, x.key) else Before(x.key, nodes[a].key)
      ensures nodes in [before, Inserted(before, j, x)]
      ensures (if i == 0 then Inserted(nodes, j, x) else nodes) in [before, Inserted(before, j, x)]
      ensures forall n :: n in nodes ==> n in before || n == x
      ensures MAX_HEIGHT == 12
    {
      hide Succ, Shape, Sorted, Linked, IsPrev;
      HeadIsLinked();
      OnlyOneMore(before, j, x);
    }

    lemma HalfwayOn(x: Node, i: nat, prev: seq<Node>, j: nat, before: seq<Node>, heights: seq<nat>,
                    n0: seq<Node>, l0: seq<nat>)
      requires Valid() && i < |x.next| <= maxHeight && |n0| == |l0| && j <= |n0| && (i > 0 ==> j < |n0|)
      requires LinkedUpTo(n0, l0, x, |x.next|, i, prev, j, before, heights)
      requires nodes == if i == 0 then Inserted(n0, j, x) else n0
      requires levels == if i == 0 then Inserted(l0, j, 1) else l0[j := i + 1]
      ensures Halfway(x, i + 1, prev, j, before, heights)
    {
      hide Succ, Shape, Sorted, Linked, IsPrev;
      InsertedRaised(heights, j, i, i + 1);
      forall l | i < l < |x.next|
        ensures IsPrev(nodes, levels, prev[l], l, j)
      {
        PrevStays(n0, l0, prev[l], l, j, i, x);
      }
    }

    // The two stores for one level.
    method LinkLevel(x: Node, i: nat, prev: Node, ghost j: nat, ghost moments: seq<Snapshot>,
                     ghost before: seq<Node>, ghost after: seq<Node>)
      returns (ghost moments': seq<Snapshot>)
      requires Valid() && i < |x.next| <= maxHeight && 1 <= j <= |nodes|
      requires IsPrev(nodes, levels, prev, i, j)
      requires if i == 0 then x !in nodes else j < |nodes| == |levels| && nodes[j] == x && levels[j] == i
      requires forall a :: 0 < a < |nodes| && nodes[a] != x ==>
        if a < j then Before(nodes[a].key, x.key) else Before(x.key, nodes[a].key)
      requires Story(moments, Now(), before, after)
      requires nodes in [before, after] && (if i == 0 then Inserted(nodes, j, x) else nodes) in [before, after]
      modifies this`nodes, this`levels, nodes, x
      ensures Valid() && |x.next| == old(|x.next|)
      ensures nodes == if i == 0 then Inserted(old(nodes), j, x) else old(nodes)
      ensures levels == if i == 0 then Inserted(old(levels), j, 1) else old(levels)[j := i + 1]
      ensures Story(moments', Now(), before, after) && moments <= moments'
    {
      hide Succ, Shape, Sorted, Linked, IsPrev, Extended, Story, Now, Consistent;
      HeadIsLinked();
      PrevIsLinked(prev, i, j);
      FreshLevels(x, i, j);
      NotItself(x, prev, i, j);
      ghost var s := Now();
      ValidNow();
      PrepareLink(x, i, prev);
      ValidNow();
      ghost var t := Now();
      StoryGoesOn(moments, s, t, before, after);
      PublishLink(x, i, prev, j);
      ValidNow();
      StoryGoesOn(moments + [t], t, Now(), before, after);
      moments' := moments + [t] + [Now()];
    }

    lemma NotItself(x: Node, prev: Node, i: nat, j: nat)
      requires Valid() && IsPrev(nodes, levels, prev, i, j)
      requires if i == 0 then x !in nodes else j < |nodes| == |levels| && nodes[j] == x
      ensures x != prev
    {
    }

    lemma KeysInserted(before: seq<Node>, x: Node, j: nat)
      requires 1 <= j <= |before| && nodes == Inserted(before, j, x)
      ensures |KeysOf(before)| == |before| - 1 && Keys() == Inserted(KeysOf(before), j - 1, x.key)
    {
    }

    lemma EmptyLevels(j: nat)
      requires Valid() && 1 <= j <= |nodes|
      ensures forall l :: maxHeight <= l < MAX_HEIGHT ==> IsPrev(nodes, levels, head, l, j)
    {
      forall l | maxHeight <= l < MAX_HEIGHT ensures IsPrev(nodes, levels, head, l, j) {
        EmptyLevel(l, j);
      }
    }

    lemma PrevIsLinked(n: Node, level: nat, j: nat)
      requires Valid() && IsPrev(nodes, levels, n, level, j)
      ensures n in nodes && level < |n.next|
    {
    }

    lemma FreshLevels(x: Node, i: nat, j: nat)
      requires Valid() && |nodes| == |levels|
      requires if i == 0 then x !in nodes else j < |nodes| && nodes[j] == x && levels[j] == i
      ensures forall a :: 0 <= a < |nodes| && nodes[a] == x ==> levels[a] <= i
    {
      if i > 0 {
        OthersDiffer(nodes, j);
      }
    }
  }

  lemma PrevStays(nodes: seq<Node>, levels: seq<nat>, n: Node, level: nat, j: nat, i: nat, x: Node)
    requires IsPrev(nodes, levels, n, level, j) && (i == 0 || j < |levels|)
    ensures if i == 0 then IsPrev(Inserted(nodes, j, x), Inserted(levels, j, 1), n, level, j)
            else IsPrev(nodes, levels[j := i + 1], n, level, j)
  {
    var a :| 0 <= a < j && nodes[a] == n && levels[a] > level && forall c :: a < c < j ==> levels[c] <= level;
    if i == 0 {
      assert Inserted(nodes, j, x)[a] == n && Inserted(levels, j, 1)[a] == levels[a];
    }
  }

  // SkipList::Iterator. There are no links backwards; Prev searches.
  class ListIterator {
    const list: List
    var node: Node?

    constructor (list: List)
      ensures this.list == list && node == null
    {
      this.list, node := list, null;
    }

    // The iterator stands at entry a, counting from 1; behind the last entry and before the first it is invalid.
    ghost predicate IsAt(a: nat)
      reads this, list
    {
      node == if a == 0 then null else list.At(a)
    }

    method Next(ghost a: nat)
      requires list.Valid() && 0 < a < |list.nodes| && IsAt(a)
      modifies this
      ensures IsAt(a + 1)
    {
      list.HeadIsLinked();
      list.NextIsSucc(a, 0);
      list.BottomSucc(a);
      node := node.next[0];
    }

    method Prev(ghost a: nat)
      requires list.Valid() && 0 < a < |list.nodes| && IsAt(a)
      modifies this
      ensures IsAt(a - 1)
    {
      list.PositionSplits(node.key, a);
      if a > 1 {
        list.PositionSplits(node.key, a - 1);
      }
      var x := list.FindLessThan(node.key);
      node := if x == list.head then null else x;
    }

    method Seek(target: Key)
      requires list.Valid()
      modifies this
      ensures |list.nodes| > 0 && IsAt(list.Position(target))
    {
      var prev;
      node, prev := list.FindGreaterOrEqual(target);
    }

    method SeekToFirst()
      requires list.Valid()
      modifies this
      ensures IsAt(1)
    {
      list.HeadIsLinked();
      list.NextIsSucc(0, 0);
      list.BottomSucc(0);
      node := list.head.next[0];
    }

    method SeekToLast()
      requires list.Valid()
      modifies this
      ensures |list.nodes| > 0 && IsAt(|list.nodes| - 1)
    {
      var x := list.FindLast();
      node := if x == list.head then null else x;
    }
  }

  // A new node at position j of the bottom level.
  function Inserted<T>(s: seq<T>, j: nat, x: T): (r: seq<T>)
    requires j <= |s|
    ensures |r| == |s| + 1 && r[j] == x
    ensures forall k :: 0 <= k < j ==> r[k] == s[k]
    ensures forall k :: j < k < |r| ==> r[k] == s[k - 1]
  {
    s[..j] + [x] + s[j..]
  }

  lemma OnlyOneMore<T>(s: seq<T>, j: nat, x: T)
    requires j <= |s|
    ensures forall y :: y in Inserted(s, j, x) ==> y == x || y in s
  {
  }

  lemma InsertedRaised(s: seq<nat>, j: nat, v: nat, w: nat)
    requires j <= |s|
    ensures Inserted(s, j, v)[j := w] == Inserted(s, j, w)
  {
  }

  lemma SuccInserted(levels: seq<nat>, level: nat, a: nat, j: nat)
    requires a < |levels| && 1 <= j <= |levels| && forall c :: 0 <= c < |levels| ==> levels[c] >= 1
    ensures var s, t := Succ(levels, level, a), Inserted(levels, j, 1);
            Succ(t, level, if a < j then a else a + 1) ==
            if level == 0 && a == j - 1 then j else if s < j then s else s + 1
  {
    var s, t := Succ(levels, level, a), Inserted(levels, j, 1);
    var a' := if a < j then a else a + 1;
    var s' := if level == 0 && a == j - 1 then j else if s < j then s else s + 1;
    forall c | a' < c < s' ensures t[c] <= level {
      if c > j {
        assert t[c] == levels[c - 1];
      }
    }
    SuccIs(t, level, a', s');
  }

  lemma SuccRaised(levels: seq<nat>, level: nat, a: nat, p: nat)
    requires a < |levels| && p < |levels|
    ensures var s, t := Succ(levels, level, a), levels[p := levels[p] + 1];
            Succ(t, level, a) == if level == levels[p] && a < p < s then p else s
  {
    var s, t := Succ(levels, level, a), levels[p := levels[p] + 1];
    SuccIs(t, level, a, if level == levels[p] && a < p < s then p else s);
  }

  lemma NewSucc(levels: seq<nat>, j: nat)
    requires 1 <= j <= |levels| && forall c :: 0 <= c < |levels| ==> levels[c] >= 1
    ensures Succ(Inserted(levels, j, 1), 0, j) == j + 1
  {
    SuccIs(Inserted(levels, j, 1), 0, j, j + 1);
  }

  lemma LinkInserted(nodes: seq<Node>, nexts: seq<seq<Node?>>, levels: seq<nat>, j: nat, x: Node, xnext: seq<Node?>)
    requires Linked(nodes, nexts, levels) && 1 <= j <= |nodes|
    requires forall c :: 0 <= c < |levels| ==> levels[c] >= 1
    requires |nexts[j - 1]| > 0 && |xnext| > 0 && xnext[0] == NodeAt(nodes, j)
    ensures Linked(Inserted(nodes, j, x), Inserted(nexts[j - 1 := nexts[j - 1][0 := x]], j, xnext),
                         Inserted(levels, j, 1))
  {
    hide Succ;
    var nodes', levels' := Inserted(nodes, j, x), Inserted(levels, j, 1);
    var nexts' := Inserted(nexts[j - 1 := nexts[j - 1][0 := x]], j, xnext);
    forall a, i | 0 <= a < |nodes'| && 0 <= i < levels'[a] && i < |nexts'[a]|
      ensures nexts'[a][i] == NodeAt(nodes', Succ(levels', i, a))
    {
      if a == j {
        NewSucc(levels, j);
      } else {
        var b := if a < j then a else a - 1;
        SuccInserted(levels, i, b, j);
        assert levels'[a] == levels[b] && |nexts'[a]| == |nexts[b]|;
        assert nexts[b][i] == NodeAt(nodes, Succ(levels, i, b));
      }
    }
  }

  lemma ShapeInserted(head: Node, maxHeight: nat, nodes: seq<Node>, nexts: seq<seq<Node?>>, levels: seq<nat>,
                      j: nat, x: Node, xnext: seq<Node?>)
    requires Shape(head, maxHeight, nodes, nexts, levels) && 1 <= j <= |nodes| && |xnext| > 0
    ensures |nexts[j - 1]| > 0 && forall c :: 0 <= c < |levels| ==> levels[c] >= 1
    ensures Shape(head, maxHeight, Inserted(nodes, j, x), Inserted(nexts[j - 1 := nexts[j - 1][0 := x]], j, xnext),
                  Inserted(levels, j, 1))
  {
  }

  lemma SortedInserted(nodes: seq<Node>, j: nat, x: Node)
    requires Sorted(nodes) && x !in nodes && 1 <= j <= |nodes|
    requires forall a :: 0 < a < |nodes| ==> if a < j then Before(nodes[a].key, x.key) else Before(x.key, nodes[a].key)
    ensures Sorted(Inserted(nodes, j, x))
  {
  }

  lemma OthersDiffer(nodes: seq<Node>, p: nat)
    requires Sorted(nodes) && p < |nodes|
    ensures forall a :: 0 <= a < |nodes| && a != p ==> nodes[a] != nodes[p]
  {
  }

  lemma LinkRaised(head: Node, maxHeight: nat, nodes: seq<Node>, nexts: seq<seq<Node?>>, levels: seq<nat>, p: nat,
                   a: nat)
    requires Shape(head, maxHeight, nodes, nexts, levels) && Linked(nodes, nexts, levels)
    requires a < p < |nodes| && levels[p] < levels[a] && levels[p] < |nexts[p]| && levels[p] < maxHeight
    requires forall c :: a < c < p ==> levels[c] <= levels[p]
    requires nexts[p][levels[p]] == nexts[a][levels[p]]
    ensures var i := levels[p];
            var nexts', levels' := nexts[a := nexts[a][i := nodes[p]]], levels[p := i + 1];
            Shape(head, maxHeight, nodes, nexts', levels') && Linked(nodes, nexts', levels')
  {
    hide Succ;
    var i := levels[p];
    var nexts', levels' := nexts[a := nexts[a][i := nodes[p]]], levels[p := i + 1];
    forall b, l | 0 <= b < |nodes| && 0 <= l < levels'[b] && l < |nexts'[b]|
      ensures nexts'[b][l] == NodeAt(nodes, Succ(levels', l, b))
    {
      SuccRaised(levels, l, b, p);
      SuccRaised(levels, i, a, p);
      if l < levels[b] {
        assert nexts[b][l] == NodeAt(nodes, Succ(levels, l, b));
      }
      if b == p && l == i {
        PastRaised(levels, a, p);
      } else if l == i && b < a {
        assert Succ(levels, i, b) <= a;
      }
    }
  }

  // The node after a comes after p too, which is not linked on the level.
  lemma PastRaised(levels: seq<nat>, a: nat, p: nat)
    requires a < p < |levels| && forall c :: a < c < p ==> levels[c] <= levels[p]
    ensures Succ(levels, levels[p], p) == Succ(levels, levels[p], a)
    ensures p < Succ(levels, levels[p], a)
  {
    SuccIs(levels, levels[p], a, Succ(levels, levels[p], p));
  }
}
