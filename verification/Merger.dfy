/**
 MergingIterator of table/merger.cc: one cursor over the sorted union of its children.
 */
module Merger {
  import opened Keys
  import opened ReadPath
  import opened Iterators

  // The key comes before position t of the union.
  predicate Below(all: seq<Entry>, t: nat, key: InternalKey)
    requires t <= |all|
  {
    t == |all| || Less(key, all[t].key)
  }

  // pos is the first entry of the child that is not below t.
  ghost predicate FirstAtOrAfter(all: seq<Entry>, t: nat, es: seq<Entry>, pos: nat)
    requires t <= |all|
  {
    && pos <= |es|
    && (forall k | 0 <= k < pos :: Below(all, t, es[k].key))
    && (forall k | pos <= k < |es| :: !Below(all, t, es[k].key))
  }

  // pos is the last entry of the child that is below t, or the end when there is none.
  ghost predicate LastBelow(all: seq<Entry>, t: nat, es: seq<Entry>, pos: nat)
    requires t <= |all|
  {
    && pos <= |es|
    && (pos < |es| ==> Below(all, t, es[pos].key))
    && (forall k | 0 <= k < |es| && (pos == |es| || pos < k) :: !Below(all, t, es[k].key))
  }

  // Keys of different children are different, and all lists the union in order.
  ghost predicate IsUnion(all: seq<Entry>, children: seq<seq<Entry>>) {
    && Sorted(all)
    && (forall i | 0 <= i < |children| :: Sorted(children[i]))
    && (forall e :: e in all <==> exists i :: 0 <= i < |children| && e in children[i])
    && (forall i, j, x, y | 0 <= i < j < |children| && x in children[i] && y in children[j] :: x.key != y.key)
  }

  class MergingIterator {
    const children: seq<Cursor>
    ghost const all: seq<Entry>
    var current: int        // index of the child that is current, -1 when there is none
    var direction: Direction
    ghost var at: nat       // position in all, |all| when not valid

    // The cursors that are merged.
    function Parts(): set<Cursor>
    {
      set c | c in children
    }

    ghost function Lists(): seq<seq<Entry>>
    {
      seq(|children|, i requires 0 <= i < |children| => children[i].entries)
    }

    ghost predicate Wired()
      reads this, Parts()
    {
      && IsUnion(all, Lists())
      && (forall i | 0 <= i < |children| :: children[i].Good())
      && (forall i, j | 0 <= i < j < |children| :: children[i] != children[j])
    }

    ghost predicate Ahead(t: nat)
      requires t <= |all|
      reads this, Parts()
    {
      forall i | 0 <= i < |children| :: FirstAtOrAfter(all, t, children[i].entries, children[i].pos)
    }

    ghost predicate Behind(t: nat)
      requires t <= |all|
      reads this, Parts()
    {
      forall i | 0 <= i < |children| :: LastBelow(all, t, children[i].entries, children[i].pos)
    }

    ghost predicate Good(): (ok: bool)
      reads this, Parts()
      ensures ok ==> Sorted(all) && at <= |all| && (Valid() <==> at < |all|)
    {
      && Wired()
      && -1 <= current < |children|
      && at <= |all|
      && (current == -1 <==> at == |all|)
      && (current >= 0 ==> children[current].Valid() && children[current].Current() == all[at])
      && (current >= 0 && direction.Forward? ==> Ahead(at))
      && (current >= 0 && direction.Reverse? ==> Behind(at + 1))
    }

    predicate Valid()
      reads this
    {
      current != -1
    }

    function Current(): Entry
      requires Good() && Valid()
      reads this, Parts()
      ensures Current() == all[at]
    {
      children[current].Current()
    }

    constructor (children: seq<Cursor>, ghost all: seq<Entry>)
      requires forall i | 0 <= i < |children| :: children[i].Good()
      requires forall i, j | 0 <= i < j < |children| :: children[i] != children[j]
      requires IsUnion(all, seq(|children|, i requires 0 <= i < |children| => children[i].entries))
      ensures Good() && this.children == children && this.all == all && !Valid()
    {
      this.children, this.all := children, all;
      current, direction, at := -1, Forward, |all|;
    }

    method FindSmallest(ghost t: nat)
      requires Wired() && t <= |all| && Ahead(t)
      modifies this`current, this`at
      ensures Wired() && Ahead(t) && at == t
      ensures -1 <= current < |children|
      ensures current == -1 <==> t == |all|
      ensures current >= 0 ==> children[current].Valid() && children[current].Current() == all[t]
    {
      var smallest := -1;
      var i := 0;
      while i < |children|
        invariant 0 <= i <= |children| && -1 <= smallest < i
        invariant smallest == -1 ==> forall k | 0 <= k < i :: !children[k].Valid()
        invariant smallest >= 0 ==> children[smallest].Valid()
        invariant smallest >= 0 ==> forall k | 0 <= k < i && children[k].Valid() ::
          !Less(children[k].Current().key, children[smallest].Current().key)
      {
        var child := children[i];
        if child.Valid() {
          if smallest == -1 {
            smallest := i;
          } else if Less(child.Current().key, children[smallest].Current().key) {
            smallest := i;
          }
        }
        i := i + 1;
      }
      current, at := smallest, t;
      SmallestIsNext(t, smallest);
    }

    lemma SmallestIsNext(t: nat, smallest: int)
      requires Wired() && t <= |all| && Ahead(t) && -1 <= smallest < |children|
      requires smallest == -1 ==> forall k | 0 <= k < |children| :: !children[k].Valid()
      requires smallest >= 0 ==> children[smallest].Valid()
      requires smallest >= 0 ==> forall k | 0 <= k < |children| && children[k].Valid() ::
        !Less(children[k].Current().key, children[smallest].Current().key)
      ensures smallest == -1 <==> t == |all|
      ensures smallest >= 0 ==> children[smallest].Current() == all[t]
    {
      if t < |all| {
        var i := NextHead(t);
        CurrentInUnion(smallest);
        SameKey(all, children[smallest].Current(), all[t]);
      }
    }

    method FindLargest(ghost t: nat)
      requires Wired() && t <= |all| && Behind(t)
      modifies this`current, this`at
      ensures Wired() && Behind(t)
      ensures at == if t == 0 then |all| else t - 1
      ensures -1 <= current < |children|
      ensures current == -1 <==> t == 0
      ensures current >= 0 ==> children[current].Valid() && children[current].Current() == all[at]
    {
      var largest := -1;
      var i := |children| - 1;
      while i >= 0
        invariant -1 <= i < |children| && (largest == -1 || i < largest < |children|)
        invariant largest == -1 ==> forall k | i < k < |children| :: !children[k].Valid()
        invariant largest >= 0 ==> children[largest].Valid()
        invariant largest >= 0 ==> forall k | i < k < |children| && children[k].Valid() ::
          !Less(children[largest].Current().key, children[k].Current().key)
      {
        var child := children[i];
        if child.Valid() {
          if largest == -1 {
            largest := i;
          } else if Less(children[largest].Current().key, child.Current().key) {
            largest := i;
          }
        }
        i := i - 1;
      }
      current, at := largest, if t == 0 then |all| else t - 1;
      LargestIsPrevious(t, largest);
    }

    lemma LargestIsPrevious(t: nat, largest: int)
      requires Wired() && t <= |all| && Behind(t) && -1 <= largest < |children|
      requires largest == -1 ==> forall k | 0 <= k < |children| :: !children[k].Valid()
      requires largest >= 0 ==> children[largest].Valid()
      requires largest >= 0 ==> forall k | 0 <= k < |children| && children[k].Valid() ::
        !Less(children[largest].Current().key, children[k].Current().key)
      ensures largest == -1 <==> t == 0
      ensures largest >= 0 ==> children[largest].Current() == all[t - 1]
    {
      if largest >= 0 {
        CurrentInUnion(largest);
        BelowIsBefore(all, t, children[largest].Current());
      }
      if t > 0 {
        var i := PreviousHead(t);
        CurrentInUnion(largest);
        SameKey(all, children[largest].Current(), all[t - 1]);
      }
    }

    lemma CurrentInUnion(i: nat)
      requires Wired() && i < |children| && children[i].Valid()
      ensures children[i].Current() in all
    {
      assert children[i].entries == Lists()[i];
      InUnion(all, Lists(), i, children[i].Current());
    }

    lemma PreviousHead(t: nat) returns (i: nat)
      requires Wired() && 0 < t <= |all| && Behind(t)
      ensures i < |children| && children[i].Valid() && children[i].Current() == all[t - 1]
    {
      var k;
      i, k := ChildOf(all, Lists(), t - 1);
      assert children[i].entries == Lists()[i];
      LastOfChild(all, t, children[i].entries, children[i].pos, k);
    }

    lemma NextHead(t: nat) returns (i: nat)
      requires Wired() && t < |all| && Ahead(t)
      ensures i < |children| && children[i].Valid() && children[i].Current() == all[t]
    {
      var k;
      i, k := ChildOf(all, Lists(), t);
      assert children[i].entries == Lists()[i];
      HeadOfChild(all, t, children[i].entries, children[i].pos, k);
    }

    method SeekToFirst()
      requires Good()
      modifies this, Parts()
      ensures Good() && at == 0 && direction.Forward?
    {
      var i := 0;
      while i < |children|
        invariant 0 <= i <= |children| && Wired()
        invariant forall k | 0 <= k < i :: children[k].pos == 0
      {
        children[i].SeekToFirst();
        i := i + 1;
      }
      forall k | 0 <= k < |children|
        ensures FirstAtOrAfter(all, 0, children[k].entries, children[k].pos)
      {
        assert children[k].entries == Lists()[k];
        NothingBelowZero(all, Lists(), k);
      }
      FindSmallest(0);
      direction := Forward;
    }

    method SeekToLast()
      requires Good()
      modifies this, Parts()
      ensures Good() && at == (if |all| == 0 then 0 else |all| - 1) && direction.Reverse?
    {
      var i := 0;
      while i < |children|
        invariant 0 <= i <= |children| && Wired()
        invariant forall k | 0 <= k < i :: LastBelow(all, |all|, children[k].entries, children[k].pos)
      {
        children[i].SeekToLast();
        i := i + 1;
      }
      FindLargest(|all|);
      direction := Reverse;
    }

    // The first entry of the union at or after target.
    method Seek(target: InternalKey)
      requires Good()
      modifies this, Parts()
      ensures Good() && direction.Forward?
      ensures forall k | 0 <= k < at :: Less(all[k].key, target)
      ensures at < |all| ==> !Less(all[at].key, target)
    {
      ghost var t := SeekIndex(all, target);
      var i := 0;
      while i < |children|
        invariant 0 <= i <= |children| && Wired()
        invariant forall k | 0 <= k < i :: FirstAtOrAfter(all, t, children[k].entries, children[k].pos)
      {
        children[i].Seek(target);
        assert children[i].entries == Lists()[i];
        SeekInChild(all, Lists(), i, target, t, children[i].pos);
        i := i + 1;
      }
      FindSmallest(t);
      direction := Forward;
    }

    // Repositions the other children behind the current one when the direction changes to forward.
    method TurnAllForward()
      requires Good() && Valid() && direction.Reverse?
      modifies this`direction, Parts()
      ensures Wired() && current == old(current) && at == old(at) && direction.Forward?
      ensures children[current].Valid() && children[current].Current() == all[at]
      ensures Ahead(at)
    {
      hide IsUnion, FirstAtOrAfter, LastBelow;
      var key := Current().key;
      CurrentInUnion(current);
      var i := 0;
      while i < |children|
        invariant 0 <= i <= |children| && Wired()
        invariant children[current].pos == old(children[current].pos)
        invariant forall k | 0 <= k < i && k != current :: FirstAtOrAfter(all, at, children[k].entries, children[k].pos)
      {
        if i != current {
          var child := children[i];
          child.Seek(key);
          assert child.entries == Lists()[i] && children[current].entries == Lists()[current];
          SeekHere(all, Lists(), i, at, child.pos);
          if child.Valid() {
            OtherKey(all, Lists(), i, current, child.Current(), all[at]);
          }
          if child.Valid() && child.Current().key == key {
            assert false;  // different children hold different keys
          }
        }
        i := i + 1;
      }
      direction := Forward;
      assert children[current].entries == Lists()[current];
      TurnForward(all, Lists(), current, at, children[current].pos);
    }

    lemma PassAll(t: nat)
      requires Wired() && t < |all| && Ahead(t) && 0 <= current < |children|
      requires children[current].Valid() && children[current].Current() == all[t]
      ensures forall i | 0 <= i < |children| && i != current ::
                FirstAtOrAfter(all, t + 1, children[i].entries, children[i].pos)
      ensures FirstAtOrAfter(all, t + 1, children[current].entries, children[current].pos + 1)
    {
      hide IsUnion, FirstAtOrAfter;
      assert children[current].entries == Lists()[current];
      forall i | 0 <= i < |children| && i != current
        ensures FirstAtOrAfter(all, t + 1, children[i].entries, children[i].pos)
      {
        assert children[i].entries == Lists()[i];
        PassOther(all, Lists(), i, current, t, children[i].pos);
      }
      PassCurrent(all, Lists(), current, t, children[current].pos);
    }

    method Next()
      requires Good() && Valid()
      modifies this, Parts()
      ensures Good() && at == old(at) + 1 && direction.Forward?
    {
      if !direction.Forward? {
        TurnAllForward();
      }
      ghost var t := at;
      PassAll(t);
      hide IsUnion, FirstAtOrAfter, LastBelow;
      children[current].Next();
      assert Ahead(t + 1);
      FindSmallest(t + 1);
    }

    // Repositions the other children in front of the current one when the direction changes to reverse.
    method TurnAllBack()
      requires Good() && Valid() && direction.Forward?
      modifies this`direction, Parts()
      ensures Wired() && current == old(current) && at == old(at) && direction.Reverse?
      ensures children[current].Valid() && children[current].Current() == all[at]
      ensures forall k | 0 <= k < |children| && k != current :: LastBelow(all, at, children[k].entries, children[k].pos)
    {
      var key := Current().key;
      var i := 0;
      while i < |children|
        invariant 0 <= i <= |children| && Wired()
        invariant children[current].pos == old(children[current].pos)
        invariant forall k | 0 <= k < i && k != current :: LastBelow(all, at, children[k].entries, children[k].pos)
      {
        hide IsUnion;
        if i != current {
          var child := children[i];
          child.Seek(key);
          assert child.entries == Lists()[i];
          SeekHere(all, Lists(), i, at, child.pos);
          if child.Valid() {
            child.Prev();
          } else {
            child.SeekToLast();
          }
          assert LastBelow(all, at, child.entries, child.pos);
        }
        i := i + 1;
      }
      direction := Reverse;
    }

    lemma BackAll(t: nat)
      requires Wired() && t < |all| && Behind(t + 1) && 0 <= current < |children|
      requires children[current].Valid() && children[current].Current() == all[t]
      ensures forall i | 0 <= i < |children| && i != current ::
                LastBelow(all, t, children[i].entries, children[i].pos)
    {
      hide IsUnion, LastBelow;
      assert children[current].entries == Lists()[current];
      forall i | 0 <= i < |children| && i != current
        ensures LastBelow(all, t, children[i].entries, children[i].pos)
      {
        assert children[i].entries == Lists()[i];
        BackOther(all, Lists(), i, current, t, children[i].pos);
      }
    }

    method Prev()
      requires Good() && Valid()
      modifies this, Parts()
      ensures Good() && direction.Reverse?
      ensures at == if old(at) == 0 then |all| else old(at) - 1
    {
      hide IsUnion, FirstAtOrAfter, LastBelow;
      if !direction.Reverse? {
        TurnAllBack();
      } else {
        BackAll(at);
      }
      ghost var t := at;
      assert children[current].entries == Lists()[current];
      BackCurrent(all, Lists(), current, t, children[current].pos);
      children[current].Prev();
      assert Behind(t);
      FindLargest(t);
    }
  }

  lemma SeekHere(all: seq<Entry>, children: seq<seq<Entry>>, i: nat, t: nat, pos: nat)
    requires IsUnion(all, children) && i < |children| && t < |all| && pos <= |children[i]|
    requires forall k | 0 <= k < pos :: Less(children[i][k].key, all[t].key)
    requires pos < |children[i]| ==> !Less(children[i][pos].key, all[t].key)
    ensures FirstAtOrAfter(all, t, children[i], pos)
  {
    var es := children[i];
    assert forall k | pos < k < |es| :: Less(es[pos].key, es[k].key);
  }

  // Different children hold different keys.
  lemma OtherKey(all: seq<Entry>, children: seq<seq<Entry>>, i: nat, c: nat, x: Entry, y: Entry)
    requires IsUnion(all, children) && i < |children| && c < |children| && i != c
    requires x in children[i] && y in children[c]
    ensures x.key != y.key
  {
  }

  lemma TurnForward(all: seq<Entry>, children: seq<seq<Entry>>, c: nat, t: nat, pos: nat)
    requires IsUnion(all, children) && c < |children| && t < |all| && pos < |children[c]| && children[c][pos] == all[t]
    ensures FirstAtOrAfter(all, t, children[c], pos)
  {
    var es := children[c];
    assert forall k | 0 <= k < pos :: Less(es[k].key, es[pos].key);
    assert forall k | pos < k < |es| :: Less(es[pos].key, es[k].key);
  }

  // Moving one position on: what is below changes for the entry at t only.
  lemma BelowNext(all: seq<Entry>, t: nat, e: Entry)
    requires Sorted(all) && t < |all| && e in all
    ensures Below(all, t + 1, e.key) <==> Below(all, t, e.key) || e == all[t]
  {
    var m :| 0 <= m < |all| && all[m] == e;
    assert m < t ==> Less(all[m].key, all[t].key);
    assert t < m ==> Less(all[t].key, all[m].key);
    if t + 1 < |all| {
      assert m < t + 1 ==> Less(all[m].key, all[t + 1].key);
      assert t + 1 < m ==> Less(all[t + 1].key, all[m].key);
    }
  }

  lemma BelowNextInChild(all: seq<Entry>, children: seq<seq<Entry>>, i: nat, t: nat)
    requires IsUnion(all, children) && i < |children| && t < |all|
    ensures forall k | 0 <= k < |children[i]| ::
              Below(all, t + 1, children[i][k].key) <==> Below(all, t, children[i][k].key) || children[i][k] == all[t]
  {
    forall k | 0 <= k < |children[i]|
      ensures Below(all, t + 1, children[i][k].key) <==> Below(all, t, children[i][k].key) || children[i][k] == all[t]
    {
      InUnion(all, children, i, children[i][k]);
      BelowNext(all, t, children[i][k]);
    }
  }

  lemma NotInOther(all: seq<Entry>, children: seq<seq<Entry>>, i: nat, c: nat, t: nat)
    requires IsUnion(all, children) && i < |children| && c < |children| && i != c && t < |all| && all[t] in children[c]
    ensures all[t] !in children[i]
  {
    if all[t] in children[i] {
      OtherKey(all, children, i, c, all[t], all[t]);
    }
  }

  lemma PassOther(all: seq<Entry>, children: seq<seq<Entry>>, i: nat, c: nat, t: nat, pos: nat)
    requires IsUnion(all, children) && i < |children| && c < |children| && i != c && t < |all| && all[t] in children[c]
    requires FirstAtOrAfter(all, t, children[i], pos)
    ensures FirstAtOrAfter(all, t + 1, children[i], pos)
  {
    NotInOther(all, children, i, c, t);
    BelowNextInChild(all, children, i, t);
  }

  lemma PassCurrent(all: seq<Entry>, children: seq<seq<Entry>>, c: nat, t: nat, pos: nat)
    requires IsUnion(all, children) && c < |children| && t < |all|
    requires FirstAtOrAfter(all, t, children[c], pos) && pos < |children[c]| && children[c][pos] == all[t]
    ensures FirstAtOrAfter(all, t + 1, children[c], pos + 1)
  {
    BelowNextInChild(all, children, c, t);
    assert forall k | pos < k < |children[c]| :: Less(children[c][pos].key, children[c][k].key);
  }

  lemma BackOther(all: seq<Entry>, children: seq<seq<Entry>>, i: nat, c: nat, t: nat, pos: nat)
    requires IsUnion(all, children) && i < |children| && c < |children| && i != c && t < |all| && all[t] in children[c]
    requires LastBelow(all, t + 1, children[i], pos)
    ensures LastBelow(all, t, children[i], pos)
  {
    NotInOther(all, children, i, c, t);
    BelowNextInChild(all, children, i, t);
  }

  lemma BackCurrent(all: seq<Entry>, children: seq<seq<Entry>>, c: nat, t: nat, pos: nat)
    requires IsUnion(all, children) && c < |children| && t < |all|
    requires pos < |children[c]| && children[c][pos] == all[t]
    ensures LastBelow(all, t, children[c], if pos == 0 then |children[c]| else pos - 1)
  {
    TurnForward(all, children, c, t, pos);
  }

  lemma HeadOfChild(all: seq<Entry>, t: nat, es: seq<Entry>, pos: nat, k: nat)
    requires t < |all| && Sorted(es) && FirstAtOrAfter(all, t, es, pos)
    requires k < |es| && es[k] == all[t]
    ensures pos == k
  {
    assert !Below(all, t, es[k].key);
    assert !Below(all, t, es[pos].key);
  }

  lemma LastOfChild(all: seq<Entry>, t: nat, es: seq<Entry>, pos: nat, k: nat)
    requires 0 < t <= |all| && Sorted(all) && Sorted(es) && LastBelow(all, t, es, pos)
    requires forall e | e in es :: e in all
    requires k < |es| && es[k] == all[t - 1]
    ensures pos == k
  {
    assert Below(all, t, es[k].key);
    assert es[pos] in all;
    BelowIsBefore(all, t, es[pos]);
  }

  // An entry of the union below t is at or before position t - 1.
  lemma BelowIsBefore(all: seq<Entry>, t: nat, e: Entry)
    requires Sorted(all) && t <= |all| && e in all && Below(all, t, e.key)
    ensures t > 0 && !Less(all[t - 1].key, e.key)
  {
    var m :| 0 <= m < |all| && all[m] == e;
    assert t < m ==> Less(all[t].key, all[m].key);
    assert m < t - 1 ==> Less(all[m].key, all[t - 1].key);
  }

  lemma InUnion(all: seq<Entry>, children: seq<seq<Entry>>, i: nat, e: Entry)
    requires IsUnion(all, children) && i < |children| && e in children[i]
    ensures e in all && Sorted(children[i])
  {
  }

  lemma SameKey(all: seq<Entry>, x: Entry, y: Entry)
    requires Sorted(all) && x in all && y in all && !Less(x.key, y.key) && !Less(y.key, x.key)
    ensures x == y
  {
    var i :| 0 <= i < |all| && all[i] == x;
    var j :| 0 <= j < |all| && all[j] == y;
  }

  lemma NothingBelowZero(all: seq<Entry>, children: seq<seq<Entry>>, i: nat)
    requires IsUnion(all, children) && i < |children|
    ensures FirstAtOrAfter(all, 0, children[i], 0)
  {
    forall k | 0 <= k < |children[i]|
      ensures !Below(all, 0, children[i][k].key)
    {
      assert children[i][k] in children[i];
      InUnion(all, children, i, children[i][k]);
      var m :| 0 <= m < |all| && all[m] == children[i][k];
      assert 0 < m ==> Less(all[0].key, all[m].key);
    }
  }

  lemma SeekInChild(all: seq<Entry>, children: seq<seq<Entry>>, i: nat, target: InternalKey, t: nat, pos: nat)
    requires IsUnion(all, children) && i < |children| && t == SeekIndex(all, target)
    requires pos <= |children[i]|
    requires forall k | 0 <= k < pos :: Less(children[i][k].key, target)
    requires pos < |children[i]| ==> !Less(children[i][pos].key, target)
    ensures FirstAtOrAfter(all, t, children[i], pos)
  {
    hide Below, Less;
    var es := children[i];
    forall k | 0 <= k < |es|
      ensures k < pos <==> Below(all, t, es[k].key)
    {
      assert es[k] in es;
      InUnion(all, children, i, es[k]);
      BelowIsLess(all, target, t, es[k]);
      SplitsAt(es, target, pos, k);
    }
  }

  lemma BelowIsLess(all: seq<Entry>, target: InternalKey, t: nat, e: Entry)
    requires Sorted(all) && t == SeekIndex(all, target) && e in all
    ensures Below(all, t, e.key) <==> Less(e.key, target)
  {
    var m :| 0 <= m < |all| && all[m] == e;
    assert t < m ==> Less(all[t].key, all[m].key);
  }

  lemma SplitsAt(es: seq<Entry>, target: InternalKey, pos: nat, k: nat)
    requires Sorted(es) && pos <= |es| && k < |es|
    requires forall k | 0 <= k < pos :: Less(es[k].key, target)
    requires pos < |es| ==> !Less(es[pos].key, target)
    ensures k < pos <==> Less(es[k].key, target)
  {
    assert pos < k ==> Less(es[pos].key, es[k].key);
  }

  lemma ChildOf(all: seq<Entry>, children: seq<seq<Entry>>, t: nat) returns (i: nat, k: nat)
    requires IsUnion(all, children) && t < |all|
    ensures i < |children| && k < |children[i]| && children[i][k] == all[t]
  {
    assert all[t] in all;
    i :| 0 <= i < |children| && all[t] in children[i];
    k :| 0 <= k < |children[i]| && children[i][k] == all[t];
  }
}
