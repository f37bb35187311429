/**
 The hash table of util/cache.cc: chains of entries linked through the entries themselves, found and spliced
 through a pointer to the slot that holds them. It is a finite map from keys to entries, also across resizing.
 */
module HandleTable {
  import opened ByteStrings

  type Hash = Word

  // LRUHandle; next and prev belong to the cache's lists, nextHash to the table.
  class Handle {
    const key: Bytes
    const hash: Hash
    const charge: nat
    var nextHash: Handle?
    var next: Handle?
    var prev: Handle?
    var inCache: bool
    var refs: nat

    constructor (key: Bytes, hash: Hash, charge: nat)
      ensures this.key == key && this.hash == hash && this.charge == charge
      ensures nextHash == next == prev == null && !inCache && refs == 1
    {
      this.key, this.hash, this.charge := key, hash, charge;
      nextHash, next, prev := null, null, null;
      inCache, refs := false, 1;
    }
  }

  predicate Matches(h: Handle, key: Bytes, hash: Hash) {
    h.hash == hash && h.key == key
  }

  // A slot that holds a pointer: a bucket, or the link of an entry.
  datatype Slot = Bucket(index: nat) | LinkOf(entry: Handle)

  function Head(c: seq<Handle>): Handle? {
    if c == [] then null else c[0]
  }

  ghost predicate Chain(c: seq<Handle>)
    reads (set h | h in c)`nextHash
  {
    forall k :: 0 <= k < |c| ==> c[k].nextHash == Head(c[k + 1..])
  }

  // Each entry is in the bucket of its hash, and none matches another.
  ghost predicate Placed(chains: seq<seq<Handle>>) {
    && (forall i, k :: 0 <= i < |chains| && 0 <= k < |chains[i]| ==> BucketOf(chains[i][k].hash, |chains|) == i)
    && (forall i, k, l :: 0 <= i < |chains| && 0 <= k < l < |chains[i]| ==>
          !Matches(chains[i][k], chains[i][l].key, chains[i][l].hash))
  }

  ghost predicate Holds(chains: seq<seq<Handle>>, items: set<Handle>) {
    && |chains| > 0
    && (forall h :: h in items ==> h in chains[BucketOf(h.hash, |chains|)])
    && (forall i, k :: 0 <= i < |chains| && 0 <= k < |chains[i]| ==> chains[i][k] in items)
  }

  // hash & (length - 1).
  function BucketOf(hash: Hash, length: nat): (i: nat)
    requires length > 0
    ensures i < length
  {
    hash % length
  }

  // The buckets point to the chains, whose entries are among the items.
  ghost predicate Buckets(list: seq<Handle?>, chains: seq<seq<Handle>>, items: set<Handle>)
    reads items`nextHash
    ensures Buckets(list, chains, items) ==> |list| == |chains|
  {
    && |list| == |chains|
    && forall i :: 0 <= i < |chains| ==>
         (forall k :: 0 <= k < |chains[i]| ==> chains[i][k] in items)
         && list[i] == Head(chains[i]) && Chain(chains[i])
  }

  // A length by which masking is taking the remainder.
  predicate PowerOfTwo(n: nat) {
    n == 1 || (n > 0 && n % 2 == 0 && PowerOfTwo(n / 2))
  }

  lemma OnlyOneMatches(chains: seq<seq<Handle>>, i: nat, k: nat, key: Bytes, hash: Hash)
    requires Placed(chains) && i < |chains| && k <= |chains[i]|
    requires forall l :: 0 <= l < k ==> !Matches(chains[i][l], key, hash)
    ensures k < |chains[i]| && Matches(chains[i][k], key, hash) ==>
      forall l :: 0 <= l < |chains[i]| && l != k ==> !Matches(chains[i][l], key, hash)
  {
    hide BucketOf;
  }

  class Table {
    var length: nat
    var elems: nat
    var list: seq<Handle?>
    ghost var chains: seq<seq<Handle>>
    ghost var items: set<Handle>

    ghost predicate Valid()
      reads this, items`nextHash
    {
      && |list| == length == |chains| > 0 && PowerOfTwo(length)
      && Placed(chains) && Holds(chains, items) && elems == |items| <= length
      && Linked()
    }

    ghost predicate Linked()
      reads this`chains, this`list, this`items, items`nextHash
      ensures Linked() ==> |list| == |chains|
    {
      Buckets(list, chains, items)
    }

    constructor ()
      ensures Valid() && items == {}
    {
      length, elems := 4, 0;
      list := seq(4, _ => null);
      chains, items := seq(4, _ => []), {};
      new;
      assert PowerOfTwo(1) && PowerOfTwo(2);
    }

    ghost function Lookup(key: Bytes, hash: Hash): (h: Handle?)
      reads this
      ensures h != null ==> h in items && Matches(h, key, hash)
      ensures h == null ==> forall g :: g in items ==> !Matches(g, key, hash)
    {
      if exists h :: h in items && Matches(h, key, hash) then
        var h :| h in items && Matches(h, key, hash);
        h
      else null
    }

    method Load(ptr: Slot) returns (h: Handle?)
      requires Valid() && (ptr.Bucket? ==> ptr.index < length)
      ensures h == if ptr.Bucket? then list[ptr.index] else ptr.entry.nextHash
    {
      h := match ptr
        case Bucket(i) => list[i]
        case LinkOf(e) => e.nextHash;
    }

    // The slot that points to the entry with the key, or the one at the end of its chain; k is the entry's
    // place in the chain.
    method FindPointer(key: Bytes, hash: Hash) returns (ptr: Slot, ghost k: nat)
      requires Valid()
      ensures var c := chains[BucketOf(hash, length)];
              && k <= |c| && ptr == (if k == 0 then Bucket(BucketOf(hash, length)) else LinkOf(c[k - 1]))
              && (k < |c| ==> Matches(c[k], key, hash))
              && (if ptr.Bucket? then list[ptr.index] else ptr.entry.nextHash) == Head(c[k..])
              && forall l :: 0 <= l < |c| && l != k ==> !Matches(c[l], key, hash)
    {
      hide BucketOf, Placed, Holds, PowerOfTwo;
      ghost var c := chains[BucketOf(hash, length)];
      ptr, k := Bucket(BucketOf(hash, length)), 0;
      var h: Handle? := Load(ptr);
      while h != null && (h.hash != hash || h.key != key)
        invariant k <= |c| && ptr == (if k == 0 then Bucket(BucketOf(hash, length)) else LinkOf(c[k - 1]))
        invariant h == Head(c[k..])
        invariant forall l :: 0 <= l < k ==> !Matches(c[l], key, hash)
        decreases |c| - k
      {
        ptr, k := LinkOf(h), k + 1;
        h := Load(ptr);
      }
      OnlyOneMatches(chains, BucketOf(hash, length), k, key, hash);
    }

    // An entry in the table is what a lookup of its key finds.
    lemma LookupOwn(h: Handle)
      requires Valid() && h in items
      ensures Lookup(h.key, h.hash) == h
    {
      hide Placed, Holds, Linked;
      ItemsDiffer(chains, items);
    }

    // A store through the slot at place k of chain c makes the chain go on with tail.
    method Store(ptr: Slot, v: Handle?, ghost c: seq<Handle>, ghost k: nat, ghost tail: seq<Handle>)
      requires k <= |c| && Chain(c) && Chain(tail) && v == Head(tail)
      requires forall l, m :: 0 <= l < m < |c| ==> c[l] != c[m]
      requires forall l :: 0 <= l < k ==> c[l] !in tail
      requires if ptr.Bucket? then k == 0 && ptr.index < |list| else k > 0 && ptr.entry == c[k - 1]
      modifies this`list, (if ptr.LinkOf? then {ptr.entry} else {})`nextHash
      ensures Chain(c[..k] + tail)
      ensures if ptr.Bucket? then list == old(list)[ptr.index := v] else list == old(list)
      ensures ptr.LinkOf? ==> ptr.entry.nextHash == v
    {
      if ptr.Bucket? {
        list := list[ptr.index := v];
        assert c[..k] + tail == tail;
      } else {
        ptr.entry.nextHash := v;
        ghost var r := c[..k] + tail;
        forall m | 0 <= m < |r| ensures r[m].nextHash == Head(r[m + 1..]) {
          if m < k - 1 {
            assert c[m].nextHash == Head(c[m + 1..]) == r[m + 1];
          } else if m == k - 1 {
            assert r[m + 1..] == tail;
          } else {
            assert r[m + 1..] == tail[m - k + 1..];
          }
        }
      }
    }

    method Find(key: Bytes, hash: Hash) returns (h: Handle?)
      requires Valid()
      ensures h == Lookup(key, hash)
    {
      hide BucketOf, Placed, Holds, PowerOfTwo, Lookup;
      var ptr, k := FindPointer(key, hash);
      h := Load(ptr);
      LookupIs(key, hash, k);
    }

    lemma LookupIs(key: Bytes, hash: Hash, k: nat)
      requires Valid() && k <= |chains[BucketOf(hash, length)]|
      requires var c := chains[BucketOf(hash, length)];
               && (k < |c| ==> Matches(c[k], key, hash))
               && forall l :: 0 <= l < |c| && l != k ==> !Matches(c[l], key, hash)
      ensures Lookup(key, hash) == Head(chains[BucketOf(hash, length)][k..])
    {
      hide BucketOf;
      var c := chains[BucketOf(hash, length)];
      forall h | h in items && Matches(h, key, hash) ensures k < |c| && h == c[k] {
        assert h in c;
      }
      if k < |c| {
        assert c[k] in items && Matches(c[k], key, hash);
      }
    }

    lemma ChainFacts(i: nat)
      requires Linked() && Placed(chains) && i < |chains|
      ensures list[i] == Head(chains[i]) && Chain(chains[i])
      ensures forall l, m :: 0 <= l < m < |chains[i]| ==> chains[i][l] != chains[i][m]
      ensures forall j, l :: 0 <= j < |chains| && j != i && 0 <= l < |chains[j]| ==> chains[j][l] !in chains[i]
      ensures forall l :: 0 <= l < |chains[i]| ==> chains[i][l] in items
    {
      hide BucketOf;
    }

    method Remove(key: Bytes, hash: Hash) returns (h: Handle?)
      requires Valid()
      modifies this`elems, this`chains, this`items, this`list, items`nextHash
      ensures Valid() && h == old(Lookup(key, hash)) && items == old(items) - (if h == null then {} else {h})
    {
      hide BucketOf, Placed, Holds, PowerOfTwo, Lookup, Linked, Chain, Matches;
      var ptr, k := FindPointer(key, hash);
      h := Load(ptr);
      LookupIs(key, hash, k);
      if h != null {
        Unlink(ptr, h, BucketOf(hash, length), k);
        elems := elems - 1;
      }
    }

    // Takes the entry that the slot points to, at place k of bucket i, out of its chain.
    method Unlink(ptr: Slot, h: Handle, ghost i: nat, ghost k: nat)
      requires Linked() && Placed(chains) && Holds(chains, items) && i < |chains| && k < |chains[i]|
      requires h == chains[i][k] && ptr == if k == 0 then Bucket(i) else LinkOf(chains[i][k - 1])
      modifies this`chains, this`items, this`list, items`nextHash
      ensures Linked() && Placed(chains) && Holds(chains, items) && |chains| == |old(chains)|
      ensures h in old(items) && items == old(items) - {h}
    {
      hide BucketOf, Placed, Holds, Linked, Chain, Matches;
      ghost var c, before := chains[i], chains;
      ChainFacts(i);
      TailAfter(c, k);
      Removed(before, items, i, k);
      ghost var rest := items - {h};
      InItems(before[i := c[..k] + c[k + 1..]], rest);
      Splice(ptr, h.nextHash, i, k, c[k + 1..], rest);
    }

    // A store through the slot at place k of bucket i; what the chain holds afterwards is in rest.
    method Splice(ptr: Slot, v: Handle?, ghost i: nat, ghost k: nat, ghost tail: seq<Handle>, ghost rest: set<Handle>)
      requires Linked() && Placed(chains) && i < |chains| && k <= |chains[i]|
      requires ptr == if k == 0 then Bucket(i) else LinkOf(chains[i][k - 1])
      requires Chain(tail) && v == Head(tail) && forall l :: 0 <= l < k ==> chains[i][l] !in tail
      requires var chains' := chains[i := chains[i][..k] + tail];
               forall j, l :: 0 <= j < |chains'| && 0 <= l < |chains'[j]| ==> chains'[j][l] in rest
      modifies this`chains, this`items, this`list, (if ptr.LinkOf? then {ptr.entry} else {})`nextHash
      ensures Linked() && items == rest && chains == old(chains)[i := old(chains)[i][..k] + tail]
    {
      hide Placed, BucketOf, Matches, Distinct, PowerOfTwo;
      ghost var c := chains[i];
      ChainFacts(i);
      Store(ptr, v, c, k, tail);
      chains := chains[i := c[..k] + tail];
      items := rest;
      if k > 0 {
        assert (c[..k] + tail)[0] == c[0];
      }
    }

    // Puts an entry into the table in place of one that matches it, which is returned.
    method Insert(h: Handle) returns (replaced: Handle?)
      requires Valid() && h !in items
      modifies this, items`nextHash, h`nextHash
      ensures Valid() && replaced == old(Lookup(h.key, h.hash)) && (replaced != null ==> replaced in old(items))
      ensures items == old(items) - (if replaced == null then {} else {replaced}) + {h}
      // there are never more entries than buckets, and no more buckets than that takes
      ensures if replaced == null && old(elems) == old(length) then IsLength(length, elems) else length == old(length)
    {
      hide BucketOf, Placed, Holds, PowerOfTwo, Lookup, Linked, Chain, Matches, Buckets;
      var ptr, k := FindPointer(h.key, h.hash);
      replaced := Load(ptr);
      LookupIs(h.key, h.hash, k);
      Link(ptr, h, replaced, BucketOf(h.hash, length), k);
      if replaced == null {
        elems := elems + 1;
        if elems > length {
          Resize();
        }
      }
    }

    // Puts an entry where the slot points, at place k of bucket i, over the entry that was there.
    method Link(ptr: Slot, h: Handle, replaced: Handle?, ghost i: nat, ghost k: nat)
      requires Linked() && Placed(chains) && Holds(chains, items) && i < |chains| && k <= |chains[i]|
      requires ptr == if k == 0 then Bucket(i) else LinkOf(chains[i][k - 1])
      requires h !in items && i == BucketOf(h.hash, |chains|) && replaced == Head(chains[i][k..])
      requires forall l :: 0 <= l < |chains[i]| && l != k ==> !Matches(chains[i][l], h.key, h.hash)
      modifies this`chains, this`items, this`list, items`nextHash, h`nextHash
      ensures Linked() && Placed(chains) && Holds(chains, items) && |chains| == |old(chains)|
      ensures replaced != null ==> replaced in old(items)
      ensures items == old(items) - (if replaced == null then {} else {replaced}) + {h}
    {
      hide BucketOf, Placed, Holds, Linked, Chain, Matches, Buckets, Head;
      ghost var c, before := chains[i], chains;
      ChainFacts(i);
      HeadFrom(c, k);
      ghost var tail := if k < |c| then c[k + 1..] else [];
      TailAfter(c, k);
      h.nextHash := if replaced == null then null else replaced.nextHash;
      ConsChain(h, tail);
      ghost var rest := items - (if replaced == null then {} else {replaced}) + {h};
      Replaced(before, items, i, k, h);
      InItems(before[i := c[..k] + ([h] + tail)], rest);
      Splice(ptr, h, i, k, [h] + tail, rest);
    }

    // Moves all entries to a table of at least as many buckets as there are entries.
    method Resize()
      requires Linked() && Placed(chains) && Holds(chains, items) && elems == |items|
      requires length == |chains|
      modifies this`length, this`list, this`chains, items`nextHash
      ensures Valid() && items == old(items) && elems == old(elems) && IsLength(length, elems)
    {
      hide BucketOf, Placed, Holds, Chain, Buckets, Matches, Remaining, Distinct, ToSet, Head, PowerOfTwo, MovedUpTo;
      NoneMoved(chains);
      LinkedChains();
      ItemsDiffer(chains, items);
      var newLength := NewLength(elems);
      var newList: seq<Handle?> := seq(newLength, _ => null);
      var count := 0;
      ghost var newChains: seq<seq<Handle>> := seq(newLength, _ => []);
      ghost var moved: set<Handle> := {};
      NothingPlaced(newList, newChains);
      for i := 0 to length
        invariant list == old(list) && chains == old(chains) && items == old(items) && length == |chains| && elems == |items|
        invariant Remaining(list, chains, i, moved)
        invariant Buckets(newList, newChains, moved) && Placed(newChains) && Holds(newChains, moved)
        invariant moved <= items && |newChains| == newLength && count == |moved|
        invariant MovedUpTo(chains, i, moved)
      {
        ghost var c := chains[i];
        NextChain(list, chains, items, i, moved);
        var n;
        n, newList, newChains := MoveChain(list[i], newList, c, newChains, moved);
        count := count + n;
        RestRemains(list, chains, i, moved);
        MovedMore(items, moved, c);
        MovedNext(chains, i, moved);
        moved := moved + ToSet(c);
      }
      AllMoved(chains, items, moved);
      list := newList;
      length := newLength;
      chains := newChains;
    }

    lemma LinkedChains()
      requires Linked()
      ensures |chains| == |list| && Remaining(list, chains, 0, {})
    {
    }

    // The loop of Resize over one chain.
    method MoveChain(first: Handle?, list0: seq<Handle?>, ghost c: seq<Handle>, ghost newChains: seq<seq<Handle>>,
                     ghost moved: set<Handle>)
      returns (count: nat, newList: seq<Handle?>, ghost r: seq<seq<Handle>>)
      requires first == Head(c) && Chain(c) && Distinct(moved + ToSet(c))
      requires (forall l, m :: 0 <= l < m < |c| ==> c[l] != c[m]) && forall l :: 0 <= l < |c| ==> c[l] !in moved
      requires Buckets(list0, newChains, moved) && Placed(newChains) && Holds(newChains, moved)
      modifies (set h | h in c)`nextHash
      ensures |r| == |newChains| && count == |c|
      ensures var all := moved + ToSet(c); Buckets(newList, r, all) && Placed(r) && Holds(r, all)
    {
      hide BucketOf, Placed, Holds, Buckets, Matches, Chain, Distinct, ToSet, Head;
      ToSetSize(c, 0);
      count, newList, r := 0, list0, newChains;
      var h := first;
      ghost var all := moved;
      assert c[..0] == [] && c[0..] == c;
      while h != null
        invariant count <= |c| && h == Head(c[count..]) && Chain(c[count..])
        invariant all == moved + ToSet(c[..count])
        invariant |r| == |newChains| && Buckets(newList, r, all) && Placed(r) && Holds(r, all)
        decreases |c| - count
      {
        HeadFrom(c, count);
        ToSetNext(c, count);
        NextInChain(c, count);
        NewEntry(c, count, moved, all);
        var next := h.nextHash;
        newList, r := MoveEntry(h, newList, r, all);
        all := all + {h};
        h := next;
        count := count + 1;
      }
      HeadFrom(c, count);
      assert c[..count] == c;
    }

    // The body of the loop over a chain: an entry goes to the front of its new bucket.
    method MoveEntry(h: Handle, list0: seq<Handle?>, ghost newChains: seq<seq<Handle>>, ghost moved: set<Handle>)
      returns (newList: seq<Handle?>, ghost r: seq<seq<Handle>>)
      requires Buckets(list0, newChains, moved) && Placed(newChains) && Holds(newChains, moved)
      requires h !in moved && forall g :: g in moved ==> !Matches(g, h.key, h.hash)
      modifies h`nextHash
      ensures |r| == |newChains| && Buckets(newList, r, moved + {h}) && Placed(r) && Holds(r, moved + {h})
    {
      hide BucketOf, Placed, Holds, Matches;
      PlacedFront(newChains, moved, h);
      ghost var j := BucketOf(h.hash, |newChains|);
      ghost var c := newChains[j];
      assert Chain(c);
      h.nextHash := list0[BucketOf(h.hash, |list0|)];
      newList := list0[BucketOf(h.hash, |list0|) := h];
      ConsChain(h, c);
      r := newChains[j := [h] + c];
    }
  }

  function ToSet(c: seq<Handle>): set<Handle> {
    set h | h in c
  }

  lemma ToSetNext(c: seq<Handle>, k: nat)
    requires k < |c|
    ensures ToSet(c[..k + 1]) == ToSet(c[..k]) + {c[k]}
  {
    assert c[..k + 1] == c[..k] + [c[k]];
  }

  lemma ToSetSize(c: seq<Handle>, k: nat)
    requires k <= |c| && forall l, m :: 0 <= l < m < |c| ==> c[l] != c[m]
    ensures |ToSet(c[..k])| == k && ToSet(c[..0]) == {}
  {
    if k > 0 {
      ToSetSize(c, k - 1);
      ToSetNext(c, k - 1);
    }
  }

  ghost predicate Distinct(items: set<Handle>) {
    forall g, h :: g in items && h in items && g != h ==> !Matches(g, h.key, h.hash)
  }

  lemma NextInChain(c: seq<Handle>, k: nat)
    requires k < |c| && Chain(c[k..]) && forall l, m :: 0 <= l < m < |c| ==> c[l] != c[m]
    ensures Chain(c[k + 1..]) && c[k].nextHash == Head(c[k + 1..]) && c[k] !in c[k + 1..]
  {
    TailAfter(c[k..], 0);
    assert c[k..][1..] == c[k + 1..];
  }

  lemma NewEntry(c: seq<Handle>, k: nat, moved: set<Handle>, all: set<Handle>)
    requires k < |c| && Distinct(moved + ToSet(c)) && all == moved + ToSet(c[..k])
    requires (forall l, m :: 0 <= l < m < |c| ==> c[l] != c[m]) && forall l :: 0 <= l < |c| ==> c[l] !in moved
    ensures c[k] !in all && forall g :: g in all ==> !Matches(g, c[k].key, c[k].hash)
  {
    hide Matches;
    forall g | g in all ensures g != c[k] && g in moved + ToSet(c) {
      if g !in moved {
        var l :| 0 <= l < k && c[l] == g;
      }
    }
    assert c[k] in moved + ToSet(c);
  }

  lemma PlacedFront(chains: seq<seq<Handle>>, items: set<Handle>, h: Handle)
    requires Placed(chains) && Holds(chains, items) && h !in items
    requires forall g :: g in items ==> !Matches(g, h.key, h.hash)
    ensures |chains| > 0
    ensures var j := BucketOf(h.hash, |chains|);
            var r := chains[j := [h] + chains[j]];
            Placed(r) && Holds(r, items + {h})
  {
    hide BucketOf;
    var j := BucketOf(h.hash, |chains|);
    var r := chains[j := [h] + chains[j]];
    forall g | g in items + {h} ensures g in r[BucketOf(g.hash, |chains|)] {
      if g != h && BucketOf(g.hash, |chains|) == j {
        var k :| 0 <= k < |chains[j]| && chains[j][k] == g;
        assert r[j][k + 1] == g;
      }
    }
    assert r[j][0] == h;
  }

  // The entries of the first i buckets have moved.
  ghost predicate MovedUpTo(chains: seq<seq<Handle>>, i: nat, moved: set<Handle>) {
    i <= |chains| && forall j, l :: 0 <= j < i && 0 <= l < |chains[j]| ==> chains[j][l] in moved
  }

  lemma NoneMoved(chains: seq<seq<Handle>>)
    ensures MovedUpTo(chains, 0, {})
  {
  }

  lemma MovedNext(chains: seq<seq<Handle>>, i: nat, moved: set<Handle>)
    requires i < |chains| && MovedUpTo(chains, i, moved)
    ensures MovedUpTo(chains, i + 1, moved + ToSet(chains[i]))
  {
  }

  lemma MovedMore(items: set<Handle>, moved: set<Handle>, c: seq<Handle>)
    requires forall l :: 0 <= l < |c| ==> c[l] !in moved && c[l] in items
    requires forall l, m :: 0 <= l < m < |c| ==> c[l] != c[m]
    requires moved <= items
    ensures |moved + ToSet(c)| == |moved| + |c| && moved + ToSet(c) <= items
    ensures forall l :: 0 <= l < |c| ==> c[l] in moved + ToSet(c)
  {
    hide BucketOf;
    assert c[..|c|] == c;
    ToSetSize(c, |c|);
    assert moved * ToSet(c) == {};
  }

  lemma ItemsDiffer(chains: seq<seq<Handle>>, items: set<Handle>)
    requires Placed(chains) && Holds(chains, items)
    ensures Distinct(items)
  {
    hide BucketOf;
    forall g, h | g in items && h in items && g != h ensures !Matches(g, h.key, h.hash) {
      if g.hash == h.hash {
        var c := chains[BucketOf(g.hash, |chains|)];
        var k :| 0 <= k < |c| && c[k] == g;
        var l :| 0 <= l < |c| && c[l] == h;
      }
    }
  }

  lemma NextChain(list: seq<Handle?>, chains: seq<seq<Handle>>, items: set<Handle>, i: nat, moved: set<Handle>)
    requires Remaining(list, chains, i, moved) && Placed(chains) && Holds(chains, items) && i < |chains|
    requires moved <= items && Distinct(items)
    ensures i < |list| && list[i] == Head(chains[i]) && Chain(chains[i])
    ensures forall l, m :: 0 <= l < m < |chains[i]| ==> chains[i][l] != chains[i][m]
    ensures forall l :: 0 <= l < |chains[i]| ==> chains[i][l] !in moved && chains[i][l] in items
    ensures Distinct(moved + ToSet(chains[i]))
    ensures Remaining(list, chains, i + 1, moved)
    ensures forall j, l :: i + 1 <= j < |chains| && 0 <= l < |chains[j]| ==> chains[j][l] !in chains[i]
  {
    hide BucketOf;
  }

  lemma RestRemains(list: seq<Handle?>, chains: seq<seq<Handle>>, i: nat, moved: set<Handle>)
    requires i < |chains| && Remaining(list, chains, i + 1, moved)
    requires forall j, l :: i + 1 <= j < |chains| && 0 <= l < |chains[j]| ==> chains[j][l] !in chains[i]
    ensures Remaining(list, chains, i + 1, moved + ToSet(chains[i]))
  {
  }

  lemma AllMoved(chains: seq<seq<Handle>>, items: set<Handle>, moved: set<Handle>)
    requires Holds(chains, items) && moved <= items
    requires MovedUpTo(chains, |chains|, moved)
    ensures moved == items
  {
    hide BucketOf;
  }

  // The least power of two, from four on, that is no less than elems.
  ghost predicate IsLength(n: nat, elems: nat) {
    n >= 4 && PowerOfTwo(n) && n >= elems && (n > 4 ==> n / 2 < elems)
  }

  // Twice the length until it is enough.
  method NewLength(elems: nat) returns (n: nat)
    ensures IsLength(n, elems)
  {
    n := 4;
    assert PowerOfTwo(1) && PowerOfTwo(2);
    while n < elems
      invariant n >= 4 && PowerOfTwo(n) && (n > 4 ==> n / 2 < elems)
    {
      n := n * 2;
    }
  }

  lemma NothingPlaced(list: seq<Handle?>, chains: seq<seq<Handle>>)
    requires |list| == |chains| > 0 && forall i :: 0 <= i < |chains| ==> chains[i] == [] && list[i] == null
    ensures Buckets(list, chains, {}) && Placed(chains) && Holds(chains, {})
  {
    hide BucketOf;
  }

  // The buckets from number i on still hold their chains, none of whose entries has moved.
  ghost predicate Remaining(list: seq<Handle?>, chains: seq<seq<Handle>>, i: nat, moved: set<Handle>)
    reads (set j, l | i <= j < |chains| && 0 <= l < |chains[j]| :: chains[j][l])`nextHash
  {
    && |list| == |chains|
    && forall j :: i <= j < |chains| ==>
         list[j] == Head(chains[j]) && Chain(chains[j])
         && forall l :: 0 <= l < |chains[j]| ==> chains[j][l] !in moved
  }

  lemma HeadFrom(c: seq<Handle>, k: nat)
    requires k <= |c|
    ensures Head(c[k..]) == if k < |c| then c[k] else null
  {
  }

  lemma TailAfter(c: seq<Handle>, k: nat)
    requires Chain(c) && k <= |c|
    ensures var tail := if k < |c| then c[k + 1..] else [];
            Chain(tail) && Head(tail) == if k < |c| then c[k].nextHash else null
  {
    if k < |c| {
      TailChain(c, k + 1);
    }
  }

  lemma ConsChain(h: Handle, c: seq<Handle>)
    requires Chain(c) && h.nextHash == Head(c)
    ensures Chain([h] + c) && Head([h] + c) == h
  {
    var r := [h] + c;
    forall m | 0 <= m < |r| ensures r[m].nextHash == Head(r[m + 1..]) {
      if m == 0 {
        assert r[1..] == c;
      } else {
        assert r[m + 1..] == c[m..];
      }
    }
  }

  // Putting h at place k of bucket i, where it replaces the entry that matches it.
  lemma Replaced(chains: seq<seq<Handle>>, items: set<Handle>, i: nat, k: nat, h: Handle)
    requires Placed(chains) && Holds(chains, items) && i < |chains| && k <= |chains[i]|
    requires BucketOf(h.hash, |chains|) == i && h !in items
    requires forall l :: 0 <= l < |chains[i]| && l != k ==> !Matches(chains[i][l], h.key, h.hash)
    ensures var c := chains[i];
            var tail := if k < |c| then c[k + 1..] else [];
            var chains' := chains[i := c[..k] + ([h] + tail)];
            var items' := items - (if k < |c| then {c[k]} else {}) + {h};
            Placed(chains') && Holds(chains', items')
  {
    hide BucketOf;
    var c := chains[i];
    var tail := if k < |c| then c[k + 1..] else [];
    var chains' := chains[i := c[..k] + ([h] + tail)];
    var items' := items - (if k < |c| then {c[k]} else {}) + {h};
    forall l | 0 <= l < |chains'[i]| ensures chains'[i][l] == if l == k then h else c[l] {
    }
    forall g | g in items' ensures g in chains'[BucketOf(g.hash, |chains|)] {
      if g == h {
        assert chains'[i][k] == h;
      } else if BucketOf(g.hash, |chains|) == i {
        var l :| 0 <= l < |c| && c[l] == g;
        assert chains'[i][l] == g;
      }
    }
  }

  lemma TailChain(c: seq<Handle>, k: nat)
    requires Chain(c) && k <= |c|
    ensures Chain(c[k..])
  {
    forall m | 0 <= m < |c[k..]| ensures c[k..][m].nextHash == Head(c[k..][m + 1..]) {
      assert c[k..][m + 1..] == c[k + m + 1..];
    }
  }

  lemma InItems(chains: seq<seq<Handle>>, items: set<Handle>)
    ensures Holds(chains, items) ==>
      forall j, l :: 0 <= j < |chains| && 0 <= l < |chains[j]| ==> chains[j][l] in items
  {
    hide BucketOf;
  }

  lemma Removed(chains: seq<seq<Handle>>, items: set<Handle>, i: nat, k: nat)
    requires Placed(chains) && Holds(chains, items) && i < |chains| && k < |chains[i]|
    ensures var c := chains[i];
            var chains' := chains[i := c[..k] + c[k + 1..]];
            Placed(chains') && Holds(chains', items - {c[k]})
  {
    hide BucketOf;
    var c := chains[i];
    var chains' := chains[i := c[..k] + c[k + 1..]];
    forall h | h in items && h != c[k] ensures h in chains'[BucketOf(h.hash, |chains|)] {
      if BucketOf(h.hash, |chains|) == i {
        var l :| 0 <= l < |c| && c[l] == h;
        assert chains'[i][if l < k then l else l - 1] == h;
      }
    }
  }
}
