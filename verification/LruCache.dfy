/**
 LRUCache of util/cache.cc: a hash table and two circular lists over reference-counted entries.

 Over any run of its operations the table holds exactly the entries in the cache; each of them is in exactly
 one list, as its reference count dictates; usage is the sum of their charges, and after an insertion it is
 within capacity unless all entries are in use; every entry's deleter runs exactly once, when its last
 reference goes.
 */
module LruCache {
  import opened ByteStrings
  import opened HandleTable

  // The places before and after place k of a circle of n.
  function After(k: nat, n: nat): (a: nat)
    ensures k < n ==> a < n
  {
    if k + 1 < n then k + 1 else 0
  }

  function Before(k: nat, n: nat): (b: nat)
    requires n > 0
    ensures k < n ==> b < n
    ensures k > 0 ==> b == k - 1
  {
    if k > 0 then k - 1 else n - 1
  }

  ghost predicate Circle(c: seq<Handle>)
    reads (set h | h in c)`next, (set h | h in c)`prev
    ensures Circle(c) ==> |c| > 0
  {
    |c| > 0 && forall k :: 0 <= k < |c| ==> c[k].next == c[After(k, |c|)] && c[k].prev == c[Before(k, |c|)]
  }

  predicate NoDuplicates(c: seq<Handle>) {
    forall k, l :: 0 <= k < l < |c| ==> c[k] != c[l]
  }

  // c without its entry at place k.
  function Without(c: seq<Handle>, k: nat): (d: seq<Handle>)
    requires k < |c|
    ensures |d| == |c| - 1 && forall m :: 0 <= m < |d| ==> d[m] == c[if m < k then m else m + 1]
  {
    c[..k] + c[k + 1..]
  }

  lemma WithoutIs(c: seq<Handle>, k: nat)
    requires k < |c| && NoDuplicates(c)
    ensures NoDuplicates(Without(c, k)) && ToSet(Without(c, k)) == ToSet(c) - {c[k]}
    ensures Charge(c) == Charge(Without(c, k)) + c[k].charge
  {
    hide Charge;
    SetWithout(c, k);
    ChargeWithout(c, k);
  }

  lemma SetWithout(c: seq<Handle>, k: nat)
    requires k < |c| && NoDuplicates(c)
    ensures NoDuplicates(Without(c, k)) && ToSet(Without(c, k)) == ToSet(c) - {c[k]}
  {
    var d := Without(c, k);
    forall h | h in c && h != c[k] ensures h in d {
      var l :| 0 <= l < |c| && c[l] == h;
      assert d[if l < k then l else l - 1] == h;
    }
    forall h | h in d ensures h in c && h != c[k] {
      var m :| 0 <= m < |d| && d[m] == h;
    }
  }

  lemma WithIs(c: seq<Handle>, e: Handle)
    requires NoDuplicates(c) && e !in c
    ensures NoDuplicates(c + [e]) && ToSet(c + [e]) == ToSet(c) + {e}
    ensures Charge(c + [e]) == Charge(c) + e.charge
  {
    ChargeWith(c, e);
  }

  // LRU_Remove.
  method Detach(e: Handle, ghost c: seq<Handle>, ghost k: nat)
    requires Circle(c) && NoDuplicates(c) && 0 < k < |c| && c[k] == e
    modifies (set h | h in c)`next, (set h | h in c)`prev
    ensures Circle(Without(c, k))
  {
    hide Without, NoDuplicates, After, Before;
    ghost var n := |c|;
    ghost var d := c[..k] + c[k + 1..];
    WithoutSlices(c, k);
    DistinctNeighbours(c, k);
    assert e.next == c[After(k, n)] && e.prev == c[k - 1];
    e.next.prev := e.prev;
    e.prev.next := e.next;
    forall m | 0 <= m < |d| ensures d[m].next == d[After(m, |d|)] && d[m].prev == d[Before(m, |d|)] {
      var l := if m < k then m else m + 1;
      assert d[m] == c[l];
      NeighboursWithout(n, k, m);
      assert c[l].next == if l == k - 1 then c[After(k, n)] else c[After(l, n)];
      assert c[l].prev == if l == After(k, n) then c[k - 1] else c[Before(l, n)];
    }
  }

  // The neighbours of a place, as places of the circle with place k and of the circle without it.
  lemma NeighboursWithout(n: nat, k: nat, m: nat)
    requires 0 < k < n && m < n - 1
    ensures var l := if m < k then m else m + 1;
            var a, b := After(m, n - 1), Before(m, n - 1);
            && (if a < k then a else a + 1) == (if l == k - 1 then After(k, n) else After(l, n))
            && (if b < k then b else b + 1) == (if l == After(k, n) then k - 1 else Before(l, n))
  {
  }

  lemma WithoutSlices(c: seq<Handle>, k: nat)
    requires k < |c|
    ensures Without(c, k) == c[..k] + c[k + 1..]
  {
  }

  lemma DistinctNeighbours(c: seq<Handle>, k: nat)
    requires NoDuplicates(c) && 0 < k < |c|
    ensures forall l :: 0 <= l < |c| && l != k - 1 ==> c[l] != c[k - 1]
    ensures forall l :: 0 <= l < |c| && l != After(k, |c|) ==> c[l] != c[After(k, |c|)]
  {
  }

  // LRU_Append: makes e the newest entry, just before the head of the list.
  method Attach(list: Handle, e: Handle, ghost c: seq<Handle>)
    requires Circle(c) && NoDuplicates(c) && c[0] == list && e !in c
    modifies (set h | h in c)`next, (set h | h in c)`prev, e`next, e`prev
    ensures Circle(c + [e])
  {
    ghost var n := |c|;
    assert list.prev == c[n - 1];
    e.next := list;
    e.prev := list.prev;
    e.prev.next := e;
    e.next.prev := e;
    ghost var d := c + [e];
    forall m | 0 <= m < |d| ensures d[m].next == d[After(m, |d|)] && d[m].prev == d[Before(m, |d|)] {
    }
  }

  function Charge(c: seq<Handle>): nat {
    if c == [] then 0 else Charge(c[..|c| - 1]) + c[|c| - 1].charge
  }

  lemma {:induction false} ChargeWithout(c: seq<Handle>, k: nat)
    requires k < |c|
    ensures Charge(c) == Charge(Without(c, k)) + c[k].charge
    decreases |c|
  {
    var d := Without(c, k);
    if k + 1 == |c| {
      assert d == c[..k];
    } else {
      var front := c[..|c| - 1];
      ChargeWithout(front, k);
      assert d[..|d| - 1] == Without(front, k);
    }
  }

  lemma ChargeWith(c: seq<Handle>, e: Handle)
    ensures Charge(c + [e]) == Charge(c) + e.charge
  {
    assert (c + [e])[..|c|] == c;
  }

  // An entry with n references of clients, and perhaps an extra one that is about to go.
  ghost predicate Counted(h: Handle, n: nat, extra: bool, inIdle: bool, inBusy: bool)
    reads h`refs, h`inCache
  {
    && h.refs == n + (if h.inCache then 1 else 0) + (if extra then 1 else 0)
    && (!extra ==> h.refs > 0)
    && (h.inCache <==> inIdle || inBusy)
    && (inIdle ==> !extra && n == 0)
    && (inBusy ==> extra || n > 0)
  }

  lemma CountedMeans(h: Handle, n: nat, extra: bool, inIdle: bool, inBusy: bool)
    ensures Counted(h, n, extra, inIdle, inBusy) <==>
      && h.refs == n + (if h.inCache then 1 else 0) + (if extra then 1 else 0)
      && (!extra ==> h.refs > 0)
      && (h.inCache <==> inIdle || inBusy)
      && (inIdle ==> !extra && n == 0)
      && (inBusy ==> extra || n > 0)
  {
  }

  // Usage is the sum of the charges, and every entry ever made is either alive or has been deleted once.
  ghost predicate Accounts(usage: nat, charges: nat, created: set<Handle>, alive: set<Handle>, deleted: seq<Handle>,
                           listed: set<Handle>)
  {
    && usage == charges
    && created == alive + ToSet(deleted) && NoDuplicates(deleted) && alive !! ToSet(deleted)
    && listed <= alive
  }

  class Cache {
    var capacity: nat
    var usage: nat
    const lru: Handle
    const inUse: Handle
    const table: Table
    // The two lists, each behind its head, oldest entry first.
    ghost var idle: seq<Handle>
    ghost var busy: seq<Handle>
    // For every entry not yet freed, the references its clients hold.
    ghost var external: map<Handle, nat>
    // Every entry ever made, and those whose deleter has run, in that order.
    ghost var created: set<Handle>
    ghost var deleted: seq<Handle>

    ghost predicate Valid()
      reads this, table, table.items`nextHash, Links()`next, Links()`prev, external.Keys`refs, external.Keys`inCache
    {
      Inv(null) && table.Valid() && table.items == Listed()
    }

    // The objects that the lists link.
    ghost function Links(): set<Handle>
      reads this`idle, this`busy
    {
      (set h | h in idle) + (set h | h in busy)
    }

    // The entries in the cache.
    ghost function Listed(): set<Handle>
      reads this`idle, this`busy
    {
      ToSet(idle) + ToSet(busy) - {lru, inUse}
    }

    // All but the table; x is an entry that has one reference too many, as in Unref.
    ghost predicate Inv(x: Handle?)
      reads this, Links()`next, Links()`prev, external.Keys`refs, external.Keys`inCache
    {
      Lists() && Books() && Counts(x)
    }

    ghost predicate Lists()
      reads this`idle, this`busy, Links()`next, Links()`prev
    {
      && Circle(idle) && Circle(busy) && idle[0] == lru && busy[0] == inUse
      && NoDuplicates(idle) && NoDuplicates(busy) && forall h :: h in idle ==> h !in busy
    }

    ghost predicate Books()
      reads this`idle, this`busy, this`external, this`usage, this`created, this`deleted
    {
      && Accounts(usage, Charge(idle) + Charge(busy), created, external.Keys, deleted, Listed())
      && lru !in created && inUse !in created && lru.charge == inUse.charge == 0
    }

    ghost predicate Counts(x: Handle?)
      reads this`idle, this`busy, this`external, external.Keys`refs, external.Keys`inCache
    {
      && (forall h :: h in external ==> Counted(h, external[h], h == x, h in ToSet(idle), h in ToSet(busy)))
      && (x != null ==> x in external)
    }

    constructor ()
      ensures Valid() && capacity == usage == 0 && created == {} && external == map[]
      ensures fresh(table) && fresh(lru) && fresh(inUse) && table.items == {}
    {
      hide *;
      capacity, usage := 0, 0;
      lru := new Handle([], 0, 0);
      inUse := new Handle([], 0, 0);
      table := new Table();
      external, created, deleted := map[], {}, [];
      new;
      InitLists();
    }

    // Apart from the constructor, so that an array of caches can be made.
    method SetCapacity(c: nat)
      requires Valid()
      modifies this`capacity
      ensures Valid() && capacity == c
    {
      hide Circle, NoDuplicates, ToSet, Charge, Table.Valid, Accounts, Counted;
      capacity := c;
    }

    // Links each list head to itself.
    method InitLists()
      requires lru != inUse && lru.charge == inUse.charge == usage == 0
      requires external == map[] && created == {} && deleted == [] && table.Valid() && table.items == {}
      modifies this`idle, this`busy, lru`next, lru`prev, inUse`next, inUse`prev
      ensures Valid()
    {
      hide *;
      MakeEmpty(lru);
      MakeEmpty(inUse);
      idle, busy := [lru], [inUse];
      EmptyIsValid();
    }

    lemma EmptyIsValid()
      requires idle == [lru] && busy == [inUse] && lru != inUse && lru.charge == inUse.charge == 0
      requires Circle(idle) && Circle(busy) && NoDuplicates(idle) && NoDuplicates(busy)
      requires Charge(idle) == Charge(busy) == usage == 0 && ToSet(idle) == {lru} && ToSet(busy) == {inUse}
      requires external == map[] && created == {} && deleted == [] && table.Valid() && table.items == {}
      ensures Valid()
    {
      hide Circle, NoDuplicates, ToSet, Charge, Table.Valid;
      Nothing();
      assert idle[0] == lru && forall h :: h in idle ==> h == lru;
      assert busy[0] == inUse && forall h :: h in busy ==> h == inUse;
    }

    // An idle entry gets its first client.
    method MoveToBusy(e: Handle, ghost k: nat)
      requires Lists() && 0 < k < |idle| && idle[k] == e
      modifies this`idle, this`busy, Links()`next, Links()`prev
      ensures Lists() && idle == Without(old(idle), k) && busy == old(busy) + [e]
      ensures ToSet(idle) == old(ToSet(idle)) - {e} && ToSet(busy) == old(ToSet(busy)) + {e}
      ensures Charge(idle) + Charge(busy) == old(Charge(idle) + Charge(busy))
    {
      hide Circle, NoDuplicates, ToSet, Charge;
      WithoutIs(idle, k);
      WithIs(busy, e);
      StillSeparate(idle, busy, k);
      ghost var b, i := busy, idle;
      assert forall h :: h in b ==> h !in i;
      Detach(e, idle, k);
      assert Circle(b);
      Attach(inUse, e, busy);
      idle, busy := Without(idle, k), busy + [e];
    }

    // A busy entry loses its last client and becomes the newest idle one.
    method MoveToIdle(e: Handle, ghost k: nat)
      requires Lists() && 0 < k < |busy| && busy[k] == e
      modifies this`idle, this`busy, Links()`next, Links()`prev
      ensures Lists() && busy == Without(old(busy), k) && idle == old(idle) + [e]
      ensures ToSet(busy) == old(ToSet(busy)) - {e} && ToSet(idle) == old(ToSet(idle)) + {e}
      ensures Charge(idle) + Charge(busy) == old(Charge(idle) + Charge(busy))
    {
      hide Circle, NoDuplicates, ToSet, Charge;
      WithoutIs(busy, k);
      WithIs(idle, e);
      StillSeparate(busy, idle, k);
      ghost var b, i := busy, idle;
      assert forall h :: h in b ==> h !in i;
      Detach(e, busy, k);
      assert Circle(i);
      Attach(lru, e, idle);
      busy, idle := Without(busy, k), idle + [e];
    }

    // Another reference of a client to e.
    method Ref(e: Handle)
      requires Inv(null) && e in external
      modifies this`idle, this`busy, this`external, Links()`next, Links()`prev, e`refs
      ensures Inv(null) && external == old(external)[e := old(external)[e] + 1] && Listed() == old(Listed())
    {
      hide Circle, NoDuplicates, ToSet, Charge, Accounts, Lists, Books, Counted;
      ghost var k := IdlePlace(e);
      BooksAre();
      CountedMeans(e, external[e], false, e in ToSet(idle), e in ToSet(busy));
      if e.refs == 1 && e.inCache {
        MoveToBusy(e, k);
        SameEntries(old(ToSet(idle)), old(ToSet(busy)), e, lru, inUse);
      }
      e.refs := e.refs + 1;
      external := external[e := external[e] + 1];
      assert external.Keys == old(external).Keys;
      CountedMeans(e, external[e], false, e in ToSet(idle), e in ToSet(busy));
      BooksAre();
    }

    // A reference to e goes; x was one too many. With the last one goes the entry.
    method Unref(e: Handle)
      requires Inv(e)
      modifies this`idle, this`busy, this`external, this`deleted, Links()`next, Links()`prev, e`refs
      ensures Inv(null) && Listed() == old(Listed())
      ensures var last := old(external)[e] == 0 && !e.inCache;
              && external == (if last then old(external) - {e} else old(external))
              && deleted == if last then old(deleted) + [e] else old(deleted)
      ensures idle == if e.inCache && old(external)[e] == 0 then old(idle) + [e] else old(idle)
      ensures Links() <= old(Links())
    {
      hide Circle, NoDuplicates, ToSet, Charge, Accounts, Lists, Books, Counted;
      ghost var k := BusyPlace(e);
      BooksAre();
      CountedMeans(e, external[e], true, e in ToSet(idle), e in ToSet(busy));
      e.refs := e.refs - 1;
      if e.refs == 0 {
        // The deleter runs, and the entry is freed.
        OneDeleted(usage, Charge(idle) + Charge(busy), created, external.Keys, deleted, Listed(), e);
        external, deleted := external - {e}, deleted + [e];
        assert external.Keys == old(external).Keys - {e};
      } else if e.inCache && e.refs == 1 {
        MoveToIdle(e, k);
        SameEntries(old(ToSet(busy)), old(ToSet(idle)), e, lru, inUse);
      }
      if e in external {
        CountedMeans(e, external[e], false, e in ToSet(idle), e in ToSet(busy));
      }
      BooksAre();
    }

    // Where an entry is that still has one reference too many.
    lemma BusyPlace(e: Handle) returns (k: nat)
      requires Inv(e)
      ensures e.inCache ==> 0 < k < |busy| && busy[k] == e && e in ToSet(busy)
    {
      k := 0;
      if e.inCache {
        k := PlaceIn(busy, e);
      }
    }

    // The cache lets go of an entry that is no longer in the table.
    method FinishErase(e: Handle?) returns (erased: bool)
      requires Inv(null) && (e != null ==> e in Listed())
      modifies this`idle, this`busy, this`external, this`deleted, this`usage, Links()`next, Links()`prev
      modifies (if e != null then {e} else {})`refs, (if e != null then {e} else {})`inCache
      ensures Inv(null) && erased == (e != null)
      ensures Listed() == old(Listed()) - if e != null then {e} else {}
      ensures var last := e != null && old(external)[e] == 0;
              && external == (if last then old(external) - {e} else old(external))
              && deleted == if last then old(deleted) + [e] else old(deleted)
      ensures idle == Left(old(idle), e) && usage == old(usage) - if e != null then e.charge else 0
      ensures Links() <= old(Links())
    {
      hide *;
      NothingLeft(idle);
      if e != null {
        Drop(e);
        Unref(e);
      }
      return e != null;
    }

    // Unlinks an entry, which keeps the reference the cache had.
    method Drop(e: Handle)
      requires Inv(null) && e in Listed()
      modifies this`idle, this`busy, this`usage, Links()`next, Links()`prev, e`inCache
      ensures Inv(e) && !e.inCache && e in external && Listed() == old(Listed()) - {e}
      ensures idle == Left(old(idle), e) && usage == old(usage) - e.charge
      ensures Links() <= old(Links())
    {
      hide Circle, NoDuplicates, ToSet, Charge, Accounts, Lists, Books, Counted;
      BooksAre();
      ListedIsAlive(e);
      ghost var inIdle, k := ListOf(e);
      CountedMeans(e, external[e], false, e in ToSet(idle), e in ToSet(busy));
      ghost var idle', busy' := if inIdle then Without(idle, k) else idle, if inIdle then busy else Without(busy, k);
      Detach(e, if inIdle then idle else busy, k);
      idle, busy := idle', busy';
      ListsAre();
      OneDropped(usage, Charge(idle) + Charge(busy), created, external.Keys, deleted, old(Listed()), e);
      e.inCache := false;
      usage := usage - e.charge;
      assert Listed() == old(Listed()) - {e};
      CountedMeans(e, external[e], true, e in ToSet(idle), e in ToSet(busy));
      BooksAre();
    }

    lemma ListedIsAlive(e: Handle)
      requires Books() && e in Listed()
      ensures e in external
    {
    }

    lemma ListsAre()
      requires Circle(idle) && Circle(busy) && idle[0] == lru && busy[0] == inUse
      requires NoDuplicates(idle) && NoDuplicates(busy) && forall h :: h in idle ==> h !in busy
      ensures Lists()
    {
    }

    // Which list an entry is in, and what is left of the lists without it.
    lemma ListOf(e: Handle) returns (inIdle: bool, k: nat)
      requires Lists() && e in Listed()
      ensures var c := if inIdle then idle else busy;
              && Circle(idle) && Circle(busy) && NoDuplicates(c) && 0 < k < |c| && e in ToSet(c) && k == PlaceOf(c, e)
              && c[k] == e && (inIdle <==> e in ToSet(idle))
      ensures var i, b := if inIdle then Without(idle, k) else idle, if inIdle then busy else Without(busy, k);
              && |i| > 0 && |b| > 0 && i[0] == lru && b[0] == inUse
              && NoDuplicates(i) && NoDuplicates(b) && (forall h :: h in i ==> h !in b)
              && ToSet(i) == ToSet(idle) - {e} && ToSet(b) == ToSet(busy) - {e}
              && Charge(i) + Charge(b) + e.charge == Charge(idle) + Charge(busy)
      ensures (forall h :: h in idle ==> h !in busy) && forall h :: h in busy ==> h !in idle
      ensures (forall h :: h in (if inIdle then Without(idle, k) else idle) ==> h in idle)
              && forall h :: h in (if inIdle then busy else Without(busy, k)) ==> h in busy
    {
      hide Circle, NoDuplicates, Charge;
      inIdle := e in ToSet(idle);
      k := PlaceOf(if inIdle then idle else busy, e);
      WithoutIs(if inIdle then idle else busy, k);
      MembersOfWithout(if inIdle then idle else busy, k);
    }

    lemma BooksAre()
      ensures Books() <==>
        && Accounts(usage, Charge(idle) + Charge(busy), created, external.Keys, deleted, Listed())
        && lru !in created && inUse !in created && lru.charge == inUse.charge == 0
    {
    }

    // Where an entry without clients is.
    lemma IdlePlace(e: Handle) returns (k: nat)
      requires Inv(null) && e in external
      ensures e.refs == 1 && e.inCache ==> 0 < k < |idle| && idle[k] == e && e in ToSet(idle)
    {
      k := 0;
      if e.refs == 1 && e.inCache {
        k := PlaceIn(idle, e);
      }
    }

    /** What every state between operations says of every entry ever made: it has been deleted, once, or it is
     referenced by a client or the cache; and an entry in the cache is idle exactly when it has no client. */
    lemma EntryIsDeletedOnce(h: Handle)
      requires Valid() && h in created
      ensures h in deleted <==> h !in external
      ensures multiset(deleted)[h] == if h in external then 0 else 1
      ensures h in external ==> external[h] > 0 || h in table.items
      ensures h in table.items ==> h in external && (external[h] == 0 <==> h in idle)
      ensures usage == Charge(idle) + Charge(busy)
    {
      hide Circle, Charge, Table.Valid;
      if h in external {
        CountedMeans(h, external[h], false, h in ToSet(idle), h in ToSet(busy));
      }
      AtMostOnce(deleted, h);
    }

    // A client looks up a key, and then has to release the entry.
    method Lookup(key: Bytes, hash: Hash) returns (e: Handle?)
      requires Valid()
      modifies this`idle, this`busy, this`external, Links()`next, Links()`prev, external.Keys`refs
      ensures Valid() && e == old(table.Lookup(key, hash)) && table.items == old(table.items)
      ensures external == if e == null then old(external) else old(external)[e := old(external)[e] + 1]
    {
      hide Inv, Table.Valid, Table.Lookup;
      e := table.Find(key, hash);
      if e != null {
        AliveInList(e);
        Ref(e);
      }
    }

    lemma AliveInList(e: Handle)
      requires Inv(null) && e in Listed()
      ensures e in external
    {
    }

    // A client gives up a reference it has.
    method Release(e: Handle)
      requires Valid() && e in external && external[e] > 0
      modifies this`idle, this`busy, this`external, this`deleted, Links()`next, Links()`prev, e`refs
      ensures Valid() && table.items == old(table.items)
      ensures var last := old(external)[e] == 1 && !e.inCache;
              && external == (if last then old(external) - {e} else old(external)[e := old(external)[e] - 1])
              && deleted == if last then old(deleted) + [e] else old(deleted)
    {
      hide Inv, Table.Valid;
      Owe(e);
      Unref(e);
    }

    ghost method Owe(e: Handle)
      requires Inv(null) && e in external && external[e] > 0
      modifies this`external
      ensures Inv(e) && external == old(external)[e := old(external)[e] - 1] && external - {e} == old(external) - {e}
    {
      hide Circle, NoDuplicates, ToSet, Charge, Accounts, Lists, Counted;
      CountedMeans(e, external[e], false, e in ToSet(idle), e in ToSet(busy));
      external := external[e := external[e] - 1];
      assert external.Keys == old(external).Keys;
      CountedMeans(e, external[e], true, e in ToSet(idle), e in ToSet(busy));
    }

    // Takes a key out of the cache; clients keep what they have.
    method Erase(key: Bytes, hash: Hash)
      requires Valid()
      modifies this`idle, this`busy, this`external, this`deleted, this`usage, Links()`next, Links()`prev
      modifies table, table.items`nextHash, external.Keys`refs, external.Keys`inCache
      ensures Valid()
      ensures var h := old(table.Lookup(key, hash));
              var last := h != null && old(external)[h] == 0;
              && table.items == (if h == null then old(table.items) else old(table.items) - {h})
              && external == (if last then old(external) - {h} else old(external))
              && deleted == if last then old(deleted) + [h] else old(deleted)
    {
      hide Inv, Table.Valid, Table.Lookup;
      var h := table.Remove(key, hash);
      if h != null {
        AliveInList(h);
      }
      var _ := FinishErase(h);
    }

    // Caches an entry under a key, in place of what is there, and makes room for it; the client has a reference.
    method Insert(key: Bytes, hash: Hash, charge: nat)
      returns (e: Handle, ghost mid: (seq<Handle>, seq<Handle>))
      requires Valid()
      modifies this`idle, this`busy, this`external, this`deleted, this`usage, this`created, Links()`next, Links()`prev
      modifies table, table.items`nextHash, external.Keys`refs, external.Keys`inCache
      ensures Valid() && fresh(e) && e.key == key && e.hash == hash && e.charge == charge
      ensures created == old(created) + {e} && e in external && external[e] == 1
      ensures e in table.items <==> capacity > 0
      ensures usage <= capacity || idle == [lru]
      // clients keep their entries
      ensures forall h :: h in old(external) && old(external)[h] > 0 ==> h in external && external[h] == old(external)[h]
      // the entry that was replaced goes first, then idle entries from the oldest on, and none too many
      ensures Superseded(old(idle), old(deleted), old(external), old(ToReplace(key, hash)), mid.0, mid.1)
      ensures Evicted(mid.0, idle, mid.1, deleted) && (idle != mid.0 ==> NoneTooMany())
    {
      hide Valid, Inv, Links, Superseded, Evicted;
      e := Add(key, hash, charge);
      mid := (idle, deleted);
      EvictSurplus();
    }

    // The entry that an insertion takes the place of.
    ghost function ToReplace(key: Bytes, hash: Hash): Handle?
      reads this`capacity, table
    {
      if capacity > 0 then table.Lookup(key, hash) else null
    }

    // Insert up to its loop.
    method Add(key: Bytes, hash: Hash, charge: nat) returns (e: Handle)
      requires Valid()
      modifies this`idle, this`busy, this`external, this`deleted, this`usage, this`created, Links()`next, Links()`prev
      modifies table, table.items`nextHash, external.Keys`refs, external.Keys`inCache
      ensures Valid() && fresh(e) && e.key == key && e.hash == hash && e.charge == charge
      ensures created == old(created) + {e} && e in external && external[e] == 1
      ensures e in table.items <==> capacity > 0
      ensures external.Keys <= old(external).Keys + {e}
      ensures forall h :: h in old(external) && old(external)[h] > 0 ==> h in external && external[h] == old(external)[h]
      ensures Superseded(old(idle), old(deleted), old(external), old(ToReplace(key, hash)), idle, deleted)
      ensures Links() <= old(Links()) + {e} && table.items <= old(table.items) + {e}
    {
      hide Inv, Table.Valid, Table.Lookup, Superseded;
      e := new Handle(key, hash, charge);
      if capacity > 0 {
        AddCached(e);
      } else {
        AddUncached(e);
        NothingReplaced(idle, deleted, old(external));
      }
    }

    // The cached case of Insert.
    method AddCached(e: Handle)
      requires Valid() && e.refs == 1 && !e.inCache && e !in created && e != lru && e != inUse
      modifies this`idle, this`busy, this`external, this`deleted, this`usage, this`created, Links()`next, Links()`prev
      modifies table, table.items`nextHash, external.Keys`refs, external.Keys`inCache, e
      ensures Valid() && created == old(created) + {e} && e in external && external[e] == 1 && e in table.items
      ensures external.Keys <= old(external).Keys + {e}
      ensures Superseded(old(idle), old(deleted), old(external), old(table.Lookup(e.key, e.hash)), idle, deleted)
      ensures forall h :: h in old(external) && old(external)[h] > 0 ==> h in external && external[h] == old(external)[h]
      ensures Links() <= old(Links()) + {e} && table.items <= old(table.items) + {e}
    {
      hide Inv, Table.Valid, Table.Lookup, Listed, Without, PlaceOf;
      var replaced := AddToTable(e);
      var _ := FinishErase(replaced);
    }

    // Up to the entry that the new one replaces being given up.
    method AddToTable(e: Handle) returns (replaced: Handle?)
      requires Valid() && e.refs == 1 && !e.inCache && e !in created && e != lru && e != inUse
      modifies this`busy, this`external, this`usage, this`created, Links()`next, Links()`prev
      modifies table, table.items`nextHash, e
      ensures Inv(null) && table.Valid() && created == old(created) + {e} && e in table.items && e !in old(external)
      ensures external == old(external)[e := 1] && replaced == old(table.Lookup(e.key, e.hash))
      ensures replaced != null ==> replaced in Listed() && replaced in old(external) && replaced != e
      ensures table.items == Listed() - (if replaced == null then {} else {replaced})
      ensures Links() <= old(Links()) + {e} && table.items <= old(table.items) + {e}
    {
      hide Inv, Table.Valid, Table.Lookup, Listed;
      AddBusy(e);
      replaced := table.Insert(e);
      if replaced != null {
        AliveInList(replaced);
      }
    }

    // The loop of Insert.
    method EvictSurplus()
      requires Valid()
      modifies this`idle, this`busy, this`external, this`deleted, this`usage, Links()`next, Links()`prev
      modifies table, table.items`nextHash, external.Keys`refs, external.Keys`inCache
      ensures Valid() && (usage <= capacity || idle == [lru])
      ensures Kept() && Evicted(old(idle), idle, old(deleted), deleted)
      ensures idle != old(idle) ==> NoneTooMany()
    {
      hide *;
      ghost var c, d, refs, items, links := idle, deleted, external, table.items, Links();
      var empty := IdleIsEmpty();
      NothingGone(c, d, refs, items, links);
      while usage > capacity && !empty
        invariant Valid() && |idle| > 0 && empty == (idle == [lru]) && (!empty ==> |idle| > 1)
        invariant Gone(c, d, refs, items, links, idle, deleted, external, table.items, Links())
        invariant idle != c ==> NoneTooMany()
        decreases |idle|
      {
        GoneMeans(c, d, refs, items, links, idle, deleted, external, table.items, Links());
        EvictNext(c, d, refs, items, links);
        empty := IdleIsEmpty();
      }
      GoneMeans(c, d, refs, items, links, idle, deleted, external, table.items, Links());
      GoneIsKept();
    }

    // One turn of both eviction loops, since the cache looked as these say.
    method EvictNext(ghost c: seq<Handle>, ghost d: seq<Handle>, ghost refs: map<Handle, nat>, ghost items: set<Handle>,
                     ghost links: set<Handle>)
      requires Valid() && |idle| > 1
      requires Gone(c, d, refs, items, links, idle, deleted, external, table.items, Links())
      modifies this`idle, this`busy, this`external, this`deleted, this`usage, Links()`next, Links()`prev
      modifies table, table.items`nextHash, external.Keys`refs, external.Keys`inCache
      ensures Valid() && |idle| < old(|idle|)
      ensures Gone(c, d, refs, items, links, idle, deleted, external, table.items, Links())
      ensures old(usage) > capacity ==> NoneTooMany()
    {
      hide Valid, Links, Gone, Without;
      ghost var i, del, ext, its, lks := idle, deleted, external, table.items, Links();
      EvictOldest();
      OneMoreGone(c, d, refs, items, links, i, del, ext, its, lks, idle, deleted, external, table.items, Links());
    }

    twostate lemma GoneIsKept()
      requires Gone(old(idle), old(deleted), old(external), old(table.items), old(Links()),
                    idle, deleted, external, table.items, Links())
      ensures Kept()
    {
    }

    // Without the last deletion usage would be over capacity.
    ghost predicate NoneTooMany()
      reads this`deleted, this`usage, this`capacity
    {
      deleted != [] && usage + deleted[|deleted| - 1].charge > capacity
    }

    // A new entry that the cache refers to as well as the client.
    method AddBusy(e: Handle)
      requires Inv(null) && e.refs == 1 && !e.inCache && e !in created && e != lru && e != inUse
      modifies this`busy, this`external, this`created, this`usage, Links()`next, Links()`prev, e
      ensures Inv(null) && Listed() == old(Listed()) + {e} && e !in old(Listed()) && Links() <= old(Links()) + {e}
      ensures external == old(external)[e := 1] && e !in old(external) && created == old(created) + {e}
    {
      hide Circle, NoDuplicates, ToSet, Charge, Accounts, Lists, Books, Counted, Links;
      BooksAre();
      NewEntry(e);
      OneAdded(usage, Charge(idle) + Charge(busy), created, external.Keys, deleted, Listed(), e);
      e.refs := e.refs + 1;
      e.inCache := true;
      AttachBusy(e);
      usage := usage + e.charge;
      external, created := external[e := 1], created + {e};
      assert external.Keys == old(external).Keys + {e};
      assert Listed() == old(Listed()) + {e};
      CountedMeans(e, 1, false, e in ToSet(idle), e in ToSet(busy));
      BooksAre();
    }

    method AttachBusy(e: Handle)
      requires Lists() && e !in idle && e !in busy
      modifies this`busy, Links()`next, Links()`prev, e`next, e`prev
      ensures Lists() && busy == old(busy) + [e] && ToSet(busy) == old(ToSet(busy)) + {e}
      ensures Charge(busy) == old(Charge(busy)) + e.charge && Links() <= old(Links()) + {e}
    {
      hide Circle, NoDuplicates, ToSet, Charge;
      WithIs(busy, e);
      ghost var i := idle;
      Attach(inUse, e, busy);
      busy := busy + [e];
      assert Circle(i);
    }

    // A new entry is in neither list.
    lemma NewEntry(e: Handle)
      requires Lists() && Books() && e !in created && e != lru && e != inUse
      ensures e !in external && e !in idle && e !in busy && e !in ToSet(idle) && e !in ToSet(busy)
      ensures Circle(idle) && Circle(busy) && idle[0] == lru && busy[0] == inUse
      ensures NoDuplicates(idle) && NoDuplicates(busy) && forall h :: h in idle ==> h !in busy
    {
    }

    // A new entry that only the client refers to.
    ghost method AddUncached(e: Handle)
      requires Inv(null) && e.refs == 1 && !e.inCache && e !in created && e != lru && e != inUse
      modifies this`external, this`created
      ensures Inv(null) && Listed() == old(Listed())
      ensures external == old(external)[e := 1] && e !in old(external) && created == old(created) + {e}
    {
      hide Circle, NoDuplicates, ToSet, Charge, Accounts, Lists, Books, Counted;
      BooksAre();
      NewEntry(e);
      AddedAlive(usage, Charge(idle) + Charge(busy), created, external.Keys, deleted, Listed(), e);
      external, created := external[e := 1], created + {e};
      assert external.Keys == old(external).Keys + {e};
      CountedMeans(e, 1, false, e in ToSet(idle), e in ToSet(busy));
      BooksAre();
    }

    // What evictions leave alone: entries with clients, and what the cache holds of them.
    twostate predicate Kept()
      reads this, table
    {
      && external.Keys <= old(external).Keys
      && (forall h :: h in old(external) && old(external)[h] > 0 ==>
            && h in external && external[h] == old(external)[h]
            && (h in table.items <==> h in old(table.items)))
    }

    // lru_.next == &lru_
    method IdleIsEmpty() returns (empty: bool)
      requires Valid()
      ensures Valid() && |idle| > 0 && empty == (idle == [lru]) && (!empty ==> |idle| > 1 && lru.next == idle[1])
    {
      empty := lru.next == lru;
    }

    // The body of both eviction loops: the oldest idle entry goes.
    method EvictOldest()
      requires Valid() && |idle| > 1
      modifies this`idle, this`busy, this`external, this`deleted, this`usage, Links()`next, Links()`prev
      modifies table, table.items`nextHash, external.Keys`refs, external.Keys`inCache
      ensures Valid() && idle == Without(old(idle), 1)
      ensures deleted == old(deleted) + [old(idle)[1]] && external == old(external) - {old(idle)[1]}
      ensures usage == old(usage) - old(idle)[1].charge
      ensures old(idle)[1] in old(external) && old(external)[old(idle)[1]] == 0
      ensures table.items == old(table.items) - {old(idle)[1]} && Links() <= old(Links())
    {
      hide Inv, Table.Valid, Table.Lookup;
      OldestIsIdle();
      var e := lru.next;
      table.LookupOwn(e);
      var removed := table.Remove(e.key, e.hash);
      var _ := FinishErase(removed);
    }

    lemma OldestIsIdle()
      requires Inv(null) && |idle| > 1
      ensures lru.next == idle[1] && idle[1] in Listed() && idle[1] in ToSet(idle) && PlaceOf(idle, idle[1]) == 1
      ensures idle[1] in external && external[idle[1]] == 0
    {
      hide Charge, Accounts;
      assert idle[1] in idle && inUse in busy && idle[0] != idle[1];
      ListedIsAlive(idle[1]);
      assert PlaceOf(idle[1..], idle[1]) == 0;
    }

    // Deletes all idle entries.
    method Prune()
      requires Valid()
      modifies this`idle, this`busy, this`external, this`deleted, this`usage, Links()`next, Links()`prev
      modifies table, table.items`nextHash, external.Keys`refs, external.Keys`inCache
      ensures Valid() && idle == [lru] && Kept() && Evicted(old(idle), idle, old(deleted), deleted)
    {
      hide *;
      ghost var c, d, refs, items, links := idle, deleted, external, table.items, Links();
      var empty := IdleIsEmpty();
      NothingGone(c, d, refs, items, links);
      while !empty
        invariant Valid() && |idle| > 0 && empty == (idle == [lru]) && (!empty ==> |idle| > 1)
        invariant Gone(c, d, refs, items, links, idle, deleted, external, table.items, Links())
        decreases |idle|
      {
        GoneMeans(c, d, refs, items, links, idle, deleted, external, table.items, Links());
        EvictNext(c, d, refs, items, links);
        empty := IdleIsEmpty();
      }
      GoneMeans(c, d, refs, items, links, idle, deleted, external, table.items, Links());
      GoneIsKept();
    }
  }

  // Where an entry is in a list.
  ghost function PlaceOf(c: seq<Handle>, e: Handle): (k: nat)
    requires e in ToSet(c)
    ensures k < |c| && c[k] == e
  {
    if c[0] == e then 0 else 1 + PlaceOf(c[1..], e)
  }

  // What is left of a list when an entry leaves the cache.
  ghost function Left(c: seq<Handle>, e: Handle?): seq<Handle> {
    if e == null || e !in ToSet(c) then c else Without(c, PlaceOf(c, e))
  }

  // From the idle list c to d when r is replaced; r is deleted at once if no client has it.
  ghost predicate Superseded(c: seq<Handle>, deleted: seq<Handle>, external: map<Handle, nat>, r: Handle?,
                           d: seq<Handle>, deleted': seq<Handle>)
  {
    && d == Left(c, r)
    && deleted' == deleted + if r != null && r in external && external[r] == 0 then [r] else []
  }

  lemma NothingReplaced(c: seq<Handle>, deleted: seq<Handle>, external: map<Handle, nat>)
    ensures Superseded(c, deleted, external, null, c, deleted)
  {
  }

  lemma NothingLeft(c: seq<Handle>)
    ensures Left(c, null) == c
  {
  }

  // From list c to list d by deleting entries from the front, behind the head.
  ghost predicate Evicted(c: seq<Handle>, d: seq<Handle>, deleted: seq<Handle>, deleted': seq<Handle>) {
    && 1 <= |d| <= |c|
    && var n := |c| - |d|;
       d == c[..1] + c[1 + n..] && deleted' == deleted + c[1..1 + n]
  }

  lemma NothingEvicted(c: seq<Handle>, deleted: seq<Handle>)
    requires c != []
    ensures Evicted(c, c, deleted, deleted)
  {
    assert c[..1] + c[1..] == c;
  }

  lemma OneMoreEvicted(c: seq<Handle>, d: seq<Handle>, deleted: seq<Handle>, deleted': seq<Handle>)
    requires Evicted(c, d, deleted, deleted') && |d| > 1
    ensures Evicted(c, Without(d, 1), deleted, deleted' + [d[1]])
  {
    var n := |c| - |d|;
    assert d[1] == c[1 + n] && c[1..1 + n] + [c[1 + n]] == c[1..2 + n];
  }

  // What some evictions do to the idle list, the deleted entries, the clients' references, the table and the links.
  ghost predicate Gone(c: seq<Handle>, d: seq<Handle>, refs: map<Handle, nat>, items: set<Handle>, links: set<Handle>,
                       c': seq<Handle>, d': seq<Handle>, refs': map<Handle, nat>, items': set<Handle>,
                       links': set<Handle>)
  {
    && Evicted(c, c', d, d') && refs'.Keys <= refs.Keys && items' <= items && links' <= links
    && forall h :: h in refs && refs[h] > 0 ==> h in refs' && refs'[h] == refs[h] && (h in items' <==> h in items)
  }

  lemma NothingGone(c: seq<Handle>, d: seq<Handle>, refs: map<Handle, nat>, items: set<Handle>, links: set<Handle>)
    requires c != []
    ensures Gone(c, d, refs, items, links, c, d, refs, items, links)
  {
    NothingEvicted(c, d);
  }

  lemma GoneMeans(c: seq<Handle>, d: seq<Handle>, refs: map<Handle, nat>, items: set<Handle>, links: set<Handle>,
                  c': seq<Handle>, d': seq<Handle>, refs': map<Handle, nat>, items': set<Handle>, links': set<Handle>)
    requires Gone(c, d, refs, items, links, c', d', refs', items', links')
    ensures Evicted(c, c', d, d') && refs'.Keys <= refs.Keys && items' <= items && links' <= links
    ensures |c'| == |c| ==> c' == c
  {
  }

  lemma OneMoreGone(c: seq<Handle>, d: seq<Handle>, refs: map<Handle, nat>, items: set<Handle>, links: set<Handle>,
                    c': seq<Handle>, d': seq<Handle>, refs': map<Handle, nat>, items': set<Handle>, links': set<Handle>,
                    c'': seq<Handle>, d'': seq<Handle>, refs'': map<Handle, nat>, items'': set<Handle>,
                    links'': set<Handle>)
    requires Gone(c, d, refs, items, links, c', d', refs', items', links') && |c'| > 1
    requires c'' == Without(c', 1) && d'' == d' + [c'[1]] && c'[1] in refs' && refs'[c'[1]] == 0
    requires refs'' == refs' - {c'[1]} && items'' == items' - {c'[1]} && links'' <= links'
    ensures Gone(c, d, refs, items, links, c'', d'', refs'', items'', links'')
  {
    hide Evicted;
    OneMoreEvicted(c, c', d, d');
  }

  lemma OneDeleted(usage: nat, charges: nat, created: set<Handle>, alive: set<Handle>, deleted: seq<Handle>,
                   listed: set<Handle>, e: Handle)
    requires Accounts(usage, charges, created, alive, deleted, listed) && e in alive && e !in listed
    ensures Accounts(usage, charges, created, alive - {e}, deleted + [e], listed)
  {
    assert ToSet(deleted + [e]) == ToSet(deleted) + {e};
  }

  lemma MembersOfWithout(c: seq<Handle>, k: nat)
    requires k < |c|
    ensures forall h :: h in Without(c, k) ==> h in c
  {
    forall h | h in Without(c, k) ensures h in c {
      var m :| 0 <= m < |c| - 1 && Without(c, k)[m] == h;
    }
  }

  lemma OneDropped(usage: nat, charges: nat, created: set<Handle>, alive: set<Handle>, deleted: seq<Handle>,
                   listed: set<Handle>, e: Handle)
    requires Accounts(usage, charges + e.charge, created, alive, deleted, listed) && e in listed
    ensures e in alive && usage >= e.charge
    ensures Accounts(usage - e.charge, charges, created, alive, deleted, listed - {e})
  {
  }

  lemma AddedAlive(usage: nat, charges: nat, created: set<Handle>, alive: set<Handle>, deleted: seq<Handle>,
                   listed: set<Handle>, e: Handle)
    requires Accounts(usage, charges, created, alive, deleted, listed) && e !in created
    ensures Accounts(usage, charges, created + {e}, alive + {e}, deleted, listed)
  {
  }

  lemma OneAdded(usage: nat, charges: nat, created: set<Handle>, alive: set<Handle>, deleted: seq<Handle>,
                 listed: set<Handle>, e: Handle)
    requires Accounts(usage, charges, created, alive, deleted, listed) && e !in created
    ensures e !in listed
    ensures Accounts(usage + e.charge, charges + e.charge, created + {e}, alive + {e}, deleted, listed + {e})
  {
  }

  lemma {:induction false} AtMostOnce(c: seq<Handle>, h: Handle)
    requires NoDuplicates(c)
    ensures multiset(c)[h] == if h in c then 1 else 0
  {
    if c != [] {
      var front, last := c[..|c| - 1], c[|c| - 1];
      assert c == front + [last];
      AtMostOnce(front, h);
    }
  }

  lemma SameEntries(a: set<Handle>, b: set<Handle>, e: Handle, lru: Handle, inUse: Handle)
    requires e in a
    ensures (a - {e}) + (b + {e}) - {lru, inUse} == a + b - {lru, inUse}
    ensures (b + {e}) + (a - {e}) - {lru, inUse} == b + a - {lru, inUse}
  {
  }

  lemma PlaceIn(c: seq<Handle>, e: Handle) returns (k: nat)
    requires e in ToSet(c)
    ensures k < |c| && c[k] == e
  {
    k :| 0 <= k < |c| && c[k] == e;
  }

  lemma Nothing()
    ensures ToSet([]) == {} && NoDuplicates([])
  {
  }

  // An empty circular list.
  method MakeEmpty(h: Handle)
    modifies h`next, h`prev
    ensures Circle([h]) && NoDuplicates([h]) && ToSet([h]) == {h} && Charge([h]) == h.charge
  {
    h.next := h;
    h.prev := h;
    assert [h][..0] == [];
  }

  lemma StillSeparate(c: seq<Handle>, d: seq<Handle>, k: nat)
    requires k < |c| && NoDuplicates(c) && forall h :: h in c ==> h !in d
    ensures c[k] !in d && forall h :: h in Without(c, k) ==> h !in d + [c[k]]
  {
    forall h | h in Without(c, k) ensures h in c && h != c[k] {
      var m :| 0 <= m < |c| - 1 && Without(c, k)[m] == h;
    }
  }
}
