/**
 MemTable of db/memtable.cc: a skip list of entries, which holds them as one sorted run.
 */
module MemTables {
  import opened Keys
  import opened Files
  import opened Picker
  import opened ReadPath
  import opened MergeInputs
  import S = SkipList

  // The entry a node stands for.
  function EntryOf(n: S.Node): Entry {
    Entry(n.key, n.value)
  }

  function EntriesOf(nodes: seq<S.Node>): (es: seq<Entry>)
    ensures |es| == if nodes == [] then 0 else |nodes| - 1
    ensures forall k | 0 <= k < |es| :: es[k] == EntryOf(nodes[k + 1])
  {
    if nodes == [] then [] else seq(|nodes| - 1, k requires 0 <= k < |nodes| - 1 => EntryOf(nodes[k + 1]))
  }

  lemma SortedNodes(nodes: seq<S.Node>)
    requires S.Sorted(nodes)
    ensures Sorted(EntriesOf(nodes))
  {
  }

  // The place of a key is the same among the nodes and among the entries.
  lemma PlaceIs(nodes: seq<S.Node>, key: InternalKey, j: nat)
    requires 1 <= j <= |nodes| && S.Sorted(nodes)
    requires forall a | 0 < a < j :: Less(nodes[a].key, key)
    requires j < |nodes| ==> !Less(nodes[j].key, key)
    ensures SeekIndex(EntriesOf(nodes), key) == j - 1
  {
    var es := EntriesOf(nodes);
    forall k | 0 <= k < |es|
      ensures es[k] == EntryOf(nodes[k + 1]) && (Less(es[k].key, key) <==> k < j - 1)
    {
      assert nodes[k + 1].key == es[k].key;
      if j < k + 1 {
        assert Less(nodes[j].key, nodes[k + 1].key);
      }
    }
    var i := SeekIndex(es, key);
    assert i < |es| ==> !Less(es[i].key, key);
    assert i > 0 ==> Less(es[i - 1].key, key);
  }

  lemma InsertedIs(nodes: seq<S.Node>, j: nat, x: S.Node)
    requires 1 <= j <= |nodes| && SeekIndex(EntriesOf(nodes), x.key) == j - 1
    ensures EntriesOf(S.Inserted(nodes, j, x)) == InsertEntry(EntriesOf(nodes), EntryOf(x))
  {
    var es, all := EntriesOf(nodes), S.Inserted(nodes, j, x);
    forall k | 0 <= k < |nodes|
      ensures EntriesOf(all)[k] == InsertEntry(es, EntryOf(x))[k]
    {
      assert EntriesOf(all)[k] == EntryOf(all[k + 1]);
    }
  }

  class MemTable {
    const table: S.List

    ghost predicate Valid()
      reads table, table.nodes
    {
      table.Valid()
    }

    ghost function Contents(): seq<Entry>
      reads table
    {
      EntriesOf(table.nodes)
    }

    ghost function Parts(): set<object>
      reads table`nodes
    {
      PartsWith(table.nodes)
    }

    function PartsWith(nodes: seq<S.Node>): set<object> {
      {table} + set o: object | o in nodes
    }

    constructor ()
      ensures Valid() && Contents() == [] && fresh(Parts())
    {
      table := new S.List();
    }

    lemma SortedContents()
      requires Valid()
      ensures Sorted(Contents())
    {
      hide S.Shape, S.Linked, S.Sorted, EntriesOf;
      SortedNodes(table.nodes);
    }

    lemma PositionIs(key: InternalKey)
      requires Valid()
      ensures 1 <= table.Position(key) <= |table.nodes|
      ensures SeekIndex(Contents(), key) == table.Position(key) - 1
    {
      hide S.Shape, S.Linked, S.Sorted, EntriesOf, S.List.Position, Less;
      table.HeadIsLinked();
      forall a | 0 < a <= |table.nodes|
        ensures a < |table.nodes| ==> (Less(table.nodes[a].key, key) <==> a < table.Position(key))
      {
        table.PositionSplits(key, a);
      }
      PlaceIs(table.nodes, key, table.Position(key));
    }

    // The height of the new node is RandomHeight's choice.
    method Add(sequence: nat, kind: ValueType, user: UserKey, value: string, height: nat)
      returns (ghost added: set<object>)
      requires Valid() && 1 <= height <= S.MAX_HEIGHT
      requires forall e | e in Contents() :: e.key != InternalKey(user, sequence, kind)
      modifies table, table.nodes
      ensures Valid() && Parts() == old(Parts()) + added && fresh(added)
      ensures Contents() == InsertEntry(old(Contents()), Entry(InternalKey(user, sequence, kind), value))
    {
      hide *;
      var key := InternalKey(user, sequence, kind);
      PositionIs(key);
      ghost var nodes, j := table.nodes, table.Position(key);
      NewKey(key);
      IsContents(nodes);
      var _ := table.Insert(key, value, height);
      AddedIs(nodes, j);
      added := {table.nodes[j]};
    }

    lemma IsContents(nodes: seq<S.Node>)
      requires nodes == table.nodes
      ensures Contents() == EntriesOf(nodes)
      ensures Parts() == PartsWith(nodes) && forall n | n in nodes :: n in Parts()
      ensures table in Parts()
      ensures Valid() == table.Valid()
    {
      hide S.List.Valid, EntriesOf;
    }

    lemma NewKey(key: InternalKey)
      requires Valid() && forall e | e in Contents() :: e.key != key
      ensures table.Valid() && key !in table.Keys()
    {
      hide S.Shape, S.Linked, S.Sorted;
      table.HeadIsLinked();
      forall k | 0 <= k < |table.Keys()|
        ensures table.Keys()[k] != key
      {
        assert Contents()[k] in Contents();
      }
    }

    lemma AddedIs(nodes: seq<S.Node>, j: nat)
      requires table.Valid() && 1 <= j <= |nodes| && j < |table.nodes|
      requires table.nodes == S.Inserted(nodes, j, table.nodes[j])
      requires SeekIndex(EntriesOf(nodes), table.nodes[j].key) == j - 1
      ensures Valid() && Contents() == InsertEntry(EntriesOf(nodes), EntryOf(table.nodes[j]))
      ensures EntryOf(table.nodes[j]) == Entry(table.nodes[j].key, table.nodes[j].value)
      ensures Parts() == PartsWith(nodes) + {table.nodes[j]}
    {
      hide S.List.Valid, EntriesOf, InsertEntry, S.Inserted;
      InsertedIs(nodes, j, table.nodes[j]);
      S.OnlyOneMore(nodes, j, table.nodes[j]);
      forall n | n in nodes
        ensures n in table.nodes
      {
        var k :| 0 <= k < |nodes| && nodes[k] == n;
        assert table.nodes[if k < j then k else k + 1] == n;
      }
    }

    // The value of the newest entry a reader at sequence s may see, or nothing for a deletion marker; found is false
    // when there is neither.
    method Get(u: UserKey, s: nat) returns (found: bool, r: Option<string>)
      requires Valid()
      ensures var hit := SeekHit(Contents(), u, s);
              found == hit.Some? && (found ==> r == Outcome(hit.value))
    {
      hide *;
      IsContents(table.nodes);
      var iter := new S.ListIterator(table);
      iter.Seek(SeekKey(u, s));
      HitIs(u, s);
      NodeIs(iter, table.Position(SeekKey(u, s)));
      found, r := false, None;
      if iter.node != null && iter.node.key.user == u {
        found := true;
        r := if iter.node.key.kind.TypeValue? then Some(iter.node.value) else None;
      }
    }

    lemma HitIs(u: UserKey, s: nat)
      requires Valid()
      ensures var j := table.Position(SeekKey(u, s));
              && 1 <= j <= |table.nodes|
              && SeekHit(Contents(), u, s) ==
                 (if j < |table.nodes| && table.nodes[j].key.user == u then Some(EntryOf(table.nodes[j])) else None)
              && (j < |table.nodes| ==>
                    Outcome(EntryOf(table.nodes[j])) ==
                    (if table.nodes[j].key.kind.TypeValue? then Some(table.nodes[j].value) else None))
    {
      hide S.Shape, S.Linked, S.Sorted, S.List.Position, SeekIndex;
      PositionIs(SeekKey(u, s));
    }

    lemma NodeIs(iter: S.ListIterator, a: nat)
      requires iter.list == table && 0 < a && iter.IsAt(a)
      ensures iter.node == if a < |table.nodes| then table.nodes[a] else null
    {
    }

    // Read from front to back, as a flush does.
    method Entries() returns (es: seq<Entry>)
      requires Valid()
      ensures es == Contents() && Sorted(es)
    {
      hide *;
      SortedContents();
      IsContents(table.nodes);
      NotEmpty();
      var iter := new S.ListIterator(table);
      iter.SeekToFirst();
      es := [];
      ghost var a := 1;
      NodeIs(iter, a);
      while iter.node != null
        invariant iter.list == table && 1 <= a <= |table.nodes| == |Contents()| + 1 && es == Contents()[..a - 1]
        invariant iter.IsAt(a) && iter.node == if a < |table.nodes| then table.nodes[a] else null
        decreases |table.nodes| - a
      {
        NextEntry(a);
        es := es + [EntryOf(iter.node)];
        iter.Next(a);
        a := a + 1;
        NodeIs(iter, a);
      }
    }

    lemma NotEmpty()
      requires Valid()
      ensures |table.nodes| == |Contents()| + 1
    {
      hide S.Shape, S.Linked, S.Sorted;
      table.HeadIsLinked();
    }

    lemma NextEntry(a: nat)
      requires 0 < a < |table.nodes|
      ensures a - 1 < |Contents()| && Contents()[..a] == Contents()[..a - 1] + [EntryOf(table.nodes[a])]
    {
    }
  }

  // ---------------------------------------------------------------------------
  // The memtable and the immutable memtable
  // ---------------------------------------------------------------------------

  // A table that holds these entries and consists of these objects, or no table.
  ghost predicate Held(t: MemTable?, parts: set<object>, es: Option<seq<Entry>>)
    reads parts
  {
    if t == null then es == None && parts == {}
    else t.table in parts && parts == t.Parts() && t.Valid() && es == Some(t.Contents())
  }

  lemma HeldIs(t: MemTable, parts: set<object>, es: Option<seq<Entry>>)
    requires Held(t, parts, es)
    ensures t.Valid() && es == Some(t.Contents()) && parts == t.Parts() && t.table in parts
    ensures forall n | n in t.table.nodes :: n in parts
  {
  }

  lemma IsHeld(t: MemTable)
    requires t.Valid()
    ensures Held(t, t.Parts(), Some(t.Contents()))
    ensures forall o | o in t.Parts() :: o is S.List || o is S.Node
  {
  }

  lemma NoneHeld()
    ensures Held(null, {}, None)
  {
  }

  // DBImpl::Get: the memtable, the immutable memtable, the tables.
  method Get(mem: MemTable, imm: MemTable?, levels: Levels, u: UserKey, s: nat,
             ghost memory: seq<Entry>, ghost frozen: Option<seq<Entry>>,
             ghost memParts: set<object>, ghost immParts: set<object>)
    returns (r: Option<string>)
    requires Held(mem, memParts, Some(memory)) && Held(imm, immParts, frozen)
    requires StoreInvariant(memory, frozen, levels)
    ensures r == Read(Stored(memory, frozen, levels), u, s)
  {
    hide MemTable.Valid, MemTable.Contents, MemTable.Parts, LevelInvariant, Read, Stored, SeekHit, Answers, Sorted;
    var found;
    ghost var hit := SeekHit(memory, u, s);
    found, r := mem.Get(u, s);
    if !found && imm != null {
      hit := SeekHit(frozen.value, u, s);
      found, r := imm.Get(u, s);
    }
    if !found {
      var h := VersionGet(levels, u, s);
      hit := h;
      r := if h.Some? then Outcome(h.value) else None;
    }
    FirstHitIsRead(memory, frozen, levels, u, s, hit);
  }
}
