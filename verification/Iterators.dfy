/**
 A cursor over one sorted run of entries: the contract every internal iterator implements.
 */
module Iterators {
  import opened Keys
  import opened ReadPath

  // Which way an iterator last moved.
  datatype Direction = Forward | Reverse

  class Cursor {
    const entries: seq<Entry>
    var pos: nat   // |entries| when the cursor is not valid

    ghost predicate Good()
      reads this
    {
      Sorted(entries) && pos <= |entries|
    }

    constructor (entries: seq<Entry>)
      requires Sorted(entries)
      ensures Good() && this.entries == entries && pos == |entries|
    {
      this.entries := entries;
      this.pos := |entries|;
    }

    predicate Valid()
      reads this
    {
      pos < |entries|
    }

    function Current(): Entry
      requires Valid()
      reads this
    {
      entries[pos]
    }

    method SeekToFirst()
      requires Good()
      modifies this
      ensures Good() && pos == 0
    {
      pos := 0;
    }

    method SeekToLast()
      requires Good()
      modifies this
      ensures Good() && pos == if entries == [] then 0 else |entries| - 1
    {
      pos := if entries == [] then 0 else |entries| - 1;
    }

    // The first entry at or after key.
    method Seek(key: InternalKey)
      requires Good()
      modifies this
      ensures Good()
      ensures forall k | 0 <= k < pos :: Less(entries[k].key, key)
      ensures Valid() ==> !Less(entries[pos].key, key)
    {
      pos := SeekIndex(entries, key);
    }

    method Next()
      requires Good() && Valid()
      modifies this
      ensures Good() && pos == old(pos) + 1
    {
      pos := pos + 1;
    }

    method Prev()
      requires Good() && Valid()
      modifies this
      ensures Good() && pos == if old(pos) == 0 then |entries| else old(pos) - 1
    {
      pos := if pos == 0 then |entries| else pos - 1;
    }
  }
}
