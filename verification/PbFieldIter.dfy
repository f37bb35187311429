/**
 The field iterator of nanopb's pb_common.c, which wraps round at the end of a descriptor.
 */
module PbFieldIter {
  import opened PbMessage

  // How many of the first n fields are required.
  function RequiredBefore(d: Descriptor, n: nat): (count: nat)
    requires n <= |d.fields|
    ensures count <= n
  {
    if n == 0 then 0 else RequiredBefore(d, n - 1) + if d.fields[n - 1].rule.Required? then 1 else 0
  }

  lemma {:induction false} RequiredBeforeGrows(d: Descriptor, i: nat, n: nat)
    requires i < n <= |d.fields|
    ensures RequiredBefore(d, i) + (if d.fields[i].rule.Required? then 1 else 0) <= RequiredBefore(d, n)
  {
    if i + 1 < n {
      RequiredBeforeGrows(d, i, n - 1);
    }
  }

  class FieldIter {
    const d: Descriptor
    var pos: nat
    var requiredFieldIndex: nat

    // A descriptor without fields consists of its terminator, where the iterator stays.
    ghost predicate Valid()
      reads this
    {
      && (pos < |d.fields| || pos == |d.fields| == 0)
      && requiredFieldIndex == RequiredBefore(d, pos)
    }

    constructor (d: Descriptor)
      ensures Valid() && pos == 0 && this.d == d
    {
      this.d := d;
      pos, requiredFieldIndex := 0, 0;
    }

    method Begin() returns (more: bool)
      modifies this
      ensures Valid() && pos == 0 && more == (|d.fields| > 0)
    {
      pos, requiredFieldIndex := 0, 0;
      more := |d.fields| > 0;
    }

    method Next() returns (more: bool)
      requires Valid()
      modifies this
      ensures Valid()
      ensures more == (old(pos) + 1 < |d.fields|)
      ensures pos == if more then old(pos) + 1 else 0
    {
      var prev := pos;
      if |d.fields| == 0 {
        return false;
      }
      pos := pos + 1;
      if pos == |d.fields| {
        var _ := Begin();
        return false;
      }
      if d.fields[prev].rule.OneOf? && d.fields[pos].rule.OneOf? && d.fields[prev].slot == d.fields[pos].slot {
        return true;
      }
      if d.fields[prev].rule.Required? {
        requiredFieldIndex := requiredFieldIndex + 1;
      }
      return true;
    }

    // Searches from the current field round to it again.
    method Find(tag: nat) returns (found: bool)
      requires Valid()
      modifies this
      ensures Valid()
      ensures found <==> exists i :: 0 <= i < |d.fields| && d.fields[i].tag == tag
      ensures if found then pos < |d.fields| && d.fields[pos].tag == tag else pos == old(pos)
    {
      var start := pos;
      if |d.fields| == 0 {
        return false;
      }
      var more := true;
      ghost var wrapped := false;
      while more
        invariant Valid() && pos < |d.fields|
        invariant more && !wrapped ==> start <= pos && forall i :: start <= i < pos ==> d.fields[i].tag != tag
        invariant more && wrapped ==>
          pos < start && forall i :: 0 <= i < pos || start <= i < |d.fields| ==> d.fields[i].tag != tag
        invariant !more ==> pos == start && forall i :: 0 <= i < |d.fields| ==> d.fields[i].tag != tag
        decreases more, if wrapped then start - pos else |d.fields| - pos + start
      {
        if d.fields[pos].tag == tag {
          return true;
        }
        var advanced := Next();
        wrapped := wrapped || !advanced;
        more := pos != start;
      }
      return false;
    }
  }
}
