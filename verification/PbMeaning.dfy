/**
 What storing records one after the other comes to: the last value of a field counts, arrays grow, and a member of a
 union takes the place of the others.
 */
module PbMeaning {
  import opened ByteStrings
  import opened PbMessage
  import opened PbRoundTrip

  // The value of the last record of field i, if there is one.
  function LastOf(recs: seq<Rec>, i: nat): Result<Value> {
    if recs == [] then Fail
    else
      match LastOf(recs[1..], i)
      case Ok(v) => Ok(v)
      case Fail => if recs[0].field == i && recs[0].items != [] then Ok(recs[0].items[0]) else Fail
  }

  // The items of all records of field i, in order.
  function ItemsOf(recs: seq<Rec>, i: nat): seq<Value> {
    if recs == [] then []
    else (if recs[0].field == i then recs[0].items else []) + ItemsOf(recs[1..], i)
  }

  // No other field shares the slot.
  ghost predicate Alone(d: Descriptor, i: nat)
    requires i < |d.fields|
  {
    forall j | 0 <= j < |d.fields| && j != i :: d.fields[j].slot != d.fields[i].slot
  }

  // A record changes the slot of its field only.
  lemma OtherSlotsStay(d: Descriptor, st: State, r: Rec, s: nat)
    requires PutRecord(d, st, r).Ok? && s < |st.dest| && (r.field < |d.fields| ==> d.fields[r.field].slot != s)
    ensures var st' := PutRecord(d, st, r).value; |st'.dest| == |st.dest| && st'.dest[s] == st.dest[s]
  {
    hide PutValue, PutItems;
  }

  // A value that is no message replaces what was there.
  lemma ValueReplaces(k: Kind, prev: Value, v: Value)
    requires !k.Submessage?
    ensures PutValue(k, prev, v).Ok? ==> PutValue(k, prev, v).value == v
  {
  }

  lemma {:induction false} ItemsAreAdded(k: Kind, max: nat, have: seq<Value>, items: seq<Value>)
    requires !k.Submessage?
    ensures var r := PutItems(k, max, have, items);
            r.Ok? ==> r.value == have + items && (|have| <= max ==> |r.value| <= max)
    decreases |items|
  {
    hide PutValue;
    if items != [] && |have| < max {
      ValueReplaces(k, Initial(k), items[0]);
      ItemsAreAdded(k, max, have + [items[0]], items[1..]);
      assert have + [items[0]] + items[1..] == have + items;
    } else if items == [] {
      assert have + [] == have;
    }
  }

  // What one record does to its field.
  lemma RecordSets(d: Descriptor, st: State, r: Rec)
    requires r.field < |d.fields| && d.fields[r.field].slot < |st.dest| && !d.fields[r.field].kind.Submessage?
    requires PutRecord(d, st, r).Ok?
    ensures r.items != []
    ensures var f, v := d.fields[r.field], r.items[0];
            var now := PutRecord(d, st, r).value.dest;
            && |now| == |st.dest|
            && (f.rule.Required? || f.rule.Singular? ==> now[f.slot] == One(v))
            && (f.rule.Optional? ==> now[f.slot] == Maybe(true, v))
            && (f.rule.OneOf? ==> now[f.slot] == Choice(f.tag, v))
            && (f.rule.Repeated? ==>
                  st.dest[f.slot].Many? && now[f.slot] == Many(st.dest[f.slot].items + r.items))
  {
    hide PutValue, PutItems;
    var f := d.fields[r.field];
    var s := st.dest[f.slot];
    if s.One? || s.Maybe? || s.Choice? {
      ValueReplaces(f.kind, s.value, r.items[0]);
      ValueReplaces(f.kind, Initial(f.kind), r.items[0]);
    } else if f.rule.Repeated? {
      ItemsAreAdded(f.kind, f.rule.max, s.items, r.items);
    }
  }

  // After all records a single value is that of the last of them for its field, or what was there.
  lemma {:induction false} LastValueCounts(d: Descriptor, st: State, recs: seq<Rec>, i: nat)
    requires i < |d.fields| && Alone(d, i) && d.fields[i].slot < |st.dest| && !d.fields[i].kind.Submessage?
    requires PutRecords(d, st, recs).Ok?
    ensures var f, now := d.fields[i], PutRecords(d, st, recs).value.dest;
            && |now| == |st.dest|
            && (f.rule.Required? || f.rule.Singular? ==>
                  now[f.slot] == match LastOf(recs, i) case Ok(v) => One(v) case Fail => st.dest[f.slot])
            && (f.rule.Optional? ==>
                  now[f.slot] == match LastOf(recs, i) case Ok(v) => Maybe(true, v) case Fail => st.dest[f.slot])
    decreases |recs|
  {
    hide PutRecord;
    if recs != [] {
      var st' := PutRecord(d, st, recs[0]).value;
      RecordIn(d, st, recs[0], i);
      LastValueCounts(d, st', recs[1..], i);
    }
  }

  lemma RecordIn(d: Descriptor, st: State, r: Rec, i: nat)
    requires i < |d.fields| && Alone(d, i) && d.fields[i].slot < |st.dest| && !d.fields[i].kind.Submessage?
    requires PutRecord(d, st, r).Ok?
    ensures var f, now := d.fields[i], PutRecord(d, st, r).value.dest;
            && |now| == |st.dest|
            && (r.field != i ==> now[f.slot] == st.dest[f.slot])
            && (r.field == i ==>
                  && r.items != []
                  && (f.rule.Required? || f.rule.Singular? ==> now[f.slot] == One(r.items[0]))
                  && (f.rule.Optional? ==> now[f.slot] == Maybe(true, r.items[0]))
                  && (f.rule.Repeated? ==>
                        st.dest[f.slot].Many? && now[f.slot] == Many(st.dest[f.slot].items + r.items)))
  {
    hide PutRecord;
    if r.field == i {
      RecordSets(d, st, r);
    } else {
      OtherSlotsStay(d, st, r, d.fields[i].slot);
    }
  }

  // An array has what it had and then all items of its records in order, packed or not.
  lemma {:induction false} ArraysGrow(d: Descriptor, st: State, recs: seq<Rec>, i: nat)
    requires i < |d.fields| && Alone(d, i) && d.fields[i].slot < |st.dest| && !d.fields[i].kind.Submessage?
    requires d.fields[i].rule.Repeated? && st.dest[d.fields[i].slot].Many?
    requires PutRecords(d, st, recs).Ok?
    ensures var f, now := d.fields[i], PutRecords(d, st, recs).value.dest;
            |now| == |st.dest| && now[f.slot] == Many(st.dest[f.slot].items + ItemsOf(recs, i))
    decreases |recs|
  {
    hide PutRecord;
    var had := st.dest[d.fields[i].slot].items;
    if recs != [] {
      var r, rest := recs[0], ItemsOf(recs[1..], i);
      RecordIn(d, st, r, i);
      ArraysGrow(d, PutRecord(d, st, r).value, recs[1..], i);
      assert had + r.items + rest == had + (r.items + rest) && [] + rest == rest;
    } else {
      assert had + [] == had;
    }
  }

  // The last record among the members of a union that share slot s.
  function LastChoice(d: Descriptor, recs: seq<Rec>, s: nat): Result<(nat, Value)> {
    if recs == [] then Fail
    else
      match LastChoice(d, recs[1..], s)
      case Ok(c) => Ok(c)
      case Fail =>
        if recs[0].field < |d.fields| && d.fields[recs[0].field].slot == s && recs[0].items != [] then
          Ok((d.fields[recs[0].field].tag, recs[0].items[0]))
        else Fail
  }

  // A union holds the member of the last record for any of its members.
  lemma {:induction false} LastMemberCounts(d: Descriptor, st: State, recs: seq<Rec>, s: nat)
    requires s < |st.dest| && PutRecords(d, st, recs).Ok?
    requires forall i | 0 <= i < |d.fields| && d.fields[i].slot == s ::
               d.fields[i].rule.OneOf? && !d.fields[i].kind.Submessage?
    ensures var now := PutRecords(d, st, recs).value.dest;
            && |now| == |st.dest|
            && now[s] == match LastChoice(d, recs, s) case Ok(c) => Choice(c.0, c.1) case Fail => st.dest[s]
    decreases |recs|
  {
    hide PutRecord;
    if recs != [] {
      var r := recs[0];
      if r.field < |d.fields| && d.fields[r.field].slot == s {
        RecordSets(d, st, r);
      } else {
        OtherSlotsStay(d, st, r, s);
      }
      LastMemberCounts(d, PutRecord(d, st, r).value, recs[1..], s);
    }
  }

  // ---------------------------------------------------------------------------
  // What proto3 leaves out
  // ---------------------------------------------------------------------------

  // Unions are unset or hold one of their members, and arrays of fixed size have items.
  ghost predicate Plain(d: Descriptor, m: seq<Slot>) {
    && (forall i | 0 <= i < |d.fields| :: !d.fields[i].rule.FixedCount? || d.fields[i].rule.max > 0)
    && forall i | 0 <= i < |d.fields| && d.fields[i].rule.OneOf? ::
         d.fields[i].slot < |m| && m[d.fields[i].slot].Choice? && Chosen(d, d.fields[i].slot, m[d.fields[i].slot].which)
  }

  ghost predicate Chosen(d: Descriptor, s: nat, which: nat) {
    which == 0 || exists j :: 0 <= j < |d.fields| && d.fields[j].slot == s && d.fields[j].tag == which
  }

  lemma NoSingles(i: nat, items: seq<Value>)
    ensures Singles(i, items) == [] <==> items == []
  {
  }

  // A field without records is zero, unless another member of its union is set.
  lemma NoFieldRecords(i: nat, f: Field, s: Slot)
    requires TypedSlot(f, s, true) && WellFormedField(f)
    ensures IsZero(f, s) ==> FieldRecords(i, f, s) == []
    ensures FieldRecords(i, f, s) == [] && (f.rule.FixedCount? ==> f.rule.max > 0) ==>
              IsZero(f, s) || (f.rule.OneOf? && s.which != f.tag)
  {
    hide IsZeroValue, Typed, WellFormedKind;
    if s.Many? {
      NoSingles(i, s.items);
    }
  }

  lemma RecordsFrom(d: Descriptor, m: seq<Slot>, i: nat)
    requires i < |d.fields| && d.fields[i].slot < |m|
    ensures Records(d, m, i) == FieldRecords(i, d.fields[i], m[d.fields[i].slot]) + Records(d, m, i + 1)
  {
    hide FieldRecords;
  }

  lemma {:induction false} NoRecordsAt(d: Descriptor, m: seq<Slot>, i: nat, j: nat)
    requires i <= j < |d.fields| && (forall k | 0 <= k < |d.fields| :: d.fields[k].slot < |m|)
    requires Records(d, m, i) == []
    ensures FieldRecords(j, d.fields[j], m[d.fields[j].slot]) == []
    decreases j - i
  {
    hide FieldRecords, Records;
    RecordsFrom(d, m, i);
    if i < j {
      NoRecordsAt(d, m, i + 1, j);
    }
  }

  lemma {:induction false} NoRecordsAtAll(d: Descriptor, m: seq<Slot>, i: nat)
    requires forall k | 0 <= k < |d.fields| :: d.fields[k].slot < |m|
    requires forall j | 0 <= j < |d.fields| :: FieldRecords(j, d.fields[j], m[d.fields[j].slot]) == []
    ensures Records(d, m, i) == []
    decreases |d.fields| - i
  {
    hide FieldRecords;
    if i < |d.fields| {
      NoRecordsAtAll(d, m, i + 1);
    }
  }

  // pb_check_proto3_default_value: a submessage without a has_ flag is left out if and only if it would be encoded as
  // nothing.
  lemma ZeroIsEmpty(d: Descriptor, m: seq<Slot>)
    requires WellFormed(d) && TypedMessage(d, m, true) && Plain(d, m)
    ensures IsZeroValue(Submessage(d), Message(m)) <==> Records(d, m, 0) == []
  {
    hide IsZero, FieldRecords, TypedSlot, WellFormedField, Chosen, Records;
    if Records(d, m, 0) == [] {
      forall i | 0 <= i < |d.fields|
        ensures IsZero(d.fields[i], m[d.fields[i].slot])
      {
        ZeroField(d, m, i);
      }
    } else {
      forall i | 0 <= i < |d.fields|
        ensures IsZero(d.fields[i], m[d.fields[i].slot]) ==> FieldRecords(i, d.fields[i], m[d.fields[i].slot]) == []
      {
        NoFieldRecords(i, d.fields[i], m[d.fields[i].slot]);
      }
      if forall i | 0 <= i < |d.fields| :: IsZero(d.fields[i], m[d.fields[i].slot]) {
        NoRecordsAtAll(d, m, 0);
      }
    }
  }

  lemma ZeroField(d: Descriptor, m: seq<Slot>, i: nat)
    requires WellFormed(d) && TypedMessage(d, m, true) && Plain(d, m) && i < |d.fields| && Records(d, m, 0) == []
    ensures IsZero(d.fields[i], m[d.fields[i].slot])
  {
    hide IsZero, FieldRecords, TypedSlot, WellFormedField, Chosen, Records;
    NoRecordsAt(d, m, 0, i);
    NoFieldRecords(i, d.fields[i], m[d.fields[i].slot]);
    if d.fields[i].rule.OneOf? {
      UnsetUnion(d, m, i);
    }
  }

  // No member of the union is set.
  lemma UnsetUnion(d: Descriptor, m: seq<Slot>, i: nat)
    requires TypedMessage(d, m, true) && Plain(d, m) && i < |d.fields| && d.fields[i].rule.OneOf?
    requires Records(d, m, 0) == []
    ensures IsZero(d.fields[i], m[d.fields[i].slot])
  {
    hide Typed, IsZeroValue, Records;
    var s := d.fields[i].slot;
    forall j | 0 <= j < |d.fields| && d.fields[j].slot == s
      ensures d.fields[j].tag != m[s].which
    {
      NoRecordsAt(d, m, 0, j);
    }
  }
}
