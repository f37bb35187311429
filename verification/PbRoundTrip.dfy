/**
 What decoding does, record by record, and the theorem that decoding an encoded message gives it back with
 absent fields at their defaults, exactly when every string it holds is terminated.
 */
module PbRoundTrip {
  import opened ByteStrings
  import opened PbMessage
  import opened PbFieldIter

  const MAX_REQUIRED_FIELDS: nat := 64

  // What is under decoding: the message, the last fixed-count array met (-1 for none) with the number of
  // items it has received, and the required fields seen.
  datatype State = State(dest: seq<Slot>, fixedField: int, fixedSize: nat, seen: set<nat>)

  // pb_field_set_to_default.
  function DefaultSlot(f: Field): Slot
    decreases f
  {
    match f.rule
    case Required => One(DefaultValue(f))
    case Singular => One(DefaultValue(f))
    case Optional => Maybe(false, DefaultValue(f))
    case Repeated(_) => Many([])
    case FixedCount(_) => Many([])
    case OneOf => Choice(0, Number(0))
  }

  function DefaultValue(f: Field): Value
    decreases f, 0
  {
    if f.kind.Submessage? then Message(Defaults(f.kind.desc)) else f.init
  }

  // pb_message_set_to_defaults, for the fields from number i on.
  function SetDefaults(d: Descriptor, m: seq<Slot>, i: nat): (r: seq<Slot>)
    ensures |r| == |m|
    decreases d, |d.fields| - i
  {
    if i >= |d.fields| then m
    else
      var f := d.fields[i];
      SetDefaults(d, if f.slot < |m| then m[f.slot := DefaultSlot(f)] else m, i + 1)
  }

  function Blank(n: nat): (m: seq<Slot>)
    ensures |m| == n
  {
    seq(n, _ => One(Number(0)))
  }

  function Defaults(d: Descriptor): (r: seq<Slot>)
    ensures |r| == d.slots
    decreases d, |d.fields| + 1
  {
    SetDefaults(d, Blank(d.slots), 0)
  }

  function Start(dest: seq<Slot>): State {
    State(dest, -1, 0, {})
  }

  // A value found on the wire, decoded over what the struct holds.
  function PutValue(k: Kind, prev: Value, v: Value): Result<Value>
    decreases k, 0
  {
    match k
    case StringKind(size) => if v.Blob? && |v.bytes| < size then Ok(v) else Fail
    case BytesKind(capacity) => if v.Blob? && |v.bytes| <= capacity then Ok(v) else Fail
    case Submessage(desc) =>
      if v.Message? && prev.Message? then
        match PutRecords(desc, Start(prev.slots), Records(desc, v.slots, 0))
        case Ok(st) => if Complete(desc, st) then Ok(Message(st.dest)) else Fail
        case Fail => Fail
      else Fail
    case _ => Ok(v)
  }

  // A new array item or union member starts from its defaults.
  function Initial(k: Kind): Value {
    if k.Submessage? then Message(Defaults(k.desc)) else Number(0)
  }

  function PutItems(k: Kind, max: nat, have: seq<Value>, items: seq<Value>): Result<seq<Value>>
    decreases k, |items|
  {
    if items == [] then Ok(have)
    else if |have| >= max then Fail
    else
      match PutValue(k, Initial(k), items[0])
      case Ok(v) => PutItems(k, max, have + [v], items[1..])
      case Fail => Fail
  }

  function PutRecord(d: Descriptor, st: State, r: Rec): Result<State>
    decreases d, 0
  {
    if r.field >= |d.fields| || r.items == [] || d.fields[r.field].slot >= |st.dest| then Fail
    else
      var f := d.fields[r.field];
      match (f.rule, st.dest[f.slot])
      case (Required, One(prev)) =>
        Into(PutValue(f.kind, prev, r.items[0]), v =>
          st.(dest := st.dest[f.slot := One(v)], seen := st.seen + {r.field}))
      case (Singular, One(prev)) =>
        Into(PutValue(f.kind, prev, r.items[0]), v => st.(dest := st.dest[f.slot := One(v)]))
      case (Optional, Maybe(_, prev)) =>
        Into(PutValue(f.kind, prev, r.items[0]), v => st.(dest := st.dest[f.slot := Maybe(true, v)]))
      case (Repeated(max), Many(have)) =>
        Into(PutItems(f.kind, max, have, r.items), vs => st.(dest := st.dest[f.slot := Many(vs)]))
      case (FixedCount(max), Many(have)) =>
        if st.fixedField != r.field && !FixedDone(d, st) then Fail
        else
          Into(PutItems(f.kind, max, if st.fixedField == r.field then have else [], r.items), vs =>
            st.(dest := st.dest[f.slot := Many(vs)], fixedField := r.field, fixedSize := |vs|))
      case (OneOf, Choice(which, prev)) =>
        Into(PutValue(f.kind, if which == f.tag then prev else Initial(f.kind), r.items[0]), v =>
          st.(dest := st.dest[f.slot := Choice(f.tag, v)]))
      case _ => Fail
  }

  function Into<T, U>(r: Result<T>, f: T -> U): Result<U> {
    match r
    case Ok(v) => Ok(f(v))
    case Fail => Fail
  }

  function PutRecords(d: Descriptor, st: State, recs: seq<Rec>): Result<State>
    decreases d, |recs|
  {
    if recs == [] then Ok(st)
    else
      match PutRecord(d, st, recs[0])
      case Ok(st') => PutRecords(d, st', recs[1..])
      case Fail => Fail
  }

  // The fixed-count array met last has all its items.
  predicate FixedDone(d: Descriptor, st: State) {
    0 <= st.fixedField < |d.fields| && IsRepeated(d.fields[st.fixedField].rule) ==>
      st.fixedSize == d.fields[st.fixedField].rule.max
  }

  // The decoder keeps track of the first 64 required fields.
  predicate RequiredSeen(d: Descriptor, seen: set<nat>) {
    forall i :: 0 <= i < |d.fields| && d.fields[i].rule.Required? && RequiredBefore(d, i) < MAX_REQUIRED_FIELDS ==>
      i in seen
  }

  // What pb_decode_noinit checks at the end.
  predicate Complete(d: Descriptor, st: State) {
    FixedDone(d, st) && RequiredSeen(d, st.seen)
  }

  // The strings that are present leave room for their terminator.
  ghost predicate Terminated(d: Descriptor, m: seq<Slot>)
    decreases d
  {
    forall i :: 0 <= i < |d.fields| && d.fields[i].slot < |m| ==> TerminatedSlot(d.fields[i], m[d.fields[i].slot])
  }

  ghost predicate TerminatedSlot(f: Field, s: Slot)
    decreases f
  {
    match s
    case One(v) => (f.rule.Singular? && IsZero(f, s)) || TerminatedValue(f.kind, v)
    case Maybe(has, v) => has ==> TerminatedValue(f.kind, v)
    case Many(items) => forall j :: 0 <= j < |items| ==> TerminatedValue(f.kind, items[j])
    case Choice(which, v) => which == f.tag ==> TerminatedValue(f.kind, v)
  }

  ghost predicate TerminatedValue(k: Kind, v: Value)
    decreases k
  {
    match k
    case StringKind(size) => v.Blob? && |v.bytes| < size
    case Submessage(desc) => v.Message? && Terminated(desc, v.slots)
    case _ => true
  }

  // r is m with everything absent at its default.
  ghost predicate Restored(d: Descriptor, m: seq<Slot>, r: seq<Slot>)
    decreases d
  {
    && |r| == |m|
    && forall i :: 0 <= i < |d.fields| ==>
         d.fields[i].slot < |m| && RestoredSlot(d.fields[i], m[d.fields[i].slot], r[d.fields[i].slot])
  }

  ghost predicate RestoredSlot(f: Field, s: Slot, r: Slot)
    decreases f
  {
    match s
    case One(v) =>
      if f.rule.Singular? && IsZero(f, s) then r == DefaultSlot(f)
      else r.One? && RestoredValue(f.kind, v, r.value)
    case Maybe(has, v) =>
      if has then r.Maybe? && r.has && RestoredValue(f.kind, v, r.value) else r == DefaultSlot(f)
    case Many(items) =>
      r.Many? && |r.items| == |items| && forall j :: 0 <= j < |items| ==> RestoredValue(f.kind, items[j], r.items[j])
    case Choice(which, v) =>
      r.Choice? &&
      if which == f.tag then r.which == which && RestoredValue(f.kind, v, r.value) else r.which != f.tag
  }

  ghost predicate RestoredValue(k: Kind, v: Value, r: Value)
    decreases k
  {
    if k.Submessage? then v.Message? && r.Message? && Restored(k.desc, v.slots, r.slots) else r == v
  }

  lemma {:induction false} SetDefaultsAt(d: Descriptor, m: seq<Slot>, i: nat, s: nat)
    requires s < |m|
    ensures var r := SetDefaults(d, m, i);
            r[s] == m[s] ||
            exists k :: i <= k < |d.fields| && d.fields[k].slot == s && r[s] == DefaultSlot(d.fields[k])
    ensures var r := SetDefaults(d, m, i);
            (exists k :: i <= k < |d.fields| && d.fields[k].slot == s) ==>
            exists k :: i <= k < |d.fields| && d.fields[k].slot == s && r[s] == DefaultSlot(d.fields[k])
    decreases |d.fields| - i
  {
    hide DefaultSlot;
    if i < |d.fields| {
      var f := d.fields[i];
      SetDefaultsAt(d, if f.slot < |m| then m[f.slot := DefaultSlot(f)] else m, i + 1, s);
    }
  }

  // Setting defaults puts every field at its default, whatever the struct held.
  lemma {:induction false} SetDefaultsAll(d: Descriptor, m: seq<Slot>, i: nat)
    requires WellFormed(d) && |m| == d.slots && i < |d.fields|
    ensures SetDefaults(d, m, 0)[d.fields[i].slot] == DefaultSlot(d.fields[i])
  {
    hide SetDefaults, WellFormedField;
    SetDefaultsAt(d, m, 0, d.fields[i].slot);
  }

  lemma {:induction false} PutRecordsAppend(d: Descriptor, st: State, a: seq<Rec>, b: seq<Rec>)
    ensures PutRecords(d, st, a + b) ==
            match PutRecords(d, st, a)
            case Ok(st') => PutRecords(d, st', b)
            case Fail => Fail
    decreases |a|
  {
    hide PutRecord;
    if a == [] {
      assert a + b == b;
    } else {
      assert (a + b)[0] == a[0] && (a + b)[1..] == a[1..] + b;
      match PutRecord(d, st, a[0])
      case Ok(st') => PutRecordsAppend(d, st', a[1..], b);
      case Fail =>
    }
  }

  lemma PutValueFromAnything(k: Kind, p: Value, q: Value, v: Value)
    requires !k.Submessage?
    ensures PutValue(k, p, v) == PutValue(k, q, v)
  {
  }

  lemma {:induction false} ValueBack(k: Kind, v: Value)
    requires WellFormedKind(k) && Typed(k, v, true) && EncodableValue(k, v)
    ensures var r := PutValue(k, Initial(k), v);
            && (r.Ok? <==> TerminatedValue(k, v))
            && (r.Ok? ==> RestoredValue(k, v, r.value))
    decreases k, 0
  {
    hide WellFormed, TypedMessage, Encodable, Terminated, Restored, PutRecords, Complete, Defaults, Records;
    if k.Submessage? {
      MessageBack(k.desc, v.slots);
    }
  }

  lemma {:induction false} ItemsBack(k: Kind, max: nat, have: seq<Value>, items: seq<Value>)
    requires WellFormedKind(k) && |have| + |items| <= max
    requires forall j :: 0 <= j < |items| ==> Typed(k, items[j], true) && EncodableValue(k, items[j])
    ensures var r := PutItems(k, max, have, items);
            && (r.Ok? <==> forall j :: 0 <= j < |items| ==> TerminatedValue(k, items[j]))
            && (r.Ok? ==>
                && |r.value| == |have| + |items|
                && (forall j :: 0 <= j < |have| ==> r.value[j] == have[j])
                && forall j :: 0 <= j < |items| ==> RestoredValue(k, items[j], r.value[|have| + j]))
    decreases k, |items|
  {
    hide WellFormedKind, Typed, EncodableValue, TerminatedValue, RestoredValue, PutValue, Initial;
    if items != [] {
      ValueBack(k, items[0]);
      match PutValue(k, Initial(k), items[0])
      case Fail =>
      case Ok(v) =>
        var rest := items[1..];
        ItemsBack(k, max, have + [v], rest);
        var r := PutItems(k, max, have, items);
        if r.Ok? {
          forall j | 0 <= j < |items|
            ensures TerminatedValue(k, items[j]) && RestoredValue(k, items[j], r.value[|have| + j])
          {
            if j > 0 {
              assert items[j] == rest[j - 1];
              assert r.value[|have| + j] == r.value[|have + [v]| + (j - 1)];
            } else {
              assert r.value[|have|] == (have + [v])[|have|];
            }
          }
          forall j | 0 <= j < |have| ensures r.value[j] == have[j] {
            assert r.value[j] == (have + [v])[j];
          }
        }
    }
  }

  // The state once array field i holds the items vs.
  function ArrayState(d: Descriptor, st: State, i: nat, vs: seq<Value>): State
    requires i < |d.fields| && d.fields[i].slot < |st.dest|
  {
    var dest := st.dest[d.fields[i].slot := Many(vs)];
    if d.fields[i].rule.FixedCount? then st.(dest := dest, fixedField := i, fixedSize := |vs|)
    else st.(dest := dest)
  }

  ghost predicate ArrayReady(d: Descriptor, st: State, i: nat, have: seq<Value>) {
    && i < |d.fields| && IsRepeated(d.fields[i].rule) && d.fields[i].slot < |st.dest|
    && st.dest[d.fields[i].slot] == Many(have)
    && (d.fields[i].rule.FixedCount? ==> st.fixedField == i || (FixedDone(d, st) && have == []))
  }

  function Arrived(d: Descriptor, st: State, i: nat, r: Result<seq<Value>>): Result<State>
    requires i < |d.fields| && d.fields[i].slot < |st.dest|
  {
    match r
    case Ok(vs) => Ok(ArrayState(d, st, i, vs))
    case Fail => Fail
  }

  lemma ArrayPut(d: Descriptor, st: State, i: nat, have: seq<Value>, items: seq<Value>, packed: bool)
    requires ArrayReady(d, st, i, have) && items != []
    ensures PutRecord(d, st, Rec(i, items, packed)) ==
            Arrived(d, st, i, PutItems(d.fields[i].kind, d.fields[i].rule.max, have, items))
  {
    hide FixedDone, PutItems;
  }

  lemma PutItemsStep(k: Kind, max: nat, have: seq<Value>, items: seq<Value>)
    requires items != []
    ensures PutItems(k, max, have, items) ==
            match PutItems(k, max, have, [items[0]])
            case Ok(vs) => PutItems(k, max, vs, items[1..])
            case Fail => Fail
  {
    hide PutValue;
    assert [items[0]][1..] == [];
  }

  // Items that come one by one end up where a packed array puts them.
  lemma {:induction false} SinglesPut(d: Descriptor, st: State, i: nat, have: seq<Value>, items: seq<Value>)
    requires ArrayReady(d, st, i, have) && items != []
    ensures PutRecords(d, st, Singles(i, items)) ==
            Arrived(d, st, i, PutItems(d.fields[i].kind, d.fields[i].rule.max, have, items))
    decreases |items|
  {
    hide PutValue, PutRecord, FixedDone;
    var f := d.fields[i];
    var recs := Singles(i, items);
    ArrayPut(d, st, i, have, [items[0]], false);
    assert recs[0] == Rec(i, [items[0]], false) && recs[1..] == Singles(i, items[1..]);
    PutItemsStep(f.kind, f.rule.max, have, items);
    var first := PutItems(f.kind, f.rule.max, have, [items[0]]);
    if first.Ok? && |items| > 1 {
      var st' := ArrayState(d, st, i, first.value);
      SinglesPut(d, st', i, first.value, items[1..]);
      assert forall vs :: st'.dest[f.slot := Many(vs)] == st.dest[f.slot := Many(vs)];
    } else if |items| == 1 {
      assert items == [items[0]];
    }
  }

  ghost predicate Untouched(a: seq<Slot>, b: seq<Slot>, slot: nat) {
    |a| == |b| && forall t :: 0 <= t < |a| && t != slot ==> a[t] == b[t]
  }

  // Between the fields of an encoded message.
  ghost predicate Between(d: Descriptor, st: State, i: nat) {
    FixedDone(d, st) && st.fixedField < i
  }

  // The records of one field put the field back.
  ghost predicate FieldIsBack(d: Descriptor, st: State, i: nat, s: Slot, r: Result<State>)
    requires i < |d.fields| && d.fields[i].slot < |st.dest|
  {
    var f := d.fields[i];
    && (r.Ok? <==> TerminatedSlot(f, s))
    && (r.Ok? ==>
        && Untouched(st.dest, r.value.dest, f.slot)
        && RestoredSlot(f, s, r.value.dest[f.slot])
        && (f.rule.OneOf? && s.Choice? && s.which != f.tag ==> r.value.dest[f.slot] == st.dest[f.slot])
        && (f.rule.OneOf? && s.Choice? && s.which == f.tag ==> r.value.dest[f.slot].Choice?)
        && Between(d, r.value, i + 1)
        && st.seen <= r.value.seen && (f.rule.Required? ==> i in r.value.seen))
  }

  lemma {:induction false} ArrayBack(d: Descriptor, st: State, i: nat, items: seq<Value>)
    requires i < |d.fields| && d.fields[i].slot < |st.dest| && IsRepeated(d.fields[i].rule)
    requires WellFormedField(d.fields[i]) && TypedSlot(d.fields[i], Many(items), true)
    requires EncodableSlot(d.fields[i], Many(items)) && Between(d, st, i)
    requires st.dest[d.fields[i].slot] == Many([])
    ensures FieldIsBack(d, st, i, Many(items), PutRecords(d, st, FieldRecords(i, d.fields[i], Many(items))))
    decreases d.fields[i], 1
  {
    hide WellFormedKind, Typed, EncodableValue, TerminatedValue, RestoredValue, PutItems, PutRecord;
    var f := d.fields[i];
    if items != [] {
      ItemsBack(f.kind, f.rule.max, [], items);
      if Packable(f.kind) {
        ArrayPut(d, st, i, [], items, true);
        OneRecord(d, st, Rec(i, items, true));
      } else {
        SinglesPut(d, st, i, [], items);
      }
    }
  }

  lemma OneRecord(d: Descriptor, st: State, r: Rec)
    ensures PutRecords(d, st, [r]) == PutRecord(d, st, r)
  {
    hide PutRecord;
    assert [r][1..] == [];
  }

  lemma {:induction false} FieldBack(d: Descriptor, st: State, i: nat, s: Slot)
    requires i < |d.fields| && d.fields[i].slot < |st.dest|
    requires WellFormedField(d.fields[i]) && TypedSlot(d.fields[i], s, true)
    requires EncodableSlot(d.fields[i], s) && Between(d, st, i)
    requires (d.fields[i].rule.OneOf? ==> s.which == d.fields[i].tag) ==>
      st.dest[d.fields[i].slot] == DefaultSlot(d.fields[i])
    requires d.fields[i].rule.OneOf? && s.which != d.fields[i].tag ==>
      st.dest[d.fields[i].slot].Choice? && st.dest[d.fields[i].slot].which != d.fields[i].tag
    ensures FieldIsBack(d, st, i, s, PutRecords(d, st, FieldRecords(i, d.fields[i], s)))
    decreases d.fields[i], 2
  {
    hide WellFormedKind, Typed, EncodableValue, TerminatedValue, RestoredValue, PutItems, PutValue, IsZero, Defaults;
    var f := d.fields[i];
    if IsRepeated(f.rule) {
      ArrayBack(d, st, i, s.items);
    } else {
      var recs := FieldRecords(i, f, s);
      if recs != [] {
        ValueBack(f.kind, s.value);
        if !f.kind.Submessage? {
          PutValueFromAnything(f.kind, f.init, Initial(f.kind), s.value);
        }
        assert recs == [recs[0]];
        OneRecord(d, st, recs[0]);
      }
    }
  }

  // The fields before number i are back; the others are still at their defaults.
  ghost predicate Halfway(d: Descriptor, m: seq<Slot>, st: State, i: nat)
    requires i <= |d.fields|
  {
    && |st.dest| == |m| == d.slots
    && (forall j :: 0 <= j < |d.fields| ==> d.fields[j].slot < |m|)
    && Between(d, st, i)
    && (forall j :: 0 <= j < i ==>
          RestoredSlot(d.fields[j], m[d.fields[j].slot], st.dest[d.fields[j].slot])
          && (d.fields[j].rule.Required? ==> j in st.seen))
    && (forall j :: i <= j < |d.fields| && !Unset(d.fields[j], m[d.fields[j].slot]) ==>
          st.dest[d.fields[j].slot] == DefaultSlot(d.fields[j]))
    && (forall j :: 0 <= j < |d.fields| && d.fields[j].rule.OneOf? ==>
          UnionAgrees(m[d.fields[j].slot], st.dest[d.fields[j].slot]))
  }

  // A union member that is not the one the union holds.
  predicate Unset(f: Field, s: Slot) {
    f.rule.OneOf? && s.Choice? && s.which != f.tag
  }

  predicate UnionAgrees(s: Slot, r: Slot) {
    s.Choice? && r.Choice? && r.which in {0, s.which}
  }

  lemma {:induction false} HalfwayStep(d: Descriptor, m: seq<Slot>, st: State, i: nat, st': State)
    requires WellFormed(d) && TypedMessage(d, m, true) && i < |d.fields| && Halfway(d, m, st, i)
    requires FieldIsBack(d, st, i, m[d.fields[i].slot], Ok(st'))
    ensures Halfway(d, m, st', i + 1)
  {
    hide Typed, TerminatedSlot, DefaultValue, WellFormedKind, RestoredValue, IsZero, FixedDone;
    var f := d.fields[i];
    assert TypedSlot(f, m[f.slot], true);
    forall j | 0 <= j < |d.fields|
      ensures j <= i ==>
        RestoredSlot(d.fields[j], m[d.fields[j].slot], st'.dest[d.fields[j].slot])
        && (d.fields[j].rule.Required? ==> j in st'.seen)
      ensures i < j && !Unset(d.fields[j], m[d.fields[j].slot]) ==>
        st'.dest[d.fields[j].slot] == DefaultSlot(d.fields[j])
      ensures d.fields[j].rule.OneOf? ==> UnionAgrees(m[d.fields[j].slot], st'.dest[d.fields[j].slot])
    {
      var g := d.fields[j];
      assert TypedSlot(g, m[g.slot], true);
      if j != i && g.slot == f.slot {
        assert g.tag != f.tag && f.rule.OneOf? && g.rule.OneOf?;
      }
    }
  }

  lemma {:induction false} FieldsBack(d: Descriptor, m: seq<Slot>, st: State, i: nat)
    requires WellFormed(d) && TypedMessage(d, m, true) && Encodable(d, m) && i <= |d.fields|
    requires Halfway(d, m, st, i)
    ensures var r := PutRecords(d, st, Records(d, m, i));
            && (r.Ok? <==> forall j :: i <= j < |d.fields| ==> TerminatedSlot(d.fields[j], m[d.fields[j].slot]))
            && (r.Ok? ==> Halfway(d, m, r.value, |d.fields|))
    decreases d, |d.fields| - i
  {
    hide TypedSlot, EncodableSlot, TerminatedSlot, FieldRecords, PutRecord, DefaultSlot, FixedDone, WellFormedField;
    if i < |d.fields| {
      var f := d.fields[i];
      var s := m[f.slot];
      FieldReady(d, m, st, i);
      var recs := FieldRecords(i, f, s);
      FieldBack(d, st, i, s);
      PutRecordsAppend(d, st, recs, Records(d, m, i + 1));
      match PutRecords(d, st, recs)
      case Fail =>
      case Ok(st') =>
        HalfwayStep(d, m, st, i, st');
        FieldsBack(d, m, st', i + 1);
    }
  }

  lemma FieldReady(d: Descriptor, m: seq<Slot>, st: State, i: nat)
    requires WellFormed(d) && TypedMessage(d, m, true) && Encodable(d, m) && i < |d.fields|
    requires Halfway(d, m, st, i)
    ensures var f := d.fields[i];
            && f.slot < |st.dest| == |m| && WellFormedField(f) && TypedSlot(f, m[f.slot], true)
            && EncodableSlot(f, m[f.slot]) && Between(d, st, i)
            && ((f.rule.OneOf? ==> m[f.slot].which == f.tag) ==> st.dest[f.slot] == DefaultSlot(f))
            && (f.rule.OneOf? && m[f.slot].which != f.tag ==>
                st.dest[f.slot].Choice? && st.dest[f.slot].which != f.tag)
  {
    hide Typed, WellFormedKind, EncodableValue, DefaultValue, FixedDone, RestoredSlot;
  }

  // At the start all fields are at their defaults.
  lemma HalfwayAtStart(d: Descriptor, m: seq<Slot>)
    requires WellFormed(d) && TypedMessage(d, m, true)
    ensures Halfway(d, m, Start(Defaults(d)), 0)
  {
    hide SetDefaults, Typed, WellFormedField, DefaultValue;
    forall j | 0 <= j < |d.fields| ensures Defaults(d)[d.fields[j].slot] == DefaultSlot(d.fields[j]) {
      SetDefaultsAll(d, Blank(d.slots), j);
    }
    forall j | 0 <= j < |d.fields| ensures d.fields[j].rule.OneOf? ==> m[d.fields[j].slot].Choice? {
      assert TypedSlot(d.fields[j], m[d.fields[j].slot], true);
    }
  }

  /** Decoding the records of an encoded message into a struct at its defaults succeeds exactly when the strings
   it holds are terminated, and gives back the message with absent fields at their defaults. */
  lemma {:induction false} MessageBack(d: Descriptor, m: seq<Slot>)
    requires WellFormed(d) && TypedMessage(d, m, true) && Encodable(d, m)
    ensures var r := PutRecords(d, Start(Defaults(d)), Records(d, m, 0));
            && (r.Ok? && Complete(d, r.value) <==> Terminated(d, m))
            && (Terminated(d, m) ==> Restored(d, m, r.value.dest))
    decreases d, |d.fields| + 2
  {
    hide WellFormed, TypedSlot, Encodable, TerminatedSlot, RestoredSlot, PutRecords, Records, DefaultSlot, Defaults;
    HalfwayAtStart(d, m);
    FieldsBack(d, m, Start(Defaults(d)), 0);
  }
}
