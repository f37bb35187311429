/**
 nanopb's descriptors (pb_field_t), the messages they describe, and what a message is on the wire.

 A C struct is a sequence of slots; a field names the slot that holds it, and the members of a union share
 one. Field values stand for the bytes of the struct; byte offsets inside it are not modelled.
 */
module PbMessage {
  import opened ByteStrings

  const TWO32: nat := 0x1_0000_0000
  const TWO64: nat := 0x1_0000_0000_0000_0000
  const SIZE_MAX: nat := 0xFFFF_FFFF
  const TAG_LIMIT: nat := 0x2000_0000

  const WT_VARINT: nat := 0
  const WT_64BIT: nat := 1
  const WT_STRING: nat := 2
  const WT_32BIT: nat := 5

  datatype Result<T> = Ok(value: T) | Fail

  // PB_LTYPE_*, with data_size where it matters.
  datatype Kind =
    | BoolKind
    | Varint(size: nat)
    | UVarint(size: nat)
    | SVarint(size: nat)
    | Fixed32
    | Fixed64
    | BytesKind(capacity: nat)
    | StringKind(size: nat)
    | Submessage(desc: Descriptor)
    | FixedBytes(size: nat)

  // PB_HTYPE_*; Singular is an optional field without a has_ flag, FixedCount a repeated one without a count.
  datatype Rule = Required | Optional | Singular | Repeated(max: nat) | FixedCount(max: nat) | OneOf

  datatype Field = Field(tag: nat, rule: Rule, kind: Kind, slot: nat, init: Value)

  datatype Descriptor = Descriptor(fields: seq<Field>, slots: nat)

  // A string is the characters before its terminator, or the whole buffer if it has none.
  datatype Value = Number(n: int) | Blob(bytes: Bytes) | Message(slots: seq<Slot>)

  datatype Slot =
    | One(value: Value)
    | Maybe(has: bool, value: Value)
    | Many(items: seq<Value>)
    | Choice(which: nat, value: Value)

  predicate Packable(k: Kind) {
    k.BoolKind? || k.Varint? || k.UVarint? || k.SVarint? || k.Fixed32? || k.Fixed64?
  }

  predicate IsRepeated(r: Rule) {
    r.Repeated? || r.FixedCount?
  }

  predicate IntegerSize(size: nat) {
    size in {1, 2, 4, 8}
  }

  ghost predicate WellFormed(d: Descriptor) {
    && (forall i :: 0 <= i < |d.fields| ==> WellFormedField(d.fields[i]) && d.fields[i].slot < d.slots)
    && (forall i, j :: 0 <= i < j < |d.fields| ==> d.fields[i].tag != d.fields[j].tag)
    && (forall i, j :: 0 <= i < j < |d.fields| && d.fields[i].slot == d.fields[j].slot ==>
          d.fields[i].rule.OneOf? && d.fields[j].rule.OneOf?)
    && (forall s :: 0 <= s < d.slots ==> Used(d, s))
  }

  ghost predicate Used(d: Descriptor, s: nat) {
    exists i :: 0 <= i < |d.fields| && d.fields[i].slot == s
  }

  ghost predicate WellFormedField(f: Field) {
    && 1 <= f.tag < TAG_LIMIT
    && WellFormedKind(f.kind)
    && (f.kind.Submessage? || Typed(f.kind, f.init, false))
    && (IsRepeated(f.rule) ==> f.rule.max <= SIZE_MAX)
  }

  ghost predicate WellFormedKind(k: Kind) {
    match k
    case Varint(size) => IntegerSize(size)
    case UVarint(size) => IntegerSize(size)
    case SVarint(size) => IntegerSize(size)
    case BytesKind(capacity) => capacity <= SIZE_MAX
    case StringKind(size) => 1 <= size <= SIZE_MAX
    case FixedBytes(size) => 1 <= size <= SIZE_MAX
    case Submessage(desc) => WellFormed(desc)
    case _ => true
  }

  // The values a C object of the kind can hold. In a whole message fixed-count arrays have all their items;
  // of a message being decoded they hold the items written so far.
  ghost predicate Typed(k: Kind, v: Value, whole: bool)
    decreases k
  {
    match k
    case BoolKind => v.Number? && 0 <= v.n <= 1
    case Varint(size) => v.Number? && FitsSigned(size, v.n)
    case UVarint(size) => v.Number? && FitsUnsigned(size, v.n)
    case SVarint(size) => v.Number? && FitsSigned(size, v.n)
    case Fixed32 => v.Number? && 0 <= v.n < TWO32
    case Fixed64 => v.Number? && 0 <= v.n < TWO64
    case BytesKind(_) => v.Blob? && |v.bytes| <= SIZE_MAX
    case StringKind(size) => v.Blob? && |v.bytes| <= size && 0 !in v.bytes
    case FixedBytes(size) => v.Blob? && |v.bytes| == size
    case Submessage(desc) => v.Message? && TypedMessage(desc, v.slots, whole)
  }

  predicate FitsSigned(size: nat, n: int) {
    if size == 1 then -0x80 <= n < 0x80
    else if size == 2 then -0x8000 <= n < 0x8000
    else if size == 4 then -0x8000_0000 <= n < 0x8000_0000
    else -0x8000_0000_0000_0000 <= n < 0x8000_0000_0000_0000
  }

  predicate FitsUnsigned(size: nat, n: int) {
    if size == 1 then 0 <= n < 0x100
    else if size == 2 then 0 <= n < 0x1_0000
    else if size == 4 then 0 <= n < TWO32
    else 0 <= n < TWO64
  }

  ghost predicate TypedMessage(d: Descriptor, m: seq<Slot>, whole: bool)
    decreases d
  {
    && |m| == d.slots
    && forall i :: 0 <= i < |d.fields| ==> d.fields[i].slot < |m| && TypedSlot(d.fields[i], m[d.fields[i].slot], whole)
  }

  ghost predicate TypedSlot(f: Field, s: Slot, whole: bool)
    decreases f
  {
    match f.rule
    case Required => s.One? && Typed(f.kind, s.value, whole)
    case Singular => s.One? && Typed(f.kind, s.value, whole)
    case Optional => s.Maybe? && Typed(f.kind, s.value, whole)
    case Repeated(_) =>
      && s.Many? && |s.items| <= SIZE_MAX
      && forall j :: 0 <= j < |s.items| ==> Typed(f.kind, s.items[j], whole)
    case FixedCount(max) =>
      && s.Many? && |s.items| <= max && (whole ==> |s.items| == max)
      && forall j :: 0 <= j < |s.items| ==> Typed(f.kind, s.items[j], whole)
    case OneOf => s.Choice? && (s.which == f.tag ==> Typed(f.kind, s.value, whole))
  }

  // pb_check_proto3_default_value.
  predicate IsZero(f: Field, s: Slot)
    decreases f
  {
    match f.rule
    case Required => false
    case Repeated(_) => !s.Many? || s.items == []
    case FixedCount(_) => false
    case OneOf => !s.Choice? || s.which == 0
    case Optional => !s.Maybe? || !s.has
    case Singular => s.One? && IsZeroValue(f.kind, s.value)
  }

  predicate IsZeroValue(k: Kind, v: Value)
    decreases k
  {
    match k
    case BytesKind(_) => v.Blob? && v.bytes == []
    case StringKind(_) => v.Blob? && v.bytes == []
    case FixedBytes(size) => size == 0
    case Submessage(desc) =>
      v.Message? &&
      forall i :: 0 <= i < |desc.fields| ==>
        desc.fields[i].slot < |v.slots| && IsZero(desc.fields[i], v.slots[desc.fields[i].slot])
    case _ => v.Number? && v.n == 0
  }

  // A unit the encoder emits: one field's tag with one value, or with a packed array of values.
  datatype Rec = Rec(field: nat, items: seq<Value>, packed: bool)

  function Singles(i: nat, items: seq<Value>): (recs: seq<Rec>)
    ensures |recs| == |items|
  {
    if items == [] then [] else [Rec(i, [items[0]], false)] + Singles(i, items[1..])
  }

  // What encode_basic_field emits for field number i.
  function FieldRecords(i: nat, f: Field, s: Slot): seq<Rec> {
    match s
    case One(v) => if f.rule.Singular? && IsZero(f, s) then [] else [Rec(i, [v], false)]
    case Maybe(has, v) => if has then [Rec(i, [v], false)] else []
    case Many(items) =>
      if items == [] then []
      else if Packable(f.kind) then [Rec(i, items, true)]
      else Singles(i, items)
    case Choice(which, v) => if which == f.tag then [Rec(i, [v], false)] else []
  }

  // The records of the fields from number i on.
  function Records(d: Descriptor, m: seq<Slot>, i: nat): seq<Rec>
    decreases |d.fields| - i
  {
    if i >= |d.fields| then []
    else
      var f := d.fields[i];
      (if f.slot < |m| then FieldRecords(i, f, m[f.slot]) else []) + Records(d, m, i + 1)
  }

  function WireType(k: Kind): nat {
    match k
    case Fixed32 => WT_32BIT
    case Fixed64 => WT_64BIT
    case BytesKind(_) => WT_STRING
    case StringKind(_) => WT_STRING
    case FixedBytes(_) => WT_STRING
    case Submessage(_) => WT_STRING
    case _ => WT_VARINT
  }

  function ZigZag(n: int): nat {
    if n < 0 then (-2 * n - 1) % TWO64 else 2 * n % TWO64
  }

  function Delimited(b: Bytes): Bytes {
    EncodeVarint(|b|) + b
  }

  lemma DelimitedLength(b: Bytes)
    ensures |b| < |Delimited(b)|
  {
  }

  function EncodeTag(tag: nat, wire: nat): Bytes {
    EncodeVarint(tag * 8 + wire)
  }

  function EncodeValue(k: Kind, v: Value): Bytes
    decreases k, 0
  {
    match v
    case Number(n) => EncodeNumber(k, n)
    case Blob(b) => Delimited(b)
    case Message(slots) =>
      if k.Submessage? then Delimited(EncodeRecords(k.desc, Records(k.desc, slots, 0))) else []
  }

  function EncodeNumber(k: Kind, n: int): Bytes {
    match k
    case BoolKind => EncodeVarint(if n != 0 then 1 else 0)
    case SVarint(_) => EncodeVarint(ZigZag(n))
    case Fixed32 => EncodeFixed32(n % TWO32)
    case Fixed64 => EncodeFixed64(n % TWO64)
    case _ => EncodeVarint(n % TWO64)
  }

  function EncodeItems(k: Kind, items: seq<Value>): Bytes
    decreases k, |items|
  {
    if items == [] then [] else EncodeValue(k, items[0]) + EncodeItems(k, items[1..])
  }

  function EncodeRec(d: Descriptor, r: Rec): Bytes
    decreases d, 0
  {
    if r.field >= |d.fields| || r.items == [] then []
    else
      var f := d.fields[r.field];
      if r.packed then EncodeTag(f.tag, WT_STRING) + Delimited(EncodeItems(f.kind, r.items))
      else EncodeTag(f.tag, WireType(f.kind)) + EncodeValue(f.kind, r.items[0])
  }

  function EncodeRecords(d: Descriptor, recs: seq<Rec>): Bytes
    decreases d, |recs|
  {
    if recs == [] then [] else EncodeRec(d, recs[0]) + EncodeRecords(d, recs[1..])
  }

  // A message on the wire.
  function Encoding(d: Descriptor, m: seq<Slot>): Bytes {
    EncodeRecords(d, Records(d, m, 0))
  }

  // What the encoder accepts: arrays and byte strings within the limits their descriptors state.
  ghost predicate Encodable(d: Descriptor, m: seq<Slot>)
    decreases d
  {
    forall i :: 0 <= i < |d.fields| && d.fields[i].slot < |m| ==> EncodableSlot(d.fields[i], m[d.fields[i].slot])
  }

  ghost predicate EncodableSlot(f: Field, s: Slot)
    decreases f
  {
    match s
    case One(v) => (f.rule.Singular? && IsZero(f, s)) || EncodableValue(f.kind, v)
    case Maybe(has, v) => has ==> EncodableValue(f.kind, v)
    case Many(items) =>
      && (items != [] && IsRepeated(f.rule) ==> |items| <= f.rule.max)
      && forall j :: 0 <= j < |items| ==> EncodableValue(f.kind, items[j])
    case Choice(which, v) => which == f.tag ==> EncodableValue(f.kind, v)
  }

  ghost predicate EncodableValue(k: Kind, v: Value)
    decreases k
  {
    match k
    case BytesKind(capacity) => v.Blob? ==> |v.bytes| <= capacity
    case Submessage(desc) => v.Message? ==> Encodable(desc, v.slots)
    case _ => true
  }

  lemma Associate(a: Bytes, b: Bytes, c: Bytes)
    ensures a + (b + c) == a + b + c
  {
  }

  lemma {:induction false} EncodeRecordsAppend(d: Descriptor, a: seq<Rec>, b: seq<Rec>)
    ensures EncodeRecords(d, a + b) == EncodeRecords(d, a) + EncodeRecords(d, b)
  {
    hide EncodeRec;
    if a == [] {
      assert a + b == b;
    } else {
      EncodeRecordsAppend(d, a[1..], b);
      assert (a + b)[0] == a[0] && (a + b)[1..] == a[1..] + b;
      Associate(EncodeRec(d, a[0]), EncodeRecords(d, a[1..]), EncodeRecords(d, b));
    }
  }

  lemma {:induction false} EncodeItemsAppend(k: Kind, a: seq<Value>, b: seq<Value>)
    ensures EncodeItems(k, a + b) == EncodeItems(k, a) + EncodeItems(k, b)
  {
    hide EncodeValue;
    if a == [] {
      assert a + b == b;
    } else {
      EncodeItemsAppend(k, a[1..], b);
      assert (a + b)[0] == a[0] && (a + b)[1..] == a[1..] + b;
      Associate(EncodeValue(k, a[0]), EncodeItems(k, a[1..]), EncodeItems(k, b));
    }
  }

  // The sizes encode_array works out without encoding.
  lemma {:induction false} FixedItemsLength(k: Kind, items: seq<Value>)
    requires k.Fixed32? || k.Fixed64?
    requires forall j :: 0 <= j < |items| ==> items[j].Number?
    ensures |EncodeItems(k, items)| == |items| * if k.Fixed32? then 4 else 8
  {
    if items != [] {
      FixedItemsLength(k, items[1..]);
    }
  }
}
