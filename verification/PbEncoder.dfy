/**
 The message level of pb_encode.c: fields, arrays and nested messages with their sizing pass.
 */
module PbEncoder {
  import opened ByteStrings
  import opened PbMessage
  import opened PbFieldIter
  import opened PbEncode

  // PB_ENCODERS: the encoder for a field's type.
  method EncodeOne(stream: OStream, k: Kind, v: Value) returns (ok: bool)
    requires stream.Valid() && WellFormedKind(k) && Typed(k, v, true) && |EncodeValue(k, v)| < TWO64
    modifies stream
    ensures stream.Valid()
    ensures ok == (EncodableValue(k, v) && old(stream.Room(|EncodeValue(k, v)|)))
    ensures ok ==> stream.Output() == Advance(stream.writing, old(stream.Output()), EncodeValue(k, v))
    decreases k, 1
  {
    hide EncodeNumber, Delimited, EncodeRecords, Records, WellFormed, Encodable, TypedMessage;
    if Packable(k) {
      ok := WriteNumber(stream, k, v.n);
    } else if k.Submessage? {
      FieldsEncoding(k.desc, v.slots, 0);
      ok := EncodeSubmessage(stream, k.desc, v.slots);
    } else {
      if k.BytesKind? {
        if |v.bytes| > k.capacity {
          return false;
        }
      }
      DelimitedLength(v.bytes);
      ok := WriteString(stream, v.bytes);
    }
  }

  // pb_encode_submessage.
  method EncodeSubmessage(stream: OStream, d: Descriptor, m: seq<Slot>) returns (ok: bool)
    requires stream.Valid() && WellFormed(d) && TypedMessage(d, m, true)
    requires |Delimited(EncodeFields(d, m, 0))| < TWO64
    modifies stream
    ensures stream.Valid()
    ensures ok == (Encodable(d, m) && old(stream.Room(|Delimited(EncodeFields(d, m, 0))|)))
    ensures ok ==>
      stream.Output() == Advance(stream.writing, old(stream.Output()), Delimited(EncodeFields(d, m, 0)))
    decreases d, 1
  {
    hide EncodeFields, EncodeVarint, WellFormed, Encodable, TypedMessage;
    ghost var e := EncodeFields(d, m, 0);
    AdvanceTwice(stream.writing, stream.Output(), EncodeVarint(|e|), e);
    DelimitedLength(e);
    // First a stream that only counts.
    var substream := new OStream.Sizing();
    ok := EncodeMessage(substream, d, m);
    if !ok {
      return false;
    }
    var size := substream.bytesWritten;
    ok := WriteVarint(stream, size);
    if !ok {
      return false;
    }
    if !stream.writing {
      ok := stream.Count(size);
      return;
    }
    if stream.bytesWritten + size > stream.maxSize {
      return false;
    }
    substream := new OStream.FromBuffer(size, stream.state);
    var status := EncodeMessage(substream, d, m);
    stream.bytesWritten := stream.bytesWritten + substream.bytesWritten;
    stream.state := substream.state;
    if substream.bytesWritten != size {
      // The submessage's size has changed.
      assert false;
    }
    return status;
  }

  // pb_encode.
  method EncodeMessage(stream: OStream, d: Descriptor, m: seq<Slot>) returns (ok: bool)
    requires stream.Valid() && WellFormed(d) && TypedMessage(d, m, true) && |EncodeFields(d, m, 0)| < TWO64
    modifies stream
    ensures stream.Valid()
    ensures ok == (Encodable(d, m) && old(stream.Room(|EncodeFields(d, m, 0)|)))
    ensures ok ==> stream.Output() == Advance(stream.writing, old(stream.Output()), EncodeFields(d, m, 0))
    decreases d, 0
  {
    hide EncodeSlot, EncodableSlot, TypedSlot, WellFormed, WellFormedField, TypedMessage, EncodeFields, RequiredBefore;
    var iter := new FieldIter(d);
    AdvanceNothing(stream.writing, stream.Output());
    if |d.fields| == 0 {
      NoFields(d, m);
      return true;
    }
    ghost var start := stream.Output();
    ghost var done: Bytes := [];
    var more := true;
    while more
      invariant stream.Valid() && fresh(iter) && iter.d == d && iter.Valid()
      invariant stream.Output() == Advance(stream.writing, start, done)
      invariant more ==> iter.pos < |d.fields| && EncodeFields(d, m, 0) == done + EncodeFields(d, m, iter.pos)
      invariant !more ==> EncodeFields(d, m, 0) == done
      invariant forall i :: 0 <= i < (if more then iter.pos else |d.fields|) ==>
        d.fields[i].slot < |m| && EncodableSlot(d.fields[i], m[d.fields[i].slot])
      decreases more, |d.fields| - iter.pos
    {
      FieldFacts(d, m, iter.pos);
      var f := d.fields[iter.pos];
      ghost var e := EncodeSlot(f, m[f.slot]);
      ghost var rest := EncodeFields(d, m, iter.pos + 1);
      Associate(done, e, rest);
      AdvanceTwice(stream.writing, start, done, e);
      ok := EncodeBasicField(stream, f, m[f.slot]);
      if !ok {
        return false;
      }
      done := done + e;
      more := iter.Next();
      if !more {
        NoFields(d, m);
      }
    }
    return true;
  }

  lemma FieldFacts(d: Descriptor, m: seq<Slot>, i: nat)
    requires WellFormed(d) && TypedMessage(d, m, true) && i < |d.fields|
    ensures var f := d.fields[i];
            && f.slot < |m| && WellFormedField(f) && TypedSlot(f, m[f.slot], true)
            && EncodeFields(d, m, i) == EncodeSlot(f, m[f.slot]) + EncodeFields(d, m, i + 1)
  {
  }

  lemma NoFields(d: Descriptor, m: seq<Slot>)
    ensures EncodeFields(d, m, |d.fields|) == []
  {
  }

  // encode_basic_field.
  method EncodeBasicField(stream: OStream, f: Field, s: Slot) returns (ok: bool)
    requires stream.Valid() && WellFormedField(f) && TypedSlot(f, s, true) && |EncodeSlot(f, s)| < TWO64
    modifies stream
    ensures stream.Valid()
    ensures ok == (EncodableSlot(f, s) && old(stream.Room(|EncodeSlot(f, s)|)))
    ensures ok ==> stream.Output() == Advance(stream.writing, old(stream.Output()), EncodeSlot(f, s))
    decreases f, 3
  {
    hide EncodeSingle, EncodeSingles, EncodeItems, WellFormedKind, IsZero, EncodableValue;
    AdvanceNothing(stream.writing, stream.Output());
    match f.rule
    case Required => ok := EncodeTagged(stream, f, s.value);
    case Optional =>
      if s.has {
        ok := EncodeTagged(stream, f, s.value);
      } else {
        ok := true;
      }
    case Singular =>
      var zero := IsZero(f, s);
      if !zero {
        ok := EncodeTagged(stream, f, s.value);
      } else {
        ok := true;
      }
    case Repeated(_) => ok := EncodeArray(stream, f, s.items);
    case FixedCount(_) => ok := EncodeArray(stream, f, s.items);
    case OneOf =>
      if s.which == f.tag {
        ok := EncodeTagged(stream, f, s.value);
      } else {
        ok := true;
      }
  }

  // A tag and one value.
  method EncodeTagged(stream: OStream, f: Field, v: Value) returns (ok: bool)
    requires stream.Valid() && WellFormedField(f) && Typed(f.kind, v, true) && |EncodeSingle(f, v)| < TWO64
    modifies stream
    ensures stream.Valid()
    ensures ok == (EncodableValue(f.kind, v) && old(stream.Room(|EncodeSingle(f, v)|)))
    ensures ok ==> stream.Output() == Advance(stream.writing, old(stream.Output()), EncodeSingle(f, v))
    decreases f, 0
  {
    hide EncodeTag, EncodeValue, WellFormedKind, Typed, EncodableValue;
    AdvanceTwice(stream.writing, stream.Output(), EncodeTag(f.tag, WireType(f.kind)), EncodeValue(f.kind, v));
    ok := WriteTagForField(stream, f);
    if !ok {
      return false;
    }
    ok := EncodeOne(stream, f.kind, v);
  }

  // encode_array.
  method EncodeArray(stream: OStream, f: Field, items: seq<Value>) returns (ok: bool)
    requires stream.Valid() && WellFormedField(f) && IsRepeated(f.rule)
    requires forall j :: 0 <= j < |items| ==> Typed(f.kind, items[j], true)
    requires |EncodeSlot(f, Many(items))| < TWO64
    modifies stream
    ensures stream.Valid()
    ensures ok == (EncodableSlot(f, Many(items)) && old(stream.Room(|EncodeSlot(f, Many(items))|)))
    ensures ok ==> stream.Output() == Advance(stream.writing, old(stream.Output()), EncodeSlot(f, Many(items)))
    decreases f, 2
  {
    hide EncodeItems, EncodeSingles, EncodableValue, EncodeTag, Delimited, Typed, WellFormedKind;
    AdvanceNothing(stream.writing, stream.Output());
    var count := |items|;
    if count == 0 {
      return true;
    }
    if count > f.rule.max {
      return false;
    }
    if Packable(f.kind) {
      AllEncodable(f.kind, items);
      ok := EncodePacked(stream, f, items);
    } else {
      ok := EncodeUnpacked(stream, f, items);
    }
  }

  lemma AllEncodable(k: Kind, items: seq<Value>)
    requires Packable(k)
    ensures forall j :: 0 <= j < |items| ==> EncodableValue(k, items[j])
  {
  }

  // The packed branch of encode_array.
  method EncodePacked(stream: OStream, f: Field, items: seq<Value>) returns (ok: bool)
    requires stream.Valid() && WellFormedField(f) && Packable(f.kind)
    requires forall j :: 0 <= j < |items| ==> Typed(f.kind, items[j], true)
    requires |EncodeTag(f.tag, WT_STRING) + Delimited(EncodeItems(f.kind, items))| < TWO64
    modifies stream
    ensures stream.Valid()
    ensures ok == old(stream.Room(|EncodeTag(f.tag, WT_STRING) + Delimited(EncodeItems(f.kind, items))|))
    ensures ok ==>
      stream.Output() == Advance(stream.writing, old(stream.Output()),
                                 EncodeTag(f.tag, WT_STRING) + Delimited(EncodeItems(f.kind, items)))
  {
    hide EncodeItems, Delimited, Typed, WellFormedKind;
    AdvanceTwice(stream.writing, stream.Output(), EncodeTag(f.tag, WT_STRING), Delimited(EncodeItems(f.kind, items)));
    DelimitedLength(EncodeItems(f.kind, items));
    ok := WriteVarint(stream, f.tag * 8 + WT_STRING);
    if !ok {
      return false;
    }
    ok := WritePacked(stream, f.kind, items);
  }

  // The size of a packed array, then, unless only sizing, its items.
  method WritePacked(stream: OStream, k: Kind, items: seq<Value>) returns (ok: bool)
    requires stream.Valid() && WellFormedKind(k) && Packable(k) && |EncodeItems(k, items)| < TWO64
    requires forall j :: 0 <= j < |items| ==> Typed(k, items[j], true)
    modifies stream
    ensures stream.Valid()
    ensures ok == old(stream.Room(|Delimited(EncodeItems(k, items))|))
    ensures ok ==>
      stream.Output() == Advance(stream.writing, old(stream.Output()), Delimited(EncodeItems(k, items)))
  {
    hide EncodeItems, EncodeVarint, Typed, WellFormedKind;
    ghost var e := EncodeItems(k, items);
    AdvanceTwice(stream.writing, stream.Output(), EncodeVarint(|e|), e);
    var size := PackedSize(k, items);
    ok := WriteVarint(stream, size);
    if !ok {
      return false;
    }
    if !stream.writing {
      ok := stream.Count(size);
      return;
    }
    ok := WriteItems(stream, k, items);
  }

  method PackedSize(k: Kind, items: seq<Value>) returns (size: nat)
    requires WellFormedKind(k) && Packable(k)
    requires forall j :: 0 <= j < |items| ==> Typed(k, items[j], true)
    ensures size == |EncodeItems(k, items)|
  {
    hide EncodeItems;
    if k.Fixed32? {
      FixedItemsLength(k, items);
      size := 4 * |items|;
    } else if k.Fixed64? {
      FixedItemsLength(k, items);
      size := 8 * |items|;
    } else {
      var sizestream := new OStream.Sizing();
      var _ := WriteItems(sizestream, k, items);
      size := sizestream.bytesWritten;
    }
  }

  // The loop over the items of a packed array.
  method WriteItems(stream: OStream, k: Kind, items: seq<Value>) returns (ok: bool)
    requires stream.Valid() && WellFormedKind(k) && Packable(k)
    requires forall j :: 0 <= j < |items| ==> Typed(k, items[j], true)
    modifies stream
    ensures stream.Valid()
    ensures ok == old(stream.Room(|EncodeItems(k, items)|))
    ensures ok ==> stream.Output() == Advance(stream.writing, old(stream.Output()), EncodeItems(k, items))
  {
    hide EncodeItems, EncodeNumber;
    ghost var start := stream.Output();
    AdvanceNothing(stream.writing, start);
    ghost var done: Bytes := [];
    for i := 0 to |items|
      invariant stream.Valid()
      invariant EncodeItems(k, items) == done + EncodeItems(k, items[i..])
      invariant stream.Output() == Advance(stream.writing, start, done)
    {
      ghost var e := EncodeNumber(k, items[i].n);
      ItemsStep(k, items, i);
      Associate(done, e, EncodeItems(k, items[i + 1..]));
      AdvanceTwice(stream.writing, start, done, e);
      ok := WriteNumber(stream, k, items[i].n);
      if !ok {
        return false;
      }
      done := done + e;
    }
    ItemsEnd(k, items);
    return true;
  }

  lemma ItemsStep(k: Kind, items: seq<Value>, i: nat)
    requires i < |items|
    ensures EncodeItems(k, items[i..]) == EncodeValue(k, items[i]) + EncodeItems(k, items[i + 1..])
  {
    assert items[i..][1..] == items[i + 1..];
  }

  lemma ItemsEnd(k: Kind, items: seq<Value>)
    ensures EncodeItems(k, items[|items|..]) == []
  {
  }

  // The other branch of encode_array: a tag for every item.
  method EncodeUnpacked(stream: OStream, f: Field, items: seq<Value>) returns (ok: bool)
    requires stream.Valid() && WellFormedField(f)
    requires forall j :: 0 <= j < |items| ==> Typed(f.kind, items[j], true)
    requires |EncodeSingles(f, items)| < TWO64
    modifies stream
    ensures stream.Valid()
    ensures ok == ((forall j :: 0 <= j < |items| ==> EncodableValue(f.kind, items[j]))
                   && old(stream.Room(|EncodeSingles(f, items)|)))
    ensures ok ==> stream.Output() == Advance(stream.writing, old(stream.Output()), EncodeSingles(f, items))
    decreases f, 1
  {
    hide EncodeSingle, EncodeSingles, EncodableValue, Typed, WellFormedField;
    ghost var start := stream.Output();
    AdvanceNothing(stream.writing, start);
    ghost var done: Bytes := [];
    for i := 0 to |items|
      invariant stream.Valid()
      invariant EncodeSingles(f, items) == done + EncodeSingles(f, items[i..])
      invariant stream.Output() == Advance(stream.writing, start, done)
      invariant forall j :: 0 <= j < i ==> EncodableValue(f.kind, items[j])
    {
      ghost var e := EncodeSingle(f, items[i]);
      SinglesStep(f, items, i);
      Associate(done, e, EncodeSingles(f, items[i + 1..]));
      AdvanceTwice(stream.writing, start, done, e);
      ok := EncodeTagged(stream, f, items[i]);
      if !ok {
        return false;
      }
      done := done + e;
    }
    SinglesEnd(f, items);
    return true;
  }

  lemma SinglesStep(f: Field, items: seq<Value>, i: nat)
    requires i < |items|
    ensures EncodeSingles(f, items[i..]) == EncodeSingle(f, items[i]) + EncodeSingles(f, items[i + 1..])
  {
    assert items[i..][1..] == items[i + 1..];
  }

  lemma SinglesEnd(f: Field, items: seq<Value>)
    ensures EncodeSingles(f, items[|items|..]) == []
  {
  }
}
