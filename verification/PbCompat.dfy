/**
 What nanopb skips: a program with an older descriptor reads its part of what a program with a newer one wrote.
 */
module PbCompat {
  import opened ByteStrings
  import opened PbMessage
  import opened PbRoundTrip
  import opened PbEncode
  import PbEncoder
  import opened PbDecode
  import opened PbDecoder
  import opened PbCodec

  // The newer descriptor has the older one's fields and others after them.
  predicate Newer(d: Descriptor, newer: Descriptor) {
    d.fields <= newer.fields && d.slots <= newer.slots
  }

  // The records of fields that the older descriptor has.
  function KnownOf(d: Descriptor, recs: seq<Rec>): seq<Rec> {
    if recs == [] then [] else IfKnown(d, recs[0]) + KnownOf(d, recs[1..])
  }

  function IfKnown(d: Descriptor, r: Rec): seq<Rec> {
    if r.field < |d.fields| then [r] else []
  }

  lemma {:induction false} KnownOfTwo(d: Descriptor, a: seq<Rec>, b: seq<Rec>)
    ensures KnownOf(d, a + b) == KnownOf(d, a) + KnownOf(d, b)
  {
    hide IfKnown;
    if a == [] {
      assert a + b == b;
    } else {
      KnownOfTwo(d, a[1..], b);
      assert (a + b)[0] == a[0] && (a + b)[1..] == a[1..] + b;
      Regroup(IfKnown(d, a[0]), KnownOf(d, a[1..]), KnownOf(d, b));
    }
  }

  lemma Regroup<T>(x: seq<T>, y: seq<T>, z: seq<T>)
    ensures x + (y + z) == x + y + z
    ensures |x| <= |x + y + z| && (x + y + z)[|x|..] == y + z && (x + y + z)[|x + y|..] == z
  {
    assert x + (y + z) == x + y + z;
  }

  // ---------------------------------------------------------------------------
  // A record is as long as its wire type says
  // ---------------------------------------------------------------------------

  lemma VarintLength(v: nat, rest: Bytes)
    ensures ValueLength(WT_VARINT, EncodeVarint(v) + rest) == Ok(|EncodeVarint(v)|)
  {
    hide EncodeVarint, Continued;
    CanonicalGroups(v, EncodeVarint(v) + rest);
  }

  lemma DelimitedIsLong(b: Bytes, rest: Bytes)
    requires |b| < TWO32
    ensures ValueLength(WT_STRING, Delimited(b) + rest) == Ok(|Delimited(b)|)
  {
    hide EncodeVarint, Continued, Groups, FitsWord;
    var s := Delimited(b) + rest;
    assert EncodeVarint(|b|) <= s by {
      assert s == EncodeVarint(|b|) + (b + rest);
    }
    CanonicalGroups(|b|, s);
    CanonicalWord(|b|, s);
    SmallMod(|b|, TWO32);
  }

  lemma NumberLength(k: Kind, n: int, rest: Bytes)
    requires WireType(k) != WT_STRING
    ensures ValueLength(WireType(k), EncodeNumber(k, n) + rest) == Ok(|EncodeNumber(k, n)|)
  {
    hide EncodeVarint, Continued, EncodeFixed32, EncodeFixed64, ValueLength;
    if k.Fixed32? {
      FixedLength(WT_32BIT, EncodeFixed32(n % TWO32), rest);
    } else if k.Fixed64? {
      FixedLength(WT_64BIT, EncodeFixed64(n % TWO64), rest);
    } else {
      VarintLength(if k.BoolKind? then if n != 0 then 1 else 0 else if k.SVarint? then ZigZag(n) else n % TWO64, rest);
    }
  }

  lemma FixedLength(wire: nat, b: Bytes, rest: Bytes)
    requires (wire == WT_32BIT && |b| == 4) || (wire == WT_64BIT && |b| == 8)
    ensures ValueLength(wire, b + rest) == Ok(|b|)
  {
  }

  lemma BodyLength(f: Field, r: Rec, rest: Bytes)
    requires RecTyped(f, r) && |Body(f, r)| < TWO32
    ensures ValueLength(RecWire(f, r), Body(f, r) + rest) == Ok(|Body(f, r)|)
  {
    hide EncodeNumber, ValueLength, EncodeRecords, EncodeItems, TypedMessage, EncodeVarint;
    assert r.items[0] == r.items[0];
    if r.packed {
      DelimitedIsLong(EncodeItems(f.kind, r.items), rest);
    } else {
      assert Typed(f.kind, r.items[0], true);
      match r.items[0]
      case Number(n) => NumberLength(f.kind, n, rest);
      case Blob(b) => DelimitedIsLong(b, rest);
      case Message(slots) => DelimitedIsLong(EncodeRecords(f.kind.desc, Records(f.kind.desc, slots, 0)), rest);
    }
  }

  // ---------------------------------------------------------------------------
  // A newer message under an older descriptor
  // ---------------------------------------------------------------------------

  lemma RecordParts(d: Descriptor, r: Rec)
    requires r.field < |d.fields| && RecTyped(d.fields[r.field], r)
    ensures EncodeRec(d, r) == EncodeVarint(TagNumber(d, r)) + Body(d.fields[r.field], r)
  {
  }

  // A record of a new field is a whole unknown field.
  lemma UnknownRecord(d: Descriptor, newer: Descriptor, r: Rec, rest: Bytes)
    requires Newer(d, newer) && WellFormed(newer) && |d.fields| <= r.field < |newer.fields|
    requires RecTyped(newer.fields[r.field], r) && |EncodeRec(newer, r)| < TWO32
    ensures var s := EncodeRec(newer, r) + rest;
            UnknownAt(d, s) && FieldLength(s) == Ok(|EncodeRec(newer, r)|)
            && s[|EncodeRec(newer, r)|..] == rest
  {
    hide EncodeRec, EncodeVarint, Body, RecTyped, ValueLength, WellFormed, RecWire, TagNumber, FitsWord, Continued,
         Groups;
    var f, t := newer.fields[r.field], TagNumber(newer, r);
    var s, e, b := EncodeRec(newer, r) + rest, EncodeVarint(t), Body(f, r);
    RecordTag(newer, r, s);
    TagFound(newer, r);
    RecordParts(newer, r);
    BodyLength(f, r, rest);
    Regroup(e, b, rest);
    forall i | 0 <= i < |d.fields|
      ensures d.fields[i].tag != t / 8
    {
      assert newer.fields[i] == d.fields[i];
    }
  }

  lemma KnownRecord(d: Descriptor, newer: Descriptor, r: Rec)
    requires Newer(d, newer) && r.field < |d.fields|
    ensures EncodeRec(newer, r) == EncodeRec(d, r) && newer.fields[r.field] == d.fields[r.field]
  {
  }

  // The newer program's bytes are the older program's records with unknown fields between them.
  lemma {:induction false} NewerIsInterleaved(d: Descriptor, newer: Descriptor, recs: seq<Rec>)
    requires Newer(d, newer) && WellFormed(newer) && RecsTyped(newer, recs) && |EncodeRecords(newer, recs)| < TWO32
    ensures Interleaved(d, EncodeRecords(newer, recs), KnownOf(d, recs), [])
    ensures RecsTyped(d, KnownOf(d, recs))
  {
    hide EncodeRec, WellFormed, RecTyped, UnknownAt, FieldLength;
    if recs != [] {
      var r, rest := recs[0], EncodeRecords(newer, recs[1..]);
      var s := EncodeRecords(newer, recs);
      assert s == EncodeRec(newer, r) + rest;
      NewerIsInterleaved(d, newer, recs[1..]);
      if r.field < |d.fields| {
        KnownRecord(d, newer, r);
        var known := KnownOf(d, recs);
        assert known == [r] + KnownOf(d, recs[1..]) && known[1..] == KnownOf(d, recs[1..]);
        assert EncodeRec(d, r) <= s && s[|EncodeRec(d, r)|..] == rest;
      } else {
        UnknownRecord(d, newer, r, rest);
        assert KnownOf(d, recs) == KnownOf(d, recs[1..]);
      }
    }
  }

  lemma {:induction false} RecordsOfField(i: nat, items: seq<Value>)
    ensures forall r | r in Singles(i, items) :: r.field == i
  {
    if items != [] {
      RecordsOfField(i, items[1..]);
    }
  }

  lemma {:induction false} AllOrNone(d: Descriptor, recs: seq<Rec>)
    ensures (forall r | r in recs :: r.field < |d.fields|) ==> KnownOf(d, recs) == recs
    ensures (forall r | r in recs :: r.field >= |d.fields|) ==> KnownOf(d, recs) == []
  {
    if recs != [] {
      AllOrNone(d, recs[1..]);
    }
  }

  lemma KnownOfField(d: Descriptor, i: nat, f: Field, s: Slot)
    ensures KnownOf(d, FieldRecords(i, f, s)) == if i < |d.fields| then FieldRecords(i, f, s) else []
  {
    hide KnownOf, IsZero;
    AllOrNone(d, FieldRecords(i, f, s));
    if s.Many? {
      RecordsOfField(i, s.items);
    }
  }

  lemma {:induction false} KnownRecords(d: Descriptor, newer: Descriptor, m: seq<Slot>, i: nat)
    requires WellFormed(d) && Newer(d, newer) && |m| == newer.slots
    ensures KnownOf(d, Records(newer, m, i)) == Records(d, m[..d.slots], i)
    decreases |newer.fields| - i
  {
    hide KnownOf, FieldRecords, WellFormedField;
    if i < |newer.fields| {
      var f := newer.fields[i];
      var first := if f.slot < |m| then FieldRecords(i, f, m[f.slot]) else [];
      KnownRecords(d, newer, m, i + 1);
      KnownOfTwo(d, first, Records(newer, m, i + 1));
      KnownOfNothing(d);
      if f.slot < |m| {
        KnownOfField(d, i, f, m[f.slot]);
      }
    } else {
      KnownOfNothing(d);
    }
  }

  lemma KnownOfNothing(d: Descriptor)
    ensures KnownOf(d, []) == []
  {
  }

  // The old part of a newer message is a message of the older descriptor.
  lemma OldPart(d: Descriptor, newer: Descriptor, m: seq<Slot>)
    requires WellFormed(d) && Newer(d, newer) && TypedMessage(newer, m, true)
    ensures TypedMessage(d, m[..d.slots], true)
    ensures Encodable(newer, m) ==> Encodable(d, m[..d.slots])
  {
    hide TypedSlot, EncodableSlot, WellFormedField;
    forall i | 0 <= i < |d.fields|
      ensures newer.fields[i] == d.fields[i] && d.fields[i].slot < d.slots
    {
    }
  }

  /** A message encoded under a newer descriptor and decoded under an older one succeeds exactly when it can be encoded,
   fits the buffer and has the strings of its old part terminated; it then gives the old part back. */
  method OlderReadsNewer(d: Descriptor, newer: Descriptor, m: seq<Slot>, bufSize: nat, struct: seq<Slot>)
    returns (ok: bool, r: seq<Slot>)
    requires WellFormed(d) && WellFormed(newer) && Newer(d, newer) && |struct| == d.slots
    requires TypedMessage(newer, m, true) && |Encoding(newer, m)| < TWO32
    ensures d.slots <= |m|
    ensures ok == (Encodable(newer, m) && |Encoding(newer, m)| <= bufSize && Terminated(d, m[..d.slots]))
    ensures ok ==> Restored(d, m[..d.slots], r)
  {
    hide EncodeFields, EncodeRecords, WellFormed, RecsTyped, Records, PutRecords, Complete, TypedSlot, Interleaved;
    FieldsEncoding(newer, m, 0);
    var out := new OStream.FromBuffer(bufSize, []);
    ok := PbEncoder.EncodeMessage(out, newer, m);
    if !ok {
      return false, struct;
    }
    assert out.state == Encoding(newer, m);
    RecordsTyped(newer, m, 0);
    NewerIsInterleaved(d, newer, Records(newer, m, 0));
    KnownRecords(d, newer, m, 0);
    OldPart(d, newer, m);
    MessageBack(d, m[..d.slots]);
    NothingUnread();
    var stream := new IStream(out.state);
    ok, r := Decode(stream, d, struct, Records(d, m[..d.slots], 0), []);
  }
}
