/**
 The message level of pb_decode.c: substreams, arrays, nested messages, and the loop over the fields of a
 message. The decoders take arbitrary bytes and leave a message that fits its descriptor; on the bytes of
 records the encoder writes, in whatever order, they do what PbRoundTrip.PutRecords says.
 */
module PbDecoder {
  import opened ByteStrings
  import opened PbMessage
  import opened PbFieldIter
  import opened PbRoundTrip
  import opened PbDecode
  import opened PbScalars
  import opened PbRequired

  function RecWire(f: Field, r: Rec): nat {
    if r.packed then WT_STRING else WireType(f.kind)
  }

  // The bytes of a record after its tag.
  function Body(f: Field, r: Rec): Bytes {
    if r.items == [] then []
    else if r.packed then Delimited(EncodeItems(f.kind, r.items))
    else EncodeValue(f.kind, r.items[0])
  }

  ghost predicate RecTyped(f: Field, r: Rec) {
    && r.items != []
    && (forall j :: 0 <= j < |r.items| ==> Typed(f.kind, r.items[j], true))
    && if r.packed then Packable(f.kind) && IsRepeated(f.rule) else |r.items| == 1
  }

  ghost predicate RecsTyped(d: Descriptor, recs: seq<Rec>) {
    forall k :: 0 <= k < |recs| ==> recs[k].field < |d.fields| && RecTyped(d.fields[recs[k].field], recs[k])
  }

  // What a record does to the slot of its field.
  function PutSlot(f: Field, s: Slot, r: Rec): Result<Slot> {
    if r.items == [] then Fail
    else
      match (f.rule, s)
      case (Required, One(prev)) => Into(PutValue(f.kind, prev, r.items[0]), v => One(v))
      case (Singular, One(prev)) => Into(PutValue(f.kind, prev, r.items[0]), v => One(v))
      case (Optional, Maybe(_, prev)) => Into(PutValue(f.kind, prev, r.items[0]), v => Maybe(true, v))
      case (Repeated(max), Many(have)) => Into(PutItems(f.kind, max, have, r.items), vs => Many(vs))
      case (FixedCount(max), Many(have)) => Into(PutItems(f.kind, max, have, r.items), vs => Many(vs))
      case (OneOf, Choice(which, prev)) =>
        Into(PutValue(f.kind, if which == f.tag then prev else Initial(f.kind), r.items[0]), v => Choice(f.tag, v))
      case _ => Fail
  }

  // The slot as decode_static_field finds it: a fixed-count array met anew is filled from its start.
  function SlotBefore(d: Descriptor, st: State, i: nat): Slot
    requires i < |d.fields| && d.fields[i].slot < |st.dest|
  {
    if d.fields[i].rule.FixedCount? && st.fixedField != i then Many([]) else st.dest[d.fields[i].slot]
  }

  function StateAfter(d: Descriptor, st: State, i: nat, s: Slot): State
    requires i < |d.fields| && d.fields[i].slot < |st.dest|
  {
    var f := d.fields[i];
    State(st.dest[f.slot := s],
          if f.rule.FixedCount? then i else st.fixedField,
          if f.rule.FixedCount? && s.Many? then |s.items| else st.fixedSize,
          if f.rule.Required? then st.seen + {i} else st.seen)
  }

  lemma PutRecordSlot(d: Descriptor, st: State, r: Rec)
    requires r.field < |d.fields| && d.fields[r.field].slot < |st.dest| && r.items != []
    requires TypedSlot(d.fields[r.field], st.dest[d.fields[r.field].slot], false)
    ensures var i := r.field;
            PutRecord(d, st, r) ==
            if d.fields[i].rule.FixedCount? && st.fixedField != i && !FixedDone(d, st) then Fail
            else
              match PutSlot(d.fields[i], SlotBefore(d, st, i), r)
              case Ok(s) => Ok(StateAfter(d, st, i, s))
              case Fail => Fail
  {
    hide PutValue, PutItems, Typed, FixedDone, Initial;
  }

  // The records of a message that fits its descriptor are well typed.
  lemma {:induction false} RecordsTyped(d: Descriptor, m: seq<Slot>, i: nat)
    requires TypedMessage(d, m, true)
    ensures RecsTyped(d, Records(d, m, i))
    decreases |d.fields| - i
  {
    hide TypedSlot, FieldRecords, RecTyped;
    if i < |d.fields| {
      RecordsTyped(d, m, i + 1);
      FieldRecordsTyped(d, m[d.fields[i].slot], i);
    }
  }

  lemma {:induction false} FieldRecordsTyped(d: Descriptor, s: Slot, i: nat)
    requires i < |d.fields| && TypedSlot(d.fields[i], s, true)
    ensures RecsTyped(d, FieldRecords(i, d.fields[i], s))
  {
    hide Typed, IsZero;
    if s.Many? {
      SinglesTyped(d, s.items, i);
    }
  }

  lemma {:induction false} SinglesTyped(d: Descriptor, items: seq<Value>, i: nat)
    requires i < |d.fields| && forall j :: 0 <= j < |items| ==> Typed(d.fields[i].kind, items[j], true)
    ensures RecsTyped(d, Singles(i, items))
  {
    hide Typed;
    if items != [] {
      SinglesTyped(d, items[1..], i);
    }
  }

  // pb_make_string_substream.
  method OpenString(stream: IStream, ghost b: Bytes) returns (ok: bool, substream: IStream)
    requires stream.Valid()
    modifies stream
    ensures stream.Valid() && stream.bytesLeft <= old(stream.bytesLeft) && stream.End() <= old(stream.End())
    ensures ok ==>
      && fresh(substream) && substream.Valid() && substream.source == stream.source && substream.pos == stream.pos
      && substream.End() + stream.bytesLeft == old(stream.End())
    ensures var s := old(stream.Rest());
            && ok == BlobAt(s).Ok?
            && (ok ==> substream.Rest() == BlobAt(s).value
                       && Takes(s, WT_STRING, stream.source[substream.End()..old(stream.End())]))
    ensures |b| < TWO32 && Delimited(b) <= old(stream.Rest()) ==>
      && ok && substream.Rest() == b
      && stream.source[substream.End()..old(stream.End())] == old(stream.Rest())[|Delimited(b)|..]
  {
    hide EncodeVarint, Groups, Continued, FitsWord, Delimited, BlobAt, WordAt, Takes, ValueLength;
    ghost var s := stream.Rest();
    BlobParts(s);
    IfDelimited(b, s);
    TakenOnce(s);
    var size, eof;
    ok, size, eof := DecodeVarint32Eof(stream, 0);
    if !ok {
      return false, stream;
    }
    ghost var rest := stream.Rest();
    if stream.bytesLeft < size {
      return false, stream;
    }
    substream := new IStream.Limited(stream.source, stream.pos, size);
    stream.bytesLeft := stream.bytesLeft - size;
    RestAfter(stream.source, substream.pos, size, stream.bytesLeft);
    return true, substream;
  }

  lemma IfDelimited(b: Bytes, s: Bytes)
    ensures |b| < TWO32 && Delimited(b) <= s ==> BlobAt(s) == Ok(b) && Takes(s, WT_STRING, s[|Delimited(b)|..])
  {
    if |b| < TWO32 && Delimited(b) <= s {
      DelimitedBlob(b, s);
    }
  }

  lemma RestAfter(source: Bytes, pos: nat, size: nat, more: nat)
    requires pos + size + more <= |source|
    ensures var rest := source[pos..pos + size + more];
            rest[..size] == source[pos..pos + size] && rest[size..] == source[pos + size..pos + size + more]
  {
  }

  // What is left after a value is determined.
  lemma TakenOnce(s: Bytes)
    ensures forall x, y | Takes(s, WT_STRING, x) && Takes(s, WT_STRING, y) :: x == y
  {
    hide ValueLength;
  }

  // pb_close_string_substream.
  method CloseString(stream: IStream, substream: IStream)
    requires stream != substream && stream.Valid() && substream.Valid() && stream.source == substream.source
    requires substream.End() + stream.bytesLeft <= |stream.source|
    modifies stream, substream
    ensures stream.Valid() && stream.pos == old(substream.End()) && stream.bytesLeft == old(stream.bytesLeft)
  {
    if substream.bytesLeft > 0 {
      var _, _ := substream.Read(substream.bytesLeft);
    }
    stream.pos := substream.pos;
  }

  // PB_DECODERS: the decoder for a field's type. A repeated message item is set to its defaults first.
  method DecodeOne(stream: IStream, k: Kind, prev: Value, initialize: bool, ghost v: Value)
    returns (ok: bool, r: Value)
    requires stream.Valid() && WellFormedKind(k)
    requires k.Submessage? && !initialize ==> Typed(k, prev, false)
    modifies stream
    ensures stream.Valid() && stream.bytesLeft <= old(stream.bytesLeft) && stream.End() <= old(stream.End())
    ensures ok ==> Typed(k, r, false) && stream.End() == old(stream.End())
    ensures Packable(k) ==>
      var x := NumberAt(k, old(stream.Rest()));
      ok == x.Ok? && (ok ==> r == Number(x.value) && Takes(old(stream.Rest()), WireType(k), stream.Rest()))
    ensures !Packable(k) && !k.Submessage? ==>
      var x := BytesAt(k, old(stream.Rest()));
      ok == x.Ok? && (ok ==> r == Blob(x.value) && Takes(old(stream.Rest()), WT_STRING, stream.Rest()))
    ensures Typed(k, v, true) && EncodeValue(k, v) <= old(stream.Rest()) && |old(stream.Rest())| < TWO32 ==>
      && ok == PutValue(k, if initialize then Initial(k) else prev, v).Ok?
      && (ok ==> r == PutValue(k, if initialize then Initial(k) else prev, v).value
                 && stream.Rest() == old(stream.Rest())[|EncodeValue(k, v)|..])
    decreases k, 1
  {
    hide WellFormed, TypedMessage, EncodeNumber, Delimited, EncodeRecords, Records, PutRecords, Defaults, NumberAt, BytesAt,
         Takes;
    r := Number(0);
    if Packable(k) {
      var n;
      ok, n := DecodeNumber(stream, k, if v.Number? then v.n else 0);
      r := Number(n);
    } else if k.Submessage? {
      var slots;
      ok, slots := DecodeSubmessage(stream, k.desc, if prev.Message? then prev.slots else [], initialize,
                                    if v.Message? then v.slots else []);
      r := Message(slots);
    } else {
      var b;
      if v.Blob? {
        DelimitedLength(v.bytes);
      }
      ok, b := DecodeBlob(stream, k, if v.Blob? then v.bytes else []);
      r := Blob(b);
    }
  }

  // pb_dec_submessage.
  method DecodeSubmessage(stream: IStream, d: Descriptor, prev: seq<Slot>, initialize: bool, ghost m: seq<Slot>)
    returns (ok: bool, r: seq<Slot>)
    requires stream.Valid() && WellFormed(d)
    requires !initialize ==> TypedMessage(d, prev, false)
    modifies stream
    ensures stream.Valid() && stream.bytesLeft <= old(stream.bytesLeft) && stream.End() <= old(stream.End())
    ensures ok ==> TypedMessage(d, r, false) && stream.End() == old(stream.End())
    ensures
      && TypedMessage(d, m, true) && Delimited(EncodeRecords(d, Records(d, m, 0))) <= old(stream.Rest())
      && |old(stream.Rest())| < TWO32 ==>
      var put := PutRecords(d, Start(if initialize then Defaults(d) else prev), Records(d, m, 0));
      && ok == (put.Ok? && Complete(d, put.value))
      && (ok ==> r == put.value.dest
                 && stream.Rest() == old(stream.Rest())[|Delimited(EncodeRecords(d, Records(d, m, 0)))|..])
    decreases d, 2
  {
    hide EncodeVarint, EncodeRecords, Records, PutRecords, Complete, WellFormed, TypedMessage, Defaults;
    hide Interleaved, Broken, Finished, Unread, RecsTyped, Delimited;
    ghost var b := EncodeRecords(d, Records(d, m, 0));
    DelimitedLength(b);
    var substream;
    ok, substream := OpenString(stream, b);
    if !ok {
      return false, [];
    }
    ghost var end := substream.End();
    var dest := prev;
    if initialize {
      dest := MessageToDefaults(d, Blank(d.slots));
      DefaultsTyped(d);
    }
    if TypedMessage(d, m, true) {
      RecordsTyped(d, m, 0);
      EncodedIsInterleaved(d, Records(d, m, 0));
      NothingUnread();
    }
    var status;
    status, r := DecodeMessage(substream, d, dest, Records(d, m, 0), []);
    CloseString(stream, substream);
    return status, r;
  }

  // ---------------------------------------------------------------------------
  // Records among fields that the descriptor does not have
  // ---------------------------------------------------------------------------

  // The field at the front is none of the descriptor's.
  predicate UnknownAt(d: Descriptor, s: Bytes) {
    Tagged(s) && forall i :: 0 <= i < |d.fields| ==> d.fields[i].tag != FirstTag(s) / 8
  }

  // The length of the field at the front, tag and value.
  function FieldLength(s: Bytes): (n: Result<nat>)
    requires Tagged(s)
    ensures n.Ok? ==> 0 < n.value <= |s|
  {
    var k := Continued(s) + 1;
    match ValueLength(FirstTag(s) % 8, s[k..])
    case Ok(n) => Ok(k + n)
    case Fail => Fail
  }

  // The bytes hold these records in order, with whole unknown fields anywhere between them, and then tail.
  ghost predicate Interleaved(d: Descriptor, s: Bytes, recs: seq<Rec>, tail: Bytes)
    decreases |s|, |recs|
  {
    || (recs == [] && s == tail)
    || (recs != [] && EncodeRec(d, recs[0]) <= s
        && Interleaved(d, s[|EncodeRec(d, recs[0])|..], recs[1..], tail))
    || (UnknownAt(d, s) && FieldLength(s).Ok? && Interleaved(d, s[FieldLength(s).value..], recs, tail))
  }

  // Nothing more, or a zero tag.
  predicate Finished(tail: Bytes) {
    tail == [] || EndsHere(tail)
  }

  // What stays unread.
  function Unread(tail: Bytes): Bytes
    requires Finished(tail)
  {
    if tail == [] then [] else tail[Continued(tail) + 1..]
  }

  lemma NothingUnread()
    ensures Finished([]) && Unread([]) == []
  {
  }

  // Bytes that no field starts with: no tag, or an unknown field whose value does not end.
  predicate Broken(d: Descriptor, tail: Bytes) {
    && tail != [] && !EndsHere(tail)
    && (!Tagged(tail) || (UnknownAt(d, tail) && FieldLength(tail).Fail?))
  }

  lemma {:induction false} EncodedIsInterleaved(d: Descriptor, recs: seq<Rec>)
    ensures Interleaved(d, EncodeRecords(d, recs), recs, [])
  {
    hide EncodeRec, UnknownAt;
    if recs != [] {
      EncodedIsInterleaved(d, recs[1..]);
      var s := EncodeRecords(d, recs);
      assert s[|EncodeRec(d, recs[0])|..] == EncodeRecords(d, recs[1..]);
    }
  }

  // Where the loop of pb_decode_noinit stands: s is left to read.
  ghost predicate Upcoming(d: Descriptor, s: Bytes, left: seq<Rec>, tail: Bytes) {
    RecsTyped(d, left) && Interleaved(d, s, left, tail) && |s| < TWO32 && (Finished(tail) || Broken(d, tail))
  }

  lemma RecordTag(d: Descriptor, r: Rec, s: Bytes)
    requires WellFormed(d) && r.field < |d.fields| && RecTyped(d.fields[r.field], r) && EncodeRec(d, r) <= s
    ensures var e := EncodeVarint(TagNumber(d, r));
            && e <= s && |e| <= |EncodeRec(d, r)| && Tagged(s) && FirstTag(s) == TagNumber(d, r) && !UnknownAt(d, s)
            && Continued(s) + 1 == |e| && Body(d.fields[r.field], r) <= s[|e|..]
            && s[|e|..][|Body(d.fields[r.field], r)|..] == s[|EncodeRec(d, r)|..]
  {
    hide EncodeVarint, EncodeValue, EncodeItems, Typed, Delimited, Groups, Continued, FitsWord, WellFormed;
    var e, b := EncodeVarint(TagNumber(d, r)), Body(d.fields[r.field], r);
    assert EncodeRec(d, r) == e + b;
    assert s[..|e|] == EncodeRec(d, r)[..|e|] == e;
    assert s[|e|..][..|b|] == s[..|e| + |b|][|e|..] == b;
    TagFound(d, r);
    CanonicalGroups(TagNumber(d, r), s);
    CanonicalWord(TagNumber(d, r), s);
    SmallMod(TagNumber(d, r), TWO32);
  }

  // At a record: it is the next one.
  lemma AtRecord(d: Descriptor, s: Bytes, left: seq<Rec>, tail: Bytes)
    requires WellFormed(d) && Upcoming(d, s, left, tail) && Tagged(s) && !UnknownAt(d, s)
    ensures left != [] && left[0].field < |d.fields| && RecTyped(d.fields[left[0].field], left[0])
    ensures EncodeRec(d, left[0]) <= s && Upcoming(d, s[|EncodeRec(d, left[0])|..], left[1..], tail)
  {
    hide EncodeRec, Tagged, EndsHere, UnknownAt, FieldLength, WellFormed, RecTyped;
    TagOrEnd(s);
  }

  lemma TagOrEnd(s: Bytes)
    ensures Tagged(s) ==> s != [] && !EndsHere(s)
  {
  }

  // At an unknown field: either it is skipped and the same records are left, or it does not end.
  lemma AtUnknown(d: Descriptor, s: Bytes, left: seq<Rec>, tail: Bytes)
    requires WellFormed(d) && Upcoming(d, s, left, tail) && UnknownAt(d, s)
    ensures FieldLength(s).Ok? ==> Upcoming(d, s[FieldLength(s).value..], left, tail)
    ensures FieldLength(s).Fail? ==> Broken(d, tail)
  {
    hide EncodeRec, Tagged, EndsHere, FieldLength, WellFormed, RecTyped;
    TagOrEnd(s);
    if left != [] && EncodeRec(d, left[0]) <= s {
      RecordTag(d, left[0], s);
    }
  }

  // Where there is no field at all.
  lemma AtEnd(d: Descriptor, s: Bytes, left: seq<Rec>, tail: Bytes)
    requires WellFormed(d) && Upcoming(d, s, left, tail) && !Tagged(s)
    ensures left == [] && s == tail
  {
    hide EncodeRec, Tagged, EndsHere, FieldLength, WellFormed, RecTyped;
    if left != [] && EncodeRec(d, left[0]) <= s {
      RecordTag(d, left[0], s);
    }
  }

  // The records left are those that make the rest of the difference.
  ghost predicate OnTrack(d: Descriptor, s: Bytes, dest: seq<Slot>, recs: seq<Rec>, st: State, left: seq<Rec>,
                          tail: Bytes)
  {
    Upcoming(d, s, left, tail) && PutRecords(d, st, left) == PutRecords(d, Start(dest), recs)
  }

  lemma LoopStarts(d: Descriptor, s: Bytes, dest: seq<Slot>, recs: seq<Rec>, tail: Bytes)
    ensures Upcoming(d, s, recs, tail) ==> OnTrack(d, s, dest, recs, State(dest, -1, 0, {}), recs, tail)
    ensures Upcoming(d, s, recs, tail) <==>
              RecsTyped(d, recs) && Interleaved(d, s, recs, tail) && |s| < TWO32 && (Finished(tail) || Broken(d, tail))
    ensures ValidFixed(d, -1)
  {
    hide PutRecords, RecsTyped, Interleaved, Finished, Broken;
  }

  // A record is next: it is put, if it can be.
  lemma RecordTurn(d: Descriptor, s: Bytes, dest: seq<Slot>, recs: seq<Rec>, st: State, left: seq<Rec>, tail: Bytes)
    requires WellFormed(d) && OnTrack(d, s, dest, recs, st, left, tail) && Tagged(s) && !UnknownAt(d, s)
    ensures left != [] && left[0].field < |d.fields| && RecTyped(d.fields[left[0].field], left[0])
    ensures var r := left[0];
            var f, t := d.fields[r.field], TagNumber(d, r);
            var e := EncodeVarint(t);
            && 0 < t < TWO32 && e <= s && t / 8 == f.tag && t % 8 == RecWire(f, r) && Body(f, r) <= s[|e|..]
            && (forall i :: 0 <= i < |d.fields| && d.fields[i].tag == f.tag ==> i == r.field)
            && |s| < TWO32 && |Body(f, r)| <= |s[|e|..]|
            && (match PutRecord(d, st, r)
                case Ok(st') => OnTrack(d, s[|e|..][|Body(f, r)|..], dest, recs, st', left[1..], tail)
                case Fail => PutRecords(d, Start(dest), recs).Fail?)
  {
    hide EncodeRec, EncodeVarint, Body, RecTyped, PutRecord, Tagged, UnknownAt, EndsHere, WellFormed, RecWire, TagNumber;
    AtRecord(d, s, left, tail);
    RecordTag(d, left[0], s);
    TagFound(d, left[0]);
  }

  lemma OtherTurns(d: Descriptor, s: Bytes, dest: seq<Slot>, recs: seq<Rec>, st: State, left: seq<Rec>, tail: Bytes)
    requires WellFormed(d) && OnTrack(d, s, dest, recs, st, left, tail)
    ensures UnknownAt(d, s) && FieldLength(s).Ok? ==>
              OnTrack(d, s[FieldLength(s).value..], dest, recs, st, left, tail)
    ensures UnknownAt(d, s) && FieldLength(s).Fail? ==> Broken(d, tail) && !Finished(tail)
    ensures !Tagged(s) ==>
              && left == [] && s == tail && PutRecords(d, Start(dest), recs) == Ok(st)
              && (Finished(tail) <==> s == [] || EndsHere(s)) && (Broken(d, tail) <==> s != [] && !EndsHere(s))
              && (s == [] ==> Unread(s) == []) && (EndsHere(s) ==> Unread(s) == s[Continued(s) + 1..])
  {
    hide EncodeRec, WellFormed, FieldLength, Continued, FirstTag, FitsWord;
    if UnknownAt(d, s) {
      AtUnknown(d, s, left, tail);
    } else if !Tagged(s) {
      AtEnd(d, s, left, tail);
    }
  }

  lemma EmptyHasNoTag(s: Bytes)
    ensures s == [] ==> !Tagged(s) && !EndsHere(s)
  {
  }

  lemma FieldIs(d: Descriptor, s: Bytes)
    ensures UnknownAt(d, s) <==> Tagged(s) && forall i :: 0 <= i < |d.fields| ==> d.fields[i].tag != FirstTag(s) / 8
    ensures Tagged(s) ==>
              var k := Continued(s) + 1;
              && k <= |s|
              && FieldLength(s) == match ValueLength(FirstTag(s) % 8, s[k..]) case Ok(n) => Ok(k + n) case Fail => Fail
    ensures EndsHere(s) ==> Continued(s) < |s| && !Tagged(s)
  {
    hide ValueLength, FirstTag, Continued;
    ContinuedIs(s);
  }

  // pb_decode_noinit. Unknown fields among the records make no difference.
  method DecodeMessage(stream: IStream, d: Descriptor, dest: seq<Slot>, ghost recs: seq<Rec>,
                       ghost tail: Bytes)
    returns (ok: bool, r: seq<Slot>)
    requires stream.Valid() && WellFormed(d) && TypedMessage(d, dest, false)
    modifies stream
    ensures stream.Valid() && stream.bytesLeft <= old(stream.bytesLeft) && stream.End() <= old(stream.End())
    ensures ok ==> TypedMessage(d, r, false) && stream.End() == old(stream.End())
    ensures RecsTyped(d, recs) && Interleaved(d, old(stream.Rest()), recs, tail) && |old(stream.Rest())| < TWO32 ==>
      var put := PutRecords(d, Start(dest), recs);
      && (Finished(tail) ==>
            && ok == (put.Ok? && Complete(d, put.value))
            && (ok ==> r == put.value.dest && stream.Rest() == Unread(tail)))
      && (Broken(d, tail) ==> !ok)
    decreases d, 1
  {
    hide *;
    ghost var known := Upcoming(d, stream.Rest(), recs, tail);
    ghost var left := recs;
    ghost var seen: set<nat> := {};
    r := dest;
    var iter := new FieldIter(d);
    var fieldsSeen := NoneSeen(d);
    var fixedField, fixedSize: nat := -1, 0;
    LoopStarts(d, stream.Rest(), dest, recs, tail);
    ghost var ended := false;
    while stream.bytesLeft > 0
      invariant stream.Valid() && stream.bytesLeft <= old(stream.bytesLeft) && stream.End() == old(stream.End())
      invariant fresh(iter) && iter.Valid() && iter.d == d
      invariant TypedMessage(d, r, false) && Agrees(d, fieldsSeen, seen) && ValidFixed(d, fixedField)
      invariant known ==> OnTrack(d, stream.Rest(), dest, recs, State(r, fixedField, fixedSize, seen), left, tail)
      decreases stream.bytesLeft
    {
      ghost var rec := Rec(0, [], false);
      ghost var number: nat := 0;
      ghost var s, st := stream.Rest(), State(r, fixedField, fixedSize, seen);
      FieldIs(d, s);
      if known {
        OtherTurns(d, s, dest, recs, st, left, tail);
        if Tagged(s) && !UnknownAt(d, s) {
          RecordTurn(d, s, dest, recs, st, left, tail);
          rec := left[0];
          number := TagNumber(d, rec);
        }
      }
      var wire, tag, eof;
      ok, wire, tag, eof := DecodeTag(stream, number);
      if !ok {
        if eof {
          ended := true;
          break;
        }
        return false, r;
      }
      var found := iter.Find(tag);
      if !found {
        ok := SkipField(stream, wire);
        if !ok {
          return false, r;
        }
        continue;
      }
      if known {
        left := left[1..];
      }
      ghost var i := iter.pos;
      ok, r, fixedField, fixedSize, fieldsSeen :=
        DecodeKnown(stream, iter, wire, r, fixedField, fixedSize, fieldsSeen, seen, rec);
      if !ok {
        return false, r;
      }
      seen := SeenAfter(d, seen, i);
    }
    if known && !ended {
      FieldIs(d, stream.Rest());
      OtherTurns(d, stream.Rest(), dest, recs, State(r, fixedField, fixedSize, seen), left, tail);
      EmptyHasNoTag(stream.Rest());
    }
    ok := AllComplete(iter, fieldsSeen, fixedField, fixedSize, State(r, fixedField, fixedSize, seen));
  }

  // The checks when the stream has ended.
  method AllComplete(iter: FieldIter, fieldsSeen: seq<Bits>, fixedField: int, fixedSize: nat, ghost st: State)
    returns (ok: bool)
    requires iter.Valid() && Agrees(iter.d, fieldsSeen, st.seen)
    requires ValidFixed(iter.d, fixedField) && st.fixedField == fixedField && st.fixedSize == fixedSize
    modifies iter
    ensures ok == Complete(iter.d, st)
  {
    hide FixedDone, RequiredSeen, RequiredBefore, Agrees;
    FixedDoneMeans(iter.d, st);
    if fixedField != -1 && fixedSize != iter.d.fields[fixedField].rule.max {
      return false;
    }
    ghost var d := iter.d;
    var count := RequiredCount(iter);
    ok := AllSeen(fieldsSeen, count, d, st.seen);
  }

  lemma FixedDoneMeans(d: Descriptor, st: State)
    requires ValidFixed(d, st.fixedField)
    ensures FixedDone(d, st) <==> st.fixedField == -1 || st.fixedSize == d.fields[st.fixedField].rule.max
  {
  }

  // The number of required fields, found by going on to the end of the descriptor.
  method RequiredCount(iter: FieldIter) returns (count: nat)
    requires iter.Valid()
    modifies iter
    ensures count == RequiredBefore(iter.d, |iter.d.fields|)
  {
    var more := true;
    var last := 0;
    count := 0;
    while more
      invariant iter.Valid()
      invariant !more && |iter.d.fields| > 0 ==>
        last == |iter.d.fields| - 1 && count == RequiredBefore(iter.d, |iter.d.fields| - 1)
      invariant |iter.d.fields| == 0 ==> count == 0
      decreases more, |iter.d.fields| - iter.pos
    {
      count, last := iter.requiredFieldIndex, iter.pos;
      more := iter.Next();
    }
    if |iter.d.fields| > 0 && iter.d.fields[last].rule.Required? {
      count := count + 1;
    }
  }

  predicate ValidFixed(d: Descriptor, fixedField: int) {
    -1 <= fixedField < |d.fields| && (fixedField >= 0 ==> d.fields[fixedField].rule.FixedCount?)
  }

  function SeenAfter(d: Descriptor, seen: set<nat>, i: nat): set<nat>
    requires i < |d.fields|
  {
    if d.fields[i].rule.Required? then seen + {i} else seen
  }

  // The part of the loop of pb_decode_noinit for a field that the descriptor has.
  method DecodeKnown(stream: IStream, iter: FieldIter, wire: nat, dest: seq<Slot>, fixedBefore: int, sizeBefore: nat,
                     words: seq<Bits>, ghost seen: set<nat>, ghost rec: Rec)
    returns (ok: bool, r: seq<Slot>, fixedField: int, fixedSize: nat, fieldsSeen: seq<Bits>)
    requires stream.Valid() && WellFormed(iter.d) && iter.Valid() && iter.pos < |iter.d.fields|
    requires TypedMessage(iter.d, dest, false) && Agrees(iter.d, words, seen) && ValidFixed(iter.d, fixedBefore)
    modifies stream
    ensures stream.Valid() && stream.bytesLeft <= old(stream.bytesLeft) && stream.End() <= old(stream.End())
    ensures ok ==>
      && TypedMessage(iter.d, r, false) && stream.End() == old(stream.End()) && ValidFixed(iter.d, fixedField)
      && Agrees(iter.d, fieldsSeen, SeenAfter(iter.d, seen, iter.pos))
    ensures rec.field == iter.pos && RecTyped(iter.d.fields[iter.pos], rec) && wire == RecWire(iter.d.fields[iter.pos], rec)
            && Body(iter.d.fields[iter.pos], rec) <= old(stream.Rest()) && |old(stream.Rest())| < TWO32 ==>
      var put := PutRecord(iter.d, State(dest, fixedBefore, sizeBefore, seen), rec);
      && ok == put.Ok?
      && (ok ==>
          && put.value == State(r, fixedField, fixedSize, SeenAfter(iter.d, seen, iter.pos))
          && stream.Rest() == old(stream.Rest())[|Body(iter.d.fields[iter.pos], rec)|..])
    decreases iter.d, 0
  {
    hide PutRecord, PutSlot, Body, RecTyped, RecWire, TypedSlot, WellFormed, WellFormedField, RequiredBefore, Agrees,
      TypedMessage;
    ghost var d := iter.d;
    ghost var st := State(dest, fixedBefore, sizeBefore, seen);
    r, fixedField, fixedSize, fieldsSeen := dest, fixedBefore, sizeBefore, words;
    var i := iter.pos;
    var f := iter.d.fields[i];
    FieldTyped(d, dest, i);
    if rec.field == i && RecTyped(f, rec) {
      RecTypedItems(f, rec);
      PutRecordSlot(d, st, rec);
    }
    var s := dest[f.slot];
    if f.rule.FixedCount? {
      if fixedField != i {
        if fixedField != -1 && fixedSize != iter.d.fields[fixedField].rule.max {
          return false, r, fixedField, fixedSize, fieldsSeen;
        }
        fixedField, fixedSize := i, 0;
        s := Many([]);
      }
    }
    if f.rule.Required? {
      fieldsSeen := MarkSeen(fieldsSeen, iter.requiredFieldIndex, d, i, seen);
    }
    var slot;
    ok, slot := DecodeSlot(stream, f, wire, s, rec);
    if !ok {
      return false, r, fixedField, fixedSize, fieldsSeen;
    }
    StaysTyped(d, dest, i, slot);
    r := r[f.slot := slot];
    if f.rule.FixedCount? {
      fixedSize := |slot.items|;
    }
  }

  lemma RecTypedItems(f: Field, r: Rec)
    requires RecTyped(f, r)
    ensures r.items != []
  {
  }

  // The varint that starts a record.
  function TagNumber(d: Descriptor, r: Rec): nat {
    if r.field < |d.fields| then d.fields[r.field].tag * 8 + RecWire(d.fields[r.field], r) else 0
  }

  lemma TagFound(d: Descriptor, r: Rec)
    requires WellFormed(d) && r.field < |d.fields|
    ensures 0 < TagNumber(d, r) < TWO32
    ensures TagNumber(d, r) / 8 == d.fields[r.field].tag && TagNumber(d, r) % 8 == RecWire(d.fields[r.field], r)
    ensures forall i :: 0 <= i < |d.fields| && d.fields[i].tag == d.fields[r.field].tag ==> i == r.field
  {
    hide WellFormedKind;
    assert WellFormedField(d.fields[r.field]);
  }

  lemma FieldTyped(d: Descriptor, m: seq<Slot>, i: nat)
    requires WellFormed(d) && TypedMessage(d, m, false) && i < |d.fields|
    ensures var f := d.fields[i];
            && f.slot < |m| && WellFormedField(f) && TypedSlot(f, m[f.slot], false)
            && (f.rule.FixedCount? ==> TypedSlot(f, Many([]), false))
  {
  }

  lemma StaysTyped(d: Descriptor, m: seq<Slot>, i: nat, s: Slot)
    requires WellFormed(d) && TypedMessage(d, m, false) && i < |d.fields|
    requires TypedSlot(d.fields[i], s, false)
    requires d.fields[i].rule.OneOf? ==> s.Choice? && s.which == d.fields[i].tag
    ensures TypedMessage(d, m[d.fields[i].slot := s], false)
  {
    hide Typed, WellFormedField;
    forall j | 0 <= j < |d.fields|
      ensures TypedSlot(d.fields[j], m[d.fields[i].slot := s][d.fields[j].slot], false)
    {
      assert TypedSlot(d.fields[j], m[d.fields[j].slot], false);
    }
  }

  // The varint at the front.
  function FirstTag(s: Bytes): nat
    requires Continued(s) < |s|
  {
    Groups(s, Continued(s) + 1) % TWO32
  }

  // There is a field at the front.
  predicate Tagged(s: Bytes) {
    Continued(s) < |s| && FitsWord(s, Continued(s)) && FirstTag(s) != 0
  }

  // A zero in place of a tag, which ends a message.
  predicate EndsHere(s: Bytes) {
    Continued(s) < |s| && FitsWord(s, Continued(s)) && FirstTag(s) == 0
  }

  // pb_decode_tag; a zero tag ends a message.
  method DecodeTag(stream: IStream, ghost t: nat) returns (ok: bool, wire: nat, tag: nat, eof: bool)
    requires stream.Valid()
    modifies stream
    ensures stream.Valid() && stream.bytesLeft <= old(stream.bytesLeft) && stream.End() == old(stream.End())
    ensures ok ==> stream.bytesLeft < old(stream.bytesLeft)
    ensures var s := old(stream.Rest());
            && ok == Tagged(s)
            && (ok ==> tag == FirstTag(s) / 8 && wire == FirstTag(s) % 8 && stream.Rest() == s[Continued(s) + 1..])
            && eof == (s == [] || EndsHere(s)) && (EndsHere(s) ==> stream.Rest() == s[Continued(s) + 1..])
    ensures 0 < t < TWO32 && EncodeVarint(t) <= old(stream.Rest()) ==>
      ok && tag == t / 8 && wire == t % 8 && stream.Rest() == old(stream.Rest())[|EncodeVarint(t)|..]
  {
    hide EncodeVarint, Groups, Continued, FitsWord;
    var temp;
    ok, temp, eof := DecodeVarint32Eof(stream, t);
    if !ok {
      return false, 0, 0, eof;
    }
    if temp == 0 {
      return false, 0, 0, true;
    }
    return true, temp % 8, temp / 8, false;
  }

  // pb_skip_field.
  method SkipField(stream: IStream, wire: nat) returns (ok: bool)
    requires stream.Valid()
    modifies stream
    ensures stream.Valid() && stream.bytesLeft <= old(stream.bytesLeft) && stream.End() == old(stream.End())
    ensures var n := ValueLength(wire, old(stream.Rest()));
            ok == n.Ok? && (ok ==> stream.Rest() == old(stream.Rest())[n.value..])
  {
    hide Groups, FitsWord;
    ghost var s := stream.Rest();
    if wire == WT_VARINT {
      var byte: Byte := 0x80;
      ok := true;
      ghost var k: nat := 0;
      while ok && byte >= 0x80
        invariant stream.Valid() && stream.bytesLeft <= old(stream.bytesLeft) && stream.End() == old(stream.End())
        invariant k <= |s| && stream.Rest() == s[k..]
        invariant if !ok then Continued(s) == |s|
                  else if byte >= 0x80 then k <= Continued(s)
                  else Continued(s) < |s| && k == Continued(s) + 1
        decreases ok, stream.bytesLeft
      {
        ok, byte := stream.ReadByte();
        k := if ok then k + 1 else k;
      }
    } else if wire == WT_64BIT {
      var skipped;
      ok, skipped := stream.Read(8);
    } else if wire == WT_STRING {
      var length, eof, skipped;
      ok, length, eof := DecodeVarint32Eof(stream, 0);
      if ok {
        ok, skipped := stream.Read(length);
      }
    } else if wire == WT_32BIT {
      var skipped;
      ok, skipped := stream.Read(4);
    } else {
      ok := false;
    }
  }

  // decode_static_field.
  method DecodeSlot(stream: IStream, f: Field, wire: nat, s: Slot, ghost rec: Rec) returns (ok: bool, r: Slot)
    requires stream.Valid() && WellFormedField(f) && TypedSlot(f, s, false)
    modifies stream
    ensures stream.Valid() && stream.bytesLeft <= old(stream.bytesLeft) && stream.End() <= old(stream.End())
    ensures ok ==> TypedSlot(f, r, false) && stream.End() == old(stream.End())
    ensures ok && f.rule.OneOf? ==> r.Choice? && r.which == f.tag
    ensures ok && f.rule.FixedCount? ==> r.Many?
    ensures RecTyped(f, rec) && wire == RecWire(f, rec) && Body(f, rec) <= old(stream.Rest())
            && |old(stream.Rest())| < TWO32 ==>
      && ok == PutSlot(f, s, rec).Ok?
      && (ok ==> r == PutSlot(f, s, rec).value && stream.Rest() == old(stream.Rest())[|Body(f, rec)|..])
    decreases f, 2
  {
    hide WellFormedKind, Typed, EncodeValue, EncodeItems, PutValue, Defaults, Delimited;
    r := s;
    ghost var item := if rec.items != [] then rec.items[0] else Number(0);
    var v;
    match f.rule
    case Required =>
      ok, v := DecodeOne(stream, f.kind, s.value, false, item);
      r := One(v);
    case Singular =>
      ok, v := DecodeOne(stream, f.kind, s.value, false, item);
      r := One(v);
    case Optional =>
      ok, v := DecodeOne(stream, f.kind, s.value, false, item);
      r := Maybe(true, v);
    case Repeated(max) =>
      var items;
      ok, items := DecodeArray(stream, f, wire, s.items, rec);
      r := Many(items);
    case FixedCount(max) =>
      var items;
      ok, items := DecodeArray(stream, f, wire, s.items, rec);
      r := Many(items);
    case OneOf =>
      var initialize := s.which != f.tag;
      ok, v := DecodeOne(stream, f.kind, s.value, initialize, item);
      if initialize && !f.kind.Submessage? {
        PutValueFromAnything(f.kind, s.value, Initial(f.kind), item);
      }
      r := Choice(f.tag, v);
  }

  // The repeated case of decode_static_field.
  method DecodeArray(stream: IStream, f: Field, wire: nat, have: seq<Value>, ghost rec: Rec)
    returns (ok: bool, r: seq<Value>)
    requires stream.Valid() && WellFormedField(f) && IsRepeated(f.rule) && TypedSlot(f, Many(have), false)
    modifies stream
    ensures stream.Valid() && stream.bytesLeft <= old(stream.bytesLeft) && stream.End() <= old(stream.End())
    ensures ok ==> TypedSlot(f, Many(r), false) && stream.End() == old(stream.End())
    ensures RecTyped(f, rec) && wire == RecWire(f, rec) && Body(f, rec) <= old(stream.Rest())
            && |old(stream.Rest())| < TWO32 ==>
      var put := PutItems(f.kind, f.rule.max, have, rec.items);
      && ok == put.Ok?
      && (ok ==> r == put.value && stream.Rest() == old(stream.Rest())[|Body(f, rec)|..])
    decreases f, 1
  {
    hide WellFormedKind, Typed, EncodeValue, EncodeItems, PutValue, Defaults, Delimited, PutItems;
    if wire == WT_STRING && Packable(f.kind) {
      ok, r := DecodePacked(stream, f, have, rec.items);
    } else {
      ghost var item := if rec.items != [] then rec.items[0] else Number(0);
      PutOne(f.kind, f.rule.max, have, item);
      if |have| >= f.rule.max {
        assert RecTyped(f, rec) && wire == RecWire(f, rec) ==> rec.items == [item];
        return false, have;
      }
      var v;
      ok, v := DecodeOne(stream, f.kind, Number(0), true, item);
      assert RecTyped(f, rec) && wire == RecWire(f, rec) ==> rec.items == [item];
      r := have + [v];
    }
  }

  lemma PutOne(k: Kind, max: nat, have: seq<Value>, item: Value)
    ensures PutItems(k, max, have, [item]) ==
            if |have| >= max then Fail
            else
              match PutValue(k, Initial(k), item)
              case Ok(v) => Ok(have + [v])
              case Fail => Fail
  {
    hide PutValue;
    assert [item][1..] == [];
  }

  // A packed array: items until the substream or the room in the array is used up.
  method DecodePacked(stream: IStream, f: Field, have: seq<Value>, ghost items: seq<Value>)
    returns (ok: bool, r: seq<Value>)
    requires stream.Valid() && WellFormedField(f) && IsRepeated(f.rule) && Packable(f.kind)
    requires TypedSlot(f, Many(have), false)
    modifies stream
    ensures stream.Valid() && stream.bytesLeft <= old(stream.bytesLeft) && stream.End() <= old(stream.End())
    ensures ok ==> TypedSlot(f, Many(r), false) && stream.End() == old(stream.End())
    ensures (forall j :: 0 <= j < |items| ==> Typed(f.kind, items[j], true))
            && Delimited(EncodeItems(f.kind, items)) <= old(stream.Rest()) && |old(stream.Rest())| < TWO32 ==>
      var put := PutItems(f.kind, f.rule.max, have, items);
      && ok == put.Ok?
      && (ok ==> r == put.value
                 && stream.Rest() == old(stream.Rest())[|Delimited(EncodeItems(f.kind, items))|..])
  {
    hide WellFormedKind, Typed, EncodeNumber, EncodeItems, Delimited, PutItems;
    ghost var b := EncodeItems(f.kind, items);
    DelimitedLength(b);
    var substream;
    ok, substream := OpenString(stream, b);
    if !ok {
      return false, have;
    }
    var status;
    status, r := DecodeItems(substream, f, have, items);
    if substream.bytesLeft != 0 {
      return false, have;
    }
    CloseString(stream, substream);
    return status, r;
  }

  // The loop over a packed array; status is that of the last item.
  method DecodeItems(substream: IStream, f: Field, have: seq<Value>, ghost items: seq<Value>)
    returns (status: bool, r: seq<Value>)
    requires substream.Valid() && WellFormedField(f) && IsRepeated(f.rule) && Packable(f.kind)
    requires TypedSlot(f, Many(have), false)
    modifies substream
    ensures substream.Valid() && substream.End() == old(substream.End())
    ensures status ==> TypedSlot(f, Many(r), false)
    ensures (forall j :: 0 <= j < |items| ==> Typed(f.kind, items[j], true))
            && old(substream.Rest()) == EncodeItems(f.kind, items) ==>
      if substream.bytesLeft == 0 then status && PutItems(f.kind, f.rule.max, have, items) == Ok(r)
      else PutItems(f.kind, f.rule.max, have, items) == Fail
  {
    hide WellFormedKind, Typed, EncodeNumber, EncodeItems, PutItems;
    ghost var canonical := (forall j :: 0 <= j < |items| ==> Typed(f.kind, items[j], true))
                           && substream.Rest() == EncodeItems(f.kind, items);
    r := have;
    status := true;
    ghost var left := items;
    while status && substream.bytesLeft > 0 && |r| < f.rule.max
      invariant substream.Valid() && substream.End() == old(substream.End())
      invariant TypedSlot(f, Many(r), false)
      invariant canonical ==>
        && status && (forall j :: 0 <= j < |left| ==> Typed(f.kind, left[j], true))
        && substream.Rest() == EncodeItems(f.kind, left)
        && PutItems(f.kind, f.rule.max, r, left) == PutItems(f.kind, f.rule.max, have, items)
      decreases status, f.rule.max - |r|
    {
      if canonical {
        NextItem(f.kind, left, f.rule.max, r);
      }
      var n;
      status, n := DecodeNumber(substream, f.kind, if left != [] && left[0].Number? then left[0].n else 0);
      if status {
        r := r + [Number(n)];
        left := if left != [] then left[1..] else [];
      }
    }
    if canonical {
      LastItem(f.kind, left, f.rule.max, r);
    }
  }

  lemma NextItem(k: Kind, left: seq<Value>, max: nat, have: seq<Value>)
    requires Packable(k) && EncodeItems(k, left) != [] && forall j :: 0 <= j < |left| ==> Typed(k, left[j], true)
    ensures left != [] && left[0].Number?
    ensures var e := EncodeNumber(k, left[0].n);
            e <= EncodeItems(k, left) && EncodeItems(k, left)[|e|..] == EncodeItems(k, left[1..])
    ensures |have| < max ==> PutItems(k, max, have, left) == PutItems(k, max, have + [left[0]], left[1..])
  {
    hide EncodeNumber;
  }

  lemma LastItem(k: Kind, left: seq<Value>, max: nat, have: seq<Value>)
    requires Packable(k) && forall j :: 0 <= j < |left| ==> Typed(k, left[j], true)
    ensures EncodeItems(k, left) == [] ==> PutItems(k, max, have, left) == Ok(have)
    ensures EncodeItems(k, left) != [] && |have| >= max ==> PutItems(k, max, have, left) == Fail
  {
    if left != [] {
      NumberLength(k, left[0].n);
      assert EncodeItems(k, left) == EncodeNumber(k, left[0].n) + EncodeItems(k, left[1..]);
    }
  }

  lemma NumberLength(k: Kind, n: int)
    ensures |EncodeNumber(k, n)| > 0
  {
  }

  // pb_message_set_to_defaults; what the struct held before does not matter.
  method MessageToDefaults(d: Descriptor, m: seq<Slot>) returns (r: seq<Slot>)
    requires WellFormed(d) && |m| == d.slots
    ensures r == Defaults(d)
    decreases d
  {
    hide DefaultSlot, RequiredBefore, Defaults, WellFormedField;
    DefaultsFromAnything(d, m);
    r := m;
    var iter := new FieldIter(d);
    if |d.fields| == 0 {
      return;
    }
    var more := true;
    while more
      invariant iter.Valid() && fresh(iter) && iter.d == d && |r| == d.slots
      invariant more ==> iter.pos < |d.fields| && SetDefaults(d, r, iter.pos) == SetDefaults(d, m, 0)
      invariant !more ==> r == SetDefaults(d, m, 0)
      decreases more, |d.fields| - iter.pos
    {
      var f := d.fields[iter.pos];
      assert WellFormedField(f);
      var s := FieldToDefault(f);
      r := r[f.slot := s];
      more := iter.Next();
    }
  }

  // pb_field_set_to_default.
  method FieldToDefault(f: Field) returns (s: Slot)
    requires WellFormedField(f)
    ensures s == DefaultSlot(f)
    decreases f
  {
    hide Defaults, WellFormed, Typed;
    if IsRepeated(f.rule) {
      return Many([]);
    }
    if f.rule.OneOf? {
      return Choice(0, Number(0));
    }
    var v := f.init;
    if f.kind.Submessage? {
      var slots := MessageToDefaults(f.kind.desc, Blank(f.kind.desc.slots));
      v := Message(slots);
    }
    return if f.rule.Optional? then Maybe(false, v) else One(v);
  }

  lemma {:induction false} DefaultsFromAnything(d: Descriptor, m: seq<Slot>)
    requires WellFormed(d) && |m| == d.slots
    ensures SetDefaults(d, m, 0) == Defaults(d)
  {
    hide SetDefaults, WellFormedField, DefaultSlot;
    forall s | 0 <= s < d.slots ensures SetDefaults(d, m, 0)[s] == Defaults(d)[s] {
      assert Used(d, s);
      var i: nat :| i < |d.fields| && d.fields[i].slot == s;
      SetDefaultsAll(d, m, i);
      SetDefaultsAll(d, Blank(d.slots), i);
    }
  }

  lemma {:induction false} DefaultsTyped(d: Descriptor)
    requires WellFormed(d)
    ensures TypedMessage(d, Defaults(d), false)
    decreases d
  {
    hide SetDefaults, Typed;
    forall i | 0 <= i < |d.fields|
      ensures TypedSlot(d.fields[i], Defaults(d)[d.fields[i].slot], false)
    {
      var f := d.fields[i];
      SetDefaultsAll(d, Blank(d.slots), i);
      DefaultSlotTyped(f);
    }
  }

  lemma {:induction false} DefaultSlotTyped(f: Field)
    requires WellFormedField(f)
    ensures TypedSlot(f, DefaultSlot(f), false)
    decreases f
  {
    hide Defaults, WellFormed, TypedMessage;
    if f.kind.Submessage? {
      DefaultsTyped(f.kind.desc);
    }
  }
}
