/**
 nanopb as its users see it: pb_encode into a buffer, pb_decode out of it.
 */
module PbCodec {
  import opened ByteStrings
  import opened PbMessage
  import opened PbRoundTrip
  import opened PbEncode
  import PbEncoder
  import opened PbDecode
  import opened PbDecoder

  // pb_decode: defaults first, then the bytes.
  method Decode(stream: IStream, d: Descriptor, struct: seq<Slot>, ghost recs: seq<Rec>,
                ghost tail: Bytes)
    returns (ok: bool, r: seq<Slot>)
    requires stream.Valid() && WellFormed(d) && |struct| == d.slots
    modifies stream
    ensures stream.Valid() && (ok ==> TypedMessage(d, r, false))
    ensures RecsTyped(d, recs) && Interleaved(d, old(stream.Rest()), recs, tail) && |old(stream.Rest())| < TWO32 ==>
      var put := PutRecords(d, Start(Defaults(d)), recs);
      && (Finished(tail) ==>
            && ok == (put.Ok? && Complete(d, put.value))
            && (ok ==> r == put.value.dest && stream.Rest() == Unread(tail)))
      && (Broken(d, tail) ==> !ok)
  {
    hide *;
    DefaultsTyped(d);
    var dest := MessageToDefaults(d, struct);
    ok, r := DecodeMessage(stream, d, dest, recs, tail);
  }

  // pb_get_encoded_size.
  method EncodedSize(d: Descriptor, m: seq<Slot>) returns (ok: bool, size: nat)
    requires WellFormed(d) && TypedMessage(d, m, true) && |Encoding(d, m)| < TWO64
    ensures ok == Encodable(d, m) && (ok ==> size == |Encoding(d, m)|)
  {
    hide EncodeFields, EncodeRecords;
    FieldsEncoding(d, m, 0);
    var stream := new OStream.Sizing();
    ok := PbEncoder.EncodeMessage(stream, d, m);
    size := stream.bytesWritten;
  }

  /** Encoding a message into a buffer and decoding what was written succeeds exactly when the message respects
   its descriptor's limits, fits the buffer and has all its strings terminated; it then gives the message back,
   absent fields being at their defaults. */
  method EncodeThenDecode(d: Descriptor, m: seq<Slot>, bufSize: nat, struct: seq<Slot>)
    returns (ok: bool, r: seq<Slot>)
    requires WellFormed(d) && TypedMessage(d, m, true) && |Encoding(d, m)| < TWO32 && |struct| == d.slots
    ensures ok == (Encodable(d, m) && |Encoding(d, m)| <= bufSize && Terminated(d, m))
    ensures ok ==> Restored(d, m, r)
  {
    hide EncodeFields, EncodeRecords, WellFormed, TypedMessage, RecsTyped, Records, PutRecords, Complete;
    FieldsEncoding(d, m, 0);
    var out := new OStream.FromBuffer(bufSize, []);
    ok := PbEncoder.EncodeMessage(out, d, m);
    if !ok {
      return false, struct;
    }
    assert out.state == Encoding(d, m);
    RecordsTyped(d, m, 0);
    MessageBack(d, m);
    EncodedIsInterleaved(d, Records(d, m, 0));
    var stream := new IStream(out.state);
    ok, r := Decode(stream, d, struct, Records(d, m, 0), []);
  }
}
