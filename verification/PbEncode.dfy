/**
 pb_encode.c: the encoder writes a message in one pass, but for every nested message it first makes a
 sizing pass. It accepts exactly the messages within their descriptor's limits that fit the output, and
 writes their encoding; the two passes agree, so the check that the size has not changed never fails.
 */
module PbEncode {
  import opened ByteStrings
  import opened PbMessage
  import opened PbFieldIter

  // The output so far: the bytes at the destination and the number of bytes counted.
  datatype Progress = Progress(state: Bytes, bytesWritten: nat)

  function Advance(writing: bool, p: Progress, b: Bytes): Progress {
    Progress(if writing then p.state + b else p.state, p.bytesWritten + |b|)
  }

  lemma AdvanceTwice(writing: bool, p: Progress, a: Bytes, b: Bytes)
    ensures Advance(writing, Advance(writing, p, a), b) == Advance(writing, p, a + b)
  {
    assert p.state + a + b == p.state + (a + b);
  }

  lemma AdvanceNothing(writing: bool, p: Progress)
    ensures Advance(writing, p, []) == p
  {
    assert p.state + [] == p.state;
  }

  // pb_ostream_t over a buffer, or without a callback for sizing.
  class OStream {
    const writing: bool
    const maxSize: nat
    var state: Bytes
    var bytesWritten: nat

    ghost predicate Valid()
      reads this
    {
      writing ==> bytesWritten <= maxSize
    }

    ghost function Output(): Progress
      reads this
    {
      Progress(state, bytesWritten)
    }

    ghost predicate Room(n: nat)
      reads this
    {
      writing ==> bytesWritten + n <= maxSize
    }

    constructor FromBuffer(bufSize: nat, state: Bytes)
      ensures Valid() && Output() == Progress(state, 0)
      ensures writing && maxSize == bufSize
    {
      writing, maxSize := true, bufSize;
      this.state, bytesWritten := state, 0;
    }

    constructor Sizing()
      ensures Valid() && Output() == Progress([], 0) && !writing
    {
      writing, maxSize := false, 0;
      state, bytesWritten := [], 0;
    }

    // pb_write.
    method Write(buf: Bytes) returns (ok: bool)
      requires Valid()
      modifies this
      ensures Valid()
      ensures ok == old(Room(|buf|))
      ensures ok ==> Output() == Advance(writing, old(Output()), buf)
    {
      if |buf| > 0 && writing {
        if bytesWritten + |buf| > maxSize {
          return false;
        }
        state := state + buf;
      }
      bytesWritten := bytesWritten + |buf|;
      AdvanceNothing(writing, old(Output()));
      return true;
    }

    // pb_write without data, as the sizing passes use it.
    method Count(size: nat) returns (ok: bool)
      requires Valid() && !writing
      modifies this
      ensures ok && state == old(state) && bytesWritten == old(bytesWritten) + size
    {
      bytesWritten := bytesWritten + size;
      return true;
    }
  }

  lemma {:induction false} VarintLength(v: nat, n: nat)
    requires n >= 1 && v < Pow2(7 * n)
    ensures |EncodeVarint(v)| <= n
  {
    Pow2Of7();
    if v >= 128 && n > 1 {
      Pow2Add(7, 7 * (n - 1));
      VarintLength(v / 128, n - 1);
    }
  }

  lemma Varint64Length(v: nat)
    requires v < TWO64
    ensures |EncodeVarint(v)| <= 10
  {
    hide Pow2, EncodeVarint;
    Pow2Of64();
    Pow2Monotone(64, 70);
    VarintLength(v, 10);
  }

  // pb_encode_varint; its buffer holds ten bytes.
  method WriteVarint(stream: OStream, value: nat) returns (ok: bool)
    requires stream.Valid() && value < TWO64
    modifies stream
    ensures stream.Valid()
    ensures ok == old(stream.Room(|EncodeVarint(value)|))
    ensures ok ==> stream.Output() == Advance(stream.writing, old(stream.Output()), EncodeVarint(value))
  {
    if value <= 0x7F {
      ok := stream.Write([value]);
      return;
    }
    Varint64Length(value);
    var buffer: Bytes := [];
    var left: nat := value;
    while left > 0
      invariant left > 0 ==> EncodeVarint(value) == buffer + EncodeVarint(left)
      invariant left == 0 ==>
        |buffer| > 0 && buffer[|buffer| - 1] >= 128 &&
        EncodeVarint(value) == buffer[|buffer| - 1 := buffer[|buffer| - 1] - 128]
    {
      assert |buffer| < 10;
      buffer := buffer + [left % 128 + 128];
      left := left / 128;
    }
    buffer := buffer[|buffer| - 1 := buffer[|buffer| - 1] - 128];
    ok := stream.Write(buffer);
  }

  // pb_encode_svarint: the complement of the shifted value when it is negative.
  method WriteSVarint(stream: OStream, value: int) returns (ok: bool)
    requires stream.Valid() && FitsSigned(8, value)
    modifies stream
    ensures stream.Valid()
    ensures ok == old(stream.Room(|EncodeVarint(ZigZag(value))|))
    ensures ok ==> stream.Output() == Advance(stream.writing, old(stream.Output()), EncodeVarint(ZigZag(value)))
  {
    var zigzagged: nat;
    if value < 0 {
      zigzagged := TWO64 - 1 - 2 * (value + TWO64) % TWO64;
      assert 2 * (value + TWO64) % TWO64 == 2 * value + TWO64;
    } else {
      zigzagged := 2 * value % TWO64;
    }
    ok := WriteVarint(stream, zigzagged);
  }

  // pb_encode_tag_for_field.
  method WriteTagForField(stream: OStream, f: Field) returns (ok: bool)
    requires stream.Valid() && f.tag < TAG_LIMIT
    modifies stream
    ensures stream.Valid()
    ensures ok == old(stream.Room(|EncodeTag(f.tag, WireType(f.kind))|))
    ensures ok ==> stream.Output() == Advance(stream.writing, old(stream.Output()), EncodeTag(f.tag, WireType(f.kind)))
  {
    var wireType := match f.kind
      case Fixed32 => WT_32BIT
      case Fixed64 => WT_64BIT
      case BytesKind(_) => WT_STRING
      case StringKind(_) => WT_STRING
      case Submessage(_) => WT_STRING
      case FixedBytes(_) => WT_STRING
      case _ => WT_VARINT;
    ok := WriteVarint(stream, f.tag * 8 + wireType);
  }

  // pb_encode_string.
  method WriteString(stream: OStream, buffer: Bytes) returns (ok: bool)
    requires stream.Valid() && |buffer| < TWO64
    modifies stream
    ensures stream.Valid()
    ensures ok == old(stream.Room(|Delimited(buffer)|))
    ensures ok ==> stream.Output() == Advance(stream.writing, old(stream.Output()), Delimited(buffer))
  {
    AdvanceTwice(stream.writing, stream.Output(), EncodeVarint(|buffer|), buffer);
    ok := WriteVarint(stream, |buffer|);
    if !ok {
      return;
    }
    ok := stream.Write(buffer);
  }

  // The scalar entries of PB_ENCODERS.
  method WriteNumber(stream: OStream, k: Kind, n: int) returns (ok: bool)
    requires stream.Valid() && Packable(k) && WellFormedKind(k) && Typed(k, Number(n), true)
    modifies stream
    ensures stream.Valid()
    ensures ok == old(stream.Room(|EncodeNumber(k, n)|))
    ensures ok ==> stream.Output() == Advance(stream.writing, old(stream.Output()), EncodeNumber(k, n))
  {
    hide EncodeVarint, ZigZag, ByteAt;
    NumberFits(k, n);
    if k.BoolKind? {
      ok := WriteVarint(stream, if n != 0 then 1 else 0);
    } else if k.SVarint? {
      ok := WriteSVarint(stream, n);
    } else if k.Fixed32? {
      ok := stream.Write([ByteAt(n, 1), ByteAt(n, 0x100), ByteAt(n, 0x1_0000), ByteAt(n, 0x100_0000)]);
    } else if k.Fixed64? {
      ok := stream.Write([ByteAt(n, 1), ByteAt(n, 0x100), ByteAt(n, 0x1_0000), ByteAt(n, 0x100_0000),
                          ByteAt(n, 0x1_0000_0000), ByteAt(n, 0x100_0000_0000), ByteAt(n, 0x1_0000_0000_0000),
                          ByteAt(n, 0x100_0000_0000_0000)]);
    } else {
      ok := WriteVarint(stream, if n < 0 then n + TWO64 else n);
    }
  }

  // What the scalar encoders use of a value's type.
  lemma NumberFits(k: Kind, n: int)
    requires Packable(k) && WellFormedKind(k) && Typed(k, Number(n), true)
    ensures if k.Varint? || k.SVarint? then FitsSigned(8, n) else 0 <= n < TWO64
    ensures k.Fixed32? ==> n < TWO32 && n % TWO32 == n
    ensures !k.Fixed32? ==> n % TWO64 == if n < 0 then n + TWO64 else n
  {
  }

  // The encoding of one field.
  function EncodeSlot(f: Field, s: Slot): Bytes {
    match s
    case One(v) => if f.rule.Singular? && IsZero(f, s) then [] else EncodeSingle(f, v)
    case Maybe(has, v) => if has then EncodeSingle(f, v) else []
    case Many(items) =>
      if items == [] then []
      else if Packable(f.kind) then EncodeTag(f.tag, WT_STRING) + Delimited(EncodeItems(f.kind, items))
      else EncodeSingles(f, items)
    case Choice(which, v) => if which == f.tag then EncodeSingle(f, v) else []
  }

  function EncodeSingle(f: Field, v: Value): Bytes {
    EncodeTag(f.tag, WireType(f.kind)) + EncodeValue(f.kind, v)
  }

  function EncodeSingles(f: Field, items: seq<Value>): Bytes {
    if items == [] then [] else EncodeSingle(f, items[0]) + EncodeSingles(f, items[1..])
  }

  // The encoding of the fields from number i on.
  function EncodeFields(d: Descriptor, m: seq<Slot>, i: nat): Bytes
    decreases |d.fields| - i
  {
    if i >= |d.fields| then []
    else
      var f := d.fields[i];
      (if f.slot < |m| then EncodeSlot(f, m[f.slot]) else []) + EncodeFields(d, m, i + 1)
  }

  lemma {:induction false} SinglesEncoding(d: Descriptor, i: nat, items: seq<Value>)
    requires i < |d.fields|
    ensures EncodeRecords(d, Singles(i, items)) == EncodeSingles(d.fields[i], items)
  {
    hide EncodeValue;
    if items != [] {
      SinglesEncoding(d, i, items[1..]);
      assert Singles(i, items)[1..] == Singles(i, items[1..]);
    }
  }

  lemma {:induction false} SlotEncoding(d: Descriptor, i: nat, s: Slot)
    requires i < |d.fields|
    ensures EncodeRecords(d, FieldRecords(i, d.fields[i], s)) == EncodeSlot(d.fields[i], s)
  {
    hide EncodeValue, EncodeItems, IsZero;
    var recs := FieldRecords(i, d.fields[i], s);
    if s.Many? && !Packable(d.fields[i].kind) {
      SinglesEncoding(d, i, s.items);
    } else if recs != [] {
      assert recs[1..] == [];
      assert EncodeRecords(d, recs) == EncodeRec(d, recs[0]);
    }
  }

  // Field by field, the encoder writes the encoding of the message.
  lemma {:induction false} FieldsEncoding(d: Descriptor, m: seq<Slot>, i: nat)
    ensures EncodeRecords(d, Records(d, m, i)) == EncodeFields(d, m, i)
    decreases |d.fields| - i
  {
    hide FieldRecords, EncodeSlot;
    if i < |d.fields| {
      var f := d.fields[i];
      var recs := if f.slot < |m| then FieldRecords(i, f, m[f.slot]) else [];
      EncodeRecordsAppend(d, recs, Records(d, m, i + 1));
      FieldsEncoding(d, m, i + 1);
      if f.slot < |m| {
        SlotEncoding(d, i, m[f.slot]);
      }
    }
  }
}
