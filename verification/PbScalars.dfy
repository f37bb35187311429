/**
 The decoders of pb_decode.c for single values other than messages.
 */
module PbScalars {
  import opened ByteStrings
  import opened PbMessage
  import opened PbDecode

  // A cast to a signed integer of size bytes.
  function CastSigned(size: nat, x: int): int {
    if size == 1 then (x + 0x80) % 0x100 - 0x80
    else if size == 2 then (x + 0x8000) % 0x1_0000 - 0x8000
    else if size == 4 then (x + 0x8000_0000) % 0x1_0000_0000 - 0x8000_0000
    else (x + 0x8000_0000_0000_0000) % 0x1_0000_0000_0000_0000 - 0x8000_0000_0000_0000
  }

  function CastUnsigned(size: nat, x: nat): nat {
    if size == 1 then x % 0x100
    else if size == 2 then x % 0x1_0000
    else if size == 4 then x % 0x1_0000_0000
    else x % 0x1_0000_0000_0000_0000
  }

  lemma CastsFit(size: nat, x: int)
    requires IntegerSize(size)
    ensures CastSigned(size, x) == x <==> FitsSigned(size, x)
    ensures x >= 0 ==> (CastUnsigned(size, x) == x <==> FitsUnsigned(size, x))
  {
  }

  // A signed value survives being sign-extended to 64 bits, written as unsigned, and cut to its size again.
  lemma SignSurvives(size: nat, n: int)
    requires IntegerSize(size) && FitsSigned(size, n)
    ensures CastSigned(8, n % TWO64) == n
    ensures size != 8 ==> CastSigned(4, n % TWO64) == n
  {
  }

  function UnZigZag(value: nat): int {
    if value % 2 == 1 then -1 - value / 2 else value / 2
  }

  lemma ZigZagRoundTrip(n: int)
    requires FitsSigned(8, n)
    ensures ZigZag(n) < TWO64 && UnZigZag(ZigZag(n)) == n
  {
    assert ZigZag(n) == if n < 0 then -2 * n - 1 else 2 * n;
  }

  // ---------------------------------------------------------------------------
  // What stands at the front of any bytes
  // ---------------------------------------------------------------------------

  // A varint of up to 64 bits.
  function LongAt(s: Bytes): Result<nat> {
    var n := Continued(s);
    if n < |s| && n < 10 then Ok(Groups(s, n + 1) % TWO64) else Fail
  }

  // A varint of up to 32 bits.
  function WordAt(s: Bytes): Result<nat> {
    var n := Continued(s);
    if n < |s| && FitsWord(s, n) then Ok(Groups(s, n + 1) % TWO32) else Fail
  }

  // A number of the kind, if there is one and it fits its size. Fields of at most 32 bits are cut to 32 bits first.
  function NumberAt(k: Kind, s: Bytes): Result<int> {
    match k
    case BoolKind => (match WordAt(s) case Ok(v) => Ok(if v != 0 then 1 else 0) case Fail => Fail)
    case Varint(size) =>
      (match LongAt(s)
       case Ok(v) =>
         var x := CastSigned(if size == 8 then 8 else 4, v);
         if FitsSigned(size, x) then Ok(x) else Fail
       case Fail => Fail)
    case UVarint(size) =>
      (match LongAt(s) case Ok(v) => if FitsUnsigned(size, v) then Ok(v) else Fail case Fail => Fail)
    case SVarint(size) =>
      (match LongAt(s)
       case Ok(v) => if FitsSigned(size, UnZigZag(v)) then Ok(UnZigZag(v)) else Fail
       case Fail => Fail)
    case Fixed32 => if |s| >= 4 then Ok(DecodeFixed32(s)) else Fail
    case Fixed64 => if |s| >= 8 then Ok(DecodeFixed64(s)) else Fail
    case _ => Fail
  }

  // A length and as many bytes.
  function BlobAt(s: Bytes): Result<Bytes> {
    match ValueLength(WT_STRING, s)
    case Ok(n) => if Continued(s) + 1 <= n then Ok(s[Continued(s) + 1..n]) else Fail
    case Fail => Fail
  }

  // The bytes of a field of the kind, if they are there and fit. No bytes at all stand for zeros where the length is
  // fixed.
  function BytesAt(k: Kind, s: Bytes): Result<Bytes> {
    match (k, BlobAt(s))
    case (BytesKind(capacity), Ok(b)) => if |b| <= capacity then Ok(b) else Fail
    case (StringKind(size), Ok(b)) => if |b| < size then Ok(CString(b)) else Fail
    case (FixedBytes(size), Ok(b)) =>
      if b == [] then Ok(seq(size, _ => 0)) else if |b| == size then Ok(b) else Fail
    case _ => Fail
  }

  // Bytes that follow what was taken, if it was.
  ghost predicate Takes(s: Bytes, wire: nat, rest: Bytes) {
    ValueLength(wire, s).Ok? && rest == s[ValueLength(wire, s).value..]
  }

  lemma VarintTaken(s: Bytes)
    ensures var n := Continued(s); n < |s| ==> ValueLength(WT_VARINT, s) == Ok(n + 1)
  {
  }

  // Reading the length first and then that many bytes.
  lemma BlobParts(s: Bytes)
    ensures match WordAt(s)
            case Ok(size) =>
              var rest := s[Continued(s) + 1..];
              && (BlobAt(s).Ok? <==> size <= |rest|)
              && (size <= |rest| ==> BlobAt(s).value == rest[..size] && Takes(s, WT_STRING, rest[size..]))
            case Fail => BlobAt(s).Fail?
    ensures var n := Continued(s);
            WordAt(s) == if n < |s| && FitsWord(s, n) then Ok(Groups(s, n + 1) % TWO32) else Fail
  {
    hide Groups, FitsWord, Continued;
    if WordAt(s).Ok? {
      var size, n, rest := WordAt(s).value, Continued(s) + 1, s[Continued(s) + 1..];
      if size <= |rest| {
        assert s[n..n + size] == rest[..size] && s[n + size..] == rest[size..];
      }
    }
  }

  // pb_decode_svarint: an odd value stands for the complement of its half.
  method DecodeSVarint(stream: IStream, ghost n: int) returns (ok: bool, dest: int)
    requires stream.Valid()
    modifies stream
    ensures stream.Valid() && stream.bytesLeft <= old(stream.bytesLeft) && stream.End() == old(stream.End())
    ensures var v := LongAt(old(stream.Rest()));
            ok == v.Ok? && (ok ==> dest == UnZigZag(v.value) && Takes(old(stream.Rest()), WT_VARINT, stream.Rest()))
    ensures FitsSigned(8, n) && EncodeVarint(ZigZag(n)) <= old(stream.Rest()) ==>
      ok && dest == n && stream.Rest() == old(stream.Rest())[|EncodeVarint(ZigZag(n))|..]
  {
    hide EncodeVarint, Groups, Continued, ZigZag, ValueLength;
    VarintTaken(stream.Rest());
    if FitsSigned(8, n) {
      ZigZagRoundTrip(n);
    }
    var value: nat;
    ok, value := DecodeVarint(stream, ZigZag(n));
    if !ok {
      return false, 0;
    }
    if value % 2 == 1 {
      dest := CastSigned(8, TWO64 - 1 - value / 2);
    } else {
      dest := CastSigned(8, value / 2);
    }
    HalfFits(value);
  }

  lemma HalfFits(value: nat)
    ensures value < TWO64 ==> CastSigned(8, TWO64 - 1 - value / 2) == -1 - value / 2
    ensures value < TWO64 ==> CastSigned(8, value / 2) == value / 2
  {
  }

  // The scalar entries of PB_DECODERS.
  method DecodeNumber(stream: IStream, k: Kind, ghost n: int) returns (ok: bool, dest: int)
    requires stream.Valid() && Packable(k) && WellFormedKind(k)
    modifies stream
    ensures stream.Valid() && stream.bytesLeft <= old(stream.bytesLeft) && stream.End() == old(stream.End())
    ensures ok ==> Typed(k, Number(dest), false)
    ensures var v := NumberAt(k, old(stream.Rest()));
            ok == v.Ok? && (ok ==> dest == v.value && Takes(old(stream.Rest()), WireType(k), stream.Rest()))
    ensures Typed(k, Number(n), true) && EncodeNumber(k, n) <= old(stream.Rest()) ==>
      ok && dest == n && stream.Rest() == old(stream.Rest())[|EncodeNumber(k, n)|..]
  {
    hide ValueLength, UnZigZag, LongAt;
    VarintTaken(stream.Rest());
    hide EncodeVarint, Groups, Continued, FitsWord, ZigZag, FitsSigned, FitsUnsigned, CastSigned, CastUnsigned;
    if k.BoolKind? {
      var eof, value;
      ok, value, eof := DecodeVarint32Eof(stream, if n == 1 then 1 else 0);
      dest := if value != 0 then 1 else 0;
    } else if k.Varint? {
      ok, dest := DecodeSigned(stream, k.size, n);
    } else if k.UVarint? {
      ok, dest := DecodeUnsigned(stream, k.size, n);
    } else if k.SVarint? {
      if FitsSigned(k.size, n) {
        Widen(k.size, n);
      }
      var value;
      ok, value := DecodeSVarint(stream, n);
      CastsFit(k.size, value);
      dest := CastSigned(k.size, value);
      ok := ok && dest == value;
    } else {
      ok, dest := DecodeFixed(stream, k, n);
    }
  }

  lemma Widen(size: nat, n: int)
    requires FitsSigned(size, n)
    ensures FitsSigned(8, n)
  {
  }

  // pb_dec_varint: fields of at most 32 bits are cut to 32 bits first.
  method DecodeSigned(stream: IStream, size: nat, ghost n: int) returns (ok: bool, dest: int)
    requires stream.Valid() && IntegerSize(size)
    modifies stream
    ensures stream.Valid() && stream.bytesLeft <= old(stream.bytesLeft) && stream.End() == old(stream.End())
    ensures ok ==> FitsSigned(size, dest)
    ensures var v := NumberAt(Varint(size), old(stream.Rest()));
            ok == v.Ok? && (ok ==> dest == v.value && Takes(old(stream.Rest()), WT_VARINT, stream.Rest()))
    ensures FitsSigned(size, n) && EncodeVarint(n % TWO64) <= old(stream.Rest()) ==>
      ok && dest == n && stream.Rest() == old(stream.Rest())[|EncodeVarint(n % TWO64)|..]
  {
    hide EncodeVarint, Groups, Continued, FitsSigned, CastSigned, ValueLength;
    VarintTaken(stream.Rest());
    if FitsSigned(size, n) {
      SignSurvives(size, n);
    }
    var value;
    ok, value := DecodeVarint(stream, n % TWO64);
    if !ok {
      return false, 0;
    }
    var svalue: int;
    if size == 8 {
      svalue := CastSigned(8, value);
    } else {
      svalue := CastSigned(4, value);
    }
    dest := CastSigned(size, svalue);
    CastsFit(size, svalue);
    ok := dest == svalue;
  }

  // pb_dec_uvarint.
  method DecodeUnsigned(stream: IStream, size: nat, ghost n: int) returns (ok: bool, dest: int)
    requires stream.Valid() && IntegerSize(size)
    modifies stream
    ensures stream.Valid() && stream.bytesLeft <= old(stream.bytesLeft) && stream.End() == old(stream.End())
    ensures ok ==> FitsUnsigned(size, dest)
    ensures var v := NumberAt(UVarint(size), old(stream.Rest()));
            ok == v.Ok? && (ok ==> dest == v.value && Takes(old(stream.Rest()), WT_VARINT, stream.Rest()))
    ensures FitsUnsigned(size, n) && EncodeVarint(n % TWO64) <= old(stream.Rest()) ==>
      ok && dest == n && stream.Rest() == old(stream.Rest())[|EncodeVarint(n % TWO64)|..]
  {
    hide EncodeVarint, Groups, Continued, CastUnsigned, ValueLength;
    VarintTaken(stream.Rest());
    var value;
    ok, value := DecodeVarint(stream, n % TWO64);
    if !ok {
      return false, 0;
    }
    dest := CastUnsigned(size, value);
    CastsFit(size, value);
    ok := dest == value;
  }

  // pb_dec_fixed32 and pb_dec_fixed64.
  method DecodeFixed(stream: IStream, k: Kind, ghost n: int) returns (ok: bool, dest: int)
    requires stream.Valid() && (k.Fixed32? || k.Fixed64?)
    modifies stream
    ensures stream.Valid() && stream.bytesLeft <= old(stream.bytesLeft) && stream.End() == old(stream.End())
    ensures ok ==> Typed(k, Number(dest), false)
    ensures var v := NumberAt(k, old(stream.Rest()));
            ok == v.Ok? && (ok ==> dest == v.value && Takes(old(stream.Rest()), WireType(k), stream.Rest()))
    ensures Typed(k, Number(n), true) && EncodeNumber(k, n) <= old(stream.Rest()) ==>
      ok && dest == n && stream.Rest() == old(stream.Rest())[|EncodeNumber(k, n)|..]
  {
    hide EncodeFixed32, EncodeFixed64, DecodeFixed32, DecodeFixed64, ValueLength, LongAt, WordAt;
    FixedTaken(stream.Rest());
    if Typed(k, Number(n), true) {
      if k.Fixed32? {
        Fixed32RoundTrip(n);
      } else {
        Fixed64RoundTrip(n);
      }
    }
    ghost var rest0 := stream.Rest();
    var bytes;
    ok, bytes := stream.Read(if k.Fixed32? then 4 else 8);
    if !ok {
      return false, 0;
    }
    assert Typed(k, Number(n), true) && EncodeNumber(k, n) <= rest0 ==> bytes == EncodeNumber(k, n);
    dest := if k.Fixed32? then DecodeFixed32(bytes) else DecodeFixed64(bytes);
  }

  lemma FixedTaken(s: Bytes)
    ensures |s| >= 4 ==> ValueLength(WT_32BIT, s) == Ok(4) && DecodeFixed32(s[..4]) == DecodeFixed32(s)
    ensures |s| >= 8 ==> ValueLength(WT_64BIT, s) == Ok(8) && DecodeFixed64(s[..8]) == DecodeFixed64(s)
  {
  }

  // The part of a byte string before its first zero.
  function CString(b: Bytes): (s: Bytes)
    ensures |s| <= |b| && 0 !in s
    ensures 0 !in b ==> s == b
  {
    if b == [] || b[0] == 0 then [] else [b[0]] + CString(b[1..])
  }

  // pb_dec_bytes, pb_dec_string and pb_dec_fixed_length_bytes.
  method DecodeBlob(stream: IStream, k: Kind, ghost b: Bytes) returns (ok: bool, dest: Bytes)
    requires stream.Valid() && (k.BytesKind? || k.StringKind? || k.FixedBytes?) && WellFormedKind(k)
    modifies stream
    ensures stream.Valid() && stream.bytesLeft <= old(stream.bytesLeft) && stream.End() == old(stream.End())
    ensures ok ==> Typed(k, Blob(dest), false)
    ensures var b := BytesAt(k, old(stream.Rest()));
            ok == b.Ok? && (ok ==> dest == b.value && Takes(old(stream.Rest()), WT_STRING, stream.Rest()))
    ensures Typed(k, Blob(b), true) && |b| < TWO32 && Delimited(b) <= old(stream.Rest()) ==>
      && ok == (match k case BytesKind(capacity) => |b| <= capacity case StringKind(size) => |b| < size case _ => true)
      && (ok ==> dest == b && stream.Rest() == old(stream.Rest())[|Delimited(b)|..])
  {
    hide Delimited, CString, BlobAt, Takes;
    match k {
      case BytesKind(capacity) =>
        ok, dest := DecodeBytes(stream, capacity, b);
      case StringKind(size) =>
        ok, dest := DecodeString(stream, size, b);
      case FixedBytes(size) =>
        ok, dest := DecodeFixedBytes(stream, size, b);
    }
  }

  // pb_dec_bytes.
  method DecodeBytes(stream: IStream, capacity: nat, ghost b: Bytes) returns (ok: bool, dest: Bytes)
    requires stream.Valid()
    modifies stream
    ensures stream.Valid() && stream.bytesLeft <= old(stream.bytesLeft) && stream.End() == old(stream.End())
    ensures ok ==> |dest| <= capacity
    ensures var b := BlobAt(old(stream.Rest()));
            && ok == (b.Ok? && |b.value| <= capacity)
            && (ok ==> dest == b.value && Takes(old(stream.Rest()), WT_STRING, stream.Rest()))
    ensures |b| < TWO32 && Delimited(b) <= old(stream.Rest()) ==>
      && ok == (|b| <= capacity && |b| <= SIZE_MAX)
      && (ok ==> dest == b && stream.Rest() == old(stream.Rest())[|Delimited(b)|..])
  {
    hide EncodeVarint, Groups, Continued, FitsWord, Delimited, BlobAt, WordAt, ValueLength, Takes;
    SizeComesFirst(b, stream.Rest());
    BlobParts(stream.Rest());
    var size, eof;
    ok, size, eof := DecodeVarint32Eof(stream, |b|);
    if !ok || size > SIZE_MAX || size > capacity {
      return false, [];
    }
    ok, dest := stream.Read(size);
  }

  // pb_dec_string.
  method DecodeString(stream: IStream, capacity: nat, ghost b: Bytes) returns (ok: bool, dest: Bytes)
    requires stream.Valid()
    modifies stream
    ensures stream.Valid() && stream.bytesLeft <= old(stream.bytesLeft) && stream.End() == old(stream.End())
    ensures ok ==> |dest| < capacity && 0 !in dest
    ensures var b := BlobAt(old(stream.Rest()));
            && ok == (b.Ok? && |b.value| < capacity)
            && (ok ==> dest == CString(b.value) && Takes(old(stream.Rest()), WT_STRING, stream.Rest()))
    ensures |b| < TWO32 && Delimited(b) <= old(stream.Rest()) ==>
      && ok == (|b| < capacity)
      && (ok ==> dest == CString(b) && stream.Rest() == old(stream.Rest())[|Delimited(b)|..])
  {
    hide EncodeVarint, Groups, Continued, FitsWord, Delimited, CString, BlobAt, WordAt, ValueLength, Takes;
    SizeComesFirst(b, stream.Rest());
    BlobParts(stream.Rest());
    var size, eof;
    ok, size, eof := DecodeVarint32Eof(stream, |b|);
    if !ok || size + 1 > capacity {
      return false, [];
    }
    ok, dest := stream.Read(size);
    CStringEnds(dest);
    dest := CString(dest);
  }

  lemma CStringEnds(b: Bytes)
    ensures |CString(b)| <= |b| && 0 !in CString(b)
  {
  }

  // pb_dec_fixed_length_bytes.
  method DecodeFixedBytes(stream: IStream, length: nat, ghost b: Bytes) returns (ok: bool, dest: Bytes)
    requires stream.Valid()
    modifies stream
    ensures stream.Valid() && stream.bytesLeft <= old(stream.bytesLeft) && stream.End() == old(stream.End())
    ensures ok ==> |dest| == length
    // no bytes at all stand for zeros
    ensures var b := BlobAt(old(stream.Rest()));
            && ok == (b.Ok? && (b.value == [] || |b.value| == length))
            && (ok ==> dest == (if b.value == [] then seq(length, _ => 0) else b.value)
                       && Takes(old(stream.Rest()), WT_STRING, stream.Rest()))
    ensures |b| == length < TWO32 && Delimited(b) <= old(stream.Rest()) ==>
      ok == (length <= SIZE_MAX) && (ok ==> dest == b && stream.Rest() == old(stream.Rest())[|Delimited(b)|..])
  {
    hide EncodeVarint, Groups, Continued, FitsWord, Delimited, BlobAt, WordAt, ValueLength, Takes;
    SizeComesFirst(b, stream.Rest());
    BlobParts(stream.Rest());
    var size, eof;
    ok, size, eof := DecodeVarint32Eof(stream, |b|);
    if !ok || size > SIZE_MAX {
      return false, [];
    }
    if size == 0 {
      return true, seq(length, _ => 0);
    }
    if size != length {
      return false, [];
    }
    ok, dest := stream.Read(length);
  }

  lemma DelimitedBlob(b: Bytes, s: Bytes)
    requires |b| < TWO32 && Delimited(b) <= s
    ensures BlobAt(s) == Ok(b) && Takes(s, WT_STRING, s[|Delimited(b)|..])
  {
    hide EncodeVarint, Groups, Continued, FitsWord;
    DelimitedParts(b, s);
    CanonicalGroups(|b|, s);
    CanonicalWord(|b|, s);
    SmallMod(|b|, TWO32);
    var n := |EncodeVarint(|b|)|;
    assert s[n..n + |b|] == s[n..][..|b|] == b;
  }

  lemma SizeComesFirst(b: Bytes, rest: Bytes)
    ensures Delimited(b) <= rest ==>
              var n := |EncodeVarint(|b|)|;
              && EncodeVarint(|b|) <= rest && |Delimited(b)| == n + |b|
              && b <= rest[n..] && rest[n..][..|b|] == b && rest[n..][|b|..] == rest[|Delimited(b)|..]
  {
    if Delimited(b) <= rest {
      DelimitedParts(b, rest);
    }
  }

  lemma DelimitedParts(b: Bytes, rest: Bytes)
    requires Delimited(b) <= rest
    ensures var n := |EncodeVarint(|b|)|;
            && EncodeVarint(|b|) <= rest && |Delimited(b)| == n + |b|
            && b <= rest[n..] && rest[n..][|b|..] == rest[|Delimited(b)|..]
  {
    hide EncodeVarint;
    var n := |EncodeVarint(|b|)|;
    assert rest[..n] == Delimited(b)[..n] == EncodeVarint(|b|);
    assert rest[n..][..|b|] == rest[..n + |b|][n..] == Delimited(b)[n..] == b;
  }
}
