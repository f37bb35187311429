/**
 Input streams and varint decoders of pb_decode.c. They take arbitrary bytes, overlong varints among them; a ghost
 argument names the value whose canonical encoding the bytes may be.
 */
module PbDecode {
  import opened ByteStrings
  import opened PbMessage

  // pb_istream_t over a buffer.
  class IStream {
    const source: Bytes
    var pos: nat
    var bytesLeft: nat

    ghost predicate Valid()
      reads this
    {
      End() <= |source|
    }

    // Where the stream ends; reading leaves it alone.
    ghost function End(): nat
      reads this
    {
      pos + bytesLeft
    }

    // The bytes not yet read.
    ghost function Rest(): (rest: Bytes)
      requires Valid()
      reads this
      ensures |rest| == bytesLeft
    {
      source[pos..pos + bytesLeft]
    }

    constructor (source: Bytes)
      ensures Valid() && Rest() == source && this.source == source
    {
      this.source := source;
      pos, bytesLeft := 0, |source|;
    }

    // A stream over the next size bytes of another.
    constructor Limited(source: Bytes, pos: nat, size: nat)
      requires pos + size <= |source|
      ensures Valid() && Rest() == source[pos..pos + size]
      ensures this.source == source && this.pos == pos
    {
      this.source := source;
      this.pos, bytesLeft := pos, size;
    }

    // pb_read.
    method Read(count: nat) returns (ok: bool, buf: Bytes)
      requires Valid()
      modifies this
      ensures Valid() && End() == old(End()) && ok == (count <= old(bytesLeft))
      ensures if ok then buf == old(Rest())[..count] && Rest() == old(Rest())[count..]
              else bytesLeft == old(bytesLeft) && pos == old(pos)
    {
      if count == 0 {
        return true, [];
      }
      if bytesLeft < count {
        return false, [];
      }
      buf := source[pos..pos + count];
      pos := pos + count;
      bytesLeft := bytesLeft - count;
      ok := true;
    }

    // pb_readbyte.
    method ReadByte() returns (ok: bool, byte: Byte)
      requires Valid()
      modifies this
      ensures Valid() && End() == old(End()) && ok == (old(bytesLeft) > 0)
      ensures if ok then byte == old(Rest())[0] && Rest() == old(Rest())[1..]
              else bytesLeft == old(bytesLeft)
    {
      if bytesLeft == 0 {
        return false, 0;
      }
      byte := source[pos];
      pos := pos + 1;
      bytesLeft := bytesLeft - 1;
      ok := true;
    }
  }

  // result |= b << bitpos in a word of the given number of bits, of which result fills those below bitpos.
  function OrShifted(result: nat, b: nat, bitpos: nat, bits: nat): nat {
    result + b * Pow2(bitpos) % Pow2(bits)
  }

  // What the bits read so far can be.
  predicate Below(result: nat, bitpos: nat, bits: nat) {
    result < if bitpos < bits then Pow2(bitpos) else Pow2(bits)
  }

  // A byte past the first five of a 32-bit varint: nothing, or more of the sign.
  predicate Extends(s: Bytes, k: nat)
    requires 5 <= k < |s|
  {
    s[k] % 128 == 0 || (Groups(s, 5) % TWO32 >= 0x8000_0000 && s[k] == if k < 9 then 0xFF else 0x01)
  }

  // The varint of n + 1 bytes is taken for a 32-bit value. Of the fifth byte four bits count, and the rest of it is
  // looked at only when it is the last.
  predicate FitsWord(s: Bytes, n: nat)
    requires n < |s|
  {
    (n == 4 ==> s[4] < 16) && forall k | 5 <= k <= n :: Extends(s, k)
  }

  // How many bytes the value of a field takes by its wire type alone, if that many are there.
  function ValueLength(wire: nat, s: Bytes): (n: Result<nat>)
    ensures n.Ok? ==> n.value <= |s|
  {
    var k := Continued(s);
    if wire == WT_VARINT then if k < |s| then Ok(k + 1) else Fail
    else if wire == WT_64BIT then if |s| >= 8 then Ok(8) else Fail
    else if wire == WT_32BIT then if |s| >= 4 then Ok(4) else Fail
    else if wire == WT_STRING && k < |s| && FitsWord(s, k) then
      var length := Groups(s, k + 1) % TWO32;
      if k + 1 + length <= |s| then Ok(k + 1 + length) else Fail
    else Fail
  }

  // The bits read from the first k bytes.
  ghost predicate Stored(s: Bytes, k: nat, result: nat, bits: nat) {
    k <= |s| && Below(result, 7 * k, bits) && result == Groups(s, k) % Pow2(bits)
  }

  lemma NothingStored(s: Bytes, bits: nat)
    requires bits > 0
    ensures Stored(s, 0, 0, bits)
  {
    hide Pow2;
    NothingRead(bits);
    SmallMod(0, Pow2(bits));
  }

  lemma StoreOne(s: Bytes, k: nat, result: nat, bits: nat)
    requires Stored(s, k, result, bits) && k < |s| && 7 * k < bits
    ensures Stored(s, k + 1, OrShifted(result, s[k] % 128, 7 * k, bits), bits)
  {
    hide Pow2, Groups;
    var b, p, m := s[k] % 128, Pow2(7 * k), Pow2(bits);
    BitsFit(b, result, 7 * k, bits);
    BelowWord(OrShifted(result, b, 7 * k, bits), 7 * k + 7, bits);
    OneMoreGroup(s, k);
    ModSum(Groups(s, k), b * p, m);
  }

  lemma StorePast(s: Bytes, k: nat, result: nat, bits: nat)
    requires Stored(s, k, result, bits) && k < |s| && 7 * k >= bits
    ensures Stored(s, k + 1, result, bits)
  {
    hide Pow2, Groups;
    var b, q, m := s[k] % 128, Pow2(7 * k - bits), Pow2(bits);
    OneMoreGroup(s, k);
    Pow2Add(7 * k - bits, bits);
    assert b * (q * m) == (b * q) * m;
    ModPlusMultiple(Groups(s, k), b * q, m);
  }

  // Residues that stay below the modulus add up.
  lemma ModSum(x: nat, y: nat, m: nat)
    requires m > 0 && x % m + y % m < m
    ensures (x + y) % m == x % m + y % m
  {
    ModPlusMultiple(x % m + y % m, x / m + y / m, m);
    assert x + y == (x % m + y % m) + (x / m + y / m) * m;
    SmallMod(x % m + y % m, m);
  }

  // Only the value's own bytes are needed for it.
  lemma CanonicalFits(v: nat, s: Bytes, bits: nat)
    requires EncodeVarint(v) <= s && v < Pow2(bits)
    ensures var n := Continued(s);
            n < |s| && Groups(s, n + 1) == v && (n > 0 ==> 7 * n < bits && s[n] * Pow2(7 * n) <= v)
  {
    hide Pow2, Groups;
    CanonicalGroups(v, s);
    var n := Continued(s);
    if n > 0 {
      OneMoreGroup(s, n);
      AtLeast(s[n], Pow2(7 * n));
      if 7 * n >= bits {
        Pow2Monotone(bits, 7 * n);
      }
    }
  }

  // Four bits of the fifth byte are left to a 32-bit value.
  lemma CanonicalWord(v: nat, s: Bytes)
    requires EncodeVarint(v) <= s && v < TWO32
    ensures var n := Continued(s);
            n < |s| && Groups(s, n + 1) == v && FitsWord(s, n)
  {
    hide Pow2, Groups, Continued, EncodeVarint, Extends;
    Pow2Of32();
    CanonicalFits(v, s, 32);
    var n := Continued(s);
    if n == 4 {
      Pow2Add(28, 4);
      Pow2Of4();
      assert Pow2(28) == 0x1000_0000;
    }
  }

  lemma NothingRead(bits: nat)
    requires bits > 0
    ensures Below(0, 0, bits)
  {
  }

  // Seven bits shifted into a word stay apart from the bits below them.
  lemma BitsFit(b: nat, result: nat, bitpos: nat, bits: nat)
    requires b < 128 && bitpos < bits && Below(result, bitpos, bits)
    ensures Below(OrShifted(result, b, bitpos, bits), bitpos + 7, bits)
  {
    hide Pow2;
    var p, q := Pow2(bitpos), Pow2(bits - bitpos);
    Pow2Add(bitpos, bits - bitpos);
    Pow2Step(bitpos);
    Multiples(b, 127, p);
    SmallMod(b * p, Pow2(bits));
    ModMultiple(b, p, q);
  }

  lemma BelowWord(result: nat, bitpos: nat, bits: nat)
    requires Below(result, bitpos, bits)
    ensures result < Pow2(bits)
  {
    hide Pow2;
    if bitpos < bits {
      Pow2Monotone(bitpos, bits);
    }
  }

  lemma ModMultiple(b: nat, p: nat, q: nat)
    requires p > 0 && q > 0 && p * q > 0
    ensures b * p % (p * q) <= p * q - p
  {
    var k, r := b / q, b % q;
    Distribute(k, q, r, p, 0);
    assert (k * q + r) * p == b * p;
    Multiples(r, q - 1, p);
    assert (q - 1) * p == p * q - p;
    assert p * q == q * p;
    Quotient(b * p, p * q, k, r * p);
  }

  // pb_decode_varint: at most ten bytes, of whose bits the low 64 count.
  method DecodeVarint(stream: IStream, ghost v: nat) returns (ok: bool, dest: nat)
    requires stream.Valid()
    modifies stream
    ensures stream.Valid() && stream.bytesLeft <= old(stream.bytesLeft) && stream.End() == old(stream.End())
    ensures var s, n := old(stream.Rest()), Continued(old(stream.Rest()));
            && ok == (n < |s| && n < 10)
            && (ok ==> dest == Groups(s, n + 1) % TWO64 && stream.Rest() == s[n + 1..])
    ensures ok ==> dest < TWO64
    ensures v < TWO64 && EncodeVarint(v) <= old(stream.Rest()) ==>
      ok && dest == v && stream.Rest() == old(stream.Rest())[|EncodeVarint(v)|..]
  {
    hide EncodeVarint, Pow2, OrShifted, Stored, Groups, Continued;
    ghost var s, n, k: nat := stream.Rest(), Continued(stream.Rest()), 0;
    Pow2Of64();
    NothingStored(s, 64);
    var bitpos: nat := 0;
    var result: nat := 0;
    var more := true;
    while more
      invariant stream.Valid() && stream.bytesLeft <= old(stream.bytesLeft) && stream.End() == old(stream.End())
      invariant bitpos == 7 * k && k <= 10 && k <= |s| && stream.Rest() == s[k..] && Stored(s, k, result, 64)
      invariant if more then k <= n else n < |s| && k == n + 1
      decreases more, stream.bytesLeft
    {
      if bitpos >= 64 {
        TooLong(v, s, 64);
        return false, 0;
      }
      var read, byte := stream.ReadByte();
      if !read {
        TooLong(v, s, 64);
        return false, 0;
      }
      StoreOne(s, k, result, 64);
      result := OrShifted(result, byte % 128, bitpos, 64);
      bitpos := bitpos + 7;
      more := byte >= 128;
      k := k + 1;
    }
    StoredIs(s, n, result, v, 64);
    return true, result;
  }

  lemma TooLong(v: nat, s: Bytes, bits: nat)
    requires Continued(s) == |s| || 7 * Continued(s) >= bits > 0
    ensures !(v < Pow2(bits) && EncodeVarint(v) <= s)
  {
    hide Pow2, Groups, Continued, EncodeVarint;
    if v < Pow2(bits) && EncodeVarint(v) <= s {
      CanonicalFits(v, s, bits);
    }
  }

  lemma StoredIs(s: Bytes, n: nat, result: nat, v: nat, bits: nat)
    requires Stored(s, n + 1, result, bits) && n == Continued(s)
    ensures n < |s| && result == Groups(s, n + 1) % Pow2(bits) && result < Pow2(bits)
    ensures v < Pow2(bits) && EncodeVarint(v) <= s ==> result == v && |EncodeVarint(v)| == n + 1
  {
    hide Pow2, Groups, Continued, EncodeVarint;
    BelowWord(result, 7 * (n + 1), bits);
    if v < Pow2(bits) && EncodeVarint(v) <= s {
      CanonicalGroups(v, s);
      SmallMod(v, Pow2(bits));
    }
  }

  // pb_decode_varint32_eof; eof tells that the stream was at its end.
  method DecodeVarint32Eof(stream: IStream, ghost v: nat) returns (ok: bool, dest: nat, eof: bool)
    requires stream.Valid()
    modifies stream
    ensures stream.Valid() && stream.bytesLeft <= old(stream.bytesLeft) && stream.End() == old(stream.End())
    ensures var s, n := old(stream.Rest()), Continued(old(stream.Rest()));
            && ok == (n < |s| && FitsWord(s, n))
            && (ok ==> dest == Groups(s, n + 1) % TWO32 && stream.Rest() == s[n + 1..])
    ensures ok ==> dest < TWO32 && stream.bytesLeft < old(stream.bytesLeft)
    ensures eof == (old(stream.bytesLeft) == 0) && (eof ==> !ok)
    ensures v < TWO32 && EncodeVarint(v) <= old(stream.Rest()) ==>
      ok && dest == v && stream.Rest() == old(stream.Rest())[|EncodeVarint(v)|..]
  {
    hide *;
    ghost var s, n, k: nat := stream.Rest(), Continued(stream.Rest()), 1;
    Refused(v, s);
    ContinuedIs(s);
    var read, byte := stream.ReadByte();
    if !read {
      return false, 0, true;
    }
    FirstTaken(s);
    if byte < 0x80 {
      WordTaken(s, n, byte, v);
      return true, byte, false;
    }
    var result: nat := byte % 128;
    var bitpos: nat := 7;
    var more := true;
    while more
      invariant stream.Valid() && stream.bytesLeft < old(stream.bytesLeft) && stream.End() == old(stream.End())
      invariant bitpos == 7 * k && 1 <= k <= |s| && stream.Rest() == s[k..] && Taken(s, k, result)
      invariant if more then k <= n else n < |s| && k == n + 1 && byte == s[n]
      decreases more, stream.bytesLeft
    {
      read, byte := stream.ReadByte();
      if !read {
        return false, 0, false;
      }
      TakeOne(s, k, result);
      if bitpos >= 32 {
        var signExtension := if bitpos < 63 then 0xFF else 0x01;
        if byte % 128 != 0 && (result / 0x8000_0000 == 0 || byte != signExtension) {
          NotFollowed(s, k, n);
          return false, 0, false;
        }
      } else {
        result := OrShifted(result, byte % 128, bitpos, 32);
      }
      bitpos := bitpos + 7;
      more := byte >= 128;
      k := k + 1;
    }
    WordTaken(s, n, result, v);
    if bitpos == 35 && byte / 16 % 8 != 0 {
      return false, 0, false;
    }
    return true, result, false;
  }

  // The bytes read so far are those of a 32-bit value, but for the high bits of the fifth.
  ghost predicate Taken(s: Bytes, k: nat, result: nat) {
    && Stored(s, k, result, 32) && (forall j | 5 <= j < k :: Extends(s, j))
    && (k >= 5 ==> result == Groups(s, 5) % TWO32)
  }

  lemma FirstTaken(s: Bytes)
    requires |s| > 0
    ensures Taken(s, 1, s[0] % 128)
  {
    hide Pow2, OrShifted, Stored;
    NothingStored(s, 32);
    StoreOne(s, 0, 0, 32);
    FirstBits(s[0] % 128, 32);
  }

  lemma TakeOne(s: Bytes, k: nat, result: nat)
    requires Taken(s, k, result) && k < |s|
    ensures k < 5 ==> Taken(s, k + 1, OrShifted(result, s[k] % 128, 7 * k, 32))
    ensures k >= 5 ==>
              && (Extends(s, k) <==>
                  s[k] % 128 == 0 || (result / 0x8000_0000 != 0 && s[k] == if 7 * k < 63 then 0xFF else 0x01))
              && (Extends(s, k) ==> Taken(s, k + 1, result))
  {
    hide Pow2, OrShifted, Stored, Groups;
    Pow2Of32();
    if k < 5 {
      StoreOne(s, k, result, 32);
      StoredWord(s, k + 1, OrShifted(result, s[k] % 128, 7 * k, 32));
    } else {
      StorePast(s, k, result, 32);
    }
  }

  lemma StoredWord(s: Bytes, k: nat, result: nat)
    requires Stored(s, k, result, 32)
    ensures k <= |s| && result == Groups(s, k) % TWO32
  {
    hide Groups, Pow2;
    Pow2Of32();
  }

  lemma WordTaken(s: Bytes, n: nat, result: nat, v: nat)
    requires Taken(s, n + 1, result) && n == Continued(s)
    ensures n < |s| && result == Groups(s, n + 1) % TWO32 && result < TWO32
    ensures FitsWord(s, n) <==> n != 4 || s[n] / 16 % 8 == 0
    ensures v < TWO32 && EncodeVarint(v) <= s ==> result == v && |EncodeVarint(v)| == n + 1
  {
    hide Stored, Groups, Extends, Pow2, EncodeVarint;
    Pow2Of32();
    StoredIs(s, n, result, v, 32);
  }

  lemma NotFollowed(s: Bytes, k: nat, n: nat)
    requires 5 <= k <= n && k < |s| && !Extends(s, k)
    ensures n < |s| ==> !FitsWord(s, n)
  {
    hide Extends;
  }

  // A varint that is not taken is none the encoder writes for a 32-bit value.
  lemma Refused(v: nat, s: Bytes)
    ensures Continued(s) == |s| || !FitsWord(s, Continued(s)) ==> !(v < TWO32 && EncodeVarint(v) <= s)
  {
    hide EncodeVarint, FitsWord;
    if v < TWO32 && EncodeVarint(v) <= s {
      CanonicalWord(v, s);
    }
  }

  lemma FirstBits(b: nat, bits: nat)
    requires b < 128 && bits > 7
    ensures Below(b, 7, bits) && OrShifted(0, b, 0, bits) == b
  {
    Pow2Of7();
    Pow2Monotone(7, bits);
  }

  lemma Pow2Of4()
    ensures Pow2(4) == 16
  {
    assert Pow2(2) == 4;
  }
}
