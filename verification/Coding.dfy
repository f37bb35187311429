/**
 The varint and length-prefixed codecs of util/coding.cc.
 */
module Coding {
  import opened ByteStrings

  // A value read off the front of some bytes, and the bytes after it.
  datatype Parsed<T> = Parsed(value: T, rest: Bytes) | Malformed

  datatype Width = Bits32 | Bits64

  function Modulus(w: Width): (m: nat)
    ensures m > 0
  {
    if w.Bits32? then 0x1_0000_0000 else 0x1_0000_0000_0000_0000
  }

  // The last shift the decoders take.
  function LastShift(w: Width): nat {
    if w.Bits32? then 28 else 63
  }

  // result |= b << shift in words of this width, of which result fills the bits below shift.
  function OrAt(w: Width, result: nat, b: nat, shift: nat): (r: nat)
    ensures r < Modulus(w)
  {
    (result + b * Pow2(shift)) % Modulus(w)
  }

  // GetVarint32PtrFallback and GetVarint64Ptr, from bit position shift on with result read so far.
  function ParseVarint(w: Width, input: Bytes, shift: nat, result: nat): (p: Parsed<nat>)
    ensures p.Parsed? ==> p.value < Modulus(w)
    decreases 70 - shift
  {
    if shift > LastShift(w) || input == [] then Malformed
    else
      var result' := OrAt(w, result, input[0] % 128, shift);
      if input[0] >= 128 then ParseVarint(w, input[1..], shift + 7, result')
      else Parsed(result', input[1..])
  }

  function GetVarint32(input: Bytes): (p: Parsed<Word>) {
    match ParseVarint(Bits32, input, 0, 0)
    case Parsed(v, rest) => Parsed(v, rest)
    case Malformed => Malformed
  }

  function GetVarint64(input: Bytes): (p: Parsed<nat>)
    ensures p.Parsed? ==> p.value < 0x1_0000_0000_0000_0000
  {
    ParseVarint(Bits64, input, 0, 0)
  }

  function LengthPrefixed(b: Bytes): Bytes {
    EncodeVarint(|b|) + b
  }

  function GetLengthPrefixed(input: Bytes): Parsed<Bytes> {
    match GetVarint32(input)
    case Parsed(n, rest) => if |rest| >= n then Parsed(rest[..n], rest[n..]) else Malformed
    case Malformed => Malformed
  }

  lemma {:induction false} VarintShrinks(w: Width, input: Bytes, shift: nat, result: nat)
    ensures var r := ParseVarint(w, input, shift, result); r.Parsed? ==> |r.rest| < |input|
    decreases 70 - shift
  {
    hide OrAt;
    if shift <= LastShift(w) && input != [] {
      VarintShrinks(w, input[1..], shift + 7, OrAt(w, result, input[0] % 128, shift));
    }
  }

  // Whatever is read is taken off the front.
  lemma Shrinks(input: Bytes)
    ensures GetVarint32(input).Parsed? ==> |GetVarint32(input).rest| < |input|
    ensures GetVarint64(input).Parsed? ==> |GetVarint64(input).rest| < |input|
    ensures GetLengthPrefixed(input).Parsed? ==> |GetLengthPrefixed(input).rest| < |input|
  {
    hide ParseVarint;
    VarintShrinks(Bits32, input, 0, 0);
    VarintShrinks(Bits64, input, 0, 0);
  }

  lemma {:induction false} VarintInTheMiddle(width: Width, v: nat, w: nat, shift: nat, result: nat, rest: Bytes)
    requires v < Modulus(width) && v == result + Pow2(shift) * w && shift % 7 == 0 && (w > 0 || shift == 0)
    ensures ParseVarint(width, EncodeVarint(w) + rest, shift, result) == Parsed(v, rest)
    decreases w
  {
    hide Pow2, EncodeVarint, OrAt;
    var input := EncodeVarint(w) + rest;
    var low := w % 128;
    ShiftFits(width, v, w, shift, result);
    OrFits(width, v, w, shift, result);
    FirstByteOf(w, rest);
    if w >= 128 {
      VarintInTheMiddle(width, v, w / 128, shift + 7, OrAt(width, result, low, shift), rest);
    }
  }

  lemma OrFits(width: Width, v: nat, w: nat, shift: nat, result: nat)
    requires v < Modulus(width) && v == result + Pow2(shift) * w
    ensures v == OrAt(width, result, w % 128, shift) + Pow2(shift + 7) * (w / 128)
    ensures w < 128 ==> v == OrAt(width, result, w % 128, shift)
  {
    hide Pow2;
    var low := w % 128;
    Pow2Step(shift);
    SplitWeight(v, result, Pow2(shift), w);
    Multiples(0, w / 128, Pow2(shift + 7));
    SmallMod(result + low * Pow2(shift), Modulus(width));
  }

  lemma FirstByteOf(w: nat, rest: Bytes)
    ensures var input := EncodeVarint(w) + rest;
            && |input| > 0 && input[0] % 128 == w % 128 && (input[0] >= 128 <==> w >= 128)
            && input[1..] == if w >= 128 then EncodeVarint(w / 128) + rest else rest
  {
    var e := EncodeVarint(w);
    assert (e + rest)[0] == e[0] && (e + rest)[1..] == e[1..] + rest;
    if w >= 128 {
      assert e[1..] == EncodeVarint(w / 128);
    }
  }

  lemma ShiftFits(width: Width, v: nat, w: nat, shift: nat, result: nat)
    requires v < Modulus(width) && v == result + Pow2(shift) * w && shift % 7 == 0 && (w > 0 || shift == 0)
    ensures shift <= LastShift(width)
  {
    hide Pow2;
    if w > 0 {
      Pow2Of32();
      Pow2Of64();
      AtLeast(w, Pow2(shift));
      if width.Bits32? && shift >= 32 {
        Pow2Monotone(32, shift);
      }
      if width.Bits64? && shift >= 64 {
        Pow2Monotone(64, shift);
      }
    }
  }

  // The most bytes a varint may have.
  function MaxBytes(w: Width): nat {
    if w.Bits32? then 5 else 10
  }

  // On any bytes: a varint is read if it ends within its most bytes, and its value is what the bits of its groups come
  // to in the word.
  lemma AnyVarint(w: Width, input: Bytes)
    ensures var n, r := Continued(input), ParseVarint(w, input, 0, 0);
            && (r.Parsed? <==> n < |input| && n < MaxBytes(w))
            && (r.Parsed? ==> r.value == Groups(input, n + 1) % Modulus(w) && r.rest == input[n + 1..])
  {
    hide ParseVarint, Groups, Continued;
    NoGroups(input, Modulus(w));
    assert input[0..] == input;
    VarintFrom(w, input, 0, 0);
  }

  lemma NoGroups(s: Bytes, m: nat)
    requires m > 0
    ensures Groups(s, 0) % m == 0
  {
  }

  lemma {:induction false} VarintFrom(w: Width, s: Bytes, k: nat, result: nat)
    requires k <= |s| && k <= Continued(s) && k <= MaxBytes(w) && result == Groups(s, k) % Modulus(w)
    ensures var n, r := Continued(s), ParseVarint(w, s[k..], 7 * k, result);
            && (r.Parsed? <==> n < |s| && n < MaxBytes(w))
            && (r.Parsed? ==> r.value == Groups(s, n + 1) % Modulus(w) && r.rest == s[n + 1..])
    decreases MaxBytes(w) - k
  {
    hide Groups, Continued, OrAt;
    ContinuedIs(s);
    if 7 * k <= LastShift(w) && k < |s| {
      var next := OrAt(w, result, s[k] % 128, 7 * k);
      assert s[k..][0] == s[k] && s[k..][1..] == s[k + 1..];
      NextGroup(w, s, k, result);
      if s[k] >= 128 {
        VarintFrom(w, s, k + 1, next);
      }
    }
  }

  lemma NextGroup(w: Width, s: Bytes, k: nat, result: nat)
    requires k < |s| && result == Groups(s, k) % Modulus(w)
    ensures OrAt(w, result, s[k] % 128, 7 * k) == Groups(s, k + 1) % Modulus(w)
  {
    hide Groups, Pow2;
    OneMoreGroup(s, k);
    ModPlus(Groups(s, k), s[k] % 128 * Pow2(7 * k), Modulus(w));
  }

  lemma ModPlus(x: nat, y: nat, m: nat)
    requires m > 0
    ensures (x % m + y) % m == (x + y) % m
  {
    var q, r := x / m, x % m;
    assert x == q * m + r;
    ModPlusMultiple(r + y, q, m);
  }

  lemma VarintRoundTrip(v: Word, rest: Bytes)
    ensures GetVarint32(EncodeVarint(v) + rest) == Parsed(v, rest)
  {
    hide ParseVarint;
    VarintInTheMiddle(Bits32, v, v, 0, 0, rest);
  }

  lemma Varint64RoundTrip(v: nat, rest: Bytes)
    requires v < 0x1_0000_0000_0000_0000
    ensures GetVarint64(EncodeVarint(v) + rest) == Parsed(v, rest)
  {
    hide ParseVarint;
    VarintInTheMiddle(Bits64, v, v, 0, 0, rest);
  }

  lemma LengthPrefixedRoundTrip(b: Bytes, rest: Bytes)
    requires |b| < 0x1_0000_0000
    ensures GetLengthPrefixed(LengthPrefixed(b) + rest) == Parsed(b, rest)
  {
    hide EncodeVarint, GetVarint32;
    assert LengthPrefixed(b) + rest == EncodeVarint(|b|) + (b + rest);
    VarintRoundTrip(|b|, b + rest);
    assert (b + rest)[..|b|] == b && (b + rest)[|b|..] == rest;
  }

  // EncodeVarint64's loop; PutVarint32 writes the same bytes without one.
  method PutVarint(dst: Bytes, value: nat) returns (r: Bytes)
    ensures r == dst + EncodeVarint(value)
  {
    r := dst;
    var v: nat := value;
    while v >= 128
      invariant r + EncodeVarint(v) == dst + EncodeVarint(value)
    {
      r := r + [v % 128 + 128];
      v := v / 128;
    }
    r := r + [v];
  }

  // PutLengthPrefixedSlice.
  method PutLengthPrefixed(dst: Bytes, b: Bytes) returns (r: Bytes)
    ensures r == dst + LengthPrefixed(b)
  {
    r := PutVarint(dst, |b|);
    r := r + b;
  }

  // The loop of GetVarint32PtrFallback and of GetVarint64Ptr.
  method ReadVarint(w: Width, input: Bytes) returns (ok: bool, value: nat, rest: Bytes)
    ensures ParseVarint(w, input, 0, 0) == if ok then Parsed(value, rest) else Malformed
  {
    hide Pow2, OrAt;
    var shift, result: nat := 0, 0;
    rest := input;
    while shift <= LastShift(w) && |rest| > 0
      invariant ParseVarint(w, rest, shift, result) == ParseVarint(w, input, 0, 0)
      decreases 70 - shift
    {
      var byte := rest[0];
      rest := rest[1..];
      if byte >= 128 {
        result := OrAt(w, result, byte % 128, shift);
      } else {
        result := OrAt(w, result, byte, shift);
        return true, result, rest;
      }
      shift := shift + 7;
    }
    return false, 0, rest;
  }

  // GetLengthPrefixedSlice.
  method ReadLengthPrefixed(input: Bytes) returns (ok: bool, value: Bytes, rest: Bytes)
    ensures GetLengthPrefixed(input) == if ok then Parsed(value, rest) else Malformed
  {
    var n;
    ok, n, rest := ReadVarint(Bits32, input);
    value := [];
    if ok && |rest| >= n {
      value, rest := rest[..n], rest[n..];
    } else {
      ok := false;
    }
  }
}
