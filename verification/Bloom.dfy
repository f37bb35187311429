/**
 The Bloom filter of util/bloom.cc, over any hash function: a key that was added always matches.
 */
module Bloom {
  import opened ByteStrings

  type Hash = Bytes -> Word

  // ---------------------------------------------------------------------------
  // Bits of a byte array
  // ---------------------------------------------------------------------------

  function Digit(b: bool): nat {
    if b then 1 else 0
  }

  // A number from its binary digits, lowest first.
  function Number(bits: seq<bool>): (n: nat)
    ensures n < Pow2(|bits|)
  {
    if bits == [] then 0 else Digit(bits[0]) + 2 * Number(bits[1..])
  }

  function Digits(n: nat, width: nat): (bits: seq<bool>)
    ensures |bits| == width
  {
    if width == 0 then [] else [n % 2 == 1] + Digits(n / 2, width - 1)
  }

  lemma {:induction false} DigitsBack(bits: seq<bool>)
    ensures Digits(Number(bits), |bits|) == bits
  {
    if bits != [] {
      DigitsBack(bits[1..]);
      LowDigit(bits[0], Number(bits[1..]));
    }
  }

  lemma LowDigit(d: bool, r: nat)
    ensures (Digit(d) + 2 * r) / 2 == r && ((Digit(d) + 2 * r) % 2 == 1 <==> d)
  {
  }

  function ByteOf(bits: seq<bool>): Byte
    requires |bits| == 8
  {
    Pow2Of7();
    Number(bits)
  }

  function BitsOf(b: Byte): (bits: seq<bool>)
    ensures |bits| == 8
  {
    Digits(b, 8)
  }

  lemma BitsBack(bits: seq<bool>)
    requires |bits| == 8
    ensures BitsOf(ByteOf(bits)) == bits
  {
    DigitsBack(bits);
  }

  // array[p / 8] & (1 << (p % 8)).
  predicate BitAt(a: Bytes, p: nat)
    requires p < 8 * |a|
  {
    BitsOf(a[p / 8])[p % 8]
  }

  // array[p / 8] |= 1 << (p % 8).
  function SetBit(a: Bytes, p: nat): (r: Bytes)
    requires p < 8 * |a|
    ensures |r| == |a|
  {
    a[p / 8 := ByteOf(BitsOf(a[p / 8])[p % 8 := true])]
  }

  lemma SetBitSets(a: Bytes, p: nat, q: nat)
    requires p < 8 * |a| && q < 8 * |a|
    ensures BitAt(SetBit(a, p), q) <==> q == p || BitAt(a, q)
  {
    hide BitsOf, ByteOf;
    BitsBack(BitsOf(a[p / 8])[p % 8 := true]);
    assert p == p / 8 * 8 + p % 8 && q == q / 8 * 8 + q % 8;
  }

  // ---------------------------------------------------------------------------
  // Probes: double hashing in 32 bits
  // ---------------------------------------------------------------------------

  // (h >> 17) | (h << 15).
  function RotateRight17(h: Word): Word {
    h / 0x2_0000 + h % 0x2_0000 * 0x8000
  }

  lemma {:induction false} DigitsJoin(a: nat, b: nat, width: nat, more: nat)
    requires a < Pow2(width)
    ensures Digits(a + Pow2(width) * b, width + more) == Digits(a, width) + Digits(b, more)
  {
    if width > 0 {
      var p := Pow2(width - 1);
      assert Pow2(width) * b == 2 * (p * b);
      DigitsJoin(a / 2, b, width - 1, more);
      assert (a + 2 * (p * b)) / 2 == a / 2 + p * b && (a + 2 * (p * b)) % 2 == a % 2;
    } else {
      Pow2Zero();
      assert a == 0 && Pow2(0) * b == b;
    }
  }

  // The low 17 bits go to the top, the others down by 17.
  lemma Rotates(h: Word)
    ensures RotateRight17(h) < 0x1_0000_0000
    ensures Digits(RotateRight17(h), 32) == Digits(h, 32)[17..] + Digits(h, 32)[..17]
  {
    hide Digits, Pow2;
    Pow2Of17();
    var lo, hi := h % 0x2_0000, h / 0x2_0000;
    DigitsJoin(lo, hi, 17, 15);
    DigitsJoin(hi, lo, 15, 17);
  }

  lemma Pow2Of17()
    ensures Pow2(15) == 0x8000 && Pow2(17) == 0x2_0000
  {
    Pow2Of7();
    Pow2Of1();
    Pow2Add(7, 7);
    Pow2Add(14, 1);
    Pow2Add(14, 3);
    Pow2Add(1, 2);
    Pow2Add(1, 1);
  }

  function Wrap(x: nat): Word {
    x % 0x1_0000_0000
  }

  // The hash after j probes.
  function HashAt(h: Word, j: nat): Word {
    if j == 0 then h else Wrap(HashAt(h, j - 1) + RotateRight17(h))
  }

  // The j-th probe: j times the rotated hash from the hash on, in 32 bits.
  function Position(h: Word, j: nat, bits: nat): (p: nat)
    requires bits > 0
    ensures p < bits
  {
    Wrap(h + j * RotateRight17(h)) % bits
  }

  lemma {:induction false} HashAtIs(h: Word, j: nat)
    ensures HashAt(h, j) == Wrap(h + j * RotateRight17(h))
  {
    hide Wrap, RotateRight17;
    var r := RotateRight17(h);
    if j > 0 {
      HashAtIs(h, j - 1);
      WrapSum(h + (j - 1) * r, r);
      OnceMore(j, r);
    } else {
      WrapWord(h);
    }
  }

  lemma OnceMore(j: nat, r: nat)
    requires j > 0
    ensures (j - 1) * r + r == j * r
  {
  }

  lemma WrapWord(h: Word)
    ensures Wrap(h) == h
  {
  }

  lemma WrapSum(x: nat, y: nat)
    ensures Wrap(Wrap(x) + y) == Wrap(x + y)
  {
  }

  // p is one of the first k probes of h.
  ghost predicate Probed(h: Word, k: nat, bits: nat, p: nat)
    requires bits > 0
  {
    exists j: nat :: j < k && Position(h, j, bits) == p
  }

  // ---------------------------------------------------------------------------
  // CreateFilter and KeyMayMatch
  // ---------------------------------------------------------------------------

  // The first n probes of h, set.
  function AddProbes(a: Bytes, h: Word, n: nat): (r: Bytes)
    requires |a| > 0
    ensures |r| == |a|
  {
    if n == 0 then a else SetBit(AddProbes(a, h, n - 1), Position(h, n - 1, 8 * |a|))
  }

  function AddKeys(a: Bytes, hash: Hash, k: nat, keys: seq<Bytes>): (r: Bytes)
    requires |a| > 0
    ensures |r| == |a|
  {
    if keys == [] then a
    else AddProbes(AddKeys(a, hash, k, keys[..|keys| - 1]), hash(keys[|keys| - 1]), k)
  }

  function Zeros(n: nat): (z: Bytes)
    ensures |z| == n
  {
    seq(n, _ => 0)
  }

  // Bytes in the bit array for n keys.
  function FilterBytes(n: nat, bitsPerKey: nat): (bytes: nat)
    ensures bytes >= 8
  {
    var bits := n * bitsPerKey;
    (if bits < 64 then 64 + 7 else bits + 7) / 8
  }

  // The filter CreateFilter appends: the bit array, then the number of probes.
  function Filter(hash: Hash, bitsPerKey: nat, k: Byte, keys: seq<Bytes>): Bytes {
    AddKeys(Zeros(FilterBytes(|keys|, bitsPerKey)), hash, k, keys) + [k]
  }

  // The least number of bytes, and no less than eight, with bitsPerKey bits for each of n keys.
  ghost predicate IsSize(bytes: nat, n: nat, bitsPerKey: nat) {
    && bytes >= 8 && 8 * bytes >= n * bitsPerKey
    && forall fewer: nat | fewer < bytes :: fewer < 8 || 8 * fewer < n * bitsPerKey
  }

  lemma FilterBytesIsSize(n: nat, bitsPerKey: nat)
    ensures IsSize(FilterBytes(n, bitsPerKey), n, bitsPerKey)
  {
    var bits := n * bitsPerKey;
    assert FilterBytes(n, bitsPerKey) == (if bits < 64 then 64 + 7 else bits + 7) / 8;
  }

  // Bit p of the array is a probe of one of the keys.
  ghost predicate ProbedBy(hash: Hash, k: nat, keys: seq<Bytes>, bits: nat, p: nat)
    requires bits > 0
  {
    exists key :: key in keys && Probed(hash(key), k, bits, p)
  }

  // Appends the bit array, of the size the keys call for and with exactly their probes set, and the number of probes.
  method CreateFilter(hash: Hash, bitsPerKey: nat, k: Byte, keys: seq<Bytes>, dst: Bytes) returns (r: Bytes)
    ensures r == dst + Filter(hash, bitsPerKey, k, keys)
    ensures var bytes := |r| - |dst| - 1;
            && IsSize(bytes, |keys|, bitsPerKey) && r[..|dst|] == dst && r[|r| - 1] == k
            && forall p | 0 <= p < 8 * bytes ::
                 BitAt(r[|dst|..|dst| + bytes], p) <==> ProbedBy(hash, k, keys, 8 * bytes, p)
  {
    hide SetBit, Position, BitAt, Probed, IsSize;
    var bits := |keys| * bitsPerKey;
    if bits < 64 {
      bits := 64;
    }
    var bytes := (bits + 7) / 8;
    bits := bytes * 8;
    var array_ := Zeros(bytes);
    var i := 0;
    while i < |keys|
      invariant 0 <= i <= |keys| && |array_| == bytes
      invariant array_ == AddKeys(Zeros(bytes), hash, k, keys[..i])
    {
      ghost var before := array_;
      var first := hash(keys[i]);
      var h := first;
      var delta := RotateRight17(h);
      var j := 0;
      while j < k
        invariant 0 <= j <= k && h == HashAt(first, j) && |array_| == bytes
        invariant array_ == AddProbes(before, first, j)
      {
        var bitpos := h % bits;
        PositionIs(first, j, bits);
        array_ := SetBit(array_, bitpos);
        h := Wrap(h + delta);
        j := j + 1;
      }
      assert keys[..i + 1][..i] == keys[..i];
      i := i + 1;
    }
    assert keys[..i] == keys;
    r := dst + array_ + [k];
    FilterBytesIsSize(|keys|, bitsPerKey);
    FilterBits(hash, k, keys, bytes);
    assert r[|dst|..|dst| + bytes] == array_;
  }

  lemma FilterBits(hash: Hash, k: nat, keys: seq<Bytes>, bytes: nat)
    requires bytes > 0
    ensures forall p | 0 <= p < 8 * bytes ::
              BitAt(AddKeys(Zeros(bytes), hash, k, keys), p) <==> ProbedBy(hash, k, keys, 8 * bytes, p)
  {
    hide BitAt, AddKeys, Probed;
    forall p | 0 <= p < 8 * bytes
      ensures BitAt(AddKeys(Zeros(bytes), hash, k, keys), p) <==> ProbedBy(hash, k, keys, 8 * bytes, p)
    {
      KeysSet(Zeros(bytes), hash, k, keys, p);
      ZerosUnset(bytes, p);
    }
  }

  lemma HashSteps(h: Word, j: nat)
    ensures HashAt(h, 0) == h && HashAt(h, j + 1) == Wrap(HashAt(h, j) + RotateRight17(h))
  {
  }

  lemma PositionIs(h: Word, j: nat, bits: nat)
    requires bits > 0
    ensures HashAt(h, j) % bits == Position(h, j, bits) < bits
  {
    HashAtIs(h, j);
  }

  lemma ProbeIs(a: Bytes, h: Word, j: nat)
    requires |a| > 0
    ensures HashAt(h, j) % (8 * |a|) < 8 * |a|
    ensures ProbeSet(a, h, j) <==> BitAt(a, HashAt(h, j) % (8 * |a|))
  {
    PositionIs(h, j, 8 * |a|);
  }

  predicate ProbeSet(a: Bytes, h: Word, j: nat)
    requires |a| > 0
  {
    BitAt(a, Position(h, j, 8 * |a|))
  }

  // KeyMayMatch.
  predicate Matches(hash: Hash, key: Bytes, filter: Bytes) {
    |filter| >= 2
    && var a, k := filter[..|filter| - 1], filter[|filter| - 1];
       k > 30 || forall j: nat :: j < k ==> ProbeSet(a, hash(key), j)
  }

  method KeyMayMatch(hash: Hash, key: Bytes, filter: Bytes) returns (may: bool)
    ensures may == Matches(hash, key, filter)
  {
    hide ProbeSet, HashAt, Wrap, RotateRight17;
    var len := |filter|;
    if len < 2 {
      return false;
    }
    var array_, bits, k := filter[..len - 1], 8 * (len - 1), filter[len - 1];
    if k > 30 {
      return true;
    }
    var first := hash(key);
    HashSteps(first, 0);
    var h, delta := first, RotateRight17(first);
    var j := 0;
    while j < k
      invariant 0 <= j <= k && h == HashAt(first, j)
      invariant forall i: nat :: i < j ==> ProbeSet(array_, first, i)
    {
      var bitpos := h % bits;
      ProbeIs(array_, first, j);
      if !BitAt(array_, bitpos) {
        return false;
      }
      HashSteps(first, j);
      h := Wrap(h + delta);
      j := j + 1;
    }
    may := true;
  }

  // ---------------------------------------------------------------------------
  // No false negatives
  // ---------------------------------------------------------------------------

  // Exactly the probed bits are set.
  lemma {:induction false} ProbesSet(a: Bytes, h: Word, n: nat, p: nat)
    requires |a| > 0 && p < 8 * |a|
    ensures BitAt(AddProbes(a, h, n), p) <==> BitAt(a, p) || Probed(h, n, 8 * |a|, p)
  {
    hide BitAt, SetBit, Position;
    if n > 0 {
      ProbesSet(a, h, n - 1, p);
      var last := Position(h, n - 1, 8 * |a|);
      SetBitSets(AddProbes(a, h, n - 1), last, p);
      if Probed(h, n, 8 * |a|, p) && last != p {
        var j: nat :| j < n && Position(h, j, 8 * |a|) == p;
        assert Probed(h, n - 1, 8 * |a|, p);
      }
    }
  }

  lemma {:induction false} KeysSet(a: Bytes, hash: Hash, k: nat, keys: seq<Bytes>, p: nat)
    requires |a| > 0 && p < 8 * |a|
    ensures BitAt(AddKeys(a, hash, k, keys), p) <==>
              BitAt(a, p) || exists key :: key in keys && Probed(hash(key), k, 8 * |a|, p)
  {
    hide BitAt, Probed, AddProbes;
    if keys != [] {
      var n := |keys| - 1;
      KeysSet(a, hash, k, keys[..n], p);
      ProbesSet(AddKeys(a, hash, k, keys[..n]), hash(keys[n]), k, p);
      assert keys == keys[..n] + [keys[n]];
    }
  }

  lemma ZerosUnset(n: nat, p: nat)
    requires p < 8 * n
    ensures !BitAt(Zeros(n), p)
  {
  }

  // The filter holds exactly the probes of its keys, so a key that was added matches.
  lemma AddedKeyMatches(hash: Hash, bitsPerKey: nat, k: Byte, keys: seq<Bytes>, key: Bytes)
    requires key in keys
    ensures Matches(hash, key, Filter(hash, bitsPerKey, k, keys))
  {
    hide BitAt, AddKeys, Position;
    var filter := Filter(hash, bitsPerKey, k, keys);
    var zeros := Zeros(FilterBytes(|keys|, bitsPerKey));
    var array_ := AddKeys(zeros, hash, k, keys);
    assert filter[..|filter| - 1] == array_;
    forall j: nat | j < k
      ensures ProbeSet(array_, hash(key), j)
    {
      var p := Position(hash(key), j, 8 * |array_|);
      assert Probed(hash(key), k, 8 * |zeros|, p);
      KeysSet(zeros, hash, k, keys, p);
    }
  }

  // What the filter says of any key: whether all its probes are probes of added keys, unless the number of probes is
  // one kept for other encodings.
  lemma MatchesIff(hash: Hash, bitsPerKey: nat, k: Byte, keys: seq<Bytes>, key: Bytes)
    ensures var filter := Filter(hash, bitsPerKey, k, keys);
            var bits := 8 * (|filter| - 1);
            && IsSize(|filter| - 1, |keys|, bitsPerKey)
            && (Matches(hash, key, filter) <==>
                  k > 30 || forall j: nat :: j < k ==> ProbedBy(hash, k, keys, bits, Position(hash(key), j, bits)))
  {
    FilterBytesIsSize(|keys|, bitsPerKey);
    hide BitAt, AddKeys, Position, Probed;
    var filter := Filter(hash, bitsPerKey, k, keys);
    var zeros := Zeros(FilterBytes(|keys|, bitsPerKey));
    var array_ := AddKeys(zeros, hash, k, keys);
    assert filter[..|filter| - 1] == array_;
    forall j: nat | j < k
      ensures ProbeSet(array_, hash(key), j) <==>
              ProbedBy(hash, k, keys, 8 * |zeros|, Position(hash(key), j, 8 * |zeros|))
    {
      var p := Position(hash(key), j, 8 * |array_|);
      KeysSet(zeros, hash, k, keys, p);
      ZerosUnset(|zeros|, p);
    }
  }
}
