/**
 Byte strings and the fixed-width and varint codecs of util/coding.cc and of nanopb, which agree.
 */
module ByteStrings {

  type Byte = x: int | 0 <= x < 256
  type Word = x: int | 0 <= x < 0x1_0000_0000
  type Bytes = seq<Byte>

  // The byte of x with weight s.
  function ByteAt(x: nat, s: nat): Byte
    requires s > 0
  {
    x / s % 256
  }

  function Shift(x: nat, s: nat): nat
    requires s > 0
  {
    x / s
  }

  // Little-endian.
  function EncodeFixed32(x: Word): (b: Bytes)
    ensures |b| == 4
  {
    [ByteAt(x, 1), ByteAt(x, 0x100), ByteAt(x, 0x1_0000), ByteAt(x, 0x100_0000)]
  }

  function DecodeFixed32(b: Bytes): (x: Word)
    requires |b| >= 4
  {
    b[0] as int + b[1] as int * 0x100 + b[2] as int * 0x1_0000 + b[3] as int * 0x100_0000
  }

  function EncodeFixed64(x: nat): (b: Bytes)
    requires x < 0x1_0000_0000_0000_0000
    ensures |b| == 8
  {
    [ByteAt(x, 1), ByteAt(x, 0x100), ByteAt(x, 0x1_0000), ByteAt(x, 0x100_0000), ByteAt(x, 0x1_0000_0000),
     ByteAt(x, 0x100_0000_0000), ByteAt(x, 0x1_0000_0000_0000), ByteAt(x, 0x100_0000_0000_0000)]
  }

  function DecodeFixed64(b: Bytes): (x: nat)
    requires |b| >= 8
    ensures x < 0x1_0000_0000_0000_0000
  {
    b[0] as int + b[1] as int * 0x100 + b[2] as int * 0x1_0000 + b[3] as int * 0x100_0000 +
    b[4] as int * 0x1_0000_0000 + b[5] as int * 0x100_0000_0000 +
    b[6] as int * 0x1_0000_0000_0000 + b[7] as int * 0x100_0000_0000_0000
  }

  lemma ShiftByte(x: nat, s: nat)
    requires s > 0
    ensures Shift(x, s) == ByteAt(x, s) + 256 * Shift(x, s * 256)
  {
    DivDiv(x, s, 256);
  }

  lemma DivDiv(x: nat, a: nat, b: nat)
    requires a > 0 && b > 0
    ensures a * b > 0 && x / a / b == x / (a * b)
  {
    var y, r0 := x / a, x % a;
    var q, r := y / b, y % b;
    Distribute(q, b, r, a, r0);
    AtLeast(b - r, a);
    AtLeast(b, a);
    Quotient(x, a * b, q, r * a + r0);
  }

  lemma Distribute(q: nat, b: nat, r: nat, a: nat, r0: nat)
    ensures (q * b + r) * a + r0 == q * (a * b) + (r * a + r0)
    ensures (b - r) * a == a * b - r * a
  {
    assert (q * b + r) * a == q * b * a + r * a;
    assert q * b * a == q * (b * a);
  }

  lemma AtLeast(k: int, d: nat)
    ensures k >= 1 ==> k * d >= d
  {
    if k >= 1 {
      assert k * d == (k - 1) * d + d;
    }
  }

  lemma Quotient(x: nat, d: nat, q: nat, r: nat)
    requires d > 0 && x == q * d + r && r < d
    ensures x / d == q
  {
    var z := x / d;
    AtLeast(z - q, d);
    AtLeast(q - z, d);
    assert (z - q) * d == z * d - q * d;
    assert (q - z) * d == q * d - z * d;
  }

  lemma Shift1(x: nat)
    ensures Shift(x, 1) == x
  {
  }

  lemma ShiftOut(x: nat, s: nat)
    requires x < s
    ensures Shift(x, s) == 0
  {
  }

  lemma Fixed32RoundTrip(x: Word)
    ensures DecodeFixed32(EncodeFixed32(x)) == x
  {
    hide ByteAt, Shift;
    Shift1(x);
    ShiftByte(x, 1);
    ShiftByte(x, 0x100);
    ShiftByte(x, 0x1_0000);
    ShiftByte(x, 0x100_0000);
    ShiftOut(x, 0x1_0000_0000);
  }

  lemma Fixed64RoundTrip(x: nat)
    requires x < 0x1_0000_0000_0000_0000
    ensures DecodeFixed64(EncodeFixed64(x)) == x
  {
    hide ByteAt, Shift;
    Shift1(x);
    ShiftByte(x, 1);
    ShiftByte(x, 0x100);
    ShiftByte(x, 0x1_0000);
    ShiftByte(x, 0x100_0000);
    ShiftByte(x, 0x1_0000_0000);
    ShiftByte(x, 0x100_0000_0000);
    ShiftByte(x, 0x1_0000_0000_0000);
    ShiftByte(x, 0x100_0000_0000_0000);
    ShiftOut(x, 0x1_0000_0000_0000_0000);
  }

  lemma WordBack(b: Bytes)
    requires |b| >= 4
    ensures EncodeFixed32(DecodeFixed32(b)) == b[..4]
  {
    hide EncodeFixed32;
    var c := EncodeFixed32(DecodeFixed32(b));
    Fixed32RoundTrip(DecodeFixed32(b));
    var b1, b2, b3: int := b[1], b[2], b[3];
    var c1, c2, c3: int := c[1], c[2], c[3];
    LowByte(b[0], c[0], b1 + 256 * (b2 + 256 * b3), c1 + 256 * (c2 + 256 * c3));
    LowByte(b[1], c[1], b2 + 256 * b3, c2 + 256 * c3);
    LowByte(b[2], c[2], b3, c3);
  }

  lemma LowByte(x: Byte, y: Byte, high: int, high': int)
    requires x + 256 * high == y + 256 * high'
    ensures x == y && high == high'
  {
  }

  // Base 128 varint: seven bits a byte, lowest first, the top bit set on all bytes but the last.
  function EncodeVarint(v: nat): (b: Bytes)
    ensures |b| > 0
  {
    if v < 128 then [v] else [v % 128 + 128] + EncodeVarint(v / 128)
  }

  function Pow2(n: nat): (p: nat)
    ensures p > 0
  {
    if n == 0 then 1 else 2 * Pow2(n - 1)
  }

  lemma {:induction false} Pow2Add(a: nat, b: nat)
    ensures Pow2(a + b) == Pow2(a) * Pow2(b)
  {
    if a > 0 {
      Pow2Add(a - 1, b);
      assert a - 1 + b == a + b - 1;
    }
  }

  lemma {:induction false} Pow2Monotone(a: nat, b: nat)
    requires a <= b
    ensures Pow2(a) <= Pow2(b)
  {
    if a < b {
      Pow2Monotone(a, b - 1);
    }
  }

  lemma Pow2Of7()
    ensures Pow2(7) == 128
  {
    assert Pow2(1) == 2 && Pow2(3) == 8 && Pow2(5) == 32;
  }

  lemma Pow2Of32()
    ensures Pow2(32) == 0x1_0000_0000
  {
    hide Pow2;
    Pow2Of7();
    Pow2Of1();
    Pow2Add(7, 1);
    Pow2Add(8, 8);
    assert Pow2(16) == 0x1_0000;
    Pow2Add(16, 16);
  }

  lemma Pow2Of64()
    ensures Pow2(64) == 0x1_0000_0000_0000_0000
  {
    hide Pow2;
    Pow2Of32();
    Pow2Add(32, 32);
  }

  lemma Pow2Of1()
    ensures Pow2(1) == 2
  {
  }

  lemma SplitWeight(v: nat, result: nat, p: nat, w: nat)
    requires v == result + p * w
    ensures v == result + w % 128 * p + p * 128 * (w / 128)
    ensures w % 128 * p <= v
    ensures w < 128 ==> v == result + w % 128 * p
  {
    var low, high := w % 128, w / 128;
    assert w == low + 128 * high;
    assert p * w == p * low + p * (128 * high);
    assert p * (128 * high) == p * 128 * high;
    Multiples(0, high, p * 128);
  }

  lemma SmallMod(x: nat, n: nat)
    requires n > 0
    ensures x % n <= x && (x < n ==> x % n == x)
  {
  }

  lemma Multiples(a: nat, b: nat, p: nat)
    requires a <= b
    ensures a * p <= b * p
  {
  }

  lemma {:induction false} FirstByte(w: nat, rest: Bytes)
    requires EncodeVarint(w) <= rest
    ensures |rest| > 0 && rest[0] % 128 == w % 128 && (rest[0] >= 128 <==> w >= 128)
    ensures if w >= 128 then EncodeVarint(w / 128) <= rest[1..] && |EncodeVarint(w)| == 1 + |EncodeVarint(w / 128)|
            else |EncodeVarint(w)| == 1
  {
    var e := EncodeVarint(w);
    assert rest[0] == e[0];
    if w >= 128 {
      assert e[1..] == EncodeVarint(w / 128);
      assert rest[1..][..|e| - 1] == rest[..|e|][1..];
    }
  }

  lemma Pow2Step(bitpos: nat)
    ensures Pow2(bitpos + 7) == Pow2(bitpos) * 128
  {
    Pow2Add(bitpos, 7);
    Pow2Of7();
  }

  lemma Pow2Zero()
    ensures Pow2(0) == 1
  {
  }

  // How many bytes at the start have their high bit set.
  function Continued(s: Bytes): (n: nat)
    ensures n <= |s| && (n < |s| ==> s[n] < 128) && forall k | 0 <= k < n :: s[k] >= 128
  {
    if s == [] || s[0] < 128 then 0 else 1 + Continued(s[1..])
  }

  // The low seven bits of each of the first n bytes, the least significant first.
  function Groups(s: Bytes, n: nat): nat
    requires n <= |s|
  {
    if n == 0 then 0 else s[0] % 128 + 128 * Groups(s[1..], n - 1)
  }

  lemma {:induction false} OneMoreGroup(s: Bytes, n: nat)
    requires n < |s|
    ensures Groups(s, n + 1) == Groups(s, n) + s[n] % 128 * Pow2(7 * n)
  {
    hide Pow2;
    if n == 0 {
      Pow2Zero();
      assert Groups(s[1..], 0) == 0;
    } else {
      OneMoreGroup(s[1..], n - 1);
      Pow2Step(7 * (n - 1));
      var g, p := s[n] % 128, Pow2(7 * (n - 1));
      assert 128 * (g * p) == g * (128 * p);
    }
  }

  // What EncodeVarint gives is one of these.
  lemma {:induction false} CanonicalGroups(v: nat, s: Bytes)
    requires EncodeVarint(v) <= s
    ensures Continued(s) + 1 == |EncodeVarint(v)| <= |s|
    ensures Groups(s, |EncodeVarint(v)|) == v && (v >= 128 ==> s[Continued(s)] > 0)
  {
    FirstByte(v, s);
    if v >= 128 {
      CanonicalGroups(v / 128, s[1..]);
    } else {
      assert Groups(s[1..], 0) == 0;
    }
  }

  lemma ContinuedIs(s: Bytes)
    ensures var n := Continued(s);
            n <= |s| && (n < |s| ==> s[n] < 128) && forall k | 0 <= k < n :: s[k] >= 128
  {
  }

  lemma ModPlusMultiple(x: nat, k: nat, m: nat)
    requires m > 0
    ensures (x + k * m) % m == x % m
  {
    Distribute(x / m, k, 0, m, 0);
    assert x + k * m == (x / m + k) * m + x % m;
    Quotient(x + k * m, m, x / m + k, x % m);
  }

  // How many bytes two byte strings have in common at the front.
  function CommonPrefix(a: Bytes, b: Bytes): (n: nat)
    ensures n <= |a| && n <= |b| && a[..n] == b[..n]
    ensures n < |a| && n < |b| ==> a[n] != b[n]
  {
    if a == [] || b == [] || a[0] != b[0] then 0
    else
      var n := CommonPrefix(a[1..], b[1..]);
      assert a[..n + 1] == [a[0]] + a[1..][..n] && b[..n + 1] == [b[0]] + b[1..][..n];
      n + 1
  }

  lemma LongestIsCommonPrefix(a: Bytes, b: Bytes, n: nat)
    requires n <= |a| && n <= |b| && a[..n] == b[..n]
    requires n < |a| && n < |b| ==> a[n] != b[n]
    ensures n == CommonPrefix(a, b)
  {
    var m := CommonPrefix(a, b);
    assert forall k | 0 <= k < n :: a[k] == a[..n][k] && b[k] == b[..n][k];
    assert forall k | 0 <= k < m :: a[k] == a[..m][k] && b[k] == b[..m][k];
  }
}
