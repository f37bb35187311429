/**
 The portable CRC-32C of util/crc32c.cc. The four-stride loop computes what one byte at a time computes,
 for every buffer, length and alignment, because advancing a checksum over zero bytes is linear over xor.
 CRC-32C is the checksum of section 12.1 of RFC 3720. Machine words are bit vectors here; xor is a named
 function so that proofs can treat it as an abstract group operation.
 */
module Crc32c {

  // The polynomial, its bits reversed.
  const POLY: bv32 := 0x82f6_3b78

  const ALL_ONES: bv32 := 0xffff_ffff

  function Xor(a: bv32, b: bv32): bv32 {
    a ^ b
  }

  // The bytes of a word, and a word moved by whole bytes.

  function Low(l: bv32): bv32 {
    l & 0xff
  }

  function Second(l: bv32): bv32 {
    (l >> 8) & 0xff
  }

  function Third(l: bv32): bv32 {
    (l >> 16) & 0xff
  }

  function Top(l: bv32): bv32 {
    l >> 24
  }

  function High(l: bv32): bv32 {
    l & 0xffff_ff00
  }

  function Down8(l: bv32): bv32 {
    l >> 8
  }

  function Up8(l: bv32): bv32 {
    l << 8
  }

  function Up16(l: bv32): bv32 {
    l << 16
  }

  function Up24(l: bv32): bv32 {
    l << 24
  }

  // One bit of polynomial division.
  function BitStep(l: bv32): bv32 {
    if l & 1 == 1 then Xor(l >> 1, POLY) else l >> 1
  }

  function BitSteps(n: nat, l: bv32): bv32 {
    if n == 0 then l else BitStep(BitSteps(n - 1, l))
  }

  // The state after one more zero byte.
  function ZeroByte(l: bv32): bv32 {
    BitSteps(8, l)
  }

  // The state after n more zero bytes.
  function ZeroBytes(n: nat, l: bv32): bv32 {
    if n == 0 then l else ZeroByte(ZeroBytes(n - 1, l))
  }

  // The state after one more byte of data.
  function Feed(l: bv32, byte: bv8): bv32 {
    ZeroByte(Xor(l, byte as bv32))
  }

  // The reference: bytes fed in singly.
  function Bytewise(l: bv32, data: seq<bv8>): bv32
    decreases |data|
  {
    if data == [] then l else Feed(Bytewise(l, data[..|data| - 1]), data[|data| - 1])
  }

  // The checksum of more data after data whose checksum is crc.
  function Extended(crc: bv32, data: seq<bv8>): bv32 {
    Xor(Bytewise(Xor(crc, ALL_ONES), data), ALL_ONES)
  }

  // crc32c::Value.
  function Value(data: seq<bv8>): bv32 {
    Extended(0, data)
  }

  // The lookup tables of crc32c.cc, as functions of the index.
  datatype Tables = Tables(byteExtension: bv32 -> bv32,
                           stride0: bv32 -> bv32, stride1: bv32 -> bv32,
                           stride2: bv32 -> bv32, stride3: bv32 -> bv32)
  {
    // The defining equations of the five tables.
    ghost predicate Defined() {
      forall c: bv32 :: c <= 0xff ==>
        && byteExtension(c) == ZeroByte(c)
        && stride3(c) == ZeroBytes(16, c)
        && stride2(c) == ZeroBytes(16, Up8(c))
        && stride1(c) == ZeroBytes(16, Up16(c))
        && stride0(c) == ZeroBytes(16, Up24(c))
    }
  }

  // Facts about xor: each is proved of plain bit vectors and then read through Xor.

  lemma XorIs(a: bv32, b: bv32)
    ensures Xor(a, b) == a ^ b
  {
  }

  lemma ShiftDistributes(a: bv32, b: bv32)
    ensures (a ^ b) >> 1 == (a >> 1) ^ (b >> 1)
    ensures (a ^ b) & 1 == (a & 1) ^ (b & 1)
  {
  }

  lemma XorParts(a: bv32, b: bv32)
    ensures Xor(a, b) >> 1 == Xor(a >> 1, b >> 1)
    ensures Xor(a, b) & 1 == Xor(a & 1, b & 1)
  {
    hide Xor;
    XorIs(a, b);
    XorIs(a >> 1, b >> 1);
    XorIs(a & 1, b & 1);
    ShiftDistributes(a, b);
  }

  lemma CancelBits(a: bv32, b: bv32, c: bv32, ac: bv32, bc: bv32)
    requires ac == a ^ c && bc == b ^ c
    ensures ac ^ bc == a ^ b
  {
  }

  lemma XorCancel(a: bv32, b: bv32, c: bv32)
    ensures Xor(Xor(a, c), Xor(b, c)) == Xor(a, b)
  {
    hide Xor;
    XorIs(a, c);
    XorIs(b, c);
    XorIs(a, b);
    XorIs(Xor(a, c), Xor(b, c));
    CancelBits(a, b, c, Xor(a, c), Xor(b, c));
  }

  lemma RegroupBits(a: bv32, b: bv32, c: bv32, ab: bv32, bc: bv32)
    requires ab == a ^ b && bc == b ^ c
    ensures ab ^ c == a ^ bc
  {
  }

  lemma XorRegroups(a: bv32, b: bv32, c: bv32)
    ensures Xor(Xor(a, b), c) == Xor(a, Xor(b, c))
  {
    hide Xor;
    XorIs(a, b);
    XorIs(b, c);
    XorIs(Xor(a, b), c);
    XorIs(a, Xor(b, c));
    RegroupBits(a, b, c, Xor(a, b), Xor(b, c));
  }

  lemma XorCommutes(a: bv32, b: bv32)
    ensures Xor(a, b) == Xor(b, a)
  {
  }

  lemma XorMoves(a: bv32, b: bv32, c: bv32)
    ensures Xor(Xor(a, c), b) == Xor(Xor(a, b), c)
    ensures Xor(a, Xor(b, c)) == Xor(Xor(a, b), c)
  {
    hide Xor;
    XorRegroups(a, c, b);
    XorCommutes(b, c);
    XorRegroups(a, b, c);
  }

  // Four terms may be paired up in any order.
  lemma XorPairs(a: bv32, b: bv32, c: bv32, d: bv32)
    ensures Xor(Xor(a, b), Xor(c, d)) == Xor(Xor(a, c), Xor(b, d))
  {
    hide Xor;
    XorMoves(Xor(a, b), c, d);
    XorMoves(a, c, b);
    XorMoves(Xor(a, c), b, d);
  }

  lemma XorUndo(a: bv32, b: bv32)
    ensures Xor(Xor(a, b), b) == a
  {
  }

  lemma LowBit(a: bv32)
    ensures a & 1 == 1 || a & 1 == 0
  {
  }

  lemma BitsOfXor(a: bv32, b: bv32)
    requires a & 1 == 0 || a & 1 == 1
    requires b & 1 == 0 || b & 1 == 1
    ensures Xor(a, b) & 1 == 1 <==> a & 1 != b & 1
  {
  }

  // Linearity

  lemma BitStepLinear(a: bv32, b: bv32)
    ensures BitStep(Xor(a, b)) == Xor(BitStep(a), BitStep(b))
  {
    LowBit(a);
    LowBit(b);
    XorParts(a, b);
    BitsOfXor(a, b);
    hide Xor;
    if a & 1 == 1 && b & 1 == 1 {
      XorCancel(a >> 1, b >> 1, POLY);
    } else {
      XorMoves(a >> 1, b >> 1, POLY);
    }
  }

  lemma {:induction false} BitStepsLinear(n: nat, a: bv32, b: bv32)
    ensures BitSteps(n, Xor(a, b)) == Xor(BitSteps(n, a), BitSteps(n, b))
  {
    hide Xor, BitStep;
    if n > 0 {
      BitStepsLinear(n - 1, a, b);
      BitStepLinear(BitSteps(n - 1, a), BitSteps(n - 1, b));
    }
  }

  lemma {:induction false} ZeroBytesLinear(n: nat, a: bv32, b: bv32)
    ensures ZeroBytes(n, Xor(a, b)) == Xor(ZeroBytes(n, a), ZeroBytes(n, b))
  {
    hide Xor, BitSteps;
    if n > 0 {
      ZeroBytesLinear(n - 1, a, b);
      BitStepsLinear(8, ZeroBytes(n - 1, a), ZeroBytes(n - 1, b));
    }
  }

  lemma {:induction false} ZeroBytesAdd(m: nat, n: nat, l: bv32)
    ensures ZeroBytes(m, ZeroBytes(n, l)) == ZeroBytes(m + n, l)
  {
    hide ZeroByte;
    if m > 0 {
      ZeroBytesAdd(m - 1, n, l);
    }
  }

  // Bits above the ones to be divided out are only shifted.
  lemma BitShifts(l: bv32)
    requires l & 1 == 0
    ensures BitStep(l) == l >> 1
  {
  }

  lemma LowByteClear(l: bv32, m1: bv32, m2: bv32, m3: bv32, m4: bv32, m5: bv32, m6: bv32, m7: bv32)
    requires l & 0xff == 0
    requires m1 == l >> 1 && m2 == m1 >> 1 && m3 == m2 >> 1 && m4 == m3 >> 1
    requires m5 == m4 >> 1 && m6 == m5 >> 1 && m7 == m6 >> 1
    ensures l & 1 == 0 && m1 & 1 == 0 && m2 & 1 == 0 && m3 & 1 == 0
    ensures m4 & 1 == 0 && m5 & 1 == 0 && m6 & 1 == 0 && m7 & 1 == 0
    ensures m7 >> 1 == l >> 8
  {
  }

  lemma {:induction false} ShiftOut(k: nat, l: bv32, m: bv32)
    requires BitSteps(k, l) == m && m & 1 == 0
    ensures BitSteps(k + 1, l) == m >> 1
  {
    hide BitStep;
    BitShifts(m);
  }

  lemma ZeroByteShifts(l: bv32)
    requires l & 0xff == 0
    ensures ZeroByte(l) == l >> 8
  {
    hide BitStep;
    assert BitSteps(0, l) == l;
    hide BitSteps;
    var m1 := l >> 1;
    var m2 := m1 >> 1;
    var m3 := m2 >> 1;
    var m4 := m3 >> 1;
    var m5 := m4 >> 1;
    var m6 := m5 >> 1;
    var m7 := m6 >> 1;
    LowByteClear(l, m1, m2, m3, m4, m5, m6, m7);
    ShiftOut(0, l, l);
    ShiftOut(1, l, m1);
    ShiftOut(2, l, m2);
    ShiftOut(3, l, m3);
    ShiftOut(4, l, m4);
    ShiftOut(5, l, m5);
    ShiftOut(6, l, m6);
    ShiftOut(7, l, m7);
  }

  // One byte through the table: STEP1.

  lemma LowOfXor(l: bv32, b: bv8)
    ensures Xor(Low(l), b as bv32) == Low(Xor(l, b as bv32))
  {
  }

  lemma DownOfXor(l: bv32, b: bv8)
    ensures Down8(Xor(l, b as bv32)) == Down8(l)
  {
  }

  lemma Halves(x: bv32)
    ensures x == Xor(Low(x), High(x)) && Low(x) <= 0xff
  {
  }

  lemma ZeroByteOfHigh(x: bv32)
    ensures ZeroByte(High(x)) == Down8(x)
  {
    hide ZeroByte;
    ZeroByteShifts(High(x));
  }

  lemma ByteStep(t: Tables, l: bv32, b: bv8)
    requires t.Defined()
    ensures Xor(t.byteExtension(Xor(Low(l), b as bv32)), Down8(l)) == Feed(l, b)
  {
    hide Xor, ZeroByte, ZeroBytes, Low, Down8, High;
    var x := Xor(l, b as bv32);
    LowOfXor(l, b);
    DownOfXor(l, b);
    Halves(x);
    ZeroByteIsLinear(Low(x), High(x));
    ZeroByteOfHigh(x);
  }

  lemma ZeroByteIsLinear(a: bv32, b: bv32)
    ensures ZeroByte(Xor(a, b)) == Xor(ZeroByte(a), ZeroByte(b))
  {
    hide Xor, BitSteps;
    BitStepsLinear(8, a, b);
  }

  // Four bytes as one word

  // ReadUint32LE.
  function WordOf(b0: bv8, b1: bv8, b2: bv8, b3: bv8): bv32 {
    (b0 as bv32) | ((b1 as bv32) << 8) | ((b2 as bv32) << 16) | ((b3 as bv32) << 24)
  }

  // The word without its lowest byte, and without its lowest two.
  function UpperThree(b1: bv8, b2: bv8, b3: bv8): bv32 {
    (b1 as bv32) | ((b2 as bv32) << 8) | ((b3 as bv32) << 16)
  }

  function UpperTwo(b2: bv8, b3: bv8): bv32 {
    (b2 as bv32) | ((b3 as bv32) << 8)
  }

  lemma WordSplits(b0: bv8, b1: bv8, b2: bv8, b3: bv8)
    ensures WordOf(b0, b1, b2, b3) == Xor(b0 as bv32, Up8(UpperThree(b1, b2, b3)))
  {
  }

  lemma UpperThreeSplits(b1: bv8, b2: bv8, b3: bv8)
    ensures UpperThree(b1, b2, b3) == Xor(b1 as bv32, Up8(UpperTwo(b2, b3)))
    ensures UpperThree(b1, b2, b3) <= 0xff_ffff
  {
  }

  lemma UpperTwoSplits(b2: bv8, b3: bv8)
    ensures UpperTwo(b2, b3) == Xor(b2 as bv32, Up8(b3 as bv32))
    ensures UpperTwo(b2, b3) <= 0xff_ffff && (b3 as bv32) <= 0xff_ffff
  {
  }

  lemma ZeroByteOfUp(h: bv32)
    requires h <= 0xff_ffff
    ensures ZeroByte(Up8(h)) == h
  {
    hide ZeroByte;
    ZeroByteShifts(Up8(h));
  }

  lemma FeedLowByte(l: bv32, b: bv8, h: bv32)
    requires h <= 0xff_ffff
    ensures ZeroByte(Xor(l, Xor(b as bv32, Up8(h)))) == Xor(Feed(l, b), h)
  {
    hide Xor, ZeroByte, Up8;
    var x := b as bv32;
    XorRegroups(l, x, Up8(h));
    ZeroByteIsLinear(Xor(l, x), Up8(h));
    ZeroByteOfUp(h);
  }

  lemma FeedWord(l: bv32, b0: bv8, b1: bv8, b2: bv8, b3: bv8)
    ensures ZeroBytes(4, Xor(l, WordOf(b0, b1, b2, b3))) == Feed(Feed(Feed(Feed(l, b0), b1), b2), b3)
  {
    hide *;
    FourZeroBytes(Xor(l, WordOf(b0, b1, b2, b3)));
    WordSplits(b0, b1, b2, b3);
    UpperThreeSplits(b1, b2, b3);
    UpperTwoSplits(b2, b3);
    var f1 := Feed(l, b0);
    var f2 := Feed(f1, b1);
    var f3 := Feed(f2, b2);
    FeedLowByte(l, b0, UpperThree(b1, b2, b3));
    FeedLowByte(f1, b1, UpperTwo(b2, b3));
    FeedLowByte(f2, b2, b3 as bv32);
    FeedIs(f3, b3);
  }

  lemma FeedIs(l: bv32, b: bv8)
    ensures Feed(l, b) == ZeroByte(Xor(l, b as bv32))
  {
  }

  lemma FourZeroBytes(x: bv32)
    ensures ZeroBytes(4, x) == ZeroByte(ZeroByte(ZeroByte(ZeroByte(x))))
  {
    hide ZeroByte;
    assert ZeroBytes(1, x) == ZeroByte(x);
    assert ZeroBytes(2, x) == ZeroByte(ZeroBytes(1, x));
    assert ZeroBytes(3, x) == ZeroByte(ZeroBytes(2, x));
    assert ZeroBytes(4, x) == ZeroByte(ZeroBytes(3, x));
  }

  // Sixteen zero bytes through the stride tables

  lemma WordParts(c: bv32)
    ensures c == Xor(Xor(Xor(Low(c), Up8(Second(c))), Up16(Third(c))), Up24(Top(c)))
  {
  }

  lemma PartsAreBytes(c: bv32)
    ensures Low(c) <= 0xff && Second(c) <= 0xff && Third(c) <= 0xff && Top(c) <= 0xff
  {
  }

  // The table part of STEP4, with the word just read xored in.
  function Strided(t: Tables, word: bv32, c: bv32): bv32 {
    Xor(Xor(Xor(Xor(word, t.stride3(Low(c))), t.stride2(Second(c))), t.stride1(Third(c))), t.stride0(Top(c)))
  }

  lemma StridedIsLinear(t: Tables, word: bv32, c: bv32)
    requires t.Defined()
    ensures Strided(t, word, c) == Xor(word, ZeroBytes(16, c))
  {
    hide Xor, ZeroBytes, ZeroByte, Low, Second, Third, Top, Up8, Up16, Up24;
    WordParts(c);
    PartsAreBytes(c);
    var t3, t2, t1, t0 := t.stride3(Low(c)), t.stride2(Second(c)), t.stride1(Third(c)), t.stride0(Top(c));
    SumOfFour(Low(c), Up8(Second(c)), Up16(Third(c)), Up24(Top(c)));
    XorRegroups(word, t3, t2);
    XorRegroups(word, Xor(t3, t2), t1);
    XorRegroups(word, Xor(Xor(t3, t2), t1), t0);
  }

  lemma SumOfFour(a: bv32, b: bv32, c: bv32, d: bv32)
    ensures ZeroBytes(16, Xor(Xor(Xor(a, b), c), d))
         == Xor(Xor(Xor(ZeroBytes(16, a), ZeroBytes(16, b)), ZeroBytes(16, c)), ZeroBytes(16, d))
  {
    hide Xor, ZeroBytes;
    ZeroBytesLinear(16, a, b);
    ZeroBytesLinear(16, Xor(a, b), c);
    ZeroBytesLinear(16, Xor(Xor(a, b), c), d);
  }

  // The four partial checksums

  // What the four partial checksums stand for: the state after the last byte read.
  function Combined(c0: bv32, c1: bv32, c2: bv32, c3: bv32): bv32 {
    Xor(Xor(ZeroBytes(16, c0), ZeroBytes(12, c1)), Xor(ZeroBytes(8, c2), ZeroBytes(4, c3)))
  }

  // One word fed to a state.
  function FedWord(l: bv32, word: bv32): bv32 {
    ZeroBytes(4, Xor(l, word))
  }

  // The end of Extend in crc32c.cc: STEP4W four times.
  lemma FourWords(l: bv32, w0: bv32, w1: bv32, w2: bv32, w3: bv32)
    ensures FedWord(FedWord(FedWord(FedWord(l, w0), w1), w2), w3) == Combined(Xor(l, w0), w1, w2, w3)
  {
    hide Xor, ZeroBytes;
    var x := Xor(l, w0);
    ZeroBytesLinear(4, ZeroBytes(4, x), w1);
    ZeroBytesAdd(4, 4, x);
    var y := Xor(ZeroBytes(8, x), ZeroBytes(4, w1));
    ZeroBytesLinear(4, y, w2);
    ZeroBytesLinear(4, ZeroBytes(8, x), ZeroBytes(4, w1));
    ZeroBytesAdd(4, 8, x);
    ZeroBytesAdd(4, 4, w1);
    var z := Xor(Xor(ZeroBytes(12, x), ZeroBytes(8, w1)), ZeroBytes(4, w2));
    ZeroBytesLinear(4, z, w3);
    ZeroBytesLinear(4, Xor(ZeroBytes(12, x), ZeroBytes(8, w1)), ZeroBytes(4, w2));
    ZeroBytesLinear(4, ZeroBytes(12, x), ZeroBytes(8, w1));
    ZeroBytesAdd(4, 12, x);
    ZeroBytesAdd(4, 8, w1);
    ZeroBytesAdd(4, 4, w2);
    XorRegroups(Xor(ZeroBytes(16, x), ZeroBytes(12, w1)), ZeroBytes(8, w2), ZeroBytes(4, w3));
  }

  lemma CombinedLinear(a0: bv32, a1: bv32, a2: bv32, a3: bv32, b0: bv32, b1: bv32, b2: bv32, b3: bv32)
    ensures Combined(Xor(a0, b0), Xor(a1, b1), Xor(a2, b2), Xor(a3, b3))
         == Xor(Combined(a0, a1, a2, a3), Combined(b0, b1, b2, b3))
  {
    hide Xor, ZeroBytes;
    ZeroBytesLinear(16, a0, b0);
    ZeroBytesLinear(12, a1, b1);
    ZeroBytesLinear(8, a2, b2);
    ZeroBytesLinear(4, a3, b3);
    XorPairs(ZeroBytes(16, a0), ZeroBytes(16, b0), ZeroBytes(12, a1), ZeroBytes(12, b1));
    XorPairs(ZeroBytes(8, a2), ZeroBytes(8, b2), ZeroBytes(4, a3), ZeroBytes(4, b3));
    XorPairs(Xor(ZeroBytes(16, a0), ZeroBytes(12, a1)), Xor(ZeroBytes(16, b0), ZeroBytes(12, b1)),
             Xor(ZeroBytes(8, a2), ZeroBytes(4, a3)), Xor(ZeroBytes(8, b2), ZeroBytes(4, b3)));
  }

  lemma CombinedShifts(c0: bv32, c1: bv32, c2: bv32, c3: bv32)
    ensures Combined(ZeroBytes(16, c0), ZeroBytes(16, c1), ZeroBytes(16, c2), ZeroBytes(16, c3))
         == ZeroBytes(16, Combined(c0, c1, c2, c3))
  {
    hide Xor, ZeroBytes;
    ZeroBytesSwap(12, 16, c1);
    ZeroBytesSwap(8, 16, c2);
    ZeroBytesSwap(4, 16, c3);
    ZeroBytesLinear(16, ZeroBytes(16, c0), ZeroBytes(12, c1));
    ZeroBytesLinear(16, ZeroBytes(8, c2), ZeroBytes(4, c3));
    ZeroBytesLinear(16, Xor(ZeroBytes(16, c0), ZeroBytes(12, c1)), Xor(ZeroBytes(8, c2), ZeroBytes(4, c3)));
  }

  lemma ZeroBytesSwap(m: nat, n: nat, l: bv32)
    ensures ZeroBytes(m, ZeroBytes(n, l)) == ZeroBytes(n, ZeroBytes(m, l))
  {
    hide ZeroBytes;
    ZeroBytesAdd(m, n, l);
    ZeroBytesAdd(n, m, l);
  }

  // STEP16: sixteen more bytes.
  lemma StrideStep(c0: bv32, c1: bv32, c2: bv32, c3: bv32, w0: bv32, w1: bv32, w2: bv32, w3: bv32)
    ensures Combined(Xor(w0, ZeroBytes(16, c0)), Xor(w1, ZeroBytes(16, c1)),
                     Xor(w2, ZeroBytes(16, c2)), Xor(w3, ZeroBytes(16, c3)))
         == FedWord(FedWord(FedWord(FedWord(Combined(c0, c1, c2, c3), w0), w1), w2), w3)
  {
    hide Xor, ZeroBytes, Combined, FedWord;
    var l := Combined(c0, c1, c2, c3);
    CombinedLinear(w0, w1, w2, w3, ZeroBytes(16, c0), ZeroBytes(16, c1), ZeroBytes(16, c2), ZeroBytes(16, c3));
    CombinedShifts(c0, c1, c2, c3);
    FourWords(l, w0, w1, w2, w3);
    FirstCarries(l, w0, w1, w2, w3);
  }

  lemma FirstCarries(l: bv32, w0: bv32, w1: bv32, w2: bv32, w3: bv32)
    ensures Combined(Xor(l, w0), w1, w2, w3) == Xor(Combined(w0, w1, w2, w3), ZeroBytes(16, l))
  {
    hide Xor, ZeroBytes;
    XorCommutes(l, w0);
    ZeroBytesLinear(16, w0, l);
    var rest := Xor(ZeroBytes(8, w2), ZeroBytes(4, w3));
    XorMoves(ZeroBytes(16, w0), ZeroBytes(12, w1), ZeroBytes(16, l));
    XorMoves(Xor(ZeroBytes(16, w0), ZeroBytes(12, w1)), rest, ZeroBytes(16, l));
  }

  // One more word, and the partial checksums turned round.
  lemma RotateStep(c0: bv32, c1: bv32, c2: bv32, c3: bv32, w: bv32)
    ensures Combined(c1, c2, c3, Xor(w, ZeroBytes(16, c0))) == FedWord(Combined(c0, c1, c2, c3), w)
  {
    hide Xor, ZeroBytes;
    var z0, z1, z2, z3 := ZeroBytes(16, c0), ZeroBytes(12, c1), ZeroBytes(8, c2), ZeroBytes(4, c3);
    ZeroBytesLinear(4, Xor(Xor(z0, z1), Xor(z2, z3)), w);
    ZeroBytesLinear(4, Xor(z0, z1), Xor(z2, z3));
    ZeroBytesLinear(4, z0, z1);
    ZeroBytesLinear(4, z2, z3);
    ZeroBytesAdd(4, 12, c1);
    ZeroBytesAdd(4, 8, c2);
    ZeroBytesAdd(4, 4, c3);
    ZeroBytesLinear(4, w, z0);
    Turn(ZeroBytes(4, z0), ZeroBytes(16, c1), ZeroBytes(12, c2), ZeroBytes(8, c3), ZeroBytes(4, w));
  }

  lemma Turn(a: bv32, b: bv32, c: bv32, d: bv32, w: bv32)
    ensures Xor(Xor(b, c), Xor(d, Xor(w, a))) == Xor(Xor(Xor(a, b), Xor(c, d)), w)
  {
    hide Xor;
    XorRegroups(d, w, a);
    XorMoves(Xor(b, c), Xor(d, w), a);
    XorMoves(Xor(b, c), d, w);
    XorRegroups(b, c, d);
    XorCommutes(a, b);
    XorMoves(Xor(Xor(b, c), d), a, w);
    XorMoves(b, Xor(c, d), a);
  }

  // Prefixes of the data

  lemma {:induction false} BytewiseAppend(l: bv32, a: seq<bv8>, b: seq<bv8>)
    ensures Bytewise(l, a + b) == Bytewise(Bytewise(l, a), b)
    decreases |b|
  {
    hide Feed;
    if b == [] {
      assert a + b == a;
    } else {
      assert (a + b)[..|a + b| - 1] == a + b[..|b| - 1];
      BytewiseAppend(l, a, b[..|b| - 1]);
    }
  }

  lemma OneByteMore(l: bv32, data: seq<bv8>, p: nat)
    requires p < |data|
    ensures Bytewise(l, data[..p + 1]) == Feed(Bytewise(l, data[..p]), data[p])
  {
    hide Feed;
    assert data[..p + 1][..p] == data[..p];
  }

  function ReadWord(data: seq<bv8>, at: nat): bv32
    requires at + 4 <= |data|
  {
    WordOf(data[at], data[at + 1], data[at + 2], data[at + 3])
  }

  lemma OneWordMore(l: bv32, data: seq<bv8>, p: nat)
    requires p + 4 <= |data|
    ensures Bytewise(l, data[..p + 4]) == FedWord(Bytewise(l, data[..p]), ReadWord(data, p))
  {
    hide Feed, WordOf, Xor, ZeroBytes, Bytewise;
    OneByteMore(l, data, p);
    OneByteMore(l, data, p + 1);
    OneByteMore(l, data, p + 2);
    OneByteMore(l, data, p + 3);
    FeedWord(Bytewise(l, data[..p]), data[p], data[p + 1], data[p + 2], data[p + 3]);
  }

  lemma FourWordsMore(l: bv32, data: seq<bv8>, p: nat)
    requires p + 16 <= |data|
    ensures Bytewise(l, data[..p + 16])
         == FedWord(FedWord(FedWord(FedWord(Bytewise(l, data[..p]), ReadWord(data, p)), ReadWord(data, p + 4)),
                            ReadWord(data, p + 8)), ReadWord(data, p + 12))
  {
    hide FedWord, ReadWord, Bytewise;
    OneWordMore(l, data, p);
    OneWordMore(l, data, p + 4);
    OneWordMore(l, data, p + 8);
    OneWordMore(l, data, p + 12);
  }

  // The loop

  // STEP1 until the position is reached; first is the state before any data.
  method StepBytes(t: Tables, start: bv32, data: seq<bv8>, from: nat, to: nat, ghost first: bv32) returns (l: bv32)
    requires t.Defined()
    requires from <= to <= |data|
    requires start == Bytewise(first, data[..from])
    ensures l == Bytewise(first, data[..to])
  {
    hide Xor, Feed, Bytewise, ZeroByte, ZeroBytes, Low, Down8;
    l := start;
    var p := from;
    while p != to
      invariant from <= p <= to
      invariant l == Bytewise(first, data[..p])
    {
      ByteStep(t, l, data[p]);
      OneByteMore(first, data, p);
      l := Xor(t.byteExtension(Xor(Low(l), data[p] as bv32)), Down8(l));
      p := p + 1;
    }
  }

  // STEP4W: the state takes in a word already loaded.
  method StepWord(t: Tables, l: bv32, word: bv32) returns (r: bv32)
    requires t.Defined()
    ensures r == FedWord(l, word)
  {
    hide Xor, ZeroByte, ZeroBytes, Low, Down8;
    var w := Xor(word, l);
    XorCommutes(word, l);
    NoZeroBytes(w);
    var i := 0;
    while i < 4
      invariant 0 <= i <= 4
      invariant w == ZeroBytes(i, Xor(l, word))
    {
      TableStep(t, w);
      OneMoreZero(i, Xor(l, word));
      w := Xor(Down8(w), t.byteExtension(Low(w)));
      i := i + 1;
    }
    r := w;
  }

  lemma TableStep(t: Tables, w: bv32)
    requires t.Defined()
    ensures Xor(Down8(w), t.byteExtension(Low(w))) == ZeroByte(w)
  {
    hide Xor, ZeroByte, ZeroBytes, Low, Down8, High;
    Halves(w);
    ZeroByteIsLinear(Low(w), High(w));
    ZeroByteOfHigh(w);
    XorCommutes(Down8(w), t.byteExtension(Low(w)));
  }

  lemma NoZeroBytes(x: bv32)
    ensures ZeroBytes(0, x) == x
  {
  }

  lemma OneMoreZero(i: nat, x: bv32)
    ensures ZeroBytes(i + 1, x) == ZeroByte(ZeroBytes(i, x))
  {
    hide ZeroByte;
  }

  // crc32c::Extend for data that starts at the given address, on a machine without the instruction.
  method Extend(t: Tables, crc: bv32, data: seq<bv8>, address: nat) returns (r: bv32)
    requires t.Defined()
    ensures r == Extended(crc, data)
  {
    hide Xor, Feed, Bytewise, ZeroBytes, ZeroByte, Combined, FedWord, Strided, ReadWord, Tables.Defined;
    var start := Xor(crc, ALL_ONES);
    var l := start;
    var p, e := 0, |data|;
    BytewiseOfNothing(start, data);
    var x := (4 - address % 4) % 4;
    if x <= e {
      l := StepBytes(t, l, data, p, x, start);
      p := x;
    }
    if e - p >= 16 {
      var c0, c1, c2, c3 := Xor(ReadWord(data, p), l), ReadWord(data, p + 4), ReadWord(data, p + 8), ReadWord(data, p + 12);
      FirstSwath(start, data, p);
      p := p + 16;
      while e - p >= 16
        invariant 0 <= p <= e
        invariant Combined(c0, c1, c2, c3) == Bytewise(start, data[..p])
      {
        NextSwath(t, start, data, p, c0, c1, c2, c3);
        c0 := Strided(t, ReadWord(data, p), c0);
        c1 := Strided(t, ReadWord(data, p + 4), c1);
        c2 := Strided(t, ReadWord(data, p + 8), c2);
        c3 := Strided(t, ReadWord(data, p + 12), c3);
        p := p + 16;
      }
      while e - p >= 4
        invariant 0 <= p <= e
        invariant Combined(c0, c1, c2, c3) == Bytewise(start, data[..p])
      {
        NextWord(t, start, data, p, c0, c1, c2, c3);
        c0 := Strided(t, ReadWord(data, p), c0);
        c0, c1, c2, c3 := c1, c2, c3, c0;
        p := p + 4;
      }
      Recombined(c0, c1, c2, c3);
      l := 0;
      l := StepWord(t, l, c0);
      l := StepWord(t, l, c1);
      l := StepWord(t, l, c2);
      l := StepWord(t, l, c3);
    }
    l := StepBytes(t, l, data, p, e, start);
    assert data[..e] == data;
    r := Xor(l, ALL_ONES);
  }

  lemma BytewiseOfNothing(l: bv32, data: seq<bv8>)
    ensures Bytewise(l, data[..0]) == l
  {
  }

  lemma FirstSwath(start: bv32, data: seq<bv8>, p: nat)
    requires p + 16 <= |data|
    ensures Combined(Xor(ReadWord(data, p), Bytewise(start, data[..p])),
                     ReadWord(data, p + 4), ReadWord(data, p + 8), ReadWord(data, p + 12))
         == Bytewise(start, data[..p + 16])
  {
    hide *;
    var l := Bytewise(start, data[..p]);
    FourWordsMore(start, data, p);
    FourWords(l, ReadWord(data, p), ReadWord(data, p + 4), ReadWord(data, p + 8), ReadWord(data, p + 12));
    XorCommutes(l, ReadWord(data, p));
  }

  lemma NextSwath(t: Tables, start: bv32, data: seq<bv8>, p: nat, c0: bv32, c1: bv32, c2: bv32, c3: bv32)
    requires t.Defined()
    requires p + 16 <= |data|
    requires Combined(c0, c1, c2, c3) == Bytewise(start, data[..p])
    ensures Combined(Strided(t, ReadWord(data, p), c0), Strided(t, ReadWord(data, p + 4), c1),
                     Strided(t, ReadWord(data, p + 8), c2), Strided(t, ReadWord(data, p + 12), c3))
         == Bytewise(start, data[..p + 16])
  {
    hide *;
    var w0, w1, w2, w3 := ReadWord(data, p), ReadWord(data, p + 4), ReadWord(data, p + 8), ReadWord(data, p + 12);
    StridedIsLinear(t, w0, c0);
    StridedIsLinear(t, w1, c1);
    StridedIsLinear(t, w2, c2);
    StridedIsLinear(t, w3, c3);
    StrideStep(c0, c1, c2, c3, w0, w1, w2, w3);
    FourWordsMore(start, data, p);
  }

  lemma NextWord(t: Tables, start: bv32, data: seq<bv8>, p: nat, c0: bv32, c1: bv32, c2: bv32, c3: bv32)
    requires t.Defined()
    requires p + 4 <= |data|
    requires Combined(c0, c1, c2, c3) == Bytewise(start, data[..p])
    ensures Combined(c1, c2, c3, Strided(t, ReadWord(data, p), c0)) == Bytewise(start, data[..p + 4])
  {
    hide *;
    StridedIsLinear(t, ReadWord(data, p), c0);
    RotateStep(c0, c1, c2, c3, ReadWord(data, p));
    OneWordMore(start, data, p);
  }

  lemma Recombined(c0: bv32, c1: bv32, c2: bv32, c3: bv32)
    ensures FedWord(FedWord(FedWord(FedWord(0, c0), c1), c2), c3) == Combined(c0, c1, c2, c3)
  {
    hide *;
    FourWords(0, c0, c1, c2, c3);
    XorZero(c0);
  }

  lemma XorZero(a: bv32)
    ensures Xor(0, a) == a
  {
  }

  // What util/crc32c.h promises: extending the checksum of a by b gives the checksum of both.
  lemma ExtendsValue(a: seq<bv8>, b: seq<bv8>)
    ensures Extended(Value(a), b) == Value(a + b)
  {
    hide Xor, Bytewise;
    XorUndo(Bytewise(Xor(0, ALL_ONES), a), ALL_ONES);
    BytewiseAppend(Xor(0, ALL_ONES), a, b);
  }

  // ---------------------------------------------------------------------------
  // The byte table
  // ---------------------------------------------------------------------------

  // The powers of two in a byte from the highest down, and then the entries of kByteExtensionTable at these indices, from
  // the lowest up.
  const CHAIN: seq<bv32> :=
    [0x80, 0x40, 0x20, 0x10, 0x08, 0x04, 0x02, 0x01,
     0x82f6_3b78, 0x417b_1dbc, 0x20bd_8ede, 0x105e_c76f, 0x8ad9_58cf, 0xc79a_971f, 0xe13b_70f7, 0xf26b_8303]

  lemma StepOf(l: bv32, r: bv32)
    requires r == if l & 1 == 1 then (l >> 1) ^ POLY else l >> 1
    ensures BitStep(l) == r
  {
  }

  lemma ChainStep(i: nat)
    requires i < 15
    ensures BitStep(CHAIN[i]) == CHAIN[i + 1]
  {
    hide BitStep;
    StepOf(0x80, 0x40);
    StepOf(0x40, 0x20);
    StepOf(0x20, 0x10);
    StepOf(0x10, 0x08);
    StepOf(0x08, 0x04);
    StepOf(0x04, 0x02);
    StepOf(0x02, 0x01);
    StepOf(0x01, 0x82f6_3b78);
    StepOf(0x82f6_3b78, 0x417b_1dbc);
    StepOf(0x417b_1dbc, 0x20bd_8ede);
    StepOf(0x20bd_8ede, 0x105e_c76f);
    StepOf(0x105e_c76f, 0x8ad9_58cf);
    StepOf(0x8ad9_58cf, 0xc79a_971f);
    StepOf(0xc79a_971f, 0xe13b_70f7);
    StepOf(0xe13b_70f7, 0xf26b_8303);
  }

  lemma {:induction false} ChainRuns(i: nat, n: nat)
    requires i + n < 16
    ensures BitSteps(n, CHAIN[i]) == CHAIN[i + n]
  {
    hide BitStep, BitSteps;
    FirstSteps(n, CHAIN[i]);
    if n > 0 {
      ChainRuns(i, n - 1);
      ChainStep(i + n - 1);
    }
  }

  lemma FirstSteps(n: nat, l: bv32)
    ensures BitSteps(n, l) == if n == 0 then l else BitStep(BitSteps(n - 1, l))
  {
  }

  function Pick(c: bv32, bit: bv32, entry: bv32): bv32 {
    if c & bit != 0 then entry else 0
  }

  // What the first i of eight bits of c select.
  function Selected(c: bv32, entries: seq<bv32>, i: nat): bv32
    requires i <= 8 <= |entries|
  {
    if i == 0 then 0 else Xor(Selected(c, entries, i - 1), Pick(c, CHAIN[i - 1], entries[i - 1]))
  }

  // Every entry of the table is the xor of those at the powers of two that make up its index.
  lemma TableEntries(c: bv32)
    requires c <= 0xff
    ensures ZeroByte(c) == Selected(c, CHAIN[8..], 8)
  {
    hide ZeroByte, Xor;
    SelectedIsIndex(c);
    SelectedIsLinear(c, 8);
  }

  // The bits that the first of them are.
  const MASKS: seq<bv32> := [0x00, 0x80, 0xc0, 0xe0, 0xf0, 0xf8, 0xfc, 0xfe, 0xff]

  lemma MaskStep(i: nat)
    requires 0 < i <= 8
    ensures MASKS[i - 1] & CHAIN[i - 1] == 0 && MASKS[i] == MASKS[i - 1] | CHAIN[i - 1]
    ensures CHAIN[i - 1] in [0x80, 0x40, 0x20, 0x10, 0x08, 0x04, 0x02, 0x01]
  {
  }

  function And(a: bv32, b: bv32): bv32 {
    a & b
  }

  lemma {:induction false} SelectedIsMasked(c: bv32, i: nat)
    requires i <= 8
    ensures Selected(c, CHAIN, i) == And(c, MASKS[i])
  {
    hide *;
    if i == 0 {
      NothingSelected(c);
    } else {
      SelectedIsMasked(c, i - 1);
      NextSelected(c, i);
      NextMask(c, i);
    }
  }

  lemma NothingSelected(c: bv32)
    ensures Selected(c, CHAIN, 0) == And(c, MASKS[0])
  {
    assert c & 0 == 0;
  }

  lemma NextSelected(c: bv32, i: nat)
    requires 0 < i <= 8
    ensures Selected(c, CHAIN, i) == Xor(Selected(c, CHAIN, i - 1), Pick(c, CHAIN[i - 1], CHAIN[i - 1]))
  {
    hide Xor, Pick;
  }

  lemma NextMask(c: bv32, i: nat)
    requires 0 < i <= 8
    ensures Xor(And(c, MASKS[i - 1]), Pick(c, CHAIN[i - 1], CHAIN[i - 1])) == And(c, MASKS[i])
  {
    hide Xor, And, Pick;
    MaskStep(i);
    OneBit(c, CHAIN[i - 1]);
    TwoMasks(c, MASKS[i - 1], CHAIN[i - 1], MASKS[i]);
  }

  lemma SelectedIsIndex(c: bv32)
    requires c <= 0xff
    ensures Selected(c, CHAIN, 8) == c
  {
    hide Selected, And;
    SelectedIsMasked(c, 8);
    ByteMask(c);
  }

  lemma OneBit(c: bv32, bit: bv32)
    requires bit in [0x80, 0x40, 0x20, 0x10, 0x08, 0x04, 0x02, 0x01]
    ensures Pick(c, bit, bit) == And(c, bit)
  {
  }

  lemma TwoMasks(c: bv32, mask: bv32, bit: bv32, both: bv32)
    requires mask & bit == 0 && both == mask | bit
    ensures Xor(And(c, mask), And(c, bit)) == And(c, both)
  {
  }

  lemma ByteMask(c: bv32)
    requires c <= 0xff
    ensures And(c, 0xff) == c
  {
  }

  lemma {:induction false} SelectedIsLinear(c: bv32, i: nat)
    requires i <= 8
    ensures ZeroByte(Selected(c, CHAIN, i)) == Selected(c, CHAIN[8..], i)
  {
    hide ZeroByte, Xor, Pick, BitSteps;
    ZeroOfZero();
    if i > 0 {
      SelectedIsLinear(c, i - 1);
      ZeroByteIsLinear(Selected(c, CHAIN, i - 1), Pick(c, CHAIN[i - 1], CHAIN[i - 1]));
      ChainRuns(i - 1, 8);
      ZeroByteIs(CHAIN[i - 1]);
      PickedZero(c, CHAIN[i - 1], CHAIN[i - 1]);
    }
  }

  lemma PickedZero(c: bv32, bit: bv32, entry: bv32)
    ensures ZeroByte(Pick(c, bit, entry)) == Pick(c, bit, ZeroByte(entry))
  {
    hide ZeroByte;
    ZeroOfZero();
  }

  lemma ZeroByteIs(l: bv32)
    ensures ZeroByte(l) == BitSteps(8, l)
  {
  }

  lemma ZeroOfZero()
    ensures ZeroByte(0) == 0
  {
    hide BitSteps;
    ZeroStays(8);
  }

  lemma {:induction false} ZeroStays(n: nat)
    ensures BitSteps(n, 0) == 0
  {
    if n > 0 {
      ZeroStays(n - 1);
    }
  }
}
