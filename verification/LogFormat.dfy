/**
 The log file format of db/log_format.h and the bytes db/log_writer.cc emits.
 */
module LogFormat {

  import opened ByteStrings

  // A checksum of a byte string, for which the log uses crc32c::Value.
  type Checksum = Bytes -> Word

  const BLOCK_SIZE: nat := 32768
  const HEADER_SIZE: nat := 7
  const MASK_DELTA: nat := 0xa282ead8

  const ZERO_TYPE: Byte := 0
  const FULL_TYPE: Byte := 1
  const FIRST_TYPE: Byte := 2
  const MIDDLE_TYPE: Byte := 3
  const LAST_TYPE: Byte := 4

  // crc32c::Mask: the two parts change places, then a constant is added.
  function Mask(crc: Word): Word {
    (crc / 0x8000 + crc % 0x8000 * 0x20000 + MASK_DELTA) % 0x1_0000_0000
  }

  function Unmask(masked: Word): Word {
    var rot := (masked - MASK_DELTA) % 0x1_0000_0000;
    rot / 0x20000 + rot % 0x20000 * 0x8000
  }

  lemma UnmaskMask(crc: Word)
    ensures Unmask(Mask(crc)) == crc
  {
    var hi, lo := crc / 0x8000, crc % 0x8000;
    var rot := hi + lo * 0x20000;
    assert (Mask(crc) - MASK_DELTA) % 0x1_0000_0000 == rot;
    assert rot / 0x20000 == lo && rot % 0x20000 == hi;
  }

  lemma MaskOfUnmask(stored: Word)
    ensures Mask(Unmask(stored)) == stored
  {
    var rot := (stored - MASK_DELTA) % 0x1_0000_0000;
    var u := Unmask(stored);
    assert u / 0x8000 == rot % 0x20000 && u % 0x8000 == rot / 0x20000;
  }

  function Header(crc: Checksum, t: Byte, payload: Bytes): (h: Bytes)
    requires |payload| < 65536
    ensures |h| == HEADER_SIZE
  {
    EncodeFixed32(Mask(crc([t] + payload))) + [|payload| % 256, |payload| / 256, t]
  }

  // One physical record.
  function Emit(crc: Checksum, t: Byte, payload: Bytes): Bytes
    requires |payload| < 65536
  {
    Header(crc, t, payload) + payload
  }

  // Where the next header goes: a block tail too short for one is skipped.
  function SkipTrailer(p: nat): (q: nat)
    ensures p <= q < p + HEADER_SIZE && q % BLOCK_SIZE <= BLOCK_SIZE - HEADER_SIZE
    ensures q == p || q % BLOCK_SIZE == 0
  {
    if BLOCK_SIZE - p % BLOCK_SIZE < HEADER_SIZE then p + (BLOCK_SIZE - p % BLOCK_SIZE) else p
  }

  function Zeros(n: nat): (z: Bytes)
    ensures |z| == n
  {
    seq(n, _ => 0)
  }

  function RecordType(begin: bool, end: bool): Byte {
    if begin && end then FULL_TYPE
    else if begin then FIRST_TYPE
    else if end then LAST_TYPE
    else MIDDLE_TYPE
  }

  // Payload bytes that fit behind a header at q.
  function Avail(q: nat): nat
    requires q % BLOCK_SIZE <= BLOCK_SIZE - HEADER_SIZE
  {
    BLOCK_SIZE - q % BLOCK_SIZE - HEADER_SIZE
  }

  function FragmentLength(q: nat, left: nat): (n: nat)
    requires q % BLOCK_SIZE <= BLOCK_SIZE - HEADER_SIZE
    ensures n <= left && n <= Avail(q) <= BLOCK_SIZE - HEADER_SIZE
  {
    if left < Avail(q) then left else Avail(q)
  }

  // A fragment that is not the last of its record fills its block.
  lemma OnlyTheLastFallsShort(q: nat, left: nat)
    requires q % BLOCK_SIZE <= BLOCK_SIZE - HEADER_SIZE
    ensures var n := FragmentLength(q, left);
            n < left ==> (q + HEADER_SIZE + n) % BLOCK_SIZE == 0
  {
  }

  // The bytes of a logical record whose first byte goes to file position p.
  function Fragments(crc: Checksum, p: nat, data: Bytes, begin: bool): Bytes
    decreases |data|, if p % BLOCK_SIZE == 0 then 0 else 1
  {
    var q := SkipTrailer(p);
    var n := FragmentLength(q, |data|);
    var end := n == |data|;
    Zeros(q - p) + Emit(crc, RecordType(begin, end), data[..n]) +
    if end then [] else Fragments(crc, q + HEADER_SIZE + n, data[n..], false)
  }

  lemma {:induction false} FragmentsStep(crc: Checksum, p: nat, data: Bytes, begin: bool)
    ensures var q := SkipTrailer(p);
            var n := FragmentLength(q, |data|);
            Fragments(crc, p, data, begin) ==
            Zeros(q - p) + Emit(crc, RecordType(begin, n == |data|), data[..n]) +
            if n == |data| then [] else Fragments(crc, q + HEADER_SIZE + n, data[n..], false)
  {
  }

  // A whole log.
  function LogBytes(crc: Checksum, records: seq<Bytes>): Bytes {
    if records == [] then []
    else
      var before := LogBytes(crc, records[..|records| - 1]);
      before + Fragments(crc, |before|, records[|records| - 1], true)
  }

  lemma {:induction false} LogPrefix(crc: Checksum, records: seq<Bytes>, k: nat)
    requires k <= |records|
    ensures LogBytes(crc, records[..k]) <= LogBytes(crc, records)
    decreases |records| - k
  {
    if k == |records| {
      assert records[..k] == records;
    } else {
      LogPrefix(crc, records, k + 1);
      assert records[..k + 1][..k] == records[..k];
    }
  }

  // Where record k starts.
  function Offset(crc: Checksum, records: seq<Bytes>, k: nat): nat
    requires k <= |records|
  {
    |LogBytes(crc, records[..k])|
  }

  lemma {:induction false} RecordInLog(crc: Checksum, records: seq<Bytes>, k: nat)
    requires k < |records|
    ensures var f := Fragments(crc, Offset(crc, records, k), records[k], true);
            && Offset(crc, records, k + 1) == Offset(crc, records, k) + |f|
            && Offset(crc, records, k + 1) <= |LogBytes(crc, records)|
            && LogBytes(crc, records)[Offset(crc, records, k)..Offset(crc, records, k + 1)] == f
  {
    hide Fragments;
    LogPrefix(crc, records, k + 1);
    assert records[..k + 1][..k] == records[..k];
    var before := LogBytes(crc, records[..k]);
    Between(before, Fragments(crc, |before|, records[k], true), LogBytes(crc, records));
  }

  lemma Between(a: Bytes, b: Bytes, whole: Bytes)
    requires a + b <= whole
    ensures |a| + |b| <= |whole| && whole[|a|..|a| + |b|] == b
  {
    assert whole[|a|..|a| + |b|] == (a + b)[|a|..];
  }

  // Adding one record to a log only appends to it.
  lemma {:induction false} LogAppend(crc: Checksum, records: seq<Bytes>, data: Bytes)
    ensures var log := LogBytes(crc, records);
            LogBytes(crc, records + [data]) == log + Fragments(crc, |log|, data, true)
  {
    assert (records + [data])[..|records|] == records;
  }
}
