/**
 The table file format of table/format.cc: block handles, the footer, and blocks with their type and checksum.
 */
module TableFormat {
  import opened ByteStrings
  import opened Coding
  import L = LogFormat

  const WORD64: nat := 0x1_0000_0000_0000_0000
  const MAX_HANDLE: nat := 20   // BlockHandle::kMaxEncodedLength
  const FOOTER_SIZE: nat := 48
  const TRAILER_SIZE: nat := 5  // kBlockTrailerSize
  const MAGIC_LOW: Word := 0x8b80fb57
  const MAGIC_HIGH: Word := 0xdb477524

  const NO_COMPRESSION: Byte := 0
  const SNAPPY_COMPRESSION: Byte := 1

  // ---------------------------------------------------------------------------
  // Handles
  // ---------------------------------------------------------------------------

  datatype BlockHandle = BlockHandle(offset: nat, size: nat) {
    predicate Fits() {
      offset < WORD64 && size < WORD64
    }
  }

  const NO_HANDLE: BlockHandle := BlockHandle(WORD64 - 1, WORD64 - 1)

  function EncodeHandle(h: BlockHandle): Bytes {
    EncodeVarint(h.offset) + EncodeVarint(h.size)
  }

  function DecodeHandle(input: Bytes): (p: Parsed<BlockHandle>)
    ensures p.Parsed? ==> p.value.Fits()
  {
    match GetVarint64(input)
    case Malformed => Malformed
    case Parsed(offset, rest) =>
      match GetVarint64(rest)
      case Malformed => Malformed
      case Parsed(size, rest') => Parsed(BlockHandle(offset, size), rest')
  }

  lemma HandleRoundTrip(h: BlockHandle, rest: Bytes)
    requires h.Fits()
    ensures DecodeHandle(EncodeHandle(h) + rest) == Parsed(h, rest)
  {
    hide EncodeVarint, GetVarint64;
    assert EncodeHandle(h) + rest == EncodeVarint(h.offset) + (EncodeVarint(h.size) + rest);
    Varint64RoundTrip(h.offset, EncodeVarint(h.size) + rest);
    Varint64RoundTrip(h.size, rest);
  }

  lemma {:induction false} VarintLength(v: nat, n: nat)
    requires n >= 1 && v < Pow2(7 * n)
    ensures |EncodeVarint(v)| <= n
    decreases n
  {
    hide Pow2;
    Pow2Of7();
    if v >= 128 {
      Pow2Step(7 * (n - 1));
      assert 7 * (n - 1) + 7 == 7 * n;
      VarintLength(v / 128, n - 1);
    }
  }

  lemma HandleLength(h: BlockHandle)
    requires h.Fits()
    ensures |EncodeHandle(h)| <= MAX_HANDLE
  {
    hide Pow2, EncodeVarint;
    Pow2Of64();
    Pow2Monotone(64, 70);
    VarintLength(h.offset, 10);
    VarintLength(h.size, 10);
  }

  // ---------------------------------------------------------------------------
  // The footer
  // ---------------------------------------------------------------------------

  function Zeros(n: nat): (z: Bytes)
    ensures |z| == n
  {
    seq(n, _ => 0)
  }

  // std::string::resize.
  function Resize(b: Bytes, n: nat): (r: Bytes)
    ensures |r| == n
  {
    if |b| >= n then b[..n] else b + Zeros(n - |b|)
  }

  function FooterBytes(meta: BlockHandle, index: BlockHandle): (b: Bytes)
    ensures |b| == FOOTER_SIZE
  {
    Resize(EncodeHandle(meta) + EncodeHandle(index), 2 * MAX_HANDLE)
    + (EncodeFixed32(MAGIC_LOW) + EncodeFixed32(MAGIC_HIGH))
  }

  // The handles, zeros up to their largest length, and the magic number.
  lemma FooterIsPadded(meta: BlockHandle, index: BlockHandle)
    requires meta.Fits() && index.Fits()
    ensures var b, handles := FooterBytes(meta, index), EncodeHandle(meta) + EncodeHandle(index);
            && |handles| <= 2 * MAX_HANDLE && b[..|handles|] == handles
            && forall k | |handles| <= k < 2 * MAX_HANDLE :: b[k] == 0
  {
    hide EncodeHandle, EncodeFixed32;
    HandleLength(meta);
    HandleLength(index);
  }

  datatype Footer = Footer(meta: BlockHandle, index: BlockHandle) | BadMagic | BadHandle

  // Footer::DecodeFrom, on the last bytes of a file.
  function DecodeFooter(input: Bytes): Footer
    requires |input| == FOOTER_SIZE
  {
    if DecodeFixed32(input[40..]) != MAGIC_LOW || DecodeFixed32(input[44..]) != MAGIC_HIGH then BadMagic
    else
      match DecodeHandle(input)
      case Malformed => BadHandle
      case Parsed(meta, rest) =>
        match DecodeHandle(rest)
        case Malformed => BadHandle
        case Parsed(index, _) => Footer(meta, index)
  }

  lemma MagicBack(front: Bytes)
    requires |front| == 40
    ensures var b := front + (EncodeFixed32(MAGIC_LOW) + EncodeFixed32(MAGIC_HIGH));
            DecodeFixed32(b[40..]) == MAGIC_LOW && DecodeFixed32(b[44..]) == MAGIC_HIGH
  {
    hide EncodeFixed32;
    var low, high := EncodeFixed32(MAGIC_LOW), EncodeFixed32(MAGIC_HIGH);
    var b := front + (low + high);
    assert b[40..] == low + high && b[44..] == high;
    Fixed32RoundTrip(MAGIC_LOW);
    Fixed32RoundTrip(MAGIC_HIGH);
  }

  lemma FooterRoundTrip(meta: BlockHandle, index: BlockHandle)
    requires meta.Fits() && index.Fits()
    ensures DecodeFooter(FooterBytes(meta, index)) == Footer(meta, index)
  {
    hide EncodeHandle, DecodeHandle, EncodeFixed32, DecodeFixed32;
    HandleLength(meta);
    HandleLength(index);
    var handles := EncodeHandle(meta) + EncodeHandle(index);
    var padding, magic := Zeros(2 * MAX_HANDLE - |handles|), EncodeFixed32(MAGIC_LOW) + EncodeFixed32(MAGIC_HIGH);
    MagicBack(handles + padding);
    assert Resize(handles, 2 * MAX_HANDLE) == handles + padding;
    assert FooterBytes(meta, index) == EncodeHandle(meta) + (EncodeHandle(index) + (padding + magic));
    HandleRoundTrip(meta, EncodeHandle(index) + (padding + magic));
    HandleRoundTrip(index, padding + magic);
  }

  // ---------------------------------------------------------------------------
  // Blocks in the file
  // ---------------------------------------------------------------------------

  // What follows the contents of an uncompressed block.
  function Trailer(crc: L.Checksum, contents: Bytes): (b: Bytes)
    ensures |b| == TRAILER_SIZE
  {
    [NO_COMPRESSION] + EncodeFixed32(L.Mask(crc(contents + [NO_COMPRESSION])))
  }

  datatype ReadResult = Contents(data: Bytes) | Truncated | ChecksumMismatch | Compressed(data: Bytes) | BadType

  function ReadBlock(crc: L.Checksum, file: Bytes, verify: bool, h: BlockHandle): ReadResult {
    var n := h.size;
    if h.offset + n + TRAILER_SIZE > |file| then Truncated
    else
      var data := file[h.offset..h.offset + n + TRAILER_SIZE];
      if verify && L.Unmask(DecodeFixed32(data[n + 1..])) != crc(data[..n + 1]) then ChecksumMismatch
      else if data[n] == NO_COMPRESSION then Contents(data[..n])
      else if data[n] == SNAPPY_COMPRESSION then Compressed(data[..n])
      else BadType
  }

  // The block with these contents is at this place.
  ghost predicate StoredAt(crc: L.Checksum, file: Bytes, h: BlockHandle, contents: Bytes) {
    && h.size == |contents| && h.offset + h.size + TRAILER_SIZE <= |file|
    && file[h.offset..h.offset + h.size + TRAILER_SIZE] == contents + Trailer(crc, contents)
  }

  lemma StoredReadsBack(crc: L.Checksum, file: Bytes, verify: bool, h: BlockHandle, contents: Bytes)
    requires StoredAt(crc, file, h, contents)
    ensures ReadBlock(crc, file, verify, h) == Contents(contents)
  {
    hide L.Mask, L.Unmask, EncodeFixed32, DecodeFixed32;
    var n, data := h.size, file[h.offset..h.offset + h.size + TRAILER_SIZE];
    var masked := L.Mask(crc(contents + [NO_COMPRESSION]));
    assert data[n + 1..] == EncodeFixed32(masked);
    assert data[..n + 1] == contents + [NO_COMPRESSION] && data[..n] == contents;
    Fixed32RoundTrip(masked);
    L.UnmaskMask(crc(contents + [NO_COMPRESSION]));
  }

  // With checksums, contents that are handed out lie there as they were written.
  lemma OnlyStoredIsRead(crc: L.Checksum, file: Bytes, h: BlockHandle)
    ensures var r := ReadBlock(crc, file, true, h);
            && (r.Contents? ==> StoredAt(crc, file, h, r.data))
            && (r.Contents? || r.Compressed? || r.BadType? ==>
                  h.offset + h.size + TRAILER_SIZE <= |file|
                  && var data := file[h.offset..h.offset + h.size + TRAILER_SIZE];
                     data[h.size + 1..] == EncodeFixed32(L.Mask(crc(data[..h.size + 1]))))
  {
    hide L.Mask, L.Unmask, EncodeFixed32, DecodeFixed32;
    var r, n := ReadBlock(crc, file, true, h), h.size;
    if r.Contents? || r.Compressed? || r.BadType? {
      var data := file[h.offset..h.offset + n + TRAILER_SIZE];
      L.MaskOfUnmask(DecodeFixed32(data[n + 1..]));
      WordBack(data[n + 1..]);
      assert data[n + 1..][..4] == data[n + 1..];
      assert r.Contents? ==> data[..n + 1] == data[..n] + [NO_COMPRESSION] && data == data[..n + 1] + data[n + 1..];
    }
  }

  // Only a file whose last bytes are the magic number has a footer.
  lemma OnlyMagicIsFooter(input: Bytes)
    requires |input| == FOOTER_SIZE
    ensures DecodeFooter(input) != BadMagic <==>
              input[40..] == EncodeFixed32(MAGIC_LOW) + EncodeFixed32(MAGIC_HIGH)
  {
    hide EncodeFixed32, DecodeFixed32, DecodeHandle;
    WordBack(input[40..]);
    WordBack(input[44..]);
    assert input[40..] == input[40..][..4] + input[44..] && input[44..][..4] == input[44..];
    if input[40..] == EncodeFixed32(MAGIC_LOW) + EncodeFixed32(MAGIC_HIGH) {
      MagicBack(input[..40]);
      assert input == input[..40] + input[40..];
    }
  }

  lemma WrittenIsStored(crc: L.Checksum, file: Bytes, contents: Bytes)
    ensures StoredAt(crc, file + contents + Trailer(crc, contents), BlockHandle(|file|, |contents|), contents)
  {
    hide Trailer;
  }

  lemma StaysStored(crc: L.Checksum, file: Bytes, file': Bytes, h: BlockHandle, contents: Bytes)
    requires StoredAt(crc, file, h, contents) && file <= file'
    ensures StoredAt(crc, file', h, contents)
  {
    hide Trailer;
    var i, j := h.offset, h.offset + h.size + TRAILER_SIZE;
    assert file'[i..j] == file'[..|file|][i..j];
  }
}
