/**
 log::Writer of db/log_writer.cc.
 */
module LogWriter {
  import opened ByteStrings
  import opened LogFormat

  // A block offset for a file of length p; a full block may be recorded as such.
  predicate IsOffset(offset: nat, p: nat) {
    offset <= BLOCK_SIZE && offset % BLOCK_SIZE == p % BLOCK_SIZE
  }

  lemma OffsetAfterTrailer(offset: nat, p: nat)
    requires IsOffset(offset, p)
    ensures var q := SkipTrailer(p);
            var o := if BLOCK_SIZE - offset < HEADER_SIZE then 0 else offset;
            && q == p + (if BLOCK_SIZE - offset < HEADER_SIZE then BLOCK_SIZE - offset else 0)
            && IsOffset(o, q)
            && o <= BLOCK_SIZE - HEADER_SIZE
            && Avail(q) == BLOCK_SIZE - o - HEADER_SIZE
  {
  }

  lemma OffsetAdd(offset: nat, p: nat, n: nat)
    requires IsOffset(offset, p) && offset + n <= BLOCK_SIZE
    ensures IsOffset(offset + n, p + n)
  {
  }

  // The file after one turn of the loop of AddRecord.
  function Next(crc: Checksum, dest: Bytes, data: Bytes, begin: bool): (next: Bytes)
  {
    var q := SkipTrailer(|dest|);
    var n := FragmentLength(q, |data|);
    dest + Zeros(q - |dest|) + Emit(crc, RecordType(begin, n == |data|), data[..n])
  }

  lemma EmitNext(crc: Checksum, dest: Bytes, data: Bytes, begin: bool)
    ensures var n := FragmentLength(SkipTrailer(|dest|), |data|);
            var next := Next(crc, dest, data, begin);
            dest + Fragments(crc, |dest|, data, begin) ==
            if n == |data| then next else next + Fragments(crc, |next|, data[n..], false)
  {
    hide Fragments, SkipTrailer, RecordType, FragmentLength, Header;
    FragmentsStep(crc, |dest|, data, begin);
    var q := SkipTrailer(|dest|);
    var n := FragmentLength(q, |data|);
    var z, e := Zeros(q - |dest|), Emit(crc, RecordType(begin, n == |data|), data[..n]);
    var f := if n == |data| then [] else Fragments(crc, q + HEADER_SIZE + n, data[n..], false);
    assert dest + (z + e + f) == dest + z + e + f;
  }

  class Writer {
    const crc: Checksum
    var dest: Bytes
    var blockOffset: nat

    ghost predicate Valid()
      reads this
    {
      blockOffset <= BLOCK_SIZE && IsOffset(blockOffset, |dest|)
    }

    constructor (crc: Checksum)
      ensures Valid() && dest == [] && this.crc == crc
    {
      this.crc := crc;
      dest, blockOffset := [], 0;
    }

    // Continues a log that already holds contents.
    constructor Reopen(crc: Checksum, contents: Bytes)
      ensures Valid() && dest == contents && this.crc == crc
    {
      this.crc := crc;
      dest, blockOffset := contents, |contents| % BLOCK_SIZE;
    }

    method AddRecord(slice: Bytes)
      requires Valid()
      modifies this
      ensures Valid()
      ensures dest == old(dest) + Fragments(crc, |old(dest)|, slice, true)
    {
      ghost var whole := dest + Fragments(crc, |dest|, slice, true);
      var left, begin := slice, true;
      var more := true;
      while more
        invariant Valid()
        invariant more ==> whole == dest + Fragments(crc, |dest|, left, begin)
        invariant !more ==> whole == dest
        decreases more, |left|, if blockOffset == BLOCK_SIZE then 0 else 1
      {
        EmitNext(crc, dest, left, begin);
        var n := EmitFragment(left, begin);
        left, begin := left[n..], false;
        more := |left| > 0;
      }
    }

    // Emits as much of a record as the current block takes.
    method EmitFragment(left: Bytes, begin: bool) returns (n: nat)
      requires Valid()
      modifies this
      ensures Valid()
      ensures n == FragmentLength(SkipTrailer(|old(dest)|), |left|)
      ensures dest == Next(crc, old(dest), left, begin)
      ensures n == 0 && |left| > 0 ==> old(blockOffset) != BLOCK_SIZE && blockOffset == BLOCK_SIZE
    {
      hide Emit, Header, IsOffset, SkipTrailer, RecordType, Avail, Zeros;
      FillTrailer();
      var avail := BLOCK_SIZE - blockOffset - HEADER_SIZE;
      n := if |left| < avail then |left| else avail;
      var end := |left| == n;
      var t := RecordType(begin, end);
      EmitPhysicalRecord(t, left[..n]);
    }

    // Pads a block tail too short for a header and moves on to the next block.
    method FillTrailer()
      requires Valid()
      modifies this
      ensures Valid() && blockOffset <= BLOCK_SIZE - HEADER_SIZE
      ensures dest == old(dest) + Zeros(SkipTrailer(|old(dest)|) - |old(dest)|)
      ensures BLOCK_SIZE - blockOffset - HEADER_SIZE == Avail(SkipTrailer(|old(dest)|))
      ensures old(blockOffset) == BLOCK_SIZE ==> blockOffset == 0
    {
      hide IsOffset, SkipTrailer, Avail, Zeros;
      OffsetAfterTrailer(blockOffset, |dest|);
      var leftover := BLOCK_SIZE - blockOffset;
      if leftover < HEADER_SIZE {
        if leftover > 0 {
          dest := dest + Zeros(leftover);
        }
        blockOffset := 0;
      }
    }

    method EmitPhysicalRecord(t: Byte, payload: Bytes)
      requires Valid() && blockOffset + HEADER_SIZE + |payload| <= BLOCK_SIZE
      modifies this
      ensures Valid() && blockOffset == old(blockOffset) + HEADER_SIZE + |payload|
      ensures dest == old(dest) + Emit(crc, t, payload)
    {
      hide IsOffset;
      OffsetAdd(blockOffset, |dest|, HEADER_SIZE + |payload|);
      var header := EncodeFixed32(Mask(crc([t] + payload))) + [|payload| % 256, |payload| / 256 % 256, t];
      dest := dest + header;
      dest := dest + payload;
      blockOffset := blockOffset + HEADER_SIZE + |payload|;
    }
  }
}
