/**
 log::Reader of db/log_reader.cc with initial offset 0: a reader that works on 32 KiB buffers does what
 a parser by file position does, and on any prefix of a log that parser yields exactly the records that
 lie wholly inside the prefix, without reporting a corruption.
 */
module LogReader {
  import opened ByteStrings
  import opened LogFormat

  const EOF: nat := 5
  const BAD_RECORD: nat := 6

  // A physical record as read from some position: where reading goes on, and the bytes reported as lost.
  datatype Physical = Physical(kind: nat, payload: Bytes, next: nat, dropped: seq<nat>)

  // One past the last byte of the block of q that the file holds.
  function Limit(file: Bytes, q: nat): (limit: nat)
    requires q <= |file|
    ensures q <= limit <= |file|
    ensures limit < |file| ==> q < limit
  {
    var end := q - q % BLOCK_SIZE + BLOCK_SIZE;
    if end < |file| then end else |file|
  }

  predicate Truncated(file: Bytes, q: nat) {
    |file| < q - q % BLOCK_SIZE + BLOCK_SIZE
  }

  function PayloadLength(header: Bytes): nat
    requires |header| >= HEADER_SIZE
  {
    header[4] as nat + header[5] as nat * 256
  }

  predicate ChecksumMatches(crc: Checksum, buffer: Bytes)
    requires |buffer| >= HEADER_SIZE && |buffer| >= HEADER_SIZE + PayloadLength(buffer)
  {
    crc(buffer[6..HEADER_SIZE + PayloadLength(buffer)]) == Unmask(DecodeFixed32(buffer))
  }

  // What a header at the front of the rest of a block says; truncated means the file ends in this block.
  function ParseHeader(crc: Checksum, checksum: bool, rest: Bytes, q: nat, truncated: bool): Physical
    requires |rest| >= HEADER_SIZE
  {
    var n := PayloadLength(rest);
    if HEADER_SIZE + n > |rest| then
      if truncated then Physical(EOF, [], q + |rest|, []) else Physical(BAD_RECORD, [], q + |rest|, [|rest|])
    else if rest[6] == ZERO_TYPE && n == 0 then Physical(BAD_RECORD, [], q + |rest|, [])
    else if checksum && !ChecksumMatches(crc, rest) then Physical(BAD_RECORD, [], q + |rest|, [|rest|])
    else Physical(rest[6] as nat, rest[HEADER_SIZE..HEADER_SIZE + n], q + HEADER_SIZE + n, [])
  }

  function ParsePhysical(crc: Checksum, checksum: bool, file: Bytes, pos: nat): (r: Physical)
    requires pos <= |file|
    ensures pos <= r.next <= |file|
    ensures r.kind != EOF ==> pos < r.next
    ensures r.kind !in {EOF, BAD_RECORD} ==> pos + HEADER_SIZE + |r.payload| <= r.next
  {
    var q := SkipTrailer(pos);
    if q + HEADER_SIZE > |file| then Physical(EOF, [], |file|, [])
    else ParseHeader(crc, checksum, file[q..Limit(file, q)], q, Truncated(file, q))
  }

  // What a physical record does to the reader: it ends the search, or the search goes on in a new state.
  datatype Turn =
    | Done(found: bool, record: Bytes, offset: nat, dropped: seq<nat>)
    | More(inFragment: bool, scratch: Bytes, offset: nat, dropped: seq<nat>)

  // p is the record read; scratch is what is collected of a record whose first fragment is at offset.
  function Interpret(p: Physical, inFragment: bool, scratch: Bytes, offset: nat): Turn
    requires p.next >= HEADER_SIZE + |p.payload| || p.kind in {EOF, BAD_RECORD}
  {
    var stale := if inFragment && scratch != [] then [|scratch|] else [];
    if p.kind == EOF then Done(false, [], 0, [])
    else if p.kind == BAD_RECORD then
      if inFragment then More(false, [], offset, [|scratch|]) else More(false, scratch, offset, [])
    else
      var at := p.next - HEADER_SIZE - |p.payload|;
      if p.kind == FULL_TYPE as nat then Done(true, p.payload, at, stale)
      else if p.kind == FIRST_TYPE as nat then More(true, p.payload, at, stale)
      else if p.kind == MIDDLE_TYPE as nat then
        if inFragment then More(true, scratch + p.payload, offset, [])
        else More(false, scratch, offset, [|p.payload|])
      else if p.kind == LAST_TYPE as nat then
        if inFragment then Done(true, scratch + p.payload, offset, [])
        else More(false, scratch, offset, [|p.payload|])
      else More(false, [], offset, [|p.payload| + if inFragment then |scratch| else 0])
  }

  // A logical record: whether there is one, its bytes, the offset of its first fragment, where reading goes
  // on, and the bytes reported as lost on the way.
  datatype Logical = Logical(found: bool, record: Bytes, offset: nat, next: nat, dropped: seq<nat>)

  function ParseLogical(crc: Checksum, checksum: bool, file: Bytes, pos: nat,
                        inFragment: bool, scratch: Bytes, offset: nat): (r: Logical)
    requires pos <= |file|
    ensures pos <= r.next <= |file| && (r.found ==> pos < r.next)
    decreases |file| - pos
  {
    var p := ParsePhysical(crc, checksum, file, pos);
    match Interpret(p, inFragment, scratch, offset)
    case Done(found, record, at, dropped) => Logical(found, record, at, p.next, p.dropped + dropped)
    case More(inFragment', scratch', offset', dropped) =>
      After(p.dropped + dropped, ParseLogical(crc, checksum, file, p.next, inFragment', scratch', offset'))
  }

  // ---------------------------------------------------------------------------
  // With checksums, only what was written is read
  // ---------------------------------------------------------------------------

  lemma HeaderIsEmitted(crc: Checksum, rest: Bytes, n: nat)
    requires |rest| >= HEADER_SIZE && n == PayloadLength(rest) && HEADER_SIZE + n <= |rest|
    requires ChecksumMatches(crc, rest)
    ensures n < 65536 && rest[..HEADER_SIZE + n] == Emit(crc, rest[6], rest[HEADER_SIZE..HEADER_SIZE + n])
  {
    hide Mask, Unmask, DecodeFixed32, EncodeFixed32;
    var payload := rest[HEADER_SIZE..HEADER_SIZE + n];
    assert [rest[6]] + payload == rest[6..HEADER_SIZE + n];
    MaskOfUnmask(DecodeFixed32(rest));
    WordBack(rest);
    assert rest[..HEADER_SIZE] == rest[..4] + [n % 256, n / 256, rest[6]];
    assert rest[..HEADER_SIZE + n] == rest[..HEADER_SIZE] + payload;
  }

  // A physical record that is handed out is byte by byte what the writer emits for its type and payload.
  lemma OnlyEmittedIsRead(crc: Checksum, file: Bytes, pos: nat)
    requires pos <= |file|
    ensures var p, q := ParsePhysical(crc, true, file, pos), SkipTrailer(pos);
            p.kind !in {EOF, BAD_RECORD} ==>
              p.kind < 256 && |p.payload| < 65536 && q <= p.next && file[q..p.next] == Emit(crc, p.kind, p.payload)
  {
    hide Emit;
    var p, q := ParsePhysical(crc, true, file, pos), SkipTrailer(pos);
    if p.kind !in {EOF, BAD_RECORD} {
      var rest := file[q..Limit(file, q)];
      var n := PayloadLength(rest);
      HeaderIsEmitted(crc, rest, n);
      assert rest[..HEADER_SIZE + n] == file[q..p.next];
    }
  }

  // Where the fragments of a record lie, and what they hold.
  datatype Fragment = Fragment(at: nat, payload: Bytes)

  function Join(fragments: seq<Fragment>): Bytes {
    if fragments == [] then [] else Join(fragments[..|fragments| - 1]) + fragments[|fragments| - 1].payload
  }

  // The fragment lies there with its checksum.
  ghost predicate Lies(crc: Checksum, file: Bytes, f: Fragment, t: Byte) {
    && |f.payload| < 65536 && f.at + HEADER_SIZE + |f.payload| <= |file|
    && file[f.at..f.at + HEADER_SIZE + |f.payload|] == Emit(crc, t, f.payload)
  }

  // The type of fragment i when the record has more after those so far.
  function TypeAt(i: nat): Byte {
    if i == 0 then FIRST_TYPE else MIDDLE_TYPE
  }

  // The beginning of a record, one fragment after the other, all before the end.
  ghost predicate Begun(crc: Checksum, file: Bytes, fragments: seq<Fragment>, end: nat) {
    && (forall i | 0 <= i < |fragments| :: Lies(crc, file, fragments[i], TypeAt(i)))
    && (forall i, j | 0 <= i < j < |fragments| ::
          fragments[i].at + HEADER_SIZE + |fragments[i].payload| <= fragments[j].at)
    && forall i | 0 <= i < |fragments| :: fragments[i].at + HEADER_SIZE + |fragments[i].payload| <= end
  }

  // A whole record: one full fragment, or a beginning and a last one after it.
  ghost predicate Written(crc: Checksum, file: Bytes, fragments: seq<Fragment>, record: Bytes) {
    && fragments != [] && record == Join(fragments)
    && var n := |fragments| - 1;
       && Begun(crc, file, fragments[..n], fragments[n].at)
       && Lies(crc, file, fragments[n], if n == 0 then FULL_TYPE else LAST_TYPE)
  }

  lemma JoinOneMore(fragments: seq<Fragment>, f: Fragment)
    ensures Join(fragments + [f]) == Join(fragments) + f.payload
  {
    assert (fragments + [f])[..|fragments|] == fragments;
  }

  lemma FragmentHere(crc: Checksum, file: Bytes, pos: nat)
    requires pos <= |file|
    ensures var p := ParsePhysical(crc, true, file, pos);
            p.kind !in {EOF, BAD_RECORD} ==>
              var f := Fragment(p.next - HEADER_SIZE - |p.payload|, p.payload);
              pos <= f.at && p.kind < 256 && Lies(crc, file, f, p.kind)
  {
    hide ParsePhysical;
    OnlyEmittedIsRead(crc, file, pos);
    var p := ParsePhysical(crc, true, file, pos);
    if p.kind !in {EOF, BAD_RECORD} {
      EmitLength(crc, p.kind, p.payload);
    }
  }

  lemma EmitLength(crc: Checksum, t: Byte, payload: Bytes)
    requires |payload| < 65536
    ensures |Emit(crc, t, payload)| == HEADER_SIZE + |payload|
  {
  }

  // Whatever the file holds: a record that is handed out was written there, every fragment with its checksum.
  lemma {:induction false} OnlyWrittenIsRead(crc: Checksum, file: Bytes, pos: nat, inFragment: bool, scratch: Bytes,
                                            offset: nat, begun: seq<Fragment>)
    returns (fragments: seq<Fragment>)
    requires pos <= |file| && Begun(crc, file, begun, pos) && Join(begun) == scratch
    requires inFragment == (begun != [])
    ensures var r := ParseLogical(crc, true, file, pos, inFragment, scratch, offset);
            r.found ==> Written(crc, file, fragments, r.record)
    decreases |file| - pos
  {
    hide ParsePhysical, Lies, Begun, Written, Join;
    var p := ParsePhysical(crc, true, file, pos);
    FragmentHere(crc, file, pos);
    NoneBegun(crc, file, p.next);
    fragments := [];
    var f := Fragment(if p.kind in {EOF, BAD_RECORD} then 0 else p.next - HEADER_SIZE - |p.payload|, p.payload);
    match Interpret(p, inFragment, scratch, offset)
    case Done(found, record, at, dropped) =>
      if found && p.kind == FULL_TYPE as nat {
        fragments := [f];
        FullIsWritten(crc, file, f);
      } else if found {
        fragments := begun + [f];
        LastIsWritten(crc, file, begun, f, pos);
      }
    case More(inFragment', scratch', offset', dropped) =>
      var next := if !inFragment' then [] else if p.kind == FIRST_TYPE as nat then [f] else begun + [f];
      if inFragment' && p.kind != FIRST_TYPE as nat {
        MoreBegun(crc, file, begun, f, pos, p.next);
      } else if inFragment' {
        FirstBegun(crc, file, f, p.next);
      }
      fragments := OnlyWrittenIsRead(crc, file, p.next, inFragment', scratch', offset', next);
  }

  lemma NoneBegun(crc: Checksum, file: Bytes, end: nat)
    ensures Begun(crc, file, [], end) && Join([]) == []
  {
  }

  lemma FullIsWritten(crc: Checksum, file: Bytes, f: Fragment)
    requires Lies(crc, file, f, FULL_TYPE)
    ensures Written(crc, file, [f], f.payload)
  {
    hide Lies;
    assert [f][..0] == [] && Join([f]) == [] + f.payload;
  }

  lemma LastIsWritten(crc: Checksum, file: Bytes, begun: seq<Fragment>, f: Fragment, pos: nat)
    requires begun != [] && Begun(crc, file, begun, pos) && pos <= f.at && Lies(crc, file, f, LAST_TYPE)
    ensures Written(crc, file, begun + [f], Join(begun) + f.payload)
  {
    hide Lies, Join;
    JoinOneMore(begun, f);
    assert (begun + [f])[..|begun|] == begun;
  }

  lemma FirstBegun(crc: Checksum, file: Bytes, f: Fragment, end: nat)
    requires Lies(crc, file, f, FIRST_TYPE) && f.at + HEADER_SIZE + |f.payload| <= end
    ensures Begun(crc, file, [f], end) && Join([f]) == f.payload
  {
    hide Lies;
    assert Join([f]) == [] + f.payload;
  }

  lemma MoreBegun(crc: Checksum, file: Bytes, begun: seq<Fragment>, f: Fragment, pos: nat, end: nat)
    requires begun != [] && Begun(crc, file, begun, pos) && pos <= f.at && Lies(crc, file, f, MIDDLE_TYPE)
    requires f.at + HEADER_SIZE + |f.payload| <= end
    ensures Begun(crc, file, begun + [f], end) && Join(begun + [f]) == Join(begun) + f.payload
  {
    hide Lies, Join;
    JoinOneMore(begun, f);
  }

  // The same record, with earlier reports put first.
  function After(dropped: seq<nat>, r: Logical): Logical {
    r.(dropped := dropped + r.dropped)
  }

  lemma AfterSame(dropped: seq<nat>, r: Logical)
    ensures After(dropped, r).offset == r.offset
  {
  }

  // One turn of ReadRecord, the reports made so far being done.
  lemma {:induction false} ParseTurn(crc: Checksum, checksum: bool, file: Bytes, pos: nat, inFragment: bool,
                                     scratch: Bytes, offset: nat, done: seq<nat>)
    requires pos <= |file|
    ensures var p := ParsePhysical(crc, checksum, file, pos);
            var turn := Interpret(p, inFragment, scratch, offset);
            var done' := done + p.dropped + turn.dropped;
            After(done, ParseLogical(crc, checksum, file, pos, inFragment, scratch, offset)) ==
            match turn
            case Done(found, record, at, _) => Logical(found, record, at, p.next, done')
            case More(inFragment', scratch', offset', _) =>
              After(done', ParseLogical(crc, checksum, file, p.next, inFragment', scratch', offset'))
  {
    hide ParsePhysical, Interpret;
    var p := ParsePhysical(crc, checksum, file, pos);
    match Interpret(p, inFragment, scratch, offset)
    case Done(_, _, _, dropped) => assert done + (p.dropped + dropped) == done + p.dropped + dropped;
    case More(inFragment', scratch', offset', dropped) =>
      var r := ParseLogical(crc, checksum, file, p.next, inFragment', scratch', offset');
      assert done + (p.dropped + dropped + r.dropped) == done + p.dropped + dropped + r.dropped;
  }

  // A buffer holding file[pos..filePos]: the rest of a whole block, or of the short last one.
  predicate Buffered(file: Bytes, pos: nat, filePos: nat, eof: bool) {
    && pos <= filePos <= |file|
    && if eof then filePos == |file| && filePos - pos <= |file| % BLOCK_SIZE
       else filePos % BLOCK_SIZE == 0 && filePos - pos <= BLOCK_SIZE
  }

  lemma TrailerSkipped(crc: Checksum, checksum: bool, file: Bytes, pos: nat, filePos: nat)
    requires Buffered(file, pos, filePos, false) && filePos - pos < HEADER_SIZE
    ensures ParsePhysical(crc, checksum, file, pos) == ParsePhysical(crc, checksum, file, filePos)
  {
    hide ParseHeader;
  }

  lemma BlockRead(file: Bytes, pos: nat, filePos: nat)
    requires Buffered(file, pos, filePos, false)
    ensures if |file| - filePos < BLOCK_SIZE then Buffered(file, filePos, |file|, true)
            else Buffered(file, filePos, filePos + BLOCK_SIZE, false)
  {
  }

  // Bytes may be consumed from the buffer.
  lemma ConsumedIsBuffered(file: Bytes, pos: nat, filePos: nat, eof: bool)
    requires Buffered(file, pos, filePos, eof)
    ensures forall next :: pos <= next <= filePos ==> Buffered(file, next, filePos, eof)
  {
  }

  lemma NothingBuffered(crc: Checksum, checksum: bool, file: Bytes, pos: nat, filePos: nat)
    requires Buffered(file, pos, filePos, true) && filePos - pos < HEADER_SIZE
    ensures ParsePhysical(crc, checksum, file, pos) == Physical(EOF, [], filePos, [])
  {
  }

  lemma HeaderBuffered(crc: Checksum, checksum: bool, file: Bytes, pos: nat, filePos: nat, eof: bool)
    requires Buffered(file, pos, filePos, eof) && filePos - pos >= HEADER_SIZE
    ensures ParsePhysical(crc, checksum, file, pos) == ParseHeader(crc, checksum, file[pos..filePos], pos, eof)
  {
    hide ParseHeader;
    assert SkipTrailer(pos) == pos;
    assert Limit(file, pos) == filePos;
    assert Truncated(file, pos) == eof;
  }

  class Reader {
    const crc: Checksum
    const checksum: bool
    const file: Bytes
    var filePos: nat
    var buffer: Bytes
    var eof: bool
    var lastRecordOffset: nat
    var endOfBufferOffset: nat
    // Byte counts passed to the reporter.
    var reports: seq<nat>

    ghost predicate Valid()
      reads `filePos, `buffer, `eof, `endOfBufferOffset
      ensures Valid() ==> |buffer| <= filePos <= |file| && endOfBufferOffset == filePos
    {
      && |buffer| <= filePos <= |file|
      && buffer == file[Pos()..filePos]
      && endOfBufferOffset == filePos
      && Buffered(file, Pos(), filePos, eof)
    }

    // The file position of the first byte not yet consumed.
    ghost function Pos(): (pos: nat)
      requires |buffer| <= filePos
      reads `filePos, `buffer
    {
      filePos - |buffer|
    }

    constructor (crc: Checksum, file: Bytes, checksum: bool)
      ensures Valid() && Pos() == 0 && reports == []
      ensures this.crc == crc && this.file == file && this.checksum == checksum
    {
      this.crc, this.file, this.checksum := crc, file, checksum;
      filePos, buffer, eof, lastRecordOffset, endOfBufferOffset, reports := 0, [], false, 0, 0, [];
    }

    method ReportCorruption(bytes: nat)
      modifies this`reports
      ensures reports == old(reports) + [bytes]
    {
      reports := reports + [bytes];
    }

    // A record that has no end; nothing is lost when it is still empty.
    method ReportPartialRecord(scratch: Bytes)
      modifies this`reports
      ensures reports == old(reports) + if scratch != [] then [|scratch|] else []
    {
      if scratch != [] {
        ReportCorruption(|scratch|);
      }
    }

    // file_->Read: at most n bytes from the current file position.
    method ReadBlock(n: nat) returns (got: Bytes)
      requires filePos <= |file|
      modifies this`filePos
      ensures filePos == (if |file| - old(filePos) < n then |file| else old(filePos) + n)
      ensures got == file[old(filePos)..filePos]
    {
      var end := if |file| - filePos < n then |file| else filePos + n;
      got := file[filePos..end];
      filePos := end;
    }

    method ReadPhysicalRecord() returns (kind: nat, result: Bytes)
      requires Valid()
      modifies this
      ensures Valid() && lastRecordOffset == old(lastRecordOffset)
      ensures var p := ParsePhysical(crc, checksum, file, old(Pos()));
              kind == p.kind && result == p.payload && Pos() == p.next && reports == old(reports) + p.dropped
    {
      hide ParsePhysical, ParseHeader, Buffered;
      ghost var p := ParsePhysical(crc, checksum, file, Pos());
      while true
        invariant Valid()
        invariant reports == old(reports) && lastRecordOffset == old(lastRecordOffset)
        invariant ParsePhysical(crc, checksum, file, Pos()) == p
        decreases !eof, |file| - filePos
      {
        if |buffer| < HEADER_SIZE {
          if !eof {
            TrailerSkipped(crc, checksum, file, Pos(), filePos);
            BlockRead(file, Pos(), filePos);
            buffer := [];
            buffer := ReadBlock(BLOCK_SIZE);
            endOfBufferOffset := endOfBufferOffset + |buffer|;
            if |buffer| < BLOCK_SIZE {
              eof := true;
            }
            continue;
          } else {
            NothingBuffered(crc, checksum, file, Pos(), filePos);
            ConsumedIsBuffered(file, Pos(), filePos, eof);
            buffer := [];
            return EOF, [];
          }
        }
        HeaderBuffered(crc, checksum, file, Pos(), filePos, eof);
        kind, result := ParseBuffer();
        return;
      }
    }

    // The part of ReadPhysicalRecord that parses a buffered header.
    method ParseBuffer() returns (kind: nat, result: Bytes)
      requires Valid() && |buffer| >= HEADER_SIZE
      modifies this
      ensures Valid() && lastRecordOffset == old(lastRecordOffset)
      ensures var p := ParseHeader(crc, checksum, old(buffer), old(Pos()), old(eof));
              kind == p.kind && result == p.payload && Pos() == p.next && reports == old(reports) + p.dropped
    {
      hide Buffered, ChecksumMatches;
      ConsumedIsBuffered(file, Pos(), filePos, eof);
      var header := buffer;
      var a, b := header[4] as nat, header[5] as nat;
      var t := header[6];
      var length := a + b * 256;
      if HEADER_SIZE + length > |buffer| {
        var dropSize := |buffer|;
        buffer := [];
        if !eof {
          ReportCorruption(dropSize);
          return BAD_RECORD, [];
        }
        return EOF, [];
      }
      if t == ZERO_TYPE && length == 0 {
        buffer := [];
        return BAD_RECORD, [];
      }
      if checksum {
        if !ChecksumMatches(crc, header) {
          var dropSize := |buffer|;
          buffer := [];
          ReportCorruption(dropSize);
          return BAD_RECORD, [];
        }
      }
      buffer := buffer[HEADER_SIZE + length..];
      return t as nat, header[HEADER_SIZE..HEADER_SIZE + length];
    }

    method ReadRecord() returns (found: bool, record: Bytes)
      requires Valid()
      modifies this
      ensures Valid()
      ensures var r := ParseLogical(crc, checksum, file, old(Pos()), false, [], 0);
              && Logical(found, record, r.offset, Pos(), reports) == After(old(reports), r)
              && lastRecordOffset == if found then r.offset else old(lastRecordOffset)
    {
      hide ParsePhysical, ParseLogical, Valid, After;
      ghost var r0 := ParseLogical(crc, checksum, file, Pos(), false, [], 0);
      ghost var r := After(reports, r0);
      AfterSame(reports, r0);
      var scratch: Bytes := [];
      var inFragmentedRecord := false;
      var prospectiveRecordOffset: nat := 0;
      while true
        invariant Valid()
        invariant lastRecordOffset == old(lastRecordOffset)
        invariant r == After(reports, ParseLogical(crc, checksum, file, Pos(), inFragmentedRecord, scratch,
                                                prospectiveRecordOffset))
        decreases |file| - Pos()
      {
        ParseTurn(crc, checksum, file, Pos(), inFragmentedRecord, scratch, prospectiveRecordOffset, reports);
        ghost var p := ParsePhysical(crc, checksum, file, Pos());
        ghost var turn := Interpret(p, inFragmentedRecord, scratch, prospectiveRecordOffset);
        ghost var due := reports + p.dropped + turn.dropped;
        var recordType, fragment := ReadPhysicalRecord();
        var physicalRecordOffset := endOfBufferOffset - |buffer| - HEADER_SIZE - |fragment|;
        if recordType == FULL_TYPE as nat {
          if inFragmentedRecord {
            ReportPartialRecord(scratch);
          }
          prospectiveRecordOffset := physicalRecordOffset;
          lastRecordOffset := prospectiveRecordOffset;
          return true, fragment;
        } else if recordType == FIRST_TYPE as nat {
          if inFragmentedRecord {
            ReportPartialRecord(scratch);
          }
          prospectiveRecordOffset := physicalRecordOffset;
          scratch := fragment;
          inFragmentedRecord := true;
        } else if recordType == MIDDLE_TYPE as nat {
          if !inFragmentedRecord {
            ReportCorruption(|fragment|);
          } else {
            scratch := scratch + fragment;
          }
        } else if recordType == LAST_TYPE as nat {
          if !inFragmentedRecord {
            ReportCorruption(|fragment|);
          } else {
            scratch := scratch + fragment;
            lastRecordOffset := prospectiveRecordOffset;
            return true, scratch;
          }
        } else if recordType == EOF {
          return false, [];
        } else if recordType == BAD_RECORD {
          if inFragmentedRecord {
            ReportCorruption(|scratch|);
            inFragmentedRecord := false;
            scratch := [];
          }
        } else {
          ReportCorruption(|fragment| + if inFragmentedRecord then |scratch| else 0);
          inFragmentedRecord := false;
          scratch := [];
        }
        assert reports == due;
      }
    }
  }
}
