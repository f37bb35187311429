/**
 The write-ahead log as a whole: what log::Writer appends, log::Reader gives back, whatever prefix of the
 file survives a crash.
 */
module LogRoundTrip {
  import opened ByteStrings
  import opened LogFormat
  import opened LogReader
  import LogWriter

  lemma HeaderFields(crc: Checksum, t: Byte, payload: Bytes, rest: Bytes)
    requires |payload| < 65536 && Header(crc, t, payload) <= rest
    ensures PayloadLength(rest) == |payload| && rest[6] == t
    ensures Unmask(DecodeFixed32(rest)) == crc([t] + payload)
  {
    var h := Header(crc, t, payload);
    assert forall i :: 0 <= i < HEADER_SIZE ==> rest[i] == h[i];
    var m := Mask(crc([t] + payload));
    Fixed32RoundTrip(m);
    assert DecodeFixed32(rest) == DecodeFixed32(EncodeFixed32(m));
    UnmaskMask(crc([t] + payload));
  }

  lemma EmittedParses(crc: Checksum, checksum: bool, t: Byte, payload: Bytes, rest: Bytes, q: nat, truncated: bool)
    requires |payload| < 65536 && t != ZERO_TYPE && HEADER_SIZE <= |rest|
    requires Emit(crc, t, payload) <= rest || (rest < Emit(crc, t, payload) && truncated)
    ensures ParseHeader(crc, checksum, rest, q, truncated) ==
            if Emit(crc, t, payload) <= rest then Physical(t as nat, payload, q + HEADER_SIZE + |payload|, [])
            else Physical(EOF, [], q + |rest|, [])
  {
    hide Header, PayloadLength, DecodeFixed32, Unmask;
    var e := Emit(crc, t, payload);
    assert Header(crc, t, payload) <= rest by {
      assert e[..HEADER_SIZE] == Header(crc, t, payload);
      if e <= rest {
        assert rest[..|e|][..HEADER_SIZE] == rest[..HEADER_SIZE];
      } else {
        assert e[..|rest|][..HEADER_SIZE] == e[..HEADER_SIZE];
      }
    }
    HeaderFields(crc, t, payload, rest);
    if e <= rest {
      assert rest[HEADER_SIZE..HEADER_SIZE + |payload|] == e[HEADER_SIZE..] == payload;
      assert rest[6..HEADER_SIZE + |payload|] == [rest[6]] + rest[HEADER_SIZE..HEADER_SIZE + |payload|];
    }
  }

  // A record emitted at the next header position after p is what is read from p, if all of it is there.
  lemma EmittedIsRead(crc: Checksum, checksum: bool, log: Bytes, n: nat, p: nat, t: Byte, payload: Bytes)
    requires p <= n <= |log| && |payload| <= Avail(SkipTrailer(p)) && t != ZERO_TYPE
    requires SkipTrailer(p) + HEADER_SIZE + |payload| <= |log|
    requires log[SkipTrailer(p)..SkipTrailer(p) + HEADER_SIZE + |payload|] == Emit(crc, t, payload)
    ensures var end := SkipTrailer(p) + HEADER_SIZE + |payload|;
            ParsePhysical(crc, checksum, log[..n], p) ==
            if end <= n then Physical(t as nat, payload, end, []) else Physical(EOF, [], n, [])
  {
    hide ParseHeader, SkipTrailer, Emit, Limit, Truncated;
    var q := SkipTrailer(p);
    var file := log[..n];
    if q + HEADER_SIZE <= n {
      var rest := file[q..Limit(file, q)];
      var end := q + HEADER_SIZE + |payload|;
      EmittedLength(crc, t, payload);
      LimitReaches(file, q, |payload|);
      if end <= n {
        assert rest[..end - q] == file[q..end] == log[q..end];
      } else {
        assert rest == file[q..n] == log[q..end][..n - q];
      }
      EmittedParses(crc, checksum, t, payload, rest, q, Truncated(file, q));
    }
  }

  lemma EmittedLength(crc: Checksum, t: Byte, payload: Bytes)
    requires |payload| < 65536
    ensures |Emit(crc, t, payload)| == HEADER_SIZE + |payload|
  {
  }

  lemma LimitReaches(file: Bytes, q: nat, n: nat)
    requires q + HEADER_SIZE <= |file| && q % BLOCK_SIZE <= BLOCK_SIZE - HEADER_SIZE && n <= Avail(q)
    ensures if q + HEADER_SIZE + n <= |file| then q + HEADER_SIZE + n <= Limit(file, q)
            else Limit(file, q) == |file| && Truncated(file, q)
  {
  }

  // What a fragment of a record does to the reader.
  lemma FragmentTurn(begin: bool, end: bool, payload: Bytes, q: nat, scratch: Bytes, offset: nat)
    ensures RecordType(begin, end) != ZERO_TYPE
    ensures var record := if begin then payload else scratch + payload;
            var at := if begin then q else offset;
            Interpret(Physical(RecordType(begin, end) as nat, payload, q + HEADER_SIZE + |payload|, []),
                      !begin, scratch, offset) ==
            if end then Done(true, record, at, []) else More(true, record, at, [])
  {
  }

  lemma EofTurn(n: nat, inFragment: bool, scratch: Bytes, offset: nat)
    ensures Interpret(Physical(EOF, [], n, []), inFragment, scratch, offset) == Done(false, [], 0, [])
  {
  }

  // Reading from where a record's remaining fragments start, with scratch collected so far.
  lemma {:induction false} FragmentsAreRead(crc: Checksum, checksum: bool, log: Bytes, n: nat, p: nat, data: Bytes,
                                            begin: bool, scratch: Bytes, offset: nat)
    requires p <= n <= |log|
    requires var f := Fragments(crc, p, data, begin); p + |f| <= |log| && log[p..p + |f|] == f
    ensures var end := p + |Fragments(crc, p, data, begin)|;
            ParseLogical(crc, checksum, log[..n], p, !begin, scratch, offset) ==
            if end <= n then
              Logical(true, if begin then data else scratch + data, if begin then SkipTrailer(p) else offset, end, [])
            else Logical(false, [], 0, n, [])
    decreases |data|, if p % BLOCK_SIZE == 0 then 0 else 1
  {
    hide ParsePhysical, Emit, Fragments, SkipTrailer, ParseLogical, FragmentLength, Interpret, RecordType;
    var q := SkipTrailer(p);
    var k := FragmentLength(q, |data|);
    var t := RecordType(begin, k == |data|);
    var next := q + HEADER_SIZE + k;
    FirstFragment(crc, log, p, data, begin);
    FragmentTurn(begin, k == |data|, data[..k], q, scratch, offset);
    EmittedIsRead(crc, checksum, log, n, p, t, data[..k]);
    ParseTurn(crc, checksum, log[..n], p, !begin, scratch, offset, []);
    EofTurn(n, !begin, scratch, offset);
    AfterNothing(ParseLogical(crc, checksum, log[..n], p, !begin, scratch, offset));
    if k == |data| {
      assert data[..k] == data;
    } else if next <= n {
      FragmentProgress(p, |data|);
      var scratch' := if begin then data[..k] else scratch + data[..k];
      var offset' := if begin then q else offset;
      FragmentsAreRead(crc, checksum, log, n, next, data[k..], false, scratch', offset');
      AfterNothing(ParseLogical(crc, checksum, log[..n], next, true, scratch', offset'));
      assert data[..k] + data[k..] == data;
      assert scratch + data[..k] + data[k..] == scratch + (data[..k] + data[k..]);
    }
  }

  lemma AfterNothing(r: Logical)
    ensures After([], r) == r
  {
  }

  lemma FragmentProgress(p: nat, left: nat)
    ensures var q := SkipTrailer(p); var k := FragmentLength(q, left);
            k < left ==> k > 0 || (p % BLOCK_SIZE != 0 && (q + HEADER_SIZE + k) % BLOCK_SIZE == 0)
  {
  }

  // The first physical record among a record's fragments, and where the others are.
  lemma {:induction false} FirstFragment(crc: Checksum, log: Bytes, p: nat, data: Bytes, begin: bool)
    requires var f := Fragments(crc, p, data, begin); p + |f| <= |log| && log[p..p + |f|] == f
    ensures var q := SkipTrailer(p);
            var k := FragmentLength(q, |data|);
            var next := q + HEADER_SIZE + k;
            && next <= |log|
            && log[q..next] == Emit(crc, RecordType(begin, k == |data|), data[..k])
            && if k == |data| then p + |Fragments(crc, p, data, begin)| == next
               else
                 var f := Fragments(crc, next, data[k..], false);
                 && p + |Fragments(crc, p, data, begin)| == next + |f| <= |log|
                 && log[next..next + |f|] == f
  {
    hide Emit, Fragments, SkipTrailer, FragmentLength;
    FragmentsStep(crc, p, data, begin);
    var q := SkipTrailer(p);
    var k := FragmentLength(q, |data|);
    var t := RecordType(begin, k == |data|);
    var z, e := Zeros(q - p), Emit(crc, t, data[..k]);
    var f := if k == |data| then [] else Fragments(crc, q + HEADER_SIZE + k, data[k..], false);
    EmittedLength(crc, t, data[..k]);
    Parts(log, p, z, e, f);
  }

  lemma Parts(log: Bytes, p: nat, a: Bytes, b: Bytes, c: Bytes)
    requires p + |a + b + c| <= |log| && log[p..p + |a + b + c|] == a + b + c
    ensures var q, r := p + |a|, p + |a| + |b|;
            r + |c| <= |log| && log[q..r] == b && log[r..r + |c|] == c
  {
    var q, r, w := p + |a|, p + |a| + |b|, a + b + c;
    Shift(log, p, |w|, |a|, |a + b|);
    Shift(log, p, |w|, |a + b|, |w|);
    assert w[|a|..|a + b|] == b && w[|a + b|..|w|] == c;
  }

  lemma Shift(log: Bytes, p: nat, n: nat, i: nat, j: nat)
    requires p + n <= |log| && i <= j <= n
    ensures log[p..p + n][i..j] == log[p + i..p + j]
  {
    var w := log[p..p + n];
    assert forall k :: i <= k < j ==> w[k] == log[p + k];
  }

  // How many records lie wholly inside the first n bytes of their log.
  function Whole(crc: Checksum, records: seq<Bytes>, n: nat): (k: nat)
    ensures k <= |records| && Offset(crc, records, k) <= n
    ensures k < |records| ==> n < Offset(crc, records, k + 1)
  {
    if |LogBytes(crc, records)| <= n then
      assert records[..|records|] == records;
      |records|
    else
      var front := records[..|records| - 1];
      var k := Whole(crc, front, n);
      assert front[..k] == records[..k];
      assert k < |front| ==> front[..k + 1] == records[..k + 1];
      assert records[..|records|] == records;
      k
  }

  // ReadRecord, standing where record i starts, returns it if all of it survived and otherwise ends quietly.
  lemma {:induction false} RecordIsRead(crc: Checksum, checksum: bool, records: seq<Bytes>, n: nat, i: nat)
    requires i <= |records| && Offset(crc, records, i) <= n <= |LogBytes(crc, records)|
    ensures ParseLogical(crc, checksum, LogBytes(crc, records)[..n], Offset(crc, records, i), false, [], 0) ==
            if i < |records| && Offset(crc, records, i + 1) <= n then
              Logical(true, records[i], SkipTrailer(Offset(crc, records, i)), Offset(crc, records, i + 1), [])
            else Logical(false, [], 0, n, [])
  {
    hide ParsePhysical, Fragments, LogBytes, SkipTrailer;
    var log := LogBytes(crc, records);
    if i < |records| {
      RecordInLog(crc, records, i);
      FragmentsAreRead(crc, checksum, log, n, Offset(crc, records, i), records[i], true, [], 0);
    } else {
      assert records[..i] == records;
      EndIsRead(crc, checksum, log[..n], n);
    }
  }

  lemma EndIsRead(crc: Checksum, checksum: bool, file: Bytes, n: nat)
    requires |file| == n
    ensures ParseLogical(crc, checksum, file, n, false, [], 0) == Logical(false, [], 0, n, [])
  {
  }

  datatype Contents = Contents(records: seq<Bytes>, dropped: seq<nat>)

  // What calling ReadRecord until it fails yields.
  function ReadRest(crc: Checksum, checksum: bool, file: Bytes, pos: nat): Contents
    requires pos <= |file|
    decreases |file| - pos
  {
    var r := ParseLogical(crc, checksum, file, pos, false, [], 0);
    if !r.found then Contents([], r.dropped)
    else
      var rest := ReadRest(crc, checksum, file, r.next);
      Contents([r.record] + rest.records, r.dropped + rest.dropped)
  }

  lemma {:induction false} RestIsRead(crc: Checksum, checksum: bool, records: seq<Bytes>, n: nat, i: nat)
    requires n <= |LogBytes(crc, records)| && i <= Whole(crc, records, n) && Offset(crc, records, i) <= n
    ensures ReadRest(crc, checksum, LogBytes(crc, records)[..n], Offset(crc, records, i)) ==
            Contents(records[i..Whole(crc, records, n)], [])
    decreases |records| - i
  {
    hide ParseLogical, LogBytes, Whole, SkipTrailer;
    var k := Whole(crc, records, n);
    RecordIsRead(crc, checksum, records, n, i);
    if i < k {
      OffsetsGrow(crc, records, i + 1, k);
      RestIsRead(crc, checksum, records, n, i + 1);
      assert records[i..k] == [records[i]] + records[i + 1..k];
    }
  }

  lemma {:induction false} OffsetsGrow(crc: Checksum, records: seq<Bytes>, i: nat, k: nat)
    requires i <= k <= |records|
    ensures Offset(crc, records, i) <= Offset(crc, records, k)
  {
    LogPrefix(crc, records[..k], i);
    assert records[..k][..i] == records[..i];
  }

  /** Crash recovery: whatever prefix of a log survives, reading it yields exactly the records that lie wholly
   inside the prefix, in order, and reports nothing lost. */
  lemma {:induction false} PrefixReadsWholeRecords(crc: Checksum, checksum: bool, records: seq<Bytes>, n: nat)
    requires n <= |LogBytes(crc, records)|
    ensures ReadRest(crc, checksum, LogBytes(crc, records)[..n], 0) ==
            Contents(records[..Whole(crc, records, n)], [])
  {
    assert LogBytes(crc, records[..0]) == [];
    RestIsRead(crc, checksum, records, n, 0);
  }

  // A complete log gives back every record.
  lemma {:induction false} RoundTrip(crc: Checksum, checksum: bool, records: seq<Bytes>)
    ensures ReadRest(crc, checksum, LogBytes(crc, records), 0) == Contents(records, [])
  {
    var log := LogBytes(crc, records);
    PrefixReadsWholeRecords(crc, checksum, records, |log|);
    assert log[..|log|] == log && records[..|records|] == records;
  }

  // The records that lie ahead of the reader.
  ghost function Ahead(reader: Reader): Contents
    requires reader.Valid()
    reads reader
  {
    ReadRest(reader.crc, reader.checksum, reader.file, reader.Pos())
  }

  // c is what there is to read: the records read so far, the record at hand if one was found, and what lies ahead.
  ghost predicate Reads(c: Contents, reader: Reader, records: seq<Bytes>, found: bool, record: Bytes)
    requires reader.Valid()
    reads reader
  {
    if found then c.records == records + [record] + Ahead(reader).records && c.dropped == reader.reports + Ahead(reader).dropped
    else c.records == records && c.dropped == reader.reports
  }

  method ReadNext(reader: Reader, ghost c: Contents, ghost records: seq<Bytes>) returns (found: bool, record: Bytes)
    requires reader.Valid()
    requires c.records == records + Ahead(reader).records && c.dropped == reader.reports + Ahead(reader).dropped
    modifies reader
    ensures reader.Valid() && Reads(c, reader, records, found, record)
    ensures if found then reader.Pos() > old(reader.Pos()) else reader.Pos() >= old(reader.Pos())
  {
    hide ParseLogical;
    found, record := reader.ReadRecord();
  }

  lemma AtStart(reader: Reader)
    requires reader.Valid() && reader.Pos() == 0
    ensures Ahead(reader) == ReadRest(reader.crc, reader.checksum, reader.file, 0)
  {
  }

  // Whatever became of a file: with checksums, every record read from it was written there.
  lemma {:induction false} AllReadWasWritten(crc: Checksum, file: Bytes, pos: nat)
    requires pos <= |file|
    ensures forall record | record in ReadRest(crc, true, file, pos).records ::
              exists fragments :: Written(crc, file, fragments, record)
    decreases |file| - pos
  {
    hide ParseLogical, Written, Begun, Join;
    NoneBegun(crc, file, pos);
    var fragments := OnlyWrittenIsRead(crc, file, pos, false, [], 0, []);
    var r := ParseLogical(crc, true, file, pos, false, [], 0);
    if r.found {
      AllReadWasWritten(crc, file, r.next);
    }
  }

  // Reads every record.
  method ReadAll(reader: Reader) returns (records: seq<Bytes>)
    requires reader.Valid()
    modifies reader
    ensures reader.Valid()
    ensures var c := ReadRest(reader.crc, reader.checksum, reader.file, old(reader.Pos()));
            records == c.records && reader.reports == old(reader.reports) + c.dropped
  {
    hide ParseLogical;
    records := [];
    ghost var c := ReadRest(reader.crc, reader.checksum, reader.file, reader.Pos());
    ghost var before := reader.reports;
    var more := true;
    while more
      invariant reader.Valid()
      invariant more ==>
        var rest := ReadRest(reader.crc, reader.checksum, reader.file, reader.Pos());
        c.records == records + rest.records && before + c.dropped == reader.reports + rest.dropped
      invariant !more ==> c.records == records && before + c.dropped == reader.reports
      decreases more, |reader.file| - reader.Pos()
    {
      var found, record := reader.ReadRecord();
      more := found;
      if found {
        records := records + [record];
      }
    }
  }

  /** Writes a log, perhaps reopening it on the way, loses a suffix of the file, and reads what is left. */
  method WriteCrashRead(crc: Checksum, checksum: bool, records: seq<Bytes>, reopenAt: nat, n: nat)
    returns (read: seq<Bytes>, reports: seq<nat>)
    requires n <= |LogBytes(crc, records)|
    ensures read == records[..Whole(crc, records, n)] && reports == []
  {
    hide Fragments, ReadRest, Whole;
    var writer := new LogWriter.Writer(crc);
    for i := 0 to |records|
      invariant fresh(writer) && writer.Valid() && writer.crc == crc
      invariant writer.dest == LogBytes(crc, records[..i])
    {
      if i == reopenAt {
        writer := new LogWriter.Writer.Reopen(crc, writer.dest);
      }
      writer.AddRecord(records[i]);
      LogAppend(crc, records[..i], records[i]);
      assert records[..i] + [records[i]] == records[..i + 1];
    }
    assert records[..|records|] == records;
    var reader := new Reader(crc, writer.dest[..n], checksum);
    PrefixReadsWholeRecords(crc, checksum, records, n);
    read := ReadAll(reader);
    reports := reader.reports;
  }
}
