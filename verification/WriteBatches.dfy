/**
 Write batches (db/write_batch.cc): a header with a sequence number and a count, then the operations. A batch
 taken from the log replays exactly the operations put into it, numbered consecutively.
 */
module WriteBatches {
  import opened ByteStrings
  import opened Coding

  const HEADER: nat := 12
  const TYPE_DELETION: Byte := 0
  const TYPE_VALUE: Byte := 1

  datatype Op = Put(key: Bytes, value: Bytes) | Delete(key: Bytes)

  // An operation as the memtable stores it, under its own sequence number.
  datatype Numbered = Numbered(sequence: nat, op: Op)

  // Slices have 32-bit lengths in a batch.
  predicate Fits(op: Op) {
    |op.key| < 0x1_0000_0000 && (op.Put? ==> |op.value| < 0x1_0000_0000)
  }

  predicate AllFit(ops: seq<Op>) {
    |ops| < 0x1_0000_0000 && forall i :: 0 <= i < |ops| ==> Fits(ops[i])
  }

  function EncodeOp(op: Op): (b: Bytes)
    ensures |b| > 0
  {
    match op
    case Put(key, value) => [TYPE_VALUE] + LengthPrefixed(key) + LengthPrefixed(value)
    case Delete(key) => [TYPE_DELETION] + LengthPrefixed(key)
  }

  function EncodeOps(ops: seq<Op>): Bytes {
    if ops == [] then [] else EncodeOps(ops[..|ops| - 1]) + EncodeOp(ops[|ops| - 1])
  }

  function EncodeBatch(sequence: nat, ops: seq<Op>): Bytes
    requires sequence < 0x1_0000_0000_0000_0000 && |ops| < 0x1_0000_0000
  {
    EncodeFixed64(sequence) + EncodeFixed32(|ops|) + EncodeOps(ops)
  }

  function Number(sequence: nat, ops: seq<Op>): (entries: seq<Numbered>)
    ensures |entries| == |ops|
    ensures forall i :: 0 <= i < |ops| ==> entries[i] == Numbered(sequence + i, ops[i])
  {
    seq(|ops|, i requires 0 <= i < |ops| => Numbered(sequence + i, ops[i]))
  }

  // The operations WriteBatch::Iterate hands out, and whether it gets to the end.
  datatype Handled = Handled(ops: seq<Op>, ok: bool)

  function ParseOp(input: Bytes): (r: Parsed<Op>)
    requires input != []
    ensures r.Parsed? ==> |r.rest| < |input|
  {
    if input[0] == TYPE_VALUE then
      match GetLengthPrefixed(input[1..])
      case Malformed => Malformed
      case Parsed(key, rest) =>
        Shrinks(input[1..]);
        Shrinks(rest);
        match GetLengthPrefixed(rest)
        case Malformed => Malformed
        case Parsed(value, rest') => Parsed(Put(key, value), rest')
    else if input[0] == TYPE_DELETION then
      match GetLengthPrefixed(input[1..])
      case Malformed => Malformed
      case Parsed(key, rest) =>
        Shrinks(input[1..]);
        Parsed(Delete(key), rest)
    else Malformed
  }

  function ParseOps(input: Bytes): Handled
    decreases |input|
  {
    if input == [] then Handled([], true)
    else
      match ParseOp(input)
      case Malformed => Handled([], false)
      case Parsed(op, rest) =>
        var h := ParseOps(rest);
        Handled([op] + h.ops, h.ok)
  }

  lemma ParseEncodedOp(op: Op, rest: Bytes)
    requires Fits(op)
    ensures ParseOp(EncodeOp(op) + rest) == Parsed(op, rest)
  {
    hide LengthPrefixed, GetLengthPrefixed;
    var input := EncodeOp(op) + rest;
    match op
    case Put(key, value) =>
      assert input[1..] == LengthPrefixed(key) + (LengthPrefixed(value) + rest);
      LengthPrefixedRoundTrip(key, LengthPrefixed(value) + rest);
      LengthPrefixedRoundTrip(value, rest);
    case Delete(key) =>
      assert input[1..] == LengthPrefixed(key) + rest;
      LengthPrefixedRoundTrip(key, rest);
  }

  // Operations written one after another are read back in order.
  lemma {:induction false} ParseEncoded(ops: seq<Op>, rest: Bytes)
    requires forall i :: 0 <= i < |ops| ==> Fits(ops[i])
    ensures var h := ParseOps(rest); ParseOps(EncodeOps(ops) + rest) == Handled(ops + h.ops, h.ok)
    decreases |ops|
  {
    hide ParseOp, EncodeOp;
    var h := ParseOps(rest);
    if ops == [] {
      assert EncodeOps(ops) + rest == rest && ops + h.ops == h.ops;
    } else {
      var front, op := ops[..|ops| - 1], ops[|ops| - 1];
      ParseEncodedOp(op, rest);
      ParseEncoded(front, EncodeOp(op) + rest);
      assert EncodeOps(ops) + rest == EncodeOps(front) + (EncodeOp(op) + rest);
      assert ops + h.ops == front + ([op] + h.ops);
    }
  }

  lemma {:induction false} EncodeOpsAppend(a: seq<Op>, b: seq<Op>)
    ensures EncodeOps(a + b) == EncodeOps(a) + EncodeOps(b)
    decreases |b|
  {
    hide EncodeOp;
    if b == [] {
      assert a + b == a;
    } else {
      var front := b[..|b| - 1];
      assert (a + b)[..|a + b| - 1] == a + front;
      EncodeOpsAppend(a, front);
      assert EncodeOps(a) + EncodeOps(front) + EncodeOp(b[|b| - 1]) ==
        EncodeOps(a) + (EncodeOps(front) + EncodeOp(b[|b| - 1]));
    }
  }

  class WriteBatch {
    var rep: Bytes
    // What rep stands for.
    ghost var sequence: nat
    ghost var ops: seq<Op>

    ghost predicate Valid()
      reads this
    {
      && sequence < 0x1_0000_0000_0000_0000 && AllFit(ops)
      && rep == EncodeBatch(sequence, ops)
    }

    constructor ()
      ensures Valid() && sequence == 0 && ops == []
    {
      rep := [0, 0, 0, 0, 0, 0, 0, 0, 0, 0, 0, 0];
      sequence, ops := 0, [];
      new;
      EmptyBatch();
    }

    // SetContents: the bytes of some record, which may be no batch.
    constructor Holding(contents: Bytes)
      requires |contents| >= HEADER
      ensures rep == contents
    {
      rep := contents;
      sequence, ops := 0, [];
    }

    method Count() returns (n: nat)
      requires |rep| >= HEADER || Valid()
      ensures |rep| >= HEADER && n == DecodeFixed32(rep[8..]) && (Valid() ==> n == |ops|)
    {
      if |ops| < 0x1_0000_0000 && sequence < 0x1_0000_0000_0000_0000 {
        HeaderParts(sequence, ops);
      }
      n := DecodeFixed32(rep[8..]);
    }

    method Sequence() returns (s: nat)
      requires |rep| >= HEADER || Valid()
      ensures |rep| >= HEADER && s == DecodeFixed64(rep) && (Valid() ==> s == sequence)
    {
      if |ops| < 0x1_0000_0000 && sequence < 0x1_0000_0000_0000_0000 {
        HeaderParts(sequence, ops);
      }
      s := DecodeFixed64(rep);
    }

    method SetSequence(s: nat)
      requires Valid() && s < 0x1_0000_0000_0000_0000
      modifies this
      ensures Valid() && sequence == s && ops == old(ops)
    {
      hide EncodeOps;
      HeaderParts(sequence, ops);
      HeaderParts(s, ops);
      rep := EncodeFixed64(s) + rep[8..];
      sequence := s;
    }

    method Put(key: Bytes, value: Bytes)
      requires Valid() && AllFit(ops + [Op.Put(key, value)])
      modifies this
      ensures Valid() && sequence == old(sequence) && ops == old(ops) + [Op.Put(key, value)]
    {
      hide EncodeOps, EncodeFixed64, EncodeFixed32, LengthPrefixed;
      var n := Count();
      OneMore(sequence, ops, Op.Put(key, value));
      SetCount(n + 1);
      rep := rep + [TYPE_VALUE];
      rep := rep + LengthPrefixed(key);
      rep := rep + LengthPrefixed(value);
      ops := ops + [Op.Put(key, value)];
    }

    method Delete(key: Bytes)
      requires Valid() && AllFit(ops + [Op.Delete(key)])
      modifies this
      ensures Valid() && sequence == old(sequence) && ops == old(ops) + [Op.Delete(key)]
    {
      hide EncodeOps, EncodeFixed64, EncodeFixed32, LengthPrefixed;
      var n := Count();
      OneMore(sequence, ops, Op.Delete(key));
      SetCount(n + 1);
      rep := rep + [TYPE_DELETION];
      rep := rep + LengthPrefixed(key);
      ops := ops + [Op.Delete(key)];
    }

    method SetCount(n: nat)
      requires |rep| >= HEADER && n < 0x1_0000_0000
      modifies this`rep
      ensures rep == old(rep)[..8] + EncodeFixed32(n) + old(rep)[12..]
    {
      rep := rep[..8] + EncodeFixed32(n) + rep[12..];
    }

    method Append(source: WriteBatch)
      requires Valid() && source.Valid() && AllFit(ops + source.ops)
      modifies this
      ensures Valid() && sequence == old(sequence) && ops == old(ops) + old(source.ops)
    {
      hide EncodeOps, EncodeFixed64, EncodeFixed32;
      var n := Count();
      var m := source.Count();
      ghost var more := source.ops;
      HeaderParts(sequence, ops);
      HeaderParts(source.sequence, more);
      EncodeOpsAppend(ops, more);
      var data := source.rep[HEADER..];
      SetCount(n + m);
      rep := rep + data;
      ops := ops + more;
    }

    // Hands out the operations in order; whatever rep holds.
    method Iterate() returns (ok: bool, handled: seq<Op>)
      ensures if |rep| < HEADER then !ok && handled == []
              else
                var h := ParseOps(rep[HEADER..]);
                handled == h.ops && ok == (h.ok && |h.ops| == DecodeFixed32(rep[8..]))
    {
      hide ParseOp;
      handled := [];
      if |rep| < HEADER {
        return false, [];
      }
      var input := rep[HEADER..];
      ghost var whole := ParseOps(input);
      while |input| > 0
        invariant var h := ParseOps(input); whole == Handled(handled + h.ops, h.ok)
        decreases |input|
      {
        var rest;
        var got, op: Op;
        got, op, rest := ReadOp(input);
        if !got {
          return false, handled;
        }
        handled := handled + [op];
        input := rest;
      }
      ok := |handled| == DecodeFixed32(rep[8..]);
    }

    // WriteBatchInternal::InsertInto: what it adds to the memtable. Of a batch that is no batch it adds what comes
    // before the first fault.
    method InsertInto() returns (ok: bool, entries: seq<Numbered>)
      requires |rep| >= HEADER || Valid()
      ensures |rep| >= HEADER && ok == Sound(rep) && entries == EntriesIn(rep)
      ensures Valid() ==> ok && entries == Number(sequence, ops)
    {
      hide EncodeOps, ParseOps;
      if Valid() {
        BatchReads(sequence, ops);
      }
      var next := Sequence();
      var handled;
      ok, handled := Iterate();
      entries := [];
      ghost var first := next;
      for i := 0 to |handled|
        invariant next == first + i && entries == Number(first, handled)[..i]
      {
        entries := entries + [Numbered(next, handled[i])];
        next := next + 1;
      }
    }
  }

  // A record that is a whole batch.
  predicate Sound(record: Bytes) {
    && |record| >= HEADER
    && var h := ParseOps(record[HEADER..]);
       h.ok && |h.ops| == DecodeFixed32(record[8..])
  }

  // What a record adds to the memtable, be it sound or not.
  function EntriesIn(record: Bytes): seq<Numbered> {
    if |record| < HEADER then [] else Number(DecodeFixed64(record), ParseOps(record[HEADER..]).ops)
  }

  lemma BatchReads(sequence: nat, ops: seq<Op>)
    requires sequence < 0x1_0000_0000_0000_0000 && AllFit(ops)
    ensures var rep := EncodeBatch(sequence, ops); Sound(rep) && EntriesIn(rep) == Number(sequence, ops)
  {
    hide EncodeOps, ParseOps;
    HeaderParts(sequence, ops);
    ParseEncoded(ops, []);
    NothingToParse();
    assert EncodeOps(ops) + [] == EncodeOps(ops) && ops + [] == ops;
  }

  lemma NothingToParse()
    ensures ParseOps([]) == Handled([], true)
  {
  }

  lemma EmptyBatch()
    ensures EncodeBatch(0, []) == [0, 0, 0, 0, 0, 0, 0, 0, 0, 0, 0, 0]
  {
    assert EncodeFixed64(0) == [0, 0, 0, 0, 0, 0, 0, 0] && EncodeFixed32(0) == [0, 0, 0, 0];
  }

  lemma HeaderParts(sequence: nat, ops: seq<Op>)
    requires sequence < 0x1_0000_0000_0000_0000 && |ops| < 0x1_0000_0000
    ensures var rep := EncodeBatch(sequence, ops);
            && |rep| >= HEADER && rep[..8] == EncodeFixed64(sequence)
            && rep[8..] == EncodeFixed32(|ops|) + EncodeOps(ops) && rep[HEADER..] == EncodeOps(ops)
            && DecodeFixed32(rep[8..]) == |ops| && DecodeFixed64(rep) == sequence
  {
    hide EncodeOps, EncodeFixed64, EncodeFixed32;
    var rep := EncodeBatch(sequence, ops);
    Fixed32RoundTrip(|ops|);
    Fixed64RoundTrip(sequence);
    assert rep[8..][..4] == EncodeFixed32(|ops|);
    assert rep[..8] == EncodeFixed64(sequence);
    assert DecodeFixed32(rep[8..]) == DecodeFixed32(rep[8..][..4]);
    assert DecodeFixed64(rep) == DecodeFixed64(rep[..8]);
  }

  lemma OneMore(sequence: nat, ops: seq<Op>, op: Op)
    requires sequence < 0x1_0000_0000_0000_0000 && |ops| + 1 < 0x1_0000_0000
    ensures var rep := EncodeBatch(sequence, ops);
            && |rep| >= HEADER
            && EncodeBatch(sequence, ops + [op]) == rep[..8] + EncodeFixed32(|ops| + 1) + rep[12..] + EncodeOp(op)
  {
    hide EncodeFixed64, EncodeFixed32, EncodeOp;
    HeaderParts(sequence, ops);
    assert (ops + [op])[..|ops|] == ops;
  }

  // One turn of Iterate.
  method ReadOp(input: Bytes) returns (ok: bool, op: Op, rest: Bytes)
    requires input != []
    ensures ParseOp(input) == if ok then Parsed(op, rest) else Malformed
  {
    hide GetLengthPrefixed;
    var tag := input[0];
    rest := input[1..];
    op := Delete([]);
    var key, value;
    if tag == TYPE_VALUE {
      ok, key, rest := ReadLengthPrefixed(rest);
      if ok {
        ok, value, rest := ReadLengthPrefixed(rest);
        op := Put(key, value);
      }
    } else if tag == TYPE_DELETION {
      ok, key, rest := ReadLengthPrefixed(rest);
      op := Delete(key);
    } else {
      ok := false;
    }
  }
}
