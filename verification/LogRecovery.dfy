/**
 DBImpl::RecoverLogFile of db/db_impl.cc: from the bytes of a log, perhaps cut short by a crash, back to what the
 memtable held.
 */
module LogRecovery {
  import opened ByteStrings
  import opened LogFormat
  import opened LogReader
  import opened LogRoundTrip
  import opened WriteBatches
  import K = Keys
  import F = Files
  import D = Database

  // What all the records add, in order.
  function EntriesOf(records: seq<Bytes>): seq<Numbered> {
    if records == [] then []
    else EntriesOf(records[..|records| - 1]) + EntriesIn(records[|records| - 1])
  }

  function Max(a: nat, b: nat): nat {
    if a < b then b else a
  }

  // Sequence(batch) + Count(batch) - 1 as 64-bit arithmetic has it, with the count a signed int.
  function LastIn(record: Bytes): nat
    requires |record| >= HEADER
  {
    var count := DecodeFixed32(record[8..]);
    (DecodeFixed64(record) + count - (if count < 0x8000_0000 then 0 else 0x1_0000_0000) - 1) % 0x1_0000_0000_0000_0000
  }

  // The largest sequence number seen, starting from max.
  function LastOf(records: seq<Bytes>, max: nat): nat {
    if records == [] then max
    else
      var before, record := LastOf(records[..|records| - 1], max), records[|records| - 1];
      if |record| < HEADER then before else Max(before, LastIn(record))
  }

  lemma OneMoreRecord(records: seq<Bytes>, record: Bytes, max: nat)
    ensures EntriesOf(records + [record]) == EntriesOf(records) + EntriesIn(record)
    ensures LastOf(records + [record], max) ==
            if |record| < HEADER then LastOf(records, max) else Max(LastOf(records, max), LastIn(record))
  {
    assert (records + [record])[..|records|] == records;
  }

  function Flat(tables: seq<seq<Numbered>>): seq<Numbered> {
    if tables == [] then [] else Flat(tables[..|tables| - 1]) + tables[|tables| - 1]
  }

  lemma OneMoreTable(tables: seq<seq<Numbered>>, table: seq<Numbered>)
    ensures Flat(tables + [table]) == Flat(tables) + table
  {
    assert (tables + [table])[..|tables|] == tables;
  }

  // What has gone to tables and to the memtable after some records, and how often the memtable was full.
  datatype Filling = Filling(tables: seq<seq<Numbered>>, mem: seq<Numbered>, flushes: nat)

  function WithTable(tables: seq<seq<Numbered>>, mem: seq<Numbered>): seq<seq<Numbered>> {
    if mem == [] then tables else tables + [mem]
  }

  function FillingOf(records: seq<Bytes>, full: seq<Numbered> -> bool): Filling {
    if records == [] then Filling([], [], 0)
    else
      var f := FillingOf(records[..|records| - 1], full);
      var record := records[|records| - 1];
      var mem := f.mem + EntriesIn(record);
      if |record| >= HEADER && full(mem) then Filling(WithTable(f.tables, mem), [], f.flushes + 1)
      else Filling(f.tables, mem, f.flushes)
  }

  lemma FillingNext(records: seq<Bytes>, record: Bytes, full: seq<Numbered> -> bool)
    ensures FillingOf([], full) == Filling([], [], 0)
    ensures var f, mem := FillingOf(records, full), FillingOf(records, full).mem + EntriesIn(record);
            FillingOf(records + [record], full) ==
            if |record| >= HEADER && full(mem) then Filling(WithTable(f.tables, mem), [], f.flushes + 1)
            else Filling(f.tables, mem, f.flushes)
    ensures |record| < HEADER ==> EntriesIn(record) == []
  {
    assert (records + [record])[..|records|] == records;
  }

  // ---------------------------------------------------------------------------
  // The method
  // ---------------------------------------------------------------------------

  // The records read so far have gone to these tables and this memtable.
  ghost predicate Applied(records: seq<Bytes>, tables: seq<seq<Numbered>>, mem: seq<Numbered>, max: nat, max0: nat) {
    && Flat(tables) + mem == EntriesOf(records) && max == LastOf(records, max0)
    && forall t | t in tables :: t != []
  }

  // A level-0 table of what is in the memtable, if there is anything.
  method WriteTable(tables: seq<seq<Numbered>>, mem: seq<Numbered>, ghost records: seq<Bytes>, ghost max: nat,
                    ghost max0: nat)
    returns (tables': seq<seq<Numbered>>)
    requires Applied(records, tables, mem, max, max0)
    ensures Applied(records, tables', [], max, max0) && tables' == WithTable(tables, mem)
  {
    tables' := tables;
    if mem != [] {
      OneMoreTable(tables, mem);
      tables' := tables + [mem];
    }
    assert Flat(tables') + [] == Flat(tables) + mem;
  }

  // One record; status says whether the batch was whole.
  method ApplyRecord(record: Bytes, mem: seq<Numbered>, maxSequence: nat, ghost records: seq<Bytes>,
                     ghost tables: seq<seq<Numbered>>, ghost max0: nat)
    returns (status: bool, mem': seq<Numbered>, max: nat)
    requires Applied(records, tables, mem, maxSequence, max0)
    ensures status == Sound(record) && Applied(records + [record], tables, mem', max, max0)
    ensures mem' == mem + EntriesIn(record)
  {
    hide *;
    mem', max := mem, maxSequence;
    if |record| < HEADER {
      SmallRecord(records, record, tables, mem, max, max0);
      return false, mem', max;
    }
    var batch := new WriteBatch.Holding(record);
    var entries;
    status, entries := batch.InsertInto();
    mem' := mem + entries;
    var count: int := batch.Count();
    var first: int := batch.Sequence();
    var signed := if count < 0x8000_0000 then count else count - 0x1_0000_0000;
    var lastSeq := (first + signed - 1) % 0x1_0000_0000_0000_0000;
    if lastSeq > max {
      max := lastSeq;
    }
    RecordApplied(records, record, tables, mem, maxSequence, max0);
  }

  lemma SmallRecord(records: seq<Bytes>, record: Bytes, tables: seq<seq<Numbered>>, mem: seq<Numbered>, max: nat,
                    max0: nat)
    requires Applied(records, tables, mem, max, max0) && |record| < HEADER
    ensures !Sound(record) && Applied(records + [record], tables, mem, max, max0) && mem == mem + EntriesIn(record)
  {
    hide EntriesOf, LastOf, Flat;
    OneMoreRecord(records, record, max0);
  }

  lemma RecordApplied(records: seq<Bytes>, record: Bytes, tables: seq<seq<Numbered>>, mem: seq<Numbered>, max: nat,
                      max0: nat)
    requires Applied(records, tables, mem, max, max0) && |record| >= HEADER
    ensures Applied(records + [record], tables, mem + EntriesIn(record), Max(max, LastIn(record)), max0)
    ensures var count, first := DecodeFixed32(record[8..]), DecodeFixed64(record);
            var signed: int := if count < 0x8000_0000 then count else count - 0x1_0000_0000;
            var last := (first + signed - 1) % 0x1_0000_0000_0000_0000;
            Max(max, LastIn(record)) == if last > max then last else max
  {
    hide EntriesOf, LastOf, Flat, EntriesIn, DecodeFixed32, DecodeFixed64;
    OneMoreRecord(records, record, max0);
    var entries := EntriesIn(record);
    assert Flat(tables) + (mem + entries) == (Flat(tables) + mem) + entries;
  }

  // Reads the log and fills memtables, each written to a table when full says so and at the end unless the log is kept
  // for reuse. With paranoid checks a loss the reader reports and a faulty record end it; without, they are skipped.
  method RecoverLogFile(reader: Reader, paranoid: bool, reuse: bool, full: seq<Numbered> -> bool, maxSequence: nat)
    returns (ok: bool, tables: seq<seq<Numbered>>, mem: seq<Numbered>, max: nat)
    requires reader.Valid() && reader.reports == []
    modifies reader
    ensures var c := old(Ahead(reader));
            && ok == (paranoid ==> c.dropped == [] && forall x | x in c.records :: Sound(x))
            && (ok ==> Applied(c.records, tables, mem, max, maxSequence)
                       && Ends(FillingOf(c.records, full), reuse, tables, mem))
    ensures mem != [] ==> reuse && tables == []
  {
    hide Ahead, Applied, Sound, FillingOf, WithTable, EntriesIn;
    ghost var c := Ahead(reader);
    ghost var records: seq<Bytes> := [];
    NothingApplied(maxSequence);
    tables, mem, max, ok := [], [], maxSequence, true;
    var compactions := 0;
    FillingNext([], [], full);
    var found, record := ReadNext(reader, c, records);
    while found && ok && (paranoid ==> reader.reports == [])
      invariant reader.Valid() && Reads(c, reader, records, found, record)
      invariant Applied(records, tables, mem, max, maxSequence) && (compactions == 0 ==> tables == [])
      invariant ok ==> FillingOf(records, full) == Filling(tables, mem, compactions)
      invariant ok && paranoid ==> forall x | x in records :: Sound(x)
      invariant !ok ==> paranoid && exists x :: x in c.records && !Sound(x)
      decreases |reader.file| - reader.Pos(), found, ok
    {
      var status;
      status, mem, max := ApplyRecord(record, mem, max, records, tables, maxSequence);
      FillingNext(records, record, full);
      records := records + [record];
      assert record in c.records;
      if !status && paranoid {
        ok := false;
        break;
      }
      if |record| >= HEADER && full(mem) {
        compactions := compactions + 1;
        tables := WriteTable(tables, mem, records, max, maxSequence);
        mem := [];
      }
      found, record := ReadNext(reader, c, records);
    }
    ok := ok && (paranoid ==> reader.reports == []);
    if !ok {
      mem := [];
    } else if !reuse || compactions > 0 {
      tables := WriteTable(tables, mem, records, max, maxSequence);
      mem := [];
    }
  }

  // In the end the memtable stays if its log is kept and it was never full; otherwise it goes to a table, too.
  predicate Ends(f: Filling, reuse: bool, tables: seq<seq<Numbered>>, mem: seq<Numbered>) {
    if reuse && f.flushes == 0 then tables == f.tables && mem == f.mem
    else tables == WithTable(f.tables, f.mem) && mem == []
  }

  lemma NothingApplied(max0: nat)
    ensures Applied([], [], [], max0, max0)
  {
  }

  // ---------------------------------------------------------------------------
  // What was written comes back
  // ---------------------------------------------------------------------------

  // A batch as DBImpl::Write logs it, under its first sequence number.
  datatype Batch = Batch(first: nat, ops: seq<Op>)

  predicate Loggable(b: Batch) {
    b.first >= 1 && AllFit(b.ops) && |b.ops| < 0x8000_0000 && b.first + |b.ops| < 0x1_0000_0000_0000_0000
  }

  ghost predicate Logged(records: seq<Bytes>, batches: seq<Batch>) {
    && |records| == |batches|
    && forall i | 0 <= i < |batches| ::
         Loggable(batches[i]) && records[i] == EncodeBatch(batches[i].first, batches[i].ops)
  }

  // The operations of the batches under their numbers.
  function NumberedOf(batches: seq<Batch>): seq<Numbered> {
    if batches == [] then []
    else
      var b := batches[|batches| - 1];
      NumberedOf(batches[..|batches| - 1]) + Number(b.first, b.ops)
  }

  // The last number given out, or max when that is larger.
  function LastNumber(batches: seq<Batch>, max: nat): nat {
    if batches == [] then max
    else
      var b := batches[|batches| - 1];
      Max(LastNumber(batches[..|batches| - 1], max), if b.first + |b.ops| == 0 then 0 else b.first + |b.ops| - 1)
  }

  lemma RecordReads(record: Bytes, b: Batch)
    requires Loggable(b) && record == EncodeBatch(b.first, b.ops)
    ensures |record| >= HEADER && Sound(record) && EntriesIn(record) == Number(b.first, b.ops)
    ensures LastIn(record) == b.first + |b.ops| - 1
  {
    hide EncodeOps, ParseOps, Sound, EntriesIn, EncodeFixed64, EncodeFixed32;
    BatchReads(b.first, b.ops);
    HeaderParts(b.first, b.ops);
  }

  lemma {:induction false} LoggedReads(records: seq<Bytes>, batches: seq<Batch>, max: nat)
    requires Logged(records, batches)
    ensures forall x | x in records :: Sound(x)
    ensures EntriesOf(records) == NumberedOf(batches) && LastOf(records, max) == LastNumber(batches, max)
  {
    hide Sound, EntriesIn, Loggable, EncodeBatch, LastIn;
    if records != [] {
      var n := |records| - 1;
      LoggedReads(records[..n], batches[..n], max);
      LastOneReads(records, batches);
      forall x | x in records
        ensures Sound(x)
      {
        if x != records[n] {
          assert x in records[..n];
        }
      }
    }
  }

  lemma LastOneReads(records: seq<Bytes>, batches: seq<Batch>)
    requires Logged(records, batches) && records != []
    ensures var record, b := records[|records| - 1], batches[|records| - 1];
            && |record| >= HEADER && Sound(record) && EntriesIn(record) == Number(b.first, b.ops)
            && LastIn(record) == b.first + |b.ops| - 1 && b.first >= 1
  {
    hide Sound, EntriesIn, EncodeBatch, LastIn;
    RecordReads(records[|records| - 1], batches[|records| - 1]);
  }

  // ---------------------------------------------------------------------------
  // The history of the store
  // ---------------------------------------------------------------------------

  // How byte strings are understood: the order of user keys, and values as text.
  function Text(b: Bytes): string {
    seq(|b|, i requires 0 <= i < |b| => b[i] as char)
  }

  function ChangeOf(ranks: Bytes -> K.UserKey, op: Op): D.Change {
    match op
    case Put(key, value) => D.Put(ranks(key), Text(value))
    case Delete(key) => D.Delete(ranks(key))
  }

  function ChangesOf(ranks: Bytes -> K.UserKey, ops: seq<Op>): seq<D.Change> {
    seq(|ops|, i requires 0 <= i < |ops| => ChangeOf(ranks, ops[i]))
  }

  // The memtable entries of numbered operations.
  ghost function EntrySet(ranks: Bytes -> K.UserKey, es: seq<Numbered>): set<K.Entry> {
    set i | 0 <= i < |es| :: D.ChangeEntry(ChangeOf(ranks, es[i].op), es[i].sequence)
  }

  // The batches of the writes among the steps from a to n.
  ghost predicate WritesOf(ranks: Bytes -> K.UserKey, states: seq<D.State>, steps: seq<D.Step>, a: nat, n: nat,
                           batches: seq<Batch>)
    requires a <= n <= |steps| < |states|
    decreases n
  {
    if n == a then batches == []
    else if steps[n - 1].Write? then
      batches != []
      && var b := batches[|batches| - 1];
         && b.first == states[n - 1].lastSequence + 1 && steps[n - 1] == D.Write(ChangesOf(ranks, b.ops))
         && WritesOf(ranks, states, steps, a, n - 1, batches[..|batches| - 1])
    else WritesOf(ranks, states, steps, a, n - 1, batches)
  }

  // In these steps the memtable stays the same one.
  ghost predicate NoSwitch(steps: seq<D.Step>, a: nat, n: nat) {
    a <= n <= |steps| && forall i | a <= i < n :: !steps[i].Switch?
  }

  // Any number of the batches is what had been written at some moment.
  lemma {:induction false} MomentOf(ranks: Bytes -> K.UserKey, states: seq<D.State>, steps: seq<D.Step>, a: nat,
                                    n: nat, batches: seq<Batch>, k: nat)
    returns (m: nat)
    requires a <= n <= |steps| < |states| && WritesOf(ranks, states, steps, a, n, batches) && k <= |batches|
    ensures a <= m <= n && WritesOf(ranks, states, steps, a, m, batches[..k])
    decreases n
  {
    m := n;
    if k == |batches| {
      assert batches[..k] == batches;
    } else if steps[n - 1].Write? {
      var front := batches[..|batches| - 1];
      assert front[..k] == batches[..k];
      m := MomentOf(ranks, states, steps, a, n - 1, front, k);
    } else {
      m := MomentOf(ranks, states, steps, a, n - 1, batches, k);
    }
  }

  lemma NumberedBatch(ranks: Bytes -> K.UserKey, b: Batch)
    ensures EntrySet(ranks, Number(b.first, b.ops)) == D.BatchEntries(ChangesOf(ranks, b.ops), b.first)
  {
    var es, changes := Number(b.first, b.ops), ChangesOf(ranks, b.ops);
    forall i | 0 <= i < |b.ops|
      ensures D.ChangeEntry(ChangeOf(ranks, es[i].op), es[i].sequence) == D.ChangeEntry(changes[i], b.first + i)
    {
    }
  }

  lemma EntrySetOfTwo(ranks: Bytes -> K.UserKey, es: seq<Numbered>, fs: seq<Numbered>)
    ensures EntrySet(ranks, es + fs) == EntrySet(ranks, es) + EntrySet(ranks, fs)
  {
    var all := es + fs;
    forall e
      ensures e in EntrySet(ranks, all) <==> e in EntrySet(ranks, es) || e in EntrySet(ranks, fs)
    {
      if i :| 0 <= i < |es| && e == D.ChangeEntry(ChangeOf(ranks, es[i].op), es[i].sequence) {
        assert all[i] == es[i];
      }
      if i :| 0 <= i < |fs| && e == D.ChangeEntry(ChangeOf(ranks, fs[i].op), fs[i].sequence) {
        assert all[|es| + i] == fs[i];
      }
    }
  }

  lemma StepWrites(st: D.State, st': D.State, step: D.Step)
    requires |st.levels| == F.NUM_LEVELS && D.Next(st, st', step)
    ensures step.Write? ==>
              var added := D.BatchEntries(step.batch, st.lastSequence + 1);
              && st'.history == st.history + added && K.ToSet(st'.mem) == K.ToSet(st.mem) + added
              && st'.lastSequence == st.lastSequence + |step.batch|
    ensures !step.Write? ==> st'.history == st.history && st'.lastSequence == st.lastSequence
    ensures !step.Write? && !step.Switch? ==> st'.mem == st.mem
  {
    hide K.Sorted, D.BatchEntries;
  }

  // The batches of some steps are what these steps added to the history and to the memtable.
  lemma {:induction false} WritesAreHistory(ranks: Bytes -> K.UserKey, states: seq<D.State>, steps: seq<D.Step>,
                                            a: nat, n: nat, batches: seq<Batch>)
    requires D.Run(states, steps) && a <= n <= |steps| < |states| && WritesOf(ranks, states, steps, a, n, batches)
    requires NoSwitch(steps, a, n)
    ensures var added := EntrySet(ranks, NumberedOf(batches));
            && states[n].history == states[a].history + added
            && K.ToSet(states[n].mem) == K.ToSet(states[a].mem) + added
    ensures states[n].lastSequence >= states[a].lastSequence
    decreases n
  {
    hide D.Run, D.Next, D.BatchEntries, EntrySet, ChangesOf, Number, K.ToSet;
    if n == a {
      NothingNumbered(ranks);
    } else {
      StepOfRun(states, steps, n - 1);
      StepWrites(states[n - 1], states[n], steps[n - 1]);
      if steps[n - 1].Write? {
        var front, b := batches[..|batches| - 1], batches[|batches| - 1];
        WritesAreHistory(ranks, states, steps, a, n - 1, front);
        NumberedBatch(ranks, b);
        EntrySetOfTwo(ranks, NumberedOf(front), Number(b.first, b.ops));
      } else {
        WritesAreHistory(ranks, states, steps, a, n - 1, batches);
      }
    }
  }

  lemma StepOfRun(states: seq<D.State>, steps: seq<D.Step>, i: nat)
    requires D.Run(states, steps) && i <= |steps|
    ensures |states| == |steps| + 1
    ensures i < |steps| ==> |states[i].levels| == F.NUM_LEVELS && D.Next(states[i], states[i + 1], steps[i])
  {
    hide D.Next, D.Initial;
  }

  lemma NothingNumbered(ranks: Bytes -> K.UserKey)
    ensures EntrySet(ranks, NumberedOf([])) == {}
  {
  }

  // The last number given out is the last sequence number, once anything was written.
  lemma {:induction false} LastNumberIs(ranks: Bytes -> K.UserKey, states: seq<D.State>, steps: seq<D.Step>,
                                        a: nat, n: nat, batches: seq<Batch>, max: nat)
    requires D.Run(states, steps) && a <= n <= |steps| < |states| && WritesOf(ranks, states, steps, a, n, batches)
    requires max <= states[a].lastSequence
    ensures LastNumber(batches, max) == if batches == [] then max else states[n].lastSequence
    ensures states[a].lastSequence <= states[n].lastSequence
    decreases n
  {
    hide D.Run, D.Next, D.BatchEntries;
    if n > a {
      StepOfRun(states, steps, n - 1);
      StepWrites(states[n - 1], states[n], steps[n - 1]);
      if steps[n - 1].Write? {
        LastNumberIs(ranks, states, steps, a, n - 1, batches[..|batches| - 1], max);
      } else {
        LastNumberIs(ranks, states, steps, a, n - 1, batches, max);
      }
    }
  }

  // The log of a memtable, begun in state a when it was empty and cut off after any number of bytes: recovery succeeds,
  // even with paranoid checks, and gives the memtable as it was at some moment m, with the sequence number of then.
  method RecoverAfterCrash(crc: Checksum, records: seq<Bytes>, n: nat, paranoid: bool, reuse: bool,
                           full: seq<Numbered> -> bool, maxSequence: nat, ghost batches: seq<Batch>,
                           ghost ranks: Bytes -> K.UserKey, ghost states: seq<D.State>, ghost steps: seq<D.Step>,
                           ghost a: nat)
    returns (ok: bool, tables: seq<seq<Numbered>>, mem: seq<Numbered>, max: nat, ghost m: nat)
    requires n <= |LogBytes(crc, records)| && Logged(records, batches)
    requires D.Run(states, steps) && a <= |steps| && NoSwitch(steps, a, |steps|) && states[a].mem == []
    requires WritesOf(ranks, states, steps, a, |steps|, batches) && maxSequence <= states[a].lastSequence
    ensures ok && a <= m <= |steps|
    ensures var k := Whole(crc, records, n);
            && k <= |batches| && WritesOf(ranks, states, steps, a, m, batches[..k])
            && EntrySet(ranks, Flat(tables) + mem) == K.ToSet(states[m].mem)
            && states[m].history == states[a].history + K.ToSet(states[m].mem)
            && max == if k == 0 then maxSequence else states[m].lastSequence
  {
    hide *;
    ghost var k := Whole(crc, records, n);
    PrefixReadsWholeRecords(crc, true, records, n);
    var reader := new Reader(crc, LogBytes(crc, records)[..n], true);
    AtStart(reader);
    ok, tables, mem, max := RecoverLogFile(reader, paranoid, reuse, full, maxSequence);
    PrefixLogged(records, batches, k);
    LoggedReads(records[..k], batches[..k], maxSequence);
    StepOfRun(states, steps, 0);
    m := MomentOf(ranks, states, steps, a, |steps|, batches, k);
    SegmentIs(steps, a, m);
    WritesAreHistory(ranks, states, steps, a, m, batches[..k]);
    LastNumberIs(ranks, states, steps, a, m, batches[..k], maxSequence);
    AppliedMeans(records[..k], tables, mem, max, maxSequence);
    NothingIn();
  }

  lemma PrefixLogged(records: seq<Bytes>, batches: seq<Batch>, k: nat)
    requires Logged(records, batches) && k <= |records|
    ensures k <= |batches| && Logged(records[..k], batches[..k])
  {
    hide EncodeBatch, Loggable;
  }

  lemma SegmentIs(steps: seq<D.Step>, a: nat, m: nat)
    requires NoSwitch(steps, a, |steps|) && a <= m <= |steps|
    ensures NoSwitch(steps, a, m)
  {
  }

  lemma AppliedMeans(records: seq<Bytes>, tables: seq<seq<Numbered>>, mem: seq<Numbered>, max: nat, max0: nat)
    requires Applied(records, tables, mem, max, max0)
    ensures Flat(tables) + mem == EntriesOf(records) && max == LastOf(records, max0)
  {
  }

  lemma NothingIn()
    ensures K.ToSet([]) == {}
  {
  }
}
