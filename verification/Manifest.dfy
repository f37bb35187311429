/**
 VersionSet::Recover of db/version_set.cc: from the bytes of a manifest, perhaps cut short by a crash, back to the
 version that was installed.
 */
module Manifest {
  import opened Keys
  import opened Files
  import opened Picker
  import opened ByteStrings
  import opened VersionBuilder
  import opened LogFormat
  import opened LogReader
  import opened LogRoundTrip
  import E = EditCodec

  // How byte strings and table numbers are understood: the order of user keys, and what each table holds.
  datatype Reading = Reading(ranks: Bytes -> UserKey, tables: nat -> seq<Entry>)

  function KeyOf(r: Reading, b: Bytes): InternalKey {
    if |b| < 8 then InternalKey(0.0, 0, TypeDeletion)
    else
      var tag := DecodeFixed64(b[|b| - 8..]);
      InternalKey(r.ranks(b[..|b| - 8]), tag / 256, if tag % 256 == 1 then TypeValue else TypeDeletion)
  }

  // An internal key as AppendInternalKey writes it is understood as that key.
  lemma KeyReadsBack(r: Reading, user: Bytes, sequence: nat, kind: ValueType)
    requires sequence <= MAX_SEQUENCE
    ensures KeyOf(r, user + EncodeFixed64(PackSequenceAndType(sequence, kind))) ==
            InternalKey(r.ranks(user), sequence, kind)
  {
    hide EncodeFixed64, DecodeFixed64;
    var tag := PackSequenceAndType(sequence, kind);
    var b := user + EncodeFixed64(tag);
    Fixed64RoundTrip(tag);
    assert b[..|b| - 8] == user && b[|b| - 8..] == EncodeFixed64(tag);
  }

  function FileOf(r: Reading, f: E.RawFile): FileMeta {
    FileMeta(f.number, f.fileSize, KeyOf(r, f.smallest), KeyOf(r, f.largest), r.tables(f.number))
  }

  function NewFilesOf(r: Reading, files: seq<(nat, E.RawFile)>): seq<(nat, FileMeta)> {
    seq(|files|, i requires 0 <= i < |files| => (files[i].0, FileOf(r, files[i].1)))
  }

  // The edit as the builder sees it.
  function EditOf(r: Reading, e: E.RawEdit): VersionEdit {
    VersionEdit(set p | p in e.deletedFiles :: (p.0, p.1), NewFilesOf(r, e.newFiles),
                seq(|e.compactPointers|, i requires 0 <= i < |e.compactPointers| =>
                  (e.compactPointers[i].0, KeyOf(r, e.compactPointers[i].1))))
  }

  function EditsOf(r: Reading, edits: seq<E.RawEdit>): seq<VersionEdit> {
    seq(|edits|, i requires 0 <= i < |edits| => EditOf(r, edits[i]))
  }

  // ---------------------------------------------------------------------------
  // From records to edits
  // ---------------------------------------------------------------------------

  // A record that can be applied: it decodes, and names no other comparator.
  predicate Applies(name: Bytes, record: Bytes) {
    var d := E.DecodeLoop(record, E.NO_EDIT);
    d.ok && (d.edit.comparator.Some? ==> d.edit.comparator.value == name)
  }

  function DecodedEdits(records: seq<Bytes>): seq<E.RawEdit> {
    seq(|records|, i requires 0 <= i < |records| => E.DecodeLoop(records[i], E.NO_EDIT).edit)
  }

  // The numbers an edit may set.
  datatype Numbers = Numbers(log: Option<nat>, nextFile: Option<nat>, lastSequence: Option<nat>)

  function Update(n: Numbers, e: E.RawEdit): Numbers {
    Numbers(if e.logNumber.Some? then e.logNumber else n.log,
            if e.nextFileNumber.Some? then e.nextFileNumber else n.nextFile,
            if e.lastSequence.Some? then e.lastSequence else n.lastSequence)
  }

  // The value each number had when it was last set.
  function LastNumbers(edits: seq<E.RawEdit>): Numbers {
    if edits == [] then Numbers(None, None, None)
    else Update(LastNumbers(edits[..|edits| - 1]), edits[|edits| - 1])
  }

  // r is the last of these values that is set.
  ghost predicate IsLastSet(values: seq<Option<nat>>, r: Option<nat>) {
    if r.None? then forall i | 0 <= i < |values| :: values[i].None?
    else exists i :: 0 <= i < |values| && values[i] == r && forall j | i < j < |values| :: values[j].None?
  }

  lemma LastSetNext(values: seq<Option<nat>>, r: Option<nat>, v: Option<nat>)
    requires IsLastSet(values, r)
    ensures IsLastSet(values + [v], if v.Some? then v else r)
  {
    var all := values + [v];
    assert all[|values|] == v;
    if v.None? && r.Some? {
      var i :| 0 <= i < |values| && values[i] == r && forall j | i < j < |values| :: values[j].None?;
      assert all[i] == r;
    }
  }

  function LogsIn(edits: seq<E.RawEdit>): seq<Option<nat>> {
    seq(|edits|, i requires 0 <= i < |edits| => edits[i].logNumber)
  }

  function FilesIn(edits: seq<E.RawEdit>): seq<Option<nat>> {
    seq(|edits|, i requires 0 <= i < |edits| => edits[i].nextFileNumber)
  }

  function SequencesIn(edits: seq<E.RawEdit>): seq<Option<nat>> {
    seq(|edits|, i requires 0 <= i < |edits| => edits[i].lastSequence)
  }

  // Each number is that of the last edit that sets it.
  lemma {:induction false} LastNumbersAreLast(edits: seq<E.RawEdit>)
    ensures IsLastSet(LogsIn(edits), LastNumbers(edits).log)
    ensures IsLastSet(FilesIn(edits), LastNumbers(edits).nextFile)
    ensures IsLastSet(SequencesIn(edits), LastNumbers(edits).lastSequence)
  {
    hide IsLastSet;
    if edits == [] {
      NothingSet();
      assert LogsIn(edits) == FilesIn(edits) == SequencesIn(edits) == [];
    } else {
      var front, e := edits[..|edits| - 1], edits[|edits| - 1];
      LastNumbersAreLast(front);
      var n := LastNumbers(front);
      LastSetNext(LogsIn(front), n.log, e.logNumber);
      LastSetNext(FilesIn(front), n.nextFile, e.nextFileNumber);
      LastSetNext(SequencesIn(front), n.lastSequence, e.lastSequence);
      assert LogsIn(edits) == LogsIn(front) + [e.logNumber];
      assert FilesIn(edits) == FilesIn(front) + [e.nextFileNumber];
      assert SequencesIn(edits) == SequencesIn(front) + [e.lastSequence];
    }
  }

  lemma NothingSet()
    ensures IsLastSet([], None)
  {
  }

  ghost predicate Complete(n: Numbers) {
    n.log.Some? && n.nextFile.Some? && n.lastSequence.Some?
  }

  // Every level in a decoded edit is one of the seven.
  ghost predicate InLevels(e: E.RawEdit) {
    && (forall p | p in e.deletedFiles :: p.0 < NUM_LEVELS)
    && (forall p | p in e.newFiles :: p.0 < NUM_LEVELS)
  }

  lemma {:induction false} DecodedInLevels(input: Bytes, e: E.RawEdit)
    requires InLevels(e)
    ensures InLevels(E.DecodeLoop(input, e).edit)
    decreases |input|
  {
    hide E.ParsePayload, E.Store;
    var tag := E.Coding.GetVarint32(input);
    if tag.Parsed? {
      var p := E.ParsePayload(tag.value, tag.rest);
      if p.Parsed? {
        E.Coding.Shrinks(input);
        E.PayloadShrinks(tag.value, tag.rest);
        StoredInLevels(tag.value, tag.rest, e);
        DecodedInLevels(p.rest, E.Store(e, p.value));
      }
    }
  }

  predicate FieldInLevels(f: E.Field) {
    f.CompactPointer? || f.DeletedFile? || f.NewFile? ==> f.level < NUM_LEVELS
  }

  lemma PayloadInLevels(tag: Word, input: Bytes)
    ensures var p := E.ParsePayload(tag, input); p.Parsed? ==> FieldInLevels(p.value)
  {
    hide E.ParseNumber, E.ParseNumbers, E.ParseKeys, E.ParseLevel, E.Coding.GetLengthPrefixed;
  }

  lemma StoreInLevels(e: E.RawEdit, f: E.Field)
    requires InLevels(e) && FieldInLevels(f)
    ensures InLevels(E.Store(e, f))
  {
  }

  lemma StoredInLevels(tag: Word, input: Bytes, e: E.RawEdit)
    requires InLevels(e)
    ensures var p := E.ParsePayload(tag, input); p.Parsed? ==> InLevels(E.Store(e, p.value))
  {
    hide E.ParsePayload, E.Store, InLevels, FieldInLevels;
    PayloadInLevels(tag, input);
    var p := E.ParsePayload(tag, input);
    if p.Parsed? {
      StoreInLevels(e, p.value);
    }
  }

  lemma EditInLevels(r: Reading, e: E.RawEdit)
    requires InLevels(e)
    ensures forall p | p in EditOf(r, e).deletedFiles :: p.0 < NUM_LEVELS
    ensures forall p | p in EditOf(r, e).newFiles :: p.0 < NUM_LEVELS
  {
    forall p | p in EditOf(r, e).newFiles
      ensures p.0 < NUM_LEVELS
    {
      var i :| 0 <= i < |e.newFiles| && p == NewFilesOf(r, e.newFiles)[i];
      assert e.newFiles[i] in e.newFiles;
    }
  }

  // ---------------------------------------------------------------------------
  // Recover
  // ---------------------------------------------------------------------------

  lemma OneMoreEdit(r: Reading, edits: seq<E.RawEdit>, e: E.RawEdit, l: nat)
    ensures EditsOf(r, edits + [e]) == EditsOf(r, edits) + [EditOf(r, e)]
    ensures ReplayLevel(EditsOf(r, edits + [e]), l) == ApplyLevel(EditOf(r, e), l, ReplayLevel(EditsOf(r, edits), l))
  {
    hide ApplyLevel, EditOf;
    var all := EditsOf(r, edits + [e]);
    assert all == EditsOf(r, edits) + [EditOf(r, e)];
    assert all[..|all| - 1] == EditsOf(r, edits);
  }

  lemma LastOf(edits: seq<E.RawEdit>, e: E.RawEdit)
    ensures LastNumbers(edits + [e]) == Update(LastNumbers(edits), e)
  {
    assert (edits + [e])[..|edits|] == edits;
  }

  // The builder has taken in these edits.
  ghost predicate Replayed(r: Reading, builder: Builder, edits: seq<E.RawEdit>)
    reads builder
  {
    && builder.base == seq(NUM_LEVELS, _ => [])
    && |builder.levels| == NUM_LEVELS
    && forall l | 0 <= l < NUM_LEVELS :: builder.levels[l] == ReplayLevel(EditsOf(r, edits), l)
  }

  // These records have been read, and all of them applied.
  ghost predicate Progress(r: Reading, name: Bytes, builder: Builder, records: seq<Bytes>, numbers: Numbers)
    reads builder
  {
    && Replayed(r, builder, DecodedEdits(records))
    && (forall x | x in records :: Applies(name, x))
    && numbers == LastNumbers(DecodedEdits(records))
  }

  // Decodes one record and applies its edit.
  method ApplyRecord(builder: Builder, record: Bytes, name: Bytes, r: Reading, numbers: Numbers,
                     ghost records: seq<Bytes>)
    returns (ok: bool, numbers': Numbers)
    requires Progress(r, name, builder, records, numbers)
    modifies builder
    ensures ok == Applies(name, record)
    ensures ok ==> Progress(r, name, builder, records + [record], numbers')
  {
    hide E.DecodeLoop, ApplyLevel, EditOf, ReplayLevel, EditsOf, LastNumbers, Update, DecodedEdits;
    var edit := new E.VersionEdit();
    ok := edit.DecodeFrom(record);
    var raw := edit.Value();
    numbers' := numbers;
    if ok && raw.comparator.Some? && raw.comparator.value != name {
      ok := false;
    }
    if ok {
      ghost var edits := DecodedEdits(records);
      NextDecoded(records, record);
      LastOf(edits, raw);
      DecodedInLevels(record, E.NO_EDIT);
      EditInLevels(r, raw);
      builder.Apply(EditOf(r, raw));
      forall l: nat | l < NUM_LEVELS
        ensures builder.levels[l] == ReplayLevel(EditsOf(r, edits + [raw]), l)
      {
        OneMoreEdit(r, edits, raw, l);
      }
      numbers' := Update(numbers, raw);
    }
  }

  lemma NextDecoded(records: seq<Bytes>, record: Bytes)
    ensures DecodedEdits(records + [record]) == DecodedEdits(records) + [E.DecodeLoop(record, E.NO_EDIT).edit]
    ensures DecodedEdits([]) == []
  {
  }

  lemma NothingReplayed(r: Reading, l: nat)
    ensures ReplayLevel(EditsOf(r, []), l) == NO_CHANGE
  {
  }

  method SaveRecovered(builder: Builder, r: Reading, ghost edits: seq<E.RawEdit>) returns (levels: Levels)
    requires Replayed(r, builder, edits)
    ensures |levels| == NUM_LEVELS
    ensures forall l | 0 <= l < NUM_LEVELS :: levels[l] == RecoverLevel([], EditsOf(r, edits), l)
  {
    hide ReplayLevel, EditsOf, Live, MergeList;
    levels := builder.SaveTo();
  }

  // What a whole manifest comes to.
  ghost predicate Recovered(r: Reading, records: seq<Bytes>, levels: Levels, numbers: Numbers) {
    && |levels| == NUM_LEVELS
    && (forall l | 0 <= l < NUM_LEVELS :: levels[l] == RecoverLevel([], EditsOf(r, DecodedEdits(records)), l))
    && numbers == LastNumbers(DecodedEdits(records))
  }

  // VersionSet::Recover, from the manifest's reader on; name is the comparator's. Anything the reader drops is
  // corruption, as is an edit that does not decode.
  method Recover(reader: Reader, name: Bytes, r: Reading) returns (ok: bool, levels: Levels, numbers: Numbers)
    requires reader.Valid() && reader.reports == []
    modifies reader
    ensures var c := old(Ahead(reader));
            && ok == (c.dropped == [] && (forall x | x in c.records :: Applies(name, x))
                      && Complete(LastNumbers(DecodedEdits(c.records))))
            && (ok ==> Recovered(r, c.records, levels, numbers))
  {
    hide Applies, Ahead, LastNumbers, DecodedEdits, RecoverLevel, Replayed, EditsOf;
    ghost var c := Ahead(reader);
    ghost var records: seq<Bytes> := [];
    var builder := new Builder(seq(NUM_LEVELS, _ => []));
    Start(r, builder);
    levels, numbers := [], Numbers(None, None, None);
    ok := true;
    var found, record := ReadNext(reader, c, records);
    while found && ok && reader.reports == []
      invariant reader.Valid() && Reads(c, reader, records, found, record)
      invariant ok ==> Progress(r, name, builder, records, numbers)
      invariant !ok ==> exists x :: x in c.records && !Applies(name, x)
      decreases |reader.file| - reader.Pos(), found, ok
    {
      ok, numbers := ApplyRecord(builder, record, name, r, numbers, records);
      if ok {
        records := records + [record];
        found, record := ReadNext(reader, c, records);
      } else {
        assert record in c.records;
      }
    }
    ok := ok && reader.reports == [] && numbers.log.Some? && numbers.nextFile.Some? && numbers.lastSequence.Some?;
    if ok {
      levels := SaveRecovered(builder, r, DecodedEdits(records));
    }
  }

  lemma Start(r: Reading, builder: Builder)
    requires builder.base == seq(NUM_LEVELS, _ => []) && |builder.levels| == NUM_LEVELS
    requires forall l | 0 <= l < NUM_LEVELS :: builder.levels[l] == NO_CHANGE
    ensures Replayed(r, builder, DecodedEdits([])) && LastNumbers(DecodedEdits([])) == Numbers(None, None, None)
  {
    forall l: nat | l < NUM_LEVELS
      ensures ReplayLevel(EditsOf(r, []), l) == NO_CHANGE
    {
      NothingReplayed(r, l);
    }
  }

  // ---------------------------------------------------------------------------
  // What was written comes back
  // ---------------------------------------------------------------------------

  // The record EncodeTo writes for an edit.
  ghost predicate Encodes(record: Bytes, e: E.RawEdit) {
    E.WritableEdit(e) && exists order :: E.Lists(order, e.deletedFiles) && record == E.RecordBytes(E.FieldsOf(e, order))
  }

  // LogAndApply's records for these edits, none of which names another comparator.
  ghost predicate Written(records: seq<Bytes>, edits: seq<E.RawEdit>, name: Bytes) {
    && |records| == |edits|
    && forall i | 0 <= i < |edits| ::
         Encodes(records[i], edits[i]) && (edits[i].comparator.Some? ==> edits[i].comparator.value == name)
  }

  lemma RecordDecodes(record: Bytes, e: E.RawEdit)
    requires Encodes(record, e)
    ensures E.DecodeLoop(record, E.NO_EDIT) == E.Decoded(e, true)
  {
    hide E.DecodeLoop, E.RecordBytes, E.FieldsOf, E.WritableEdit;
    var order :| E.Lists(order, e.deletedFiles) && record == E.RecordBytes(E.FieldsOf(e, order));
    E.EditRoundTrip([], e, order);
    assert [] + e.compactPointers == e.compactPointers;
  }

  lemma WrittenDecodes(records: seq<Bytes>, edits: seq<E.RawEdit>, name: Bytes, k: nat)
    requires Written(records, edits, name) && k <= |edits|
    ensures DecodedEdits(records[..k]) == edits[..k]
    ensures forall x | x in records[..k] :: Applies(name, x)
  {
    hide E.DecodeLoop, Encodes;
    forall i | 0 <= i < k
      ensures E.DecodeLoop(records[i], E.NO_EDIT) == E.Decoded(edits[i], true)
      ensures Applies(name, records[i])
    {
      RecordDecodes(records[i], edits[i]);
    }
    assert DecodedEdits(records[..k]) == edits[..k];
  }

  // The manifest of these edits, cut off after any number of bytes, recovers to the version that was installed after
  // the last edit wholly written, provided that no edit adds a file the version at its time already listed and that a
  // file number stands for one table. All that can be missing is the numbers.
  lemma PrefixRecovers(crc: Checksum, records: seq<Bytes>, edits: seq<E.RawEdit>, name: Bytes, r: Reading, n: nat,
                       levels: Levels, numbers: Numbers, l: nat, u: set<FileMeta>)
    requires Written(records, edits, name) && n <= |LogBytes(crc, records)| && l < NUM_LEVELS
    requires Identifying(u) && forall e | e in EditsOf(r, edits) :: AddedFrom(e.newFiles, l, u)
    requires NeverReAdded([], EditsOf(r, edits), l)
    ensures var c := ReadRest(crc, true, LogBytes(crc, records)[..n], 0);
            var k := Whole(crc, records, n);
            && c == Contents(records[..k], []) && (forall x | x in c.records :: Applies(name, x))
            && DecodedEdits(c.records) == edits[..k]
            && (Recovered(r, c.records, levels, numbers) ==> levels[l] == InstallLevel([], EditsOf(r, edits[..k]), l))
  {
    hide *;
    var k := Whole(crc, records, n);
    PrefixReadsWholeRecords(crc, true, records, n);
    SameLength(records, edits, name);
    WrittenDecodes(records, edits, name, k);
    PrefixOfEdits(r, edits, k);
    PrefixNeverReAdds(EditsOf(r, edits), l, k);
    RecoverEqualsInstall([], EditsOf(r, edits[..k]), l, u) by {
      assert forall e | e in EditsOf(r, edits)[..k] :: e in EditsOf(r, edits);
      NothingOrdered();
    }
    RecoveredLevel(r, records[..k], levels, numbers, l);
  }

  lemma SameLength(records: seq<Bytes>, edits: seq<E.RawEdit>, name: Bytes)
    requires Written(records, edits, name)
    ensures |records| == |edits|
  {
  }

  lemma NothingOrdered()
    ensures Ordered([])
  {
  }

  lemma PrefixOfEdits(r: Reading, edits: seq<E.RawEdit>, k: nat)
    requires k <= |edits|
    ensures |EditsOf(r, edits)| == |edits| && EditsOf(r, edits[..k]) == EditsOf(r, edits)[..k]
  {
    hide EditOf;
  }

  lemma RecoveredLevel(r: Reading, records: seq<Bytes>, levels: Levels, numbers: Numbers, l: nat)
    requires l < NUM_LEVELS
    ensures Recovered(r, records, levels, numbers) ==>
              |levels| == NUM_LEVELS && levels[l] == RecoverLevel([], EditsOf(r, DecodedEdits(records)), l)
  {
  }

  // The assumptions of PrefixRecovers, for every level.
  ghost predicate Plain(edits: seq<VersionEdit>, u: set<FileMeta>) {
    && Identifying(u)
    && forall l: nat | l < NUM_LEVELS :: PlainAt(edits, u, l)
  }

  ghost predicate PlainAt(edits: seq<VersionEdit>, u: set<FileMeta>, l: nat) {
    NeverReAdded([], edits, l) && forall e | e in edits :: AddedFrom(e.newFiles, l, u)
  }

  // What Recover makes of the first n bytes of the manifest of these edits. It succeeds exactly when the edits wholly
  // written set the three numbers, and then gives those numbers and the version that was installed.
  method RecoverAfterCrash(crc: Checksum, records: seq<Bytes>, ghost edits: seq<E.RawEdit>, name: Bytes, r: Reading,
                           n: nat, ghost u: set<FileMeta>)
    returns (ok: bool, levels: Levels, numbers: Numbers)
    requires Written(records, edits, name) && n <= |LogBytes(crc, records)|
    requires Plain(EditsOf(r, edits), u)
    ensures |records| == |edits|
    ensures var whole := edits[..Whole(crc, records, n)];
            && ok == Complete(LastNumbers(whole))
            && (ok ==> && numbers == LastNumbers(whole) && |levels| == NUM_LEVELS
                       && forall l | 0 <= l < NUM_LEVELS :: levels[l] == InstallLevel([], EditsOf(r, whole), l))
  {
    hide *;
    SameLength(records, edits, name);
    var reader := new Reader(crc, LogBytes(crc, records)[..n], true);
    AtStart(reader);
    ok, levels, numbers := Recover(reader, name, r);
    AllRecovered(crc, records, edits, name, r, n, levels, numbers, u);
  }

  lemma PlainMeans(edits: seq<VersionEdit>, u: set<FileMeta>, l: nat)
    requires Plain(edits, u) && l < NUM_LEVELS
    ensures PlainAt(edits, u, l) && Identifying(u)
  {
  }

  lemma AllRecovered(crc: Checksum, records: seq<Bytes>, edits: seq<E.RawEdit>, name: Bytes, r: Reading, n: nat,
                     levels: Levels, numbers: Numbers, u: set<FileMeta>)
    requires Written(records, edits, name) && n <= |LogBytes(crc, records)| && Plain(EditsOf(r, edits), u)
    ensures |records| == |edits|
    ensures var c := ReadRest(crc, true, LogBytes(crc, records)[..n], 0);
            var whole := edits[..Whole(crc, records, n)];
            && c.dropped == [] && (forall x | x in c.records :: Applies(name, x)) && DecodedEdits(c.records) == whole
            && (Recovered(r, c.records, levels, numbers) ==>
                  && numbers == LastNumbers(whole) && |levels| == NUM_LEVELS
                  && forall l | 0 <= l < NUM_LEVELS :: levels[l] == InstallLevel([], EditsOf(r, whole), l))
  {
    hide NeverReAdded, Identifying, AddedFrom, LastNumbers, DecodedEdits, EditsOf, RecoverLevel, InstallLevel, Applies;
    hide LogBytes, ReadRest, Whole, Written;
    SameLength(records, edits, name);
    PlainMeans(EditsOf(r, edits), u, 0);
    PrefixRecovers(crc, records, edits, name, r, n, levels, numbers, 0, u);
    forall l: nat | l < NUM_LEVELS
      ensures var c := ReadRest(crc, true, LogBytes(crc, records)[..n], 0);
              var whole := edits[..Whole(crc, records, n)];
              && c.dropped == [] && (forall x | x in c.records :: Applies(name, x)) && DecodedEdits(c.records) == whole
              && (Recovered(r, c.records, levels, numbers) ==> levels[l] == InstallLevel([], EditsOf(r, whole), l))
    {
      PlainMeans(EditsOf(r, edits), u, l);
      PrefixRecovers(crc, records, edits, name, r, n, levels, numbers, l, u);
    }
  }
}
