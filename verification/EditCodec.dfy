/**
 The manifest records of db/version_edit.cc: EncodeTo and DecodeFrom, and recovery from encoded edits.
 */
module EditCodec {
  import opened Keys
  import opened Files
  import opened ByteStrings
  import opened Coding

  type Number = x: nat | x < 0x1_0000_0000_0000_0000

  // FileMetaData as it is written: internal keys are byte strings.
  datatype RawFile = RawFile(number: Number, fileSize: Number, smallest: Bytes, largest: Bytes)

  datatype RawEdit = RawEdit(comparator: Option<Bytes>, logNumber: Option<Number>, prevLogNumber: Option<Number>,
                             nextFileNumber: Option<Number>, lastSequence: Option<Number>,
                             compactPointers: seq<(nat, Bytes)>, deletedFiles: set<(nat, Number)>,
                             newFiles: seq<(nat, RawFile)>)

  const NO_EDIT := RawEdit(None, None, None, None, None, [], {}, [])

  // ---------------------------------------------------------------------------
  // Fields of a record
  // ---------------------------------------------------------------------------

  datatype Field =
    | Comparator(name: Bytes)
    | LogNumber(number: Number)
    | PrevLogNumber(number: Number)
    | NextFileNumber(number: Number)
    | LastSequence(number: Number)
    | CompactPointer(level: nat, key: Bytes)
    | DeletedFile(level: nat, number: Number)
    | NewFile(level: nat, file: RawFile)

  function TagOf(f: Field): Word {
    match f
    case Comparator(_) => 1
    case LogNumber(_) => 2
    case NextFileNumber(_) => 3
    case LastSequence(_) => 4
    case CompactPointer(_, _) => 5
    case DeletedFile(_, _) => 6
    case NewFile(_, _) => 7
    case PrevLogNumber(_) => 9
  }

  // What EncodeTo writes after the tag.
  function PayloadBytes(f: Field): Bytes {
    match f
    case Comparator(name) => LengthPrefixed(name)
    case LogNumber(n) => EncodeVarint(n)
    case PrevLogNumber(n) => EncodeVarint(n)
    case NextFileNumber(n) => EncodeVarint(n)
    case LastSequence(n) => EncodeVarint(n)
    case CompactPointer(level, key) => EncodeVarint(level) + LengthPrefixed(key)
    case DeletedFile(level, number) => EncodeVarint(level) + EncodeVarint(number)
    case NewFile(level, file) =>
      EncodeVarint(level) + EncodeVarint(file.number) + EncodeVarint(file.fileSize)
      + LengthPrefixed(file.smallest) + LengthPrefixed(file.largest)
  }

  function FieldBytes(f: Field): Bytes {
    EncodeVarint(TagOf(f)) + PayloadBytes(f)
  }

  function RecordBytes(fields: seq<Field>): Bytes {
    if fields == [] then [] else RecordBytes(fields[..|fields| - 1]) + FieldBytes(fields[|fields| - 1])
  }

  // Short enough for the 32-bit length in front of a string, and on one of the seven levels.
  predicate Writable(f: Field) {
    match f
    case Comparator(name) => |name| < 0x1_0000_0000
    case CompactPointer(level, key) => level < NUM_LEVELS && |key| < 0x1_0000_0000
    case DeletedFile(level, _) => level < NUM_LEVELS
    case NewFile(level, file) =>
      level < NUM_LEVELS && |file.smallest| < 0x1_0000_0000 && |file.largest| < 0x1_0000_0000
    case _ => true
  }

  // ---------------------------------------------------------------------------
  // Reading a field
  // ---------------------------------------------------------------------------

  // GetLevel.
  function ParseLevel(input: Bytes): (p: Parsed<nat>)
    ensures p.Parsed? ==> p.value < NUM_LEVELS
  {
    match GetVarint32(input)
    case Parsed(v, rest) => if v < NUM_LEVELS then Parsed(v, rest) else Malformed
    case Malformed => Malformed
  }

  function ParseNumber(input: Bytes): Parsed<Number> {
    match GetVarint64(input)
    case Parsed(v, rest) => Parsed(v, rest)
    case Malformed => Malformed
  }

  function ParseKeys(input: Bytes): Parsed<(Bytes, Bytes)> {
    match GetLengthPrefixed(input)
    case Malformed => Malformed
    case Parsed(smallest, rest) =>
      match GetLengthPrefixed(rest)
      case Malformed => Malformed
      case Parsed(largest, rest') => Parsed((smallest, largest), rest')
  }

  function ParseNumbers(input: Bytes): Parsed<(Number, Number)> {
    match ParseNumber(input)
    case Malformed => Malformed
    case Parsed(number, rest) =>
      match ParseNumber(rest)
      case Malformed => Malformed
      case Parsed(size, rest') => Parsed((number, size), rest')
  }

  // What follows the level in a compaction pointer, a deleted file or a new file.
  function ParseLevelled(tag: Word, level: nat, input: Bytes): Parsed<Field>
    requires tag == 5 || tag == 6 || tag == 7
  {
    if tag == 5 then
      match GetLengthPrefixed(input)
      case Malformed => Malformed
      case Parsed(key, rest) => Parsed(CompactPointer(level, key), rest)
    else if tag == 6 then
      match ParseNumber(input)
      case Malformed => Malformed
      case Parsed(number, rest) => Parsed(DeletedFile(level, number), rest)
    else
      match ParseNumbers(input)
      case Malformed => Malformed
      case Parsed(numbers, rest) =>
        match ParseKeys(rest)
        case Malformed => Malformed
        case Parsed(keys, rest') => Parsed(NewFile(level, RawFile(numbers.0, numbers.1, keys.0, keys.1)), rest')
  }

  function ParseComparator(input: Bytes): Parsed<Field> {
    match GetLengthPrefixed(input)
    case Malformed => Malformed
    case Parsed(name, rest) => Parsed(Comparator(name), rest)
  }

  // The fields that hold one number.
  function NumberField(tag: Word, n: Number): Field
    requires tag == 2 || tag == 3 || tag == 4 || tag == 9
  {
    if tag == 2 then LogNumber(n) else if tag == 3 then NextFileNumber(n)
    else if tag == 4 then LastSequence(n) else PrevLogNumber(n)
  }

  // The switch in DecodeFrom, after the tag was read.
  function ParsePayload(tag: Word, input: Bytes): Parsed<Field> {
    if tag == 1 then ParseComparator(input)
    else if tag == 2 || tag == 3 || tag == 4 || tag == 9 then
      match ParseNumber(input)
      case Malformed => Malformed
      case Parsed(n, rest) => Parsed(NumberField(tag, n), rest)
    else if tag == 5 || tag == 6 || tag == 7 then
      match ParseLevel(input)
      case Malformed => Malformed
      case Parsed(level, rest) => ParseLevelled(tag, level, rest)
    else Malformed
  }

  // ---------------------------------------------------------------------------
  // Reading a record
  // ---------------------------------------------------------------------------

  // What reading a field does to the edit.
  function Store(e: RawEdit, f: Field): RawEdit {
    match f
    case Comparator(name) => e.(comparator := Some(name))
    case LogNumber(n) => e.(logNumber := Some(n))
    case PrevLogNumber(n) => e.(prevLogNumber := Some(n))
    case NextFileNumber(n) => e.(nextFileNumber := Some(n))
    case LastSequence(n) => e.(lastSequence := Some(n))
    case CompactPointer(level, key) => e.(compactPointers := e.compactPointers + [(level, key)])
    case DeletedFile(level, number) => e.(deletedFiles := e.deletedFiles + {(level, number)})
    case NewFile(level, file) => e.(newFiles := e.newFiles + [(level, file)])
  }

  datatype Decoded = Decoded(edit: RawEdit, ok: bool)

  // The loop of DecodeFrom. A field that cannot be read ends it, as do bytes left over that are no tag.
  function DecodeLoop(input: Bytes, e: RawEdit): Decoded
    decreases |input|
  {
    match GetVarint32(input)
    case Malformed => Decoded(e, input == [])
    case Parsed(tag, rest) =>
      match ParsePayload(tag, rest)
      case Malformed => Decoded(e, false)
      case Parsed(f, rest') =>
        PayloadShrinks(tag, rest);
        Shrinks(input);
        DecodeLoop(rest', Store(e, f))
  }

  lemma PayloadShrinks(tag: Word, input: Bytes)
    ensures ParsePayload(tag, input).Parsed? ==> |ParsePayload(tag, input).rest| <= |input|
  {
    hide GetVarint32, GetVarint64, GetLengthPrefixed;
    Shrinks(input);
    var level := ParseLevel(input);
    if level.Parsed? {
      Shrinks(level.rest);
      var numbers := ParseNumbers(level.rest);
      var n := ParseNumber(level.rest);
      if n.Parsed? {
        Shrinks(n.rest);
      }
      if numbers.Parsed? {
        Shrinks(numbers.rest);
        var s := GetLengthPrefixed(numbers.rest);
        if s.Parsed? {
          Shrinks(s.rest);
        }
      }
    }
  }

  // ---------------------------------------------------------------------------
  // Round trip
  // ---------------------------------------------------------------------------

  lemma LevelBack(level: nat, rest: Bytes)
    requires level < NUM_LEVELS
    ensures ParseLevel(EncodeVarint(level) + rest) == Parsed(level, rest)
  {
    hide EncodeVarint, GetVarint32;
    VarintRoundTrip(level, rest);
  }

  lemma NumberBack(n: Number, rest: Bytes)
    ensures ParseNumber(EncodeVarint(n) + rest) == Parsed(n, rest)
  {
    hide EncodeVarint, GetVarint64;
    Varint64RoundTrip(n, rest);
  }

  lemma NewFileBack(level: nat, file: RawFile, rest: Bytes)
    requires Writable(NewFile(level, file))
    ensures ParsePayload(7, PayloadBytes(NewFile(level, file)) + rest) == Parsed(NewFile(level, file), rest)
  {
    hide EncodeVarint, LengthPrefixed, ParseLevel, ParseNumber, GetLengthPrefixed;
    var keys := LengthPrefixed(file.smallest) + (LengthPrefixed(file.largest) + rest);
    var numbers := EncodeVarint(file.number) + (EncodeVarint(file.fileSize) + keys);
    assert PayloadBytes(NewFile(level, file)) + rest == EncodeVarint(level) + numbers;
    LevelBack(level, numbers);
    NumberBack(file.number, EncodeVarint(file.fileSize) + keys);
    NumberBack(file.fileSize, keys);
    LengthPrefixedRoundTrip(file.smallest, LengthPrefixed(file.largest) + rest);
    LengthPrefixedRoundTrip(file.largest, rest);
  }

  lemma LevelledBack(f: Field, rest: Bytes)
    requires Writable(f) && (f.CompactPointer? || f.DeletedFile?)
    ensures ParsePayload(TagOf(f), PayloadBytes(f) + rest) == Parsed(f, rest)
  {
    hide EncodeVarint, LengthPrefixed, ParseLevel, ParseNumber, GetLengthPrefixed;
    if f.CompactPointer? {
      assert PayloadBytes(f) + rest == EncodeVarint(f.level) + (LengthPrefixed(f.key) + rest);
      LevelBack(f.level, LengthPrefixed(f.key) + rest);
      LengthPrefixedRoundTrip(f.key, rest);
    } else {
      assert PayloadBytes(f) + rest == EncodeVarint(f.level) + (EncodeVarint(f.number) + rest);
      LevelBack(f.level, EncodeVarint(f.number) + rest);
      NumberBack(f.number, rest);
    }
  }

  lemma PayloadBack(f: Field, rest: Bytes)
    requires Writable(f)
    ensures ParsePayload(TagOf(f), PayloadBytes(f) + rest) == Parsed(f, rest)
  {
    hide EncodeVarint, LengthPrefixed, ParseNumber, GetLengthPrefixed, ParseLevelled;
    if f.NewFile? {
      NewFileBack(f.level, f.file, rest);
    } else if f.CompactPointer? || f.DeletedFile? {
      LevelledBack(f, rest);
    } else if f.Comparator? {
      LengthPrefixedRoundTrip(f.name, rest);
    } else {
      NumberBack(f.number, rest);
    }
  }

  function StoreAll(e: RawEdit, fields: seq<Field>): RawEdit
    decreases |fields|
  {
    if fields == [] then e else StoreAll(Store(e, fields[0]), fields[1..])
  }

  lemma {:induction false} RecordFirst(fields: seq<Field>)
    requires fields != []
    ensures RecordBytes(fields) == FieldBytes(fields[0]) + RecordBytes(fields[1..])
    decreases |fields|
  {
    hide FieldBytes;
    var n := |fields| - 1;
    if n == 0 {
      assert fields[..0] == [] && fields[1..] == [];
    } else {
      RecordFirst(fields[..n]);
      assert fields[..n][0] == fields[0] && fields[..n][1..] == fields[1..][..n - 1];
      assert fields[1..][n - 1] == fields[n];
    }
  }

  // DecodeFrom takes in exactly the fields that were written.
  lemma {:induction false} FieldsBack(fields: seq<Field>, e: RawEdit)
    requires forall f | f in fields :: Writable(f)
    ensures DecodeLoop(RecordBytes(fields), e) == Decoded(StoreAll(e, fields), true)
    decreases |fields|
  {
    hide EncodeVarint, GetVarint32, ParsePayload, PayloadBytes, Store, Writable;
    if fields == [] {
      NothingToRead();
    } else {
      var f, rest := fields[0], RecordBytes(fields[1..]);
      assert f in fields;
      RecordFirst(fields);
      assert RecordBytes(fields) == EncodeVarint(TagOf(f)) + (PayloadBytes(f) + rest);
      VarintRoundTrip(TagOf(f), PayloadBytes(f) + rest);
      PayloadBack(f, rest);
      FieldsBack(fields[1..], Store(e, f));
    }
  }

  lemma NothingToRead()
    ensures GetVarint32([]) == Malformed
  {
  }

  // ---------------------------------------------------------------------------
  // The fields of an edit
  // ---------------------------------------------------------------------------

  predicate PairLess(p: (nat, Number), q: (nat, Number)) {
    p.0 < q.0 || (p.0 == q.0 && p.1 < q.1)
  }

  // The iteration order of a std::set of pairs.
  ghost predicate Lists(order: seq<(nat, Number)>, pairs: set<(nat, Number)>) {
    && (forall i, j | 0 <= i < j < |order| :: PairLess(order[i], order[j]))
    && (forall p :: p in order <==> p in pairs)
  }

  function OptionalNumber(tag: Word, n: Option<Number>): seq<Field>
    requires tag == 2 || tag == 3 || tag == 4 || tag == 9
  {
    if n.Some? then [NumberField(tag, n.value)] else []
  }

  function OptionalName(name: Option<Bytes>): seq<Field> {
    if name.Some? then [Comparator(name.value)] else []
  }

  // The fields written only when they are set.
  function OptionalNumbers(e: RawEdit): seq<Field> {
    OptionalName(e.comparator) + OptionalNumber(2, e.logNumber) + OptionalNumber(9, e.prevLogNumber)
    + OptionalNumber(3, e.nextFileNumber) + OptionalNumber(4, e.lastSequence)
  }

  function PointerFields(pointers: seq<(nat, Bytes)>): seq<Field> {
    seq(|pointers|, i requires 0 <= i < |pointers| => CompactPointer(pointers[i].0, pointers[i].1))
  }

  function DeletedFields(order: seq<(nat, Number)>): seq<Field> {
    seq(|order|, i requires 0 <= i < |order| => DeletedFile(order[i].0, order[i].1))
  }

  function NewFields(files: seq<(nat, RawFile)>): seq<Field> {
    seq(|files|, i requires 0 <= i < |files| => NewFile(files[i].0, files[i].1))
  }

  function FieldsOf(e: RawEdit, order: seq<(nat, Number)>): seq<Field> {
    OptionalNumbers(e) + PointerFields(e.compactPointers) + DeletedFields(order) + NewFields(e.newFiles)
  }

  ghost predicate WritableEdit(e: RawEdit) {
    && (e.comparator.Some? ==> |e.comparator.value| < 0x1_0000_0000)
    && (forall p | p in e.compactPointers :: Writable(CompactPointer(p.0, p.1)))
    && (forall p | p in e.deletedFiles :: p.0 < NUM_LEVELS)
    && (forall p | p in e.newFiles :: Writable(NewFile(p.0, p.1)))
  }

  lemma {:induction false} StoreConcat(e: RawEdit, a: seq<Field>, b: seq<Field>)
    ensures StoreAll(e, a + b) == StoreAll(StoreAll(e, a), b)
    decreases |a|
  {
    hide Store;
    if a == [] {
      assert a + b == b;
    } else {
      assert (a + b)[0] == a[0] && (a + b)[1..] == a[1..] + b;
      StoreConcat(Store(e, a[0]), a[1..], b);
    }
  }

  lemma {:induction false} StorePointers(e: RawEdit, pointers: seq<(nat, Bytes)>)
    ensures StoreAll(e, PointerFields(pointers)) == e.(compactPointers := e.compactPointers + pointers)
    decreases |pointers|
  {
    if pointers == [] {
      assert e.compactPointers + pointers == e.compactPointers;
    } else {
      assert PointerFields(pointers)[1..] == PointerFields(pointers[1..]);
      assert pointers[0] == (pointers[0].0, pointers[0].1);
      StorePointers(Store(e, PointerFields(pointers)[0]), pointers[1..]);
      assert e.compactPointers + [pointers[0]] + pointers[1..] == e.compactPointers + pointers;
    }
  }

  lemma {:induction false} StoreDeleted(e: RawEdit, order: seq<(nat, Number)>)
    ensures StoreAll(e, DeletedFields(order)) == e.(deletedFiles := e.deletedFiles + set p | p in order)
    decreases |order|
  {
    if order == [] {
      assert e.deletedFiles + (set p | p in order) == e.deletedFiles;
    } else {
      assert DeletedFields(order)[1..] == DeletedFields(order[1..]);
      assert order[0] == (order[0].0, order[0].1);
      StoreDeleted(Store(e, DeletedFields(order)[0]), order[1..]);
      assert order == [order[0]] + order[1..];
      assert e.deletedFiles + {order[0]} + (set p | p in order[1..]) == e.deletedFiles + (set p | p in order);
    }
  }

  lemma {:induction false} StoreNew(e: RawEdit, files: seq<(nat, RawFile)>)
    ensures StoreAll(e, NewFields(files)) == e.(newFiles := e.newFiles + files)
    decreases |files|
  {
    if files == [] {
      assert e.newFiles + files == e.newFiles;
    } else {
      assert NewFields(files)[1..] == NewFields(files[1..]);
      assert files[0] == (files[0].0, files[0].1);
      StoreNew(Store(e, NewFields(files)[0]), files[1..]);
      assert e.newFiles + [files[0]] + files[1..] == e.newFiles + files;
    }
  }

  lemma StoreOne(e: RawEdit, f: Field)
    ensures StoreAll(e, [f]) == Store(e, f) && StoreAll(e, []) == e
  {
    assert [f][1..] == [];
  }

  lemma StoreOptional(pointers: seq<(nat, Bytes)>, e: RawEdit)
    ensures StoreAll(NO_EDIT.(compactPointers := pointers), OptionalNumbers(e))
         == RawEdit(e.comparator, e.logNumber, e.prevLogNumber, e.nextFileNumber, e.lastSequence, pointers, {}, [])
  {
    var a, b, c := OptionalName(e.comparator), OptionalNumber(2, e.logNumber), OptionalNumber(9, e.prevLogNumber);
    var d, f := OptionalNumber(3, e.nextFileNumber), OptionalNumber(4, e.lastSequence);
    var e0 := NO_EDIT.(compactPointers := pointers);
    var e1 := e0.(comparator := e.comparator);
    var e2 := e1.(logNumber := e.logNumber);
    var e3 := e2.(prevLogNumber := e.prevLogNumber);
    var e4 := e3.(nextFileNumber := e.nextFileNumber);
    var e5 := e4.(lastSequence := e.lastSequence);
    Optional(e0, a, e1);
    Optional(e1, b, e2);
    Optional(e2, c, e3);
    Optional(e3, d, e4);
    Optional(e4, f, e5);
    StoreConcat(e0, a, b);
    StoreConcat(e0, a + b, c);
    StoreConcat(e0, a + b + c, d);
    StoreConcat(e0, a + b + c + d, f);
  }

  lemma Optional(e: RawEdit, fields: seq<Field>, e': RawEdit)
    requires if fields == [] then e' == e else |fields| == 1 && e' == Store(e, fields[0])
    ensures StoreAll(e, fields) == e'
  {
    if fields != [] {
      assert fields == [fields[0]];
      StoreOne(e, fields[0]);
    } else {
      StoreOne(e, LogNumber(0));
    }
  }

  lemma StoreFields(pointers: seq<(nat, Bytes)>, e: RawEdit, order: seq<(nat, Number)>)
    requires Lists(order, e.deletedFiles)
    ensures StoreAll(NO_EDIT.(compactPointers := pointers), FieldsOf(e, order))
         == e.(compactPointers := pointers + e.compactPointers)
  {
    var e0 := NO_EDIT.(compactPointers := pointers);
    var a, b, c, d := OptionalNumbers(e), PointerFields(e.compactPointers), DeletedFields(order), NewFields(e.newFiles);
    hide OptionalNumbers, PointerFields, DeletedFields, NewFields, StoreAll;
    StoreConcat(e0, a, b);
    StoreConcat(e0, a + b, c);
    StoreConcat(e0, a + b + c, d);
    StoreOptional(pointers, e);
    var e1 := StoreAll(e0, a);
    StorePointers(e1, e.compactPointers);
    var e2 := StoreAll(e1, b);
    StoreDeleted(e2, order);
    var e3 := StoreAll(e2, c);
    StoreNew(e3, e.newFiles);
    assert (set p | p in order) == e.deletedFiles;
    assert {} + e.deletedFiles == e.deletedFiles && [] + e.newFiles == e.newFiles;
  }

  lemma FieldsWritable(e: RawEdit, order: seq<(nat, Number)>)
    requires WritableEdit(e) && Lists(order, e.deletedFiles)
    ensures forall f | f in FieldsOf(e, order) :: Writable(f)
  {
    forall f | f in FieldsOf(e, order)
      ensures Writable(f)
    {
      if f in OptionalNumbers(e) {
      } else if f in PointerFields(e.compactPointers) {
        var i :| 0 <= i < |e.compactPointers| && f == CompactPointer(e.compactPointers[i].0, e.compactPointers[i].1);
        assert e.compactPointers[i] in e.compactPointers;
      } else if f in DeletedFields(order) {
        var i :| 0 <= i < |order| && f == DeletedFile(order[i].0, order[i].1);
        assert order[i] in order;
      } else {
        var i :| 0 <= i < |e.newFiles| && f == NewFile(e.newFiles[i].0, e.newFiles[i].1);
        assert e.newFiles[i] in e.newFiles;
      }
    }
  }

  // DecodeFrom undoes EncodeTo. Clear leaves the compaction pointers alone, so those already there come first.
  lemma EditRoundTrip(pointers: seq<(nat, Bytes)>, e: RawEdit, order: seq<(nat, Number)>)
    requires WritableEdit(e) && Lists(order, e.deletedFiles)
    ensures DecodeLoop(RecordBytes(FieldsOf(e, order)), NO_EDIT.(compactPointers := pointers))
         == Decoded(e.(compactPointers := pointers + e.compactPointers), true)
  {
    hide DecodeLoop, RecordBytes, FieldsOf, StoreAll, WritableEdit, Lists;
    FieldsWritable(e, order);
    FieldsBack(FieldsOf(e, order), NO_EDIT.(compactPointers := pointers));
    StoreFields(pointers, e, order);
  }

  // ---------------------------------------------------------------------------
  // The class
  // ---------------------------------------------------------------------------

  lemma {:induction false} LeastPair(pairs: set<(nat, Number)>) returns (p: (nat, Number))
    requires pairs != {}
    ensures p in pairs && forall q | q in pairs && q != p :: PairLess(p, q)
    decreases pairs
  {
    var first :| first in pairs;
    p := first;
    var rest := pairs - {first};
    if rest != {} {
      var least := LeastPair(rest);
      if PairLess(least, first) {
        p := least;
      }
      forall q | q in pairs && q != p
        ensures PairLess(p, q)
      {
        if q != first && q != least {
          assert PairLess(least, q);
        }
      }
    } else {
      assert forall q | q in pairs :: q == first || q in rest;
    }
  }

  lemma RecordSnoc(fields: seq<Field>, f: Field)
    ensures RecordBytes(fields + [f]) == RecordBytes(fields) + FieldBytes(f)
  {
    assert (fields + [f])[..|fields|] == fields;
  }

  lemma {:induction false} RecordConcat(a: seq<Field>, b: seq<Field>)
    ensures RecordBytes(a + b) == RecordBytes(a) + RecordBytes(b)
    decreases |b|
  {
    hide FieldBytes;
    if b == [] {
      assert a + b == a;
    } else {
      var n := |b| - 1;
      RecordConcat(a, b[..n]);
      var all := a + b;
      assert all[..|all| - 1] == a + b[..n] && all[|all| - 1] == b[n];
      RecordSnoc(a + b[..n], b[n]);
      assert a + b[..n] + [b[n]] == all;
      var x, y, z := RecordBytes(a), RecordBytes(b[..n]), FieldBytes(b[n]);
      assert x + (y + z) == x + y + z;
    }
  }

  lemma OneField(f: Field)
    ensures RecordBytes([f]) == FieldBytes(f) && RecordBytes([]) == []
  {
    assert [f][..0] == [];
  }

  lemma NameFields(name: Option<Bytes>)
    ensures RecordBytes(OptionalName(name)) == if name.Some? then FieldBytes(Comparator(name.value)) else []
  {
    hide FieldBytes;
    if name.Some? {
      OneField(Comparator(name.value));
    }
  }

  method PutNewFile(dst: Bytes, level: nat, file: RawFile) returns (r: Bytes)
    ensures r == dst + PayloadBytes(NewFile(level, file))
  {
    hide EncodeVarint, LengthPrefixed;
    r := PutVarint(dst, level);
    r := PutVarint(r, file.number);
    r := PutVarint(r, file.fileSize);
    r := PutLengthPrefixed(r, file.smallest);
    r := PutLengthPrefixed(r, file.largest);
  }

  method PutField(dst: Bytes, f: Field) returns (r: Bytes)
    ensures r == dst + FieldBytes(f)
  {
    hide EncodeVarint, LengthPrefixed;
    r := PutVarint(dst, TagOf(f));
    if f.NewFile? {
      r := PutNewFile(r, f.level, f.file);
    } else if f.Comparator? {
      r := PutLengthPrefixed(r, f.name);
    } else if f.CompactPointer? {
      r := PutVarint(r, f.level);
      r := PutLengthPrefixed(r, f.key);
    } else if f.DeletedFile? {
      r := PutVarint(r, f.level);
      r := PutVarint(r, f.number);
    } else {
      r := PutVarint(r, f.number);
    }
  }

  method PutIf(dst: Bytes, tag: Word, n: Option<Number>) returns (r: Bytes)
    requires tag == 2 || tag == 3 || tag == 4 || tag == 9
    ensures r == dst + RecordBytes(OptionalNumber(tag, n))
  {
    hide FieldBytes;
    r := dst;
    if n.Some? {
      OneField(NumberField(tag, n.value));
      r := PutField(r, NumberField(tag, n.value));
    }
  }

  // The case of DecodeFrom's switch for a tag, up to the field being stored.
  method ReadPayload(tag: Word, input: Bytes) returns (ok: bool, f: Field, rest: Bytes)
    ensures ParsePayload(tag, input) == if ok then Parsed(f, rest) else Malformed
  {
    hide ParseVarint;
    f := LogNumber(0);
    rest := input;
    if tag == 1 {
      var name;
      ok, name, rest := ReadLengthPrefixed(input);
      f := Comparator(name);
    } else if tag == 2 || tag == 3 || tag == 4 || tag == 9 {
      var n;
      ok, n, rest := ReadNumber(input);
      f := NumberField(tag, n);
    } else if tag == 5 || tag == 6 || tag == 7 {
      var level;
      ok, level, rest := ReadLevel(input);
      if ok {
        ok, f, rest := ReadLevelled(tag, level, rest);
      }
    } else {
      ok := false;
    }
  }

  // GetLevel.
  method ReadLevel(input: Bytes) returns (ok: bool, level: nat, rest: Bytes)
    ensures ParseLevel(input) == if ok then Parsed(level, rest) else Malformed
  {
    hide ParseVarint;
    ok, level, rest := ReadVarint(Bits32, input);
    ok := ok && level < NUM_LEVELS;
  }

  method ReadNumber(input: Bytes) returns (ok: bool, n: Number, rest: Bytes)
    ensures ParseNumber(input) == if ok then Parsed(n, rest) else Malformed
  {
    hide ParseVarint;
    var v;
    ok, v, rest := ReadVarint(Bits64, input);
    n := if ok then v else 0;
  }

  method ReadLevelled(tag: Word, level: nat, input: Bytes) returns (ok: bool, f: Field, rest: Bytes)
    requires tag == 5 || tag == 6 || tag == 7
    ensures ParseLevelled(tag, level, input) == if ok then Parsed(f, rest) else Malformed
  {
    hide ParseVarint, ParseNumber, GetLengthPrefixed;
    f := LogNumber(0);
    if tag == 5 {
      var key;
      ok, key, rest := ReadLengthPrefixed(input);
      f := CompactPointer(level, key);
    } else if tag == 6 {
      var number;
      ok, number, rest := ReadNumber(input);
      f := DeletedFile(level, number);
    } else {
      var number, size, smallest, largest := 0, 0, [], [];
      ok, number, rest := ReadNumber(input);
      if ok {
        ok, size, rest := ReadNumber(rest);
      }
      if ok {
        ok, smallest, rest := ReadLengthPrefixed(rest);
      }
      if ok {
        ok, largest, rest := ReadLengthPrefixed(rest);
      }
      f := NewFile(level, RawFile(number, size, smallest, largest));
    }
  }

  class VersionEdit {
    var comparator: Option<Bytes>
    var logNumber: Option<Number>
    var prevLogNumber: Option<Number>
    var nextFileNumber: Option<Number>
    var lastSequence: Option<Number>
    var compactPointers: seq<(nat, Bytes)>
    var deletedFiles: set<(nat, Number)>
    var newFiles: seq<(nat, RawFile)>

    function Value(): RawEdit
      reads this
    {
      RawEdit(comparator, logNumber, prevLogNumber, nextFileNumber, lastSequence, compactPointers, deletedFiles, newFiles)
    }

    constructor ()
      ensures Value() == NO_EDIT
    {
      compactPointers := [];
      new;
      Clear();
    }

    // The compaction pointers are not cleared.
    method Clear()
      modifies this
      ensures Value() == NO_EDIT.(compactPointers := old(compactPointers))
    {
      comparator, logNumber, prevLogNumber, nextFileNumber, lastSequence := None, None, None, None, None;
      deletedFiles, newFiles := {}, [];
    }

    // What the switch does with a field it has read.
    method StoreField(f: Field)
      modifies this
      ensures Value() == Store(old(Value()), f)
    {
      match f {
        case Comparator(name) => comparator := Some(name);
        case LogNumber(n) => logNumber := Some(n);
        case PrevLogNumber(n) => prevLogNumber := Some(n);
        case NextFileNumber(n) => nextFileNumber := Some(n);
        case LastSequence(n) => lastSequence := Some(n);
        case CompactPointer(level, key) => compactPointers := compactPointers + [(level, key)];
        case DeletedFile(level, number) => deletedFiles := deletedFiles + {(level, number)};
        case NewFile(level, file) => newFiles := newFiles + [(level, file)];
      }
    }

    method DecodeFrom(src: Bytes) returns (ok: bool)
      modifies this
      ensures Decoded(Value(), ok) == DecodeLoop(src, NO_EDIT.(compactPointers := old(compactPointers)))
    {
      hide ParsePayload, Store, ParseVarint, FieldBytes;
      Clear();
      ghost var start := Value();
      var input := src;
      ok := true;
      var found, tag, rest := ReadVarint(Bits32, input);
      while ok && found
        invariant ParseVarint(Bits32, input, 0, 0) == if found then Parsed(tag, rest) else Malformed
        invariant ok ==> DecodeLoop(input, Value()) == DecodeLoop(src, start)
        invariant !ok ==> Decoded(Value(), false) == DecodeLoop(src, start)
        decreases |input|, ok
      {
        var f, after;
        Shrinks(input);
        PayloadShrinks(tag, rest);
        ok, f, after := ReadPayload(tag, rest);
        if ok {
          StoreField(f);
          input := after;
          found, tag, rest := ReadVarint(Bits32, input);
        }
      }
      if ok && input != [] {
        ok := false;
      }
    }

    method PutOptional(dst: Bytes) returns (r: Bytes)
      ensures r == dst + RecordBytes(OptionalNumbers(Value()))
    {
      hide FieldBytes, RecordBytes, OptionalNumber, OptionalName;
      ghost var a, b, c := OptionalName(comparator), OptionalNumber(2, logNumber), OptionalNumber(9, prevLogNumber);
      ghost var d, f := OptionalNumber(3, nextFileNumber), OptionalNumber(4, lastSequence);
      r := dst;
      NameFields(comparator);
      if comparator.Some? {
        r := PutField(r, Comparator(comparator.value));
      }
      r := PutIf(r, 2, logNumber);
      r := PutIf(r, 9, prevLogNumber);
      r := PutIf(r, 3, nextFileNumber);
      r := PutIf(r, 4, lastSequence);
      RecordConcat(a, b);
      RecordConcat(a + b, c);
      RecordConcat(a + b + c, d);
      RecordConcat(a + b + c + d, f);
    }

    method PutAll(dst: Bytes, fields: seq<Field>) returns (r: Bytes)
      ensures r == dst + RecordBytes(fields)
    {
      hide FieldBytes, RecordBytes;
      NoFields();
      r := dst;
      var i := 0;
      assert fields[..0] == [];
      while i < |fields|
        invariant 0 <= i <= |fields| && r == dst + RecordBytes(fields[..i])
      {
        RecordSnoc(fields[..i], fields[i]);
        assert fields[..i + 1] == fields[..i] + [fields[i]];
        r := PutField(r, fields[i]);
        i := i + 1;
      }
      assert fields[..i] == fields;
    }

    method EncodeTo(dst: Bytes) returns (r: Bytes, ghost order: seq<(nat, Number)>)
      ensures Lists(order, deletedFiles)
      ensures r == dst + RecordBytes(FieldsOf(Value(), order))
    {
      hide FieldBytes, RecordBytes, OptionalNumbers, PointerFields, NewFields;
      r := PutOptional(dst);
      r := PutAll(r, PointerFields(compactPointers));
      order := [];
      var todo := deletedFiles;
      NoFields();
      assert DeletedFields([]) == [];
      ghost var before := r;
      while todo != {}
        invariant todo <= deletedFiles
        invariant forall i, j | 0 <= i < j < |order| :: PairLess(order[i], order[j])
        invariant forall p, q | p in order && q in todo :: PairLess(p, q)
        invariant forall p :: p in order <==> p in deletedFiles && p !in todo
        invariant r == before + RecordBytes(DeletedFields(order))
        decreases todo
      {
        ghost var least := LeastPair(todo);
        var p :| p in todo && forall q | q in todo && q != p :: PairLess(p, q);
        todo := todo - {p};
        r := PutField(r, DeletedFile(p.0, p.1));
        assert DeletedFields(order + [p]) == DeletedFields(order) + [DeletedFile(p.0, p.1)];
        RecordSnoc(DeletedFields(order), DeletedFile(p.0, p.1));
        order := order + [p];
      }
      r := PutAll(r, NewFields(newFiles));
      ghost var o, ps := OptionalNumbers(Value()), PointerFields(compactPointers);
      RecordConcat(o, ps);
      RecordConcat(o + ps, DeletedFields(order));
      RecordConcat(o + ps + DeletedFields(order), NewFields(newFiles));
    }
  }

  lemma NoFields()
    ensures RecordBytes([]) == []
  {
  }
}
