# LevelDB and nanopb, as vendored under ios/Pods

A model of the two libraries that hold the logic of this repository: LevelDB, the log-structured key-value store
(`ios/Pods/leveldb-library`), and nanopb, the protocol-buffer codec (`ios/Pods/nanopb`).

- **The store.** `Keys`, `Files`, `ReadPath`, `Picker`, `Compacting`, `VersionBuilder`, `LevelMoves`, `MergeInputs`,
  `MemTables`, `Database`, `DBImpl` and `SplitKeys`: levels of table files, memtables on skip lists, point lookups, what
  to compact, the compaction loop, and a state machine of writes, flushes, compactions, moves and snapshots that the
  class `DB` carries out. `FileLifetime` is a second state machine, for which files exist on disk while readers, a flush
  and a compaction overlap.
- **Iterators.** `Iterators`, `Merger`, `TwoLevel`, `DBIterator`.
- **Storage formats.** `ByteStrings`, `Coding`, the log (`LogFormat`, `LogWriter`, `LogReader`, `LogRoundTrip`,
  `LogRecovery`), the manifest (`EditCodec`, `Manifest`), blocks (`BlockFormat`, `BlockBuilding`, `BlockIteration`),
  filters (`Bloom`, `FilterBlock`), tables (`Comparators`, `TableFormat`, `TableLayout`, `TableBuilding`,
  `TableReading`, `TableIterating`) and `Crc32c`.
- **Writing.** `WriteBatches`, `BatchGroup`, `WriteQueue`: batches, and the queue of writers over all interleavings.
- **In-memory structures.** `SkipList`, `SkipListReaders`, `HandleTable`, `LruCache`.
- **nanopb.** `PbMessage`, `PbFieldIter`, `PbEncode`, `PbEncoder`, `PbRoundTrip`, `PbRequired`, `PbDecode`,
  `PbScalars`, `PbDecoder`, `PbMeaning`, `PbCodec`, `PbCompat`.

What the source changes in place is a class whose methods are proved against functions of their old state; lemmas then
prove what those functions promise. Conventions:

- In the modules of the store a user key is its rank, a real, in the order of the user's comparator. The code there
  only compares user keys, and any total order on countably many keys embeds in the reals. The format modules work on
  byte strings, under any comparator that keeps its contract.
- A history of all writes ever made is the reference for reads; a snapshot reads its newest entry at or below it.
- Checksums, hash functions and table sizes are parameters. Which level or file a compaction is triggered for is a
  parameter, too. `PB_FIELD_32BIT` is defined, as in `ios/Pods/Target Support Files/nanopb/nanopb.release.xcconfig:3`.
- Files are byte strings that are appended to and, in a crash, cut.

## Findings

Properties that one would expect and that the code does not have, each with an input and the exact condition.

- **A compaction can bring a deleted key back** (`ios/Pods/leveldb-library/db/version_set.cc:1407` and `:1422`).
  Boundary files are added to the inputs of the compacted level only. When an earlier compaction ended an output
  between a deletion marker and an older value of the same user key, a later compaction one level up can take the file
  with the marker and leave the file with the value, since the range it compacts ends before that key. The marker is
  then dropped, because no level below holds the key. `SplitKeys.DeletedKeyComesBack` is a run from the empty database:
  write 7; take a snapshot; write 5 and delete 7 in one batch; switch and flush to level 2; compact that level by range,
  as `TEST_CompactRange` does (a compaction picked by size would move its one file), with the outputs cut between the
  marker of 7 and its value; release the snapshot; write 5; switch and flush to level 2; compact. The exact condition
  is `Compacting.ReadsKeptIffNoResurrection`, and for whole states `Database.StepKeepsReads`. That no file left out of
  the next level shares a user key with one taken from it can be checked on metadata before the compaction and
  suffices: `SplitKeys.NoSplitIsSafe`, and for whole runs `SplitKeys.RunWithoutSplitsReadsAgree`.
- **A file added twice is listed twice until the next start.** Two edits that add the same file to a level install
  it twice and recover it once (`VersionBuilder.ReAddedFileIsDoubled`). Recovery agrees with installing if and only if
  no edit adds a file the version already lists (`VersionBuilder.RecoverAgreesIffNeverReAdded`). No operation of the
  store makes such edits.
- **Strings that fill their array do not round trip.** nanopb encodes a string without a terminator and
  then refuses to decode it into the same field. Decoding succeeds if and only if every string that is present leaves
  room for its terminator (`PbRoundTrip.MessageBack`).

## Model

| member | source | states |
|---|---|---|
| `Files.FindFile` | ios/Pods/leveldb-library/db/version_set.cc:88-106 | the binary search gives the first file whose largest key is at or after the key; every file before it ends earlier |
| `Files.SomeFileOverlapsRange` | ios/Pods/leveldb-library/db/version_set.cc:122-157 | true if and only if some file overlaps the user-key range, by scan or by binary search alike, with either end open |
| `ReadPath.SearchLevel` | ios/Pods/leveldb-library/db/version_set.cc:282-324 | searching one level (level 0 newest file first, other levels the one file found by binary search) gives the newest entry of the user key visible at the snapshot in that level, or none |
| `ReadPath.VersionGet` | ios/Pods/leveldb-library/db/version_set.cc:326-421 | the search that stops at the first level with a hit gives the entry with the greatest sequence number visible at the snapshot over all tables, or none when there is none; user keys may be split over neighbouring files |
| `ReadPath.FirstHitIsRead` | ios/Pods/leveldb-library/db/db_impl.cc:1100-1145 | the first hit of memtable, immutable memtable and tables, in this order, is the newest visible entry of all of them, a deletion marker reading as nothing |
| `MemTables.Get` | ios/Pods/leveldb-library/db/db_impl.cc:1100-1145 | the method that looks there, over real memtables: the value of the newest visible entry of everything stored, or nothing when that is a deletion or there is none |
| `MemTables.MemTable.Add` | ios/Pods/leveldb-library/db/memtable.cc:75-98 | the sorted entries of the skip list grow by exactly the new one, in its place, for any height of its node |
| `MemTables.MemTable.Get` | ios/Pods/leveldb-library/db/memtable.cc:100-134 | finds the newest entry of the user key that a reader at the sequence number may see, if there is one, and tells a value from a deletion |
| `MemTables.MemTable.Entries` | ios/Pods/leveldb-library/db/memtable.cc:46-73 | reading the list from front to back gives all entries in internal key order |
| `Files.GetOverlappingInputs` | ios/Pods/leveldb-library/db/version_set.cc:519-559 | above level 0 exactly the overlapping files, in order; at level 0 exactly the files overlapping the least range that contains the given one and is closed under overlap; the restarting search terminates |
| `Files.AddBoundaryInputs` | ios/Pods/leveldb-library/db/version_set.cc:1378-1401 | terminates with no file of the level left that starts with the user key the inputs end with; each file added is the first that continues its predecessors |
| `Picker.VersionSet.SetupOtherInputs` | ios/Pods/leveldb-library/db/version_set.cc:1403-1462 | the inputs it completes are the files given with their boundary files and all that these touch below, or, exactly when that grows them within the byte limit without touching more files below, all files of the level across that range with their boundary files; they can move down together (any file of the level left out shares no user key with them or ends before them); the compaction pointer moves to their largest key; the grandparents are the files two levels down that overlap |
| `Picker.ChosenIsUnique` | ios/Pods/leveldb-library/db/version_set.cc:1403-1462 | these rules leave one choice of inputs for each set of files to start from |
| `Picker.VersionSet.PickCompaction` | ios/Pods/leveldb-library/db/version_set.cc:1270-1321 | the inputs are those chosen from one file, at level 0 with all files it overlaps in turn: for a size compaction the first file past the compaction pointer, wrapping round, for a seek compaction its file; nothing else moves the pointer |
| `Picker.VersionSet.CompactRange` | ios/Pods/leveldb-library/db/version_set.cc:1464-1495 | nothing if and only if no file overlaps the range; otherwise the inputs chosen from the files of the range, above level 0 from the fewest of them that reach the byte limit; every file of the range left out starts past the largest input key |
| `Picker.PickLevelForMemTableOutput` | ios/Pods/leveldb-library/db/version_set.cc:491-516 | the deepest level up to 2 that single pushes reach without overlap above and without too many grandparent bytes; nothing at or above it overlaps when it is above 0 |
| `MergeInputs.MergeFiles` | ios/Pods/leveldb-library/db/version_set.cc:1237-1268 | one cursor per level-0 file and one per other level, merged and read through, give exactly the entries of all inputs in internal key order |
| `Compacting.CompactionScan.IsBaseLevelForKey` | ios/Pods/leveldb-library/db/version_set.cc:1533-1552 | the forward-only pointers agree with a full scan of the deeper levels as long as the keys asked about do not decrease |
| `Compacting.CompactionScan.ShouldStopBefore` | ios/Pods/leveldb-library/db/version_set.cc:1554-1576 | stops exactly when the bytes of the grandparents passed since the last stop exceed the limit, and then starts counting from zero |
| `Compacting.DoCompactionWork` | ios/Pods/leveldb-library/db/db_impl.cc:878-1040 | the tables made are sorted, numbered consecutively and disjoint, and hold in order exactly the entries that survive the two drop rules; each but the last ends exactly where the file size limit is reached or at a key before which too many grandparent bytes have passed since the last such key, and nowhere else |
| `Compacting.SurvivorsLegal` | ios/Pods/leveldb-library/db/db_impl.cc:930-966 | what survives is still sorted and has valid internal keys |
| `Compacting.ReadsKeptIffNoResurrection` | ios/Pods/leveldb-library/db/db_impl.cc:930-966 | dropping entries leaves every read at or above the smallest snapshot unchanged if and only if no dropped deletion marker uncovers an older value outside the inputs |
| `Compacting.OneOldVersionSurvives` | ios/Pods/leveldb-library/db/db_impl.cc:930-966 | of all entries of a user key up to the smallest snapshot at most one survives |
| `Compacting.ObsoleteMarkersGo` | ios/Pods/leveldb-library/db/db_impl.cc:947-962 | a deletion marker up to the smallest snapshot survives only above a level that may hold its key |
| `VersionBuilder.SaveLevel` | ios/Pods/leveldb-library/db/version_set.cc:695-754 | merging the added files into the base files and leaving out the deleted ones |
| `VersionBuilder.MergeOrderedIffNoCommonSlot` | ios/Pods/leveldb-library/db/version_set.cc:695-739 | the merge of two ordered file lists is strictly ordered if and only if no added file has the smallest key and number of a base file |
| `VersionBuilder.Builder.Apply` | ios/Pods/leveldb-library/db/version_set.cc:650-692 | per level, the deleted numbers grow, and an added file is taken back out of them; a level's compaction pointer becomes the last one the edit names for it |
| `VersionBuilder.Builder.SaveTo` | ios/Pods/leveldb-library/db/version_set.cc:695-739 | every level of the new version is the merge of base and added files without the deleted ones |
| `VersionBuilder.RecoverEqualsInstall` | ios/Pods/leveldb-library/db/version_set.cc:801-821 | applying all edits through one builder gives the same files in the same order as installing them one by one, for any ordered base, when file numbers identify tables and no edit re-adds a file |
| `VersionBuilder.RecoverAgreesIffNeverReAdded` | ios/Pods/leveldb-library/db/version_set.cc:886-997 | recovery from the empty version agrees with installing for every prefix of the log if and only if no edit adds a file that the version it is applied to already lists |
| `VersionBuilder.ReAddedFileIsDoubled` | ios/Pods/leveldb-library/db/version_set.cc:695-754 | the input for which it fails: two edits adding one file install it twice and recover it once |
| `EditCodec.VersionEdit.EncodeTo` | ios/Pods/leveldb-library/db/version_edit.cc:41-85 | appends the fields that are set, in the code's order, each with its tag, and the deleted files in set order |
| `EditCodec.VersionEdit.DecodeFrom` | ios/Pods/leveldb-library/db/version_edit.cc:107-205 | reads any bytes field by field, failing at the first that does not parse; the compaction pointers of before stay because Clear keeps them |
| `EditCodec.EditRoundTrip` | ios/Pods/leveldb-library/db/version_edit.cc:41-205 | every edit whose levels and key lengths fit decodes from its encoding to itself |
| `Manifest.Recover` | ios/Pods/leveldb-library/db/version_set.cc:886-997 | for any manifest bytes, succeeds if and only if the log reader drops nothing, every record decodes with this comparator name, and the three numbers are set; then the levels are those of the builder after all edits |
| `Manifest.PrefixRecovers` | ios/Pods/leveldb-library/db/version_set.cc:886-997 | the manifest of a list of edits, cut after any byte, reads as exactly the edits wholly written, and their levels are those of the version installed after the last of them |
| `Manifest.RecoverAfterCrash` | ios/Pods/leveldb-library/db/version_set.cc:886-997 | recovery from such a manifest succeeds if and only if the edits wholly written set the three numbers, and then gives these numbers and, at all levels, the version installed after the last of them |
| `Manifest.LastNumbersAreLast` | ios/Pods/leveldb-library/db/version_set.cc:886-997 | each of the three numbers is that of the last edit that sets it |
| `Manifest.KeyReadsBack` | ios/Pods/leveldb-library/db/dbformat.cc:14-25 | an internal key as it is written is understood as that user key, sequence number and type |
| `LevelMoves.FlushKeepsInvariant` | ios/Pods/leveldb-library/db/db_impl.cc:491-533 | adding a table from the memtable at the level chosen for it keeps the level invariants and adds exactly its entries |
| `LevelMoves.MovedKeepsInvariant` | ios/Pods/leveldb-library/db/db_impl.cc:860-876 | replacing compaction inputs by sorted, disjoint tables of their entries one level down keeps the level invariants |
| `Database.StepKeepsStructure` | ios/Pods/leveldb-library/db/db_impl.cc:491-566 | every write, memtable switch, flush, compaction, file move, snapshot and release keeps the level invariants: sorted and disjoint levels, newer entries above older ones, level-0 ages by file number |
| `Database.RunKeepsStructure` | ios/Pods/leveldb-library/db/db_impl.cc:688-767 | these invariants hold in every state reachable from the empty database |
| `Database.CompactKeepsReadsIffSafe` | ios/Pods/leveldb-library/db/db_impl.cc:878-1040 | a compaction step keeps all reads from the smallest snapshot up if and only if it resurrects no user key |
| `Database.StepKeepsReads` | ios/Pods/leveldb-library/db/db_impl.cc:878-1040 | any step keeps them if and only if it is not a compaction that resurrects a key |
| `Database.RunReadsAgree` | ios/Pods/leveldb-library/db/db_impl.cc:1100-1145 | after any run of safe steps every live snapshot reads what a plain history of all writes gives |
| `Database.GetOnRun` | ios/Pods/leveldb-library/db/db_impl.cc:1100-1145 | Get on any state of such a run returns the read of the history |
| `SplitKeys.NoSplitIsSafe` | ios/Pods/leveldb-library/db/version_set.cc:1403-1462 | a compaction is safe when no file left out of the next level shares a user key with a file taken from it, which file metadata shows |
| `SplitKeys.RunWithoutSplitsReadsAgree` | ios/Pods/leveldb-library/db/version_set.cc:1403-1462 | in every run whose compactions split no user key this way, every live snapshot reads what was written |
| `SplitKeys.DeletedKeyComesBack` | ios/Pods/leveldb-library/db/version_set.cc:1403-1462 | a run of eleven steps from the empty database, all but the last safe, whose last compaction makes a deleted key readable again |
| `DBImpl.LogAndApply` | ios/Pods/leveldb-library/db/version_set.cc:801-821 | the installed levels are what the builder makes of the one edit, level by level |
| `DBImpl.InstalledMoves` | ios/Pods/leveldb-library/db/version_set.cc:801-821 | installing a compaction's edit replaces exactly its inputs by its outputs one level down |
| `DBImpl.InstalledFlush` | ios/Pods/leveldb-library/db/version_set.cc:801-821 | installing a flush's edit adds exactly its table to its level |
| `DBImpl.DB.Write` | ios/Pods/leveldb-library/db/db_impl.cc:1185-1256 | a step of the state machine: the operations of the batch get the next sequence numbers and go into the skip list of the memtable |
| `DBImpl.DB.CompactMemTable` | ios/Pods/leveldb-library/db/db_impl.cc:491-566 | a step of the state machine: the immutable memtable becomes one table at the deepest level, up to 2, that single pushes reach without overlap there and without too many grandparent bytes |
| `DBImpl.DB.BackgroundCompaction` | ios/Pods/leveldb-library/db/db_impl.cc:688-767 | a step of the state machine on exactly the inputs that are picked for the trigger, or nothing when there is none: a file moves when it is alone and few bytes overlap two levels down, and otherwise the inputs are merged into tables that end where they must; only the pointer of the level moves |
| `DBImpl.DB.ManualCompaction` | ios/Pods/leveldb-library/db/db_impl.cc:688-767 | one manual compaction of a range: nothing if and only if no file of the level overlaps it; otherwise the compaction of the inputs chosen for the range, after which the level lists fewer files and those still in the range lie past where it ended |
| `DBImpl.DB.CompactLevel` | ios/Pods/leveldb-library/db/db_impl.cc:585-622 | each step is the compaction of what is left of the range from where the one before ended; this terminates with no file of the level in the range; other levels but the next stay as they were |
| `DBImpl.DB.CompactMemTables` | ios/Pods/leveldb-library/db/db_impl.cc:624-638 | the immutable memtable, if there is one, and then the other are flushed, each as CompactMemTable does, and nothing else happens |
| `DBImpl.DB.CompactRange` | ios/Pods/leveldb-library/db/db_impl.cc:568-583 | compacting a range takes flushes and, above the deepest level that had a file in it, compactions of what is left of the range, and no other steps; it terminates with both memtables flushed and no file in the range above that level |
| `DBImpl.DB.GetSnapshot` | ios/Pods/leveldb-library/db/db_impl.cc:1166-1169 | a step of the state machine that adds a snapshot at the last sequence number |
| `DBImpl.DB.Release` | ios/Pods/leveldb-library/db/db_impl.cc:1171-1175 | a step of the state machine that takes out one snapshot |
| `DBImpl.DB.NewInternalIterator` | ios/Pods/leveldb-library/db/db_impl.cc:1062-1087 | a merging iterator over exactly the stored entries |
| `DBImpl.DB.NewIterator` | ios/Pods/leveldb-library/db/db_impl.cc:1147-1157 | an iterator whose keys and values are, in order, exactly those the history reads at the snapshot |
| `DBImpl.DB.Get` | ios/Pods/leveldb-library/db/db_impl.cc:1100-1145 | the value the history reads at the snapshot |
| `DBIterator.ViewIsSnapshot` | ios/Pods/leveldb-library/db/db_iter.cc:141-309 | the view an iterator walks pairs a user key with a value if and only if reading that key at the snapshot gives that value |
| `DBIterator.DBIter.YieldsView` | ios/Pods/leveldb-library/db/db_iter.cc:63-76 | a valid iterator stands at a position of the view and gives the key and value there |
| `DBIterator.DBIter.Seek` | ios/Pods/leveldb-library/db/db_iter.cc:269-281 | lands on the first key of the view at or after the target |
| `DBIterator.DBIter.Next` | ios/Pods/leveldb-library/db/db_iter.cc:141-198 | one position forward in the view, from either direction |
| `DBIterator.DBIter.Prev` | ios/Pods/leveldb-library/db/db_iter.cc:200-267 | one position back in the view, from either direction, or invalid before the first |
| `DBIterator.DBIter.SeekToFirst` | ios/Pods/leveldb-library/db/db_iter.cc:283-292 | the first position of the view |
| `DBIterator.DBIter.SeekToLast` | ios/Pods/leveldb-library/db/db_iter.cc:294-299 | the last key of the view |
| `Merger.MergingIterator.Seek` | ios/Pods/leveldb-library/table/merger.cc:47-53 | the first entry of the sorted union of the children at or after the target |
| `Merger.MergingIterator.Next` | ios/Pods/leveldb-library/table/merger.cc:55-79 | one entry forward in the union, from either direction |
| `Merger.MergingIterator.Prev` | ios/Pods/leveldb-library/table/merger.cc:81-108 | one entry back in the union, from either direction |
| `TwoLevel.TwoLevelIterator.Seek` | ios/Pods/leveldb-library/table/two_level_iterator.cc:82-87 | the first entry of the concatenated blocks at or after the target, found through the separators |
| `TwoLevel.TwoLevelIterator.Next` | ios/Pods/leveldb-library/table/two_level_iterator.cc:103-107 | one entry forward in the concatenation, over empty blocks |
| `TwoLevel.TwoLevelIterator.Prev` | ios/Pods/leveldb-library/table/two_level_iterator.cc:109-113 | one entry back in the concatenation, over empty blocks |
| `BlockFormat.EntryBack` | ios/Pods/leveldb-library/table/block.cc:54-74 | DecodeEntry undoes the encoding of an entry, on the fast path and on the slow one |
| `BlockBuilding.BlockBuilder.Add` | ios/Pods/leveldb-library/table/block_builder.cc:72-106 | the layout grows by exactly the entry, which shares with the key before it all it can, or nothing at a restart point |
| `BlockBuilding.BlockBuilder.Finish` | ios/Pods/leveldb-library/table/block_builder.cc:62-70 | below 4 GB the finished block is a well-formed layout of exactly the added entries, and opens at its restart array |
| `BlockIteration.Iter.Seek` | ios/Pods/leveldb-library/table/block.cc:163-201 | the binary search over restart points and the scan land on the first entry at or after the target |
| `BlockIteration.Iter.Next` | ios/Pods/leveldb-library/table/block.cc:137-140 | the next of the added entries, with its key and value |
| `BlockIteration.Iter.Prev` | ios/Pods/leveldb-library/table/block.cc:142-161 | the entry before, or none before the first |
| `BlockIteration.Iter.SeekToLast` | ios/Pods/leveldb-library/table/block.cc:208-213 | the last entry |
| `Comparators.FindShortestSeparator` | ios/Pods/leveldb-library/util/comparator.cc:29-50 | the scan and the edit in place compute the specified separator |
| `Comparators.FindShortSuccessor` | ios/Pods/leveldb-library/util/comparator.cc:52-64 | the scan and the edit in place compute the specified successor |
| `Comparators.BytewiseIsLawful` | ios/Pods/leveldb-library/util/comparator.cc:25-64 | byte order is a total order; a separator is at or after its start and before its limit, and a successor is at or after its key |
| `Comparators.SeparatorIsShortest` | ios/Pods/leveldb-library/util/comparator.cc:29-50 | when the two keys part by more than one, the separator comes after the start and no key from the start to the limit is shorter; otherwise the start stays |
| `Comparators.SuccessorIsShortest` | ios/Pods/leveldb-library/util/comparator.cc:52-64 | no key at or after the key is shorter than its successor, which comes after the key unless that is all 0xff |
| `Comparators.InternalIsLawful` | ios/Pods/leveldb-library/db/dbformat.cc:69-101 | shortening the user key inside internal keys keeps the same promises, for any lawful user comparator |
| `Comparators.InternalSeparatorIsShort` | ios/Pods/leveldb-library/db/dbformat.cc:69-86 | over byte strings an internal key is shortened exactly when its user key can be, to the first internal key of the shortest user key between the two |
| `Comparators.InternalSuccessorIsShort` | ios/Pods/leveldb-library/db/dbformat.cc:88-101 | and so is a successor |
| `Comparators.NothingBetween` | ios/Pods/leveldb-library/db/dbformat.cc:69-86 | a key after the start that the shortened separator still covers has a smaller user key than the limit |
| `Bloom.CreateFilter` | ios/Pods/leveldb-library/util/bloom.cc:28-54 | appends a bit array of the least number of bytes, and no less than eight, that give every key its bits, in which exactly the probes of the keys are set, and the number of probes |
| `Bloom.AddedKeyMatches` | ios/Pods/leveldb-library/util/bloom.cc:28-80 | a key the filter was made of matches, for every hash function, number of bits and number of probes |
| `Bloom.MatchesIff` | ios/Pods/leveldb-library/util/bloom.cc:28-80 | any key matches if and only if each of its probes, taken in that many bits, is a probe of some added key, or the number of probes is above 30 |
| `Bloom.Rotates` | ios/Pods/leveldb-library/util/bloom.cc:47 | the step between probes is the hash with its low 17 bits on top |
| `FilterBlock.BloomIsSound` | ios/Pods/leveldb-library/include/leveldb/filter_policy.h:37-51 | the Bloom filter is a policy without false negatives, as the interface asks |
| `FilterBlock.FilterBlockBuilder.StartBlock` | ios/Pods/leveldb-library/table/filter_block.cc:21-27 | makes filters up to the one for the offset; the first of them is of exactly the keys added since the last |
| `FilterBlock.FilterBlockBuilder.Finish` | ios/Pods/leveldb-library/table/filter_block.cc:35-49 | the block is the filters, one offset for each, where the offsets start, and the base |
| `FilterBlock.ReaderAsksTheFilter` | ios/Pods/leveldb-library/table/filter_block.cc:77-105 | a reader of a finished filter block says of a key and a block offset exactly what the policy says of the filter for that range of offsets, and yes beyond the last |
| `TableFormat.HandleRoundTrip` | ios/Pods/leveldb-library/table/format.cc:15-29 | a block handle decodes from its encoding |
| `TableFormat.FooterRoundTrip` | ios/Pods/leveldb-library/table/format.cc:31-62 | the padded footer decodes to both handles |
| `TableFormat.FooterIsPadded` | ios/Pods/leveldb-library/table/format.cc:31-38 | a footer is the handles, zeros up to their largest length, and the magic number |
| `TableFormat.StoredReadsBack` | ios/Pods/leveldb-library/table/format.cc:64-138 | a block written with its type and masked checksum is read back, checked or not |
| `TableFormat.OnlyStoredIsRead` | ios/Pods/leveldb-library/table/format.cc:64-138 | with checksums, a block that is handed out lies in the file as it was written |
| `TableFormat.OnlyMagicIsFooter` | ios/Pods/leveldb-library/table/format.cc:40-62 | a footer is refused for its magic number if and only if it does not end in that number |
| `TableBuilding.TableBuilder.Add` | ios/Pods/leveldb-library/table/table_builder.cc:94-123 | the table grows by exactly the entry; the open data block goes to the file when it has reached its size, and not before |
| `TableBuilding.TableBuilder.Flush` | ios/Pods/leveldb-library/table/table_builder.cc:125-139 | the open data block becomes a block of the file whose keys the filters cover |
| `TableBuilding.TableBuilder.Finish` | ios/Pods/leveldb-library/table/table_builder.cc:198-253 | a file below 4 GB is a finished table of exactly the added entries: data blocks, separators between them in the index, a filter covering the keys of each block, and a footer that leads to it all |
| `TableReading.BuiltOpens` | ios/Pods/leveldb-library/table/table.cc:38-82 | the footer and the index block of a finished table are found, with or without checksum checks |
| `TableReading.TableReader.Open` | ios/Pods/leveldb-library/table/table.cc:38-132 | for any file the status is what its footer, index block and their checksums call for; a finished table opens with the filters that were written |
| `TableReading.BuiltHasMeta` | ios/Pods/leveldb-library/table/table_builder.cc:198-253 | a finished table meets what Open asks: its metaindex block is a block |
| `TableReading.TableReader.InternalGet` | ios/Pods/leveldb-library/table/table.cc:216-244 | reports nothing but the first entry at or after the key, and exactly when the block that the index leads to has it and its filter lets the key pass; so it does when that entry has the same key in any sense that the comparator and the filter respect |
| `TableReading.SameUserKeysSuit` | ios/Pods/leveldb-library/db/dbformat.cc:69-119 | having the same user key is such a sense for internal keys: neither the index separators nor the filters on user keys hide an entry |
| `TableReading.EqualKeysSuit` | ios/Pods/leveldb-library/table/table.cc:216-244 | equality is such a sense for every lawful comparator and every filter without false negatives |
| `TableIterating.TableIterator.Seek` | ios/Pods/leveldb-library/table/table.cc:210-214 | over the real blocks of a finished table: the first of its entries at or after the key |
| `TableIterating.TableIterator.SeekToFirst` | ios/Pods/leveldb-library/table/two_level_iterator.cc:89-94 | the first entry of the table |
| `TableIterating.TableIterator.SeekToLast` | ios/Pods/leveldb-library/table/two_level_iterator.cc:96-101 | the last entry of the table |
| `TableIterating.TableIterator.Next` | ios/Pods/leveldb-library/table/two_level_iterator.cc:103-145 | the next entry of the table, from block to block |
| `TableIterating.TableIterator.Prev` | ios/Pods/leveldb-library/table/two_level_iterator.cc:109-161 | the entry before, or none before the first |
| `LogWriter.Writer.AddRecord` | ios/Pods/leveldb-library/db/log_writer.cc:34-80 | appends the record cut into fragments at block boundaries, with padded trailers |
| `LogFormat.OnlyTheLastFallsShort` | ios/Pods/leveldb-library/db/log_writer.cc:34-80 | every fragment of a record but its last fills its block |
| `LogReader.Reader.ReadPhysicalRecord` | ios/Pods/leveldb-library/db/log_reader.cc:189-271 | block-wise reading of any file agrees with parsing at the position reached, with the same drops reported |
| `LogReader.Reader.ReadRecord` | ios/Pods/leveldb-library/db/log_reader.cc:56-174 | for any file, the next logical record, its offset and what is dropped before it, as the fragment rules say |
| `LogRoundTrip.PrefixReadsWholeRecords` | ios/Pods/leveldb-library/db/log_writer.cc:27-108 | a log cut after any byte gives back exactly the records wholly inside, in order, and reports nothing as corrupt |
| `LogRoundTrip.RoundTrip` | ios/Pods/leveldb-library/db/log_writer.cc:27-108 | a whole log gives back every record |
| `LogRoundTrip.AllReadWasWritten` | ios/Pods/leveldb-library/db/log_reader.cc:56-271 | with checksums, every record read from any file was written there: its fragments lie in the file in order, each with the header and checksum the writer gives it |
| `LogRoundTrip.WriteCrashRead` | ios/Pods/leveldb-library/db/log_reader.cc:56-174 | writing, reopening in the middle, cutting and reading, by the methods themselves |
| `LogRecovery.RecoverLogFile` | ios/Pods/leveldb-library/db/db_impl.cc:371-489 | for any log bytes: with paranoid checks it succeeds if and only if the reader drops nothing and every record is a whole batch; then, and always without them, the tables and the memtable hold in order the operations of the records under their sequence numbers, cut where the memtable is full, and the largest number is tracked |
| `LogRecovery.WritesAreHistory` | ios/Pods/leveldb-library/db/db_impl.cc:1185-1256 | the batches of any stretch of a run with one memtable are exactly what it added to the history and to the memtable |
| `LogRecovery.RecoverAfterCrash` | ios/Pods/leveldb-library/db/db_impl.cc:371-489 | the log of a memtable, cut after any byte: recovery succeeds and gives the memtable exactly as it was at some moment of the run, with the sequence number of then |
| `LogFormat.UnmaskMask` | ios/Pods/leveldb-library/util/crc32c.h:29-38 | unmasking undoes masking |
| `Crc32c.Extend` | ios/Pods/leveldb-library/util/crc32c.cc:276-377 | four interleaved strides, recombined, with any alignment and length, give the CRC-32C of one byte at a time (section 12.1 of RFC 3720) |
| `Crc32c.ExtendsValue` | ios/Pods/leveldb-library/util/crc32c.h:14-20 | extending the checksum of one string by another gives that of their concatenation |
| `Crc32c.TableEntries` | ios/Pods/leveldb-library/util/crc32c.cc:20-64 | every entry of the byte table is the xor of the literal entries at the powers of two that make up its index |
| `Coding.VarintRoundTrip` | ios/Pods/leveldb-library/util/coding.cc:47-140 | 32-bit varints read back, with what follows untouched |
| `Coding.Varint64RoundTrip` | ios/Pods/leveldb-library/util/coding.cc:81-169 | so do 64-bit ones |
| `Coding.LengthPrefixedRoundTrip` | ios/Pods/leveldb-library/util/coding.cc:98-192 | so do length-prefixed strings below 4 GB |
| `Coding.ReadVarint` | ios/Pods/leveldb-library/util/coding.cc:112-157 | the decoding loops compute the specified parse on any bytes, malformed ones too |
| `Coding.AnyVarint` | ios/Pods/leveldb-library/util/coding.cc:112-157 | that parse succeeds if and only if the varint ends within five or ten bytes, and gives its bits in 32 or 64 |
| `WriteBatches.WriteBatch.Iterate` | ios/Pods/leveldb-library/db/write_batch.cc:42-80 | any representation: the operations parsed up to the first malformed one, and success only if they are as many as the count says |
| `WriteBatches.WriteBatch.Append` | ios/Pods/leveldb-library/db/write_batch.cc:144-148 | the operations of one batch after those of the other |
| `WriteBatches.WriteBatch.SetSequence` | ios/Pods/leveldb-library/db/write_batch.cc:94-96 | the batch keeps its operations under another first sequence number |
| `WriteBatches.WriteBatch.InsertInto` | ios/Pods/leveldb-library/db/write_batch.cc:115-137 | for any representation, what comes before the first fault, numbered consecutively, and success only for a whole batch; for a batch made by Put and Delete, its operations from its sequence number on |
| `WriteBatches.ParseEncoded` | ios/Pods/leveldb-library/db/write_batch.cc:42-109 | operations written one after another are read back in order |
| `BatchGroup.BuildBatchGroup` | ios/Pods/leveldb-library/db/db_impl.cc:1260-1306 | the batch returned holds, in queue order, the operations of the writers it covers, which are those the size and sync limits allow |
| `WriteQueue.GroupIsLongest` | ios/Pods/leveldb-library/db/db_impl.cc:1260-1306 | a group is as long as can be without a sync write riding on one that is not, and within the size its leader allows |
| `WriteQueue.CompletedOnceInOrder` | ios/Pods/leveldb-library/db/db_impl.cc:1185-1256 | over every interleaving: the writers completed and those queued are all the writers in order of arrival, and a writer is done exactly when it is among the completed |
| `WriteQueue.StatusIsFinal` | ios/Pods/leveldb-library/db/db_impl.cc:1185-1256 | what a completed writer is told never changes |
| `WriteQueue.RangesAreConsecutive` | ios/Pods/leveldb-library/db/db_impl.cc:1200-1248 | groups take consecutive, disjoint ranges of sequence numbers, after errors too |
| `WriteQueue.GroupsAppearWhole` | ios/Pods/leveldb-library/db/db_impl.cc:1200-1248 | the memtable holds whole groups in order up to the last sequence number readers may use, and numbers only increase |
| `WriteQueue.SyncWritesAreSynced` | ios/Pods/leveldb-library/db/db_impl.cc:1200-1248 | a sync write that succeeded is in a log record that was synced |
| `WriteQueue.NothingAfterSyncError` | ios/Pods/leveldb-library/db/db_impl.cc:1215-1233 | after a failed sync no write succeeds |
| `SkipList.List.FindGreaterOrEqual` | ios/Pods/leveldb-library/db/skiplist.h:260-280 | the node at the key's position in the bottom list, and its predecessor on every level |
| `SkipList.List.FindLessThan` | ios/Pods/leveldb-library/db/skiplist.h:283-302 | the node before the key's position |
| `SkipList.List.FindLast` | ios/Pods/leveldb-library/db/skiplist.h:304-322 | the last node, or the head of an empty list |
| `SkipList.List.PublishLink` | ios/Pods/leveldb-library/db/skiplist.h:364-366 | each single store that links a node keeps the list well formed and only extends it |
| `SkipList.List.Insert` | ios/Pods/leveldb-library/db/skiplist.h:336-368 | the keys are the old ones with the new one at its position, for any height; after each of its stores the list is consistent and has only grown, and its bottom level is the old one or the new one |
| `SkipList.List.Contains` | ios/Pods/leveldb-library/db/skiplist.h:370-378 | true if and only if the key is in the list |
| `SkipList.ListIterator.Prev` | ios/Pods/leveldb-library/db/skiplist.h:213-221 | the node before, found by searching |
| `SkipListReaders.WriterLeavesOnTrack` | ios/Pods/leveldb-library/db/skiplist.h:260-280 | a store of the writer in the middle of a search does not mislead it |
| `SkipListReaders.SearchIsLinearizable` | ios/Pods/leveldb-library/db/skiplist.h:260-280 | a search that runs while a writer inserts returns what was the first node at or after the key at some moment during the search |
| `SkipListReaders.OverlappedSearchIsRight` | ios/Pods/leveldb-library/db/skiplist.h:260-280 | so does one that runs during any stores that grow the list |
| `SkipListReaders.SearchDuringInsert` | ios/Pods/leveldb-library/db/skiplist.h:336-368 | a search that runs during the stores of one insertion gives what one before it or one after it gives |
| `HandleTable.Table.Find` | ios/Pods/leveldb-library/util/cache.cc:74-76 | the one entry with the key and hash, or null |
| `HandleTable.Table.Insert` | ios/Pods/leveldb-library/util/cache.cc:78-92 | the entry takes the place of the one that matches it, which is returned; the table grows exactly when there would be more entries than buckets, to the least power of two that is enough |
| `HandleTable.Table.Remove` | ios/Pods/leveldb-library/util/cache.cc:94-102 | takes out exactly the entry that matches |
| `HandleTable.Table.Resize` | ios/Pods/leveldb-library/util/cache.cc:122-146 | rehashing keeps exactly the same entries |
| `LruCache.Cache.EntryIsDeletedOnce` | ios/Pods/leveldb-library/util/cache.cc:217-237 | in every reachable cache: an entry is deleted exactly when neither the cache nor a client refers to it, and only once; cached entries are on the list their references dictate; usage is the sum of the charges |
| `LruCache.Cache.Lookup` | ios/Pods/leveldb-library/util/cache.cc:252-259 | the matching entry with one more client reference |
| `LruCache.Cache.Release` | ios/Pods/leveldb-library/util/cache.cc:261-264 | one reference less, and deletion with the last |
| `LruCache.Cache.Insert` | ios/Pods/leveldb-library/util/cache.cc:266-303 | a new entry with a client reference, cached if there is any capacity; the entry with its key goes first, then idle entries from the oldest on, as few as bring usage within capacity; clients lose nothing |
| `LruCache.Cache.Erase` | ios/Pods/leveldb-library/util/cache.cc:307-321 | takes the key out, deleting its entry only if no client holds it |
| `LruCache.Cache.Prune` | ios/Pods/leveldb-library/util/cache.cc:323-333 | deletes every idle entry, oldest first; what clients hold, and whether it is cached, stays as it was |
| `LruCache.Cache.SetCapacity` | ios/Pods/leveldb-library/util/cache.cc:156 | only the capacity changes; nothing is evicted before the next insertion |
| `FileLifetime.NamedTablesAreOnDisk` | ios/Pods/leveldb-library/db/db_impl.cc:223-278 | in every reachable state of flush, compaction, readers and cleanup, with flushes inside compactions and failed manifest writes, every table of every listed version is on disk, and every version held is listed |
| `FileLifetime.CrashLosesNothing` | ios/Pods/leveldb-library/db/db_impl.cc:491-566 | a crash in any such state leaves a manifest whose tables exist and the log of each memtable that is in none of them |
| `FileLifetime.CompactionLeavesNoGarbage` | ios/Pods/leveldb-library/db/db_impl.cc:223-278 | in a run without errors, once a compaction is installed the tables on disk are exactly those listed versions name, so with no reader exactly those of the current version; and no log is left but the memtables' and those the recovered manifest still needs |
| `FileLifetime.FlushLeavesNoGarbage` | ios/Pods/leveldb-library/db/db_impl.cc:223-278 | the same once a flush is installed, but for the outputs of a compaction it interrupts; the log of the memtable flushed is gone |
| `FileLifetime.CleanupByAnotherThreadWouldLose` | ios/Pods/leveldb-library/db/db_impl.cc:535-566 | all this needs the one background thread: a cleanup by another one while an edit is written would delete a new table |
| `PbEncode.WriteVarint` | ios/Pods/nanopb/pb_encode.c:608-628 | writes exactly the varint, or fails exactly when it does not fit |
| `PbEncoder.EncodeArray` | ios/Pods/nanopb/pb_encode.c:147-236 | packed or not, writes the encoding of the array; the size a packed array announces is the size it has |
| `PbEncoder.EncodeSubmessage` | ios/Pods/nanopb/pb_encode.c:717-765 | the sizing pass and the writing pass agree at every depth, so a changed size is never found; fails only for a value that cannot be encoded or for lack of room |
| `PbEncoder.EncodeMessage` | ios/Pods/nanopb/pb_encode.c:528-550 | writes or counts exactly the encoding of the message |
| `PbMeaning.ZeroIsEmpty` | ios/Pods/nanopb/pb_encode.c:240-347 | a submessage without a has_ flag is left out if and only if it would be encoded as nothing |
| `PbDecode.DecodeVarint` | ios/Pods/nanopb/pb_decode.c:255-276 | for any bytes: succeeds if and only if a byte without continuation bit comes within ten, and gives the low 64 bits of the seven-bit groups; so every encoded 64-bit value reads back |
| `PbDecode.DecodeVarint32Eof` | ios/Pods/nanopb/pb_decode.c:187-247 | for any bytes: succeeds exactly when the varint ends and what is past 32 bits is nothing or more of the sign, which of the fifth byte is checked only when it is the last; gives the low 32 bits; so every encoded 32-bit value reads back |
| `PbScalars.ZigZagRoundTrip` | ios/Pods/nanopb/pb_encode.c:630-639 | zig-zag decoding undoes encoding for every 64-bit value |
| `PbScalars.DecodeNumber` | ios/Pods/nanopb/pb_decode.c:1321-1432 | for any bytes: succeeds exactly when a number of the kind stands there and fits its size, and gives it; so every scalar kind and width reads back |
| `PbScalars.DecodeBlob` | ios/Pods/nanopb/pb_decode.c:1434-1548 | for any bytes: succeeds exactly when a length and as many bytes stand there and fit the field, a string with its terminator; so bytes and strings read back exactly when they fit |
| `PbScalars.DecodeString` | ios/Pods/nanopb/pb_decode.c:1471-1504 | succeeds exactly when the string and its terminator fit, and gives what comes before its first zero byte |
| `PbRequired.MarkSeen` | ios/Pods/nanopb/pb_decode.c:1015-1020 | sets the bit of the required field, however many there are |
| `PbRequired.AllSeen` | ios/Pods/nanopb/pb_decode.c:1033-1073 | true if and only if every required field within the limit of the bit set was seen |
| `PbFieldIter.FieldIter.Find` | ios/Pods/nanopb/pb_common.c:78-95 | finds the tag if and only if the descriptor has it, from any position |
| `PbDecoder.DecodeSubmessage` | ios/Pods/nanopb/pb_decode.c:1506-1528 | decodes a submessage into what is there, or into defaults in an array, and consumes exactly its bytes |
| `PbDecoder.SkipField` | ios/Pods/nanopb/pb_decode.c:326-336 | succeeds if and only if the value that the wire type announces is there in full, and skips exactly that |
| `PbDecoder.DecodeMessage` | ios/Pods/nanopb/pb_decode.c:928-1075 | the bytes of any sequence of field records, with whole unknown fields anywhere between them and perhaps a zero tag at the end, give what storing the records one by one gives, with the same failures; an unknown field cut short or of no wire type fails; on any bytes the result is well typed |
| `PbMeaning.LastValueCounts` | ios/Pods/nanopb/pb_decode.c:406-560 | after any records a single value is that of the last record for its field, or what was there |
| `PbMeaning.ArraysGrow` | ios/Pods/nanopb/pb_decode.c:406-560 | an array has what it had and then the items of its records in order, packed or not |
| `PbMeaning.LastMemberCounts` | ios/Pods/nanopb/pb_decode.c:406-560 | a union holds the member of the last record for any of its members |
| `PbDecoder.MessageToDefaults` | ios/Pods/nanopb/pb_decode.c:911-922 | every field is at its default, whatever the memory held |
| `PbRoundTrip.MessageBack` | ios/Pods/nanopb/pb_decode.c:928-1090 | storing the records of a message succeeds if and only if all its strings are terminated, and then restores it with absent fields at their defaults |
| `PbCodec.EncodedSize` | ios/Pods/nanopb/pb_encode.c:567-576 | the size is that of the encoding |
| `PbCodec.EncodeThenDecode` | ios/Pods/nanopb/pb_decode.c:1078-1090 | encoding to a buffer and decoding succeeds if and only if the message can be encoded, fits, and has its strings terminated, and then gives the message back |
| `PbCompat.OlderReadsNewer` | ios/Pods/nanopb/pb_decode.c:928-1090 | decoding with an older descriptor what was encoded with one that has more fields succeeds if and only if the message can be encoded, fits, and has the strings of its old part terminated, and then gives the old part back |

## Left out

- A memtable flush inside a running compaction, except in `FileLifetime`: the store's state machine takes flush and
  compaction as separate steps.
- A memtable switch inside the write queue: `WriteQueue` has making room as one step that may fail.
- `DBImpl::MakeRoomForWrite`'s delays and its return of an unused file number; a switch that fails leaves the state as
  it was.
- Opening a database as a whole (`DBImpl::Recover`): `Manifest` and `LogRecovery` model its parts, the manifest and one
  log; which logs it reads is in `FileLifetime`. Also `repair.cc`, `DestroyDB` and the wrappers (`c.cc`, `dumpfile.cc`).
- LogRecovery.RecoverLogFile: the tables it writes are the entries given to `WriteLevel0Table`, which does not fail
  here; the memtable is a sequence, since a damaged log may hold one key twice, which the skip list does not allow.
- LogRecovery.RecoverAfterCrash: batches of two billion operations and more, whose count the code takes for negative.
- Locks, clocks, threads, I/O errors outside `FileLifetime` and `WriteQueue`, memory-mapped files and loggers.
- Weak memory ordering: the skip list and the queues take sequentially consistent steps.
- Database.CompactKeepsReadsIffSafe: its compaction step is more permissive than the code. It allows any division
  of the output into tables, and a compaction or move of one file where the code would do the other.
- Database.RunReadsAgree: holds for runs of safe steps, because unsafe compactions exist; see Findings.
- Compaction scores, seek statistics and read sampling: what triggers a compaction is a parameter.
- DBImpl.LogAndApply: the builder's part. Writing the edit to the manifest is in `EditCodec` and `Manifest`, what
  happens to files when that fails in `FileLifetime`; the log and file numbers of the edit are not part of it here.
- DBImpl.DB.Write: the memtable's part. The log record, syncing and grouping of writers are in `WriteQueue` and
  `BatchGroup`, and what the log gives back after a crash in `LogRecovery`.
- MemTables.MemTable.Add: entries are keys and values of a node, not bytes of an arena; `ApproximateMemoryUsage` is not
  modelled.
- Files.FindFile: the midpoint is not computed in 32 bits, so levels of 2 billion files and more are not covered.
- Entries with corrupt internal keys, and blocks damaged in a way their checksum does not show.
- TableReading.TableReader.Open: a metaindex block that passes its checksum and yet is no block.
- TableReading.TableReader.InternalGet: proved for tables the builder finished. Opening any other bytes is modelled
  (`TableReading.TableReader.Open`), but not iterating a damaged block.
- TwoLevel.TwoLevelIterator.Seek: over sorted blocks of any kind. For the real blocks of one table the same is proved
  in `TableIterating`; the iterator over the files of a level is one cursor over their concatenation.
- TableBuilding.TableBuilder.Finish: files of 4 GB and more, where 32-bit offsets are cut off, and Snappy compression.
- The table and block caches on the read path, `Table::ApproximateOffsetOf` and `TableBuilder::ChangeOptions`.
- Compacting.DoCompactionWork: the size of a growing table is a function of its entries, passed in.
- LogReader.Reader.ReadRecord: reading starts at offset 0 (`initial_offset` is not modelled).
- Merger.MergingIterator.Next: children share no key; internal keys are unique because sequence numbers are.
- LruCache.Cache.Insert: the sixteen shards of the sharded cache are not modelled, and all a deleter does is to record
  the entry.
- HandleTable.Table.Find: the bucket is the remainder by the power-of-two length, which is what the mask computes.
- `std::sort`, `std::set` and `std::upper_bound` are functions with their usual meaning.
- Wrap-around of `size_t`, of file sizes and of sequence numbers beyond 56 bits.
- The literals of the CRC stride tables are assumed to satisfy their defining equations; those of the byte table are
  proved to (`Crc32c.TableEntries`).
- PbFieldIter.FieldIter.Find: field number 0 in an empty descriptor, where the code finds the terminator; the encoder
  never writes that number.
- PbDecode.DecodeVarint32Eof: varints of more than 37 bytes, where the bit position overflows its eight bits.
- PbDecoder.DecodeMessage: fields that the descriptor has are as the encoder writes them, in any order, packed or not.
  Overlong tags and lengths of such fields, and unknown fields inside a submessage, have no result stated.
- PbCodec.EncodeThenDecode: extensions, callback and pointer fields, streams with callbacks, offsets of members in
  memory, and the bytes of a string array after the terminator.
- gRPC, Firebase, GoogleUtilities, FMDB and the application itself: network clients, wrappers and user interface.
