/**
 The life of table and log files: db/db_impl.cc and db/version_set.cc, as steps of the one background thread,
 of readers and of writers. A memtable flush and its cleanup may happen inside a running compaction.
 */
module FileLifetime {
  import opened Keys

  type VersionId = nat

  // A version in the version list: the tables it names and its reference count.
  datatype Version = Version(files: set<nat>, refs: nat)

  // What recovery would find in the manifest: the tables and the oldest log it reads.
  datatype Manifest = Manifest(files: set<nat>, log: nat)

  datatype Edit = Edit(added: set<nat>, deleted: set<nat>, log: nat)

  // CompactMemTable: between its file number being taken and the table being built, then while the edit is
  // being written to the manifest with the mutex released.
  datatype Flush = NoFlush | Building(number: nat, base: VersionId, created: bool) | Logging(edit: Edit)

  // BackgroundCompaction, apart from a flush.
  datatype Work =
    | Idle
    | Moving(input: VersionId, edit: Edit)
    | Compacting(input: VersionId, inputs: set<nat>, outputs: set<nat>, broken: bool)
    | Installing(input: VersionId, outputs: set<nat>, edit: Edit)

  datatype State = State(
    tables: set<nat>,                   // table files on disk
    logs: set<nat>,                     // log files on disk
    versions: map<VersionId, Version>,  // the version list
    current: VersionId,
    nextVersion: VersionId,
    readers: multiset<VersionId>,       // versions held by iterators and reads
    pending: set<nat>,                  // pending_outputs_
    nextFile: nat,                      // next_file_number_
    logNumber: nat,                     // log_number_
    memLog: nat,                        // logfile_number_, the log of mem_
    immLog: Option<nat>,                // the log of imm_, if there is one
    immEmpty: bool,                     // whether imm_ has no entries
    bgError: bool,
    flush: Flush,
    work: Work,
    manifests: set<Manifest>,           // what recovery may find, more than one after a failed manifest write
    immTables: set<nat>                 // tables built from imm_ so far
  )

  // ---------------------------------------------------------------------------
  // Pieces of the steps
  // ---------------------------------------------------------------------------

  function Apply(m: Manifest, e: Edit): Manifest {
    Manifest(m.files - e.deleted + e.added, e.log)
  }

  function ApplyAll(ms: set<Manifest>, e: Edit): set<Manifest> {
    set m | m in ms :: Apply(m, e)
  }

  // The tables version v names.
  function FilesOf(s: State, v: VersionId): set<nat> {
    if v in s.versions then s.versions[v].files else {}
  }

  function Ref(s: State, v: VersionId): (t: State)
    ensures t == s.(versions := t.versions)
  {
    if v in s.versions then s.(versions := s.versions[v := s.versions[v].(refs := s.versions[v].refs + 1)]) else s
  }

  // A version leaves the list with its last reference.
  function Unref(s: State, v: VersionId): (t: State)
    ensures t == s.(versions := t.versions)
  {
    if v !in s.versions then s
    else if s.versions[v].refs <= 1 then s.(versions := s.versions - {v})
    else s.(versions := s.versions[v := s.versions[v].(refs := s.versions[v].refs - 1)])
  }

  // AddLiveFiles on top of the pending outputs.
  function Live(s: State): set<nat> {
    s.pending + set v, f | v in s.versions && f in s.versions[v].files :: f
  }

  function DeleteObsoleteFiles(s: State): (t: State)
    ensures t == s.(tables := t.tables, logs := t.logs)
  {
    if s.bgError then s
    else s.(tables := s.tables * Live(s), logs := set n | n in s.logs && n >= s.logNumber)
  }

  // LogAndApply after its record was written: the new version takes the place of the current one.
  function Install(s: State, e: Edit): (t: State)
    ensures t == s.(versions := t.versions, current := t.current, nextVersion := t.nextVersion,
                    logNumber := t.logNumber, manifests := t.manifests)
  {
    var files := FilesOf(s, s.current) - e.deleted + e.added;
    var t := Unref(s, s.current);
    t.(versions := t.versions[s.nextVersion := Version(files, 1)], current := s.nextVersion,
       nextVersion := s.nextVersion + 1, logNumber := e.log, manifests := ApplyAll(s.manifests, e))
  }

  // LogAndApply when its record could not be written: recovery may find the record or not.
  function FailInstall(s: State, e: Edit): State {
    s.(manifests := s.manifests + ApplyAll(s.manifests, e), bgError := true)
  }

  // The end of LogAndApply.
  function Logged(s: State, e: Edit, ok: bool): (t: State)
    ensures t == s.(versions := t.versions, current := t.current, nextVersion := t.nextVersion,
                    logNumber := t.logNumber, manifests := t.manifests, bgError := t.bgError)
  {
    if ok then Install(s, e) else FailInstall(s, e)
  }

  // ---------------------------------------------------------------------------
  // Steps
  // ---------------------------------------------------------------------------

  datatype BuildResult = Stored | Empty | Failed | ShuttingDown

  datatype Step =
    | Acquire                            // a read or an iterator takes the current version
    | Release(version: VersionId)
    | SwitchMemTable(empty: bool)        // MakeRoomForWrite
    | BeginFlush                         // WriteLevel0Table, up to the mutex being released
    | CreateTable                        // BuildTable opens the file
    | BuildDone(result: BuildResult)     // the rest of WriteLevel0Table, up to the manifest write
    | FlushLogged(ok: bool)              // the rest of CompactMemTable
    | BeginMove(file: nat)               // a trivial move, up to the manifest write
    | MoveLogged(ok: bool)
    | BeginCompaction(inputs: set<nat>)
    | OpenOutput(created: bool)          // OpenCompactionOutputFile
    | FailCompaction                     // DoCompactionWork ends with an error before installing
    | BeginInstall                       // InstallCompactionResults, up to the manifest write
    | InstallLogged(ok: bool)            // and the rest, with the cleanup after it

  // The conditions the code checks, or that follow from where its threads are.
  predicate Enabled(s: State, step: Step) {
    match step
    case Acquire => true
    case Release(v) => v in s.readers
    case SwitchMemTable(_) => !s.bgError && s.immLog.None?
    case BeginFlush =>
      s.immLog.Some? && s.flush.NoFlush? && (s.work.Compacting? || (s.work.Idle? && !s.bgError))
    case CreateTable => s.flush.Building? && !s.flush.created
    case BuildDone(r) =>
      && s.flush.Building?
      && (r.Stored? ==> s.flush.created && !s.immEmpty)
      && (r.Empty? ==> !s.flush.created && s.immEmpty)
    case FlushLogged(_) => s.flush.Logging?
    case BeginMove(f) =>
      s.work.Idle? && s.flush.NoFlush? && !s.bgError && s.immLog.None? && f in FilesOf(s, s.current)
    case MoveLogged(_) => s.work.Moving?
    case BeginCompaction(inputs) =>
      s.work.Idle? && s.flush.NoFlush? && !s.bgError && s.immLog.None? && inputs <= FilesOf(s, s.current)
    case OpenOutput(_) => s.work.Compacting? && s.flush.NoFlush? && !s.work.broken
    case FailCompaction => s.work.Compacting? && s.flush.NoFlush?
    case BeginInstall => s.work.Compacting? && s.flush.NoFlush? && !s.work.broken
    case InstallLogged(_) => s.work.Installing?
  }

  function DoAcquire(s: State): State {
    Ref(s, s.current).(readers := s.readers + multiset{s.current})
  }

  function DoRelease(s: State, v: VersionId): State {
    Unref(s, v).(readers := s.readers - multiset{v})
  }

  function DoSwitchMemTable(s: State, empty: bool): State {
    s.(nextFile := s.nextFile + 1, logs := s.logs + {s.nextFile}, immLog := Some(s.memLog),
       memLog := s.nextFile, immEmpty := empty, immTables := {})
  }

  function DoCreateTable(s: State): State
    requires s.flush.Building?
  {
    s.(tables := s.tables + {s.flush.number}, flush := s.flush.(created := true))
  }

  function DoBeginMove(s: State, f: nat): State {
    Ref(s, s.current).(work := Moving(s.current, Edit({f}, {f}, s.logNumber)))
  }

  function DoBeginCompaction(s: State, inputs: set<nat>): State {
    Ref(s, s.current).(work := Compacting(s.current, inputs, {}, false))
  }

  function DoOpenOutput(s: State, created: bool): State
    requires s.work.Compacting?
  {
    s.(nextFile := s.nextFile + 1, pending := s.pending + {s.nextFile},
       tables := if created then s.tables + {s.nextFile} else s.tables,
       work := s.work.(outputs := s.work.outputs + {s.nextFile}, broken := !created))
  }

  function DoBeginInstall(s: State): State
    requires s.work.Compacting?
  {
    s.(work := Installing(s.work.input, s.work.outputs, Edit(s.work.outputs, s.work.inputs, s.logNumber)))
  }

  function DoBeginFlush(s: State): State {
    Ref(s, s.current).(flush := Building(s.nextFile, s.current, false),
                       nextFile := s.nextFile + 1, pending := s.pending + {s.nextFile})
  }

  function DoBuildDone(s: State, result: BuildResult): State
    requires s.flush.Building?
  {
    var n := s.flush.number;
    var t := Unref(s, s.flush.base).(pending := s.pending - {n}, flush := NoFlush);
    match result
    case Stored => t.(flush := Logging(Edit({n}, {}, s.memLog)), immTables := s.immTables + {n})
    case Empty => t.(flush := Logging(Edit({}, {}, s.memLog)))
    case Failed => t.(tables := s.tables - {n}, bgError := true)
    case ShuttingDown => t.(bgError := true)
  }

  function DoFlushLogged(s: State, ok: bool): State
    requires s.flush.Logging?
  {
    var t := Logged(s, s.flush.edit, ok).(flush := NoFlush);
    if ok then DeleteObsoleteFiles(t.(immLog := None, immTables := {})) else t
  }

  function DoMoveLogged(s: State, ok: bool): State
    requires s.work.Moving?
  {
    Unref(Logged(s, s.work.edit, ok), s.work.input).(work := Idle)
  }

  // CleanupCompaction and ReleaseInputs, with DeleteObsoleteFiles to follow.
  function Cleanup(s: State, input: VersionId, outputs: set<nat>): State {
    Unref(s, input).(pending := s.pending - outputs, work := Idle)
  }

  function DoInstallLogged(s: State, ok: bool): State
    requires s.work.Installing?
  {
    DeleteObsoleteFiles(Cleanup(Logged(s, s.work.edit, ok), s.work.input, s.work.outputs))
  }

  function DoFailCompaction(s: State): State
    requires s.work.Compacting?
  {
    DeleteObsoleteFiles(Cleanup(s.(bgError := true), s.work.input, s.work.outputs))
  }

  function Next(s: State, step: Step): State
    requires Enabled(s, step)
  {
    match step
    case Acquire => DoAcquire(s)
    case Release(v) => DoRelease(s, v)
    case SwitchMemTable(empty) => DoSwitchMemTable(s, empty)
    case BeginFlush => DoBeginFlush(s)
    case CreateTable => DoCreateTable(s)
    case BuildDone(result) => DoBuildDone(s, result)
    case FlushLogged(ok) => DoFlushLogged(s, ok)
    case BeginMove(f) => DoBeginMove(s, f)
    case MoveLogged(ok) => DoMoveLogged(s, ok)
    case BeginCompaction(inputs) => DoBeginCompaction(s, inputs)
    case OpenOutput(created) => DoOpenOutput(s, created)
    case FailCompaction => DoFailCompaction(s)
    case BeginInstall => DoBeginInstall(s)
    case InstallLogged(ok) => DoInstallLogged(s, ok)
  }

  // ---------------------------------------------------------------------------
  // What every step keeps
  // ---------------------------------------------------------------------------

  // The edit being written to the manifest, if any.
  function Edits(s: State): set<Edit> {
    (if s.flush.Logging? then {s.flush.edit} else {})
    + (if s.work.Moving? || s.work.Installing? then {s.work.edit} else {})
  }

  // Every state of the manifest a crash now may leave behind.
  ghost predicate Recoverable(s: State, m: Manifest) {
    m in s.manifests || exists e, m0 :: e in Edits(s) && m0 in s.manifests && m == Apply(m0, e)
  }

  // The compaction's hold on its input version, and the flush's on the version it picks its level in.
  function WorkHolds(work: Work): multiset<VersionId> {
    if work.Idle? then multiset{} else multiset{work.input}
  }

  function FlushHolds(flush: Flush): multiset<VersionId> {
    if flush.Building? then multiset{flush.base} else multiset{}
  }

  // Everyone who holds a version, with multiplicity; being the current version counts once.
  function Others(s: State): multiset<VersionId> {
    s.readers + WorkHolds(s.work) + FlushHolds(s.flush)
  }

  function Holders(s: State): multiset<VersionId> {
    multiset{s.current} + Others(s)
  }

  ghost predicate Exact(versions: map<VersionId, Version>, holders: multiset<VersionId>, bound: VersionId) {
    && (forall v | v in versions :: versions[v].refs == holders[v] && v < bound)
    && (forall v: VersionId :: v in versions <==> v in holders)
  }

  // Reference counts are exact, so a version is in the list exactly when someone holds it.
  ghost predicate Counted(s: State) {
    Exact(s.versions, Holders(s), s.nextVersion)
  }

  // Every table a version names is on disk, and was numbered.
  ghost predicate TablesKept(s: State) {
    forall v | v in s.versions :: s.versions[v].files <= s.tables && Below(s.versions[v].files, s.nextFile)
  }

  ghost predicate Below(files: set<nat>, n: nat) {
    forall f | f in files :: f < n
  }

  // The logs of the memtables are on disk, and the manifest does not have recovery skip them.
  ghost predicate LogsKept(s: State) {
    && s.memLog in s.logs && s.logNumber <= s.memLog < s.nextFile
    && (s.immLog.Some? ==> s.immLog.value in s.logs && s.logNumber <= s.immLog.value < s.memLog)
  }

  // Recovery from m finds every table m names, and loses no write: each memtable is in a table m names or in a
  // log that m has recovery read.
  ghost predicate Restorable(s: State, m: Manifest) {
    && m.files <= s.tables && Below(m.files, s.nextFile)
    && m.log <= s.memLog
    && (s.immLog.Some? ==> m.log <= s.immLog.value || s.immEmpty || m.files * s.immTables != {})
  }

  ghost predicate ManifestsKept(s: State) {
    && (forall m | m in s.manifests :: Restorable(s, m))
    && (!s.bgError ==> s.manifests == {Manifest(FilesOf(s, s.current), s.logNumber)})
  }

  ghost predicate FlushKept(s: State) {
    && (!s.flush.NoFlush? ==> s.immLog.Some? && (s.work.Idle? || s.work.Compacting?))
    && Below(s.immTables, s.nextFile)
    && (s.flush.Building? ==>
          && s.flush.number in s.pending && s.flush.number < s.nextFile && Fresh(s, s.flush.number)
          && (s.flush.created ==> s.flush.number in s.tables))
    && (s.flush.Logging? ==>
          var e := s.flush.edit;
          && e.deleted == {} && e.log == s.memLog && e.added <= s.tables && Below(e.added, s.nextFile)
          && (s.immEmpty || e.added * s.immTables != {}))
  }

  // Nothing names this number yet.
  ghost predicate Fresh(s: State, n: nat) {
    && (forall v | v in s.versions :: n !in s.versions[v].files)
    && (forall m | m in s.manifests :: n !in m.files)
    && (s.work.Compacting? ==> n !in s.work.outputs)
  }

  ghost predicate WorkKept(s: State) {
    && Below(s.pending, s.nextFile)
    && (s.work.Compacting? ==>
          && s.work.outputs <= s.pending && (!s.work.broken ==> s.work.outputs <= s.tables)
          && s.work.inputs <= FilesOf(s, s.work.input))
    && (s.work.Installing? ==>
          && s.work.edit.added == s.work.outputs <= s.tables && s.work.outputs <= s.pending
          && s.work.edit.log == s.logNumber)
    && (s.work.Moving? ==>
          && s.work.edit.added <= s.tables && Below(s.work.edit.added, s.nextFile)
          && s.work.edit.log == s.logNumber)
  }

  ghost predicate Kept(s: State) {
    Counted(s) && TablesKept(s) && LogsKept(s) && ManifestsKept(s) && FlushKept(s) && WorkKept(s)
  }

  lemma OpenedIsKept(s: State)
    requires JustOpened(s)
    ensures Kept(s)
  {
  }

  // Reference counts

  lemma RefIsExact(s: State, holders: multiset<VersionId>, v: VersionId)
    requires Exact(s.versions, holders, s.nextVersion) && v in holders
    ensures Exact(Ref(s, v).versions, holders + multiset{v}, s.nextVersion)
  {
  }

  lemma UnrefIsExact(s: State, holders: multiset<VersionId>, v: VersionId)
    requires Exact(s.versions, holders, s.nextVersion) && v in holders
    ensures Exact(Unref(s, v).versions, holders - multiset{v}, s.nextVersion)
  {
  }

  lemma InstallIsExact(s: State, holders: multiset<VersionId>, e: Edit)
    requires Exact(s.versions, holders, s.nextVersion) && s.current in holders
    ensures Exact(Install(s, e).versions, holders - multiset{s.current} + multiset{s.nextVersion}, s.nextVersion + 1)
  {
    UnrefIsExact(s, holders, s.current);
    assert s.nextVersion !in holders;
  }

  lemma LoggedIsExact(s: State, rest: multiset<VersionId>, e: Edit, ok: bool)
    requires Exact(s.versions, multiset{s.current} + rest, s.nextVersion)
    ensures var t := Logged(s, e, ok); Exact(t.versions, multiset{t.current} + rest, t.nextVersion)
  {
    hide Exact;
    if ok {
      InstallIsExact(s, multiset{s.current} + rest, e);
      assert multiset{s.current} + rest - multiset{s.current} + multiset{s.nextVersion} == multiset{s.nextVersion} + rest;
    }
  }

  lemma CountedTakes(s: State, t: State)
    requires Counted(s) && t.versions == Ref(s, s.current).versions && t.nextVersion == s.nextVersion
    requires t.current == s.current && Others(t) == Others(s) + multiset{s.current}
    ensures Counted(t)
  {
    hide Exact, Ref, Others;
    RefIsExact(s, Holders(s), s.current);
    assert Holders(t) == Holders(s) + multiset{s.current};
  }

  lemma CountedDrops(s: State, t: State, v: VersionId)
    requires Counted(s) && t.versions == Unref(s, v).versions && t.nextVersion == s.nextVersion
    requires t.current == s.current && v in Others(s) && Others(t) == Others(s) - multiset{v}
    ensures Counted(t)
  {
    hide Exact, Unref, Others;
    UnrefIsExact(s, Holders(s), v);
    assert Holders(t) == Holders(s) - multiset{v};
  }

  lemma CountedLogged(s: State, t: State, e: Edit, ok: bool)
    requires Counted(s)
    requires t.versions == Logged(s, e, ok).versions && t.nextVersion == Logged(s, e, ok).nextVersion
    requires t.current == Logged(s, e, ok).current && Others(t) == Others(s)
    ensures Counted(t)
  {
    hide Exact, Logged, Others;
    LoggedIsExact(s, Others(s), e, ok);
  }

  lemma CountedAcquire(s: State)
    requires Counted(s)
    ensures Counted(DoAcquire(s))
  {
    hide Exact, Ref, Counted;
    CountedTakes(s, DoAcquire(s));
  }

  lemma CountedBeginFlush(s: State)
    requires Counted(s) && s.flush.NoFlush?
    ensures Counted(DoBeginFlush(s))
  {
    hide Exact, Ref, Counted;
    CountedTakes(s, DoBeginFlush(s));
  }

  lemma CountedBeginMove(s: State, f: nat)
    requires Counted(s) && s.work.Idle?
    ensures Counted(DoBeginMove(s, f))
  {
    hide Exact, Ref, Counted;
    CountedTakes(s, DoBeginMove(s, f));
  }

  lemma CountedBeginCompaction(s: State, inputs: set<nat>)
    requires Counted(s) && s.work.Idle?
    ensures Counted(DoBeginCompaction(s, inputs))
  {
    hide Exact, Ref, Counted;
    CountedTakes(s, DoBeginCompaction(s, inputs));
  }

  lemma CountedRelease(s: State, v: VersionId)
    requires Counted(s) && v in s.readers
    ensures Counted(DoRelease(s, v))
  {
    hide Exact, Unref, Counted;
    CountedDrops(s, DoRelease(s, v), v);
  }

  lemma CountedBuildDone(s: State, result: BuildResult)
    requires Counted(s) && s.flush.Building?
    ensures Counted(DoBuildDone(s, result))
  {
    hide Exact, Unref, Counted;
    CountedDrops(s, DoBuildDone(s, result), s.flush.base);
  }

  lemma CountedCleanup(s: State, outputs: set<nat>)
    requires Counted(s) && !s.work.Idle?
    ensures Counted(Cleanup(s, s.work.input, outputs))
  {
    hide Exact, Unref, Counted;
    CountedDrops(s, Cleanup(s, s.work.input, outputs), s.work.input);
  }

  lemma CountedFlushLogged(s: State, ok: bool)
    requires Counted(s) && s.flush.Logging?
    ensures Counted(DoFlushLogged(s, ok))
  {
    hide Exact, Logged, DeleteObsoleteFiles, Counted;
    CountedLogged(s, DoFlushLogged(s, ok), s.flush.edit, ok);
  }

  lemma CountedWorkLogged(s: State, ok: bool)
    requires Counted(s) && (s.work.Moving? || s.work.Installing?)
    ensures s.work.Moving? ==> Counted(DoMoveLogged(s, ok))
    ensures s.work.Installing? ==> Counted(DoInstallLogged(s, ok))
  {
    hide Exact, Logged, DeleteObsoleteFiles, Unref;
    var t := Logged(s, s.work.edit, ok);
    CountedLogged(s, t, s.work.edit, ok);
    CountedCleanup(t, {});
    if s.work.Installing? {
      CountedCleanup(t, s.work.outputs);
    }
  }

  lemma CountedStep(s: State, step: Step)
    requires Counted(s) && Enabled(s, step)
    ensures Counted(Next(s, step))
  {
    hide Exact, DoAcquire, DoRelease, DoBeginMove, DoBeginCompaction, DoBeginFlush, DoFlushLogged, DoMoveLogged,
         DoInstallLogged, DoBuildDone, DoFailCompaction;
    if step.Acquire? {
      CountedAcquire(s);
    } else if step.BeginFlush? {
      CountedBeginFlush(s);
    } else if step.BeginMove? {
      CountedBeginMove(s, step.file);
    } else if step.BeginCompaction? {
      CountedBeginCompaction(s, step.inputs);
    } else if step.Release? {
      CountedRelease(s, step.version);
    } else if step.BuildDone? {
      CountedBuildDone(s, step.result);
    } else if step.FailCompaction? {
      CountedFail(s);
    } else if step.FlushLogged? {
      CountedFlushLogged(s, step.ok);
    } else if step.MoveLogged? || step.InstallLogged? {
      CountedWorkLogged(s, step.ok);
    }
  }

  lemma CountedFail(s: State)
    requires Counted(s) && s.work.Compacting?
    ensures Counted(DoFailCompaction(s))
  {
    hide Exact, Unref, DeleteObsoleteFiles;
    CountedCleanup(s.(bgError := true), s.work.outputs);
  }

  // Files

  // No version appears, and those left name the files they did.
  ghost predicate SameFiles(s: State, t: State) {
    forall v | v in t.versions :: v in s.versions && t.versions[v].files == s.versions[v].files
  }

  lemma RefSameFiles(s: State, v: VersionId)
    ensures SameFiles(s, Ref(s, v))
  {
  }

  lemma UnrefSameFiles(s: State, v: VersionId)
    ensures SameFiles(s, Unref(s, v))
  {
  }

  lemma HoldersAreListed(s: State)
    requires Counted(s)
    ensures s.current in s.versions
    ensures !s.work.Idle? ==> s.work.input in s.versions
  {
    assert s.current in Holders(s);
    if !s.work.Idle? {
      assert s.work.input in Holders(s);
    }
  }

  // The versions but those of the flush and the work.
  ghost predicate FilesKept(s: State) {
    TablesKept(s) && LogsKept(s) && ManifestsKept(s) && FlushKept(s) && WorkKept(s)
  }

  lemma KeptAcquire(s: State)
    requires Kept(s) && Counted(DoAcquire(s))
    ensures FilesKept(DoAcquire(s))
  {
    hide Exact, Ref;
    RefSameFiles(s, s.current);
    HoldersAreListed(s);
    HoldersAreListed(DoAcquire(s));
  }

  lemma KeptRelease(s: State, v: VersionId)
    requires Kept(s) && Counted(DoRelease(s, v))
    ensures FilesKept(DoRelease(s, v))
  {
    hide Exact, Unref;
    UnrefSameFiles(s, v);
    HoldersAreListed(DoRelease(s, v));
  }

  lemma KeptSwitchMemTable(s: State, empty: bool)
    requires Kept(s) && Enabled(s, SwitchMemTable(empty))
    ensures FilesKept(DoSwitchMemTable(s, empty))
  {
    hide Exact;
  }

  lemma KeptBeginFlush(s: State)
    requires Kept(s) && Enabled(s, BeginFlush) && Counted(DoBeginFlush(s))
    ensures FilesKept(DoBeginFlush(s))
  {
    hide Exact, Ref;
    RefSameFiles(s, s.current);
    HoldersAreListed(DoBeginFlush(s));
  }

  lemma KeptCreateTable(s: State)
    requires Kept(s) && Enabled(s, CreateTable)
    ensures FilesKept(DoCreateTable(s))
  {
    hide Exact;
  }

  lemma KeptBuildDone(s: State, result: BuildResult)
    requires Kept(s) && Enabled(s, BuildDone(result)) && Counted(DoBuildDone(s, result))
    ensures FilesKept(DoBuildDone(s, result))
  {
    hide Exact, Unref, Counted, ManifestsKept, WorkKept;
    UnrefSameFiles(s, s.flush.base);
    var n := s.flush.number;
    assert n in {n} * (s.immTables + {n});
    BuildDoneManifests(s, result);
    BuildDoneWork(s, result);
  }

  lemma BuildDoneWork(s: State, result: BuildResult)
    requires Kept(s) && Enabled(s, BuildDone(result)) && Counted(DoBuildDone(s, result))
    ensures WorkKept(DoBuildDone(s, result))
  {
    hide Exact, Unref, Counted, ManifestsKept, TablesKept, LogsKept;
    UnrefSameFiles(s, s.flush.base);
    HoldersAreListed(DoBuildDone(s, result));
  }

  lemma BuildDoneManifests(s: State, result: BuildResult)
    requires Kept(s) && Enabled(s, BuildDone(result)) && Counted(DoBuildDone(s, result))
    ensures ManifestsKept(DoBuildDone(s, result))
  {
    hide Exact, Unref;
    UnrefSameFiles(s, s.flush.base);
    HoldersAreListed(s);
    HoldersAreListed(DoBuildDone(s, result));
    forall m | m in s.manifests
      ensures m.files * s.immTables <= m.files * (s.immTables + {s.flush.number})
    {
    }
  }

  lemma KeptBeginMove(s: State, f: nat)
    requires Kept(s) && Enabled(s, BeginMove(f)) && Counted(DoBeginMove(s, f))
    ensures FilesKept(DoBeginMove(s, f))
  {
    hide Exact, Ref;
    RefSameFiles(s, s.current);
    HoldersAreListed(DoBeginMove(s, f));
  }

  lemma KeptBeginCompaction(s: State, inputs: set<nat>)
    requires Kept(s) && Enabled(s, BeginCompaction(inputs)) && Counted(DoBeginCompaction(s, inputs))
    ensures FilesKept(DoBeginCompaction(s, inputs))
  {
    hide Exact, Ref;
    RefSameFiles(s, s.current);
    HoldersAreListed(DoBeginCompaction(s, inputs));
  }

  lemma KeptOpenOutput(s: State, created: bool)
    requires Kept(s) && Enabled(s, OpenOutput(created))
    ensures FilesKept(DoOpenOutput(s, created))
  {
    hide Exact;
  }

  lemma KeptBeginInstall(s: State)
    requires Kept(s) && Enabled(s, BeginInstall)
    ensures FilesKept(DoBeginInstall(s))
  {
    hide Exact;
  }

  // The ends of manifest writes

  lemma InstallFiles(s: State, e: Edit)
    requires s.current in s.versions
    ensures var t := Install(s, e);
            && t.current in t.versions
            && t.versions[t.current].files == s.versions[s.current].files - e.deleted + e.added
            && forall v | v in t.versions && v != t.current :: v in s.versions && t.versions[v].files == s.versions[v].files
  {
  }

  // An edit that may be written now: what it adds is on disk, and it has recovery skip a memtable's log only
  // when a table of it is added.
  ghost predicate Writable(s: State, e: Edit) {
    && e.added <= s.tables && Below(e.added, s.nextFile) && s.logNumber <= e.log <= s.memLog
    && (s.immLog.Some? ==> e.log <= s.immLog.value || s.immEmpty || e.added * s.immTables != {})
  }

  lemma AppliedIsRestorable(s: State, m: Manifest, e: Edit)
    requires Restorable(s, m) && Writable(s, e)
    ensures Restorable(s, Apply(m, e))
  {
    var files := m.files - e.deleted + e.added;
    assert e.added * s.immTables <= files * s.immTables;
  }

  lemma LoggedTables(s: State, e: Edit, ok: bool)
    requires s.current in s.versions && TablesKept(s) && Writable(s, e)
    ensures TablesKept(Logged(s, e, ok))
  {
    InstallFiles(s, e);
  }

  // The new manifest states, whichever way the write went.
  lemma LoggedManifests(s: State, e: Edit, ok: bool)
    requires Counted(s) && TablesKept(s) && ManifestsKept(s) && Writable(s, e)
    ensures TablesKept(Logged(s, e, ok)) && ManifestsKept(Logged(s, e, ok))
  {
    hide Exact, Restorable, Writable;
    HoldersAreListed(s);
    InstallFiles(s, e);
    forall m | m in s.manifests
      ensures Restorable(s, Apply(m, e))
    {
      AppliedIsRestorable(s, m, e);
    }
    var t := Logged(s, e, ok);
    forall m | m in t.manifests
      ensures Restorable(t, m)
    {
      SameRestorable(s, t, m);
    }
    LoggedTables(s, e, ok);
    if ok && !s.bgError {
      assert ApplyAll(s.manifests, e) == {Apply(Manifest(FilesOf(s, s.current), s.logNumber), e)};
    }
  }

  lemma SameRestorable(s: State, t: State, m: Manifest)
    requires t.tables == s.tables && t.nextFile == s.nextFile && t.memLog == s.memLog && t.immLog == s.immLog
    requires t.immEmpty == s.immEmpty && t.immTables == s.immTables
    ensures Restorable(t, m) <==> Restorable(s, m)
  {
  }

  // Nothing still named, waited for or to be recovered goes away.
  lemma DeleteKeeps(s: State)
    requires Counted(s) && FilesKept(s)
    requires s.flush.NoFlush? && (s.work.Idle? || s.work.Compacting?)
    ensures FilesKept(DeleteObsoleteFiles(s))
  {
    hide Exact;
    HoldersAreListed(s);
    if !s.bgError {
      forall v, f | v in s.versions && f in s.versions[v].files
        ensures f in Live(s)
      {
      }
      forall f | f in s.pending
        ensures f in Live(s)
      {
      }
    }
  }

  lemma KeptFlushLogged(s: State, ok: bool)
    requires Kept(s) && s.flush.Logging? && Counted(DoFlushLogged(s, ok))
    ensures FilesKept(DoFlushLogged(s, ok))
  {
    hide Exact, Logged, DeleteObsoleteFiles, Counted, FilesKept;
    var t := Logged(s, s.flush.edit, ok);
    FlushEditIsWritable(s);
    CountedFlushLogged(s, ok);
    CountedLogged(s, t, s.flush.edit, ok);
    LoggedManifests(s, s.flush.edit, ok);
    LoggedInput(s, s.flush.edit, ok);
    if ok {
      var u := t.(flush := NoFlush, immLog := None, immTables := {});
      FlushIsOver(s, t, u);
      CountedFlushOver(t, u);
      DeleteKeeps(u);
    } else {
      FlushIsOver(s, t, t.(flush := NoFlush));
    }
  }

  lemma CountedFlushOver(t: State, u: State)
    requires Counted(t) && t.flush.Logging? && u == t.(flush := NoFlush, immLog := None, immTables := {})
    ensures Counted(u)
  {
    hide Exact;
    assert Holders(u) == Holders(t);
  }

  lemma FlushEditIsWritable(s: State)
    requires LogsKept(s) && FlushKept(s) && s.flush.Logging?
    ensures Writable(s, s.flush.edit)
  {
  }

  // t is s with the edit written; u is t with the flush over.
  ghost predicate FlushOver(s: State, t: State, u: State) {
    && t == s.(versions := t.versions, current := t.current, nextVersion := t.nextVersion,
               logNumber := t.logNumber, manifests := t.manifests, bgError := t.bgError)
    && s.logNumber <= t.logNumber <= s.memLog
    && ((u == t.(flush := NoFlush) && t.logNumber == s.logNumber)
        || u == t.(flush := NoFlush, immLog := None, immTables := {}))
    && (forall v | v in t.versions && v < s.nextVersion :: FilesOf(t, v) == FilesOf(s, v))
  }

  lemma FlushIsOver(s: State, t: State, u: State)
    requires Kept(s) && s.flush.Logging? && Counted(t) && TablesKept(t) && ManifestsKept(t) && FlushOver(s, t, u)
    ensures FilesKept(u)
  {
    hide Exact, WorkKept, Restorable, Counted;
    FlushOverManifests(t, u);
    FlushOverWork(s, t, u);
  }

  lemma FlushOverManifests(t: State, u: State)
    requires ManifestsKept(t)
    requires u == t.(flush := NoFlush) || u == t.(flush := NoFlush, immLog := None, immTables := {})
    ensures ManifestsKept(u)
  {
  }

  lemma FlushOverWork(s: State, t: State, u: State)
    requires Kept(s) && s.flush.Logging? && Counted(t) && FlushOver(s, t, u)
    ensures WorkKept(u)
  {
    hide Exact, TablesKept, ManifestsKept, LogsKept;
    HoldersAreListed(t);
    if !s.work.Idle? {
      InputIsOld(s);
    }
  }

  lemma InputIsOld(s: State)
    requires Counted(s) && !s.work.Idle?
    ensures s.work.input < s.nextVersion
  {
    HoldersAreListed(s);
  }

  // A version that stays keeps its files.
  lemma LoggedInput(s: State, e: Edit, ok: bool)
    requires Counted(s)
    ensures var t := Logged(s, e, ok);
            && (forall v | v in t.versions && v < s.nextVersion :: FilesOf(t, v) == FilesOf(s, v))
            && (ok ==> t.logNumber == e.log) && (!ok ==> t.logNumber == s.logNumber && t.bgError)
            && (ok ==> t.bgError == s.bgError)
  {
    HoldersAreListed(s);
    if ok {
      InstallFiles(s, e);
    }
  }

  lemma KeptMoveLogged(s: State, ok: bool)
    requires Kept(s) && s.work.Moving? && Counted(DoMoveLogged(s, ok))
    ensures FilesKept(DoMoveLogged(s, ok))
  {
    hide Exact, Logged, Unref;
    LoggedManifests(s, s.work.edit, ok);
    LoggedInput(s, s.work.edit, ok);
    var t := Logged(s, s.work.edit, ok);
    UnrefSameFiles(t, s.work.input);
    HoldersAreListed(DoMoveLogged(s, ok));
  }

  lemma KeptCleanup(s: State, outputs: set<nat>)
    requires Counted(s) && FilesKeptBut(s) && !s.work.Idle? && s.flush.NoFlush?
    requires Counted(Cleanup(s, s.work.input, outputs))
    ensures FilesKept(Cleanup(s, s.work.input, outputs))
  {
    hide Exact, Unref;
    UnrefSameFiles(s, s.work.input);
    HoldersAreListed(Cleanup(s, s.work.input, outputs));
  }

  // What is left to keep once the background work is over.
  ghost predicate FilesKeptBut(s: State) {
    TablesKept(s) && LogsKept(s) && ManifestsKept(s) && Below(s.immTables, s.nextFile) && Below(s.pending, s.nextFile)
  }

  lemma KeptInstallLogged(s: State, ok: bool)
    requires Kept(s) && s.work.Installing? && Counted(DoInstallLogged(s, ok))
    ensures FilesKept(DoInstallLogged(s, ok))
  {
    hide Exact, Logged, Cleanup, DeleteObsoleteFiles;
    LoggedManifests(s, s.work.edit, ok);
    LoggedInput(s, s.work.edit, ok);
    var t := Logged(s, s.work.edit, ok);
    CountedLogged(s, t, s.work.edit, ok);
    CountedCleanup(t, s.work.outputs);
    KeptCleanup(t, s.work.outputs);
    CleanupLeaves(t, s.work.input, s.work.outputs);
    DeleteKeeps(Cleanup(t, s.work.input, s.work.outputs));
  }

  lemma CleanupLeaves(s: State, input: VersionId, outputs: set<nat>)
    ensures var t := Cleanup(s, input, outputs); t.bgError == s.bgError && t.flush == s.flush && t.work.Idle?
  {
  }

  lemma ErrorKeeps(s: State)
    requires Kept(s)
    ensures FilesKeptBut(s.(bgError := true)) && Counted(s.(bgError := true))
  {
    hide Exact;
  }

  lemma KeptFailCompaction(s: State)
    requires Kept(s) && Enabled(s, FailCompaction) && Counted(DoFailCompaction(s))
    ensures FilesKept(DoFailCompaction(s))
  {
    hide Exact, Cleanup, Counted, FilesKept, FilesKeptBut, Kept;
    var t := s.(bgError := true);
    ErrorKeeps(s);
    CountedCleanup(t, s.work.outputs);
    KeptCleanup(t, s.work.outputs);
    CleanupLeaves(t, s.work.input, s.work.outputs);
  }

  // Every step, by any thread, keeps it all.
  lemma StepKeeps(s: State, step: Step)
    requires Kept(s) && Enabled(s, step)
    ensures Kept(Next(s, step))
  {
    hide Exact, TablesKept, LogsKept, ManifestsKept, WorkKept, Counted,
         DoAcquire, DoRelease, DoSwitchMemTable, DoBeginFlush, DoCreateTable, DoBuildDone, DoFlushLogged, DoBeginMove,
         DoMoveLogged, DoBeginCompaction, DoOpenOutput, DoFailCompaction, DoBeginInstall, DoInstallLogged;
    CountedStep(s, step);
    match step
    case Acquire => KeptAcquire(s);
    case Release(v) => KeptRelease(s, v);
    case SwitchMemTable(empty) => KeptSwitchMemTable(s, empty);
    case BeginFlush => KeptBeginFlush(s);
    case CreateTable => KeptCreateTable(s);
    case BuildDone(result) => KeptBuildDone(s, result);
    case FlushLogged(ok) => KeptFlushLogged(s, ok);
    case BeginMove(f) => KeptBeginMove(s, f);
    case MoveLogged(ok) => KeptMoveLogged(s, ok);
    case BeginCompaction(inputs) => KeptBeginCompaction(s, inputs);
    case OpenOutput(created) => KeptOpenOutput(s, created);
    case FailCompaction => KeptFailCompaction(s);
    case BeginInstall => KeptBeginInstall(s);
    case InstallLogged(ok) => KeptInstallLogged(s, ok);
  }

  // Whole runs.

  predicate Run(s: State, steps: seq<Step>)
    decreases |steps|
  {
    steps == [] || (Enabled(s, steps[0]) && Run(Next(s, steps[0]), steps[1..]))
  }

  function After(s: State, steps: seq<Step>): State
    requires Run(s, steps)
    decreases |steps|
  {
    if steps == [] then s else After(Next(s, steps[0]), steps[1..])
  }

  // A database just opened: DB::Open, before it deletes obsolete files. Tables no version names may be left over
  // from an earlier incarnation.
  ghost predicate JustOpened(s: State) {
    && s.versions.Keys == {s.current} && s.versions[s.current].refs == 1 && s.current < s.nextVersion
    && s.versions[s.current].files <= s.tables && Below(s.versions[s.current].files, s.nextFile)
    && s.readers == multiset{} && s.pending == {} && !s.bgError
    && s.flush.NoFlush? && s.work.Idle? && s.immLog.None? && s.immTables == {}
    && s.memLog in s.logs && s.logNumber <= s.memLog < s.nextFile
    && s.manifests == {Manifest(s.versions[s.current].files, s.logNumber)}
  }

  lemma {:induction false} RunKeeps(s: State, steps: seq<Step>)
    requires Kept(s) && Run(s, steps)
    ensures Kept(After(s, steps))
    decreases |steps|
  {
    hide Kept, Enabled, Next;
    if steps != [] {
      StepKeeps(s, steps[0]);
      RunKeeps(Next(s, steps[0]), steps[1..]);
    }
  }

  // Main results

  // In every reachable state, whichever threads did what: each version in the list has all its tables on disk, and
  // the current version and those held by readers and by the compaction are in the list.
  lemma NamedTablesAreOnDisk(s: State, steps: seq<Step>, v: VersionId)
    requires JustOpened(s) && Run(s, steps)
    requires var t := After(s, steps); v in t.versions || v == t.current || v in t.readers
                                       || (!t.work.Idle? && v == t.work.input)
    ensures var t := After(s, steps); v in t.versions && t.versions[v].files <= t.tables
  {
    hide Exact;
    OpenedIsKept(s);
    RunKeeps(s, steps);
    var t := After(s, steps);
    HoldersAreListed(t);
    ReaderIsListed(t, v);
  }

  lemma ReaderIsListed(s: State, v: VersionId)
    requires Counted(s)
    ensures v in s.readers ==> v in s.versions
  {
    if v in s.readers {
      assert v in Holders(s);
    }
  }

  // A crash in any reachable state, even in the middle of a manifest write or after a failed one, leaves a manifest
  // from which recovery finds every table it names and the log of every memtable not in one of them.
  lemma CrashLosesNothing(s: State, steps: seq<Step>, m: Manifest)
    requires JustOpened(s) && Run(s, steps) && Recoverable(After(s, steps), m)
    ensures var t := After(s, steps);
            && m.files <= t.tables
            && t.memLog in t.logs && m.log <= t.memLog
            && (t.immLog.Some? ==>
                  || (t.immLog.value in t.logs && m.log <= t.immLog.value)
                  || t.immEmpty || m.files * t.immTables != {})
  {
    hide Exact, Counted;
    OpenedIsKept(s);
    RunKeeps(s, steps);
    var t := After(s, steps);
    if m !in t.manifests {
      var e, m0 :| e in Edits(t) && m0 in t.manifests && m == Apply(m0, e);
      AppliedIsRestorable(t, m0, e);
    }
  }

  // What waits for its version: the outputs of the compaction and the table a flush is building.
  function Outputs(work: Work): set<nat> {
    if work.Compacting? || work.Installing? then work.outputs else {}
  }

  function Target(flush: Flush): set<nat> {
    if flush.Building? then {flush.number} else {}
  }

  // pending_outputs_ holds what waits and nothing else.
  ghost predicate PendingExact(s: State) {
    s.pending == Outputs(s.work) + Target(s.flush)
  }

  // A log on disk is in use, or left to delete, or was there when the database was opened in state s.
  ghost predicate LogsExplained(s: State, t: State) {
    && s.memLog <= t.memLog && (t.immLog.Some? ==> s.memLog <= t.immLog.value)
    && forall n | n in t.logs :: n == t.memLog || t.immLog == Some(n) || n < t.logNumber || n in s.logs
  }

  lemma StepKeepsPendingExact(t: State, step: Step)
    requires FlushKept(t) && WorkKept(t) && PendingExact(t) && Enabled(t, step)
    ensures PendingExact(Next(t, step))
  {
    hide Ref, Unref, Logged, Live;
  }

  lemma StepKeepsLogsExplained(s: State, t: State, step: Step)
    requires LogsKept(t) && FlushKept(t) && WorkKept(t) && LogsExplained(s, t) && Enabled(t, step)
    ensures LogsExplained(s, Next(t, step))
  {
    hide Ref, Unref, Live;
  }

  lemma {:induction false} RunKeepsNoGarbage(s: State, t: State, steps: seq<Step>)
    requires Kept(t) && PendingExact(t) && LogsExplained(s, t) && Run(t, steps)
    ensures var u := After(t, steps); Kept(u) && PendingExact(u) && LogsExplained(s, u)
    decreases |steps|
  {
    hide Counted, TablesKept, LogsKept, ManifestsKept, FlushKept, WorkKept, PendingExact, LogsExplained, Enabled, Next;
    if steps != [] {
      StepKeeps(t, steps[0]);
      StepKeepsPendingExact(t, steps[0]);
      StepKeepsLogsExplained(s, t, steps[0]);
      RunKeepsNoGarbage(s, Next(t, steps[0]), steps[1..]);
    }
  }

  // The tables the listed versions name.
  function Named(s: State): set<nat> {
    set v, f | v in s.versions && f in s.versions[v].files :: f
  }

  lemma LiveIsNamedOrPending(s: State)
    ensures Live(s) == Named(s) + s.pending
  {
  }

  lemma NamedAreKept(s: State)
    requires TablesKept(s)
    ensures Named(s) <= s.tables
  {
  }

  lemma OnlyCurrent(s: State)
    requires Counted(s) && s.readers == multiset{} && s.work.Idle? && s.flush.NoFlush?
    ensures Named(s) == FilesOf(s, s.current)
  {
    assert Holders(s) == multiset{s.current};
    assert s.current in Holders(s);
  }

  // Nothing else is left: once a compaction is installed in a run without errors, the tables on disk are exactly those
  // that listed versions name, so exactly those of the current version when nobody reads; and no log is left that
  // neither a memtable needs nor the next recovery of the opened database would have read.
  lemma CompactionLeavesNoGarbage(s: State, steps: seq<Step>)
    requires JustOpened(s) && Run(s, steps)
    requires var t := After(s, steps); t.work.Installing? && !t.bgError
    ensures var u := Next(After(s, steps), InstallLogged(true));
            && u.tables == Named(u)
            && (u.readers == multiset{} ==> u.tables == FilesOf(u, u.current))
            && forall n | n in u.logs :: n == u.memLog || u.immLog == Some(n) || (n in s.logs && n >= u.logNumber)
  {
    hide Exact, Logged, Unref, Live;
    OpenedIsKept(s);
    RunKeepsNoGarbage(s, s, steps);
    var t := After(s, steps);
    var u := Next(t, InstallLogged(true));
    StepKeeps(t, InstallLogged(true));
    StepKeepsPendingExact(t, InstallLogged(true));
    StepKeepsLogsExplained(s, t, InstallLogged(true));
    InstallCleans(t);
    NamedAreKept(u);
    if u.readers == multiset{} {
      OnlyCurrent(u);
    }
  }

  lemma InstallCleans(t: State)
    requires t.work.Installing? && !t.bgError && t.pending == t.work.outputs
    ensures var u := Next(t, InstallLogged(true));
            && u.tables <= Named(u) && u.work.Idle? && u.flush == t.flush
            && (forall n | n in u.logs :: n >= u.logNumber)
  {
    hide Unref, Live;
    var v := Cleanup(Logged(t, t.work.edit, true), t.work.input, t.work.outputs);
    LiveIsNamedOrPending(v);
  }

  // The same for a flush, perhaps inside a compaction, whose outputs so far are then left as well. The log of the
  // memtable flushed and all before it are gone.
  lemma FlushLeavesNoGarbage(s: State, steps: seq<Step>)
    requires JustOpened(s) && Run(s, steps)
    requires var t := After(s, steps); t.flush.Logging? && !t.bgError
    ensures var t := After(s, steps);
            var u := Next(t, FlushLogged(true));
            && u.tables == Named(u) + Outputs(u.work) * t.tables
            && (!(u.work.Compacting? && u.work.broken) ==> u.tables == Named(u) + Outputs(u.work))
            && (u.readers == multiset{} && u.work.Idle? ==> u.tables == FilesOf(u, u.current))
            && u.memLog in u.logs
            && forall n | n in u.logs :: n == u.memLog || (n in s.logs && n > s.memLog)
  {
    hide Exact, Counted, ManifestsKept, TablesKept, PendingExact, Next, Enabled, Named, JustOpened, After;
    OpenedIsKept(s);
    OpenedExplainsLogs(s);
    RunKeepsNoGarbage(s, s, steps);
    var t := After(s, steps);
    FlushIsEnabled(t);
    var u := Next(t, FlushLogged(true));
    StepKeeps(t, FlushLogged(true));
    StepKeepsLogsExplained(s, t, FlushLogged(true));
    FlushCleans(t);
    NamedAreKept(u);
    if u.readers == multiset{} && u.work.Idle? {
      OnlyCurrent(u);
    }
  }

  lemma FlushIsEnabled(t: State)
    ensures t.flush.Logging? ==> Enabled(t, FlushLogged(true))
  {
  }

  lemma OpenedExplainsLogs(s: State)
    requires JustOpened(s)
    ensures PendingExact(s) && LogsExplained(s, s)
  {
  }

  lemma FlushCleans(t: State)
    requires LogsKept(t) && FlushKept(t) && WorkKept(t) && PendingExact(t) && t.flush.Logging? && !t.bgError
    ensures Enabled(t, FlushLogged(true))
    ensures var u := Next(t, FlushLogged(true));
            && u.tables == t.tables * (Named(u) + Outputs(u.work)) && u.work == t.work && u.flush.NoFlush?
            && u.memLog == u.logNumber == t.memLog && u.immLog == None && t.immLog.Some?
            && (!(u.work.Compacting? && u.work.broken) ==> Outputs(u.work) <= t.tables)
            && forall n | n in u.logs :: n >= u.memLog
  {
    hide Unref, Live;
    var v := Logged(t, t.flush.edit, true).(flush := NoFlush, immLog := None, immTables := {});
    LiveIsNamedOrPending(v);
  }

  // All this rests on there being one background thread: a new table is neither pending nor in a version while its
  // edit is being written, so a cleanup by anyone else at that moment would delete it.
  lemma CleanupByAnotherThreadWouldLose(s: State)
    requires JustOpened(s)
    ensures var steps := [SwitchMemTable(false), BeginFlush, CreateTable, BuildDone(Stored)];
            && Run(s, steps)
            && var t := After(s, steps);
               t.flush.Logging? && t.flush.edit.added <= t.tables
               && !(t.flush.edit.added <= DeleteObsoleteFiles(t).tables)
  {
    var n := s.nextFile + 1;
    var s1 := DoSwitchMemTable(s, false);
    var s2 := DoBeginFlush(s1);
    var s3 := DoCreateTable(s2);
    var s4 := DoBuildDone(s3, Stored);
    RunOfFour(s, SwitchMemTable(false), BeginFlush, CreateTable, BuildDone(Stored));
    assert s4.flush.edit.added == {n};
    assert n !in Live(s4);
  }

  lemma {:induction false} RunFirst(s: State, a: Step, rest: seq<Step>)
    requires Enabled(s, a) && Run(Next(s, a), rest)
    ensures Run(s, [a] + rest) && After(s, [a] + rest) == After(Next(s, a), rest)
  {
    hide Enabled, Next;
    assert ([a] + rest)[1..] == rest;
  }

  lemma {:induction false} RunOfFour(s: State, a: Step, b: Step, c: Step, d: Step)
    requires Enabled(s, a) && Enabled(Next(s, a), b) && Enabled(Next(Next(s, a), b), c)
    requires Enabled(Next(Next(Next(s, a), b), c), d)
    ensures Run(s, [a, b, c, d]) && After(s, [a, b, c, d]) == Next(Next(Next(Next(s, a), b), c), d)
  {
    hide Enabled, Next;
    var s1 := Next(s, a);
    var s2 := Next(s1, b);
    var s3 := Next(s2, c);
    RunFirst(s3, d, []);
    RunFirst(s2, c, [d] + []);
    RunFirst(s1, b, [c] + ([d] + []));
    RunFirst(s, a, [b] + ([c] + ([d] + [])));
    assert [a] + ([b] + ([c] + ([d] + []))) == [a, b, c, d];
  }
}
