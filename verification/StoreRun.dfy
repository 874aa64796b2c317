/**
 Whole runs of the store: crash, restart, and what holds in every reachable state.
 */
module StoreRun {
  import opened Wrappers
  import opened DbFormat
  import opened Views
  import opened StoreViews
  import opened Versions
  import opened MergeRules
  import opened Compactions
  import opened CompactionPicker
  import opened CompactionMeaning
  import opened VersionBuilder
  import opened ManifestReplay
  import opened LevelRules
  import opened FlushDuringCompaction
  import opened StoreState
  import opened StoreSteps
  import opened StoreSafety

  // ----- crash -----

  lemma {:induction false} CrashKeeps(s: Store, keep: bool, y': System)
    requires StoreInv(s) && Crash(s, keep, y')
    ensures Inv(y')
  {
    hide MemoryInv, ReadersInv, BackgroundInv, SnapshotsInv, DiskInv, UpTo, UniqueSequences, NextBatch, Older, Bounded;
    AcknowledgeFacts(s);
    BatchFacts(s.history, s.lastSequence, s.inFlight);
    if keep {
      DiskGrows(s.disk, s.history, s.floor, s.currentLog, s.inFlight);
    }
  }

  // ----- restart -----

  lemma {:induction false} FailedRecoveryKeeps(d: Disk, history: set<Entry>, floor: SequenceNumber, tables: map<nat, seq<Entry>>,
                                               newLog: nat, d': Disk)
    requires DiskInv(d, history, floor) && FailedRecovery(d, tables, newLog, d')
    ensures DiskInv(d', history, floor)
  {
    DiskFacts(d, history, floor);
    hide Recoverable, Stored, UniqueSequences, Bounded, Older, Sound;
    SoundBelow(d.manifest.version, d.manifest.nextFile, d.manifest.nextFile);
    StillStored(d.tables, d'.tables, d.manifest.version, d.manifest.nextFile, {});
    var e := d.(tables := d'.tables);
    assert LogEntries(e) == LogEntries(d);
    NewLogIsEmpty(e, newLog);
    NewLogStaysInOrder(d.logs, d.manifest.logNumber, newLog);
  }

  lemma {:induction false} DiskFacts(d: Disk, history: set<Entry>, floor: SequenceNumber)
    requires DiskInv(d, history, floor)
    ensures Sound(d.manifest.version, d.manifest.nextFile) && Stored(d.tables, d.manifest.version)
    ensures AllEntries(d.manifest.version) <= history && LogEntries(d) <= history
    ensures SameViews(DiskEntries(d), history, floor) && floor <= d.manifest.lastSequence < MAX_SEQUENCE_NUMBER
    ensures Covered(history, d.manifest.lastSequence, LogEntries(d))
    ensures UniqueSequences(history) && Bounded(history) && LogsInOrder(d.logs, d.manifest.logNumber)
  {
    hide Stored, UniqueSequences, Bounded, Older, Sound, SameViews, Covered, LogsInOrder;
  }

  lemma {:induction false} NewLogStaysInOrder(logs: map<nat, seq<Entry>>, from: nat, newLog: nat)
    requires LogsInOrder(logs, from)
    ensures LogsInOrder(logs[newLog := []], from)
  {
    hide Increasing;
    assert Increasing([]) by { EmptyIsIncreasing(); }
  }

  lemma {:induction false} EmptyIsIncreasing()
    ensures Increasing([])
  {
  }

  // The recovered version holds what the manifest's version and the logs held.
  lemma {:induction false} RecoveredVersion(d: Disk, history: set<Entry>, floor: SequenceNumber, files: seq<FileMetaData>,
                                            tables: map<nat, seq<Entry>>, newLog: nat, v: Version)
    requires DiskInv(d, history, floor) && |d.manifest.version.files| == NUM_LEVELS
    requires RecoveryTables(d.manifest.version, d.manifest.nextFile + 1, files, newLog)
    requires Contents(Concat(files)) == LogEntries(d) && TablesWritten(d.tables, files, tables)
    requires Installed(d.manifest.version, RecoveryEdit(files), v)
    ensures Sound(v, newLog + 1) && Stored(tables, v) && AllEntries(v) == DiskEntries(d)
  {
    DiskFacts(d, history, floor);
    hide DiskInv, Sound, Stored, SameViews, UniqueSequences, Bounded, LogsInOrder, Installed, RecoveryTables, AllPlaced, AllEntries,
      OrderedLevels, Below, TablesWritten;
    var m := d.manifest;
    SoundLater(m.version, m.nextFile, m.nextFile + 1);
    RecoveryKeepsRules(m.version, m.nextFile + 1, files, newLog, v);
    SoundLater(v, newLog, newLog + 1);
    RecoveryIsNew(m.version, m.nextFile + 1, files, newLog);
    OrderedBySoundness(m.version, m.nextFile);
    InstalledPlaces(m.version, RecoveryEdit(files), v);
    SoundBelow(m.version, m.nextFile, m.nextFile);
    assert AgreesBelow(d.tables, tables, m.nextFile, {}) by { WrittenAbove(d, files, newLog, tables); }
    StillStored(d.tables, tables, m.version, m.nextFile, {});
    RecoveredAreWritten(d.tables, files, tables);
    StoredInstalled(tables, m.version, RecoveryEdit(files), v);
  }

  lemma {:induction false} WrittenAbove(d: Disk, files: seq<FileMetaData>, newLog: nat, tables: map<nat, seq<Entry>>)
    requires RecoveryTables(d.manifest.version, d.manifest.nextFile + 1, files, newLog) && TablesWritten(d.tables, files, tables)
    ensures AgreesBelow(d.tables, tables, d.manifest.nextFile, {})
  {
    forall f | f in files
      ensures d.manifest.nextFile < f.number
    {
      var i :| 0 <= i < |files| && files[i] == f;
    }
  }

  lemma {:induction false} RecoveredAreWritten(tables: map<nat, seq<Entry>>, files: seq<FileMetaData>, tables': map<nat, seq<Entry>>)
    requires TablesWritten(tables, files, tables')
    ensures forall p :: p in RecoveryEdit(files).added ==> p.1.number in tables' && tables'[p.1.number] == p.1.table
  {
    forall p | p in RecoveryEdit(files).added
      ensures p.1 in files
    {
      var i :| 0 <= i < |files| && RecoveryEdit(files).added[i] == p;
    }
  }

  // After a restart nothing is left in memory.
  ghost predicate JustOpened(s: Store) {
    && s.mem == [] && s.imm.None? && s.readers == {} && s.snapshots == [] && s.inFlight == [] && s.bg.Idle? && s.paused.None?
    && s.nextFile == s.currentLog + 1
    && s.disk.manifest == Manifest(s.version, s.currentLog, s.nextFile, s.lastSequence) && s.logNumber == s.currentLog
    && s.currentLog in s.disk.logs && s.disk.logs[s.currentLog] == []
    && forall n :: n in s.disk.logs ==> n <= s.currentLog
  }

  lemma {:induction false} JustOpenedIsFine(s: Store)
    requires JustOpened(s) && Sound(s.version, s.nextFile) && Stored(s.disk.tables, s.version)
    requires SameViews(AllEntries(s.version), s.history, s.floor) && AllEntries(s.version) <= s.history
    requires s.floor <= s.lastSequence < MAX_SEQUENCE_NUMBER && UpTo(s.history, s.lastSequence)
    requires UniqueSequences(s.history) && Bounded(s.history)
    ensures StoreInv(s)
  {
    SoundBelow(s.version, s.nextFile, s.nextFile);
    hide Sound, Stored, SameViews, UniqueSequences, Bounded, Below;
    assert LogEntries(s.disk) == {};
    assert Memory(s) == {};
    var entries := AllEntries(s.version);
    assert entries + {} == entries;
  }

  lemma {:induction false} LastCoversHistory(d: Disk, history: set<Entry>, last: SequenceNumber)
    requires Covered(history, d.manifest.lastSequence, LogEntries(d)) && Bounded(history) && LogEntries(d) <= history
    requires d.manifest.lastSequence < MAX_SEQUENCE_NUMBER && LastRecovered(d, last)
    ensures UpTo(history, last) && d.manifest.lastSequence <= last < MAX_SEQUENCE_NUMBER
  {
  }

  lemma {:induction false} RecoverKeeps(y: System, files: seq<FileMetaData>, tables: map<nat, seq<Entry>>, newLog: nat, v: Version,
                                        last: SequenceNumber, s': Store)
    requires Inv(y) && Recover(y, files, tables, newLog, v, last, s')
    ensures StoreInv(s')
  {
    DiskFacts(y.disk, y.history, y.floor);
    OpenedFrom(y, files, tables, newLog, v, last, s');
    hide DiskInv, Recover, Sound, Stored, SameViews, UniqueSequences, Bounded, LogsInOrder, Installed, RecoveryTables, AllPlaced, AllEntries,
      TablesWritten, UpTo, StoreInv, JustOpened, Covered;
    JustOpenedIsFine(s');
  }

  lemma {:induction false} OpenedFrom(y: System, files: seq<FileMetaData>, tables: map<nat, seq<Entry>>, newLog: nat, v: Version,
                                      last: SequenceNumber, s': Store)
    requires Inv(y) && Recover(y, files, tables, newLog, v, last, s')
    ensures JustOpened(s') && s'.history == y.history && s'.floor == y.floor
    ensures Sound(s'.version, s'.nextFile) && Stored(s'.disk.tables, s'.version) && AllEntries(s'.version) == DiskEntries(y.disk)
    ensures UpTo(y.history, s'.lastSequence) && y.disk.manifest.lastSequence <= s'.lastSequence < MAX_SEQUENCE_NUMBER
  {
    DiskFacts(y.disk, y.history, y.floor);
    OpenedShape(y, files, tables, newLog, v, last, s');
    hide DiskInv, Sound, Stored, SameViews, UniqueSequences, Bounded, LogsInOrder, Installed, RecoveryTables, AllEntries, TablesWritten, UpTo,
      Covered, LastRecovered, LogsBelow, LogEntries, RecoveryEdit, JustOpened, DiskEntries;
    RecoveredVersion(y.disk, y.history, y.floor, files, tables, newLog, v);
    LastCoversHistory(y.disk, y.history, last);
  }

  lemma {:induction false} OpenedShape(y: System, files: seq<FileMetaData>, tables: map<nat, seq<Entry>>, newLog: nat, v: Version,
                                       last: SequenceNumber, s': Store)
    requires Recover(y, files, tables, newLog, v, last, s')
    ensures JustOpened(s') && s'.history == y.history && s'.floor == y.floor
    ensures s'.version == v && s'.nextFile == newLog + 1 && s'.disk.tables == tables && s'.lastSequence == last
  {
    LogsAreBelow(y.disk, newLog, s');
    hide Installed, RecoveryTables, TablesWritten, LastRecovered, LogsBelow, LogEntries, RecoveryEdit;
  }

  lemma {:induction false} LogsAreBelow(d: Disk, newLog: nat, s': Store)
    requires LogsBelow(d, newLog) && s'.disk.logs == d.logs[newLog := []]
    ensures forall n :: n in s'.disk.logs ==> n <= newLog
  {
  }

  // ----- every reachable state -----

  lemma {:induction false} NewStoreIsFine()
    ensures Inv(NEW_STORE)
  {
    assert AllPlaced(EMPTY_VERSION) == {};
    assert AllEntries(EMPTY_VERSION) == {} by { EntriesByPlace(EMPTY_VERSION); }
    assert LogEntries(NEW_STORE.disk) == {};
  }

  lemma {:induction false} StoreStepKeeps(s: Store, step: Step, s': Store)
    requires StoreInv(s) && StoreStep(s, step, s')
    ensures StoreInv(s')
  {
    hide StoreInv, StartWrite, Acknowledge, Switch, TakeSnapshot, ReleaseSnapshot, OpenReader, CloseReader, FlushStart, FlushBuild,
      FlushApply, MoveApply, CompactionStart, OpenOutput, CloseOutput, CompactionApply, AbandonCompaction, WriteManifest,
      InstallVersion, DeleteObsoleteFiles;
    match step
    case DoStartWrite(batch) => StartWriteKeeps(s, batch, s');
    case DoAcknowledge => AcknowledgeKeeps(s, s');
    case DoSwitch => SwitchKeeps(s, s');
    case DoTakeSnapshot => TakeSnapshotKeeps(s, s');
    case DoReleaseSnapshot(index) => ReleaseSnapshotKeeps(s, index, s');
    case DoOpenReader(n) => OpenReaderKeeps(s, n, s');
    case DoCloseReader(reader) => CloseReaderKeeps(s, reader, s');
    case DoFlushStart => FlushStartKeeps(s, s');
    case DoFlushBuild(level, file) => FlushBuildKeeps(s, level, file, s');
    case DoFlushApply(next) => FlushApplyKeeps(s, next, s');
    case DoMoveApply(level, file, grandparents, next) => MoveApplyKeeps(s, level, file, grandparents, next, s');
    case DoCompactionStart(level, in0, in1, input) => CompactionStartKeeps(s, level, in0, in1, input, s');
    case DoOpenOutput => OpenOutputKeeps(s, s');
    case DoCloseOutput(file) => CloseOutputKeeps(s, file, s');
    case DoCompactionApply(next) => CompactionApplyKeeps(s, next, s');
    case DoAbandonCompaction => AbandonCompactionKeeps(s, s');
    case DoWriteManifest => WriteManifestKeeps(s, s');
    case DoInstallVersion => InstallVersionKeeps(s, s');
    case DoDeleteObsoleteFiles => DeleteObsoleteFilesKeeps(s, s');
  }

  lemma {:induction false} StepKeepsInv(y: System, step: Step, y': System)
    requires Inv(y) && Does(y, step, y')
    ensures Inv(y')
  {
    hide StoreInv, DiskInv, StoreStep, Crash, FailedRecovery, Recover;
    match y
    case Up(s) =>
      if step.DoCrash? {
        CrashKeeps(s, step.keep, y');
      } else {
        StoreStepKeeps(s, step, y'.store);
      }
    case Down(disk, history, floor) =>
      if step.DoFailedRecovery? {
        FailedRecoveryKeeps(disk, history, floor, step.tables, step.newLog, y'.disk);
      } else {
        RecoverKeeps(y, step.files, step.tables, step.newLog, step.next, step.last, y'.store);
      }
  }

  /** The invariant holds in every state of every run. */
  lemma {:induction false} RunKeepsInv(run: seq<System>, steps: seq<Step>, i: nat)
    requires IsRun(run, steps) && i < |run|
    ensures Inv(run[i])
  {
    hide Inv, Does;
    if i == 0 {
      NewStoreIsFine();
    } else {
      RunKeepsInv(run, steps, i - 1);
      StepKeepsInv(run[i - 1], steps[i - 1], run[i]);
    }
  }

  ghost function History(y: System): set<Entry> {
    match y
    case Up(s) => s.history
    case Down(_, history, _) => history
  }

  lemma {:induction false} StepKeepsHistory(y: System, step: Step, y': System)
    requires Does(y, step, y')
    ensures History(y) <= History(y')
  {
    hide Installed, Selected, Survivors, Setting.Exposed, RecoveryTables, PickedLevel, IsMerge, NextBatch, TablesWritten, LastRecovered,
      LogsBelow, FileMetaData.Valid;
  }

  lemma {:induction false} HistoryOnlyGrows(run: seq<System>, steps: seq<Step>, i: nat, j: nat)
    requires IsRun(run, steps) && i <= j < |run|
    ensures History(run[i]) <= History(run[j])
  {
    hide Does;
    if i < j {
      HistoryOnlyGrows(run, steps, i, j - 1);
      StepKeepsHistory(run[j - 1], steps[j - 1], run[j]);
    }
  }

  /**
   What users are promised.  However often the store was flushed, compacted, crashed and
   restarted since a write was acknowledged, the write is still in the history, and a
   reader at any snapshot or at the last sequence number sees exactly the history.
   */
  lemma {:induction false} AcknowledgedWritesAreRead(run: seq<System>, steps: seq<Step>, i: nat, j: nat, k: UserKey, n: SequenceNumber)
    requires IsRun(run, steps) && i <= j < |run| && run[j].Up?
    requires n in run[j].store.snapshots || n == run[j].store.lastSequence
    ensures History(run[i]) <= run[j].store.history
    ensures View(Visible(run[j].store), k, n) == View(run[j].store.history, k, n)
  {
    hide StoreInv, Does, View;
    RunKeepsInv(run, steps, j);
    HistoryOnlyGrows(run, steps, i, j);
    ReadsSeeHistory(run[j].store, k, n);
  }

  lemma {:induction false} ReadsSeeHistory(s: Store, k: UserKey, n: SequenceNumber)
    requires StoreInv(s) && (n in s.snapshots || n == s.lastSequence)
    ensures View(Visible(s), k, n) == View(s.history, k, n)
  {
    hide DiskInv, LogsInv, ReadersInv, BackgroundInv, View, Sound, Older, Covered, Stored, UpTo;
    NewReader(s, n);
  }

  /**
   An open iterator keeps its view of the history, and its files, for as long as it
   stays open, although its sequence number may have left the list of snapshots.
   */
  lemma {:induction false} OpenReadersKeepTheirView(run: seq<System>, steps: seq<Step>, j: nat, r: Reader, k: UserKey)
    requires IsRun(run, steps) && j < |run| && run[j].Up? && r in run[j].store.readers
    ensures View(AllEntries(r.version) + r.memory, k, r.sequence) == View(run[j].store.history, k, r.sequence)
    ensures Stored(run[j].store.disk.tables, r.version)
  {
    hide Does, DiskInv, LogsInv, MemoryInv, BackgroundInv, View, Stored, Below;
    RunKeepsInv(run, steps, j);
    var s := run[j].store;
    assert ReaderInv(r, s.disk.tables, Base(s), Own(s), s.lastSequence, s.history);
  }

  /**
   Crash safety.  In every state of every run the disk alone, that is the tables that
   the manifest names and the logs from its log number on, shows the acknowledged
   writes, to every reader from the floor on, and knows the last sequence number.
   */
  lemma {:induction false} DiskHoldsEverything(run: seq<System>, steps: seq<Step>, j: nat, k: UserKey, n: SequenceNumber)
    requires IsRun(run, steps) && j < |run|
    ensures var d := if run[j].Up? then run[j].store.disk else run[j].disk;
            var floor := if run[j].Up? then run[j].store.floor else run[j].floor;
      && Stored(d.tables, d.manifest.version)
      && (floor <= n ==> View(DiskEntries(d), k, n) == View(History(run[j]), k, n))
      && DiskEntries(d) <= History(run[j])
      && Covered(History(run[j]), d.manifest.lastSequence, LogEntries(d))
  {
    hide Does, DiskInv, LogsInv, MemoryInv, BackgroundInv, View, Stored, Below;
    RunKeepsInv(run, steps, j);
    DiskFacts(if run[j].Up? then run[j].store.disk else run[j].disk, History(run[j]),
              if run[j].Up? then run[j].store.floor else run[j].floor);
  }

  /** The level rules hold of the current version in every state, so lookup is right. */
  lemma {:induction false} VersionsAreWellFormed(run: seq<System>, steps: seq<Step>, j: nat)
    requires IsRun(run, steps) && j < |run| && run[j].Up?
    ensures WellFormed(run[j].store.version) && UniqueSequences(Visible(run[j].store))
    ensures Older(AllEntries(run[j].store.version), Memory(run[j].store))
  {
    hide Does, StoreInv, WellFormed, UniqueSequences;
    RunKeepsInv(run, steps, j);
    VersionFacts(run[j].store);
  }

  /**
   The guard on flushed tables asks for nothing when no flush came in between, or when the
   merge takes one file of the input level.
   */
  lemma {:induction false} GuardIsOftenMet(run: seq<System>, steps: seq<Step>, j: nat)
    requires IsRun(run, steps) && j < |run| && run[j].Up? && run[j].store.bg.Compacting?
    requires var w := run[j].store.bg.work;
      |w.v.files| == NUM_LEVELS && Concat(w.outputs) == Survivors(w.v, w.level, w.input, w.smallestSnapshot, |w.input|)
    ensures var s := run[j].store;
      s.version == s.bg.work.v || |s.bg.work.in0| == 1 ==> OutputsClear(s.bg.work, s.version)
  {
    var s := run[j].store;
    hide Does, StoreInv, OutputsClear, Meanwhile, Survivors, Work.Valid, OrderedLevels;
    RunKeepsInv(run, steps, j);
    VersionFacts(s);
    assert |s.version.files| == NUM_LEVELS by { SoundHasLevels(s.version, s.nextFile); }
    WorkIsValid(s);
    CompactingFacts(s);
    var w := s.bg.work.(nextAfter := s.nextFile);
    FinishedMeanwhile(s.bg.work, s.nextFile, s.version, s.nextFile);
    if s.version == s.bg.work.v {
      NothingInTheWay(s.bg.work);
    } else if |w.in0| == 1 {
      OneInputIsClear(w, s.version, s.nextFile);
      SameOutputs(w, s.bg.work, s.version);
    }
  }

  lemma {:induction false} SoundHasLevels(v: Version, next: nat)
    requires Sound(v, next)
    ensures |v.files| == NUM_LEVELS
  {
  }

  lemma {:induction false} NothingInTheWay(w: Work)
    ensures OutputsClear(w, w.v)
  {
  }

  lemma {:induction false} SameOutputs(w: Work, u: Work, v: Version)
    requires OutputsClear(w, v) && w.v == u.v && w.level == u.level && w.outputs == u.outputs
    ensures OutputsClear(u, v)
  {
    hide AllPlaced, Meets;
    assert Flushed(u, v) == Flushed(w, v);
  }
}
