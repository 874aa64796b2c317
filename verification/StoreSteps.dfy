/**
 The steps of the store: writers, readers, the background thread and its cleanup, crash
 and restart (db/db_impl.cc, db/version_set.cc).  Every atomic action under the mutex is
 one step; between two of them any other thread may go on.
 */
module StoreSteps {
  import opened Wrappers
  import opened DbFormat
  import opened Views
  import opened StoreViews
  import opened Versions
  import opened CompactionInputs
  import opened MergeRules
  import opened Compactions
  import opened CompactionPicker
  import opened CompactionMeaning
  import opened VersionBuilder
  import opened LevelRules
  import opened FlushDuringCompaction
  import opened StoreState

  // ----- writers -----

  ghost predicate StartWrite(s: Store, batch: seq<Entry>, s': Store) {
    s.inFlight == [] && NextBatch(batch, s.lastSequence) && s' == s.(inFlight := batch)
  }

  // The record is complete in the log, the batch is in the memtable, readers may see it.
  ghost predicate Acknowledge(s: Store, s': Store) {
    && s.currentLog in s.disk.logs
    && s.lastSequence + |s.inFlight| < MAX_SEQUENCE_NUMBER
    && var log := s.disk.logs[s.currentLog] + s.inFlight;
       s' == s.(disk := s.disk.(logs := s.disk.logs[s.currentLog := log]),
                mem := s.mem + s.inFlight,
                lastSequence := s.lastSequence + |s.inFlight|,
                history := s.history + Contents(s.inFlight),
                inFlight := [])
  }

  // MakeRoomForWrite: a full memtable becomes immutable, with a new log after it.
  ghost predicate Switch(s: Store, s': Store) {
    && s.imm.None? && s.inFlight == []
    && s' == s.(disk := s.disk.(logs := s.disk.logs[s.nextFile := []]),
                mem := [], imm := Some(s.mem), immLog := s.currentLog,
                currentLog := s.nextFile, nextFile := s.nextFile + 1)
  }

  // ----- readers -----

  ghost predicate TakeSnapshot(s: Store, s': Store) {
    s' == s.(snapshots := s.snapshots + [s.lastSequence])
  }

  ghost predicate ReleaseSnapshot(s: Store, i: nat, s': Store) {
    i < |s.snapshots| && s' == s.(snapshots := s.snapshots[..i] + s.snapshots[i + 1..])
  }

  // A reader uses a snapshot, or the last sequence number.
  ghost predicate OpenReader(s: Store, n: SequenceNumber, s': Store) {
    && (n in s.snapshots || n == s.lastSequence)
    && s' == s.(readers := s.readers + {Reader(s.version, Memory(s), n)})
  }

  ghost predicate CloseReader(s: Store, r: Reader, s': Store) {
    s' == s.(readers := s.readers - {r})
  }

  // ----- the flush of the immutable memtable -----

  // By the background thread itself, or by the merge loop between two keys.
  ghost predicate FlushStart(s: Store, s': Store) {
    && (s.bg.Idle? || s.bg.Compacting?) && s.imm.Some?
    && s' == s.(disk := s.disk.(tables := s.disk.tables[s.nextFile := []]),
                pending := s.pending + {s.nextFile},
                nextFile := s.nextFile + 1,
                bg := FlushBuilding(s.nextFile), paused := MergeOf(s))
  }

  // What PickLevelForMemTableOutput guarantees of the level.
  ghost predicate PickedLevel(v: Version, level: nat, f: FileMetaData) {
    && level <= MAX_MEM_COMPACT_LEVEL
    && (level > 0 ==> forall l :: 0 <= l <= level && l < |v.files| ==> NoOverlap(v.files[l], f.smallest.user, f.largest.user))
  }

  // WriteLevel0Table: an empty memtable gives no table.
  ghost predicate FlushBuild(s: Store, level: nat, f: FileMetaData, s': Store) {
    && s.bg.FlushBuilding? && s.imm.Some?
    && var number := s.bg.number;
       if s.imm.value == [] then
         s' == s.(disk := s.disk.(tables := s.disk.tables - {number}),
                  pending := s.pending - {number}, bg := FlushBuilt(number, []))
       else
         && f.Valid() && f.number == number && Contents(f.table) == Contents(s.imm.value)
         && PickedLevel(s.version, level, f)
         && s' == s.(disk := s.disk.(tables := s.disk.tables[number := f.table]),
                     pending := s.pending - {number}, bg := FlushBuilt(number, [(level, f)]))
  }

  // LogAndApply up to the write: the record names the current log, which alone stays.
  ghost predicate FlushApply(s: Store, v': Version, s': Store) {
    && s.bg.FlushBuilt? && |s.version.files| == NUM_LEVELS
    && Installed(s.version, FileEdit({}, s.bg.files), v')
    && s' == s.(bg := Installing(Manifest(v', s.currentLog, s.nextFile, s.lastSequence), FileEdit({}, s.bg.files), true, {},
                                 s.floor, false))
  }

  // ----- compactions -----

  // With the default size of files (include/leveldb/options.h:115).
  const MAX_GRANDPARENT_OVERLAP_BYTES: nat := 10 * 2 * 1024 * 1024

  ghost predicate Grandparents(v: Version, level: nat, in0: Level, in1: Level, grandparents: Level) {
    if level + 2 < |v.files| then CoverGrandparents(v, level, in0, in1, grandparents) else grandparents == []
  }

  // BackgroundCompaction, when the chosen file can be moved as it is.
  ghost predicate MoveApply(s: Store, level: nat, f: FileMetaData, grandparents: Level, v': Version, s': Store) {
    && s.bg.Idle? && s.imm.None? && Selected(s.version, level, [f], [])
    && Grandparents(s.version, level, [f], [], grandparents)
    && IsTrivialMove([f], [], grandparents, MAX_GRANDPARENT_OVERLAP_BYTES)
    && |s.version.files| == NUM_LEVELS && Installed(s.version, MoveEdit(level, f), v')
    && s' == s.(bg := Installing(Manifest(v', s.logNumber, s.nextFile, s.lastSequence), MoveEdit(level, f), false, {}, s.floor, false))
  }

  ghost predicate CompactionStart(s: Store, level: nat, in0: Level, in1: Level, input: seq<Entry>, s': Store) {
    && s.bg.Idle? && s.imm.None?
    && Selected(s.version, level, in0, in1) && IsMerge(input, in0, in1)
    && s' == s.(bg := Compacting(Work(s.version, s.nextFile, s.nextFile, level, in0, in1, input, Smallest(s), []), None))
  }

  ghost predicate OpenOutput(s: Store, s': Store) {
    && s.bg.Compacting? && s.bg.open.None?
    && s' == s.(disk := s.disk.(tables := s.disk.tables[s.nextFile := []]),
                pending := s.pending + {s.nextFile},
                nextFile := s.nextFile + 1,
                bg := s.bg.(open := Some(s.nextFile)))
  }

  ghost predicate CloseOutput(s: Store, f: FileMetaData, s': Store) {
    && s.bg.Compacting? && s.bg.open == Some(f.number) && f.Valid()
    && s' == s.(disk := s.disk.(tables := s.disk.tables[f.number := f.table]),
                bg := Compacting(s.bg.work.(outputs := s.bg.work.outputs + [f]), None))
  }

  // What is in memory, and what was flushed since the merge began.
  ghost function AboveMerge(s: Store, w: Work): set<Entry> {
    Memory(s) + EntriesOf(Flushed(w, s.version))
  }

  /**
   InstallCompactionResults, up to the write.  The outputs hold what DoCompactionWork
   computes.  Two conjuncts are what the code relies on without establishing it: no
   dropped deletion uncovers the next file of the output level, and no output covers a
   table that was flushed to the output level in the meantime.
   */
  ghost predicate CompactionApply(s: Store, v': Version, s': Store) {
    && s.bg.Compacting? && s.bg.open.None? && |s.version.files| == NUM_LEVELS
    && var w := s.bg.work;
       && |w.v.files| == NUM_LEVELS && w.level + 1 < NUM_LEVELS
       && Concat(w.outputs) == Survivors(w.v, w.level, w.input, w.smallestSnapshot, |w.input|)
       && !Setting(w.v, w.level, w.in0, w.in1, w.input, AboveMerge(s, w), w.smallestSnapshot).Exposed()
       && OutputsClear(w, s.version)
       && Installed(s.version, w.Edit(), v')
       && s' == s.(bg := Installing(Manifest(v', s.logNumber, s.nextFile, s.lastSequence), w.Edit(), false,
                                    OutputNumbers(w.outputs), w.smallestSnapshot, false))
  }

  // A compaction that fails or is cut short by a shutdown.
  ghost predicate AbandonCompaction(s: Store, s': Store) {
    && s.bg.Compacting?
    && var made := OutputNumbers(s.bg.work.outputs) + if s.bg.open.Some? then {s.bg.open.value} else {};
       s' == s.(pending := s.pending - made, bg := Idle)
  }

  // ----- installing a version -----

  ghost predicate WriteManifest(s: Store, s': Store) {
    && s.bg.Installing? && !s.bg.written
    && s' == s.(disk := s.disk.(manifest := s.bg.record), floor := s.bg.keepFrom, bg := s.bg.(written := true))
  }

  ghost predicate InstallVersion(s: Store, s': Store) {
    && s.bg.Installing? && s.bg.written
    && s' == s.(version := s.bg.record.version, logNumber := s.bg.record.logNumber,
                imm := if s.bg.flush then None else s.imm,
                pending := s.pending - s.bg.outputs,
                bg := if s.paused.Some? then Compacting(s.paused.value.work, s.paused.value.open) else Idle,
                paused := None)
  }

  // ----- deletion of files that nobody needs -----

  ghost function FileNumbers(v: Version): set<nat> {
    set p | p in AllPlaced(v) :: p.1.number
  }

  // AddLiveFiles: of the current version and of every version that a reader holds.
  ghost function LiveFiles(s: Store): set<nat> {
    s.pending + FileNumbers(s.version) + set r, n | r in s.readers && n in FileNumbers(r.version) :: n
  }

  ghost function NeededTables(s: Store): map<nat, seq<Entry>> {
    map n | n in s.disk.tables && n in LiveFiles(s) :: s.disk.tables[n]
  }

  ghost function NeededLogs(s: Store): map<nat, seq<Entry>> {
    map n | n in s.disk.logs && n >= s.logNumber :: s.disk.logs[n]
  }

  ghost predicate DeleteObsoleteFiles(s: Store, s': Store) {
    && (s.bg.Idle? || s.bg.Compacting?)
    && s' == s.(disk := Disk(NeededTables(s), NeededLogs(s), s.disk.manifest))
  }

  // ----- crash and restart -----

  // The record of the write in flight may have become complete.
  ghost predicate Crash(s: Store, keep: bool, y': System) {
    if keep then
      && s.currentLog in s.disk.logs
      && var log := s.disk.logs[s.currentLog] + s.inFlight;
         y' == Down(s.disk.(logs := s.disk.logs[s.currentLog := log]), s.history + Contents(s.inFlight), s.floor)
    else
      y' == Down(s.disk, s.history, s.floor)
  }

  // A recovery that crashes before its record reaches the manifest leaves tables that
  // nobody names, and perhaps a new empty log.
  ghost predicate FailedRecovery(d: Disk, tables: map<nat, seq<Entry>>, newLog: nat, d': Disk) {
    && (forall n :: n in tables ==> d.manifest.nextFile < n)
    && newLog !in d.logs
    && (d' == d.(tables := d.tables + tables) || d' == d.(tables := d.tables + tables, logs := d.logs[newLog := []]))
  }

  ghost predicate LastRecovered(d: Disk, n: SequenceNumber) {
    && d.manifest.lastSequence <= n && UpTo(LogEntries(d), n)
    && (n == d.manifest.lastSequence || exists e :: e in LogEntries(d) && e.key.sequence == n)
  }

  // The files have been written, and nothing else.
  ghost predicate TablesWritten(tables: map<nat, seq<Entry>>, files: seq<FileMetaData>, tables': map<nat, seq<Entry>>) {
    && (forall f :: f in files ==> f.number in tables' && tables'[f.number] == f.table)
    && (forall n :: n in tables && n !in OutputNumbers(files) ==> n in tables' && tables'[n] == tables[n])
  }

  // MarkFileNumberUsed of the manifest's log number and of every log that is read.
  ghost predicate LogsBelow(d: Disk, next: nat) {
    d.manifest.logNumber < next && forall n :: n in d.logs && d.manifest.logNumber <= n ==> n < next
  }

  /**
   DBImpl::Recover: the logs that the manifest does not cover become level-0 tables, a
   new log is started after all of them, and one record covers everything.
   */
  ghost predicate Recover(y: System, files: seq<FileMetaData>, tables: map<nat, seq<Entry>>, newLog: nat, v: Version,
                          last: SequenceNumber, s': Store) {
    && y.Down?
    && var d, m := y.disk, y.disk.manifest;
       && |m.version.files| == NUM_LEVELS
       && RecoveryTables(m.version, m.nextFile + 1, files, newLog)
       && Contents(Concat(files)) == LogEntries(d)
       && TablesWritten(d.tables, files, tables)
       && LogsBelow(d, newLog)
       && Installed(m.version, RecoveryEdit(files), v)
       && LastRecovered(d, last)
       && s' == Store(Disk(tables, d.logs[newLog := []], Manifest(v, newLog, newLog + 1, last)),
                      [], None, 0, newLog, newLog, v, {}, {}, newLog + 1, last, [], [], Idle, None, y.history, y.floor)
  }

  // ----- all steps together -----

  datatype Step =
    | DoStartWrite(batch: seq<Entry>)
    | DoAcknowledge
    | DoSwitch
    | DoTakeSnapshot
    | DoReleaseSnapshot(index: nat)
    | DoOpenReader(n: SequenceNumber)
    | DoCloseReader(reader: Reader)
    | DoFlushStart
    | DoFlushBuild(level: nat, file: FileMetaData)
    | DoFlushApply(next: Version)
    | DoMoveApply(level: nat, file: FileMetaData, grandparents: Level, next: Version)
    | DoCompactionStart(level: nat, in0: Level, in1: Level, input: seq<Entry>)
    | DoOpenOutput
    | DoCloseOutput(file: FileMetaData)
    | DoCompactionApply(next: Version)
    | DoAbandonCompaction
    | DoWriteManifest
    | DoInstallVersion
    | DoDeleteObsoleteFiles
    | DoCrash(keep: bool)
    | DoFailedRecovery(tables: map<nat, seq<Entry>>, newLog: nat)
    | DoRecover(files: seq<FileMetaData>, tables: map<nat, seq<Entry>>, newLog: nat, next: Version, last: SequenceNumber)

  ghost predicate StoreStep(s: Store, step: Step, s': Store) {
    match step
    case DoStartWrite(batch) => StartWrite(s, batch, s')
    case DoAcknowledge => Acknowledge(s, s')
    case DoSwitch => Switch(s, s')
    case DoTakeSnapshot => TakeSnapshot(s, s')
    case DoReleaseSnapshot(index) => ReleaseSnapshot(s, index, s')
    case DoOpenReader(n) => OpenReader(s, n, s')
    case DoCloseReader(reader) => CloseReader(s, reader, s')
    case DoFlushStart => FlushStart(s, s')
    case DoFlushBuild(level, file) => FlushBuild(s, level, file, s')
    case DoFlushApply(next) => FlushApply(s, next, s')
    case DoMoveApply(level, file, grandparents, next) => MoveApply(s, level, file, grandparents, next, s')
    case DoCompactionStart(level, in0, in1, input) => CompactionStart(s, level, in0, in1, input, s')
    case DoOpenOutput => OpenOutput(s, s')
    case DoCloseOutput(file) => CloseOutput(s, file, s')
    case DoCompactionApply(next) => CompactionApply(s, next, s')
    case DoAbandonCompaction => AbandonCompaction(s, s')
    case DoWriteManifest => WriteManifest(s, s')
    case DoInstallVersion => InstallVersion(s, s')
    case DoDeleteObsoleteFiles => DeleteObsoleteFiles(s, s')
    case _ => false
  }

  ghost predicate Does(y: System, step: Step, y': System) {
    match y
    case Up(s) =>
      if step.DoCrash? then Crash(s, step.keep, y') else y'.Up? && StoreStep(s, step, y'.store)
    case Down(disk, history, floor) =>
      || (step.DoFailedRecovery? && y'.Down? && y'.history == history && y'.floor == floor
          && FailedRecovery(disk, step.tables, step.newLog, y'.disk))
      || (step.DoRecover? && y'.Up? && Recover(y, step.files, step.tables, step.newLog, step.next, step.last, y'.store))
  }

  const EMPTY_VERSION := Version([[], [], [], [], [], [], []])

  // What NewDB writes.
  const NEW_STORE := Down(Disk(map[], map[], Manifest(EMPTY_VERSION, 0, 2, 0)), {}, 0)

  // A run and the step taken from each of its states.
  ghost predicate IsRun(run: seq<System>, steps: seq<Step>) {
    && run != [] && run[0] == NEW_STORE
    && |steps| == |run| - 1
    && forall i :: 0 <= i < |steps| ==> Does(run[i], steps[i], run[i + 1])
  }
}
