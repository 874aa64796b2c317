/**
 The whole store as a state machine: memtables and their logs, the current version, the
 manifest on disk, the background thread between two of its steps, open readers and
 snapshots (db/db_impl.h, db/version_set.h).  What a crash leaves is the disk alone.
 */
module StoreState {
  import opened Wrappers
  import opened DbFormat
  import opened Views
  import opened StoreViews
  import opened Versions
  import opened MergeRules
  import opened Compactions
  import opened CompactionPicker
  import opened CompactionMeaning
  import opened ManifestReplay
  import opened VersionBuilder
  import opened LevelRules
  import opened FlushDuringCompaction

  // What the edits logged so far amount to.
  datatype Manifest = Manifest(version: Version, logNumber: nat, nextFile: nat, lastSequence: SequenceNumber)

  // The logs hold complete records only; an append that a crash cuts is not there.
  datatype Disk = Disk(tables: map<nat, seq<Entry>>, logs: map<nat, seq<Entry>>, manifest: Manifest)

  // An open iterator or a lookup in progress, with the sources it pinned.
  datatype Reader = Reader(version: Version, memory: set<Entry>, sequence: SequenceNumber)

  datatype Background =
    | Idle
    | FlushBuilding(number: nat)
    | FlushBuilt(number: nat, files: seq<(nat, FileMetaData)>)
    | Compacting(work: Work, open: Option<nat>)
    // LogAndApply: the record is fixed, and on disk once `written`.
    | Installing(record: Manifest, edit: FileEdit, flush: bool, outputs: set<nat>, keepFrom: SequenceNumber, written: bool)

  // A merge loop, with the output that it has open.
  datatype Merging = Merging(work: Work, open: Option<nat>)

  datatype Store = Store(
    disk: Disk,
    mem: seq<Entry>,
    imm: Option<seq<Entry>>,
    immLog: nat,
    currentLog: nat,
    logNumber: nat,
    version: Version,
    readers: set<Reader>,
    pending: set<nat>,
    nextFile: nat,
    lastSequence: SequenceNumber,
    snapshots: seq<SequenceNumber>,
    inFlight: seq<Entry>,
    bg: Background,
    // The merge loop that a flush has interrupted.
    paused: Option<Merging>,
    // Every acknowledged write; readers below `floor` are gone.
    history: set<Entry>,
    floor: SequenceNumber)

  datatype System = Up(store: Store) | Down(disk: Disk, history: set<Entry>, floor: SequenceNumber)

  // ----- the parts of a state -----

  ghost function ImmEntries(s: Store): set<Entry> {
    if s.imm.Some? then Contents(s.imm.value) else {}
  }

  ghost function Memory(s: Store): set<Entry> {
    Contents(s.mem) + ImmEntries(s)
  }

  // Everything that a reader of the running store can find.
  ghost function Visible(s: Store): set<Entry> {
    AllEntries(s.version) + Memory(s)
  }

  ghost function LogEntries(d: Disk): set<Entry> {
    set n, e | n in d.logs && d.manifest.logNumber <= n && e in d.logs[n] :: e
  }

  // Everything that a restart will find.
  ghost function DiskEntries(d: Disk): set<Entry> {
    AllEntries(d.manifest.version) + LogEntries(d)
  }

  function Smallest(s: Store): SequenceNumber {
    if s.snapshots == [] then s.lastSequence else s.snapshots[0]
  }

  // Every file of a version is numbered below.
  function Base(s: Store): nat {
    match s.bg
    case FlushBuilding(number) => number
    case FlushBuilt(number, _) => number
    case _ => s.nextFile
  }

  // The merge loop, running or interrupted.
  function MergeOf(s: Store): Option<Merging> {
    match s.bg
    case Compacting(work, open) => Some(Merging(work, open))
    case _ => s.paused
  }

  ghost function OutputNumbers(outputs: seq<FileMetaData>): set<nat> {
    set f | f in outputs :: f.number
  }

  ghost function NumbersOf(m: Merging): set<nat> {
    OutputNumbers(m.work.outputs) + if m.open.Some? then {m.open.value} else {}
  }

  // The numbers of tables that a merge has made and that no version has yet.
  ghost function Own(s: Store): set<nat> {
    if MergeOf(s).Some? then NumbersOf(MergeOf(s).value) else {}
  }

  // ----- the invariant -----

  ghost predicate Covered(history: set<Entry>, n: SequenceNumber, logged: set<Entry>) {
    forall e :: e in history ==> e.key.sequence <= n || e in logged
  }

  /**
   A version and the entries logged since are as good as the whole history: they show
   the same from `floor` on, and they tell the last sequence number.
   */
  ghost predicate Recoverable(m: Manifest, logged: set<Entry>, history: set<Entry>, floor: SequenceNumber) {
    && Sound(m.version, m.nextFile)
    && AllEntries(m.version) <= history && logged <= history
    && Older(AllEntries(m.version), logged)
    && SameViews(AllEntries(m.version) + logged, history, floor)
    && floor <= m.lastSequence < MAX_SEQUENCE_NUMBER
    && Covered(history, m.lastSequence, logged)
  }

  // The files of the version are on disk, with their contents.
  ghost predicate Stored(tables: map<nat, seq<Entry>>, v: Version) {
    forall p :: p in AllPlaced(v) ==> p.1.number in tables && tables[p.1.number] == p.1.table
  }

  ghost predicate Below(v: Version, next: nat, own: set<nat>) {
    forall p :: p in AllPlaced(v) ==> p.1.number < next && p.1.number !in own
  }

  ghost predicate Increasing(log: seq<Entry>) {
    forall i, j :: 0 <= i < j < |log| ==> log[i].key.sequence < log[j].key.sequence
  }

  ghost predicate LogsInOrder(logs: map<nat, seq<Entry>>, from: nat) {
    && (forall n :: n in logs && from <= n ==> Increasing(logs[n]))
    && (forall n, m :: n in logs && m in logs && from <= n < m ==> Older(Contents(logs[n]), Contents(logs[m])))
  }

  ghost predicate Bounded(history: set<Entry>) {
    forall e :: e in history ==> e.key.sequence < MAX_SEQUENCE_NUMBER
  }

  /** Crash safety: the disk alone gives back every acknowledged write. */
  ghost predicate DiskInv(d: Disk, history: set<Entry>, floor: SequenceNumber) {
    && UniqueSequences(history) && Bounded(history)
    && Recoverable(d.manifest, LogEntries(d), history, floor)
    && Stored(d.tables, d.manifest.version)
    && LogsInOrder(d.logs, d.manifest.logNumber)
  }

  // The immutable memtable is still needed from its log.
  predicate ImmIsLogged(s: Store) {
    s.imm.Some? && !(s.bg.Installing? && s.bg.flush && s.bg.written)
  }

  ghost predicate LogsInv(s: Store) {
    var logs, first := s.disk.logs, s.disk.manifest.logNumber;
    && s.logNumber <= first <= s.currentLog < s.nextFile
    && s.currentLog in logs && logs[s.currentLog] == s.mem
    && (ImmIsLogged(s) ==> first <= s.immLog < s.currentLog && s.immLog in logs && logs[s.immLog] == s.imm.value)
    && (forall n :: n in logs && first <= n ==> n == s.currentLog || (ImmIsLogged(s) && n == s.immLog))
  }

  ghost function Current(s: Store): Manifest {
    Manifest(s.version, s.logNumber, Base(s), s.lastSequence)
  }

  ghost predicate MemoryInv(s: Store) {
    && Recoverable(Current(s), Memory(s), s.history, s.floor)
    && Stored(s.disk.tables, s.version) && Below(s.version, Base(s), Own(s))
    && UpTo(s.history, s.lastSequence)
    && (s.imm.Some? ==> Older(Contents(s.imm.value), Contents(s.mem)))
    && NextBatch(s.inFlight, s.lastSequence)
  }

  // Consecutive sequence numbers after `last`.
  ghost predicate NextBatch(batch: seq<Entry>, last: SequenceNumber) {
    && last + |batch| < MAX_SEQUENCE_NUMBER
    && forall i :: 0 <= i < |batch| ==> batch[i].key.sequence == last + 1 + i
  }

  ghost predicate ReaderInv(r: Reader, tables: map<nat, seq<Entry>>, base: nat, own: set<nat>, last: SequenceNumber, history: set<Entry>) {
    && Below(r.version, base, own) && Stored(tables, r.version)
    && r.sequence <= last
    && forall k :: View(AllEntries(r.version) + r.memory, k, r.sequence) == View(history, k, r.sequence)
  }

  ghost predicate ReadersInv(s: Store) {
    forall r :: r in s.readers ==> ReaderInv(r, s.disk.tables, Base(s), Own(s), s.lastSequence, s.history)
  }

  ghost predicate SnapshotsInv(s: Store) {
    && s.floor <= Smallest(s)
    && (forall i :: 0 <= i < |s.snapshots| ==> Smallest(s) <= s.snapshots[i] <= s.lastSequence)
    && (forall i, j :: 0 <= i < j < |s.snapshots| ==> s.snapshots[i] <= s.snapshots[j])
  }

  // Between two steps the manifest on disk describes the current version, except right
  // after a record has reached it.
  ghost predicate ManifestInv(s: Store) {
    if s.bg.Installing? && s.bg.written then s.disk.manifest == s.bg.record
    else s.disk.manifest.version == s.version && s.disk.manifest.logNumber == s.logNumber
  }

  ghost predicate FlushInv(s: Store, number: nat, files: seq<(nat, FileMetaData)>) {
    && s.imm.Some? && number < s.nextFile
    && |files| <= 1
    && (files == [] ==> s.imm.value == [])
    && (files != [] ==>
          var (level, f) := files[0];
          && f.number == number && f.number in s.disk.tables && s.disk.tables[f.number] == f.table
          && Flushable(s.version, number, level, f)
          && Contents(f.table) == Contents(s.imm.value))
  }

  // The work of a compaction, before all outputs are there.
  ghost predicate Begun(w: Work) {
    && Sound(w.v, w.next) && UniqueSequences(AllEntries(w.v))
    && Selected(w.v, w.level, w.in0, w.in1) && IsMerge(w.input, w.in0, w.in1)
  }

  ghost predicate MergingInv(s: Store, w: Work, open: Option<nat>) {
    && Begun(w) && Meanwhile(w, s.version, Base(s))
    && w.next <= s.nextFile
    && UsableOutputs(w.outputs, w.next, s.nextFile)
    && OutputsStored(s.disk.tables, s.pending, w.outputs)
    && (open.Some? ==> w.next <= open.value < s.nextFile && open.value in s.pending)
    && (open.Some? ==> forall f :: f in w.outputs ==> f.number != open.value)
    && s.floor <= w.smallestSnapshot <= Smallest(s) && w.smallestSnapshot <= s.lastSequence
  }

  ghost predicate OutputsStored(tables: map<nat, seq<Entry>>, pending: set<nat>, outputs: seq<FileMetaData>) {
    forall f :: f in outputs ==> f.number in pending && f.number in tables && tables[f.number] == f.table
  }

  // What stays logged once the record counts.
  ghost function StillLogged(s: Store, flush: bool): set<Entry> {
    if flush then Contents(s.mem) else Memory(s)
  }

  ghost predicate InstallingInv(s: Store, record: Manifest, flush: bool, keepFrom: SequenceNumber) {
    && Recoverable(record, StillLogged(s, flush), s.history, keepFrom)
    && record.nextFile <= s.nextFile
    && Stored(s.disk.tables, record.version)
    && record.logNumber == (if flush then s.currentLog else s.logNumber)
    && (flush ==> s.imm.Some?)
    && s.floor <= keepFrom <= Smallest(s) && record.lastSequence <= s.lastSequence
    && (s.bg.Installing? && s.bg.written ==> s.floor == keepFrom)
  }

  ghost predicate BackgroundInv(s: Store) {
    match s.bg
    case Idle => true
    case FlushBuilding(number) => s.imm.Some? && number < s.nextFile
    case FlushBuilt(number, files) => FlushInv(s, number, files)
    case Compacting(work, open) => MergingInv(s, work, open)
    case Installing(record, _, flush, outputs, keepFrom, written) => InstallingInv(s, record, flush, keepFrom)
  }

  // Only a flush interrupts a merge loop.  The number of its table is its own, and what it
  // installs leaves the merge what it relies on.
  ghost predicate PausedInv(s: Store) {
    s.paused.Some? ==>
      && MergingInv(s, s.paused.value.work, s.paused.value.open)
      && match s.bg
         case FlushBuilding(number) => number !in NumbersOf(s.paused.value)
         case FlushBuilt(number, _) => number !in NumbersOf(s.paused.value)
         case Installing(record, _, flush, outputs, keepFrom, _) =>
           && flush && outputs == {} && keepFrom <= s.paused.value.work.smallestSnapshot
           && Meanwhile(s.paused.value.work, record.version, record.nextFile)
           && Below(record.version, record.nextFile, NumbersOf(s.paused.value))
         case _ => false
  }

  ghost predicate StoreInv(s: Store) {
    && DiskInv(s.disk, s.history, s.floor)
    && LogsInv(s)
    && MemoryInv(s)
    && ReadersInv(s)
    && SnapshotsInv(s)
    && ManifestInv(s)
    && BackgroundInv(s)
    && PausedInv(s)
  }

  ghost predicate Inv(y: System) {
    match y
    case Up(s) => StoreInv(s)
    case Down(disk, history, floor) => DiskInv(disk, history, floor)
  }
}
