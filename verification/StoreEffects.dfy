/**
 What the steps of the store achieve over whole runs, beside keeping it safe: a write that
 is acknowledged is there for good and a new snapshot covers it, sequence numbers leave no
 gap, a compaction forgets what no snapshot needs, and the deletion of obsolete files
 leaves exactly the files in use.
 */
module StoreEffects {
  import opened Wrappers
  import opened DbFormat
  import opened Views
  import opened StoreViews
  import opened Versions
  import opened MergeRules
  import opened Compactions
  import opened CompactionPicker
  import opened CompactionMeaning
  import opened VersionBuilder
  import opened ManifestReplay
  import opened LevelRules
  import opened FlushDuringCompaction
  import opened StoreState
  import opened StoreSteps
  import opened StoreSafety
  import opened StoreRun

  // ----- deletion of obsolete files -----

  // The numbers of the tables that are being made.
  ghost function Making(s: Store): set<nat> {
    Own(s) + match s.bg
             case FlushBuilding(number) => {number}
             case Installing(_, _, _, outputs, _, _) => outputs
             case _ => {}
  }

  ghost predicate PendingIsMade(s: Store) {
    s.pending == Making(s) && s.pending <= s.disk.tables.Keys
  }

  ghost predicate MadeIn(y: System) {
    y.Up? ==> PendingIsMade(y.store)
  }

  lemma {:induction false} FactsOfPaused(s: Store)
    requires StoreInv(s)
    ensures s.paused.Some? ==> s.bg.FlushBuilding? || s.bg.FlushBuilt? || (s.bg.Installing? && s.bg.flush && s.bg.outputs == {})
    ensures s.paused.Some? && s.bg.FlushBuilding? ==> s.bg.number !in NumbersOf(s.paused.value)
    ensures PausedInv(s)
  {
    hide DiskInv, LogsInv, MemoryInv, ReadersInv, SnapshotsInv, ManifestInv, BackgroundInv, MergingInv;
  }

  lemma {:induction false} FlushKeepsPending(s: Store, step: Step, s': Store)
    requires PendingIsMade(s) && StoreStep(s, step, s') && (step.DoFlushStart? || step.DoFlushBuild? || step.DoFlushApply?)
    requires s.paused.Some? && s.bg.FlushBuilding? ==> s.bg.number !in NumbersOf(s.paused.value)
    ensures PendingIsMade(s')
  {
    hide Installed, PickedLevel, FileMetaData.Valid, Memory, Contents, OutputNumbers;
  }

  lemma {:induction false} OutputKeepsPending(s: Store, step: Step, s': Store)
    requires PendingIsMade(s) && StoreStep(s, step, s') && (step.DoOpenOutput? || step.DoCloseOutput?)
    ensures PendingIsMade(s')
  {
    hide FileMetaData.Valid, Contents, Smallest;
  }

  lemma {:induction false} CompactionKeepsPending(s: Store, step: Step, s': Store)
    requires PendingIsMade(s) && StoreStep(s, step, s') && (s.bg.Idle? || s.bg.Compacting? ==> s.paused.None?)
    requires step.DoMoveApply? || step.DoCompactionStart? || step.DoCompactionApply? || step.DoAbandonCompaction?
    ensures PendingIsMade(s')
  {
    hide Installed, Selected, Survivors, Setting.Exposed, IsMerge, Grandparents, OutputsClear, AboveMerge, Smallest, Work.Edit, MoveEdit,
      Contents;
  }

  lemma {:induction false} CleanupKeepsPending(s: Store, step: Step, s': Store)
    requires PendingIsMade(s) && StoreStep(s, step, s') && (step.DoInstallVersion? || step.DoDeleteObsoleteFiles?)
    requires s.paused.Some? && s.bg.Installing? ==> s.bg.outputs == {}
    requires PausedInv(s)
    ensures PendingIsMade(s')
  {
    hide FileNumbers, NeededLogs, OutputNumbers, MergingInv, Meanwhile;
  }

  lemma {:induction false} OthersKeepPending(s: Store, step: Step, s': Store)
    requires PendingIsMade(s) && StoreStep(s, step, s')
    requires step.DoStartWrite? || step.DoAcknowledge? || step.DoSwitch? || step.DoTakeSnapshot? || step.DoReleaseSnapshot?
             || step.DoOpenReader? || step.DoCloseReader? || step.DoWriteManifest?
    ensures PendingIsMade(s')
  {
    hide NextBatch, Memory, Contents, OutputNumbers;
  }

  lemma {:induction false} StepKeepsPending(s: Store, step: Step, s': Store)
    requires StoreInv(s) && StoreStep(s, step, s') && PendingIsMade(s)
    ensures PendingIsMade(s')
  {
    FactsOfPaused(s);
    hide *;
    if step.DoFlushStart? || step.DoFlushBuild? || step.DoFlushApply? {
      FlushKeepsPending(s, step, s');
    } else if step.DoOpenOutput? || step.DoCloseOutput? {
      OutputKeepsPending(s, step, s');
    } else if step.DoMoveApply? || step.DoCompactionStart? || step.DoCompactionApply? || step.DoAbandonCompaction? {
      CompactionKeepsPending(s, step, s');
    } else if step.DoInstallVersion? || step.DoDeleteObsoleteFiles? {
      CleanupKeepsPending(s, step, s');
    } else {
      StepIsListed(s, step, s');
      OthersKeepPending(s, step, s');
    }
  }

  lemma {:induction false} StepIsListed(s: Store, step: Step, s': Store)
    requires StoreStep(s, step, s')
    ensures !step.DoCrash? && !step.DoFailedRecovery? && !step.DoRecover?
  {
  }

  lemma {:induction false} MadeInEveryState(run: seq<System>, steps: seq<Step>, i: nat)
    requires IsRun(run, steps) && i < |run|
    ensures MadeIn(run[i])
  {
    hide Inv, Does, PendingIsMade;
    if i > 0 {
      MadeInEveryState(run, steps, i - 1);
      RunKeepsInv(run, steps, i - 1);
      StepKeepsMade(run[i - 1], steps[i - 1], run[i]);
    }
  }

  lemma {:induction false} StepKeepsMade(y: System, step: Step, y': System)
    requires Inv(y) && MadeIn(y) && Does(y, step, y')
    ensures MadeIn(y')
  {
    hide StoreInv, StoreStep;
    if y.Up? && y'.Up? {
      hide PendingIsMade;
      StepKeepsPending(y.store, step, y'.store);
    } else if y'.Up? {
      assert y'.store.pending == {} && y'.store.bg.Idle? && y'.store.paused.None? by {
        hide Installed, RecoveryTables, LogEntries, TablesWritten, LogsBelow, LastRecovered, Inv, MadeIn;
      }
    }
  }

  // The tables of the versions that readers hold.
  ghost function HeldByReaders(s: Store): set<nat> {
    set r, n | r in s.readers && n in FileNumbers(r.version) :: n
  }

  lemma {:induction false} StoredFiles(tables: map<nat, seq<Entry>>, v: Version)
    requires Stored(tables, v)
    ensures FileNumbers(v) <= tables.Keys
  {
    hide AllPlaced;
  }

  lemma {:induction false} CleanupLeavesTables(s: Store, s': Store)
    requires StoreInv(s) && PendingIsMade(s) && DeleteObsoleteFiles(s, s')
    ensures s'.disk.tables.Keys == FileNumbers(s'.version) + HeldByReaders(s') + Own(s')
  {
    assert Stored(s.disk.tables, s.version) && ReadersInv(s) by {
      hide DiskInv, LogsInv, Recoverable, ReadersInv, SnapshotsInv, ManifestInv, BackgroundInv, PausedInv, Stored, Below, UpTo;
    }
    hide StoreInv, Own, Stored, FileNumbers, NeededLogs;
    StoredFiles(s.disk.tables, s.version);
    forall r | r in s.readers
      ensures FileNumbers(r.version) <= s.disk.tables.Keys
    {
      assert ReaderInv(r, s.disk.tables, Base(s), Own(s), s.lastSequence, s.history);
      StoredFiles(s.disk.tables, r.version);
    }
  }

  lemma {:induction false} CleanupLeavesLogs(s: Store, s': Store)
    requires StoreInv(s) && DeleteObsoleteFiles(s, s')
    ensures s'.disk.logs.Keys == {s'.currentLog} + if s'.imm.Some? then {s'.immLog} else {}
  {
    hide DiskInv, MemoryInv, ReadersInv, SnapshotsInv, BackgroundInv, PausedInv, NeededTables;
  }

  /**
   The deletion of obsolete files is complete as well as safe.  After it the tables on
   disk are exactly those of the current version, of the versions that readers hold and
   of the merge in progress, and the logs are exactly those of the two memtables.
   */
  lemma {:induction false} CleanupLeavesOnlyNeeded(run: seq<System>, steps: seq<Step>, i: nat)
    requires IsRun(run, steps) && i < |steps| && steps[i].DoDeleteObsoleteFiles?
    ensures run[i + 1].Up?
    ensures var s := run[i + 1].store;
      && s.disk.tables.Keys == FileNumbers(s.version) + HeldByReaders(s) + Own(s)
      && s.disk.logs.Keys == {s.currentLog} + (if s.imm.Some? then {s.immLog} else {})
  {
    RunKeepsInv(run, steps, i);
    MadeInEveryState(run, steps, i);
    assert Does(run[i], steps[i], run[i + 1]);
    hide StoreInv, PendingIsMade, DeleteObsoleteFiles, Own, FileNumbers;
    CleanupLeavesTables(run[i].store, run[i + 1].store);
    CleanupLeavesLogs(run[i].store, run[i + 1].store);
  }

  // ----- writes -----

  ghost function InFlight(y: System): seq<Entry> {
    if y.Up? then y.store.inFlight else []
  }

  lemma {:induction false} StepOfWrites(y: System, step: Step, y': System)
    requires Does(y, step, y')
    ensures InFlight(y') == if step.DoStartWrite? then step.batch
                            else if step.DoAcknowledge? || step.DoCrash? then []
                            else InFlight(y)
    ensures step.DoStartWrite? ==> InFlight(y) == []
    ensures History(y') == History(y) + if step.DoAcknowledge? || (step.DoCrash? && step.keep) then Contents(InFlight(y)) else {}
  {
    hide Installed, Selected, Survivors, Setting.Exposed, RecoveryTables, PickedLevel, IsMerge, NextBatch, TablesWritten, LastRecovered,
      LogsBelow, FileMetaData.Valid, Contents, Grandparents, OutputsClear, AboveMerge;
  }

  lemma {:induction false} WriteIsInFlight(run: seq<System>, steps: seq<Step>, h: nat, i: nat)
    requires IsRun(run, steps) && h < i < |run| && steps[h].DoStartWrite? && steps[h].batch != []
    requires forall m :: h < m < i ==> !steps[m].DoAcknowledge? && !steps[m].DoCrash?
    ensures InFlight(run[i]) == steps[h].batch
  {
    hide Does, InFlight;
    StepOfWrites(run[i - 1], steps[i - 1], run[i]);
    if h < i - 1 {
      WriteIsInFlight(run, steps, h, i - 1);
    }
  }

  /**
   A write stays.  From the step that acknowledges it on, every operation of its batch is
   in the history, whatever happens to the store afterwards.
   */
  lemma {:induction false} AcknowledgedBatchStays(run: seq<System>, steps: seq<Step>, h: nat, i: nat, j: nat)
    requires IsRun(run, steps) && h < i < j < |run| && steps[h].DoStartWrite? && steps[i].DoAcknowledge?
    requires forall m :: h < m < i ==> !steps[m].DoAcknowledge? && !steps[m].DoCrash?
    ensures Contents(steps[h].batch) <= History(run[j])
  {
    hide Does, InFlight, Contents;
    if steps[h].batch != [] {
      WriteIsInFlight(run, steps, h, i);
      StepOfWrites(run[i], steps[i], run[i + 1]);
      HistoryOnlyGrows(run, steps, i + 1, j);
    } else {
      assert Contents([]) == {} by { NoContents(); }
    }
  }

  lemma {:induction false} NoContents()
    ensures Contents([]) == {}
  {
  }

  ghost predicate Written(steps: seq<Step>, i: nat, e: Entry) {
    exists h :: 0 <= h < i && h < |steps| && steps[h].DoStartWrite? && e in steps[h].batch
  }

  /** Nothing but what was written gets into the history. */
  lemma {:induction false} HistoryIsWritten(run: seq<System>, steps: seq<Step>, i: nat, e: Entry)
    requires IsRun(run, steps) && i < |run| && (e in History(run[i]) || e in InFlight(run[i]))
    ensures Written(steps, i, e)
  {
    hide Does, InFlight, History;
    NothingYet();
    if i > 0 {
      StepOfWrites(run[i - 1], steps[i - 1], run[i]);
      if e in History(run[i - 1]) || e in InFlight(run[i - 1]) {
        HistoryIsWritten(run, steps, i - 1, e);
        var h :| 0 <= h < i - 1 && h < |steps| && steps[h].DoStartWrite? && e in steps[h].batch;
      }
    }
  }

  lemma {:induction false} NothingYet()
    ensures History(NEW_STORE) == {} && InFlight(NEW_STORE) == []
  {
  }

  // ----- sequence numbers -----

  ghost function Sequences(history: set<Entry>): set<int> {
    set e | e in history :: e.key.sequence as int
  }

  ghost predicate Numbered(history: set<Entry>, last: int) {
    forall n: int :: n in Sequences(history) <==> 1 <= n <= last
  }

  // The manifest never runs ahead of the history.
  ghost predicate NoGaps(y: System) {
    match y
    case Up(s) => Numbered(s.history, s.lastSequence) && s.disk.manifest.lastSequence <= s.lastSequence
    case Down(disk, history, _) => exists last: nat :: Numbered(history, last) && disk.manifest.lastSequence <= last
  }

  lemma {:induction false} NumberedBatch(history: set<Entry>, last: SequenceNumber, batch: seq<Entry>)
    requires Numbered(history, last) && NextBatch(batch, last)
    ensures Numbered(history + Contents(batch), last + |batch|)
  {
    forall n: int
      ensures n in Sequences(history + Contents(batch)) <==> 1 <= n <= last + |batch|
    {
      assert n in Sequences(history) <==> 1 <= n <= last;
      if n in Sequences(history + Contents(batch)) {
        var e :| e in history + Contents(batch) && e.key.sequence == n;
        assert e in history ==> n in Sequences(history);
      }
      if 1 <= n <= last {
        var e :| e in history && e.key.sequence == n;
        assert e in history + Contents(batch);
      } else if last < n <= last + |batch| {
        assert batch[n - last - 1] in batch;
      }
    }
  }

  lemma {:induction false} RestartIsNumbered(d: Disk, history: set<Entry>, last: SequenceNumber, known: nat)
    requires Numbered(history, known) && d.manifest.lastSequence <= known && LastRecovered(d, last)
    requires LogEntries(d) <= history && UpTo(history, last)
    ensures Numbered(history, last)
  {
    assert known > 0 ==> known in Sequences(history);
    if last != d.manifest.lastSequence {
      var e :| e in LogEntries(d) && e.key.sequence == last;
      assert (last as int) in Sequences(history);
    }
  }

  // What the steps do to the numbers: only an acknowledged write raises the last one.
  lemma {:induction false} StepOfNumbers(s: Store, step: Step, s': Store)
    requires StoreStep(s, step, s')
    ensures s'.lastSequence == if step.DoAcknowledge? then s.lastSequence + |s.inFlight| else s.lastSequence
    ensures s'.disk.manifest == if step.DoWriteManifest? && s.bg.Installing? then s.bg.record else s.disk.manifest
  {
    hide Installed, Selected, Survivors, Setting.Exposed, PickedLevel, IsMerge, NextBatch, FileMetaData.Valid, Contents, Grandparents,
      OutputsClear, AboveMerge, FileNumbers, NeededTables, NeededLogs, Memory;
  }

  lemma {:induction false} NumberFacts(s: Store)
    requires StoreInv(s)
    ensures NextBatch(s.inFlight, s.lastSequence)
    ensures s.bg.Installing? ==> s.bg.record.lastSequence <= s.lastSequence
  {
    hide DiskInv, LogsInv, ReadersInv, SnapshotsInv, ManifestInv, PausedInv, NextBatch, Recoverable, Stored, Below, UpTo, MergingInv, FlushInv;
  }

  lemma {:induction false} CrashKeepsNumbers(s: Store, keep: bool, y': System)
    requires NoGaps(Up(s)) && Crash(s, keep, y') && NextBatch(s.inFlight, s.lastSequence)
    ensures NoGaps(y')
  {
    hide Numbered, NextBatch, Contents;
    NumberedBatch(s.history, s.lastSequence, s.inFlight);
    var last: nat := s.lastSequence + if keep then |s.inFlight| else 0;
    assert Numbered(y'.history, last);
  }

  lemma {:induction false} StepOfCrash(s: Store, step: Step, y': System)
    requires Does(Up(s), step, y') && step.DoCrash?
    ensures Crash(s, step.keep, y')
  {
    hide Crash;
  }

  lemma {:induction false} RunningKeepsNumbers(s: Store, step: Step, s': Store)
    requires NoGaps(Up(s)) && StoreStep(s, step, s') && NextBatch(s.inFlight, s.lastSequence)
    requires s.bg.Installing? ==> s.bg.record.lastSequence <= s.lastSequence
    ensures NoGaps(Up(s'))
  {
    hide Numbered, StoreStep, NextBatch, Contents;
    StepIsListed(s, step, s');
    StepOfWrites(Up(s), step, Up(s'));
    StepOfNumbers(s, step, s');
    NumberedBatch(s.history, s.lastSequence, s.inFlight);
    assert s.history + {} == s.history;
  }

  lemma {:induction false} StepKeepsNoGaps(y: System, step: Step, y': System)
    requires Inv(y) && Does(y, step, y') && NoGaps(y)
    ensures NoGaps(y')
  {
    hide Inv, Numbered, Does, NextBatch;
    match y
    case Up(s) =>
      InvOfUp(s);
      NumberFacts(s);
      if step.DoCrash? {
        StepOfCrash(s, step, y');
        CrashKeepsNumbers(s, step.keep, y');
      } else {
        StaysUp(y, step, y');
        RunningKeepsNumbers(s, step, y'.store);
      }
    case Down(disk, history, floor) =>
      var known: nat :| Numbered(history, known) && disk.manifest.lastSequence <= known;
      if step.DoRecover? {
        InvOfDown(y);
        RestartKeepsNumbers(y, step, y', known);
      } else {
        FailedKeepsNumbers(y, step, y', known);
      }
  }

  lemma {:induction false} FailedKeepsNumbers(y: System, step: Step, y': System, known: nat)
    requires y.Down? && Does(y, step, y') && !step.DoRecover?
    requires Numbered(y.history, known) && y.disk.manifest.lastSequence <= known
    ensures NoGaps(y')
  {
    hide Numbered;
  }

  lemma {:induction false} RestartKeepsNumbers(y: System, step: Step, y': System, known: nat)
    requires y.Down? && DiskInv(y.disk, y.history, y.floor) && Does(y, step, y') && step.DoRecover?
    requires Numbered(y.history, known) && y.disk.manifest.lastSequence <= known
    ensures y'.Up? && NoGaps(y')
  {
    assert LastRecovered(y.disk, step.last) && y'.Up? && y'.store.history == y.history
           && y'.store.lastSequence == y'.store.disk.manifest.lastSequence == step.last by {
      hide DiskInv, Installed, RecoveryTables, LogEntries, TablesWritten, LogsBelow, LastRecovered, Numbered;
    }
    hide Does, Recoverable, LogsInOrder, LastRecovered, Stored, SameViews, Sound, Numbered, LogEntries;
    DiskFacts(y.disk, y.history, y.floor);
    LastCoversHistory(y.disk, y.history, step.last);
    RestartIsNumbered(y.disk, y.history, step.last, known);
  }

  lemma {:induction false} InvOfUp(s: Store)
    requires Inv(Up(s))
    ensures StoreInv(s)
  {
  }

  lemma {:induction false} InvOfDown(y: System)
    requires Inv(y) && y.Down?
    ensures DiskInv(y.disk, y.history, y.floor)
  {
  }

  /**
   The sequence numbers in use are exactly 1 to the last one, each by one write: no step,
   crash or restart loses a number or gives one twice.
   */
  lemma {:induction false} SequencesHaveNoGaps(run: seq<System>, steps: seq<Step>, i: nat)
    requires IsRun(run, steps) && i < |run|
    ensures NoGaps(run[i]) && UniqueSequences(History(run[i]))
  {
    hide Inv, Does, NoGaps, UniqueSequences;
    RunKeepsInv(run, steps, i);
    HistoryIsUnique(run[i]);
    if i == 0 {
      assert NoGaps(NEW_STORE) by { NewHasNoGaps(); }
    } else {
      SequencesHaveNoGaps(run, steps, i - 1);
      RunKeepsInv(run, steps, i - 1);
      StepKeepsNoGaps(run[i - 1], steps[i - 1], run[i]);
    }
  }

  lemma {:induction false} NewHasNoGaps()
    ensures NoGaps(NEW_STORE)
  {
    assert Numbered({}, 0);
  }

  lemma {:induction false} HistoryIsUnique(y: System)
    requires Inv(y)
    ensures UniqueSequences(History(y))
  {
    hide LogsInv, MemoryInv, ReadersInv, SnapshotsInv, ManifestInv, BackgroundInv, PausedInv, Recoverable, Stored, LogsInOrder, UniqueSequences;
  }

  /** A new snapshot covers every write acknowledged so far, and no number after them. */
  lemma {:induction false} SnapshotCoversHistory(run: seq<System>, steps: seq<Step>, i: nat)
    requires IsRun(run, steps) && i < |steps| && steps[i].DoTakeSnapshot?
    ensures run[i + 1].Up? && run[i + 1].store.snapshots != []
    ensures var s := run[i + 1].store;
            var n := s.snapshots[|s.snapshots| - 1];
            forall e :: e in Sequences(History(run[i])) <==> 1 <= e <= n
  {
    SequencesHaveNoGaps(run, steps, i);
    assert Does(run[i], steps[i], run[i + 1]);
    hide StoreInv, UniqueSequences, Sequences;
  }

  // ----- readers -----

  ghost function Readers(y: System): set<Reader> {
    if y.Up? then y.store.readers else {}
  }

  ghost predicate Opens(y: System, step: Step, r: Reader) {
    y.Up? && step.DoOpenReader? && r == Reader(y.store.version, Memory(y.store), step.n)
  }

  // Ended by its owner, or by the end of the process.
  ghost predicate Ends(step: Step, r: Reader) {
    step.DoCrash? || (step.DoCloseReader? && step.reader == r)
  }

  lemma {:induction false} StepOfReaders(y: System, step: Step, y': System, r: Reader)
    requires Does(y, step, y')
    ensures r in Readers(y') <==> Opens(y, step, r) || (r in Readers(y) && !Ends(step, r))
  {
    hide Installed, Selected, Survivors, Setting.Exposed, RecoveryTables, PickedLevel, IsMerge, NextBatch, TablesWritten, LastRecovered,
      LogsBelow, FileMetaData.Valid, Contents, Grandparents, OutputsClear, AboveMerge, Memory;
  }

  ghost predicate OpenSince(run: seq<System>, steps: seq<Step>, h: nat, j: nat, r: Reader)
    requires |steps| < |run| && j <= |steps|
  {
    h < j && Opens(run[h], steps[h], r) && forall m :: h < m < j ==> !Ends(steps[m], r)
  }

  /** A reader is open from the step that opens it to the one that closes it, and no longer. */
  lemma {:induction false} ReadersAreOpen(run: seq<System>, steps: seq<Step>, j: nat, r: Reader)
    requires IsRun(run, steps) && j < |run|
    ensures r in Readers(run[j]) <==> exists h: nat :: OpenSince(run, steps, h, j, r)
  {
    hide Does, Opens;
    if j > 0 {
      ReadersAreOpen(run, steps, j - 1, r);
      StepOfReaders(run[j - 1], steps[j - 1], run[j], r);
      if Opens(run[j - 1], steps[j - 1], r) {
        assert OpenSince(run, steps, j - 1, j, r);
      } else {
        if r in Readers(run[j]) {
          var h: nat :| OpenSince(run, steps, h, j - 1, r);
          assert OpenSince(run, steps, h, j, r);
        }
        if h: nat :| OpenSince(run, steps, h, j, r) {
          assert OpenSince(run, steps, h, j - 1, r) && !Ends(steps[j - 1], r);
        }
      }
    }
  }

  // ----- flushes -----

  // An immutable memtable waits until its flush has a record.
  lemma {:induction false} StepKeepsImm(s: Store, step: Step, s': Store)
    requires StoreStep(s, step, s') && !step.DoFlushApply? && s.imm.Some? && !(s.bg.Installing? && s.bg.flush)
    ensures s'.imm == s.imm && !(s'.bg.Installing? && s'.bg.flush) && s'.currentLog == s.currentLog
  {
    hide Installed, Selected, Survivors, Setting.Exposed, PickedLevel, IsMerge, NextBatch, FileMetaData.Valid, Contents, Grandparents,
      OutputsClear, AboveMerge, FileNumbers, NeededTables, NeededLogs, Memory, OutputNumbers, Smallest;
  }

  lemma {:induction false} StepOfSwitch(y: System, step: Step, y': System)
    requires Inv(y) && Does(y, step, y') && step.DoSwitch?
    ensures y.Up? && y'.Up? && y'.store.imm == Some(y.store.mem) && !(y'.store.bg.Installing? && y'.store.bg.flush)
    ensures y.store.currentLog < y'.store.currentLog
  {
    hide DiskInv, MemoryInv, ReadersInv, SnapshotsInv, ManifestInv, PausedInv, Recoverable, Stored, MergingInv, FlushInv;
  }

  lemma {:induction false} SwitchedMemtableWaits(run: seq<System>, steps: seq<Step>, i: nat, j: nat)
    requires IsRun(run, steps) && i < j < |run| && steps[i].DoSwitch?
    requires forall m :: i < m < j ==> !steps[m].DoFlushApply? && !steps[m].DoCrash?
    ensures run[i].Up? && run[i + 1].Up? && run[j].Up?
    ensures run[j].store.imm == Some(run[i].store.mem) && !(run[j].store.bg.Installing? && run[j].store.bg.flush)
    ensures run[j].store.currentLog == run[i + 1].store.currentLog > run[i].store.currentLog
  {
    hide Does, Inv, StoreStep;
    if i == j - 1 {
      RunKeepsInv(run, steps, i);
      StepOfSwitch(run[i], steps[i], run[j]);
    } else {
      SwitchedMemtableWaits(run, steps, i, j - 1);
      StaysUp(run[j - 1], steps[j - 1], run[j]);
      StepKeepsImm(run[j - 1].store, steps[j - 1], run[j].store);
    }
  }

  lemma {:induction false} StaysUp(y: System, step: Step, y': System)
    requires Does(y, step, y') && y.Up? && !step.DoCrash?
    ensures y'.Up? && StoreStep(y.store, step, y'.store)
  {
    hide StoreStep;
  }

  lemma {:induction false} StepOfFlushApply(s: Store, step: Step, s': Store)
    requires StoreStep(s, step, s') && step.DoFlushApply?
    ensures FlushApply(s, step.next, s') && s'.bg.Installing? && s'.bg.record.logNumber == s.currentLog
  {
    hide Installed;
  }

  /**
   A flush is whole.  The record of the first flush after a switch of memtables adds to the
   version exactly the entries of the memtable that was switched out, and names the log
   that was new then, so the log of that memtable is not needed any more.
   */
  lemma {:induction false} FlushTakesMemtable(run: seq<System>, steps: seq<Step>, i: nat, j: nat)
    requires IsRun(run, steps) && i < j < |steps| && steps[i].DoSwitch? && steps[j].DoFlushApply?
    requires forall m :: i < m < j ==> !steps[m].DoFlushApply? && !steps[m].DoCrash?
    ensures run[i].Up? && run[i + 1].Up? && run[j].Up? && run[j + 1].Up? && run[j + 1].store.bg.Installing?
    ensures var record := run[j + 1].store.bg.record;
      && AllEntries(record.version) == AllEntries(run[j].store.version) + Contents(run[i].store.mem)
      && record.logNumber == run[i + 1].store.currentLog > run[i].store.currentLog
  {
    hide Does, StoreInv, StoreStep, FlushApply, AllEntries, Contents, Installed;
    SwitchedMemtableWaits(run, steps, i, j);
    StaysUp(run[j], steps[j], run[j + 1]);
    RunKeepsInv(run, steps, j);
    InvOfUp(run[j].store);
    StepOfFlushApply(run[j].store, steps[j], run[j + 1].store);
    FlushApplyShape(run[j].store, steps[j].next, run[j + 1].store);
    FlushedVersion(run[j].store, steps[j].next);
  }

  // ----- compactions -----

  ghost predicate SameMerge(w: Work, u: Work) {
    w.v == u.v && w.level == u.level && w.in0 == u.in0 && w.in1 == u.in1 && w.input == u.input && w.smallestSnapshot == u.smallestSnapshot
  }

  lemma {:induction false} StepKeepsMerge(s: Store, step: Step, s': Store)
    requires StoreStep(s, step, s') && !step.DoCompactionStart? && MergeOf(s').Some?
    requires s.bg.Idle? || s.bg.Compacting? ==> s.paused.None?
    ensures MergeOf(s).Some? && SameMerge(MergeOf(s).value.work, MergeOf(s').value.work)
  {
    hide Installed, Selected, Survivors, Setting.Exposed, PickedLevel, IsMerge, NextBatch, FileMetaData.Valid, Contents, Grandparents,
      OutputsClear, AboveMerge, FileNumbers, NeededTables, NeededLogs, Memory, OutputNumbers, Smallest;
  }

  // The work that a compaction starts with.
  ghost predicate StartedBy(s: Store, step: Step, w: Work) {
    && step.DoCompactionStart? && w.v == s.version && w.level == step.level && w.in0 == step.in0 && w.in1 == step.in1
    && w.input == step.input && w.smallestSnapshot == if s.snapshots == [] then s.lastSequence else s.snapshots[0]
  }

  lemma {:induction false} StartOfMerge(s: Store, step: Step, s': Store)
    requires StoreStep(s, step, s') && step.DoCompactionStart?
    ensures MergeOf(s').Some? && StartedBy(s, step, MergeOf(s').value.work)
    ensures IsMerge(step.input, step.in0, step.in1)
  {
    hide Selected, IsMerge;
  }

  // A restarted store has nothing in progress.
  lemma {:induction false} RestartHasNoMerge(y: System, step: Step, y': System)
    requires Does(y, step, y') && y.Down? && y'.Up?
    ensures MergeOf(y'.store).None?
  {
    hide Installed, RecoveryTables, LogEntries, TablesWritten, LogsBelow, LastRecovered;
  }

  lemma {:induction false} StepOfStore(y: System, step: Step, y': System)
    requires Does(y, step, y') && y'.Up? && y.Up?
    ensures StoreStep(y.store, step, y'.store)
  {
    hide StoreStep;
  }

  lemma {:induction false} StartIsUp(y: System, step: Step, y': System)
    requires Does(y, step, y') && (step.DoCompactionStart? || step.DoCompactionApply?)
    ensures y.Up? && y'.Up?
  {
    hide StoreStep;
  }

  lemma {:induction false} MergeStays(run: seq<System>, steps: seq<Step>, i: nat, j: nat)
    requires IsRun(run, steps) && i < j < |run| && steps[i].DoCompactionStart?
    requires forall m :: i < m < j ==> !steps[m].DoCompactionStart?
    requires run[j].Up? && MergeOf(run[j].store).Some?
    ensures run[i].Up? && StartedBy(run[i].store, steps[i], MergeOf(run[j].store).value.work)
  {
    hide Does, StoreInv, StoreStep, MergeOf;
    StartIsUp(run[i], steps[i], run[i + 1]);
    if i == j - 1 {
      StepOfStore(run[i], steps[i], run[j]);
      StartOfMerge(run[i].store, steps[i], run[j].store);
    } else {
      RunKeepsInv(run, steps, j - 1);
      if run[j - 1].Down? {
        RestartHasNoMerge(run[j - 1], steps[j - 1], run[j]);
      } else {
        FactsOfPaused(run[j - 1].store);
        StepOfStore(run[j - 1], steps[j - 1], run[j]);
        StepKeepsMerge(run[j - 1].store, steps[j - 1], run[j].store);
        MergeStays(run, steps, i, j - 1);
      }
    }
  }

  lemma {:induction false} FactsOfResults(s: Store, step: Step, s': Store)
    requires StoreStep(s, step, s') && step.DoCompactionApply?
    ensures s.bg.Compacting? && MergeOf(s) == Some(Merging(s.bg.work, None))
    ensures var w := s.bg.work;
      |w.v.files| == NUM_LEVELS && Concat(w.outputs) == Survivors(w.v, w.level, w.input, w.smallestSnapshot, |w.input|)
  {
    hide Installed, Survivors, Setting.Exposed, OutputsClear;
  }

  /**
   A compaction forgets what it may.  When its results are installed, its outputs are what
   a merge of the inputs chosen at its start leaves for the oldest snapshot that was open
   then: of the entries that this snapshot covers one for each user key, and no deletion
   among them unless a file further down may hold the user key.
   */
  lemma {:induction false} CompactionForgets(run: seq<System>, steps: seq<Step>, i: nat, j: nat)
    requires IsRun(run, steps) && i < j < |steps| && steps[i].DoCompactionStart? && steps[j].DoCompactionApply?
    requires forall m :: i < m < j ==> !steps[m].DoCompactionStart?
    ensures run[i].Up? && run[j].Up? && run[j].store.bg.Compacting? && |run[i].store.version.files| == NUM_LEVELS
    ensures var s, w := run[i].store, run[j].store.bg.work;
      && IsMerge(steps[i].input, steps[i].in0, steps[i].in1)
      && MergedFrom(s.version, steps[i].level, steps[i].input, Concat(w.outputs),
                    if s.snapshots == [] then s.lastSequence else s.snapshots[0])
  {
    hide Does, StoreStep, Survivors, MergedFrom, SortedTable;
    StartIsUp(run[j], steps[j], run[j + 1]);
    StepOfStore(run[j], steps[j], run[j + 1]);
    FactsOfResults(run[j].store, steps[j], run[j + 1].store);
    MergeStays(run, steps, i, j);
    StartIsUp(run[i], steps[i], run[i + 1]);
    StepOfStore(run[i], steps[i], run[i + 1]);
    StartOfMerge(run[i].store, steps[i], run[i + 1].store);
    var w := run[j].store.bg.work;
    SurvivorsAreLeast(w.v, w.level, w.input, w.smallestSnapshot);
  }
}
