/**
 Every step of the store keeps its invariant.
 */
module StoreSafety {
  import opened Wrappers
  import opened DbFormat
  import opened Views
  import opened StoreViews
  import opened Versions
  import opened CompactionInputs
  import opened MergeRules
  import opened Compactions
  import opened CompactionPicker
  import opened CompactionMeaning
  import opened VersionBuilder
  import opened LevelRules
  import opened FlushDuringCompaction
  import opened StoreState
  import opened StoreSteps

  // ----- what a part of the invariant keeps -----

  lemma {:induction false} SoundBelow(v: Version, next: nat, later: nat)
    requires Sound(v, next) && next <= later
    ensures Below(v, later, {})
  {
  }

  lemma {:induction false} RecoverableGrows(m: Manifest, logged: set<Entry>, history: set<Entry>, floor: SequenceNumber, news: set<Entry>)
    requires Recoverable(m, logged, history, floor) && UniqueSequences(history + news) && Older(history, news)
    ensures Recoverable(m, logged + news, history + news, floor)
  {
    hide Sound, SameViews, UniqueSequences;
    var known := AllEntries(m.version) + logged;
    SubsetIsOlder(known, history, news, news);
    SubsetIsUnique(known + news, history + news);
    SameViewsUnder(known, history, news, floor);
    assert AllEntries(m.version) + (logged + news) == known + news;
  }

  lemma {:induction false} RecoverableLater(m: Manifest, logged: set<Entry>, history: set<Entry>, floor: SequenceNumber, m': Manifest)
    requires Recoverable(m, logged, history, floor)
    requires m'.version == m.version && m.nextFile <= m'.nextFile
    requires m.lastSequence <= m'.lastSequence < MAX_SEQUENCE_NUMBER
    ensures Recoverable(m', logged, history, floor)
  {
    hide Sound, SameViews, Older;
    SoundLater(m.version, m.nextFile, m'.nextFile);
  }

  lemma {:induction false} ViewBefore(history: set<Entry>, news: set<Entry>, k: UserKey, n: SequenceNumber)
    requires UniqueSequences(history + news) && forall e :: e in news ==> n < e.key.sequence
    ensures View(history + news, k, n) == View(history, k, n)
  {
    SubsetIsUnique(history, history + news);
    SameCandidatesSameView(history + news, history, k, n);
  }

  // What acknowledging a batch does to the history.
  lemma {:induction false} BatchFacts(history: set<Entry>, last: SequenceNumber, batch: seq<Entry>)
    requires UniqueSequences(history) && UpTo(history, last) && NextBatch(batch, last)
    ensures UniqueSequences(history + Contents(batch)) && Older(history, Contents(batch))
    ensures UpTo(history + Contents(batch), last + |batch|) && Bounded(history + Contents(batch))
    ensures forall e :: e in batch ==> last < e.key.sequence
    ensures Increasing(batch)
  {
    var news := Contents(batch);
    forall e, o | e in news && o in news && e.key.sequence == o.key.sequence
      ensures e == o
    {
      var i :| 0 <= i < |batch| && batch[i] == e;
      var j :| 0 <= j < |batch| && batch[j] == o;
    }
    UnionIsUnique(history, news);
  }

  lemma {:induction false} AppendLogged(log: seq<Entry>, batch: seq<Entry>)
    requires Increasing(log) && Increasing(batch) && Older(Contents(log), Contents(batch))
    ensures Increasing(log + batch) && Contents(log + batch) == Contents(log) + Contents(batch)
  {
    var all := log + batch;
    forall i, j | 0 <= i < j < |all|
      ensures all[i].key.sequence < all[j].key.sequence
    {
      if i < |log| <= j {
        assert all[i] in Contents(log) && all[j] in Contents(batch);
      }
    }
  }

  // A log grows by newer entries, and no log is newer.
  lemma {:induction false} DiskGrows(d: Disk, history: set<Entry>, floor: SequenceNumber, number: nat, batch: seq<Entry>)
    requires DiskInv(d, history, floor) && number in d.logs && d.manifest.logNumber <= number
    requires forall n :: n in d.logs && d.manifest.logNumber <= n ==> n <= number
    requires UniqueSequences(history + Contents(batch)) && Older(history, Contents(batch))
    requires Bounded(history + Contents(batch)) && Increasing(batch)
    ensures DiskInv(d.(logs := d.logs[number := d.logs[number] + batch]), history + Contents(batch), floor)
  {
    hide Recoverable, Stored, UniqueSequences, Bounded, Older;
    var log := d.logs[number];
    var d' := d.(logs := d.logs[number := log + batch]);
    LogsAreHistory(d, history, floor, number);
    SubsetIsOlder(Contents(log), history, Contents(batch), Contents(batch));
    AppendLogged(log, batch);
    RecoverableGrows(d.manifest, LogEntries(d), history, floor, Contents(batch));
    assert LogEntries(d') == LogEntries(d) + Contents(batch) by {
      LogEntriesGrow(d, number, batch);
    }
    forall n, m | n in d'.logs && m in d'.logs && d.manifest.logNumber <= n < m
      ensures Older(Contents(d'.logs[n]), Contents(d'.logs[m]))
    {
      LogsAreHistory(d, history, floor, n);
      SubsetIsOlder(Contents(d.logs[n]), history, Contents(batch), Contents(batch));
      if m == number {
        OlderThanBoth(Contents(d.logs[n]), Contents(log), Contents(batch));
      }
    }
  }

  lemma {:induction false} OlderThanBoth(a: set<Entry>, b: set<Entry>, c: set<Entry>)
    requires Older(a, b) && Older(a, c)
    ensures Older(a, b + c)
  {
  }

  lemma {:induction false} LogsAreHistory(d: Disk, history: set<Entry>, floor: SequenceNumber, n: nat)
    requires DiskInv(d, history, floor) && n in d.logs && d.manifest.logNumber <= n
    ensures Contents(d.logs[n]) <= history
  {
    forall e | e in d.logs[n]
      ensures e in history
    {
      assert e in LogEntries(d);
    }
  }

  lemma {:induction false} LogEntriesGrow(d: Disk, number: nat, batch: seq<Entry>)
    requires number in d.logs && d.manifest.logNumber <= number
    ensures LogEntries(d.(logs := d.logs[number := d.logs[number] + batch])) == LogEntries(d) + Contents(batch)
  {
    var d' := d.(logs := d.logs[number := d.logs[number] + batch]);
    forall e
      ensures e in LogEntries(d') <==> e in LogEntries(d) || e in batch
    {
      if e in LogEntries(d) {
        var n :| n in d.logs && d.manifest.logNumber <= n && e in d.logs[n];
        assert n in d'.logs && e in d'.logs[n];
      }
      if e in batch {
        assert e in d'.logs[number];
      }
    }
  }

  // ----- writers -----

  lemma {:induction false} StartWriteKeeps(s: Store, batch: seq<Entry>, s': Store)
    requires StoreInv(s) && StartWrite(s, batch, s')
    ensures StoreInv(s')
  {
    hide DiskInv, Recoverable, Stored, UpTo, Older, ReaderInv, NextBatch, Flushable, Begun, Meanwhile, UsableOutputs, OutputsStored;
    assert Memory(s') == Memory(s) && Current(s') == Current(s);
  }

  lemma {:induction false} AcknowledgeFacts(s: Store)
    requires StoreInv(s)
    ensures UniqueSequences(s.history) && UpTo(s.history, s.lastSequence) && NextBatch(s.inFlight, s.lastSequence)
  {
  }

  lemma {:induction false} AcknowledgeKeepsMemory(s: Store, s': Store)
    requires StoreInv(s) && Acknowledge(s, s')
    ensures MemoryInv(s')
  {
    hide DiskInv, Recoverable, Stored, UpTo, ReaderInv, UniqueSequences, Older, NextBatch, ReadersInv, BackgroundInv;
    AcknowledgeFacts(s);
    var news := Contents(s.inFlight);
    BatchFacts(s.history, s.lastSequence, s.inFlight);
    RecoverableGrows(Current(s), Memory(s), s.history, s.floor, news);
    assert Memory(s') == Memory(s) + news;
    RecoverableLater(Current(s), Memory(s'), s'.history, s.floor, Current(s'));
    if s.imm.Some? {
      MemoryIsHistory(s);
      SubsetIsOlder(Contents(s.imm.value), s.history, news, news);
      OlderThanBoth(Contents(s.imm.value), Contents(s.mem), news);
      assert Contents(s'.mem) == Contents(s.mem) + news;
    }
    assert NextBatch([], s'.lastSequence) by { EmptyBatch(s, s'); }
  }

  lemma {:induction false} EmptyBatch(s: Store, s': Store)
    requires Acknowledge(s, s')
    ensures NextBatch([], s'.lastSequence)
  {
  }

  lemma {:induction false} MemoryIsHistory(s: Store)
    requires MemoryInv(s)
    ensures Memory(s) <= s.history && AllEntries(s.version) <= s.history && Older(AllEntries(s.version), Memory(s))
  {
    hide Sound, SameViews, Older;
  }

  lemma {:induction false} AcknowledgeKeepsReaders(s: Store, s': Store)
    requires StoreInv(s) && Acknowledge(s, s')
    ensures ReadersInv(s')
  {
    hide DiskInv, MemoryInv, Stored, UpTo, UniqueSequences, Older, NextBatch, BackgroundInv, View, Below;
    AcknowledgeFacts(s);
    BatchFacts(s.history, s.lastSequence, s.inFlight);
    forall r | r in s.readers
      ensures ReaderInv(r, s'.disk.tables, Base(s'), Own(s'), s'.lastSequence, s'.history)
    {
      assert ReaderInv(r, s.disk.tables, Base(s), Own(s), s.lastSequence, s.history);
      forall k: UserKey
        ensures View(s'.history, k, r.sequence) == View(s.history, k, r.sequence)
      {
        ViewBefore(s.history, Contents(s.inFlight), k, r.sequence);
      }
    }
  }

  lemma {:induction false} AcknowledgeKeepsBackground(s: Store, s': Store)
    requires StoreInv(s) && Acknowledge(s, s')
    ensures BackgroundInv(s')
  {
    hide DiskInv, MemoryInv, Stored, UpTo, UniqueSequences, Older, NextBatch, ReadersInv, Recoverable, Flushable, Begun, Meanwhile, UsableOutputs, OutputsStored;
    AcknowledgeFacts(s);
    var news := Contents(s.inFlight);
    BatchFacts(s.history, s.lastSequence, s.inFlight);
    if s.bg.Installing? {
      RecoverableGrows(s.bg.record, StillLogged(s, s.bg.flush), s.history, s.bg.keepFrom, news);
      assert StillLogged(s', s.bg.flush) == StillLogged(s, s.bg.flush) + news;
    }
  }

  lemma {:induction false} AcknowledgeKeeps(s: Store, s': Store)
    requires StoreInv(s) && Acknowledge(s, s')
    ensures StoreInv(s')
  {
    AcknowledgeKeepsMemory(s, s');
    AcknowledgeKeepsReaders(s, s');
    AcknowledgeKeepsBackground(s, s');
    AcknowledgeKeepsDisk(s, s');
    AcknowledgeKeepsRest(s, s');
    hide *;
    StoreFromParts(s');
  }

  lemma {:induction false} AcknowledgeKeepsDisk(s: Store, s': Store)
    requires StoreInv(s) && Acknowledge(s, s')
    ensures DiskInv(s'.disk, s'.history, s'.floor)
  {
    hide DiskInv, MemoryInv, ReadersInv, BackgroundInv, SnapshotsInv, UpTo, UniqueSequences, Older, NextBatch;
    AcknowledgeFacts(s);
    BatchFacts(s.history, s.lastSequence, s.inFlight);
    DiskGrows(s.disk, s.history, s.floor, s.currentLog, s.inFlight);
  }

  lemma {:induction false} AcknowledgeKeepsRest(s: Store, s': Store)
    requires StoreInv(s) && Acknowledge(s, s')
    ensures LogsInv(s') && SnapshotsInv(s') && ManifestInv(s')
  {
    hide DiskInv, MemoryInv, ReadersInv, BackgroundInv;
  }

  lemma {:induction false} SwitchKeeps(s: Store, s': Store)
    requires StoreInv(s) && Switch(s, s')
    ensures StoreInv(s')
  {
    hide DiskInv, Stored, UpTo, UniqueSequences, Older, NextBatch, ReaderInv, Recoverable, Flushable, Begun, Meanwhile, UsableOutputs, OutputsStored;
    assert Memory(s') == Memory(s);
    VersionFacts(s);
    SwitchKeepsDisk(s, s');
    RecoverableLater(Current(s), Memory(s), s.history, s.floor, Current(s'));
    assert Older(Contents(s.mem), Contents([])) by { NothingIsOlder(s.mem); }
    forall r | r in s.readers
      ensures ReaderInv(r, s.disk.tables, Base(s'), Own(s'), s.lastSequence, s.history)
    {
      ReaderLater(r, s.disk.tables, Base(s), Own(s), Base(s'), Own(s'), s.lastSequence, s.history);
    }
    if MergeOf(s).Some? {
      MergingLater(s, s', MergeOf(s).value);
    }
  }

  lemma {:induction false} MeanwhileLater(w: Work, v: Version, next: nat, later: nat)
    requires Meanwhile(w, v, next) && next <= later
    ensures Meanwhile(w, v, later)
  {
    hide Sound, FlushedBeside;
    SoundLater(v, next, later);
  }

  // What a merge relies on lasts while its version does.
  lemma {:induction false} MergingLater(s: Store, s': Store, m: Merging)
    requires MergingInv(s, m.work, m.open)
    requires s'.version == s.version && Base(s) <= Base(s') && s.nextFile <= s'.nextFile
    requires s'.floor == s.floor && Smallest(s) <= Smallest(s') && s.lastSequence <= s'.lastSequence
    requires OutputsStored(s'.disk.tables, s'.pending, m.work.outputs) && (m.open.Some? ==> m.open.value in s'.pending)
    ensures MergingInv(s', m.work, m.open)
  {
    hide Begun, Meanwhile, UsableOutputs, OutputsStored;
    MeanwhileLater(m.work, s.version, Base(s), Base(s'));
    UsableOutputsLater(m.work.outputs, m.work.next, s.nextFile, s'.nextFile);
  }

  lemma {:induction false} UsableOutputsLater(outputs: seq<FileMetaData>, next: nat, a: nat, b: nat)
    requires UsableOutputs(outputs, next, a) && a <= b
    ensures UsableOutputs(outputs, next, b)
  {
  }

  lemma {:induction false} NothingIsOlder(log: seq<Entry>)
    ensures Older(Contents(log), Contents([]))
  {
  }

  // New numbers of one's own are above everything that is in use.
  ghost predicate OwnGrows(base: nat, own: set<nat>, own': set<nat>) {
    forall n :: n in own' ==> n in own || base <= n
  }

  lemma {:induction false} BelowLater(v: Version, base: nat, own: set<nat>, base': nat, own': set<nat>)
    requires Below(v, base, own) && base <= base' && OwnGrows(base, own, own')
    ensures Below(v, base', own')
  {
    hide AllPlaced;
  }

  lemma {:induction false} ReaderLater(r: Reader, tables: map<nat, seq<Entry>>, base: nat, own: set<nat>, base': nat, own': set<nat>,
                                       last: SequenceNumber, history: set<Entry>)
    requires ReaderInv(r, tables, base, own, last, history) && base <= base' && OwnGrows(base, own, own')
    ensures ReaderInv(r, tables, base', own', last, history)
  {
    hide View, Stored, OwnGrows, Below;
    BelowLater(r.version, base, own, base', own');
  }

  lemma {:induction false} SwitchKeepsDisk(s: Store, s': Store)
    requires StoreInv(s) && Switch(s, s')
    ensures DiskInv(s'.disk, s'.history, s'.floor)
  {
    hide MemoryInv, ReadersInv, BackgroundInv, Recoverable, UniqueSequences, Stored;
    NewLogIsEmpty(s.disk, s.nextFile);
  }

  lemma {:induction false} NewLogIsEmpty(d: Disk, number: nat)
    requires number !in d.logs || number < d.manifest.logNumber
    ensures LogEntries(d.(logs := d.logs[number := []])) == LogEntries(d)
  {
    var d' := d.(logs := d.logs[number := []]);
    forall e
      ensures e in LogEntries(d') <==> e in LogEntries(d)
    {
      if e in LogEntries(d) {
        var n :| n in d.logs && d.manifest.logNumber <= n && e in d.logs[n];
        assert n in d'.logs && e in d'.logs[n];
      }
    }
  }

  // ----- readers -----

  lemma {:induction false} TakeSnapshotKeeps(s: Store, s': Store)
    requires StoreInv(s) && TakeSnapshot(s, s')
    ensures StoreInv(s')
  {
    hide DiskInv, MemoryInv, ReaderInv, Recoverable, Flushable, Begun, Meanwhile, UsableOutputs, OutputsStored, Stored;
    assert MemoryInv(s') by { SameMemory(s, s'); }
  }

  lemma {:induction false} SameMemory(s: Store, s': Store)
    requires MemoryInv(s)
    requires s'.disk.tables == s.disk.tables && s'.version == s.version && s'.logNumber == s.logNumber && Base(s') == Base(s) && Own(s') == Own(s)
    requires s'.lastSequence == s.lastSequence && s'.mem == s.mem && s'.imm == s.imm && s'.history == s.history
    requires s'.floor == s.floor && s'.inFlight == s.inFlight
    ensures MemoryInv(s')
  {
    hide Recoverable, Stored, UpTo, Older, NextBatch;
    assert Memory(s') == Memory(s);
  }

  lemma {:induction false} ReleaseSnapshotKeeps(s: Store, i: nat, s': Store)
    requires StoreInv(s) && ReleaseSnapshot(s, i, s')
    ensures StoreInv(s')
  {
    hide DiskInv, MemoryInv, ReaderInv, Recoverable, Flushable, Begun, Meanwhile, UsableOutputs, OutputsStored, Stored;
    assert MemoryInv(s') by { SameMemory(s, s'); }
    forall j | 0 <= j < |s'.snapshots|
      ensures s'.snapshots[j] == if j < i then s.snapshots[j] else s.snapshots[j + 1]
    {
    }
    assert Smallest(s) <= Smallest(s');
  }

  lemma {:induction false} OpenReaderKeeps(s: Store, n: SequenceNumber, s': Store)
    requires StoreInv(s) && OpenReader(s, n, s')
    ensures StoreInv(s')
  {
    hide DiskInv, MemoryInv, ReaderInv, Recoverable, Flushable, Begun, Meanwhile, UsableOutputs, OutputsStored, Stored;
    assert MemoryInv(s') by { SameMemory(s, s'); }
    NewReader(s, n);
  }

  lemma {:induction false} NewReader(s: Store, n: SequenceNumber)
    requires MemoryInv(s) && SnapshotsInv(s) && (n in s.snapshots || n == s.lastSequence)
    ensures s.floor <= n
    ensures ReaderInv(Reader(s.version, Memory(s), n), s.disk.tables, Base(s), Own(s), s.lastSequence, s.history)
  {
    hide View, Stored, Sound, Older, UpTo, Covered, Below;
  }

  lemma {:induction false} CloseReaderKeeps(s: Store, r: Reader, s': Store)
    requires StoreInv(s) && CloseReader(s, r, s')
    ensures StoreInv(s')
  {
    hide DiskInv, MemoryInv, ReaderInv, Recoverable, Flushable, Begun, Meanwhile, UsableOutputs, OutputsStored, Stored;
    assert MemoryInv(s') by { SameMemory(s, s'); }
  }

  // ----- steps of the background thread that only write new tables -----

  ghost predicate AgreesBelow(tables: map<nat, seq<Entry>>, tables': map<nat, seq<Entry>>, base: nat, own: set<nat>) {
    forall n :: n in tables && n < base && n !in own ==> n in tables' && tables'[n] == tables[n]
  }

  lemma {:induction false} StillStored(tables: map<nat, seq<Entry>>, tables': map<nat, seq<Entry>>, v: Version, base: nat, own: set<nat>)
    requires Stored(tables, v) && Below(v, base, own) && AgreesBelow(tables, tables', base, own)
    ensures Stored(tables', v)
  {
  }

  ghost predicate OnlyTables(s: Store, s': Store) {
    && s' == s.(disk := s'.disk, pending := s'.pending, nextFile := s'.nextFile, bg := s'.bg, paused := s'.paused)
    && s'.disk == s.disk.(tables := s'.disk.tables)
    && s.nextFile <= s'.nextFile && Base(s) <= Base(s') && OwnGrows(Base(s), Own(s), Own(s'))
    && AgreesBelow(s.disk.tables, s'.disk.tables, Base(s), Own(s))
    && !s.bg.Installing? && (s'.bg.Installing? ==> !s'.bg.written)
  }

  // Such a step leaves only the state of the background work itself to be shown.
  lemma {:induction false} OnlyTablesKeeps(s: Store, s': Store)
    requires StoreInv(s) && OnlyTables(s, s')
    ensures BackgroundInv(s') && PausedInv(s') ==> StoreInv(s')
  {
    OnlyTablesOnDisk(s, s');
    hide DiskInv, MemoryInv, BackgroundInv, PausedInv, ReaderInv, AgreesBelow, OwnGrows;
    forall r | r in s.readers
      ensures ReaderInv(r, s'.disk.tables, Base(s'), Own(s'), s'.lastSequence, s'.history)
    {
      ReaderKeepsTables(r, s.disk.tables, s'.disk.tables, Base(s), Own(s), s.lastSequence, s.history);
      ReaderLater(r, s'.disk.tables, Base(s), Own(s), Base(s'), Own(s'), s.lastSequence, s.history);
    }
  }

  lemma {:induction false} ReaderKeepsTables(r: Reader, tables: map<nat, seq<Entry>>, tables': map<nat, seq<Entry>>, base: nat,
                                             own: set<nat>, last: SequenceNumber, history: set<Entry>)
    requires ReaderInv(r, tables, base, own, last, history) && AgreesBelow(tables, tables', base, own)
    ensures ReaderInv(r, tables', base, own, last, history)
  {
    hide View, Stored, Below, AgreesBelow;
    StillStored(tables, tables', r.version, base, own);
  }

  lemma {:induction false} OnlyTablesOnDisk(s: Store, s': Store)
    requires StoreInv(s) && OnlyTables(s, s')
    ensures DiskInv(s'.disk, s'.history, s'.floor) && MemoryInv(s')
  {
    hide ReadersInv, BackgroundInv, PausedInv, Stored, Below, OwnGrows, Older, UpTo, UniqueSequences, Bounded, AgreesBelow, NextBatch,
      LogsInOrder, Sound, SameViews;
    StillStored(s.disk.tables, s'.disk.tables, s.version, Base(s), Own(s));
    BelowLater(s.version, Base(s), Own(s), Base(s'), Own(s'));
    assert LogEntries(s'.disk) == LogEntries(s.disk);
    assert Memory(s') == Memory(s);
    RecoverableLater(Current(s), Memory(s), s.history, s.floor, Current(s'));
  }

  lemma {:induction false} OutputsStillStored(tables: map<nat, seq<Entry>>, pending: set<nat>, outputs: seq<FileMetaData>,
                                              tables': map<nat, seq<Entry>>, pending': set<nat>)
    requires OutputsStored(tables, pending, outputs)
    requires forall n :: n in OutputNumbers(outputs) && n in pending && n in tables ==> n in pending' && n in tables' && tables'[n] == tables[n]
    ensures OutputsStored(tables', pending', outputs)
  {
    forall f | f in outputs
      ensures f.number in pending' && f.number in tables' && tables'[f.number] == f.table
    {
      assert f.number in OutputNumbers(outputs);
    }
  }

  lemma {:induction false} OwnIsBelow(s: Store, m: Merging)
    requires MergingInv(s, m.work, m.open)
    ensures forall n :: n in NumbersOf(m) ==> m.work.next <= n < s.nextFile && n in s.pending
    ensures OutputNumbers(m.work.outputs) <= NumbersOf(m)
  {
    hide Begun, Meanwhile, FileMetaData.Valid;
  }

  lemma {:induction false} FlushStartKeeps(s: Store, s': Store)
    requires StoreInv(s) && FlushStart(s, s')
    ensures StoreInv(s')
  {
    hide DiskInv, MemoryInv, ReadersInv, MergingInv;
    OnlyTablesKeeps(s, s');
    if MergeOf(s).Some? {
      var m := MergeOf(s).value;
      OwnIsBelow(s, m);
      StillMerging(s, s', m);
    }
  }

  // A merge goes on when the tables that it has made are left alone.
  lemma {:induction false} StillMerging(s: Store, s': Store, m: Merging)
    requires MergingInv(s, m.work, m.open)
    requires s'.version == s.version && Base(s) <= Base(s') && s.nextFile <= s'.nextFile
    requires s'.floor == s.floor && s'.snapshots == s.snapshots && s'.lastSequence == s.lastSequence
    requires forall n :: n in NumbersOf(m) && n in s.pending ==> n in s'.pending
    requires forall n :: n in NumbersOf(m) && n in s.disk.tables ==> n in s'.disk.tables && s'.disk.tables[n] == s.disk.tables[n]
    ensures MergingInv(s', m.work, m.open)
  {
    OwnIsBelow(s, m);
    assert OutputsStored(s.disk.tables, s.pending, m.work.outputs) by { hide Begun, Meanwhile, UsableOutputs, OutputsStored; }
    hide MergingInv, OutputsStored;
    OutputsStillStored(s.disk.tables, s.pending, m.work.outputs, s'.disk.tables, s'.pending);
    assert m.open.Some? ==> m.open.value in NumbersOf(m);
    MergingLater(s, s', m);
  }

  lemma {:induction false} FlushBuildKeeps(s: Store, level: nat, f: FileMetaData, s': Store)
    requires StoreInv(s) && FlushBuild(s, level, f, s')
    ensures StoreInv(s')
  {
    hide DiskInv, MemoryInv, ReadersInv, FileMetaData.Valid, NewerThan, MergingInv;
    OnlyTablesKeeps(s, s');
    if s.imm.value != [] {
      FlushIsNewest(s, f);
    }
    if s.paused.Some? {
      StillMerging(s, s', s.paused.value);
    }
  }

  lemma {:induction false} FlushIsNewest(s: Store, f: FileMetaData)
    requires MemoryInv(s) && s.imm.Some? && Contents(f.table) == Contents(s.imm.value)
    ensures forall p :: p in AllPlaced(s.version) ==> NewerThan(f.table, p.1.table)
  {
    hide UpTo, NextBatch, Stored, Older, AllPlaced;
    MemoryIsHistory(s);
    forall p, e, o | p in AllPlaced(s.version) && e in f.table && o in p.1.table
      ensures o.key.sequence < e.key.sequence
    {
      PlacedEntryIsThere(s.version, p, o);
      assert e in Contents(f.table);
      assert e in Memory(s);
      OlderPair(AllEntries(s.version), Memory(s), o, e);
    }
  }

  lemma {:induction false} OlderPair(a: set<Entry>, b: set<Entry>, e: Entry, o: Entry)
    requires Older(a, b) && e in a && o in b
    ensures e.key.sequence < o.key.sequence
  {
  }

  lemma {:induction false} PlacedEntryIsThere(v: Version, p: Placed, e: Entry)
    requires p in AllPlaced(v) && e in p.1.table
    ensures e in AllEntries(v)
  {
    FileEntryIsThere(v, p.0, p.1, e);
  }

  lemma {:induction false} OpenOutputKeeps(s: Store, s': Store)
    requires StoreInv(s) && OpenOutput(s, s')
    ensures StoreInv(s')
  {
    hide DiskInv, MemoryInv, ReadersInv, MergingInv;
    var m := Merging(s.bg.work, None);
    OwnIsBelow(s, m);
    OnlyTablesKeeps(s, s');
    StillMerging(s, s', m);
    OpenedOutput(s, s', m.work);
  }

  lemma {:induction false} OpenedOutput(s: Store, s': Store, w: Work)
    requires StoreInv(s) && OpenOutput(s, s') && w == s.bg.work && MergingInv(s', w, None)
    ensures MergingInv(s', w, Some(s.nextFile))
  {
    OwnIsBelow(s, Merging(w, None));
    hide DiskInv, LogsInv, MemoryInv, ReadersInv, Begun, Meanwhile, UsableOutputs, OutputsStored;
    forall f | f in w.outputs
      ensures f.number != s.nextFile
    {
      assert f.number in OutputNumbers(w.outputs);
    }
  }

  lemma {:induction false} CloseOutputKeeps(s: Store, f: FileMetaData, s': Store)
    requires StoreInv(s) && CloseOutput(s, f, s')
    ensures StoreInv(s')
  {
    ClosedOutput(s, f, s');
    hide DiskInv, MemoryInv, ReadersInv, MergingInv, FileMetaData.Valid, AgreesBelow;
    assert AgreesBelow(s.disk.tables, s'.disk.tables, Base(s), Own(s)) by { WriteOwn(s.disk.tables, f.number, f.table, Base(s), Own(s)); }
    assert OwnGrows(Base(s), Own(s), Own(s')) by {
      assert OutputNumbers(s.bg.work.outputs + [f]) == OutputNumbers(s.bg.work.outputs) + {f.number};
    }
    OnlyTablesKeeps(s, s');
  }

  lemma {:induction false} ClosedOutput(s: Store, f: FileMetaData, s': Store)
    requires StoreInv(s) && CloseOutput(s, f, s')
    ensures MergingInv(s', s'.bg.work, None)
  {
    assert MergingInv(s, s.bg.work, s.bg.open);
    assert Below(s.version, Base(s), Own(s));
    hide StoreInv, Begun, FileMetaData.Valid, UsableOutputs, OutputsStored, Meanwhile;
    OneMoreOutput(s.bg.work.outputs, s.bg.work.next, s.nextFile, s.disk.tables, s.pending, f);
    MeanwhileWithOutput(s.bg.work, s.version, Base(s), f);
    SameBeginning(s.bg.work, s'.bg.work);
  }

  lemma {:induction false} SameBeginning(w: Work, w': Work)
    requires Begun(w) && w' == w.(outputs := w'.outputs)
    ensures Begun(w')
  {
    hide Sound, UniqueSequences, Selected, IsMerge;
  }

  lemma {:induction false} MeanwhileWithOutput(w: Work, v: Version, next: nat, f: FileMetaData)
    requires Meanwhile(w, v, next) && forall p :: p in AllPlaced(v) ==> p.1.number != f.number
    ensures Meanwhile(w.(outputs := w.outputs + [f]), v, next)
  {
    hide Sound, FileMetaData.Valid, NewerThanAll, Pushable, AllPlaced;
    var w' := w.(outputs := w.outputs + [f]);
    forall p | p in Flushed(w', v)
      ensures FlushedBeside(w', p)
    {
      assert p in Flushed(w, v);
      forall x | x in w'.outputs
        ensures x.number != p.1.number
      {
        assert x in w.outputs || x == f;
      }
    }
  }

  lemma {:induction false} WriteOwn(tables: map<nat, seq<Entry>>, number: nat, t: seq<Entry>, base: nat, own: set<nat>)
    requires number in own
    ensures AgreesBelow(tables, tables[number := t], base, own)
  {
  }

  lemma {:induction false} OneMoreOutput(outputs: seq<FileMetaData>, next: nat, nextAfter: nat, tables: map<nat, seq<Entry>>,
                                         pending: set<nat>, f: FileMetaData)
    requires UsableOutputs(outputs, next, nextAfter) && OutputsStored(tables, pending, outputs)
    requires f.Valid() && next <= f.number < nextAfter && f.number in pending
    requires forall g :: g in outputs ==> g.number != f.number
    ensures UsableOutputs(outputs + [f], next, nextAfter)
    ensures OutputsStored(tables[f.number := f.table], pending, outputs + [f])
  {
    var all := outputs + [f];
    forall i | 0 <= i < |all|
      ensures i < |outputs| ==> all[i] == outputs[i] && all[i] in outputs
      ensures i == |outputs| ==> all[i] == f
    {
    }
  }

  lemma {:induction false} AbandonCompactionKeeps(s: Store, s': Store)
    requires StoreInv(s) && AbandonCompaction(s, s')
    ensures StoreInv(s')
  {
    hide DiskInv, MemoryInv, ReadersInv, MergingInv;
    OnlyTablesKeeps(s, s');
  }

  lemma {:induction false} CompactionStartKeeps(s: Store, level: nat, in0: Level, in1: Level, input: seq<Entry>, s': Store)
    requires StoreInv(s) && CompactionStart(s, level, in0, in1, input, s')
    ensures StoreInv(s')
  {
    StartedMerge(s, level, in0, in1, input, s');
    hide StoreInv, MergingInv, CompactionStart, OnlyTables;
    OnlyTablesKeeps(s, s');
    StartShape(s, level, in0, in1, input, s');
  }

  lemma {:induction false} StartShape(s: Store, level: nat, in0: Level, in1: Level, input: seq<Entry>, s': Store)
    requires CompactionStart(s, level, in0, in1, input, s')
    ensures s'.bg.Compacting? && s'.paused == s.paused && s.bg.Idle?
  {
  }

  lemma {:induction false} StartedMerge(s: Store, level: nat, in0: Level, in1: Level, input: seq<Entry>, s': Store)
    requires StoreInv(s) && CompactionStart(s, level, in0, in1, input, s')
    ensures MergingInv(s', s'.bg.work, None) && s'.bg.open == None && s.paused.None? && OnlyTables(s, s')
  {
    VersionFacts(s);
    FloorFacts(s);
    PausedByFlush(s);
    var w := s'.bg.work;
    hide StoreInv, Sound, UniqueSequences, Selected, IsMerge, Older, AllEntries, Stored, OrderedLevels, WellFormed, Visible, Meanwhile;
    assert Begun(w);
    MergeBegins(w);
  }

  // ----- fixing the record of a new version -----

  lemma {:induction false} StoredInstalled(tables: map<nat, seq<Entry>>, v: Version, edit: FileEdit, v': Version)
    requires Stored(tables, v) && AllPlaced(v') == After(AllPlaced(v), edit)
    requires forall p :: p in edit.added ==> p.1.number in tables && tables[p.1.number] == p.1.table
    ensures Stored(tables, v')
  {
  }

  // A record whose version shows what the store shows.
  lemma {:induction false} RecordFor(s: Store, record: Manifest, flush: bool, keepFrom: SequenceNumber)
    requires StoreInv(s) && !s.bg.Installing?
    requires Sound(record.version, s.nextFile) && record.nextFile == s.nextFile && record.lastSequence == s.lastSequence
    requires record.logNumber == (if flush then s.currentLog else s.logNumber)
    requires Stored(s.disk.tables, record.version) && (flush ==> s.imm.Some?)
    requires AllEntries(record.version) <= s.history && Older(AllEntries(record.version), StillLogged(s, flush))
    requires SameViews(AllEntries(record.version) + StillLogged(s, flush), Visible(s), keepFrom)
    requires s.floor <= keepFrom <= Smallest(s) && keepFrom <= s.lastSequence
    ensures InstallingInv(s, record, flush, keepFrom)
  {
    hide DiskInv, ReadersInv, BackgroundInv, Stored, Older, UniqueSequences, Bounded, Sound, SameViews;
    SameViewsLater(Visible(s), s.history, s.floor, keepFrom);
    SameViewsChain(AllEntries(record.version) + StillLogged(s, flush), Visible(s), s.history, keepFrom, keepFrom);
    assert StillLogged(s, flush) <= Memory(s);
  }

  lemma {:induction false} SameEntriesSameViews(a: set<Entry>, b: set<Entry>, from: SequenceNumber)
    requires a == b
    ensures SameViews(a, b, from)
  {
  }

  lemma {:induction false} FlushApplyKeeps(s: Store, v': Version, s': Store)
    requires StoreInv(s) && FlushApply(s, v', s')
    ensures StoreInv(s')
  {
    PausedAfterFlush(s, v', s');
    hide DiskInv, MemoryInv, ReadersInv, BackgroundInv, PausedInv, Installed, Stored, Sound, SameViews, Older;
    FloorFacts(s);
    OnlyTablesKeeps(s, s');
    FlushedVersion(s, v');
    MemoryIsHistory(s);
    var record := s'.bg.record;
    var entries := AllEntries(v');
    assert entries + Contents(s.mem) == Visible(s);
    assert entries <= s.history;
    SameEntriesSameViews(entries + Contents(s.mem), Visible(s), s.floor);
    assert Older(entries, Contents(s.mem)) by { FlushedIsOlder(s, entries); }
    RecordFor(s, record, true, s.floor);
    assert InstallingInv(s', record, true, s.floor) by { SameRecord(s, s', record, true, s.floor); }
    NowInstalling(s');
  }

  // What the flush installs leaves an interrupted merge what it relies on.
  lemma {:induction false} PausedAfterFlush(s: Store, v': Version, s': Store)
    requires StoreInv(s) && FlushApply(s, v', s')
    ensures PausedInv(s')
  {
    FlushApplyShape(s, v', s');
    NumbersOfFlush(s);
    if s.paused.Some? {
      var m := s.paused.value;
      PausedMerge(s);
      hide StoreInv, FlushApply, Installed, MergingInv, Meanwhile, Below, NumbersOf;
      StillMerging(s, s', m);
      MergingFacts(s, m);
      FlushedMeanwhile(s, m, v');
    }
  }

  lemma {:induction false} FlushApplyShape(s: Store, v': Version, s': Store)
    requires FlushApply(s, v', s')
    ensures s.bg.FlushBuilt? && |s.version.files| == NUM_LEVELS && Installed(s.version, FileEdit({}, s.bg.files), v')
    ensures s' == s.(bg := s'.bg) && s'.bg.Installing? && s'.bg.flush && s'.bg.outputs == {} && s'.bg.keepFrom == s.floor
    ensures s'.bg.record.version == v' && s'.bg.record.nextFile == s.nextFile
  {
    hide Installed;
  }

  lemma {:induction false} NumbersOfFlush(s: Store)
    requires StoreInv(s)
    ensures s.bg.FlushBuilt? ==> s.bg.number < s.nextFile
  {
    hide DiskInv, LogsInv, MemoryInv, ReadersInv, PausedInv, MergingInv, Flushable;
  }

  lemma {:induction false} PausedMerge(s: Store)
    requires StoreInv(s) && s.paused.Some?
    ensures MergingInv(s, s.paused.value.work, s.paused.value.open)
    ensures s.bg.FlushBuilt? ==> s.bg.number !in NumbersOf(s.paused.value)
    ensures !s.bg.Compacting? ==> Below(s.version, Base(s), NumbersOf(s.paused.value))
  {
    hide DiskInv, LogsInv, ReadersInv, BackgroundInv, MergingInv, Below, NumbersOf, Recoverable, Stored;
  }

  lemma {:induction false} MergingFacts(s: Store, m: Merging)
    requires MergingInv(s, m.work, m.open)
    ensures Begun(m.work) && Meanwhile(m.work, s.version, Base(s)) && UsableOutputs(m.work.outputs, m.work.next, s.nextFile)
    ensures s.floor <= m.work.smallestSnapshot
  {
    hide Begun, Meanwhile, UsableOutputs, OutputsStored;
  }

  lemma {:induction false} FlushedMeanwhile(s: Store, m: Merging, v': Version)
    requires StoreInv(s) && s.bg.FlushBuilt? && s.paused == Some(m) && |s.version.files| == NUM_LEVELS
    requires Installed(s.version, FileEdit({}, s.bg.files), v')
    ensures Meanwhile(m.work, v', s.nextFile) && Below(v', s.nextFile, NumbersOf(m))
  {
    PausedMerge(s);
    NumbersOfFlush(s);
    MergingFacts(s, m);
    FlushedPlaces(s, v');
    if s.bg.files == [] {
      FlushedVersion(s, v');
      hide StoreInv, Installed, MergingInv, Meanwhile, Sound, AllPlaced, NumbersOf;
      NothingFlushed(m.work, s.version, s.bg.number, v', s.nextFile);
      StillBelow(s.version, s.bg.number, v', s.nextFile, NumbersOf(m));
    } else {
      FlushedFits(s);
      hide StoreInv, Installed, MergingInv, Meanwhile, Sound, AllPlaced, NumbersOf, Flushable, Below;
      var (level, f) := s.bg.files[0];
      assert FileEdit({}, s.bg.files) == FlushEdit(level, f);
      FlushBesideMerge(m, s.version, s.bg.number, level, f, v', s.nextFile);
    }
  }

  lemma {:induction false} StillBelow(v: Version, base: nat, v': Version, base': nat, own: set<nat>)
    requires Below(v, base, own) && base <= base' && forall p :: p in AllPlaced(v') <==> p in AllPlaced(v)
    ensures Below(v', base', own)
  {
    hide AllPlaced;
  }

  lemma {:induction false} FlushBesideMerge(m: Merging, v: Version, number: nat, level: nat, f: FileMetaData, v': Version, next: nat)
    requires Meanwhile(m.work, v, number) && Below(v, number, NumbersOf(m)) && number !in NumbersOf(m)
    requires Flushable(v, number, level, f) && f.number == number < next
    requires |v.files| == NUM_LEVELS && Installed(v, FlushEdit(level, f), v')
    requires forall p :: p in AllPlaced(v') <==> p in AllPlaced(v) || p in [(level, f)]
    ensures Meanwhile(m.work, v', next) && Below(v', next, NumbersOf(m))
  {
    assert forall p :: p in [(level, f)] <==> p == (level, f);
    hide Installed, Meanwhile, Flushable, AllPlaced;
    forall x | x in m.work.outputs
      ensures x.number != f.number
    {
      assert x.number in OutputNumbers(m.work.outputs);
    }
    FlushStaysMeanwhile(m.work, v, number, level, f, v', next);
  }

  lemma {:induction false} FlushedFits(s: Store)
    requires StoreInv(s) && s.bg.FlushBuilt? && s.bg.files != []
    ensures Flushable(s.version, s.bg.number, s.bg.files[0].0, s.bg.files[0].1)
  {
    hide DiskInv, LogsInv, MemoryInv, ReadersInv, PausedInv, MergingInv, Flushable;
  }

  lemma {:induction false} FlushedPlaces(s: Store, v': Version)
    requires StoreInv(s) && s.bg.FlushBuilt? && |s.version.files| == NUM_LEVELS
    requires Installed(s.version, FileEdit({}, s.bg.files), v')
    ensures forall p :: p in AllPlaced(v') <==> p in AllPlaced(s.version) || p in s.bg.files
    ensures s.bg.files != [] ==> s.bg.files == [s.bg.files[0]] && s.bg.files[0].1.number == s.bg.number
  {
    hide DiskInv, ReadersInv, LogsInv, PausedInv, Installed, Stored, SameViews, Older, Flushable, Covered, AllPlaced, AllEntries, Rules,
      OrderedLevels;
    var edit := FileEdit({}, s.bg.files);
    OrderedBySoundness(s.version, s.bg.number);
    if s.bg.files == [] {
      NothingIsNew(s.version, edit);
    } else {
      var (level, f) := s.bg.files[0];
      assert edit == FlushEdit(level, f);
      FlushableFacts(s.version, s.bg.number, level, f);
      FlushIsNew(s.version, s.bg.number, level, f);
    }
    InstalledPlaces(s.version, edit, v');
    assert forall p :: p in AllPlaced(s.version) ==> Stays(p, edit);
  }

  lemma {:induction false} NothingFlushed(w: Work, v: Version, next: nat, v': Version, next': nat)
    requires Meanwhile(w, v, next) && AllPlaced(v') == AllPlaced(v) && Sound(v', next')
    ensures Meanwhile(w, v', next')
  {
    hide Sound, FlushedBeside, AllPlaced;
  }

  lemma {:induction false} NowInstalling(s: Store)
    requires s.bg.Installing? && InstallingInv(s, s.bg.record, s.bg.flush, s.bg.keepFrom)
    ensures BackgroundInv(s)
  {
    hide InstallingInv;
  }

  lemma {:induction false} SameRecord(s: Store, s': Store, record: Manifest, flush: bool, keepFrom: SequenceNumber)
    requires InstallingInv(s, record, flush, keepFrom)
    requires s' == s.(bg := s'.bg) && s'.bg.Installing? && !s'.bg.written
    ensures InstallingInv(s', record, flush, keepFrom)
  {
    hide Recoverable, Stored;
    assert Memory(s') == Memory(s);
  }

  lemma {:induction false} FloorFacts(s: Store)
    requires StoreInv(s)
    ensures s.floor <= Smallest(s) && s.floor <= s.lastSequence && Base(s) <= s.nextFile
  {
    hide DiskInv, ReadersInv, Flushable, Begun, Meanwhile, UsableOutputs, OutputsStored, Recoverable, Stored, Sound, SameViews, Covered, Older;
  }

  lemma {:induction false} FlushedIsOlder(s: Store, entries: set<Entry>)
    requires MemoryInv(s) && s.imm.Some? && entries == AllEntries(s.version) + Contents(s.imm.value)
    ensures Older(entries, Contents(s.mem))
  {
    hide Sound, SameViews, Stored, Covered;
  }

  lemma {:induction false} FlushedVersion(s: Store, v': Version)
    requires StoreInv(s) && s.bg.FlushBuilt? && |s.version.files| == NUM_LEVELS
    requires Installed(s.version, FileEdit({}, s.bg.files), v')
    ensures Sound(v', s.nextFile) && Stored(s.disk.tables, v') && s.imm.Some?
    ensures AllEntries(v') == AllEntries(s.version) + Contents(s.imm.value)
  {
    hide DiskInv, ReadersInv, LogsInv, Installed, Stored, SameViews, Older, Flushable, Covered, AllPlaced, AllEntries, Rules, OrderedLevels;
    var edit := FileEdit({}, s.bg.files);
    if s.bg.files == [] {
      NothingIsNew(s.version, edit);
      SoundLater(s.version, s.bg.number, s.nextFile);
      OrderedBySoundness(s.version, s.nextFile);
      InstalledPlaces(s.version, edit, v');
      EditKeepsRules(s.version, edit, v', s.nextFile, s.nextFile);
      assert AllPlaced(v') == AllPlaced(s.version);
      EntriesByPlace(s.version);
      EntriesByPlace(v');
    } else {
      var (level, f) := s.bg.files[0];
      assert edit == FlushEdit(level, f);
      FlushableFacts(s.version, s.bg.number, level, f);
      FlushIsNew(s.version, s.bg.number, level, f);
      OrderedBySoundness(s.version, s.bg.number);
      FlushKeepsRules(s.version, s.bg.number, level, f, v', s.nextFile);
      InstalledPlaces(s.version, edit, v');
    }
    StoredInstalled(s.disk.tables, s.version, edit, v');
  }

  lemma {:induction false} FlushableFacts(v: Version, next: nat, level: nat, f: FileMetaData)
    requires Flushable(v, next, level, f)
    ensures next <= f.number && level < NUM_LEVELS
  {
  }

  lemma {:induction false} OrderedBySoundness(v: Version, next: nat)
    requires Sound(v, next)
    ensures OrderedLevels(v)
  {
  }

  lemma {:induction false} NothingIsNew(v: Version, edit: FileEdit)
    requires edit.added == []
    ensures NewFiles(v, edit)
  {
  }

  lemma {:induction false} MoveApplyKeeps(s: Store, level: nat, f: FileMetaData, grandparents: Level, v': Version, s': Store)
    requires StoreInv(s) && MoveApply(s, level, f, grandparents, v', s')
    ensures StoreInv(s')
  {
    hide DiskInv, MemoryInv, ReadersInv, BackgroundInv, Installed, Stored, Sound, SameViews, Older, Selected;
    OnlyTablesKeeps(s, s');
    MovedVersion(s, level, f, v');
    MemoryIsHistory(s);
    SameEntriesSameViews(AllEntries(v') + Memory(s), Visible(s), s.floor);
    FloorFacts(s);
    RecordFor(s, s'.bg.record, false, s.floor);
    SameRecord(s, s', s'.bg.record, false, s.floor);
    NowInstalling(s');
  }

  lemma {:induction false} VersionFacts(s: Store)
    requires StoreInv(s)
    ensures Sound(s.version, Base(s)) && Stored(s.disk.tables, s.version) && OrderedLevels(s.version)
    ensures UniqueSequences(AllEntries(s.version)) && UniqueSequences(Visible(s)) && WellFormed(s.version)
    ensures Older(AllEntries(s.version), Memory(s)) && Visible(s) <= s.history
    ensures s.lastSequence < MAX_SEQUENCE_NUMBER
  {
    hide ReadersInv, LogsInv, BackgroundInv, Stored, SameViews, Older, Covered, AllPlaced, AllEntries, Rules, OrderedLevels, WellFormed;
    OrderedBySoundness(s.version, Base(s));
    SubsetIsUnique(AllEntries(s.version), s.history);
    SubsetIsUnique(Visible(s), s.history);
    SoundIsWellFormed(s.version, Base(s));
  }

  lemma {:induction false} MovedVersion(s: Store, level: nat, f: FileMetaData, v': Version)
    requires StoreInv(s) && s.bg.Idle? && Selected(s.version, level, [f], [])
    requires |s.version.files| == NUM_LEVELS && Installed(s.version, MoveEdit(level, f), v')
    ensures Sound(v', s.nextFile) && Stored(s.disk.tables, v') && AllEntries(v') == AllEntries(s.version)
  {
    hide StoreInv, Installed, Stored, Sound, Older, Selected, WellFormed, AllPlaced, AllEntries, OrderedLevels;
    VersionFacts(s);
    MoveKeepsRules(s.version, s.nextFile, level, f, v');
    MovedFilePlace(s.version, level, f);
    MoveIsNew(s.version, s.nextFile, level, f);
    InstalledPlaces(s.version, MoveEdit(level, f), v');
    StoredAt(s.disk.tables, s.version, (level, f));
    StoredInstalled(s.disk.tables, s.version, MoveEdit(level, f), v');
  }

  lemma {:induction false} StoredAt(tables: map<nat, seq<Entry>>, v: Version, p: Placed)
    requires Stored(tables, v) && p in AllPlaced(v)
    ensures p.1.number in tables && tables[p.1.number] == p.1.table
  {
  }

  lemma {:induction false} MovedFilePlace(v: Version, level: nat, f: FileMetaData)
    requires WellFormed(v) && Selected(v, level, [f], [])
    ensures level + 1 < NUM_LEVELS && |v.files| == NUM_LEVELS && f in v.files[level] && (level, f) in AllPlaced(v)
  {
    hide WellFormed, Selected;
    SelectionFacts(v, level, [f], []);
    ChosenFilesAreThere(v, level, [f], []);
    assert [f][0] == f;
  }

  // The same merge, with a bound on its numbers that is known by now.
  lemma {:induction false} FinishedMeanwhile(w: Work, after: nat, v: Version, next: nat)
    requires Meanwhile(w, v, next)
    ensures Meanwhile(w.(nextAfter := after), v, next)
    ensures OutputsClear(w, v) ==> OutputsClear(w.(nextAfter := after), v)
    ensures Flushed(w.(nextAfter := after), v) == Flushed(w, v)
  {
    hide Sound, FileMetaData.Valid, NewerThanAll, Pushable, AllPlaced, Meets;
    var w' := w.(nextAfter := after);
    forall p | p in Flushed(w', v)
      ensures FlushedBeside(w', p)
    {
      assert FlushedBeside(w, p);
    }
  }

  // The survivors of the merge, for a compaction whose outputs are complete.
  lemma {:induction false} CompactedVersion(s: Store, v': Version, s': Store)
    requires StoreInv(s) && CompactionApply(s, v', s')
    ensures Sound(v', s.nextFile) && Stored(s.disk.tables, v')
    ensures AllEntries(v') <= AllEntries(s.version)
    ensures SameViews(AllEntries(v') + Memory(s), Visible(s), s.bg.work.smallestSnapshot)
  {
    CompactingFacts(s);
    hide StoreInv, Installed, Stored, Sound, Older, Selected, IsMerge, WellFormed, AllPlaced, AllEntries, OrderedLevels, UniqueSequences,
      Survivors, Setting.Exposed, Work.Valid, SameViews, Meanwhile, OutputsClear, EntriesOf, Flushed;
    var w := s.bg.work.(nextAfter := s.nextFile);
    var flushed := EntriesOf(Flushed(w, s.version));
    VersionFacts(s);
    WorkIsValid(s);
    FinishedMeanwhile(s.bg.work, s.nextFile, s.version, s.nextFile);
    assert w.Edit() == s.bg.work.Edit();
    RulesKeptExactly(w, s.version, s.nextFile, v', s.nextFile);
    OutputsAreNewStill(w, s.version, s.nextFile);
    InstalledPlaces(s.version, w.Edit(), v');
    OutputsAreStored(s);
    StoredInstalled(s.disk.tables, s.version, w.Edit(), v');
    EntriesAfterwards(w, s.version, s.nextFile, v');
    FlushedEntries(w, s.version, s.nextFile);
    var c := Setting(w.v, w.level, w.in0, w.in1, w.input, AboveMerge(s, s.bg.work), w.smallestSnapshot);
    SettingIsValid(s, c);
    CompactedEntries(c, w, Memory(s), flushed, v');
    assert c.Before() == Visible(s);
    UnexposedIsSame(c);
  }

  lemma {:induction false} CompactingFacts(s: Store)
    requires StoreInv(s) && s.bg.Compacting?
    ensures Meanwhile(s.bg.work, s.version, s.nextFile) && Begun(s.bg.work)
    ensures UsableOutputs(s.bg.work.outputs, s.bg.work.next, s.nextFile) && s.bg.work.next <= s.nextFile
  {
    hide DiskInv, LogsInv, MemoryInv, ReadersInv, Begun, Meanwhile, UsableOutputs, OutputsStored;
  }

  lemma {:induction false} FlushedEntries(w: Work, v: Version, next: nat)
    requires Meanwhile(w, v, next)
    ensures AllEntries(v) == EntriesOf(Flushed(w, v)) + AllEntries(w.v)
  {
    hide Sound, FlushedBeside;
    EntriesMeanwhile(w, v);
  }

  lemma {:induction false} UnexposedIsSame(c: Setting)
    requires c.Valid() && c.level + 1 < |c.v.files| == NUM_LEVELS && !c.Exposed()
    ensures SameViews(c.After(), c.Before(), c.smallestSnapshot)
  {
    hide Setting.Valid, Setting.Exposed, Setting.After, Setting.Before, View;
    CompactionKeepsViewsExactly(c);
  }

  lemma {:induction false} CompactedEntries(c: Setting, w: Work, memory: set<Entry>, flushed: set<Entry>, v': Version)
    requires c.Valid() && w.Valid() && c.v == w.v && c.level == w.level && c.in0 == w.in0 && c.in1 == w.in1 && c.input == w.input
    requires c.smallestSnapshot == w.smallestSnapshot && |c.v.files| == NUM_LEVELS && c.upper == memory + flushed
    requires AllEntries(v') == flushed + Untouched(w.v, w.level, w.in0, w.in1) + Contents(Concat(w.outputs))
    ensures AllEntries(v') <= flushed + AllEntries(c.v)
    ensures c.After() == AllEntries(v') + memory
  {
    hide Sound, UniqueSequences, Selected, IsMerge, WellFormed, AllEntries, Untouched;
    SettingFacts(c);
    SplitEntries(c.v, c.level, c.in0, c.in1, c.input);
    SurvivorsMembers(c.v, c.level, c.input, c.smallestSnapshot, |c.input|);
  }

  lemma {:induction false} SettingIsValid(s: Store, c: Setting)
    requires StoreInv(s) && s.bg.Compacting? && |s.version.files| == NUM_LEVELS
    requires var w := s.bg.work;
      && |w.v.files| == NUM_LEVELS && Concat(w.outputs) == Survivors(w.v, w.level, w.input, w.smallestSnapshot, |w.input|)
      && c == Setting(w.v, w.level, w.in0, w.in1, w.input, AboveMerge(s, w), w.smallestSnapshot)
    ensures c.Valid()
  {
    CompactingFacts(s);
    CompactionFacts(s);
    VersionFacts(s);
    WorkIsValid(s);
    var w := s.bg.work.(nextAfter := s.nextFile);
    FinishedMeanwhile(s.bg.work, s.nextFile, s.version, s.nextFile);
    FlushedEntries(w, s.version, s.nextFile);
    FlushedAbove(w, s.version, s.nextFile);
    OlderIsAbove(AllEntries(s.version), Memory(s));
    hide *;
    var flushed := EntriesOf(Flushed(w, s.version));
    AboveTogether(Memory(s), flushed, AllEntries(s.version), AllEntries(w.v));
    UpperIs(s, w, flushed);
    SettingFromParts(c);
  }

  lemma {:induction false} UpperIs(s: Store, w: Work, flushed: set<Entry>)
    requires s.bg.Compacting? && EntriesOf(Flushed(s.bg.work, s.version)) == flushed && AllEntries(s.version) == flushed + AllEntries(w.v)
    ensures AboveMerge(s, s.bg.work) == Memory(s) + flushed
    ensures AboveMerge(s, s.bg.work) + AllEntries(w.v) == Visible(s)
  {
    hide AllEntries, EntriesOf, Flushed, Memory;
  }

  lemma {:induction false} SettingFromParts(c: Setting)
    requires WellFormed(c.v) && Selected(c.v, c.level, c.in0, c.in1) && IsMerge(c.input, c.in0, c.in1)
    requires UniqueSequences(c.upper + AllEntries(c.v)) && Above(c.upper, AllEntries(c.v)) && c.smallestSnapshot < MAX_SEQUENCE_NUMBER
    ensures c.Valid()
  {
  }

  lemma {:induction false} FlushedAbove(w: Work, v: Version, next: nat)
    requires w.Valid() && Meanwhile(w, v, next) && UniqueSequences(AllEntries(v)) && w.smallestSnapshot < MAX_SEQUENCE_NUMBER
    ensures WellFormed(w.v) && Selected(w.v, w.level, w.in0, w.in1) && IsMerge(w.input, w.in0, w.in1)
    ensures Above(EntriesOf(Flushed(w, v)), AllEntries(w.v))
  {
    hide Meanwhile, Work.Valid, WellFormed, Selected, IsMerge, UniqueSequences, AllEntries, Above, EntriesOf, Flushed;
    BeneathIsValid(w, v, next);
  }

  lemma {:induction false} AboveTogether(memory: set<Entry>, flushed: set<Entry>, all: set<Entry>, lower: set<Entry>)
    requires Above(memory, all) && Above(flushed, lower) && lower <= all
    ensures Above(memory + flushed, lower)
  {
  }

  lemma {:induction false} OlderIsAbove(a: set<Entry>, b: set<Entry>)
    requires Older(a, b)
    ensures Above(b, a)
  {
  }

  lemma {:induction false} WorkIsValid(s: Store)
    requires StoreInv(s) && s.bg.Compacting? && |s.version.files| == NUM_LEVELS
    requires var w := s.bg.work;
      |w.v.files| == NUM_LEVELS && Concat(w.outputs) == Survivors(w.v, w.level, w.input, w.smallestSnapshot, |w.input|)
    ensures s.bg.work.(nextAfter := s.nextFile).Valid()
  {
    CompactingFacts(s);
    hide StoreInv, Selected, IsMerge, WellFormed, AllEntries, OrderedLevels, UniqueSequences, Sound, UsableOutputs, Meanwhile;
  }

  lemma {:induction false} OutputsAreStored(s: Store)
    requires StoreInv(s) && s.bg.Compacting?
    ensures forall p :: p in s.bg.work.(nextAfter := s.nextFile).Edit().added
              ==> p.1.number in s.disk.tables && s.disk.tables[p.1.number] == p.1.table
  {
    hide DiskInv, MemoryInv, ReadersInv, LogsInv, Begun, Meanwhile, UsableOutputs;
    var w := s.bg.work.(nextAfter := s.nextFile);
    forall p | p in w.Edit().added
      ensures p.1 in w.outputs
    {
      var i :| 0 <= i < |w.Edit().added| && w.Edit().added[i] == p;
    }
  }

  lemma {:induction false} CompactionFacts(s: Store)
    requires StoreInv(s) && s.bg.Compacting?
    ensures s.floor <= s.bg.work.smallestSnapshot <= Smallest(s) && s.bg.work.smallestSnapshot <= s.lastSequence
  {
    hide DiskInv, MemoryInv, ReadersInv, LogsInv, Begun, Meanwhile, UsableOutputs, OutputsStored;
  }

  lemma {:induction false} OnlyRecord(s: Store, s': Store)
    requires StoreInv(s) && s' == s.(bg := s'.bg) && !s.bg.Installing? && s'.bg.Installing? && !s'.bg.written
    ensures OnlyTables(s, s')
  {
    PausedByFlush(s);
    hide StoreInv;
    FloorFacts(s);
  }

  lemma {:induction false} PausedByFlush(s: Store)
    requires StoreInv(s)
    ensures s.paused.Some? ==> s.bg.FlushBuilding? || s.bg.FlushBuilt? || s.bg.Installing?
  {
    hide DiskInv, MemoryInv, ReadersInv, LogsInv, BackgroundInv, MergingInv, Meanwhile, Below;
  }

  lemma {:induction false} CompactionApplyKeeps(s: Store, v': Version, s': Store)
    requires StoreInv(s) && CompactionApply(s, v', s')
    ensures StoreInv(s')
  {
    CompactedVersion(s, v', s');
    OnlyRecord(s, s');
    hide StoreInv, BackgroundInv, Installed, Stored, Sound, SameViews, Older, Selected, Survivors, Setting.Exposed, OnlyTables;
    OnlyTablesKeeps(s, s');
    VersionFacts(s);
    CompactionFacts(s);
    SubsetIsOlder(AllEntries(v'), AllEntries(s.version), Memory(s), Memory(s));
    RecordFor(s, s'.bg.record, false, s'.bg.keepFrom);
    SameRecord(s, s', s'.bg.record, false, s'.bg.keepFrom);
    NowInstalling(s');
  }

  // ----- the record reaches the disk; the version becomes current -----

  lemma {:induction false} WriteManifestLogs(s: Store, s': Store)
    requires StoreInv(s) && WriteManifest(s, s')
    ensures LogEntries(s'.disk) == StillLogged(s, s.bg.flush)
    ensures LogsInv(s') && LogsInOrder(s'.disk.logs, s'.disk.manifest.logNumber)
    ensures s.disk.manifest.logNumber <= s'.disk.manifest.logNumber
  {
    hide MemoryInv, ReadersInv, Recoverable, Stored, Older, Bounded, UniqueSequences;
    forall e
      ensures e in LogEntries(s'.disk) <==> e in StillLogged(s, s.bg.flush)
    {
      if e in s.mem { assert s.currentLog in s'.disk.logs && e in s'.disk.logs[s.currentLog]; }
      if !s.bg.flush && s.imm.Some? && e in s.imm.value { assert s.immLog in s'.disk.logs && e in s'.disk.logs[s.immLog]; }
    }
  }

  lemma {:induction false} RecordFacts(s: Store)
    requires StoreInv(s) && s.bg.Installing?
    ensures Recoverable(s.bg.record, StillLogged(s, s.bg.flush), s.history, s.bg.keepFrom)
    ensures Stored(s.disk.tables, s.bg.record.version) && UniqueSequences(s.history) && Bounded(s.history)
    ensures s.floor <= s.bg.keepFrom <= Smallest(s) && s.bg.keepFrom <= s.lastSequence && s.bg.record.lastSequence <= s.lastSequence
    ensures s.bg.record.nextFile <= s.nextFile
    ensures s.bg.record.logNumber == if s.bg.flush then s.currentLog else s.logNumber
    ensures s.bg.written ==> s.disk.manifest == s.bg.record && s.floor == s.bg.keepFrom
  {
    hide MemoryInv, ReadersInv, LogsInv, Recoverable, Stored, Bounded, UniqueSequences, LogsInOrder;
    assert InstallingInv(s, s.bg.record, s.bg.flush, s.bg.keepFrom);
    RecoverableBound(s.bg.record, StillLogged(s, s.bg.flush), s.history, s.bg.keepFrom);
  }

  lemma {:induction false} RecoverableBound(m: Manifest, logged: set<Entry>, history: set<Entry>, floor: SequenceNumber)
    requires Recoverable(m, logged, history, floor)
    ensures floor <= m.lastSequence
  {
    hide Sound, SameViews, Older, Covered;
  }

  lemma {:induction false} WriteManifestKeeps(s: Store, s': Store)
    requires StoreInv(s) && WriteManifest(s, s')
    ensures StoreInv(s')
  {
    WriteManifestLogs(s, s');
    RecordFacts(s);
    MemoryFromFloor(s, s');
    hide StoreInv, DiskInv, LogsInv, MemoryInv, Recoverable, Stored, Bounded, UniqueSequences, LogsInOrder, ReaderInv;
    assert DiskInv(s'.disk, s'.history, s'.floor) by { DiskFromParts(s'.disk, s'.history, s'.floor); }
    assert ReadersInv(s') && SnapshotsInv(s') by { OtherParts(s, s'); }
    assert StillLogged(s', s'.bg.flush) == StillLogged(s, s.bg.flush);
    assert s.bg.flush ==> s.imm.Some? by { InstallingFlush(s); }
    assert InstallingInv(s', s'.bg.record, s'.bg.flush, s'.bg.keepFrom);
    NowInstalling(s');
    StoreFromParts(s');
  }

  lemma {:induction false} InstallingFlush(s: Store)
    requires StoreInv(s) && s.bg.Installing?
    ensures s.bg.flush ==> s.imm.Some?
  {
    hide DiskInv, MemoryInv, ReadersInv, LogsInv, Recoverable, Stored;
  }

  lemma {:induction false} DiskFromParts(d: Disk, history: set<Entry>, floor: SequenceNumber)
    requires UniqueSequences(history) && Bounded(history) && Recoverable(d.manifest, LogEntries(d), history, floor)
    requires Stored(d.tables, d.manifest.version) && LogsInOrder(d.logs, d.manifest.logNumber)
    ensures DiskInv(d, history, floor)
  {
  }

  lemma {:induction false} StoreFromParts(s: Store)
    requires DiskInv(s.disk, s.history, s.floor) && LogsInv(s) && MemoryInv(s) && ReadersInv(s) && SnapshotsInv(s)
    requires ManifestInv(s) && BackgroundInv(s) && PausedInv(s)
    ensures StoreInv(s)
  {
  }

  lemma {:induction false} OtherParts(s: Store, s': Store)
    requires StoreInv(s) && s'.readers == s.readers && s'.disk.tables == s.disk.tables && Base(s') == Base(s) && Own(s') == Own(s)
    requires s'.lastSequence == s.lastSequence && s'.history == s.history && s'.snapshots == s.snapshots && s'.floor <= Smallest(s)
    ensures ReadersInv(s') && SnapshotsInv(s')
  {
    hide DiskInv, LogsInv, MemoryInv, ReaderInv, BackgroundInv, ManifestInv;
  }

  lemma {:induction false} MemoryFromFloor(s: Store, s': Store)
    requires StoreInv(s) && WriteManifest(s, s')
    ensures MemoryInv(s')
  {
    RecordFacts(s);
    hide DiskInv, LogsInv, ReadersInv, BackgroundInv, ManifestInv, Sound, SameViews, Older, Stored, UpTo, NextBatch, Bounded, UniqueSequences;
    assert Memory(s') == Memory(s);
    SameViewsLater(Visible(s), s.history, s.floor, s'.floor);
  }

  lemma {:induction false} InstallVersionKeeps(s: Store, s': Store)
    requires StoreInv(s) && InstallVersion(s, s')
    ensures StoreInv(s')
  {
    RecordFacts(s);
    InstalledMemory(s, s');
    hide MemoryInv, Recoverable, Stored, Bounded, UniqueSequences, ReaderInv, DiskInv;
    OtherParts(s, s');
  }

  lemma {:induction false} InstalledMemory(s: Store, s': Store)
    requires StoreInv(s) && InstallVersion(s, s')
    ensures MemoryInv(s')
  {
    RecordFacts(s);
    VersionFacts(s);
    hide DiskInv, ReadersInv, LogsInv, ManifestInv, BackgroundInv, Recoverable, Stored, Bounded, UniqueSequences, LogsInOrder, UpTo, Older, NextBatch;
    assert Memory(s') == StillLogged(s, s.bg.flush);
    RecoverableLater(s.bg.record, Memory(s'), s.history, s.floor, Current(s'));
  }

  // ----- deletion -----

  lemma {:induction false} StillStoredWhenNeeded(s: Store, s': Store, v: Version)
    requires DeleteObsoleteFiles(s, s') && Stored(s.disk.tables, v) && FileNumbers(v) <= LiveFiles(s)
    ensures Stored(s'.disk.tables, v)
  {
    forall p | p in AllPlaced(v)
      ensures p.1.number in s'.disk.tables && s'.disk.tables[p.1.number] == p.1.table
    {
      assert p.1.number in FileNumbers(v);
    }
  }

  lemma {:induction false} DeleteKeepsDisk(s: Store, s': Store)
    requires StoreInv(s) && DeleteObsoleteFiles(s, s')
    ensures DiskInv(s'.disk, s'.history, s'.floor)
  {
    hide MemoryInv, ReadersInv, BackgroundInv, Recoverable, Stored, Bounded, UniqueSequences, Older, FileNumbers;
    StillStoredWhenNeeded(s, s', s.version);
    forall e
      ensures e in LogEntries(s'.disk) <==> e in LogEntries(s.disk)
    {
      if e in LogEntries(s.disk) {
        var n :| n in s.disk.logs && s.disk.manifest.logNumber <= n && e in s.disk.logs[n];
        assert n in s'.disk.logs && e in s'.disk.logs[n];
      }
    }
    assert LogEntries(s'.disk) == LogEntries(s.disk);
    assert s'.disk.manifest == s.disk.manifest && s.disk.manifest.version == s.version;
    DiskFromParts(s'.disk, s'.history, s'.floor);
  }

  lemma {:induction false} DeleteKeepsReaders(s: Store, s': Store)
    requires StoreInv(s) && DeleteObsoleteFiles(s, s')
    ensures ReadersInv(s')
  {
    hide MemoryInv, DiskInv, LogsInv, BackgroundInv, Stored, View, Below;
    forall r | r in s.readers
      ensures ReaderInv(r, s'.disk.tables, Base(s'), Own(s'), s'.lastSequence, s'.history)
    {
      assert ReaderInv(r, s.disk.tables, Base(s), Own(s), s.lastSequence, s.history);
      StillStoredWhenNeeded(s, s', r.version);
    }
  }

  /** Nothing that a live version, a pending output or a restart needs is deleted. */
  lemma {:induction false} DeleteObsoleteFilesKeeps(s: Store, s': Store)
    requires StoreInv(s) && DeleteObsoleteFiles(s, s')
    ensures StoreInv(s')
  {
    DeleteKeepsDisk(s, s');
    DeleteKeepsReaders(s, s');
    DeleteKeepsMemory(s, s');
    DeleteKeepsRest(s, s');
    hide *;
    StoreFromParts(s');
  }

  lemma {:induction false} DeleteKeepsRest(s: Store, s': Store)
    requires StoreInv(s) && DeleteObsoleteFiles(s, s')
    ensures LogsInv(s') && SnapshotsInv(s') && ManifestInv(s') && BackgroundInv(s')
  {
    hide MemoryInv, DiskInv, ReadersInv, Begun, Meanwhile, UsableOutputs, AllPlaced, FileNumbers;
  }

  lemma {:induction false} DeleteKeepsMemory(s: Store, s': Store)
    requires StoreInv(s) && DeleteObsoleteFiles(s, s')
    ensures MemoryInv(s')
  {
    hide ReadersInv, DiskInv, LogsInv, BackgroundInv, ManifestInv, Recoverable, Stored, UpTo, Older, NextBatch, FileNumbers;
    StillStoredWhenNeeded(s, s', s.version);
    assert Memory(s') == Memory(s) && Current(s') == Current(s);
  }
}
