/**
 The manifest of a running store.  The records that the store has written since it was
 opened, after a snapshot of the version that it was opened with, restore the version that
 the disk stands for, and every beginning of them a version that it stood for before
 (db/version_set.cc: LogAndApply, Recover).
 */
module ManifestRun {
  import opened Wrappers
  import opened DbFormat
  import opened Views
  import opened StoreViews
  import opened Versions
  import opened CompactionInputs
  import opened CompactionPicker
  import opened CompactionMeaning
  import opened Compactions
  import opened MergeRules
  import opened VersionBuilder
  import opened ManifestReplay
  import opened LevelRules
  import opened FlushDuringCompaction
  import opened ManifestHistory
  import opened StoreState
  import opened StoreSteps
  import opened StoreSafety
  import opened StoreRun
  import M = Manifests
  import Logs = LogFormat

  // ----- what the manifest holds -----

  // The version at the start of the manifest, and the edits that followed.
  datatype Records = Records(base: Version, edits: seq<FileEdit>)

  ghost function DiskOf(y: System): Disk {
    if y.Up? then y.store.disk else y.disk
  }

  ghost function ManifestOf(y: System): Version {
    DiskOf(y).manifest.version
  }

  // The records after one more step: opening starts a manifest, and LogAndApply adds to it.
  ghost function RecordsAfter(r: Records, y: System, step: Step): Records {
    if step.DoRecover? then Records(ManifestOf(y), [RecoveryEdit(step.files)])
    else if step.DoWriteManifest? && y.Up? && y.store.bg.Installing? then Records(r.base, r.edits + [y.store.bg.edit])
    else r
  }

  ghost function Written(run: seq<System>, steps: seq<Step>, i: nat): Records
    requires i < |run| && |steps| == |run| - 1
  {
    if i == 0 then Records(EMPTY_VERSION, [])
    else RecordsAfter(Written(run, steps, i - 1), run[i - 1], steps[i - 1])
  }

  // ----- the history behind the records -----

  ghost function UsedThrough(used: Usage, changes: seq<Change>): Usage
    requires |used| == NUM_LEVELS
    ensures |UsedThrough(used, changes)| == NUM_LEVELS
    decreases |changes|
  {
    if changes == [] then used else UsedThrough(UsedAfter(used, changes[0].Edit()), changes[1..])
  }

  // What has been used is below the bound and not one of the numbers still to be used.
  ghost predicate Spares(used: Usage, bound: nat, own: set<nat>) {
    forall l :: 0 <= l < |used| ==> SparesAt(used[l], bound, own)
  }

  ghost predicate SparesAt(used: set<nat>, bound: nat, own: set<nat>) {
    forall n :: n in used ==> n < bound && n !in own
  }

  ghost predicate EndsIn(r: Records, start: nat, changes: seq<Change>, v: Version, bound: nat, own: set<nat>) {
    && Sound(r.base, start) && Edits(changes) == r.edits
    && |r.base.files| == NUM_LEVELS
    && Spares(UsedThrough(UsedBy(r.base), changes), bound, own)
    && exists n: nat :: n <= bound && Run(r.base, UsedBy(r.base), start, changes, v, n)
  }

  // The records are the edits of a history that ends in the version.
  ghost predicate Reached(r: Records, v: Version, bound: nat, own: set<nat>) {
    exists start: nat, changes :: EndsIn(r, start, changes, v, bound, own)
  }

  lemma {:induction false} SparesLater(used: Usage, bound: nat, own: set<nat>, bound': nat, own': set<nat>)
    requires Spares(used, bound, own) && bound <= bound' && OwnGrows(bound, own, own')
    ensures Spares(used, bound', own')
  {
    forall l | 0 <= l < |used|
      ensures SparesAt(used[l], bound', own')
    {
      assert SparesAt(used[l], bound, own);
    }
  }

  lemma {:induction false} ReachedLater(r: Records, v: Version, bound: nat, own: set<nat>, bound': nat, own': set<nat>)
    requires Reached(r, v, bound, own) && bound <= bound' && OwnGrows(bound, own, own')
    ensures Reached(r, v, bound', own')
  {
    hide Run, UsedThrough, Spares, OwnGrows, Sound;
    var start: nat, changes :| EndsIn(r, start, changes, v, bound, own);
    SparesLater(UsedThrough(UsedBy(r.base), changes), bound, own, bound', own');
    assert EndsIn(r, start, changes, v, bound', own');
  }

  lemma {:induction false} OneMoreChange(v: Version, used: Usage, next: nat, changes: seq<Change>, v1: Version, next1: nat, c: Change,
                                         v2: Version, next2: nat)
    requires Run(v, used, next, changes, v1, next1) && |used| == NUM_LEVELS
    requires Changed(v1, UsedThrough(used, changes), next1, c, v2, next2)
    ensures Run(v, used, next, changes + [c], v2, next2)
    ensures Edits(changes + [c]) == Edits(changes) + [c.Edit()]
    ensures UsedThrough(used, changes + [c]) == UsedAfter(UsedThrough(used, changes), c.Edit())
    decreases |changes|
  {
    hide Changed, UsedAfter, Change.Edit;
    var all := changes + [c];
    if changes == [] {
      assert all[0] == c && all[1..] == [];
      assert Run(v2, UsedAfter(used, c.Edit()), next2, all[1..], v2, next2) by { UsageStays(used, c.Edit()); }
    } else {
      var used3 := UsedAfter(used, changes[0].Edit());
      UsageStays(used, changes[0].Edit());
      var v3, next3: nat :| Changed(v, used, next, changes[0], v3, next3) && Run(v3, used3, next3, changes[1..], v1, next1);
      OneMoreChange(v3, used3, next3, changes[1..], v1, next1, c, v2, next2);
      assert all[0] == changes[0] && all[1..] == changes[1..] + [c];
    }
  }

  lemma {:induction false} UsageStays(used: Usage, edit: FileEdit)
    requires |used| == NUM_LEVELS
    ensures |UsedAfter(used, edit)| == NUM_LEVELS
  {
  }

  lemma {:induction false} LegalEarlier(v: Version, next: nat, c: Change, bound: nat, next': nat)
    requires c.Legal(v, bound, next') && next <= bound && (c.Compact? ==> Sound(v, next))
    ensures c.Legal(v, next, next')
  {
    hide Work.Valid, Selected, AllEntries, NewerThan, NoOverlap, UniqueSequences, FileMetaData.Valid, Sound, FlushedBeside, OutputsClear;
  }

  // New tables carry numbers from the bound on, or numbers that were kept apart.
  ghost predicate NewNumbers(c: Change, bound: nat, own: set<nat>, bound': nat, own': set<nat>) {
    forall f :: f in c.Made() ==> (bound <= f.number || f.number in own) && f.number < bound' && f.number !in own'
  }

  lemma {:induction false} AddedIsMade(c: Change, p: Placed)
    requires p in c.Edit().added
    ensures p.1 in c.Made() || (c.Move? && p.1 == c.file)
  {
    var added := c.Edit().added;
    var i :| 0 <= i < |added| && added[i] == p;
  }

  lemma {:induction false} UsedByChange(used: Usage, c: Change, bound: nat, own: set<nat>, bound': nat, own': set<nat>)
    requires |used| == NUM_LEVELS && Spares(used, bound, own) && bound <= bound' && OwnGrows(bound, own, own')
    requires NewNumbers(c, bound, own, bound', own')
    requires c.Move? ==> c.level < NUM_LEVELS && c.file.number in used[c.level]
    ensures Spares(UsedAfter(used, c.Edit()), bound', own')
    ensures forall f :: f in c.Made() ==> Unused(used, f.number)
  {
    SparesLater(used, bound, own, bound', own');
    hide OwnGrows;
    forall l: nat | l < NUM_LEVELS
      ensures SparesAt(UsedAfter(used, c.Edit())[l], bound', own')
    {
      assert SparesAt(used[l], bound', own');
      forall n | n in Numbers(AddedAt(c.Edit().added, l))
        ensures n < bound' && n !in own'
      {
        NumbersAdded(c.Edit().added, l, n);
        var f: FileMetaData :| f.number == n && (l, f) in c.Edit().added;
        AddedIsMade(c, (l, f));
        if c.Move? {
          assert SparesAt(used[c.level], bound', own');
        }
      }
    }
    forall f | f in c.Made()
      ensures Unused(used, f.number)
    {
      forall l | 0 <= l < |used|
        ensures f.number !in used[l]
      {
        assert SparesAt(used[l], bound, own);
      }
    }
  }

  lemma {:induction false} MovedIsUsed(r: Records, start: nat, changes: seq<Change>, v: Version, n: nat, level: nat, f: FileMetaData)
    requires Sound(r.base, start) && |r.base.files| == NUM_LEVELS && Run(r.base, UsedBy(r.base), start, changes, v, n)
    requires Selected(v, level, [f], [])
    ensures level < NUM_LEVELS && f.number in UsedThrough(UsedBy(r.base), changes)[level]
  {
    hide Sound, Selected, Run, UsedThrough, Compatible;
    StartIsConsistent(r.base, start);
    RunIsConsistent(r.base, UsedBy(r.base), start, changes, v, n);
    SelectedPlace(v, n, level, f);
    assert FilesBelong((level, f), UsedThrough(UsedBy(r.base), changes));
  }

  lemma {:induction false} SelectedPlace(v: Version, next: nat, level: nat, f: FileMetaData)
    requires Sound(v, next) && Selected(v, level, [f], [])
    ensures level < NUM_LEVELS && (level, f) in AllPlaced(v)
  {
    hide Rules, Ordered, Shaped;
    ChosenFilesAreThere(v, level, [f], []);
    assert f in [f];
  }

  lemma {:induction false} RunIsConsistent(v: Version, used: Usage, next: nat, changes: seq<Change>, v': Version, next': nat)
    requires Sound(v, next) && Consistent(v, used) && |used| == NUM_LEVELS && Run(v, used, next, changes, v', next')
    ensures Consistent(v', UsedThrough(used, changes)) && Sound(v', next')
    decreases |changes|
  {
    hide Sound, Consistent, Changed, Descending, Change.Edit, UsedAfter;
    if changes != [] {
      var c := changes[0];
      var used1 := UsedAfter(used, c.Edit());
      var v1, next1: nat :| Changed(v, used, next, c, v1, next1) && Run(v1, used1, next1, changes[1..], v', next');
      ChangeDescends(v, used, next, c, v1, next1);
      ChangeKeepsRules(v, used, next, c, v1, next1);
      ChangeInstalls(v, used, next, c, v1, next1, 0);
      StepIsConsistent(v, used, next, c.Edit(), v1);
      UsageStays(used, c.Edit());
      RunIsConsistent(v1, used1, next1, changes[1..], v', next');
    }
  }

  lemma {:induction false} ReachedByChange(r: Records, v: Version, bound: nat, own: set<nat>, c: Change, v': Version, bound': nat, own': set<nat>)
    requires Reached(r, v, bound, own) && bound <= bound' && OwnGrows(bound, own, own')
    requires |v.files| == NUM_LEVELS && c.Legal(v, bound, bound') && Installed(v, c.Edit(), v')
    requires NewNumbers(c, bound, own, bound', own')
    ensures Reached(Records(r.base, r.edits + [c.Edit()]), v', bound', own')
  {
    hide Run, UsedThrough, Spares, OwnGrows, Sound, Change.Legal, Change.Edit, NewNumbers, Installed, UsedAfter, Unused, Selected;
    var start: nat, changes :| EndsIn(r, start, changes, v, bound, own);
    var used := UsedThrough(UsedBy(r.base), changes);
    var n: nat :| n <= bound && Run(r.base, UsedBy(r.base), start, changes, v, n);
    assert Sound(v, n) by {
      StartIsConsistent(r.base, start);
      RunIsConsistent(r.base, UsedBy(r.base), start, changes, v, n);
    }
    if c.Move? {
      MoveIsSelected(v, bound, c, bound');
      MovedIsUsed(r, start, changes, v, n, c.level, c.file);
    }
    UsedByChange(used, c, bound, own, bound', own');
    LegalEarlier(v, n, c, bound, bound');
    OneMoreChange(r.base, UsedBy(r.base), start, changes, v, n, c, v', bound');
    assert EndsIn(Records(r.base, r.edits + [c.Edit()]), start, changes + [c], v', bound', own');
  }

  lemma {:induction false} MoveIsSelected(v: Version, next: nat, c: Change, next': nat)
    requires c.Legal(v, next, next') && c.Move?
    ensures Selected(v, c.level, [c.file], [])
  {
  }

  // ----- every step of the store -----

  ghost predicate OnTrack(r: Records, y: System) {
    match y
    case Up(s) =>
      if s.bg.Installing? && s.bg.written then Reached(r, s.bg.record.version, s.bg.record.nextFile, Own(s))
      else
        && Reached(r, s.version, Base(s), Own(s))
        && (s.bg.Installing? ==>
              Reached(Records(r.base, r.edits + [s.bg.edit]), s.bg.record.version, s.bg.record.nextFile, Own(s)))
    case Down(disk, _, _) => exists bound: nat :: Reached(r, disk.manifest.version, bound, {})
  }

  lemma {:induction false} NewStoreOnTrack()
    ensures OnTrack(Records(EMPTY_VERSION, []), NEW_STORE)
  {
    var r := Records(EMPTY_VERSION, []);
    EmptyIsSound();
    StartIsConsistent(EMPTY_VERSION, 0);
    assert Run(EMPTY_VERSION, UsedBy(EMPTY_VERSION), 0, [], EMPTY_VERSION, 0);
    assert EndsIn(r, 0, [], EMPTY_VERSION, 0, {});
    assert Reached(r, EMPTY_VERSION, 0, {});
  }

  lemma {:induction false} EmptyIsSound()
    ensures Sound(EMPTY_VERSION, 0)
  {
    assert AllPlaced(EMPTY_VERSION) == {};
  }

  // Steps that leave versions alone.
  ghost predicate KeepsVersions(s: Store, s': Store) {
    && s'.version == s.version && Base(s) <= Base(s') && OwnGrows(Base(s), Own(s), Own(s'))
    && (s'.bg.Installing? <==> s.bg.Installing?)
    && (s.bg.Installing? ==> s'.bg == s.bg && Own(s') == Own(s))
  }

  predicate Quiet(step: Step) {
    !step.DoFlushApply? && !step.DoMoveApply? && !step.DoCompactionApply? && !step.DoWriteManifest? && !step.DoInstallVersion?
  }

  lemma {:induction false} NumbersBehindWork(s: Store)
    requires StoreInv(s)
    ensures Base(s) <= s.nextFile
  {
    hide StoreInv;
    FloorFacts(s);
  }

  lemma {:induction false} QuietStepsKeepVersions(s: Store, step: Step, s': Store)
    requires StoreInv(s) && StoreStep(s, step, s') && Quiet(step)
    ensures KeepsVersions(s, s')
  {
    NumbersBehindWork(s);
    PausedByFlush(s);
    QuietStepsKeepOwn(s, step, s');
    hide StoreInv, StoreStep, Own, OwnGrows;
    QuietStepsKeepBase(s, step, s');
  }

  lemma {:induction false} QuietStepsKeepBase(s: Store, step: Step, s': Store)
    requires StoreStep(s, step, s') && Quiet(step) && Base(s) <= s.nextFile
    ensures s'.version == s.version && Base(s) <= Base(s')
    ensures s'.bg.Installing? <==> s.bg.Installing?
    ensures s.bg.Installing? ==> s'.bg == s.bg && s'.paused == s.paused
  {
    hide Selected, IsMerge, NextBatch, PickedLevel, NeededTables, NeededLogs, Own, MergeOf, Memory;
  }

  lemma {:induction false} QuietStepsKeepOwn(s: Store, step: Step, s': Store)
    requires StoreStep(s, step, s') && Quiet(step) && Base(s) <= s.nextFile
    requires s.paused.Some? ==> s.bg.FlushBuilding? || s.bg.FlushBuilt? || s.bg.Installing?
    ensures OwnGrows(Base(s), Own(s), Own(s'))
    ensures s'.bg == s.bg && s'.paused == s.paused ==> Own(s') == Own(s)
  {
    hide Selected, IsMerge, NextBatch, PickedLevel, NeededTables, NeededLogs, Own, OwnGrows, NumbersOf, Memory;
    if s'.bg == s.bg && s'.paused == s.paused {
      SameOwn(s, s');
    } else {
      OwnOfBackground(s, step, s');
    }
  }

  lemma {:induction false} SameOwn(s: Store, s': Store)
    requires MergeOf(s') == MergeOf(s)
    ensures Own(s') == Own(s) && OwnGrows(Base(s), Own(s), Own(s'))
  {
  }

  // What the steps of the background thread do to the numbers that it keeps to itself.
  lemma {:induction false} OwnOfBackground(s: Store, step: Step, s': Store)
    requires s.paused.Some? ==> s.bg.FlushBuilding? || s.bg.FlushBuilt? || s.bg.Installing?
    requires Base(s) <= s.nextFile
    requires match step
             case DoFlushStart => FlushStart(s, s')
             case DoFlushBuild(level, file) => FlushBuild(s, level, file, s')
             case DoCompactionStart(level, in0, in1, input) => CompactionStart(s, level, in0, in1, input, s')
             case DoOpenOutput => OpenOutput(s, s')
             case DoCloseOutput(file) => CloseOutput(s, file, s')
             case DoAbandonCompaction => AbandonCompaction(s, s')
             case _ => false
    ensures OwnGrows(Base(s), Own(s), Own(s'))
  {
    hide Selected, IsMerge, PickedLevel, FileMetaData.Valid;
    match step
    case DoCloseOutput(file) =>
      assert OutputNumbers(s.bg.work.outputs + [file]) == OutputNumbers(s.bg.work.outputs) + {file.number};
    case DoFlushStart => SameOwn(s, s');
    case DoFlushBuild(_, _) => SameOwn(s, s');
    case _ =>
  }

  lemma {:induction false} QuietStepsStayOnTrack(r: Records, s: Store, s': Store)
    requires OnTrack(r, Up(s)) && KeepsVersions(s, s')
    ensures OnTrack(r, Up(s'))
  {
    hide Reached, OwnGrows;
    if !s.bg.Installing? {
      ReachedLater(r, s.version, Base(s), Own(s), Base(s'), Own(s'));
    } else if !s.bg.written {
      ReachedLater(r, s.version, Base(s), Own(s), Base(s'), Own(s'));
    }
  }

  lemma {:induction false} NothingReopened(v: Version, next: nat, next': nat)
    requires next <= next'
    ensures RecoveryTables(v, next, [], next') && RecoveryEdit([]) == FileEdit({}, [])
  {
  }

  lemma {:induction false} OwnStays(s: Store, s': Store)
    requires s'.paused == s.paused && !s.bg.Compacting? && !s'.bg.Compacting?
    ensures Own(s') == Own(s) && OwnGrows(Base(s), Own(s), Own(s'))
  {
  }

  lemma {:induction false} FlushStaysOnTrack(r: Records, s: Store, v': Version, s': Store)
    requires StoreInv(s) && OnTrack(r, Up(s)) && FlushApply(s, v', s')
    ensures OnTrack(r, Up(s'))
  {
    var c := FlushIsLegal(s, v', s');
    hide StoreInv, FlushApply, Reached, Installed, OwnGrows, Change.Legal, NewNumbers, Own, Base, Change.Edit;
    ReachedByChange(r, s.version, Base(s), Own(s), c, v', s.nextFile, Own(s'));
    ReachedLater(r, s.version, Base(s), Own(s), Base(s'), Own(s'));
  }

  lemma {:induction false} FlushIsLegal(s: Store, v': Version, s': Store) returns (c: Change)
    requires StoreInv(s) && FlushApply(s, v', s')
    ensures |s.version.files| == NUM_LEVELS && Installed(s.version, c.Edit(), v')
    ensures c.Legal(s.version, Base(s), s.nextFile) && NewNumbers(c, Base(s), Own(s), s.nextFile, Own(s'))
    ensures s.bg.FlushBuilt? && s'.version == s.version && s'.bg.Installing? && !s'.bg.written
    ensures s'.bg.record.version == v' && s'.bg.record.nextFile == s.nextFile == Base(s') && s'.bg.edit == c.Edit()
    ensures Base(s) <= s.nextFile && Own(s') == Own(s) && OwnGrows(Base(s), Own(s), Own(s'))
  {
    hide StoreInv, FlushApply, Installed, Flushable, OwnGrows, Own, Change.Legal, NewNumbers, Change.Edit;
    FlushApplyShape(s, v', s');
    FlushEdits(s, v', s');
    OneTable(s);
    NumbersOfFlush(s);
    OwnStays(s, s');
    if s.bg.files == [] {
      c := Reopen([]);
      NothingToAdd(s.version, s.bg.number, s.nextFile, Own(s));
    } else {
      c := Flush(s.bg.files[0].0, s.bg.files[0].1);
      FlushedFits(s);
      NumberIsNotOwn(s);
      OneToAdd(c, s.version, s.bg.number, s.nextFile, Own(s));
      assert s.bg.files == [s.bg.files[0]];
    }
  }

  lemma {:induction false} FlushEdits(s: Store, v': Version, s': Store)
    requires FlushApply(s, v', s')
    ensures s'.bg.Installing? && !s'.bg.written && s'.bg.edit == FileEdit({}, s.bg.files)
  {
    hide Installed;
  }

  lemma {:induction false} OneTable(s: Store)
    requires StoreInv(s) && s.bg.FlushBuilt?
    ensures |s.bg.files| <= 1 && (s.bg.files != [] ==> s.bg.files[0].1.number == s.bg.number)
  {
    hide DiskInv, LogsInv, MemoryInv, ReadersInv, SnapshotsInv, ManifestInv, PausedInv, Flushable;
  }

  lemma {:induction false} NumberIsNotOwn(s: Store)
    requires StoreInv(s) && s.bg.FlushBuilt?
    ensures s.bg.number !in Own(s)
  {
    hide StoreInv;
    if s.paused.Some? {
      PausedMerge(s);
    }
  }

  lemma {:induction false} NothingToAdd(v: Version, next: nat, next': nat, own: set<nat>)
    requires next <= next'
    ensures Reopen([]).Legal(v, next, next') && Reopen([]).Edit() == FileEdit({}, []) && NewNumbers(Reopen([]), next, own, next', own)
  {
    NothingReopened(v, next, next');
  }

  lemma {:induction false} OneToAdd(c: Change, v: Version, next: nat, next': nat, own: set<nat>)
    requires c.Flush? && Flushable(v, next, c.level, c.file) && c.file.number == next < next' && next !in own
    ensures c.Legal(v, next, next') && c.Edit() == FileEdit({}, [(c.level, c.file)]) && NewNumbers(c, next, own, next', own)
  {
    hide Flushable;
  }

  lemma {:induction false} MoveStaysOnTrack(r: Records, s: Store, level: nat, f: FileMetaData, grandparents: Level, v': Version, s': Store)
    requires StoreInv(s) && OnTrack(r, Up(s)) && MoveApply(s, level, f, grandparents, v', s')
    ensures OnTrack(r, Up(s'))
  {
    MoveIsLegal(s, level, f, grandparents, v', s');
    hide StoreInv, MoveApply, Reached, Installed, Own, OwnGrows, Change.Legal, NewNumbers, Change.Edit, MoveEdit;
    ReachedByChange(r, s.version, s.nextFile, Own(s), Move(level, f), v', s.nextFile, Own(s'));
  }

  lemma {:induction false} MoveIsLegal(s: Store, level: nat, f: FileMetaData, grandparents: Level, v': Version, s': Store)
    requires StoreInv(s) && MoveApply(s, level, f, grandparents, v', s')
    ensures |s.version.files| == NUM_LEVELS && Installed(s.version, Move(level, f).Edit(), v')
    ensures Move(level, f).Legal(s.version, s.nextFile, s.nextFile)
    ensures NewNumbers(Move(level, f), s.nextFile, Own(s), s.nextFile, Own(s'))
    ensures s.bg.Idle? && s'.version == s.version && s'.bg.Installing? && !s'.bg.written && Base(s') == s.nextFile
    ensures s'.bg.record.version == v' && s'.bg.record.nextFile == s.nextFile && s'.bg.edit == Move(level, f).Edit()
    ensures Own(s') == Own(s) && OwnGrows(s.nextFile, Own(s), Own(s'))
  {
    VersionFacts(s);
    SameOwn(s, s');
    hide StoreInv, UniqueSequences, Selected, AllEntries, Installed, Sound, Stored, Older, OrderedLevels, WellFormed, Visible, Memory, MoveEdit,
      Grandparents, Own, OwnGrows, IsTrivialMove;
  }

  lemma {:induction false} CompactionStaysOnTrack(r: Records, s: Store, v': Version, s': Store)
    requires StoreInv(s) && OnTrack(r, Up(s)) && CompactionApply(s, v', s')
    ensures OnTrack(r, Up(s'))
  {
    CompactionIsLegal(s, v', s');
    hide StoreInv, Reached, Installed, Survivors, Setting.Exposed, OutputsClear, Change.Legal, NewNumbers, OwnGrows, Own;
    var c := Compact(s.bg.work.(nextAfter := s.nextFile));
    ReachedByChange(r, s.version, s.nextFile, Own(s), c, v', s.nextFile, Own(s'));
    ReachedLater(r, s.version, s.nextFile, Own(s), s.nextFile, Own(s'));
  }

  lemma {:induction false} CompactionIsLegal(s: Store, v': Version, s': Store)
    requires StoreInv(s) && CompactionApply(s, v', s')
    ensures var c := Compact(s.bg.work.(nextAfter := s.nextFile));
      && c.Edit() == s.bg.work.Edit() && c.Legal(s.version, s.nextFile, s.nextFile)
      && NewNumbers(c, s.nextFile, Own(s), s.nextFile, Own(s'))
    ensures OwnGrows(s.nextFile, Own(s), Own(s'))
  {
    hide StoreInv, CompactionApply, Work.Valid, Meanwhile, OutputsClear, Begun, Own, OwnGrows, Change.Legal, NewNumbers, CompactionEdit,
      UsableOutputs, Survivors;
    CompactionShape(s, v', s');
    var w := s.bg.work.(nextAfter := s.nextFile);
    PausedByFlush(s);
    CompactingFacts(s);
    WorkIsValid(s);
    FinishedMeanwhile(s.bg.work, s.nextFile, s.version, s.nextFile);
    OutputsAreOwn(s, w);
    NothingLeft(s, s');
    FinishedIsLegal(w, s.version, s.nextFile);
    NumbersKept(w, s.nextFile, Own(s));
  }

  lemma {:induction false} NumbersKept(w: Work, next: nat, own: set<nat>)
    requires forall f :: f in w.outputs ==> f.number in own && f.number < next
    ensures NewNumbers(Compact(w), next, own, next, {})
  {
  }

  lemma {:induction false} FinishedIsLegal(w: Work, v: Version, next: nat)
    requires w.Valid() && Meanwhile(w, v, next) && OutputsClear(w, v) && w.nextAfter <= next
    ensures Compact(w).Legal(v, next, next)
  {
    hide Work.Valid, Meanwhile, OutputsClear;
  }

  lemma {:induction false} CompactionShape(s: Store, v': Version, s': Store)
    requires CompactionApply(s, v', s')
    ensures s.bg.Compacting? && |s.version.files| == NUM_LEVELS && OutputsClear(s.bg.work, s.version)
    ensures s'.bg.Installing? && s'.paused == s.paused
    ensures var w := s.bg.work;
      |w.v.files| == NUM_LEVELS && Concat(w.outputs) == Survivors(w.v, w.level, w.input, w.smallestSnapshot, |w.input|)
  {
    hide Survivors, Setting.Exposed, OutputsClear, Installed, OutputNumbers, AboveMerge, CompactionEdit;
  }

  lemma {:induction false} NothingLeft(s: Store, s': Store)
    requires s'.bg.Installing? && s'.paused.None?
    ensures Own(s') == {} && OwnGrows(s.nextFile, Own(s), Own(s'))
  {
  }

  lemma {:induction false} OutputsAreOwn(s: Store, w: Work)
    requires s.bg.Compacting? && w.outputs == s.bg.work.outputs && UsableOutputs(w.outputs, w.next, s.nextFile)
    ensures forall f :: f in w.outputs ==> f.number in Own(s) && f.number < s.nextFile
  {
    hide FileMetaData.Valid;
    forall f | f in w.outputs
      ensures f.number in Own(s) && f.number < s.nextFile
    {
      var i :| 0 <= i < |w.outputs| && w.outputs[i] == f;
    }
  }

  lemma {:induction false} InstallStaysOnTrack(r: Records, s: Store, s': Store)
    requires StoreInv(s) && OnTrack(r, Up(s)) && InstallVersion(s, s')
    ensures OnTrack(r, Up(s'))
  {
    RecordFacts(s);
    hide StoreInv, Reached, Recoverable, Stored, UniqueSequences, Bounded;
    assert Own(s') == Own(s);
    ReachedLater(r, s.bg.record.version, s.bg.record.nextFile, Own(s), Base(s'), Own(s'));
  }

  lemma {:induction false} ReopeningStaysOnTrack(y: System, files: seq<FileMetaData>, tables: map<nat, seq<Entry>>, newLog: nat,
                                                 v: Version, last: SequenceNumber, s': Store)
    requires Inv(y) && Recover(y, files, tables, newLog, v, last, s')
    ensures OnTrack(Records(ManifestOf(y), [RecoveryEdit(files)]), Up(s'))
  {
    var m := y.disk.manifest;
    RecoverFacts(y, files, tables, newLog, v, last, s');
    hide Inv, Recover, Installed, RecoveryTables, Sound, Reached, RecoveryEdit, Own, Base;
    ReachedByReopening(m.version, m.nextFile + 1, files, newLog, v);
  }

  lemma {:induction false} ReachedByReopening(v: Version, next: nat, files: seq<FileMetaData>, newLog: nat, v': Version)
    requires Sound(v, next) && RecoveryTables(v, next, files, newLog) && |v.files| == NUM_LEVELS && Installed(v, RecoveryEdit(files), v')
    ensures Reached(Records(v, [RecoveryEdit(files)]), v', newLog + 1, {})
  {
    hide Installed, RecoveryTables, Sound, Reached, Change.Legal, NewNumbers, OwnGrows, RecoveryEdit;
    StartReached(v, next);
    TablesAreNew(v, next, files, newLog);
    NothingGrows(next);
    NothingGrows(newLog);
    ReachedByChange(Records(v, []), v, next, {}, Reopen(files), v', newLog, {});
    assert [] + [RecoveryEdit(files)] == [RecoveryEdit(files)];
    ReachedLater(Records(v, [RecoveryEdit(files)]), v', newLog, {}, newLog + 1, {});
  }

  lemma {:induction false} NothingGrows(base: nat)
    ensures OwnGrows(base, {}, {})
  {
  }

  lemma {:induction false} RecoverFacts(y: System, files: seq<FileMetaData>, tables: map<nat, seq<Entry>>, newLog: nat,
                                        v: Version, last: SequenceNumber, s': Store)
    requires Inv(y) && Recover(y, files, tables, newLog, v, last, s')
    ensures y.Down? && |y.disk.manifest.version.files| == NUM_LEVELS && Sound(y.disk.manifest.version, y.disk.manifest.nextFile + 1)
    ensures RecoveryTables(y.disk.manifest.version, y.disk.manifest.nextFile + 1, files, newLog)
    ensures Installed(y.disk.manifest.version, RecoveryEdit(files), v)
    ensures s'.bg.Idle? && s'.version == v && Base(s') == newLog + 1 && Own(s') == {}
  {
    DiskFacts(y.disk, y.history, y.floor);
    SoundLater(y.disk.manifest.version, y.disk.manifest.nextFile, y.disk.manifest.nextFile + 1);
    hide DiskInv, Sound, Stored, Installed, TablesWritten, LogsBelow, LastRecovered, Covered, UniqueSequences, Bounded, LogsInOrder, SameViews,
      RecoveryTables, LogEntries, AllEntries, DiskEntries;
  }

  lemma {:induction false} StartReached(v: Version, next: nat)
    requires Sound(v, next)
    ensures Reached(Records(v, []), v, next, {})
  {
    SoundHasLevels(v, next);
    StartIsConsistent(v, next);
    hide Sound, Consistent;
    var r := Records(v, []);
    assert Run(v, UsedBy(v), next, [], v, next);
    forall l | 0 <= l < NUM_LEVELS
      ensures SparesAt(UsedBy(v)[l], next, {})
    {
    }
    assert EndsIn(r, next, [], v, next, {});
  }

  lemma {:induction false} TablesAreNew(v: Version, next: nat, tables: seq<FileMetaData>, next': nat)
    requires RecoveryTables(v, next, tables, next')
    ensures Reopen(tables).Legal(v, next, next') && NewNumbers(Reopen(tables), next, {}, next', {}) && next <= next'
  {
    hide NewerThan, FileMetaData.Valid;
    forall f | f in tables
      ensures next <= f.number < next'
    {
      var i :| 0 <= i < |tables| && tables[i] == f;
    }
  }

  lemma {:induction false} ApplyStaysOnTrack(r: Records, s: Store, step: Step, s': Store)
    requires StoreInv(s) && OnTrack(r, Up(s)) && StoreStep(s, step, s') && !Quiet(step)
    ensures OnTrack(RecordsAfter(r, Up(s), step), Up(s'))
  {
    hide StoreInv, FlushApply, MoveApply, CompactionApply, InstallVersion, Reached;
    match step {
      case DoFlushApply(next) => FlushStaysOnTrack(r, s, next, s');
      case DoMoveApply(level, file, grandparents, next) => MoveStaysOnTrack(r, s, level, file, grandparents, next, s');
      case DoCompactionApply(next) => CompactionStaysOnTrack(r, s, next, s');
      case DoInstallVersion => InstallStaysOnTrack(r, s, s');
      case _ =>
    }
  }

  lemma {:induction false} FailureKeepsManifest(d: Disk, tables: map<nat, seq<Entry>>, newLog: nat, d': Disk)
    requires FailedRecovery(d, tables, newLog, d')
    ensures d'.manifest == d.manifest
  {
  }

  // What a crash leaves is what the records say.
  lemma {:induction false} CrashStaysOnTrack(r: Records, s: Store, keep: bool, y': System)
    requires StoreInv(s) && OnTrack(r, Up(s)) && Crash(s, keep, y')
    ensures OnTrack(r, y')
  {
    hide DiskInv, LogsInv, MemoryInv, ReadersInv, BackgroundInv, PausedInv, SnapshotsInv, Reached, Own;
    var bound := if s.bg.Installing? && s.bg.written then s.bg.record.nextFile else Base(s);
    NoneIsLess(bound, Own(s));
    ReachedLater(r, s.disk.manifest.version, bound, Own(s), bound, {});
  }

  lemma {:induction false} NoneIsLess(bound: nat, own: set<nat>)
    ensures OwnGrows(bound, own, {})
  {
  }

  lemma {:induction false} StepStaysOnTrack(r: Records, y: System, step: Step, y': System)
    requires Inv(y) && OnTrack(r, y) && Does(y, step, y')
    ensures OnTrack(RecordsAfter(r, y, step), y')
  {
    hide StoreInv, DiskInv, FailedRecovery, Recover, Reached, StoreStep, Crash;
    match y
    case Up(s) =>
      if step.DoCrash? {
        CrashStaysOnTrack(r, s, step.keep, y');
      } else if Quiet(step) {
        QuietStepsKeepVersions(s, step, y'.store);
        QuietStepsStayOnTrack(r, s, y'.store);
        NoReopening(s, step, y'.store);
      } else {
        ApplyStaysOnTrack(r, s, step, y'.store);
      }
    case Down(disk, history, floor) =>
      if step.DoFailedRecovery? {
        FailureKeepsManifest(disk, step.tables, step.newLog, y'.disk);
      } else {
        ReopeningStaysOnTrack(y, step.files, step.tables, step.newLog, step.next, step.last, y'.store);
      }
  }

  lemma {:induction false} NoReopening(s: Store, step: Step, s': Store)
    requires StoreStep(s, step, s')
    ensures !step.DoRecover?
  {
  }

  lemma {:induction false} RunStaysOnTrack(run: seq<System>, steps: seq<Step>, i: nat)
    requires IsRun(run, steps) && i < |run|
    ensures OnTrack(Written(run, steps, i), run[i])
  {
    hide Inv, Does, OnTrack, RecordsAfter;
    if i == 0 {
      NewStoreOnTrack();
    } else {
      RunKeepsInv(run, steps, i - 1);
      RunStaysOnTrack(run, steps, i - 1);
      StepStaysOnTrack(Written(run, steps, i - 1), run[i - 1], steps[i - 1], run[i]);
    }
  }

  lemma {:induction false} ManifestReached(r: Records, y: System)
    requires Inv(y) && OnTrack(r, y)
    ensures exists bound: nat, own :: Reached(r, ManifestOf(y), bound, own)
  {
    hide DiskInv, LogsInv, MemoryInv, ReadersInv, BackgroundInv, PausedInv, SnapshotsInv, Reached, Own;
    if y.Up? {
      var s := y.store;
      var bound := if s.bg.Installing? && s.bg.written then s.bg.record.nextFile else Base(s);
      assert Reached(r, ManifestOf(y), bound, Own(s));
    } else {
      var bound: nat :| Reached(r, y.disk.manifest.version, bound, {});
      assert Reached(r, ManifestOf(y), bound, {});
    }
  }

  lemma {:induction false} HistoryOf(run: seq<System>, steps: seq<Step>, i: nat) returns (start: nat, changes: seq<Change>, next: nat)
    requires IsRun(run, steps) && i < |run|
    ensures var r := Written(run, steps, i);
      Sound(r.base, start) && Edits(changes) == r.edits && RunFrom(r.base, start, changes, ManifestOf(run[i]), next)
  {
    hide Does, Inv, OnTrack, Run, Spares, UsedThrough, Sound, Written;
    RunKeepsInv(run, steps, i);
    RunStaysOnTrack(run, steps, i);
    var r, v := Written(run, steps, i), ManifestOf(run[i]);
    ManifestReached(r, run[i]);
    var bound: nat, own :| Reached(r, v, bound, own);
    start, changes :| EndsIn(r, start, changes, v, bound, own);
    next :| next <= bound && Run(r.base, UsedBy(r.base), start, changes, v, next);
  }

  /**
   In every reachable state the version on disk is what one builder makes of the records
   that the run has written since the store was opened: the snapshot, and every edit in
   turn.
   */
  lemma {:induction false} ManifestIsReplayed(run: seq<System>, steps: seq<Step>, i: nat)
    requires IsRun(run, steps) && i < |run|
    ensures var r, v := Written(run, steps, i), ManifestOf(run[i]);
      && |r.base.files| == |v.files| == NUM_LEVELS
      && forall l :: 0 <= l < NUM_LEVELS ==> SaveLevel([], ApplyAll(NO_CHANGE, l, [SnapshotEdit(r.base)] + r.edits)) == v.files[l]
  {
    hide Does, Run, SaveLevel, ApplyAll, SnapshotEdit, Sound, Written;
    var r, v := Written(run, steps, i), ManifestOf(run[i]);
    var start, changes, next := HistoryOf(run, steps, i);
    ReopeningRestores(r.base, start, changes, v, next, 0);
    forall l | 0 <= l < NUM_LEVELS
      ensures SaveLevel([], ApplyAll(NO_CHANGE, l, [SnapshotEdit(r.base)] + r.edits)) == v.files[l]
    {
      ReopeningRestores(r.base, start, changes, v, next, l);
    }
  }

  // ----- the bytes of the manifest -----

  // Every beginning of the records is what had been written at an earlier moment.
  lemma {:induction false} BeginningsAreEarlier(run: seq<System>, steps: seq<Step>, i: nat, k: nat) returns (j: nat)
    requires IsRun(run, steps) && i < |run| && 0 < k <= |Written(run, steps, i).edits|
    ensures j <= i && Written(run, steps, j) == Records(Written(run, steps, i).base, Written(run, steps, i).edits[..k])
    ensures k == |Written(run, steps, i).edits| ==> j == i
  {
    hide Does;
    var r := Written(run, steps, i);
    if k == |r.edits| {
      j := i;
      assert r.edits[..k] == r.edits;
    } else {
      var before := Written(run, steps, i - 1);
      assert r.base == before.base && before.edits[..k] == r.edits[..k];
      j := BeginningsAreEarlier(run, steps, i - 1, k);
    }
  }

  // The records as the encodings of edits.
  ghost predicate Encoded(m: M.Meaning, name: Bytes, r: Records, snapshot: M.Content, contents: seq<M.Content>, records: seq<Bytes>) {
    && |r.base.files| == NUM_LEVELS && |records| == |contents| + 1 == |r.edits| + 1
    && M.Unnumbered(snapshot) && M.Describes(m, name, snapshot, records[0], SnapshotEdit(r.base))
    && forall k :: 0 <= k < |contents| ==> M.Numbered(contents[k]) && M.Describes(m, name, contents[k], records[k + 1], r.edits[k])
  }

  lemma {:induction false} SameReplay(base: Version, start: nat, changes: seq<Change>, v: Version, next: nat, edits: seq<FileEdit>, u: Version)
    requires Sound(base, start) && RunFrom(base, start, changes, v, next) && Edits(changes) == edits
    requires |base.files| == |u.files| == NUM_LEVELS
    requires forall l :: 0 <= l < NUM_LEVELS ==> SaveLevel([], ApplyAll(NO_CHANGE, l, [SnapshotEdit(base)] + edits)) == u.files[l]
    ensures u == v
  {
    hide Sound, Run, SaveLevel, ApplyAll, SnapshotEdit;
    ReopeningRestores(base, start, changes, v, next, 0);
    forall l | 0 <= l < NUM_LEVELS
      ensures u.files[l] == v.files[l]
    {
      ReopeningRestores(base, start, changes, v, next, l);
    }
  }

  lemma {:induction false} EncodedIsWellWritten(m: M.Meaning, name: Bytes, r: Records, snapshot: M.Content, contents: seq<M.Content>,
                                                records: seq<Bytes>, start: nat, changes: seq<Change>, v: Version, next: nat)
    requires Encoded(m, name, r, snapshot, contents, records)
    requires Sound(r.base, start) && RunFrom(r.base, start, changes, v, next) && Edits(changes) == r.edits
    ensures M.Manifest(r.base, start, snapshot, contents, changes, records).WellWritten(m, name, v, next)
    ensures |changes| == |r.edits|
    ensures forall n :: 0 <= n <= |changes| ==> Edits(changes[..n]) == r.edits[..n]
  {
    hide Sound, Run, M.Describes, SnapshotEdit, Change.Edit;
    M.EditsByIndex(changes);
    forall n | 0 <= n <= |changes|
      ensures Edits(changes[..n]) == r.edits[..n]
    {
      M.EditsByIndex(changes[..n]);
    }
  }

  /**
   A manifest file of a store, cut at any byte, is read back to the version that the disk
   stood for after the last whole record: the present one if no record was cut.
   */
  lemma {:induction false} FileRestores(run: seq<System>, steps: seq<Step>, i: nat, m: M.Meaning, name: Bytes, snapshot: M.Content,
                                        contents: seq<M.Content>, checksum: Logs.Checksum, w: Logs.Written, file: Bytes) returns (j: nat)
    requires IsRun(run, steps) && i < |run|
    requires Encoded(m, name, Written(run, steps, i), snapshot, contents, w.records) && Logs.WrittenAs(checksum, w, file)
    ensures var n := Logs.WholeRecords(checksum, w, file, 0);
            var r := M.Finish(M.ReadAllOf(m, name, w.records[..n]));
            if n <= 1 then r == M.Failed(M.NoNextFile)
            else
              && j <= i && (n == |w.records| ==> j == i)
              && Written(run, steps, j) == Records(Written(run, steps, i).base, Written(run, steps, i).edits[..n - 1])
              && r.Recovered? && r.restored.version == ManifestOf(run[j])
  {
    hide Does, Encoded, Sound, RunFrom, M.Manifest.WellWritten, Logs.WrittenAs, Logs.WholeRecords, M.Finish, M.ReadAllOf, Written, SaveLevel, ApplyAll,
      SnapshotEdit;
    var r := Written(run, steps, i);
    var start, changes, next := HistoryOf(run, steps, i);
    EncodedIsWellWritten(m, name, r, snapshot, contents, w.records, start, changes, ManifestOf(run[i]), next);
    EncodedShape(m, name, r, snapshot, contents, w.records);
    var mf := M.Manifest(r.base, start, snapshot, contents, changes, w.records);
    var v1, next1 := M.CutManifestRestores(m, name, mf, ManifestOf(run[i]), next, checksum, w, file);
    var n := Logs.WholeRecords(checksum, w, file, 0);
    j := 0;
    if n > 1 {
      j := BeginningsAreEarlier(run, steps, i, n - 1);
      ManifestIsReplayed(run, steps, j);
      SameReplay(r.base, start, changes[..n - 1], v1, next1, r.edits[..n - 1], ManifestOf(run[j]));
    }
  }

  lemma {:induction false} EncodedShape(m: M.Meaning, name: Bytes, r: Records, snapshot: M.Content, contents: seq<M.Content>, records: seq<Bytes>)
    requires Encoded(m, name, r, snapshot, contents, records)
    ensures |r.base.files| == NUM_LEVELS && |records| == |contents| + 1 == |r.edits| + 1
  {
  }
}
