/**
 A merge that covers a table flushed meanwhile.  A manual compaction of level 1 takes two
 files with a gap between them and makes one output; the table that is flushed into the
 gap goes to the output level (db/version_set.cc:491-516), and its value is then lost to
 the search of that level, which looks into one file only.
 */
module FlushExample {
  import opened Wrappers
  import opened DbFormat
  import opened Views
  import opened StoreViews
  import opened Versions
  import opened CompactionInputs
  import opened Compactions
  import opened CompactionPicker
  import opened MergeRules
  import opened CompactionMeaning
  import opened VersionBuilder
  import opened ManifestReplay
  import opened LevelRules
  import opened FlushDuringCompaction

  const FIRST := Entry(InternalKey(1.0, 1, Value), [1])
  const LAST := Entry(InternalKey(9.0, 2, Value), [2])
  const MIDDLE := Entry(InternalKey(5.0, 3, Value), [3])

  const FIRST_FILE := FileMetaData(11, 1, FIRST.key, FIRST.key, [FIRST])
  const LAST_FILE := FileMetaData(12, 1, LAST.key, LAST.key, [LAST])
  const OUTPUT := FileMetaData(13, 2, FIRST.key, LAST.key, [FIRST, LAST])
  const FLUSHED := FileMetaData(14, 1, MIDDLE.key, MIDDLE.key, [MIDDLE])

  const START := Version([[], [FIRST_FILE, LAST_FILE], [], [], [], [], []])
  const WORK := Work(START, 13, 14, 1, [FIRST_FILE, LAST_FILE], [], [FIRST, LAST], 2, [OUTPUT])

  // The version that an edit gives.
  ghost function Next(v: Version, edit: FileEdit): Version
    requires |v.files| == NUM_LEVELS
  {
    Version(seq(NUM_LEVELS, l requires 0 <= l < NUM_LEVELS => Install(v.files[l], l, edit)))
  }

  ghost function Between(): Version {
    Next(START, FlushEdit(2, FLUSHED))
  }

  ghost function Result(): Version {
    Next(Between(), WORK.Edit())
  }

  lemma {:induction false} FilesAreValid()
    ensures FIRST_FILE.Valid() && LAST_FILE.Valid() && OUTPUT.Valid() && FLUSHED.Valid()
  {
  }

  lemma {:induction false} PlacesAtStart()
    ensures AllPlaced(START) == {(1, FIRST_FILE), (1, LAST_FILE)}
  {
    forall p
      ensures p in AllPlaced(START) <==> p == (1, FIRST_FILE) || p == (1, LAST_FILE)
    {
      if p in AllPlaced(START) {
        assert p.0 == 1;
      }
      assert START.files[1][0] == FIRST_FILE && START.files[1][1] == LAST_FILE;
    }
  }

  lemma {:induction false} StartIsSound()
    ensures Sound(START, 13)
  {
    FilesAreValid();
    PlacesAtStart();
    hide FileMetaData.Valid;
    forall l | 0 <= l < NUM_LEVELS
      ensures Ordered(START.files[l])
    {
    }
    forall p, q | p in AllPlaced(START) && q in AllPlaced(START)
      ensures Compatible(p, q)
    {
    }
  }

  lemma {:induction false} StartEntries()
    ensures AllEntries(START) == {FIRST, LAST}
  {
    PlacesAtStart();
    EntriesByPlace(START);
    assert (1, FIRST_FILE) in AllPlaced(START) && (1, LAST_FILE) in AllPlaced(START);
    assert FIRST in FIRST_FILE.table && LAST in LAST_FILE.table;
  }

  lemma {:induction false} BothAreSelected()
    ensures Selected(START, 1, [FIRST_FILE, LAST_FILE], [])
  {
    hide Rules, Ordered, AgedByNumber, Layered, ValidFiles, SortedLevel;
    var in0 := [FIRST_FILE, LAST_FILE];
    StartIsSound();
    SoundIsWellFormed(START, 13);
    assert in0[0] == FIRST_FILE && in0[1] == LAST_FILE;
    assert StartsAt(in0, START.files[1], 0);
    assert IsRange(in0, FIRST.key, LAST.key);
    assert ExactlyMeets(START.files[2], 1.0, 9.0, []);
  }

  lemma {:induction false} WorkIsValid()
    ensures WORK.Valid()
  {
    hide Sound, Selected, UsableOutputs;
    FilesAreValid();
    StartIsSound();
    BothAreSelected();
    StartEntries();
    assert IsMerge([FIRST, LAST], [FIRST_FILE, LAST_FILE], []) by {
      MergeOfBoth();
    }
    OneOutputIsUsable();
    BothSurvive();
  }

  lemma {:induction false} OneOutputIsUsable()
    ensures UsableOutputs([OUTPUT], 13, 14)
  {
    FilesAreValid();
    assert [OUTPUT][0] == OUTPUT;
  }

  lemma {:induction false} MergeOfBoth()
    ensures IsMerge([FIRST, LAST], [FIRST_FILE, LAST_FILE], [])
  {
    var in0, input := [FIRST_FILE, LAST_FILE], [FIRST, LAST];
    assert in0[0] == FIRST_FILE && in0[1] == LAST_FILE && input[0] == FIRST && input[1] == LAST;
    forall e
      ensures e in input <==> e in LevelEntries(in0) || e in LevelEntries([])
    {
      assert e in FIRST_FILE.table <==> e == FIRST;
      assert e in LAST_FILE.table <==> e == LAST;
      assert FIRST_FILE in in0 && LAST_FILE in in0;
    }
  }

  lemma {:induction false} BothSurvive()
    ensures Concat([OUTPUT]) == Survivors(START, 1, [FIRST, LAST], 2, 2) == [FIRST, LAST]
  {
    hide BaseLevel;
    var input := [FIRST, LAST];
    assert !Dropped(START, 1, input, 0, 2) && !Dropped(START, 1, input, 1, 2);
    assert Survivors(START, 1, input, 2, 0) == [];
    assert Survivors(START, 1, input, 2, 1) == [FIRST];
    assert Concat([]) == [] && [OUTPUT][..0] == [];
  }

  lemma {:induction false} FlushGoesThere()
    ensures Flushable(START, 14, 2, FLUSHED)
    ensures forall l :: 0 <= l <= 4 ==> NoOverlap(START.files[l], 5.0, 5.0)
  {
    FilesAreValid();
    PlacesAtStart();
    hide FileMetaData.Valid;
    forall l | 0 <= l <= 4
      ensures NoOverlap(START.files[l], 5.0, 5.0)
    {
      assert forall f :: f in START.files[l] ==> f == FIRST_FILE || f == LAST_FILE;
    }
  }

  lemma {:induction false} BetweenIsMeanwhile()
    ensures Meanwhile(WORK, Between(), 15)
    ensures Flushed(WORK, Between()) == {(2, FLUSHED)}
  {
    hide Work.Valid, Flushable, Sound, FlushedBeside, AllPlaced;
    WorkIsValid();
    StartIsSound();
    MergeBegins(WORK);
    assert Sound(START, 14) by {
      SoundLater(START, 13, 14);
    }
    FlushGoesThere();
    assert Meanwhile(WORK, START, 14);
    assert Installed(START, FlushEdit(2, FLUSHED), Between());
    FlushStaysMeanwhile(WORK, START, 14, 2, FLUSHED, Between(), 15);
    assert Flushed(WORK, START) == {};
  }

  lemma {:induction false} OutputIsInTheWay()
    ensures !OutputsClear(WORK, Between())
  {
    BetweenIsMeanwhile();
    hide Meanwhile;
    assert (2, FLUSHED) in Flushed(WORK, Between()) && OUTPUT in WORK.outputs && Meets(OUTPUT, FLUSHED);
  }

  /** The output level of the result holds two files with the flushed range inside the other. */
  lemma {:induction false} ResultIsUnsound()
    ensures WORK.Valid() && Meanwhile(WORK, Between(), 15)
    ensures !Sound(Result(), 15)
    ensures Result().files[2] == [OUTPUT, FLUSHED]
  {
    hide Work.Valid, Meanwhile, OutputsClear, NewFiles;
    WorkIsValid();
    BetweenIsMeanwhile();
    OutputIsInTheWay();
    assert |Between().files| == NUM_LEVELS && Installed(Between(), WORK.Edit(), Result());
    RulesKeptExactly(WORK, Between(), 15, Result(), 15);
    OutputLevel();
  }

  lemma {:induction false} OutputLevel()
    ensures Result().files[2] == [OUTPUT, FLUSHED]
  {
    hide Work.Valid, Meanwhile, Rules, NewFiles, Stays, Installed;
    WorkIsValid();
    BetweenIsMeanwhile();
    var v, v', edit := Between(), Result(), WORK.Edit();
    assert OrderedLevels(v) && Installed(v, edit, v') by { BetweenFacts(); }
    OutputsAreNewStill(WORK, v, 15);
    InstalledIsOrdered(v, edit, v');
    forall f
      ensures f in v'.files[2] <==> f == OUTPUT || f == FLUSHED
    {
      InstalledLevel(v, edit, v', 2, f);
      FlushedOnly(f);
      assert edit.added == [(2, OUTPUT)] by { assert AtLevel(2, [OUTPUT]) == [(2, OUTPUT)]; }
      assert Stays((2, FLUSHED), edit) by { FlushedStays(); }
    }
    TwoInOrder(v'.files[2]);
  }

  lemma {:induction false} BetweenFacts()
    ensures OrderedLevels(Between()) && Installed(Between(), WORK.Edit(), Result())
  {
    hide Work.Valid, Rules, NewFiles, FlushedBeside;
    BetweenIsMeanwhile();
  }

  lemma {:induction false} FlushedStays()
    ensures Stays((2, FLUSHED), WORK.Edit())
  {
    forall f | f in WORK.in0 || f in WORK.in1
      ensures f.number != 14
    {
    }
  }

  lemma {:induction false} FlushedOnly(f: FileMetaData)
    ensures f in Between().files[2] <==> f == FLUSHED
  {
    hide FlushedBeside, Sound;
    BetweenIsMeanwhile();
    PlacesAtStart();
    assert (2, f) in AllPlaced(Between()) <==> f in Between().files[2];
    assert (2, f) in AllPlaced(Between()) <==> (2, f) in Flushed(WORK, Between()) || (2, f) in AllPlaced(START);
  }

  lemma {:induction false} TwoInOrder(files: Level)
    requires Ordered(files) && forall f :: f in files <==> f == OUTPUT || f == FLUSHED
    ensures files == [OUTPUT, FLUSHED]
  {
    var both := [OUTPUT, FLUSHED];
    assert both[0] == OUTPUT && both[1] == FLUSHED;
    assert Ordered(both);
    OrderedListsAgree(files, both);
  }

  lemma {:induction false} ResultEntries()
    ensures AllEntries(Result()) == {FIRST, MIDDLE, LAST}
  {
    hide Work.Valid, Sound, Meanwhile, Installed, Flushed, Untouched, AllPlaced, AllEntries;
    WorkIsValid();
    BetweenIsMeanwhile();
    assert Installed(Between(), WORK.Edit(), Result()) by { BetweenFacts(); }
    EntriesAfterwards(WORK, Between(), 15, Result());
    BothSurvive();
    NothingElse();
    assert EntriesOf({(2, FLUSHED)}) == {MIDDLE} by {
      var p := (2, FLUSHED);
      assert p in {p} && MIDDLE in p.1.table;
    }
    assert Contents([FIRST, LAST]) == {FIRST, LAST};
  }

  lemma {:induction false} NothingElse()
    ensures Untouched(START, 1, [FIRST_FILE, LAST_FILE], []) <= {FIRST, LAST}
  {
    StartEntries();
    forall e | e in Untouched(START, 1, [FIRST_FILE, LAST_FILE], [])
      ensures e in {FIRST, LAST}
    {
      var l, f := UntouchedHasFile(START, 1, [FIRST_FILE, LAST_FILE], [], e);
      FileEntryIsThere(START, l, f, e);
    }
  }

  lemma {:induction false} OtherLevelsAreEmpty(l: nat)
    requires l < NUM_LEVELS && l != 2
    ensures Result().files[l] == []
  {
    hide Work.Valid, Meanwhile, Rules, NewFiles, Stays, Installed, Ordered;
    WorkIsValid();
    BetweenIsMeanwhile();
    BetweenFacts();
    var v, v', edit := Between(), Result(), WORK.Edit();
    OutputsAreNewStill(WORK, v, 15);
    if v'.files[l] != [] {
      var f := v'.files[l][0];
      InstalledLevel(v, edit, v', l, f);
      assert edit.added == [(2, OUTPUT)] by { assert AtLevel(2, [OUTPUT]) == [(2, OUTPUT)]; }
      assert (l, f) in AllPlaced(v);
      assert (l, f) !in Flushed(WORK, v);
      assert WORK.v == START && (l, f) in AllPlaced(START);
      PlacesAtStart();
      StillStays(WORK, v, 15, (l, f));
    }
  }

  // The file that the binary search over a level ends at.
  predicate FirstFileFrom(files: Level, key: InternalKey, i: nat) {
    && i < |files| && AtMost(key, files[i].largest)
    && forall j :: 0 <= j < i ==> Less(files[j].largest, key)
  }

  /**
   The store holds the flushed value, and the only file that a lookup opens does not show
   it.
   */
  lemma {:induction false} FlushedValueIsLost()
    ensures View(AllEntries(Result()), 5.0, 3) == Some([3])
    ensures forall l :: 0 <= l < NUM_LEVELS && l != 2 ==> Result().files[l] == []
    ensures FirstFileFrom(Result().files[2], SeekKey(5.0, 3), 0)
    ensures SearchTable(Result().files[2][0].table, 5.0, 3) == None
  {
    hide View, AllEntries;
    ResultEntries();
    ViewOfNewest(AllEntries(Result()), 5.0, 3, MIDDLE);
    forall l: nat | l < NUM_LEVELS && l != 2
      ensures Result().files[l] == []
    {
      OtherLevelsAreEmpty(l);
    }
    OutputLevel();
  }
}
