/**
 Replaying a manifest (db/version_set.cc: WriteSnapshot, Recover) gives the files that
 installing its edits one by one gave.
 */
module ManifestReplay {
  import opened Wrappers
  import opened DbFormat
  import opened Versions
  import opened VersionBuilder

  // ----- one edit, as sets -----

  function AddedAt(added: seq<(nat, FileMetaData)>, level: nat): set<FileMetaData> {
    set p | p in added && p.0 == level :: p.1
  }

  function Numbers(files: set<FileMetaData>): set<nat> {
    set f | f in files :: f.number
  }

  // The additions of a level carry numbers that are new there.
  predicate FreshAdditions(used: set<nat>, level: nat, added: seq<(nat, FileMetaData)>)
    decreases |added|
  {
    added == [] ||
    if added[0].0 == level
    then added[0].1.number !in used && FreshAdditions(used + {added[0].1.number}, level, added[1..])
    else FreshAdditions(used, level, added[1..])
  }

  predicate NumbersWithin(files: Level, used: set<nat>) {
    forall f :: f in files ==> f.number in used
  }

  lemma {:induction false} AddedAtSplit(added: seq<(nat, FileMetaData)>, level: nat)
    requires added != []
    ensures AddedAt(added, level) == (if added[0].0 == level then {added[0].1} else {}) + AddedAt(added[1..], level)
  {
    assert added == [added[0]] + added[1..];
  }

  lemma {:induction false} FreshNumbersAreNew(used: set<nat>, level: nat, added: seq<(nat, FileMetaData)>)
    requires FreshAdditions(used, level, added)
    ensures Numbers(AddedAt(added, level)) !! used
    decreases |added|
  {
    if added != [] {
      AddedAtSplit(added, level);
      FreshNumbersAreNew(if added[0].0 == level then used + {added[0].1.number} else used, level, added[1..]);
    }
  }

  lemma {:induction false} ApplyNewMembers(s: LevelState, level: nat, added: seq<(nat, FileMetaData)>, used: set<nat>)
    requires Ordered(s.added) && NumbersWithin(s.added, used) && FreshAdditions(used, level, added)
    ensures Ordered(ApplyNew(s, level, added).added)
    ensures forall f :: f in ApplyNew(s, level, added).added <==> f in s.added || f in AddedAt(added, level)
    ensures ApplyNew(s, level, added).deleted == s.deleted - Numbers(AddedAt(added, level))
    decreases |added|
  {
    if added != [] {
      AddedAtSplit(added, level);
      if added[0].0 == level {
        var f := added[0].1;
        InsertionStaysOrdered(s.added, f);
        ApplyNewMembers(LevelState(s.deleted - {f.number}, Insert(s.added, f)), level, added[1..], used + {f.number});
        assert Numbers({f} + AddedAt(added[1..], level)) == {f.number} + Numbers(AddedAt(added[1..], level));
      } else {
        ApplyNewMembers(s, level, added[1..], used);
      }
    }
  }

  lemma {:induction false} SaveLevelMembers(base: Level, s: LevelState)
    ensures forall f :: f in SaveLevel(base, s) <==> (f in base || f in s.added) && f.number !in s.deleted
  {
    MergeMembers(base, s.added);
    RemainingMembers(Merge(base, s.added), s.deleted);
  }

  lemma {:induction false} SaveLevelIsOrdered(base: Level, s: LevelState)
    requires Ordered(base) && Ordered(s.added) && Apart(base, s.added)
    ensures Ordered(SaveLevel(base, s))
  {
    MergeIsOrdered(base, s.added);
    RemainingIsOrdered(Merge(base, s.added), s.deleted);
  }

  // ----- installing edits one by one, and replaying them at once -----

  // LogAndApply at one level: a new builder on the current files, saved at once.
  function Install(files: Level, level: nat, edit: FileEdit): Level {
    SaveLevel(files, ApplyLevel(NO_CHANGE, level, edit))
  }

  function InstallAll(files: Level, level: nat, edits: seq<FileEdit>): Level
    decreases |edits|
  {
    if edits == [] then files else InstallAll(Install(files, level, edits[0]), level, edits[1..])
  }

  function ApplyAll(s: LevelState, level: nat, edits: seq<FileEdit>): LevelState
    decreases |edits|
  {
    if edits == [] then s else ApplyAll(ApplyLevel(s, level, edits[0]), level, edits[1..])
  }

  // No number is added twice at the level, over the whole history.
  predicate FreshHistory(used: set<nat>, level: nat, edits: seq<FileEdit>)
    decreases |edits|
  {
    edits == [] ||
    (FreshAdditions(used, level, edits[0].added)
     && FreshHistory(used + Numbers(AddedAt(edits[0].added, level)), level, edits[1..]))
  }

  // A builder that has seen part of the history.
  predicate BuilderState(base: Level, s: LevelState, used: set<nat>) {
    && Ordered(base) && Ordered(s.added) && Apart(base, s.added)
    && NumbersWithin(base, used) && NumbersWithin(s.added, used)
  }

  lemma {:induction false} ApplyKeepsState(base: Level, s: LevelState, level: nat, edit: FileEdit, used: set<nat>)
    requires BuilderState(base, s, used) && FreshAdditions(used, level, edit.added)
    ensures BuilderState(base, ApplyLevel(s, level, edit), used + Numbers(AddedAt(edit.added, level)))
  {
    var start := LevelState(s.deleted + DeletedAt(edit.deleted, level), s.added);
    ApplyNewMembers(start, level, edit.added, used);
    FreshNumbersAreNew(used, level, edit.added);
    var s' := ApplyLevel(s, level, edit);
    forall f | f in s'.added
      ensures f.number in used + Numbers(AddedAt(edit.added, level))
      ensures f.number in used ==> f in s.added
    {
      assert f in s.added || f in AddedAt(edit.added, level);
    }
  }

  // Installing on top of what the builder would save is the same as one more Apply.
  lemma {:induction false} InstallIsApply(base: Level, s: LevelState, level: nat, edit: FileEdit, used: set<nat>)
    requires BuilderState(base, s, used) && FreshAdditions(used, level, edit.added)
    ensures Install(SaveLevel(base, s), level, edit) == SaveLevel(base, ApplyLevel(s, level, edit))
  {
    var files := SaveLevel(base, s);
    var s1 := ApplyLevel(NO_CHANGE, level, edit);
    var s2 := ApplyLevel(s, level, edit);
    var del := DeletedAt(edit.deleted, level);
    SaveLevelMembers(base, s);
    SaveLevelIsOrdered(base, s);
    assert NumbersWithin(files, used);
    assert BuilderState(files, NO_CHANGE, used);
    ApplyKeepsState(files, NO_CHANGE, level, edit, used);
    ApplyKeepsState(base, s, level, edit, used);
    SaveLevelIsOrdered(files, s1);
    SaveLevelIsOrdered(base, s2);
    ApplyNewMembers(LevelState(del, []), level, edit.added, used);
    ApplyNewMembers(LevelState(s.deleted + del, s.added), level, edit.added, used);
    FreshNumbersAreNew(used, level, edit.added);
    SaveLevelMembers(files, s1);
    SaveLevelMembers(base, s2);
    forall f
      ensures f in SaveLevel(files, s1) <==> f in SaveLevel(base, s2)
    {
      SameFileEitherWay(base, s, level, edit, used, f);
    }
    OrderedListsAgree(SaveLevel(files, s1), SaveLevel(base, s2));
  }

  lemma {:induction false} SameFileEitherWay(base: Level, s: LevelState, level: nat, edit: FileEdit, used: set<nat>, f: FileMetaData)
    requires BuilderState(base, s, used) && FreshAdditions(used, level, edit.added)
    ensures f in Install(SaveLevel(base, s), level, edit) <==> f in SaveLevel(base, ApplyLevel(s, level, edit))
  {
    hide Ordered, Merge, Remaining;
    var del := DeletedAt(edit.deleted, level);
    var news := AddedAt(edit.added, level);
    SaveLevelMembers(base, s);
    EmptyIsOrdered();
    ApplyNewMembers(LevelState(del, []), level, edit.added, used);
    ApplyNewMembers(LevelState(s.deleted + del, s.added), level, edit.added, used);
    FreshNumbersAreNew(used, level, edit.added);
    SaveLevelMembers(SaveLevel(base, s), ApplyLevel(NO_CHANGE, level, edit));
    SaveLevelMembers(base, ApplyLevel(s, level, edit));
    var s1, s2 := ApplyLevel(NO_CHANGE, level, edit), ApplyLevel(s, level, edit);
    assert s1.deleted == del - Numbers(news) by {
      assert LevelState({} + del, []) == LevelState(del, []);
    }
    assert s2.deleted == s.deleted + del - Numbers(news);
    assert f in news ==> f.number in Numbers(news);
    assert f !in news && f.number in Numbers(news) ==> f !in base && f !in s.added;
    assert f in s1.added <==> f in news;
  }

  lemma {:induction false} EmptyIsOrdered()
    ensures Ordered([])
  {
  }

  lemma {:induction false} ReplayFrom(base: Level, s: LevelState, level: nat, edits: seq<FileEdit>, used: set<nat>)
    requires BuilderState(base, s, used) && FreshHistory(used, level, edits)
    ensures InstallAll(SaveLevel(base, s), level, edits) == SaveLevel(base, ApplyAll(s, level, edits))
    decreases |edits|
  {
    if edits != [] {
      InstallIsApply(base, s, level, edits[0], used);
      ApplyKeepsState(base, s, level, edits[0], used);
      ReplayFrom(base, ApplyLevel(s, level, edits[0]), level, edits[1..], used + Numbers(AddedAt(edits[0].added, level)));
    }
  }

  /**
   One builder that applies a whole history of edits and saves once ends with the files
   that installing every edit in turn ended with.
   */
  lemma {:induction false} ReplayEqualsInstalls(files: Level, level: nat, edits: seq<FileEdit>, used: set<nat>)
    requires Ordered(files) && NumbersWithin(files, used) && FreshHistory(used, level, edits)
    ensures SaveLevel(files, ApplyAll(NO_CHANGE, level, edits)) == InstallAll(files, level, edits)
  {
    SavingNothing(files);
    ReplayFrom(files, NO_CHANGE, level, edits, used);
  }

  lemma {:induction false} SavingNothing(files: Level)
    ensures SaveLevel(files, NO_CHANGE) == files
  {
    NothingRemoved(files);
  }

  lemma {:induction false} NothingRemoved(files: Level)
    ensures Remaining(files, {}) == files
  {
    if files != [] {
      NothingRemoved(files[1..]);
    }
  }

  // ----- the snapshot record -----

  // The record that starts a new manifest: every file of every level.
  function SnapshotFiles(v: Version, level: nat): seq<(nat, FileMetaData)>
    requires |v.files| == NUM_LEVELS && level <= NUM_LEVELS
  {
    if level == 0 then []
    else SnapshotFiles(v, level - 1) + AtLevel(level - 1, v.files[level - 1])
  }

  function AtLevel(level: nat, files: Level): (r: seq<(nat, FileMetaData)>)
    ensures |r| == |files| && forall i :: 0 <= i < |r| ==> r[i] == (level, files[i])
  {
    seq(|files|, i requires 0 <= i < |files| => (level, files[i]))
  }

  function SnapshotEdit(v: Version): FileEdit
    requires |v.files| == NUM_LEVELS
  {
    FileEdit({}, SnapshotFiles(v, NUM_LEVELS))
  }

  predicate DistinctNumbers(files: Level) {
    forall i, j :: 0 <= i < j < |files| ==> files[i].number != files[j].number
  }

  lemma {:induction false} SnapshotMembers(v: Version, n: nat, level: nat, f: FileMetaData)
    requires |v.files| == NUM_LEVELS && n <= NUM_LEVELS && level < NUM_LEVELS
    ensures (level, f) in SnapshotFiles(v, n) <==> level < n && f in v.files[level]
  {
    if n > 0 {
      SnapshotMembers(v, n - 1, level, f);
      var files := v.files[n - 1];
      var last := AtLevel(n - 1, files);
      assert SnapshotFiles(v, n) == SnapshotFiles(v, n - 1) + last;
      if level == n - 1 && f in files {
        var i :| 0 <= i < |files| && files[i] == f;
        assert last[i] == (level, f);
      }
    }
  }

  predicate DistinctAt(added: seq<(nat, FileMetaData)>, level: nat) {
    forall i, j :: 0 <= i < j < |added| && added[i].0 == level && added[j].0 == level
      ==> added[i].1.number != added[j].1.number
  }

  // A list whose entries at the level are distinct in number, and unused, is fresh.
  lemma {:induction false} DistinctIsFresh(used: set<nat>, level: nat, added: seq<(nat, FileMetaData)>)
    requires DistinctAt(added, level)
    requires forall i :: 0 <= i < |added| && added[i].0 == level ==> added[i].1.number !in used
    ensures FreshAdditions(used, level, added)
    decreases |added|
  {
    if added != [] {
      var rest := added[1..];
      assert forall i :: 0 <= i < |rest| ==> rest[i] == added[i + 1];
      DistinctIsFresh(if added[0].0 == level then used + {added[0].1.number} else used, level, rest);
    }
  }

  lemma {:induction false} SnapshotIsDistinct(v: Version, n: nat, level: nat)
    requires |v.files| == NUM_LEVELS && n <= NUM_LEVELS && level < NUM_LEVELS && DistinctNumbers(v.files[level])
    ensures DistinctAt(SnapshotFiles(v, n), level)
  {
    if n > 0 {
      SnapshotIsDistinct(v, n - 1, level);
      var init := SnapshotFiles(v, n - 1);
      var files := v.files[n - 1];
      var last := AtLevel(n - 1, files);
      var added := init + last;
      assert SnapshotFiles(v, n) == added;
      forall i, j | 0 <= i < j < |added| && added[i].0 == level && added[j].0 == level
        ensures added[i].1.number != added[j].1.number
      {
        if i < |init| {
          SnapshotLevels(v, n - 1, i);
        } else {
          assert added[i] == (n - 1, files[i - |init|]) && added[j] == (n - 1, files[j - |init|]);
        }
      }
    }
  }

  lemma {:induction false} SnapshotLevels(v: Version, n: nat, i: nat)
    requires |v.files| == NUM_LEVELS && n <= NUM_LEVELS && i < |SnapshotFiles(v, n)|
    ensures SnapshotFiles(v, n)[i].0 < n
  {
    if i < |SnapshotFiles(v, n - 1)| {
      SnapshotLevels(v, n - 1, i);
    }
  }

  /**
   Recovery: a manifest that starts with the snapshot of a version and continues with
   later edits gives back, level by level, the version that those edits produced.
   */
  lemma {:induction false} RecoverRestoresVersion(v: Version, level: nat, edits: seq<FileEdit>, used: set<nat>)
    requires |v.files| == NUM_LEVELS && level < NUM_LEVELS
    requires Ordered(v.files[level]) && DistinctNumbers(v.files[level]) && NumbersWithin(v.files[level], used)
    requires FreshHistory(used, level, edits)
    ensures SaveLevel([], ApplyAll(NO_CHANGE, level, [SnapshotEdit(v)] + edits)) == InstallAll(v.files[level], level, edits)
  {
    var files := v.files[level];
    var snapshot := SnapshotEdit(v);
    SnapshotIsDistinct(v, NUM_LEVELS, level);
    DistinctIsFresh({}, level, snapshot.added);
    EmptyIsOrdered();
    var s := ApplyLevel(NO_CHANGE, level, snapshot);
    ApplyNewMembers(NO_CHANGE, level, snapshot.added, {});
    assert DeletedAt(snapshot.deleted, level) == {};
    assert LevelState(NO_CHANGE.deleted + {}, NO_CHANGE.added) == NO_CHANGE;
    forall f
      ensures f in s.added <==> f in files
    {
      SnapshotMembers(v, NUM_LEVELS, level, f);
      assert f in AddedAt(snapshot.added, level) <==> (level, f) in snapshot.added;
    }
    OrderedListsAgree(s.added, files);
    assert s.deleted == {} && s.added == files;
    assert BuilderState([], s, used);
    NothingRemoved(files);
    assert SaveLevel([], s) == files;
    ReplayFrom([], s, level, edits, used);
    assert ([snapshot] + edits)[1..] == edits;
  }
}
