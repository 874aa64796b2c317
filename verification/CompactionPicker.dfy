/**
 The choice of a whole compaction (db/version_set.cc: SetupOtherInputs, CompactRange,
 PickCompaction) and what that choice guarantees to the merge that follows.
 */
module CompactionPicker {
  import opened Wrappers
  import opened DbFormat
  import opened Views
  import opened Versions
  import opened CompactionInputs
  import opened Compactions

  // ----- what is known about the chosen files -----

  // Level-0 files outside the choice do not meet its range; deeper, the choice is one
  // contiguous run of files.
  ghost predicate PreSelected(v: Version, level: nat, in0: Level) {
    && level + 1 < NUM_LEVELS && Shaped(v)
    && in0 != []
    && (forall f :: f in in0 ==> f in v.files[level])
    && (level == 0 ==> forall lo, hi :: IsRange(in0, lo, hi) ==> OthersOutside(v.files[0], in0, lo, hi))
    && (level > 0 ==> exists a: nat :: StartsAt(in0, v.files[level], a))
  }

  ghost predicate OthersOutside(files: Level, chosen: Level, lo: InternalKey, hi: InternalKey) {
    forall f :: f in files && f !in chosen ==> !Overlaps(f, Some(lo.user), Some(hi.user))
  }

  // The chosen files of the level are complete: deeper than level 0 no other file of
  // the level continues the last user key of the run.
  ghost predicate Sealed(v: Version, level: nat, in0: Level) {
    && PreSelected(v, level, in0)
    && (level > 0 ==> forall lo, hi, f :: IsRange(in0, lo, hi) && f in v.files[level] ==> !Continues(f, hi))
  }

  // The chosen files of the next level are all that meet the range of the first choice.
  ghost predicate Selected(v: Version, level: nat, in0: Level, in1: Level) {
    && Sealed(v, level, in0)
    && exists lo, hi :: IsRange(in0, lo, hi) && ExactlyMeets(v.files[level + 1], lo.user, hi.user, in1)
  }

  ghost predicate ExactlyMeets(files: Level, lo: UserKey, hi: UserKey, chosen: Level) {
    forall f :: f in chosen <==> f in files && Overlaps(f, Some(lo), Some(hi))
  }

  lemma {:induction false} ClosedIsPreSelected(v: Version, begin: Option<UserKey>, end: Option<UserKey>, inputs: Level)
    requires Shaped(v) && inputs == Overlapping(v.files[0], begin, end) && inputs != []
    requires ClosedRange(v.files[0], begin, end)
    ensures PreSelected(v, 0, inputs)
  {
    OverlappingMembers(v.files[0], begin, end);
    forall lo, hi, f | IsRange(inputs, lo, hi) && f in v.files[0] && f !in inputs
      ensures !Overlaps(f, Some(lo.user), Some(hi.user))
    {
      var g :| g in inputs && g.smallest == lo;
      var h :| h in inputs && h.largest == hi;
      assert InsideOrOutside(g, begin, end) && InsideOrOutside(h, begin, end);
    }
  }

  lemma {:induction false} SliceIsPreSelected(v: Version, level: nat, a: nat, inputs: Level)
    requires Shaped(v) && 0 < level && level + 1 < NUM_LEVELS && inputs != []
    requires StartsAt(inputs, v.files[level], a)
    ensures PreSelected(v, level, inputs)
  {
    forall f | f in inputs
      ensures f in v.files[level]
    {
      var i :| 0 <= i < |inputs| && inputs[i] == f;
      assert v.files[level][a + i] == f;
    }
  }

  lemma {:induction false} OverlapIsPreSelected(v: Version, level: nat, begin: Option<UserKey>, end: Option<UserKey>, inputs: Level, n: nat)
    requires Shaped(v) && 0 < level && level + 1 < NUM_LEVELS
    requires inputs == Overlapping(v.files[level], begin, end) && 0 < n <= |inputs|
    ensures PreSelected(v, level, inputs[..n])
  {
    var a, b := OverlappingIsSlice(v.files[level], begin, end);
    SliceIsPreSelected(v, level, a, inputs[..n]);
  }

  lemma {:induction false} LeastRangeMeetsOriginal(files: Level, begin: Option<UserKey>, end: Option<UserKey>,
                                newBegin: Option<UserKey>, newEnd: Option<UserKey>)
    requires Grown(begin, end, newBegin, newEnd)
    requires (newBegin == begin && newEnd == end) || Least(files, begin, end, newBegin, newEnd)
    ensures (exists f :: f in files && Overlaps(f, newBegin, newEnd)) <==> (exists f :: f in files && Overlaps(f, begin, end))
    ensures forall f :: f in files && Overlaps(f, begin, end) ==> Overlaps(f, newBegin, newEnd)
  {
    if forall f :: f in files ==> !Overlaps(f, begin, end) {
      assert ClosedRange(files, begin, end);
      assert Within(newBegin, newEnd, begin, end);
    }
  }

  // ----- which files exactly -----

  // What GetOverlappingInputs finds: at level 0 for the least closed range around the one
  // asked for.
  ghost predicate Meeting(files: Level, level: nat, begin: Option<UserKey>, end: Option<UserKey>, r: Level) {
    if level > 0 then r == Overlapping(files, begin, end)
    else exists b, e :: Grown(begin, end, b, e) && ClosedRange(files, b, e) && Least(files, begin, end, b, e) && r == Overlapping(files, b, e)
  }

  // A file that meets the range of the set belongs to it.
  ghost predicate ClosedSet(files: Level, s: Level) {
    forall f, g, h :: f in s && g in s && h in files && f.smallest.user <= h.largest.user && h.smallest.user <= g.largest.user ==> h in s
  }

  // The least closed set of files around the picked one.
  ghost predicate LeastSet(files: Level, picked: FileMetaData, r: Level) {
    && picked in r && (forall f :: f in r ==> f in files) && ClosedSet(files, r)
    && forall s: Level :: picked in s && ClosedSet(files, s) ==> forall f :: f in r ==> f in s
  }

  lemma {:induction false} RangeOfSet(files: Level, s: Level, picked: FileMetaData, lo: InternalKey, hi: InternalKey)
    requires ValidFiles(files) && picked in s && picked in files && ClosedSet(files, s) && IsRange(s, lo, hi)
    ensures ClosedRange(files, Some(lo.user), Some(hi.user))
    ensures Grown(Some(picked.smallest.user), Some(picked.largest.user), Some(lo.user), Some(hi.user))
    ensures forall h :: h in files && Overlaps(h, Some(lo.user), Some(hi.user)) ==> h in s
  {
    var f :| f in s && f.smallest == lo;
    var g :| g in s && g.largest == hi;
    forall h | h in files && Overlaps(h, Some(lo.user), Some(hi.user))
      ensures h in s && InsideOrOutside(h, Some(lo.user), Some(hi.user))
    {
      assert AtMost(lo, h.smallest) && AtMost(h.largest, hi);
    }
    forall i | 0 <= i < |files|
      ensures InsideOrOutside(files[i], Some(lo.user), Some(hi.user))
    {
      assert files[i] in files;
    }
    assert AtMost(lo, picked.smallest) && AtMost(picked.largest, hi);
  }

  lemma {:induction false} MeetingIsLeast(files: Level, picked: FileMetaData, b: Option<UserKey>, e: Option<UserKey>)
    requires ValidFiles(files) && picked in files
    requires var lo, hi := Some(picked.smallest.user), Some(picked.largest.user);
      Grown(lo, hi, b, e) && ClosedRange(files, b, e) && Least(files, lo, hi, b, e)
    ensures LeastSet(files, picked, Overlapping(files, b, e))
  {
    hide Least;
    var r := Overlapping(files, b, e);
    OverlappingMembers(files, b, e);
    FileIsOrdered(picked);
    forall f, g, h | f in r && g in r && h in files && f.smallest.user <= h.largest.user && h.smallest.user <= g.largest.user
      ensures h in r
    {
      InsideClosed(files, b, e, f);
      InsideClosed(files, b, e, g);
    }
    forall s: Level, f | picked in s && ClosedSet(files, s) && f in r
      ensures f in s
    {
      var lo, hi := RangeExists(s);
      RangeOfSet(files, s, picked, lo, hi);
      LeastIsWithin(files, Some(picked.smallest.user), Some(picked.largest.user), b, e, Some(lo.user), Some(hi.user));
      assert Overlaps(f, Some(lo.user), Some(hi.user));
    }
  }

  lemma {:induction false} InsideClosed(files: Level, b: Option<UserKey>, e: Option<UserKey>, f: FileMetaData)
    requires ClosedRange(files, b, e) && f in files && Overlaps(f, b, e)
    ensures (b.Some? ==> b.value <= f.smallest.user) && (e.Some? ==> f.largest.user <= e.value)
  {
    var i :| 0 <= i < |files| && files[i] == f;
    assert InsideOrOutside(files[i], b, e);
  }

  lemma {:induction false} LeastIsWithin(files: Level, begin: Option<UserKey>, end: Option<UserKey>, newBegin: Option<UserKey>, newEnd: Option<UserKey>,
                                         b: Option<UserKey>, e: Option<UserKey>)
    requires Least(files, begin, end, newBegin, newEnd) && Grown(begin, end, b, e) && ClosedRange(files, b, e)
    ensures Within(newBegin, newEnd, b, e)
  {
  }

  // The files of the next level that go with a choice.
  ghost predicate NextFiles(v: Version, level: nat, in0: Level, in1: Level)
    requires level + 1 < |v.files|
  {
    exists lo, hi :: IsRange(in0, lo, hi) && in1 == Overlapping(v.files[level + 1], Some(lo.user), Some(hi.user))
  }

  // The wider choice: all files that meet the range so far, with their boundary files.
  ghost predicate WiderChoice(v: Version, level: nat, in0: Level, in1: Level, wider: Level)
    requires level + 1 < |v.files|
  {
    exists lo, hi, met :: && IsRange(in0 + in1, lo, hi) && Meeting(v.files[level], level, Some(lo.user), Some(hi.user), met)
                          && WithBoundaries(v.files[level], met, wider)
  }

  // It is taken if it has more files, is not too big, and leaves the number of next-level
  // files as it is.
  predicate Widens(s0: Level, s1: Level, wider0: Level, wider1: Level, maxFileSize: nat) {
    |wider0| > |s0| && TotalFileSize(s1) + TotalFileSize(wider0) < 25 * maxFileSize && |wider1| == |s1|
  }

  ghost predicate Widened(v: Version, level: nat, maxFileSize: nat, s0: Level, s1: Level, in0: Level, in1: Level)
    requires level + 1 < |v.files|
  {
    if s1 == [] then in0 == s0 && in1 == s1
    else exists wider0, wider1 ::
      && WiderChoice(v, level, s0, s1, wider0) && NextFiles(v, level, wider0, wider1)
      && if Widens(s0, s1, wider0, wider1, maxFileSize) then in0 == wider0 && in1 == wider1 else in0 == s0 && in1 == s1
  }

  // What SetupOtherInputs makes of a first choice.
  ghost predicate Completed(v: Version, level: nat, maxFileSize: nat, start: Level, in0: Level, in1: Level)
    requires level + 1 < |v.files|
  {
    exists s0, s1 :: WithBoundaries(v.files[level], start, s0) && NextFiles(v, level, s0, s1)
                     && Widened(v, level, maxFileSize, s0, s1, in0, in1)
  }

  // Where an automatic compaction starts: from the picked file, and at level 0 from the
  // least closed set around it.
  ghost predicate StartsAround(files: Level, level: nat, picked: FileMetaData, start: Level) {
    if level > 0 then start == [picked] else LeastSet(files, picked, start)
  }

  // Where a manual compaction starts: at level 0 with every file, deeper with as many as it
  // takes to reach the limit.
  ghost predicate StartsInRange(files: Level, level: nat, begin: Option<UserKey>, end: Option<UserKey>, limit: nat, start: Level) {
    if level == 0 then Meeting(files, 0, begin, end, start)
    else
      var all := Overlapping(files, begin, end);
      && start <= all && (|start| < |all| ==> TotalFileSize(start) >= limit)
      && forall n :: 0 < n < |start| ==> TotalFileSize(all[..n]) < limit
  }

  // ----- the choice -----

  // Why a compaction is wanted; scores and seek counts are outside the model.
  datatype Trigger = NoTrigger | BySize(level: nat) | BySeek(level: nat, file: FileMetaData)

  class VersionSet {
    var current: Version
    var compactPointer: seq<Option<InternalKey>>
    const maxFileSize: nat

    ghost predicate Valid()
      reads this
    {
      Shaped(current) && |compactPointer| == NUM_LEVELS
    }

    constructor (current: Version, maxFileSize: nat)
      requires Shaped(current)
      ensures Valid() && this.current == current && this.maxFileSize == maxFileSize
    {
      this.current, this.maxFileSize := current, maxFileSize;
      compactPointer := seq(NUM_LEVELS, i => None);
    }

    /**
     VersionSet::SetupOtherInputs.  Completes a choice of level files: seals the last
     user key, takes every overlapping file of the next level, and widens the first
     choice when that does not take more of the second.
     */
    method SetupOtherInputs(c: Compaction)
      requires Valid() && PreSelected(current, c.level, c.inputs0)
      modifies this`compactPointer, c`inputs0, c`inputs1, c`grandparents
      ensures Valid() && current == old(current)
      ensures Selected(current, c.level, c.inputs0, c.inputs1)
      ensures forall f :: f in old(c.inputs0) ==> f in c.inputs0
      ensures Completed(current, c.level, maxFileSize, old(c.inputs0), c.inputs0, c.inputs1)
      ensures exists lo, hi :: IsRange(c.inputs0, lo, hi) && compactPointer == old(compactPointer)[c.level := Some(hi)]
      ensures c.level + 2 < NUM_LEVELS ==> CoverGrandparents(current, c.level, c.inputs0, c.inputs1, c.grandparents)
      ensures c.level + 2 >= NUM_LEVELS ==> c.grandparents == old(c.grandparents)
    {
      hide Completed, Selected, PreSelected, IsRange, WithBoundaries;
      HasLevels(current, c.level, c.inputs0);
      var level := c.level;
      var in0, in1, largest, allStart, allLimit := ChooseInputs(current, level, c.inputs0, maxFileSize);
      c.inputs0, c.inputs1 := in0, in1;
      if level + 2 < NUM_LEVELS {
        var grandparents, b', e' := GetOverlappingInputs(current, level + 2, Some(allStart.user), Some(allLimit.user));
        c.grandparents := grandparents;
      }
      compactPointer := compactPointer[level := Some(largest)];
    }

    /**
     VersionSet::CompactRange.  Nothing to do means that no file of the level meets the
     range; otherwise the choice is complete and starts with a file that does.
     */
    method CompactRange(level: nat, begin: Option<UserKey>, end: Option<UserKey>) returns (c: Compaction?)
      requires Valid() && level + 1 < NUM_LEVELS
      modifies this`compactPointer
      ensures Valid() && current == old(current)
      ensures c == null <==> forall f :: f in current.files[level] ==> !Overlaps(f, begin, end)
      ensures c != null ==> fresh(c) && c.level == level && c.inputVersion == current
      ensures c != null ==> Selected(current, level, c.inputs0, c.inputs1)
      ensures c != null ==> exists f :: f in c.inputs0 && Overlaps(f, begin, end)
      ensures c != null ==> exists start :: StartsInRange(current.files[level], level, begin, end, maxFileSize, start)
                                            && Completed(current, level, maxFileSize, start, c.inputs0, c.inputs1)
    {
      hide Completed, Selected, StartsInRange, PreSelected, Shaped, IsRange, CoverGrandparents;
      var inputs := StartCompactRange(current, level, begin, end, maxFileSize);
      if inputs == [] {
        return null;
      }
      c := new Compaction(level, current);
      c.inputs0 := inputs;
      SetupOtherInputs(c);
    }

    /**
     VersionSet::PickCompaction: starts from the first file after the place where the
     last compaction of the level ended, or from the file with too many seeks, and
     completes the choice.
     */
    method PickCompaction(trigger: Trigger) returns (c: Compaction?)
      requires Valid()
      requires trigger.BySize? ==> trigger.level + 1 < NUM_LEVELS && current.files[trigger.level] != []
      requires trigger.BySeek? ==> trigger.level + 1 < NUM_LEVELS && trigger.file in current.files[trigger.level]
      modifies this`compactPointer
      ensures Valid() && current == old(current)
      ensures c == null <==> trigger.NoTrigger?
      ensures c != null ==> fresh(c) && c.level == trigger.level && c.inputVersion == current
      ensures c != null ==> Selected(current, c.level, c.inputs0, c.inputs1)
      ensures trigger.BySeek? ==> trigger.file in c.inputs0
      ensures trigger.BySize? ==> FirstAfter(current.files[trigger.level], old(compactPointer)[trigger.level]) in c.inputs0
      ensures c != null ==>
                var picked := if trigger.BySeek? then trigger.file
                              else FirstAfter(current.files[trigger.level], old(compactPointer)[trigger.level]);
                exists start :: StartsAround(current.files[trigger.level], trigger.level, picked, start)
                                && Completed(current, trigger.level, maxFileSize, start, c.inputs0, c.inputs1)
    {
      hide Completed, Selected, StartsAround, PreSelected, FirstAfter, IsRange, CoverGrandparents;
      if trigger.NoTrigger? {
        return null;
      }
      var level := trigger.level;
      var picked;
      if trigger.BySize? {
        picked := PickFile(current.files[level], compactPointer[level]);
      } else {
        picked := trigger.file;
      }
      c := new Compaction(level, current);
      c.inputs0 := StartFrom(current, level, picked);
      SetupOtherInputs(c);
    }
  }

  method PickFile(files: Level, pointer: Option<InternalKey>) returns (f: FileMetaData)
    requires files != []
    ensures f == FirstAfter(files, pointer) && f in files
    ensures pointer.None? ==> f == files[0]
    ensures pointer.Some? && (forall g :: g in files ==> AtMost(g.largest, pointer.value)) ==> f == files[0]
    ensures pointer.Some? && (exists g :: g in files && Less(pointer.value, g.largest)) ==>
              Less(pointer.value, f.largest)
              && exists i :: 0 <= i < |files| && f == files[i] && forall j :: 0 <= j < i ==> AtMost(files[j].largest, pointer.value)
  {
    var i := 0;
    while i < |files|
      invariant 0 <= i <= |files|
      invariant forall j :: 0 <= j < i ==> !ComesAfter(files[j], pointer)
    {
      f := files[i];
      if pointer.None? || Compare(f.largest, pointer.value) > 0 {
        FirstIndexAfterIs(files, pointer, i);
        return;
      }
      i := i + 1;
    }
    FirstIndexAfterIs(files, pointer, i);
    f := files[0];
  }

  // The first choice of an automatic compaction: at level 0 every file that overlaps.
  method StartFrom(v: Version, level: nat, picked: FileMetaData) returns (inputs: Level)
    requires Shaped(v) && level + 1 < NUM_LEVELS && picked in v.files[level]
    ensures PreSelected(v, level, inputs) && picked in inputs
    ensures StartsAround(v.files[level], level, picked, inputs)
  {
    hide LeastSet;
    inputs := [picked];
    if level == 0 {
      var smallest, largest := GetRange(inputs);
      ghost var b, e;
      inputs, b, e := GetOverlappingInputs(v, 0, Some(smallest.user), Some(largest.user));
      OverlappingMembers(v.files[0], b, e);
      FileIsOrdered(picked);
      ClosedIsPreSelected(v, b, e, inputs);
      MeetingIsLeast(v.files[0], picked, b, e);
    } else {
      var i :| 0 <= i < |v.files[level]| && v.files[level][i] == picked;
      SliceIsPreSelected(v, level, i, inputs);
    }
  }

  // AddBoundaryInputs on the first choice; at level 0 it adds nothing.
  method Seal(v: Version, level: nat, in0: Level) returns (r: Level)
    requires PreSelected(v, level, in0)
    ensures Sealed(v, level, r)
    ensures forall f :: f in in0 ==> f in r
    ensures level == 0 ==> r == in0
    ensures WithBoundaries(v.files[level], in0, r)
  {
    ghost var start: nat := 0;
    if level > 0 {
      start :| StartsAt(in0, v.files[level], start);
    }
    ghost var key;
    r, key := AddBoundaryInputs(v.files[level], in0, level > 0, start);
    if level == 0 {
      SealChangesNothing(v, in0);
    } else {
      SliceIsPreSelected(v, level, start, r);
      forall lo, hi, f | IsRange(r, lo, hi) && f in v.files[level]
        ensures !Continues(f, hi)
      {
        assert !Continues(f, key);
      }
    }
  }

  lemma {:induction false} SealChangesNothing(v: Version, in0: Level)
    requires PreSelected(v, 0, in0)
    ensures NoFileTouches(v.files[0], in0)
  {
    var lo, hi := RangeExists(in0);
    forall f, g | f in v.files[0] && f !in in0 && g in in0
      ensures f.smallest.user != g.largest.user
    {
      FileIsOrdered(f);
      FileIsOrdered(g);
    }
  }

  lemma {:induction false} RangeExists(inputs: Level) returns (lo: InternalKey, hi: InternalKey)
    requires inputs != []
    ensures IsRange(inputs, lo, hi)
  {
    var f := inputs[|inputs| - 1];
    if |inputs| == 1 {
      lo, hi := f.smallest, f.largest;
    } else {
      var init := inputs[..|inputs| - 1];
      lo, hi := RangeExists(init);
      lo := if Less(f.smallest, lo) then f.smallest else lo;
      hi := if Less(hi, f.largest) then f.largest else hi;
      assert inputs == init + [f];
    }
  }

  // The wider choice of level files, for the range that the compaction covers so far.
  method Expand(v: Version, level: nat, in0: Level, allStart: InternalKey, allLimit: InternalKey) returns (r: Level)
    requires PreSelected(v, level, in0)
    requires forall f :: f in in0 ==> AtMost(allStart, f.smallest) && AtMost(f.largest, allLimit)
    ensures Sealed(v, level, r)
    ensures forall f :: f in in0 ==> f in r
    ensures exists met :: Meeting(v.files[level], level, Some(allStart.user), Some(allLimit.user), met)
                          && WithBoundaries(v.files[level], met, r)
  {
    hide WithBoundaries;
    var files := v.files[level];
    ghost var b, e;
    r, b, e := GetOverlappingInputs(v, level, Some(allStart.user), Some(allLimit.user));
    OverlappingMembers(files, b, e);
    forall f | f in in0
      ensures f in r
    {
      FileIsOrdered(f);
    }
    assert in0[0] in r;
    if level == 0 {
      ClosedIsPreSelected(v, b, e, r);
    } else {
      OverlapIsPreSelected(v, level, b, e, r, |r|);
      assert r[..|r|] == r;
    }
    r := Seal(v, level, r);
  }

  /**
   The heart of SetupOtherInputs, on values.  The wider first choice is taken only when
   it leaves the number of next-level files as it is.
   */
  method ChooseInputs(v: Version, level: nat, start: Level, maxFileSize: nat)
    returns (in0: Level, in1: Level, largest: InternalKey, allStart: InternalKey, allLimit: InternalKey)
    requires PreSelected(v, level, start)
    ensures Selected(v, level, in0, in1)
    ensures forall f :: f in start ==> f in in0
    ensures exists lo :: IsRange(in0, lo, largest)
    ensures IsRange(in0 + in1, allStart, allLimit)
    ensures Completed(v, level, maxFileSize, start, in0, in1)
  {
    hide Selected, WithBoundaries, NextFiles, WiderChoice, Meeting, Shaped, IsRange, TotalFileSize;
    HasLevels(v, level, start);
    in0 := Seal(v, level, start);
    in1, largest := NextLevelInputs(v, level, in0);
    allStart, allLimit := GetRange(in0 + in1);
    ghost var s0, s1 := in0, in1;
    if in1 != [] {
      RangeOfPart(in0, in1, allStart, allLimit);
      var expanded0 := Expand(v, level, in0, allStart, allLimit);
      IsWider(v, level, s0, s1, allStart, allLimit, expanded0);
      ghost var next := NextFilesExist(v, level, expanded0);
      if |expanded0| > |in0| && TotalFileSize(in1) + TotalFileSize(expanded0) < 25 * maxFileSize {
        var expanded1, newLimit := NextLevelInputs(v, level, expanded0);
        next := expanded1;
        if |expanded1| == |in1| {
          in0, in1, largest := expanded0, expanded1, newLimit;
          allStart, allLimit := GetRange(in0 + in1);
        }
      }
      assert Widened(v, level, maxFileSize, s0, s1, in0, in1);
    }
  }

  lemma {:induction false} HasLevels(v: Version, level: nat, in0: Level)
    requires PreSelected(v, level, in0)
    ensures level + 1 < NUM_LEVELS == |v.files|
  {
  }

  lemma {:induction false} IsWider(v: Version, level: nat, in0: Level, in1: Level, lo: InternalKey, hi: InternalKey, wider: Level)
    requires level + 1 < |v.files| && IsRange(in0 + in1, lo, hi)
    requires exists met :: Meeting(v.files[level], level, Some(lo.user), Some(hi.user), met) && WithBoundaries(v.files[level], met, wider)
    ensures WiderChoice(v, level, in0, in1, wider)
  {
    hide Meeting, WithBoundaries, IsRange;
  }

  lemma {:induction false} NextFilesExist(v: Version, level: nat, in0: Level) returns (in1: Level)
    requires Sealed(v, level, in0)
    ensures NextFiles(v, level, in0, in1)
  {
    var lo, hi := RangeExists(in0);
    in1 := Overlapping(v.files[level + 1], Some(lo.user), Some(hi.user));
  }

  method NextLevelInputs(v: Version, level: nat, in0: Level) returns (in1: Level, largest: InternalKey)
    requires Sealed(v, level, in0)
    ensures Selected(v, level, in0, in1) && NextFiles(v, level, in0, in1)
    ensures exists lo :: IsRange(in0, lo, largest)
  {
    var smallest;
    smallest, largest := GetRange(in0);
    ghost var b, e;
    in1, b, e := GetOverlappingInputs(v, level + 1, Some(smallest.user), Some(largest.user));
    OverlappingMembers(v.files[level + 1], b, e);
  }

  lemma {:induction false} RangeOfPart(in0: Level, in1: Level, lo: InternalKey, hi: InternalKey)
    requires IsRange(in0 + in1, lo, hi)
    ensures forall f :: f in in0 ==> AtMost(lo, f.smallest) && AtMost(f.largest, hi)
  {
    forall f | f in in0
      ensures AtMost(lo, f.smallest) && AtMost(f.largest, hi)
    {
      assert f in in0 + in1;
    }
  }

  ghost predicate CoverGrandparents(v: Version, level: nat, in0: Level, in1: Level, grandparents: Level)
    requires level + 2 < |v.files|
  {
    exists lo, hi :: IsRange(in0 + in1, lo, hi)
                     && grandparents == Overlapping(v.files[level + 2], Some(lo.user), Some(hi.user))
  }

  // The first choice of a manual compaction.
  method StartCompactRange(v: Version, level: nat, begin: Option<UserKey>, end: Option<UserKey>, maxFileSize: nat)
    returns (inputs: Level)
    requires Shaped(v) && level + 1 < NUM_LEVELS
    ensures inputs == [] <==> forall f :: f in v.files[level] ==> !Overlaps(f, begin, end)
    ensures inputs != [] ==> PreSelected(v, level, inputs)
    ensures inputs != [] ==> exists f :: f in inputs && Overlaps(f, begin, end)
    ensures inputs != [] ==> StartsInRange(v.files[level], level, begin, end, maxFileSize, inputs)
  {
    ghost var b, e;
    inputs, b, e := GetOverlappingInputs(v, level, begin, end);
    OverlappingMembers(v.files[level], b, e);
    LeastRangeMeetsOriginal(v.files[level], begin, end, b, e);
    if inputs == [] {
      return;
    }
    assert inputs[0] in inputs;
    if level > 0 {
      ghost var all := inputs;
      inputs := LimitInputs(v, level, begin, end, inputs, maxFileSize);
      assert inputs[0] == all[0];
    } else {
      ClosedIsPreSelected(v, b, e, inputs);
    }
  }

  // The first files of a manual compaction: as many as it takes to reach the limit, or all.
  method LimitInputs(v: Version, level: nat, begin: Option<UserKey>, end: Option<UserKey>, inputs: Level, limit: nat)
    returns (r: Level)
    requires Shaped(v) && 0 < level && level + 1 < NUM_LEVELS
    requires inputs == Overlapping(v.files[level], begin, end) && inputs != []
    ensures r != [] && r <= inputs && PreSelected(v, level, r)
    ensures |r| < |inputs| ==> TotalFileSize(r) >= limit
    ensures forall n :: 0 < n < |r| ==> TotalFileSize(inputs[..n]) < limit
  {
    var total := 0;
    var n := 0;
    while n < |inputs|
      invariant 0 <= n <= |inputs| && total == TotalFileSize(inputs[..n])
      invariant forall m :: 0 < m <= n ==> TotalFileSize(inputs[..m]) < limit
    {
      OneMoreSize(inputs, n);
      total := total + inputs[n].fileSize;
      n := n + 1;
      if total >= limit {
        break;
      }
    }
    OverlapIsPreSelected(v, level, begin, end, inputs, n);
    r := inputs[..n];
  }

  lemma {:induction false} OneMoreSize(files: Level, n: nat)
    requires n < |files|
    ensures TotalFileSize(files[..n + 1]) == TotalFileSize(files[..n]) + files[n].fileSize
  {
    if n > 0 {
      OneMoreSize(files[1..], n - 1);
      assert files[..n][1..] == files[1..][..n - 1] && files[..n + 1][1..] == files[1..][..n];
    } else {
      assert files[..1][1..] == [];
    }
  }

  predicate ComesAfter(f: FileMetaData, pointer: Option<InternalKey>) {
    pointer.None? || Less(pointer.value, f.largest)
  }

  // The file that a size compaction starts from, wrapping around to the first one.
  function FirstAfter(files: Level, pointer: Option<InternalKey>): FileMetaData
    requires files != []
  {
    var i := FirstIndexAfter(files, pointer);
    if i < |files| then files[i] else files[0]
  }

  function FirstIndexAfter(files: Level, pointer: Option<InternalKey>): nat {
    if files == [] || ComesAfter(files[0], pointer) then 0 else 1 + FirstIndexAfter(files[1..], pointer)
  }

  lemma {:induction false} FirstIndexAfterIs(files: Level, pointer: Option<InternalKey>, i: nat)
    requires i <= |files|
    requires forall j :: 0 <= j < i ==> !ComesAfter(files[j], pointer)
    requires i < |files| ==> ComesAfter(files[i], pointer)
    ensures FirstIndexAfter(files, pointer) == i
  {
    if i > 0 {
      FirstIndexAfterIs(files[1..], pointer, i - 1);
    }
  }
}
