/**
 How a compaction chooses its input files (db/version_set.cc: GetOverlappingInputs,
 AddBoundaryInputs, SetupOtherInputs, CompactRange, PickCompaction and
 PickLevelForMemTableOutput).
 */
module CompactionInputs {
  import opened Wrappers
  import opened DbFormat
  import opened Views
  import opened Versions

  // ----- the files of a level that overlap a range of user keys -----

  function Overlapping(files: Level, begin: Option<UserKey>, end: Option<UserKey>): Level {
    if files == [] then []
    else (if Overlaps(files[0], begin, end) then [files[0]] else []) + Overlapping(files[1..], begin, end)
  }

  lemma {:induction false} OverlappingMembers(files: Level, begin: Option<UserKey>, end: Option<UserKey>)
    ensures forall f :: f in Overlapping(files, begin, end) <==> f in files && Overlaps(f, begin, end)
  {
    if files != [] {
      OverlappingMembers(files[1..], begin, end);
      assert forall f :: f in files <==> f == files[0] || f in files[1..];
    }
  }

  ghost predicate IsSlice(r: Level, files: Level, a: nat, b: nat) {
    a <= b <= |files| && |r| == b - a && forall i :: 0 <= i < |r| ==> r[i] == files[a + i]
  }

  ghost predicate StartsAt(r: Level, files: Level, a: nat) {
    IsSlice(r, files, a, a + |r|)
  }

  lemma {:induction false} OverlappingIndices(files: Level, begin: Option<UserKey>, end: Option<UserKey>, a: nat, b: nat)
    requires a <= b <= |files|
    requires forall i :: 0 <= i < |files| ==> (Overlaps(files[i], begin, end) <==> a <= i < b)
    ensures Overlapping(files, begin, end) == files[a..b]
  {
    if files != [] {
      var rest := files[1..];
      if a > 0 {
        OverlappingIndices(rest, begin, end, a - 1, b - 1);
        assert rest[a - 1..b - 1] == files[a..b];
      } else if b > 0 {
        OverlappingIndices(rest, begin, end, 0, b - 1);
        assert [files[0]] + rest[0..b - 1] == files[a..b];
      } else {
        OverlappingIndices(rest, begin, end, 0, 0);
      }
    }
  }

  lemma {:induction false} OverlapsIsConvex(files: Level, begin: Option<UserKey>, end: Option<UserKey>, i: nat, j: nat, k: nat)
    requires ValidFiles(files) && SortedLevel(files) && i <= j <= k < |files|
    requires Overlaps(files[i], begin, end) && Overlaps(files[k], begin, end)
    ensures Overlaps(files[j], begin, end)
  {
    FileIsOrdered(files[i]);
    FileIsOrdered(files[j]);
    FileIsOrdered(files[k]);
  }

  lemma {:induction false} OverlappingIsSlice(files: Level, begin: Option<UserKey>, end: Option<UserKey>)
    returns (a: nat, b: nat)
    requires ValidFiles(files) && SortedLevel(files)
    ensures IsSlice(Overlapping(files, begin, end), files, a, b)
  {
    a, b := 0, 0;
    for n := 0 to |files|
      invariant a <= b <= n
      invariant forall i :: 0 <= i < n ==> (Overlaps(files[i], begin, end) <==> a <= i < b)
    {
      if Overlaps(files[n], begin, end) {
        if a == b {
          a := n;
        } else {
          forall j | a <= j < n
            ensures Overlaps(files[j], begin, end)
          {
            OverlapsIsConvex(files, begin, end, a, j, n);
          }
        }
        b := n + 1;
      }
    }
    OverlappingIndices(files, begin, end, a, b);
  }

  // The file lies inside the range, or does not meet it at all.
  predicate InsideOrOutside(f: FileMetaData, begin: Option<UserKey>, end: Option<UserKey>) {
    Overlaps(f, begin, end) ==>
      && (begin.Some? ==> begin.value <= f.smallest.user)
      && (end.Some? ==> f.largest.user <= end.value)
  }

  // Every file that meets the range lies inside it.
  ghost predicate ClosedRange(files: Level, begin: Option<UserKey>, end: Option<UserKey>) {
    forall i :: 0 <= i < |files| ==> InsideOrOutside(files[i], begin, end)
  }

  // [begin, end] is inside [outerBegin, outerEnd]; None is the null bound.
  predicate Within(begin: Option<UserKey>, end: Option<UserKey>,
                   outerBegin: Option<UserKey>, outerEnd: Option<UserKey>) {
    && (outerBegin.Some? ==> begin.Some? && outerBegin.value <= begin.value)
    && (outerEnd.Some? ==> end.Some? && end.value <= outerEnd.value)
  }

  // A range that the search may have reached from [begin, end]: a null bound stays null.
  predicate Grown(begin: Option<UserKey>, end: Option<UserKey>,
                  newBegin: Option<UserKey>, newEnd: Option<UserKey>) {
    && begin.Some? == newBegin.Some? && end.Some? == newEnd.Some?
    && Within(begin, end, newBegin, newEnd)
  }

  // The files that can still move a bound of the range.
  ghost function StartingBelow(files: Level, key: Option<UserKey>): set<FileMetaData> {
    set f | f in files && key.Some? && f.smallest.user < key.value
  }

  ghost function EndingAbove(files: Level, key: Option<UserKey>): set<FileMetaData> {
    set f | f in files && key.Some? && f.largest.user > key.value
  }

  // What the search has collected, given that the files from `i` on are still to come.
  ghost predicate CollectedUpTo(files: Level, begin: Option<UserKey>, end: Option<UserKey>, inputs: Level, i: nat)
    requires i <= |files|
  {
    Overlapping(files, begin, end) == inputs + Overlapping(files[i..], begin, end)
  }

  lemma {:induction false} CollectStep(files: Level, begin: Option<UserKey>, end: Option<UserKey>, inputs: Level, i: nat)
    requires i < |files| && CollectedUpTo(files, begin, end, inputs, i)
    ensures CollectedUpTo(files, begin, end, if Overlaps(files[i], begin, end) then inputs + [files[i]] else inputs, i + 1)
  {
    assert files[i..][0] == files[i] && files[i..][1..] == files[i + 1..];
    var rest := Overlapping(files[i + 1..], begin, end);
    assert inputs + ([files[i]] + rest) == (inputs + [files[i]]) + rest;
    assert inputs + ([] + rest) == inputs + rest;
  }

  lemma {:induction false} CollectNothing(files: Level, begin: Option<UserKey>, end: Option<UserKey>)
    ensures CollectedUpTo(files, begin, end, [], 0)
  {
    assert files[0..] == files;
  }

  // Every closed range around the one asked for also contains the one reached so far.
  ghost predicate Least(files: Level, begin: Option<UserKey>, end: Option<UserKey>,
                        newBegin: Option<UserKey>, newEnd: Option<UserKey>) {
    forall b, e :: Grown(begin, end, b, e) && ClosedRange(files, b, e) ==> Within(newBegin, newEnd, b, e)
  }

  lemma {:induction false} GrowingStaysLeast(files: Level, begin: Option<UserKey>, end: Option<UserKey>,
                          newBegin: Option<UserKey>, newEnd: Option<UserKey>, f: FileMetaData)
    requires Least(files, begin, end, newBegin, newEnd) && f in files && Overlaps(f, newBegin, newEnd)
    requires Grown(begin, end, newBegin, newEnd)
    ensures newBegin.Some? ==> Least(files, begin, end, Some(f.smallest.user), newEnd)
    ensures newEnd.Some? ==> Least(files, begin, end, newBegin, Some(f.largest.user))
  {
    forall b, e | Grown(begin, end, b, e) && ClosedRange(files, b, e)
      ensures newBegin.Some? ==> Within(Some(f.smallest.user), newEnd, b, e)
      ensures newEnd.Some? ==> Within(newBegin, Some(f.largest.user), b, e)
    {
      assert Within(newBegin, newEnd, b, e);
      assert InsideOrOutside(f, b, e);
    }
  }

  /**
   Version::GetOverlappingInputs.  Above level 0 the result is the overlapping files.
   At level 0 the range grows until it is closed, and it is the least closed range that
   contains the one asked for.
   */
  method GetOverlappingInputs(v: Version, level: nat, begin: Option<UserKey>, end: Option<UserKey>)
    returns (inputs: Level, ghost newBegin: Option<UserKey>, ghost newEnd: Option<UserKey>)
    requires |v.files| == NUM_LEVELS && level < NUM_LEVELS
    ensures inputs == Overlapping(v.files[level], newBegin, newEnd)
    ensures Grown(begin, end, newBegin, newEnd)
    ensures level > 0 ==> newBegin == begin && newEnd == end
    ensures level == 0 ==> ClosedRange(v.files[0], newBegin, newEnd)
    ensures level == 0 ==> Least(v.files[0], begin, end, newBegin, newEnd)
  {
    var files := v.files[level];
    inputs := [];
    var userBegin, userEnd := begin, end;
    var i := 0;
    CollectNothing(files, userBegin, userEnd);
    while i < |files|
      invariant 0 <= i <= |files|
      invariant CollectedUpTo(files, userBegin, userEnd, inputs, i)
      invariant Grown(begin, end, userBegin, userEnd)
      invariant level > 0 ==> userBegin == begin && userEnd == end
      invariant level == 0 ==> forall j :: 0 <= j < i ==> InsideOrOutside(files[j], userBegin, userEnd)
      invariant level == 0 ==> Least(files, begin, end, userBegin, userEnd)
      decreases StartingBelow(files, userBegin), EndingAbove(files, userEnd), |files| - i
    {
      var f := files[i];
      assert f in files;
      CollectStep(files, userBegin, userEnd, inputs, i);
      i := i + 1;
      var fileStart, fileLimit := f.smallest.user, f.largest.user;
      if userBegin.Some? && fileLimit < userBegin.value {
      } else if userEnd.Some? && fileStart > userEnd.value {
      } else {
        inputs := inputs + [f];
        if level == 0 {
          GrowingStaysLeast(files, begin, end, userBegin, userEnd, f);
          if userBegin.Some? && fileStart < userBegin.value {
            assert f in StartingBelow(files, userBegin);
            userBegin := Some(fileStart);
            inputs := [];
            i := 0;
            CollectNothing(files, userBegin, userEnd);
          } else if userEnd.Some? && fileLimit > userEnd.value {
            assert f in EndingAbove(files, userEnd);
            userEnd := Some(fileLimit);
            inputs := [];
            i := 0;
            CollectNothing(files, userBegin, userEnd);
          }
        }
      }
    }
    newBegin, newEnd := userBegin, userEnd;
  }

  function TotalFileSize(files: Level): nat {
    if files == [] then 0 else files[0].fileSize + TotalFileSize(files[1..])
  }

  ghost predicate NoOverlap(files: Level, lo: UserKey, hi: UserKey) {
    forall f :: f in files ==> !Overlaps(f, Some(lo), Some(hi))
  }

  /**
   Version::PickLevelForMemTableOutput.  A flushed table that is pushed below level 0
   overlaps nothing at its level or above; the level is the deepest one reachable.
   */
  method PickLevelForMemTableOutput(v: Version, lo: UserKey, hi: UserKey, maxGrandparentBytes: nat)
    returns (level: nat)
    requires Shaped(v)
    ensures level <= MAX_MEM_COMPACT_LEVEL
    ensures level > 0 ==> forall i :: 0 <= i <= level ==> NoOverlap(v.files[i], lo, hi)
    ensures level < MAX_MEM_COMPACT_LEVEL ==>
              || !NoOverlap(v.files[0], lo, hi)
              || !NoOverlap(v.files[level + 1], lo, hi)
              || TotalFileSize(Overlapping(v.files[level + 2], Some(lo), Some(hi))) > maxGrandparentBytes
  {
    level := 0;
    var overlap := SomeFileOverlapsRange(false, v.files[0], Some(lo), Some(hi));
    if !overlap {
      while level < MAX_MEM_COMPACT_LEVEL
        invariant level <= MAX_MEM_COMPACT_LEVEL
        invariant forall i :: 0 <= i <= level ==> NoOverlap(v.files[i], lo, hi)
      {
        overlap := SomeFileOverlapsRange(true, v.files[level + 1], Some(lo), Some(hi));
        if overlap {
          break;
        }
        if level + 2 < NUM_LEVELS {
          var overlaps, b, e := GetOverlappingInputs(v, level + 2, Some(lo), Some(hi));
          if TotalFileSize(overlaps) > maxGrandparentBytes {
            break;
          }
        }
        level := level + 1;
      }
    }
  }

  // ----- ranges and boundary files -----

  ghost predicate IsRange(inputs: Level, smallest: InternalKey, largest: InternalKey) {
    && (forall f :: f in inputs ==> AtMost(smallest, f.smallest) && AtMost(f.largest, largest))
    && (exists f :: f in inputs && f.smallest == smallest)
    && (exists f :: f in inputs && f.largest == largest)
  }

  method GetRange(inputs: Level) returns (smallest: InternalKey, largest: InternalKey)
    requires inputs != []
    ensures IsRange(inputs, smallest, largest)
  {
    smallest, largest := inputs[0].smallest, inputs[0].largest;
    ghost var lowFile, highFile := inputs[0], inputs[0];
    for i := 1 to |inputs|
      invariant forall j :: 0 <= j < i ==> AtMost(smallest, inputs[j].smallest) && AtMost(inputs[j].largest, largest)
      invariant lowFile in inputs && lowFile.smallest == smallest
      invariant highFile in inputs && highFile.largest == largest
    {
      var f := inputs[i];
      if Compare(f.smallest, smallest) < 0 {
        smallest := f.smallest;
        lowFile := f;
      }
      if Compare(f.largest, largest) > 0 {
        largest := f.largest;
        highFile := f;
      }
    }
  }

  ghost predicate IsLargestKey(files: Level, key: InternalKey) {
    && (forall f :: f in files ==> AtMost(f.largest, key))
    && (exists f :: f in files && f.largest == key)
  }

  method FindLargestKey(files: Level) returns (largestKey: Option<InternalKey>)
    ensures files == [] <==> largestKey.None?
    ensures largestKey.Some? ==> IsLargestKey(files, largestKey.value)
  {
    if files == [] {
      return None;
    }
    var largest := files[0].largest;
    ghost var file := files[0];
    for i := 1 to |files|
      invariant forall j :: 0 <= j < i ==> AtMost(files[j].largest, largest)
      invariant file in files && file.largest == largest
    {
      var f := files[i];
      if Compare(f.largest, largest) > 0 {
        largest := f.largest;
        file := f;
      }
    }
    return Some(largest);
  }

  // The file starts after `key` with the same user key, so it holds older entries of it.
  predicate Continues(f: FileMetaData, key: InternalKey) {
    Less(key, f.smallest) && f.smallest.user == key.user
  }

  method FindSmallestBoundaryFile(levelFiles: Level, largestKey: InternalKey)
    returns (boundary: Option<FileMetaData>)
    ensures boundary.None? ==> forall f :: f in levelFiles ==> !Continues(f, largestKey)
    ensures boundary.Some? ==> IsSmallestBoundary(levelFiles, largestKey, boundary.value)
  {
    boundary := None;
    for i := 0 to |levelFiles|
      invariant boundary.None? ==> forall j :: 0 <= j < i ==> !Continues(levelFiles[j], largestKey)
      invariant boundary.Some? ==> boundary.value in levelFiles && Continues(boundary.value, largestKey)
      invariant boundary.Some? ==> forall j :: 0 <= j < i && Continues(levelFiles[j], largestKey)
                                     ==> AtMost(boundary.value.smallest, levelFiles[j].smallest)
    {
      var f := levelFiles[i];
      if Compare(f.smallest, largestKey) > 0 && f.smallest.user == largestKey.user {
        if boundary.None? || Compare(f.smallest, boundary.value.smallest) < 0 {
          boundary := Some(f);
        }
      }
    }
  }

  ghost function StartingAfter(files: Level, key: InternalKey): set<FileMetaData> {
    set f | f in files && Less(key, f.smallest)
  }

  // No other file of the level begins with a user key that ends a chosen one.
  ghost predicate NoFileTouches(levelFiles: Level, chosen: Level) {
    forall f, g :: f in levelFiles && f !in chosen && g in chosen ==> f.smallest.user != g.largest.user
  }

  // `r` extends `chosen` by files of the level; in a sorted level a contiguous run of
  // files, starting at index `start`, stays contiguous.
  ghost predicate Extends(levelFiles: Level, chosen: Level, sorted: bool, start: nat, r: Level, largest: InternalKey) {
    && chosen <= r
    && (forall f :: f in r ==> f in levelFiles)
    && IsLargestKey(r, largest)
    && (sorted ==> StartsAt(r, levelFiles, start))
    && (NoFileTouches(levelFiles, chosen) ==> r == chosen)
  }

  // The i-th file is the first one to continue the largest key of those before it.
  ghost predicate BoundaryAt(levelFiles: Level, r: Level, i: nat)
    requires i < |r|
  {
    exists key :: IsLargestKey(r[..i], key) && IsSmallestBoundary(levelFiles, key, r[i])
  }

  // `r` is the choice with boundary files behind it.
  ghost predicate BoundariesBehind(levelFiles: Level, chosen: Level, r: Level) {
    chosen <= r && forall i :: |chosen| <= i < |r| ==> BoundaryAt(levelFiles, r, i)
  }

  // ... with all of them, and nothing else.
  ghost predicate WithBoundaries(levelFiles: Level, chosen: Level, r: Level) {
    && BoundariesBehind(levelFiles, chosen, r)
    && forall key, f :: IsLargestKey(r, key) && f in levelFiles ==> !Continues(f, key)
  }

  lemma {:induction false} OneMoreBoundary(levelFiles: Level, chosen: Level, r: Level, largest: InternalKey, f: FileMetaData)
    requires BoundariesBehind(levelFiles, chosen, r) && IsLargestKey(r, largest) && IsSmallestBoundary(levelFiles, largest, f)
    ensures BoundariesBehind(levelFiles, chosen, r + [f])
  {
    hide IsLargestKey, IsSmallestBoundary;
    var s := r + [f];
    forall i | |chosen| <= i < |s|
      ensures BoundaryAt(levelFiles, s, i)
    {
      if i < |r| {
        assert BoundaryAt(levelFiles, r, i) && s[..i] == r[..i];
      } else {
        assert s[..i] == r;
      }
    }
  }

  lemma {:induction false} LargestKeyIsOne(files: Level, key: InternalKey, other: InternalKey)
    requires IsLargestKey(files, key) && IsLargestKey(files, other)
    ensures key.user == other.user && AtMost(key, other) && AtMost(other, key)
  {
  }

  ghost predicate Selectable(levelFiles: Level, chosen: Level, sorted: bool, start: nat) {
    && chosen != []
    && (forall f :: f in chosen ==> f in levelFiles)
    && (sorted ==> SortedLevel(levelFiles) && StartsAt(chosen, levelFiles, start))
  }

  /**
   AddBoundaryInputs.  Files are only appended, and in the end no file of the level
   continues the user key of the largest key.
   */
  method AddBoundaryInputs(levelFiles: Level, compactionFiles: Level, ghost sorted: bool, ghost start: nat)
    returns (r: Level, ghost largestKey: InternalKey)
    requires ValidFiles(levelFiles) && Selectable(levelFiles, compactionFiles, sorted, start)
    ensures Extends(levelFiles, compactionFiles, sorted, start, r, largestKey)
    ensures forall f :: f in levelFiles ==> !Continues(f, largestKey)
    ensures WithBoundaries(levelFiles, compactionFiles, r)
  {
    var first := FindLargestKey(compactionFiles);
    r := compactionFiles;
    var largest := first.value;
    var continueSearching := true;
    while continueSearching
      invariant Extends(levelFiles, compactionFiles, sorted, start, r, largest)
      invariant BoundariesBehind(levelFiles, compactionFiles, r)
      invariant !continueSearching ==> forall f :: f in levelFiles ==> !Continues(f, largest)
      decreases StartingAfter(levelFiles, largest), continueSearching
    {
      var boundary := FindSmallestBoundaryFile(levelFiles, largest);
      if boundary.Some? {
        BoundaryFileExtends(levelFiles, compactionFiles, sorted, start, r, largest, boundary.value);
        OneMoreBoundary(levelFiles, compactionFiles, r, largest, boundary.value);
        r := r + [boundary.value];
        largest := boundary.value.largest;
      } else {
        continueSearching := false;
      }
    }
    largestKey := largest;
    forall key, f | IsLargestKey(r, key) && f in levelFiles
      ensures !Continues(f, key)
    {
      LargestKeyIsOne(r, key, largest);
    }
  }

  ghost predicate IsSmallestBoundary(levelFiles: Level, largest: InternalKey, f: FileMetaData) {
    && f in levelFiles
    && Continues(f, largest)
    && forall g :: g in levelFiles && Continues(g, largest) ==> AtMost(f.smallest, g.smallest)
  }

  lemma {:induction false} BoundaryFileExtends(levelFiles: Level, chosen: Level, sorted: bool, start: nat, r: Level, largest: InternalKey,
                            f: FileMetaData)
    requires ValidFiles(levelFiles) && Selectable(levelFiles, chosen, sorted, start)
    requires Extends(levelFiles, chosen, sorted, start, r, largest)
    requires IsSmallestBoundary(levelFiles, largest, f)
    ensures Extends(levelFiles, chosen, sorted, start, r + [f], f.largest)
    ensures StartingAfter(levelFiles, f.largest) < StartingAfter(levelFiles, largest)
  {
    var s := r + [f];
    assert |s| == |r| + 1 && s[..|r|] == r;
    assert chosen <= s;
    AppendLargest(r, largest, f);
    assert sorted ==> StartsAt(s, levelFiles, start) by {
      if sorted {
        BoundaryFileIsNext(levelFiles, start, start + |r|, r, largest, f);
      }
    }
    assert !NoFileTouches(levelFiles, chosen) by {
      var g :| g in r && g.largest == largest;
      assert f.smallest.user == g.largest.user;
    }
    assert StartingAfter(levelFiles, f.largest) < StartingAfter(levelFiles, largest) by {
      FileIsOrdered(f);
      assert f in StartingAfter(levelFiles, largest) && f !in StartingAfter(levelFiles, f.largest);
    }
  }

  lemma {:induction false} AppendLargest(r: Level, largest: InternalKey, f: FileMetaData)
    requires IsLargestKey(r, largest) && f.Valid() && Less(largest, f.smallest)
    ensures IsLargestKey(r + [f], f.largest) && f !in r
  {
    FileIsOrdered(f);
    var s := r + [f];
    assert s[|r|] == f;
    forall g | g in s
      ensures AtMost(g.largest, f.largest)
    {
      assert g in r || g == f;
    }
  }

  lemma {:induction false} BoundaryFileIsNext(files: Level, a: nat, b: nat, r: Level, largest: InternalKey, f: FileMetaData)
    requires ValidFiles(files) && SortedLevel(files)
    requires IsSlice(r, files, a, b) && IsLargestKey(r, largest)
    requires IsSmallestBoundary(files, largest, f)
    ensures IsSlice(r + [f], files, a, b + 1)
  {
    var j :| 0 <= j < |files| && files[j] == f;
    var m :| 0 <= m < |r| && r[m].largest == largest;
    assert r[m] == files[a + m];
    FileIsOrdered(f);
    forall i | 0 <= i < b
      ensures AtMost(files[i].smallest, largest)
    {
      FileIsOrdered(files[i]);
      if a <= i {
        assert r[i - a] == files[i];
      } else {
        FileIsOrdered(files[a]);
        assert r[0] == files[a] && Less(files[i].largest, files[a].smallest);
      }
    }
    assert b <= j;
    FileIsOrdered(files[b]);
    assert Less(files[a + m].largest, files[b].smallest);
    assert b == j || Less(files[b].largest, files[j].smallest);
    assert files[b] in files && Continues(files[b], largest);
  }
}
