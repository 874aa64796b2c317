/**
 The merge of a compaction (db/version_set.cc: class Compaction; db/db_impl.cc:
 DoCompactionWork).
 */
module Compactions {
  import opened Wrappers
  import opened DbFormat
  import opened Views
  import opened Versions
  import opened CompactionInputs

  predicate CoversUser(f: FileMetaData, user: UserKey) {
    f.smallest.user <= user <= f.largest.user
  }

  // No level below the outputs of a compaction from `level` can hold the user key.
  predicate BaseLevel(v: Version, level: nat, user: UserKey)
    requires |v.files| == NUM_LEVELS
  {
    forall l, f :: level + 2 <= l < NUM_LEVELS && f in v.files[l] ==> !CoversUser(f, user)
  }

  lemma {:induction false} BaseLevelIs(v: Version, level: nat, user: UserKey)
    requires |v.files| == NUM_LEVELS
    ensures BaseLevel(v, level, user) <==> forall l, f :: level + 2 <= l < NUM_LEVELS && f in v.files[l]
                                                          ==> user < f.smallest.user || f.largest.user < user
  {
    if BaseLevel(v, level, user) {
      forall l, f | level + 2 <= l < NUM_LEVELS && f in v.files[l]
        ensures user < f.smallest.user || f.largest.user < user
      {
        assert !CoversUser(f, user);
      }
    }
  }

  // Compaction::IsTrivialMove: one file, nothing below it to merge with, and not too much
  // at the level after that.
  predicate IsTrivialMove(inputs0: Level, inputs1: Level, grandparents: Level, maxGrandparentBytes: nat) {
    |inputs0| == 1 && |inputs1| == 0 && TotalFileSize(grandparents) <= maxGrandparentBytes
  }

  // ----- where outputs end because of the grandparents -----

  // How far the scan of the grandparents is, and where the count of their bytes began.
  datatype Scan = Scan(index: nat, seen: bool, since: nat)

  // The first file at or after `from` that does not end before the key.
  function FirstReaching(files: Level, from: nat, key: InternalKey): (r: nat)
    requires from <= |files|
    ensures from <= r <= |files|
    decreases |files| - from
  {
    if from < |files| && Less(files[from].largest, key) then FirstReaching(files, from + 1, key) else from
  }

  predicate ScanFits(s: Scan, files: Level) {
    s.since <= s.index <= |files|
  }

  lemma {:induction false} FirstReachingIs(files: Level, from: nat, key: InternalKey, i: nat)
    requires from <= i <= |files|
    requires forall j :: from <= j < i ==> Less(files[j].largest, key)
    requires i < |files| ==> AtMost(key, files[i].largest)
    ensures FirstReaching(files, from, key) == i
    decreases i - from
  {
    if from < i {
      FirstReachingIs(files, from + 1, key, i);
    }
  }

  // Files passed before the first key do not count.
  function CountFrom(files: Level, s: Scan, key: InternalKey): (r: nat)
    requires ScanFits(s, files)
    ensures r <= FirstReaching(files, s.index, key)
  {
    if s.seen then s.since else FirstReaching(files, s.index, key)
  }

  predicate StopsAt(files: Level, s: Scan, key: InternalKey, limit: nat)
    requires ScanFits(s, files)
  {
    BytesBetween(files, CountFrom(files, s, key), FirstReaching(files, s.index, key)) > limit
  }

  // After a stop the count begins anew.
  function ScanNext(files: Level, s: Scan, key: InternalKey, limit: nat): (r: Scan)
    requires ScanFits(s, files)
    ensures ScanFits(r, files)
  {
    var i := FirstReaching(files, s.index, key);
    Scan(i, true, if StopsAt(files, s, key, limit) then i else CountFrom(files, s, key))
  }

  function ScanAfter(files: Level, s: Scan, input: seq<Entry>, n: nat, limit: nat): (r: Scan)
    requires ScanFits(s, files) && n <= |input|
    ensures ScanFits(r, files)
  {
    if n == 0 then s else ScanNext(files, ScanAfter(files, s, input, n - 1, limit), input[n - 1].key, limit)
  }

  // Before which entries of the input an output has to end.
  function Stops(files: Level, s: Scan, input: seq<Entry>, limit: nat): (r: seq<bool>)
    requires ScanFits(s, files)
    ensures |r| == |input|
    ensures forall i :: 0 <= i < |r| ==> r[i] == StopsAt(files, ScanAfter(files, s, input, i, limit), input[i].key, limit)
  {
    seq(|input|, i requires 0 <= i < |input| => StopsAt(files, ScanAfter(files, s, input, i, limit), input[i].key, limit))
  }

  class Compaction {
    const level: nat
    const inputVersion: Version
    var inputs0: Level
    var inputs1: Level
    var grandparents: Level
    var grandparentIndex: nat
    var seenKey: bool
    var overlappedBytes: nat
    // Where the scan of each deeper level has got to.
    const levelPtrs: array<nat>
    // The largest user key that the scans have been asked about.
    ghost var asked: Option<UserKey>
    // The first grandparent that counts against the current output.
    ghost var since: nat

    ghost predicate Valid()
      reads this, levelPtrs
    {
      && Shaped(inputVersion)
      && levelPtrs.Length == NUM_LEVELS
      && (forall l :: level + 2 <= l < NUM_LEVELS ==> Passed(inputVersion.files[l], levelPtrs[l], asked))
      && since <= grandparentIndex <= |grandparents|
      && overlappedBytes == BytesBetween(grandparents, since, grandparentIndex)
      && (!seenKey ==> since == grandparentIndex)
    }

    ghost function Scanned(): (r: Scan)
      reads this, levelPtrs
      requires Valid()
      ensures ScanFits(r, grandparents)
    {
      Scan(grandparentIndex, seenKey, since)
    }

    constructor (level: nat, inputVersion: Version)
      requires Shaped(inputVersion)
      ensures this.level == level && this.inputVersion == inputVersion
      ensures inputs0 == [] && inputs1 == [] && grandparents == []
      ensures Valid() && asked == None && fresh(levelPtrs)
    {
      this.level, this.inputVersion := level, inputVersion;
      inputs0, inputs1, grandparents := [], [], [];
      grandparentIndex, seenKey, overlappedBytes := 0, false, 0;
      levelPtrs := new nat[NUM_LEVELS](_ => 0);
      asked, since := None, 0;
    }

    /**
     Compaction::IsBaseLevelForKey.  As long as it is asked about user keys in order,
     the moving scans answer like a search of all files of the deeper levels.
     */
    method IsBaseLevelForKey(user: UserKey) returns (base: bool)
      requires Valid() && (asked.Some? ==> asked.value <= user)
      modifies levelPtrs, this`asked
      ensures Valid() && asked == Some(user)
      ensures base <==> BaseLevel(inputVersion, level, user)
      ensures base <==> forall l, f :: level + 2 <= l < NUM_LEVELS && f in inputVersion.files[l]
                                       ==> user < f.smallest.user || f.largest.user < user
    {
      var lvl := level + 2;
      asked := Some(user);
      while lvl < NUM_LEVELS
        invariant level + 2 <= lvl && asked == Some(user)
        invariant forall l :: level + 2 <= l < NUM_LEVELS ==> Passed(inputVersion.files[l], levelPtrs[l], asked)
        invariant forall l, f :: level + 2 <= l < lvl && l < NUM_LEVELS && f in inputVersion.files[l] ==> !CoversUser(f, user)
      {
        var files := inputVersion.files[lvl];
        while levelPtrs[lvl] < |files|
          invariant asked == Some(user)
          invariant forall l :: level + 2 <= l < NUM_LEVELS ==> Passed(inputVersion.files[l], levelPtrs[l], asked)
          decreases |files| - levelPtrs[lvl]
        {
          var f := files[levelPtrs[lvl]];
          if user <= f.largest.user {
            if user >= f.smallest.user {
              assert f in inputVersion.files[lvl] && CoversUser(f, user);
              return false;
            }
            break;
          }
          levelPtrs[lvl] := levelPtrs[lvl] + 1;
        }
        ScanSettlesLevel(files, levelPtrs[lvl], user);
        lvl := lvl + 1;
      }
      BaseLevelIs(inputVersion, level, user);
      return true;
    }

    /**
     Compaction::ShouldStopBefore.  The current output ends when the grandparent files
     passed since the last stop weigh more than the limit.
     */
    method ShouldStopBefore(key: InternalKey, maxGrandparentBytes: nat) returns (stop: bool)
      requires Valid()
      modifies this`grandparentIndex, this`seenKey, this`overlappedBytes, this`since
      ensures Valid() && seenKey
      ensures old(grandparentIndex) <= grandparentIndex
      ensures forall i :: old(grandparentIndex) <= i < grandparentIndex ==> Less(grandparents[i].largest, key)
      ensures grandparentIndex < |grandparents| ==> AtMost(key, grandparents[grandparentIndex].largest)
      ensures stop <==> old(seenKey) && BytesBetween(grandparents, old(since), grandparentIndex) > maxGrandparentBytes
      ensures since == if stop || !old(seenKey) then grandparentIndex else old(since)
      ensures stop == StopsAt(grandparents, old(Scanned()), key, maxGrandparentBytes)
      ensures Scanned() == ScanNext(grandparents, old(Scanned()), key, maxGrandparentBytes)
    {
      while grandparentIndex < |grandparents| && Compare(key, grandparents[grandparentIndex].largest) > 0
        invariant seenKey == old(seenKey)
        invariant old(grandparentIndex) <= grandparentIndex <= |grandparents|
        invariant since == if seenKey then old(since) else grandparentIndex
        invariant overlappedBytes == BytesBetween(grandparents, since, grandparentIndex)
        invariant forall i :: old(grandparentIndex) <= i < grandparentIndex ==> Less(grandparents[i].largest, key)
        decreases |grandparents| - grandparentIndex
      {
        if seenKey {
          overlappedBytes := overlappedBytes + grandparents[grandparentIndex].fileSize;
        } else {
          since := grandparentIndex + 1;
        }
        grandparentIndex := grandparentIndex + 1;
      }
      FirstReachingIs(grandparents, old(grandparentIndex), key, grandparentIndex);
      seenKey := true;
      if overlappedBytes > maxGrandparentBytes {
        overlappedBytes := 0;
        since := grandparentIndex;
        stop := true;
      } else {
        stop := false;
      }
    }
  }

  function BytesBetween(files: Level, from: nat, to: nat): nat
    requires from <= to <= |files|
  {
    if from == to then 0 else BytesBetween(files, from, to - 1) + files[to - 1].fileSize
  }

  // A scan that stands at index `p` has only passed files that end before the key.
  ghost predicate Passed(files: Level, p: nat, key: Option<UserKey>) {
    p <= |files| && forall i :: 0 <= i < p ==> key.Some? && files[i].largest.user < key.value
  }

  lemma {:induction false} ScanSettlesLevel(files: Level, p: nat, user: UserKey)
    requires ValidFiles(files) && SortedLevel(files) && p <= |files|
    requires forall i :: 0 <= i < p ==> files[i].largest.user < user
    requires p < |files| ==> user < files[p].smallest.user
    ensures forall f :: f in files ==> !CoversUser(f, user)
  {
    forall f | f in files
      ensures !CoversUser(f, user)
    {
      var i :| 0 <= i < |files| && files[i] == f;
      if p < i {
        FileIsOrdered(files[p]);
        assert Less(files[p].largest, files[i].smallest);
      }
    }
  }

  // ----- which entries survive a merge -----

  // The sequence number of the preceding entry of the same user key; the largest
  // number when the entry is the first of its user key.
  function PreviousSequence(input: seq<Entry>, i: nat): SequenceNumber
    requires i < |input|
  {
    if i > 0 && input[i - 1].key.user == input[i].key.user then input[i - 1].key.sequence else MAX_SEQUENCE_NUMBER
  }

  // Rule A: no snapshot can see the entry past the one before it.
  predicate Shadowed(input: seq<Entry>, i: nat, smallestSnapshot: SequenceNumber)
    requires i < |input|
  {
    PreviousSequence(input, i) <= smallestSnapshot
  }

  // Rule B: a deletion that every snapshot sees and that hides nothing further down.
  predicate Obsolete(v: Version, level: nat, e: Entry, smallestSnapshot: SequenceNumber)
    requires |v.files| == NUM_LEVELS
  {
    e.key.kind.Deletion? && e.key.sequence <= smallestSnapshot && BaseLevel(v, level, e.key.user)
  }

  predicate Dropped(v: Version, level: nat, input: seq<Entry>, i: nat, smallestSnapshot: SequenceNumber)
    requires |v.files| == NUM_LEVELS && i < |input|
  {
    Shadowed(input, i, smallestSnapshot) || Obsolete(v, level, input[i], smallestSnapshot)
  }

  function Survivors(v: Version, level: nat, input: seq<Entry>, smallestSnapshot: SequenceNumber, n: nat): seq<Entry>
    requires |v.files| == NUM_LEVELS && n <= |input|
  {
    if n == 0 then []
    else Survivors(v, level, input, smallestSnapshot, n - 1)
         + if Dropped(v, level, input, n - 1, smallestSnapshot) then [] else [input[n - 1]]
  }

  lemma {:induction false} SurvivorsMembers(v: Version, level: nat, input: seq<Entry>, smallestSnapshot: SequenceNumber, n: nat)
    requires |v.files| == NUM_LEVELS && n <= |input|
    ensures forall e :: e in Survivors(v, level, input, smallestSnapshot, n)
                        <==> exists i :: 0 <= i < n && input[i] == e && !Dropped(v, level, input, i, smallestSnapshot)
  {
    if n > 0 {
      SurvivorsMembers(v, level, input, smallestSnapshot, n - 1);
    }
  }

  lemma {:induction false} SurvivorsSorted(v: Version, level: nat, input: seq<Entry>, smallestSnapshot: SequenceNumber, n: nat)
    requires |v.files| == NUM_LEVELS && n <= |input| && SortedTable(input)
    ensures SortedTable(Survivors(v, level, input, smallestSnapshot, n))
    ensures forall e :: e in Survivors(v, level, input, smallestSnapshot, n) ==> n > 0 && AtMost(e.key, input[n - 1].key)
  {
    if n > 0 {
      SurvivorsSorted(v, level, input, smallestSnapshot, n - 1);
      var init := Survivors(v, level, input, smallestSnapshot, n - 1);
      forall e | e in init
        ensures Less(e.key, input[n - 1].key)
      {
        assert n > 1 && Less(input[n - 2].key, input[n - 1].key);
      }
      forall i | 0 <= i < |init|
        ensures Less(init[i].key, input[n - 1].key)
      {
        assert init[i] in init;
      }
    }
  }

  // ----- what survives, told without the loop -----

  // Of what every snapshot sees of a user key, at most one entry is left.
  ghost predicate OnePerKey(kept: seq<Entry>, smallestSnapshot: SequenceNumber) {
    forall e, o :: e in kept && o in kept && e.key.user == o.key.user
      ==> e == o || e.key.sequence > smallestSnapshot || o.key.sequence > smallestSnapshot
  }

  // A deletion that every snapshot sees is left only for a file further down to which its
  // user key may belong.
  ghost predicate NoUselessDeletion(v: Version, level: nat, kept: seq<Entry>, smallestSnapshot: SequenceNumber)
    requires |v.files| == NUM_LEVELS
  {
    forall e :: e in kept && e.key.kind.Deletion? && e.key.sequence <= smallestSnapshot ==>
      exists l, f :: level + 2 <= l < NUM_LEVELS && f in v.files[l] && f.smallest.user <= e.key.user <= f.largest.user
  }

  // The entry is hidden from every snapshot by a newer one of its user key.
  ghost predicate Hidden(input: seq<Entry>, e: Entry, smallestSnapshot: SequenceNumber) {
    exists o :: o in input && o.key.user == e.key.user && Less(o.key, e.key) && o.key.sequence <= smallestSnapshot
  }

  // What is missing is hidden, or a deletion that has nothing left to delete.  Below the
  // largest snapshot there is, that is; under it everything is dropped.
  ghost predicate NothingElseMissing(v: Version, level: nat, input: seq<Entry>, kept: seq<Entry>, smallestSnapshot: SequenceNumber)
    requires |v.files| == NUM_LEVELS
  {
    if smallestSnapshot == MAX_SEQUENCE_NUMBER then kept == []
    else forall e :: e in input ==>
      (e !in kept <==>
         || Hidden(input, e, smallestSnapshot)
         || (&& e.key.kind.Deletion? && e.key.sequence <= smallestSnapshot
             && forall l, f :: level + 2 <= l < NUM_LEVELS && f in v.files[l]
                               ==> e.key.user < f.smallest.user || f.largest.user < e.key.user))
  }

  // The outcome of a merge.
  ghost predicate MergedFrom(v: Version, level: nat, input: seq<Entry>, kept: seq<Entry>, smallestSnapshot: SequenceNumber)
    requires |v.files| == NUM_LEVELS
  {
    && SortedTable(kept) && (forall e :: e in kept ==> e in input)
    && OnePerKey(kept, smallestSnapshot)
    && NoUselessDeletion(v, level, kept, smallestSnapshot)
    && NothingElseMissing(v, level, input, kept, smallestSnapshot)
  }

  // The entry before decides whether one is hidden.
  lemma {:induction false} ShadowedIsHidden(input: seq<Entry>, i: nat, smallestSnapshot: SequenceNumber)
    requires SortedTable(input) && i < |input| && smallestSnapshot < MAX_SEQUENCE_NUMBER
    ensures Shadowed(input, i, smallestSnapshot) <==> Hidden(input, input[i], smallestSnapshot)
  {
    var e := input[i];
    if Shadowed(input, i, smallestSnapshot) {
      assert Less(input[i - 1].key, e.key);
    }
    if Hidden(input, e, smallestSnapshot) {
      var o :| o in input && o.key.user == e.key.user && Less(o.key, e.key) && o.key.sequence <= smallestSnapshot;
      var j :| 0 <= j < |input| && input[j] == o;
      assert i < j ==> Less(input[i].key, input[j].key);
      var p := input[i - 1];
      assert Less(p.key, e.key) && (j < i - 1 ==> Less(o.key, p.key));
    }
  }

  // Of two entries of a user key, both seen by every snapshot, the later one is shadowed.
  lemma {:induction false} LaterIsShadowed(input: seq<Entry>, i: nat, j: nat, smallestSnapshot: SequenceNumber)
    requires SortedTable(input) && i < j < |input| && input[i].key.user == input[j].key.user
    requires input[i].key.sequence <= smallestSnapshot
    ensures Shadowed(input, j, smallestSnapshot)
  {
    var p := input[j - 1];
    assert Less(p.key, input[j].key) && (i < j - 1 ==> Less(input[i].key, p.key));
  }

  lemma {:induction false} SurvivorsAreLeast(v: Version, level: nat, input: seq<Entry>, smallestSnapshot: SequenceNumber)
    requires |v.files| == NUM_LEVELS && SortedTable(input)
    ensures MergedFrom(v, level, input, Survivors(v, level, input, smallestSnapshot, |input|), smallestSnapshot)
  {
    hide Survivors, SortedTable;
    var kept := Survivors(v, level, input, smallestSnapshot, |input|);
    SurvivorsMembers(v, level, input, smallestSnapshot, |input|);
    SurvivorsSorted(v, level, input, smallestSnapshot, |input|);
    forall e, o | e in kept && o in kept && e.key.user == o.key.user
                  && e.key.sequence <= smallestSnapshot && o.key.sequence <= smallestSnapshot
      ensures e == o
    {
      var i :| 0 <= i < |input| && input[i] == e && !Dropped(v, level, input, i, smallestSnapshot);
      var j :| 0 <= j < |input| && input[j] == o && !Dropped(v, level, input, j, smallestSnapshot);
      if i < j {
        LaterIsShadowed(input, i, j, smallestSnapshot);
      } else if j < i {
        LaterIsShadowed(input, j, i, smallestSnapshot);
      }
    }
    if smallestSnapshot < MAX_SEQUENCE_NUMBER {
      MissingIsDropped(v, level, input, smallestSnapshot);
    } else {
      AllDropped(v, level, input, |input|);
    }
  }

  lemma {:induction false} AllDropped(v: Version, level: nat, input: seq<Entry>, n: nat)
    requires |v.files| == NUM_LEVELS && n <= |input|
    ensures Survivors(v, level, input, MAX_SEQUENCE_NUMBER, n) == []
  {
    if n > 0 {
      AllDropped(v, level, input, n - 1);
      assert Shadowed(input, n - 1, MAX_SEQUENCE_NUMBER);
    }
  }

  lemma {:induction false} MissingIsDropped(v: Version, level: nat, input: seq<Entry>, smallestSnapshot: SequenceNumber)
    requires |v.files| == NUM_LEVELS && SortedTable(input) && smallestSnapshot < MAX_SEQUENCE_NUMBER
    ensures NothingElseMissing(v, level, input, Survivors(v, level, input, smallestSnapshot, |input|), smallestSnapshot)
  {
    hide Survivors, SortedTable, Hidden, Shadowed, BaseLevel;
    var kept := Survivors(v, level, input, smallestSnapshot, |input|);
    SurvivorsMembers(v, level, input, smallestSnapshot, |input|);
    forall e | e in input
      ensures e !in kept <==>
                || Hidden(input, e, smallestSnapshot)
                || (&& e.key.kind.Deletion? && e.key.sequence <= smallestSnapshot
                    && forall l, f :: level + 2 <= l < NUM_LEVELS && f in v.files[l]
                                      ==> e.key.user < f.smallest.user || f.largest.user < e.key.user)
    {
      var i :| 0 <= i < |input| && input[i] == e;
      Distinct(input, i);
      ShadowedIsHidden(input, i, smallestSnapshot);
      BaseLevelIs(v, level, e.key.user);
      assert e in kept <==> !Dropped(v, level, input, i, smallestSnapshot);
    }
  }

  // ----- the merge loop -----

  function Concat(outputs: seq<FileMetaData>): seq<Entry> {
    if outputs == [] then [] else Concat(outputs[..|outputs| - 1]) + outputs[|outputs| - 1].table
  }

  // The finished outputs are usable tables; the i-th one has the number that the i-th
  // call of NewFileNumber returned.
  ghost predicate GoodOutputs(outputs: seq<FileMetaData>, allocate: nat -> nat) {
    forall i :: 0 <= i < |outputs| ==> outputs[i].Valid() && outputs[i].number == allocate(i)
  }

  lemma {:induction false} FinishOutput(outputs: seq<FileMetaData>, allocate: nat -> nat, builder: seq<Entry>, out: FileMetaData)
    requires GoodOutputs(outputs, allocate) && builder != [] && SortedTable(Concat(outputs) + builder)
    requires out.number == allocate(|outputs|) && out.table == builder
    requires out.smallest == builder[0].key && out.largest == builder[|builder| - 1].key
    ensures GoodOutputs(outputs + [out], allocate)
    ensures Concat(outputs + [out]) == Concat(outputs) + builder
  {
    var all := Concat(outputs) + builder;
    forall i, j | 0 <= i < j < |builder|
      ensures Less(builder[i].key, builder[j].key)
    {
      var n := |Concat(outputs)|;
      assert all[n + i] == builder[i] && all[n + j] == builder[j];
    }
    assert (outputs + [out])[..|outputs|] == outputs;
  }

  // Everything before index `n` of the input has been handled.
  ghost predicate Progress(v: Version, level: nat, input: seq<Entry>, smallestSnapshot: SequenceNumber, n: nat,
                           outputs: seq<FileMetaData>, builder: seq<Entry>, allocate: nat -> nat)
    requires |v.files| == NUM_LEVELS && n <= |input|
  {
    && Concat(outputs) + builder == Survivors(v, level, input, smallestSnapshot, n)
    && GoodOutputs(outputs, allocate)
  }

  // Sizes are as reported, and no output was extended once it was big enough.
  ghost predicate SizedOutputs(outputs: seq<FileMetaData>, sizeOf: seq<Entry> -> nat, maxOutputFileSize: nat) {
    forall i :: 0 <= i < |outputs| ==> SizedOutput(outputs[i], sizeOf, maxOutputFileSize)
  }

  ghost predicate SizedOutput(out: FileMetaData, sizeOf: seq<Entry> -> nat, maxOutputFileSize: nat) {
    out.fileSize == sizeOf(out.table) && Growing(out.table, sizeOf, maxOutputFileSize)
  }

  ghost predicate Growing(builder: seq<Entry>, sizeOf: seq<Entry> -> nat, maxOutputFileSize: nat) {
    forall m :: 0 < m < |builder| ==> sizeOf(builder[..m]) < maxOutputFileSize
  }

  // ----- where outputs are cut -----

  // All entries of `t` come before position `r` of the input, or none does.
  ghost predicate EndsBefore(input: seq<Entry>, t: seq<Entry>, r: nat) {
    forall p :: 0 <= p < |input| && input[p] in t ==> p < r
  }

  ghost predicate StartsFrom(input: seq<Entry>, t: seq<Entry>, r: nat) {
    forall p :: 0 <= p < |input| && input[p] in t ==> r <= p
  }

  // No stop lies behind the first entry of `t` and before position `n`.
  ghost predicate Unstopped(input: seq<Entry>, stops: seq<bool>, t: seq<Entry>, n: nat) {
    forall p, r :: 0 <= p < r < n && r < |stops| && p < |input| && input[p] in t ==> !stops[r]
  }

  ghost predicate Whole(input: seq<Entry>, stops: seq<bool>, t: seq<Entry>) {
    exists n: nat :: EndsBefore(input, t, n) && Unstopped(input, stops, t, n)
  }

  ghost predicate StopBehind(input: seq<Entry>, stops: seq<bool>, t: seq<Entry>, r: nat) {
    r < |stops| && stops[r] && EndsBefore(input, t, r)
  }

  // One table ends and the next begins for one of two reasons: the first is big enough, or
  // a stop lies between them.
  ghost predicate CutBetween(input: seq<Entry>, stops: seq<bool>, t: seq<Entry>, u: seq<Entry>, sizeOf: seq<Entry> -> nat, max: nat) {
    sizeOf(t) >= max || exists r: nat :: StopBehind(input, stops, t, r) && StartsFrom(input, u, r)
  }

  // No output goes on over a stop, and none ends without a reason.
  ghost predicate CutAtStops(input: seq<Entry>, stops: seq<bool>, outputs: seq<FileMetaData>, sizeOf: seq<Entry> -> nat, max: nat) {
    && (forall i :: 0 <= i < |outputs| ==> Whole(input, stops, outputs[i].table))
    && (forall i, j :: 0 <= i && j == i + 1 && j < |outputs| ==> CutBetween(input, stops, outputs[i].table, outputs[j].table, sizeOf, max))
  }

  // The same while the loop runs, with the table under construction.
  ghost predicate CutSoFar(input: seq<Entry>, stops: seq<bool>, outputs: seq<FileMetaData>, builder: seq<Entry>, n: nat,
                           sizeOf: seq<Entry> -> nat, max: nat) {
    && CutAtStops(input, stops, outputs, sizeOf, max)
    && EndsBefore(input, builder, n) && Unstopped(input, stops, builder, n)
    && (builder != [] ==> builder[0] in input)
    && (outputs != [] ==>
          var last := outputs[|outputs| - 1].table;
          if builder == [] then n >= |stops| || sizeOf(last) >= max || exists r: nat :: r <= n && StopBehind(input, stops, last, r)
          else CutBetween(input, stops, last, builder, sizeOf, max))
  }

  lemma {:induction false} NothingCut(input: seq<Entry>, stops: seq<bool>, sizeOf: seq<Entry> -> nat, max: nat)
    ensures CutSoFar(input, stops, [], [], 0, sizeOf, max)
  {
  }

  // The table under construction becomes an output.
  lemma {:induction false} CutHere(input: seq<Entry>, stops: seq<bool>, outputs: seq<FileMetaData>, builder: seq<Entry>, n: nat,
                                   sizeOf: seq<Entry> -> nat, max: nat, out: FileMetaData)
    requires CutSoFar(input, stops, outputs, builder, n, sizeOf, max) && builder != [] && out.table == builder
    requires sizeOf(builder) >= max || (n < |stops| && stops[n]) || n >= |stops|
    ensures CutSoFar(input, stops, outputs + [out], [], n, sizeOf, max)
  {
    hide EndsBefore, Unstopped, CutBetween;
    var all := outputs + [out];
    assert Whole(input, stops, out.table);
    forall i | 0 <= i < |all|
      ensures Whole(input, stops, all[i].table)
    {
    }
    forall i, j | 0 <= i && j == i + 1 && j < |all|
      ensures CutBetween(input, stops, all[i].table, all[j].table, sizeOf, max)
    {
    }
    NothingIsBefore(input, stops, n);
    assert n < |stops| && stops[n] ==> StopBehind(input, stops, builder, n);
  }

  lemma {:induction false} NothingIsBefore(input: seq<Entry>, stops: seq<bool>, n: nat)
    ensures EndsBefore(input, [], n) && Unstopped(input, stops, [], n)
  {
  }

  // One more entry is handled without a stop before it, kept or dropped.
  lemma {:induction false} NotCut(input: seq<Entry>, stops: seq<bool>, outputs: seq<FileMetaData>, builder: seq<Entry>, n: nat,
                                  sizeOf: seq<Entry> -> nat, max: nat)
    requires SortedTable(input) && n < |input| == |stops|
    requires CutSoFar(input, stops, outputs, builder, n, sizeOf, max) && (builder != [] ==> !stops[n])
    ensures CutSoFar(input, stops, outputs, builder, n + 1, sizeOf, max)
    ensures CutSoFar(input, stops, outputs, builder + [input[n]], n + 1, sizeOf, max)
  {
    var more := builder + [input[n]];
    Distinct(input, n);
    assert EndsBefore(input, builder, n + 1) && Unstopped(input, stops, builder, n + 1);
    assert EndsBefore(input, more, n + 1) && Unstopped(input, stops, more, n + 1);
    if outputs != [] {
      var last := outputs[|outputs| - 1].table;
      if sizeOf(last) < max {
        if builder == [] {
          var r: nat :| r <= n && StopBehind(input, stops, last, r);
          assert StartsFrom(input, more, r);
        } else {
          var r: nat :| StopBehind(input, stops, last, r) && StartsFrom(input, builder, r);
          var p :| 0 <= p < |input| && input[p] == builder[0];
          assert r <= p < n;
          assert StartsFrom(input, more, r);
        }
      }
    }
  }

  lemma {:induction false} Distinct(input: seq<Entry>, n: nat)
    requires SortedTable(input) && n < |input|
    ensures forall p :: 0 <= p < |input| && input[p] == input[n] ==> p == n
  {
    forall p | 0 <= p < |input| && p != n
      ensures input[p] != input[n]
    {
      assert p < n ==> Less(input[p].key, input[n].key);
      assert n < p ==> Less(input[n].key, input[p].key);
    }
  }

  lemma {:induction false} Keep(v: Version, level: nat, input: seq<Entry>, smallestSnapshot: SequenceNumber, n: nat,
             outputs: seq<FileMetaData>, builder: seq<Entry>, allocate: nat -> nat)
    requires |v.files| == NUM_LEVELS && n < |input|
    requires Progress(v, level, input, smallestSnapshot, n, outputs, builder, allocate)
    ensures Dropped(v, level, input, n, smallestSnapshot) ==>
              Progress(v, level, input, smallestSnapshot, n + 1, outputs, builder, allocate)
    ensures !Dropped(v, level, input, n, smallestSnapshot) ==>
              Progress(v, level, input, smallestSnapshot, n + 1, outputs, builder + [input[n]], allocate)
  {
    assert Concat(outputs) + (builder + [input[n]]) == (Concat(outputs) + builder) + [input[n]];
  }

  lemma {:induction false} Extend(builder: seq<Entry>, e: Entry, sizeOf: seq<Entry> -> nat, maxOutputFileSize: nat)
    requires Growing(builder, sizeOf, maxOutputFileSize)
    requires builder != [] ==> sizeOf(builder) < maxOutputFileSize
    ensures Growing(builder + [e], sizeOf, maxOutputFileSize)
  {
    forall m | 0 < m < |builder + [e]|
      ensures sizeOf((builder + [e])[..m]) < maxOutputFileSize
    {
      assert (builder + [e])[..m] == builder[..m];
      assert m == |builder| ==> builder[..m] == builder;
    }
  }

  /**
   DBImpl::DoCompactionWork without its error paths.  `input` is what the merging
   iterator yields; `sizeOf` is the file size that the table builder reports.  However
   the outputs are cut, together they hold exactly the survivors, in order.
   */
  method DoCompactionWork(c: Compaction, input: seq<Entry>, smallestSnapshot: SequenceNumber, allocate: nat -> nat,
                          maxOutputFileSize: nat, maxGrandparentBytes: nat, sizeOf: seq<Entry> -> nat)
    returns (outputs: seq<FileMetaData>)
    requires c.Valid() && c.asked == None && SortedTable(input)
    modifies c`asked, c`grandparentIndex, c`seenKey, c`overlappedBytes, c`since, c.levelPtrs
    ensures Concat(outputs) == Survivors(c.inputVersion, c.level, input, smallestSnapshot, |input|)
    ensures MergedFrom(c.inputVersion, c.level, input, Concat(outputs), smallestSnapshot)
    ensures GoodOutputs(outputs, allocate)
    ensures SizedOutputs(outputs, sizeOf, maxOutputFileSize)
    ensures CutAtStops(input, Stops(c.grandparents, old(c.Scanned()), input, maxGrandparentBytes), outputs, sizeOf, maxOutputFileSize)
  {
    hide Handled, SizedOutputs, SortedTable, BaseLevel, CutAtStops, StopsAt, ScanNext, ScanAfter, Compaction.Valid, Dropped, PreviousSequence,
      GoodOutputs, Concat, Survivors, Shaped, MergedFrom;
    CompactionShape(c);
    ghost var v, level, scan := c.inputVersion, c.level, c.Scanned();
    ghost var stops := Stops(c.grandparents, scan, input, maxGrandparentBytes);
    NothingHandled(v, level, input, smallestSnapshot, allocate, sizeOf, maxOutputFileSize, stops);
    ScanStart(c.grandparents, scan, input, maxGrandparentBytes);
    outputs := [];
    var builder: seq<Entry> := [];
    var currentUserKey: Option<UserKey> := None;
    var lastSequenceForKey: SequenceNumber := MAX_SEQUENCE_NUMBER;
    var n := 0;
    while n < |input|
      invariant 0 <= n <= |input| && c.Valid()
      invariant c.asked.Some? ==> n > 0 && c.asked.value <= input[n - 1].key.user
      invariant currentUserKey == if n == 0 then None else Some(input[n - 1].key.user)
      invariant n > 0 ==> lastSequenceForKey == input[n - 1].key.sequence
      invariant Handled(v, level, input, smallestSnapshot, n, outputs, builder, allocate, sizeOf, maxOutputFileSize, stops)
      invariant builder != [] ==> sizeOf(builder) < maxOutputFileSize
      invariant c.grandparents == old(c.grandparents)
      invariant c.Scanned() == ScanAfter(c.grandparents, scan, input, n, maxGrandparentBytes)
    {
      var e := input[n];
      InOrder(input, n);
      DropRule(v, level, input, n, smallestSnapshot);
      ScanStep(c.grandparents, scan, input, n, maxGrandparentBytes);
      CompactionShape(c);
      var stop := c.ShouldStopBefore(e.key, maxGrandparentBytes);
      if stop && builder != [] {
        outputs := Finish(v, level, input, smallestSnapshot, n, outputs, builder, allocate, maxOutputFileSize, sizeOf, stops);
        builder := [];
      }

      var drop := false;
      if currentUserKey.None? || e.key.user != currentUserKey.value {
        currentUserKey := Some(e.key.user);
        lastSequenceForKey := MAX_SEQUENCE_NUMBER;
      }
      if lastSequenceForKey <= smallestSnapshot {
        drop := true;
      } else if e.key.kind.Deletion? && e.key.sequence <= smallestSnapshot {
        drop := c.IsBaseLevelForKey(e.key.user);
      }
      lastSequenceForKey := e.key.sequence;

      KeepOrDrop(v, level, input, smallestSnapshot, n, outputs, builder, allocate, sizeOf, maxOutputFileSize, stops);
      n := n + 1;
      if !drop {
        builder := builder + [e];
        if sizeOf(builder) >= maxOutputFileSize {
          outputs := Finish(v, level, input, smallestSnapshot, n, outputs, builder, allocate, maxOutputFileSize, sizeOf, stops);
          builder := [];
        }
      }
    }
    if builder != [] {
      outputs := Finish(v, level, input, smallestSnapshot, n, outputs, builder, allocate, maxOutputFileSize, sizeOf, stops);
    }
    AllHandled(v, level, input, smallestSnapshot, outputs, allocate, sizeOf, maxOutputFileSize, stops);
  }

  // Everything before position `n` has been handled: kept in order, in tables that are big
  // enough and end where they have to.
  ghost predicate Handled(v: Version, level: nat, input: seq<Entry>, smallestSnapshot: SequenceNumber, n: nat, outputs: seq<FileMetaData>,
                          builder: seq<Entry>, allocate: nat -> nat, sizeOf: seq<Entry> -> nat, max: nat, stops: seq<bool>)
    requires |v.files| == NUM_LEVELS && n <= |input|
  {
    && Progress(v, level, input, smallestSnapshot, n, outputs, builder, allocate)
    && SizedOutputs(outputs, sizeOf, max) && Growing(builder, sizeOf, max)
    && CutSoFar(input, stops, outputs, builder, n, sizeOf, max)
  }

  lemma {:induction false} NothingHandled(v: Version, level: nat, input: seq<Entry>, smallestSnapshot: SequenceNumber,
                                          allocate: nat -> nat, sizeOf: seq<Entry> -> nat, max: nat, stops: seq<bool>)
    requires |v.files| == NUM_LEVELS
    ensures Handled(v, level, input, smallestSnapshot, 0, [], [], allocate, sizeOf, max, stops)
  {
    NothingCut(input, stops, sizeOf, max);
  }

  lemma {:induction false} KeepOrDrop(v: Version, level: nat, input: seq<Entry>, smallestSnapshot: SequenceNumber, n: nat,
                                      outputs: seq<FileMetaData>, builder: seq<Entry>, allocate: nat -> nat, sizeOf: seq<Entry> -> nat,
                                      max: nat, stops: seq<bool>)
    requires |v.files| == NUM_LEVELS && SortedTable(input) && n < |input| == |stops|
    requires Handled(v, level, input, smallestSnapshot, n, outputs, builder, allocate, sizeOf, max, stops)
    requires builder != [] ==> !stops[n] && sizeOf(builder) < max
    ensures Dropped(v, level, input, n, smallestSnapshot) ==>
              Handled(v, level, input, smallestSnapshot, n + 1, outputs, builder, allocate, sizeOf, max, stops)
    ensures !Dropped(v, level, input, n, smallestSnapshot) ==>
              Handled(v, level, input, smallestSnapshot, n + 1, outputs, builder + [input[n]], allocate, sizeOf, max, stops)
  {
    hide Progress, SizedOutputs, Growing, SortedTable, CutSoFar, Dropped;
    Keep(v, level, input, smallestSnapshot, n, outputs, builder, allocate);
    NotCut(input, stops, outputs, builder, n, sizeOf, max);
    Extend(builder, input[n], sizeOf, max);
  }

  lemma {:induction false} AllHandled(v: Version, level: nat, input: seq<Entry>, smallestSnapshot: SequenceNumber, outputs: seq<FileMetaData>,
                                      allocate: nat -> nat, sizeOf: seq<Entry> -> nat, max: nat, stops: seq<bool>)
    requires |v.files| == NUM_LEVELS && Handled(v, level, input, smallestSnapshot, |input|, outputs, [], allocate, sizeOf, max, stops)
    requires SortedTable(input)
    ensures MergedFrom(v, level, input, Concat(outputs), smallestSnapshot)
    ensures Concat(outputs) == Survivors(v, level, input, smallestSnapshot, |input|)
    ensures GoodOutputs(outputs, allocate) && SizedOutputs(outputs, sizeOf, max) && CutAtStops(input, stops, outputs, sizeOf, max)
  {
    assert Concat(outputs) + [] == Concat(outputs);
    SurvivorsAreLeast(v, level, input, smallestSnapshot);
  }

  lemma {:induction false} CompactionShape(c: Compaction)
    requires c.Valid()
    ensures |c.inputVersion.files| == NUM_LEVELS && ScanFits(c.Scanned(), c.grandparents)
  {
  }

  lemma {:induction false} ScanStart(files: Level, s: Scan, input: seq<Entry>, limit: nat)
    requires ScanFits(s, files)
    ensures ScanAfter(files, s, input, 0, limit) == s
  {
  }

  lemma {:induction false} ScanStep(files: Level, s: Scan, input: seq<Entry>, n: nat, limit: nat)
    requires ScanFits(s, files) && n < |input|
    ensures var t := ScanAfter(files, s, input, n, limit);
      && Stops(files, s, input, limit)[n] == StopsAt(files, t, input[n].key, limit)
      && ScanAfter(files, s, input, n + 1, limit) == ScanNext(files, t, input[n].key, limit)
  {
    hide StopsAt, ScanNext;
  }

  // What the loop has to know of the entry before.
  lemma {:induction false} DropRule(v: Version, level: nat, input: seq<Entry>, n: nat, smallestSnapshot: SequenceNumber)
    requires |v.files| == NUM_LEVELS && n < |input|
    ensures var previous := if n > 0 && input[n - 1].key.user == input[n].key.user then input[n - 1].key.sequence else MAX_SEQUENCE_NUMBER;
      var e := input[n].key;
      Dropped(v, level, input, n, smallestSnapshot) ==
        (previous <= smallestSnapshot || (e.kind.Deletion? && e.sequence <= smallestSnapshot && BaseLevel(v, level, e.user)))
  {
  }

  lemma {:induction false} InOrder(input: seq<Entry>, n: nat)
    requires SortedTable(input) && n < |input|
    ensures n > 0 ==> input[n - 1].key.user <= input[n].key.user
  {
    assert n > 0 ==> Less(input[n - 1].key, input[n].key);
  }

  // FinishCompactionOutputFile: the table under construction becomes an output.
  method Finish(ghost v: Version, ghost level: nat, ghost input: seq<Entry>, ghost smallestSnapshot: SequenceNumber, ghost n: nat,
                outputs: seq<FileMetaData>, builder: seq<Entry>, allocate: nat -> nat, maxOutputFileSize: nat, sizeOf: seq<Entry> -> nat,
                ghost stops: seq<bool>)
    returns (r: seq<FileMetaData>)
    requires |v.files| == NUM_LEVELS && n <= |input| && SortedTable(input) && builder != []
    requires Handled(v, level, input, smallestSnapshot, n, outputs, builder, allocate, sizeOf, maxOutputFileSize, stops)
    requires sizeOf(builder) >= maxOutputFileSize || (n < |stops| && stops[n]) || n >= |stops|
    ensures Handled(v, level, input, smallestSnapshot, n, r, [], allocate, sizeOf, maxOutputFileSize, stops)
  {
    hide BaseLevel, SortedTable, Survivors, FileMetaData.Valid, CutSoFar, CutAtStops;
    SurvivorsSorted(v, level, input, smallestSnapshot, n);
    var out := FileMetaData(allocate(|outputs|), sizeOf(builder), builder[0].key, builder[|builder| - 1].key, builder);
    r := outputs + [out];
    FinishOutput(outputs, allocate, builder, out);
    CutHere(input, stops, outputs, builder, n, sizeOf, maxOutputFileSize, out);
    assert Concat(r) + [] == Concat(r);
  }
}
