/**
 A version of the tree: the table files of every level (db/version_set.h), the
 searches over one level, and point lookup (db/version_set.cc).  A version is never
 changed once it has been saved, so it is a value here; `table` is what the file
 named by the metadata holds.
 */
module Versions {
  import opened Wrappers
  import opened DbFormat
  import opened Views

  const NUM_LEVELS := 7
  const MAX_MEM_COMPACT_LEVEL := 2

  datatype FileMetaData = FileMetaData(
    number: nat,
    fileSize: nat,
    smallest: InternalKey,
    largest: InternalKey,
    table: seq<Entry>)
  {
    predicate Valid() {
      && table != []
      && SortedTable(table)
      && smallest == table[0].key
      && largest == table[|table| - 1].key
    }
  }

  type Level = seq<FileMetaData>

  datatype Version = Version(files: seq<Level>)

  // ----- what a well-formed version promises -----

  predicate ValidFiles(files: Level) {
    forall f :: f in files ==> f.Valid()
  }

  predicate SortedLevel(files: Level) {
    forall i, j :: 0 <= i < j < |files| ==> Less(files[i].largest, files[j].smallest)
  }

  // Everything `f` knows about a user key is newer than anything `g` knows about it.
  ghost predicate NewerThan(f: seq<Entry>, g: seq<Entry>) {
    forall e, o :: e in f && o in g && e.key.user == o.key.user ==> e.key.sequence > o.key.sequence
  }

  // Level-0 files are ordered by age: the larger number is the newer file.
  ghost predicate AgedByNumber(files: Level) {
    && (forall i, j :: 0 <= i < j < |files| ==> files[i].number != files[j].number)
    && (forall f, g :: f in files && g in files && f.number > g.number ==> NewerThan(f.table, g.table))
  }

  ghost predicate Layered(v: Version)
    requires |v.files| == NUM_LEVELS
  {
    forall i, j, f, g :: 0 <= i < j < NUM_LEVELS && f in v.files[i] && g in v.files[j]
      ==> NewerThan(f.table, g.table)
  }

  ghost predicate Shaped(v: Version) {
    && |v.files| == NUM_LEVELS
    && (forall i :: 0 <= i < NUM_LEVELS ==> ValidFiles(v.files[i]))
    && (forall i :: 1 <= i < NUM_LEVELS ==> SortedLevel(v.files[i]))
  }

  ghost predicate WellFormed(v: Version) {
    && Shaped(v)
    && AgedByNumber(v.files[0])
    && Layered(v)
  }

  ghost function LevelEntries(files: Level): set<Entry> {
    set f, e | f in files && e in f.table :: e
  }

  ghost function AllEntries(v: Version): set<Entry> {
    set i, e | 0 <= i < |v.files| && e in LevelEntries(v.files[i]) :: e
  }

  lemma {:induction false} EntryHasFile(v: Version, e: Entry) returns (i: nat, f: FileMetaData)
    requires e in AllEntries(v)
    ensures i < |v.files| && f in v.files[i] && e in f.table
  {
    i :| 0 <= i < |v.files| && e in LevelEntries(v.files[i]);
    f :| f in v.files[i] && e in f.table;
  }

  // ----- ranges of user keys; None is the null bound -----

  predicate AfterFile(key: Option<UserKey>, f: FileMetaData) {
    key.Some? && key.value > f.largest.user
  }

  predicate BeforeFile(key: Option<UserKey>, f: FileMetaData) {
    key.Some? && key.value < f.smallest.user
  }

  predicate Overlaps(f: FileMetaData, begin: Option<UserKey>, end: Option<UserKey>) {
    !AfterFile(begin, f) && !BeforeFile(end, f)
  }

  lemma {:induction false} EntryInRange(f: FileMetaData, e: Entry)
    requires f.Valid() && e in f.table
    ensures AtMost(f.smallest, e.key) && AtMost(e.key, f.largest)
    ensures f.smallest.user <= e.key.user <= f.largest.user
  {
    var i :| 0 <= i < |f.table| && f.table[i] == e;
    assert i == 0 || Less(f.table[0].key, f.table[i].key);
    assert i == |f.table| - 1 || Less(f.table[i].key, f.table[|f.table| - 1].key);
  }

  lemma {:induction false} FileIsOrdered(f: FileMetaData)
    requires f.Valid()
    ensures AtMost(f.smallest, f.largest) && f.smallest.user <= f.largest.user
  {
    EntryInRange(f, f.table[0]);
  }

  // ----- binary search over a level -----

  method FindFile(files: Level, key: InternalKey) returns (right: nat)
    requires ValidFiles(files) && SortedLevel(files)
    ensures right <= |files|
    ensures forall i :: 0 <= i < right ==> Less(files[i].largest, key)
    ensures forall i :: right <= i < |files| ==> AtMost(key, files[i].largest)
  {
    var left := 0;
    right := |files|;
    while left < right
      invariant 0 <= left <= right <= |files|
      invariant forall i :: 0 <= i < left ==> Less(files[i].largest, key)
      invariant forall i :: right <= i < |files| ==> AtMost(key, files[i].largest)
    {
      var mid := (left + right) / 2;
      var f := files[mid];
      FileIsOrdered(f);
      if Compare(f.largest, key) < 0 {
        left := mid + 1;
      } else {
        forall i | mid < i < |files|
          ensures AtMost(key, files[i].largest)
        {
          FileIsOrdered(files[i]);
        }
        right := mid;
      }
    }
  }

  method SomeFileOverlapsRange(disjointSorted: bool, files: Level,
                               smallest: Option<UserKey>, largest: Option<UserKey>)
    returns (overlap: bool)
    requires ValidFiles(files)
    requires disjointSorted ==> SortedLevel(files)
    ensures overlap <==> exists f :: f in files && Overlaps(f, smallest, largest)
  {
    if !disjointSorted {
      for i := 0 to |files|
        invariant forall j :: 0 <= j < i ==> !Overlaps(files[j], smallest, largest)
      {
        var f := files[i];
        if AfterFile(smallest, f) || BeforeFile(largest, f) {
        } else {
          assert f in files && Overlaps(f, smallest, largest);
          return true;
        }
      }
      return false;
    }
    var index := 0;
    if smallest.Some? {
      var smallKey := SeekKey(smallest.value, MAX_SEQUENCE_NUMBER);
      index := FindFile(files, smallKey);
      forall i | 0 <= i < |files|
        ensures AfterFile(smallest, files[i]) <==> i < index
      {
        SeekKeySplitsByVisibility(files[i].largest, smallest.value, MAX_SEQUENCE_NUMBER);
      }
    }
    if index >= |files| {
      return false;
    }
    forall i | index < i < |files|
      ensures files[index].smallest.user <= files[i].smallest.user
    {
      FileIsOrdered(files[index]);
    }
    overlap := !BeforeFile(largest, files[index]);
    assert overlap ==> Overlaps(files[index], smallest, largest);
  }

  // ----- lookup -----

  // The entry a table search for `key` stops at.
  function FirstAtOrAfter(t: seq<Entry>, key: InternalKey): (r: Option<Entry>)
    ensures r.Some? ==> r.value in t && AtMost(key, r.value.key)
  {
    if t == [] then None
    else if Compare(t[0].key, key) >= 0 then Some(t[0])
    else FirstAtOrAfter(t[1..], key)
  }

  lemma {:induction false} FirstAtOrAfterIsFirst(t: seq<Entry>, key: InternalKey, e: Entry)
    requires SortedTable(t) && e in t && AtMost(key, e.key)
    ensures FirstAtOrAfter(t, key).Some?
    ensures AtMost(FirstAtOrAfter(t, key).value.key, e.key)
  {
    if Compare(t[0].key, key) >= 0 {
      var i :| 0 <= i < |t| && t[i] == e;
      assert i == 0 || Less(t[0].key, t[i].key);
    } else {
      assert e in t[1..];
      FirstAtOrAfterIsFirst(t[1..], key, e);
    }
  }

  // What is kept of a search: the entry it stops at, if it is of the user key.
  function SearchTable(t: seq<Entry>, k: UserKey, n: SequenceNumber): Option<Entry> {
    match FirstAtOrAfter(t, SeekKey(k, n))
    case Some(e) => if e.key.user == k then Some(e) else None
    case None => None
  }

  ghost predicate NewestIn(t: seq<Entry>, k: UserKey, n: SequenceNumber, e: Entry) {
    && e in t && e.key.user == k && e.key.sequence <= n
    && forall o :: o in t && o.key.user == k && o.key.sequence <= n ==> o.key.sequence <= e.key.sequence
  }

  ghost predicate HidesKey(t: seq<Entry>, k: UserKey, n: SequenceNumber) {
    forall o :: o in t && o.key.user == k ==> o.key.sequence > n
  }

  lemma {:induction false} SearchTableFindsNewest(t: seq<Entry>, k: UserKey, n: SequenceNumber)
    requires SortedTable(t)
    ensures SearchTable(t, k, n).Some? ==> NewestIn(t, k, n, SearchTable(t, k, n).value)
    ensures SearchTable(t, k, n).None? ==> HidesKey(t, k, n)
  {
    var target := SeekKey(k, n);
    var r := FirstAtOrAfter(t, target);
    if r.Some? {
      SeekKeySplitsByVisibility(r.value.key, k, n);
    }
    forall o | o in t && o.key.user == k && o.key.sequence <= n
      ensures r.Some? && r.value.key.user == k && o.key.sequence <= r.value.key.sequence
    {
      SeekKeySplitsByVisibility(o.key, k, n);
      FirstAtOrAfterIsFirst(t, target, o);
    }
  }

  lemma {:induction false} FileSearchFindsNewest(f: FileMetaData, k: UserKey, n: SequenceNumber)
    requires f.Valid()
    ensures SearchTable(f.table, k, n).Some? ==> NewestIn(f.table, k, n, SearchTable(f.table, k, n).value)
    ensures SearchTable(f.table, k, n).None? ==> HidesKey(f.table, k, n)
  {
    SearchTableFindsNewest(f.table, k, n);
  }

  function InsertNewestFirst(f: FileMetaData, files: Level): Level {
    if files == [] || f.number > files[0].number then [f] + files
    else [files[0]] + InsertNewestFirst(f, files[1..])
  }

  function SortNewestFirst(files: Level): Level {
    if files == [] then [] else InsertNewestFirst(files[0], SortNewestFirst(files[1..]))
  }

  predicate NewestFirst(files: Level) {
    forall i, j :: 0 <= i < j < |files| ==> files[i].number >= files[j].number
  }

  lemma {:induction false} InsertKeepsOrder(f: FileMetaData, files: Level)
    requires NewestFirst(files)
    ensures NewestFirst(InsertNewestFirst(f, files))
    ensures forall g :: g in InsertNewestFirst(f, files) <==> g == f || g in files
  {
    if files == [] || f.number > files[0].number {
    } else {
      InsertKeepsOrder(f, files[1..]);
      assert files == [files[0]] + files[1..];
      var r := InsertNewestFirst(f, files[1..]);
      forall i | 0 <= i < |r|
        ensures r[i].number <= files[0].number
      {
        assert r[i] in r;
        assert r[i] == f || r[i] in files[1..];
      }
    }
  }

  lemma {:induction false} SortIsNewestFirst(files: Level)
    ensures NewestFirst(SortNewestFirst(files))
    ensures forall g :: g in SortNewestFirst(files) <==> g in files
  {
    if files != [] {
      SortIsNewestFirst(files[1..]);
      InsertKeepsOrder(files[0], SortNewestFirst(files[1..]));
      assert files == [files[0]] + files[1..];
    }
  }

  // The files of level 0 whose range covers the user key.
  method CoveringFiles(files: Level, k: UserKey) returns (tmp: Level)
    ensures forall f :: f in tmp <==> f in files && f.smallest.user <= k <= f.largest.user
  {
    tmp := [];
    for i := 0 to |files|
      invariant forall f :: f in tmp <==> f in files[..i] && f.smallest.user <= k <= f.largest.user
    {
      var f := files[i];
      if k >= f.smallest.user && k <= f.largest.user {
        tmp := tmp + [f];
      }
    }
    assert files[..|files|] == files;
  }

  // Files of a level that cannot show `k` at `n`.
  ghost predicate LevelHides(files: Level, k: UserKey, n: SequenceNumber) {
    forall f :: f in files ==> HidesKey(f.table, k, n)
  }

  // One level below 0: only the file that binary search lands on can matter, even
  // when the entries of `k` continue into the following files.
  lemma {:induction false} SortedLevelSearch(files: Level, k: UserKey, n: SequenceNumber, index: nat)
    requires ValidFiles(files) && SortedLevel(files) && index <= |files|
    requires forall i :: 0 <= i < index ==> Less(files[i].largest, SeekKey(k, n))
    requires forall i :: index <= i < |files| ==> AtMost(SeekKey(k, n), files[i].largest)
    ensures forall i, o :: 0 <= i < |files| && i != index && o in files[i].table && o.key.user == k && o.key.sequence <= n
              ==> index < i && exists e :: e in files[index].table && e.key.user == k && n >= e.key.sequence >= o.key.sequence
  {
    forall i, o | 0 <= i < |files| && i != index && o in files[i].table && o.key.user == k && o.key.sequence <= n
      ensures index < i && exists e :: e in files[index].table && e.key.user == k && n >= e.key.sequence >= o.key.sequence
    {
      EntryInRange(files[i], o);
      SeekKeySplitsByVisibility(o.key, k, n);
      assert index < i && files[index] in files && files[index].Valid();
      var last := files[index].table[|files[index].table| - 1];
      SeekKeySplitsByVisibility(last.key, k, n);
      assert Less(files[index].largest, files[i].smallest);
      assert last.key.user == k && last in files[index].table;
    }
  }

  method SearchSortedLevel(files: Level, k: UserKey, n: SequenceNumber) returns (r: Option<Entry>)
    requires ValidFiles(files) && SortedLevel(files)
    ensures r.Some? ==> exists f :: f in files && NewestIn(f.table, k, n, r.value)
    ensures r.Some? ==> forall f, o :: f in files && o in f.table && o.key.user == k && o.key.sequence <= n
                          ==> o.key.sequence <= r.value.key.sequence
    ensures r.None? ==> LevelHides(files, k, n)
  {
    var index := FindFile(files, SeekKey(k, n));
    SortedLevelSearch(files, k, n, index);
    r := None;
    if index < |files| {
      var f := files[index];
      if k >= f.smallest.user {
        FileSearchFindsNewest(f, k, n);
        r := SearchTable(f.table, k, n);
      } else {
        forall o | o in f.table
          ensures o.key.user > k
        {
          EntryInRange(f, o);
        }
      }
    }
  }

  method SearchLevel0(files: Level, k: UserKey, n: SequenceNumber) returns (r: Option<Entry>)
    requires ValidFiles(files) && AgedByNumber(files)
    ensures r.Some? ==> exists f :: f in files && NewestIn(f.table, k, n, r.value)
    ensures r.Some? ==> forall f, o :: f in files && o in f.table && o.key.user == k && o.key.sequence <= n
                          ==> o.key.sequence <= r.value.key.sequence
    ensures r.None? ==> LevelHides(files, k, n)
  {
    hide SearchTable, FileMetaData.Valid;
    var covering := CoveringFiles(files, k);
    var tmp := SortNewestFirst(covering);
    SortIsNewestFirst(covering);
    forall f | f in files && f !in tmp
      ensures HidesKey(f.table, k, n)
    {
      forall o | o in f.table
        ensures o.key.user != k
      {
        EntryInRange(f, o);
      }
    }
    for i := 0 to |tmp|
      invariant forall j :: 0 <= j < i ==> HidesKey(tmp[j].table, k, n)
    {
      var f := tmp[i];
      assert f in tmp;
      FileSearchFindsNewest(f, k, n);
      r := SearchTable(f.table, k, n);
      if r.Some? {
        forall g, o | g in files && o in g.table && o.key.user == k && o.key.sequence <= n
          ensures o.key.sequence <= r.value.key.sequence
        {
          assert g in tmp;
          var j :| 0 <= j < |tmp| && tmp[j] == g;
          assert j >= i && g.number <= f.number;
          if g.number == f.number {
            assert g == f;
          } else {
            assert NewerThan(f.table, g.table);
          }
        }
        return;
      }
    }
    r := None;
  }

  /**
   Version::Get.  Levels are searched in order and the first hit is final; the result
   is exactly what the specification shows, over all entries of all levels.
   */
  method Get(v: Version, k: UserKey, n: SequenceNumber) returns (found: bool, r: Option<Bytes>)
    requires WellFormed(v) && UniqueSequences(AllEntries(v))
    ensures r == View(AllEntries(v), k, n)
    ensures found <==> exists e :: Candidate(AllEntries(v), k, n, e)
  {
    for level := 0 to NUM_LEVELS
      invariant forall i :: 0 <= i < level ==> LevelHides(v.files[i], k, n)
    {
      var hit;
      if level == 0 {
        hit := SearchLevel0(v.files[0], k, n);
      } else {
        hit := SearchSortedLevel(v.files[level], k, n);
      }
      if hit.Some? {
        var e := hit.value;
        LevelHitIsNewest(v, level, k, n, e);
        ViewOfNewest(AllEntries(v), k, n, e);
        return true, Payload(e);
      }
    }
    forall e | Candidate(AllEntries(v), k, n, e)
      ensures false
    {
      var i, f := EntryHasFile(v, e);
    }
    return false, None;
  }

  lemma {:induction false} LevelHitIsNewest(v: Version, level: nat, k: UserKey, n: SequenceNumber, e: Entry)
    requires WellFormed(v) && level < NUM_LEVELS
    requires forall i :: 0 <= i < level ==> LevelHides(v.files[i], k, n)
    requires exists f :: f in v.files[level] && NewestIn(f.table, k, n, e)
    requires forall f, o :: f in v.files[level] && o in f.table && o.key.user == k && o.key.sequence <= n
               ==> o.key.sequence <= e.key.sequence
    ensures Newest(AllEntries(v), k, n, e)
  {
    var f :| f in v.files[level] && NewestIn(f.table, k, n, e);
    assert e in LevelEntries(v.files[level]);
    forall o | Candidate(AllEntries(v), k, n, o)
      ensures o.key.sequence <= e.key.sequence
    {
      var i, g := EntryHasFile(v, o);
      if i > level {
        assert NewerThan(f.table, g.table);
      }
    }
  }
}
