/**
 What a compaction does to the views of readers.  The merge rules of
 db/db_impl.cc:930-963 are proved to keep every view at or after the smallest snapshot
 exactly when no deletion that they drop was hiding a value in the next, unselected
 file of the output level.
 */
module CompactionMeaning {
  import opened Wrappers
  import opened DbFormat
  import opened Views
  import opened Versions
  import opened CompactionInputs
  import opened Compactions
  import opened CompactionPicker
  import opened MergeRules

  ghost predicate SelectedAt(level: nat, in0: Level, in1: Level, l: nat, f: FileMetaData) {
    (l == level && f in in0) || (l == level + 1 && f in in1)
  }

  // `input` is the sorted merge of the chosen files.
  ghost predicate IsMerge(input: seq<Entry>, in0: Level, in1: Level) {
    && SortedTable(input)
    && forall e :: e in input <==> e in LevelEntries(in0) || e in LevelEntries(in1)
  }

  // The entries of the version that the compaction does not touch.
  ghost function Untouched(v: Version, level: nat, in0: Level, in1: Level): set<Entry> {
    set l, f, e | 0 <= l < |v.files| && f in v.files[l] && !SelectedAt(level, in0, in1, l, f) && e in f.table :: e
  }

  // A compaction, together with the entries that sit above the version in memory.
  datatype Setting = Setting(v: Version, level: nat, in0: Level, in1: Level, input: seq<Entry>, upper: set<Entry>,
                             smallestSnapshot: SequenceNumber)
  {
    ghost predicate Valid() {
      && WellFormed(v)
      && Selected(v, level, in0, in1)
      && IsMerge(input, in0, in1)
      && UniqueSequences(upper + AllEntries(v))
      && Above(upper, AllEntries(v))
      && smallestSnapshot < MAX_SEQUENCE_NUMBER
    }

    ghost function Before(): set<Entry> {
      upper + AllEntries(v)
    }

    ghost function AsMerge(): Merge {
      Merge(v, level, input, upper + Untouched(v, level, in0, in1), smallestSnapshot)
    }

    ghost function After(): set<Entry>
      requires |v.files| == NUM_LEVELS
    {
      AsMerge().After()
    }

    // The first file of the output level behind the chosen ones, when it continues
    // their last user key.
    ghost predicate NextFile(g: FileMetaData)
      requires level + 1 < |v.files|
    {
      exists hi :: IsLargestKey(in1, hi) && IsSmallestBoundary(v.files[level + 1], hi, g)
    }

    // The deletion is dropped while it is the visible state of its user key, although
    // that file starts with a value of the same key.
    ghost predicate Reveals(t: Entry, g: FileMetaData)
      requires level + 1 < |v.files| == NUM_LEVELS
    {
      && AsMerge().DroppedDeletion(t)
      && Newest(Before(), t.key.user, smallestSnapshot, t)
      && NextFile(g) && g.smallest.user == t.key.user
      && g.table != [] && g.table[0].key.kind.Value?
    }

    ghost predicate Exposed()
      requires level + 1 < |v.files| == NUM_LEVELS
    {
      exists t, g :: Reveals(t, g)
    }
  }

  ghost predicate Above(upper: set<Entry>, lower: set<Entry>) {
    forall e, o :: e in upper && o in lower && e.key.user == o.key.user ==> e.key.sequence > o.key.sequence
  }

  // ----- which file an entry is in -----

  lemma {:induction false} UntouchedHasFile(v: Version, level: nat, in0: Level, in1: Level, e: Entry)
    returns (l: nat, f: FileMetaData)
    requires e in Untouched(v, level, in0, in1)
    ensures l < |v.files| && f in v.files[l] && e in f.table && !SelectedAt(level, in0, in1, l, f)
  {
    l, f :| 0 <= l < |v.files| && f in v.files[l] && !SelectedAt(level, in0, in1, l, f) && e in f.table;
  }

  lemma {:induction false} FileIsValid(v: Version, l: nat, f: FileMetaData)
    requires Shaped(v) && l < NUM_LEVELS && f in v.files[l]
    ensures f.Valid()
  {
  }

  lemma {:induction false} FileEntryIsThere(v: Version, l: nat, f: FileMetaData, e: Entry)
    requires l < |v.files| && f in v.files[l] && e in f.table
    ensures e in AllEntries(v)
  {
    assert e in LevelEntries(v.files[l]);
  }

  lemma {:induction false} ChosenFilesAreThere(v: Version, level: nat, in0: Level, in1: Level)
    requires Selected(v, level, in0, in1)
    ensures forall f :: f in in0 ==> f in v.files[level]
    ensures forall f :: f in in1 ==> f in v.files[level + 1]
  {
    var lo, hi := SelectedRange(v, level, in0, in1);
  }

  lemma {:induction false} SelectedRange(v: Version, level: nat, in0: Level, in1: Level) returns (lo: InternalKey, hi: InternalKey)
    requires Selected(v, level, in0, in1)
    ensures IsRange(in0, lo, hi) && ExactlyMeets(v.files[level + 1], lo.user, hi.user, in1)
  {
    lo, hi :| IsRange(in0, lo, hi) && ExactlyMeets(v.files[level + 1], lo.user, hi.user, in1);
  }

  lemma {:induction false} InputHasFile(v: Version, level: nat, in0: Level, in1: Level, input: seq<Entry>, e: Entry)
    returns (l: nat, f: FileMetaData)
    requires Selected(v, level, in0, in1) && IsMerge(input, in0, in1) && e in input
    ensures l == level || l == level + 1
    ensures f in v.files[l] && e in f.table
    ensures f in (if l == level then in0 else in1)
  {
    ChosenFilesAreThere(v, level, in0, in1);
    if e in LevelEntries(in0) {
      l := level;
      f :| f in in0 && e in f.table;
    } else {
      l := level + 1;
      f :| f in in1 && e in f.table;
    }
  }

  lemma {:induction false} OneFilePerEntry(v: Version, l: nat, f: FileMetaData, m: nat, h: FileMetaData, t: Entry)
    requires WellFormed(v) && l < NUM_LEVELS && m < NUM_LEVELS
    requires f in v.files[l] && h in v.files[m] && t in f.table && t in h.table
    ensures l == m && f == h
  {
    assert l == m by {
      assert l < m ==> NewerThan(f.table, h.table);
      assert m < l ==> NewerThan(h.table, f.table);
    }
    if l == 0 {
      assert f.number > h.number ==> NewerThan(f.table, h.table);
      assert h.number > f.number ==> NewerThan(h.table, f.table);
    } else {
      EntryInRange(f, t);
      EntryInRange(h, t);
      SortedFilesAreOrdered(v.files[l], f, h);
    }
  }

  lemma {:induction false} SortedFilesAreOrdered(files: Level, f: FileMetaData, h: FileMetaData)
    requires SortedLevel(files) && f in files && h in files
    ensures f == h || Less(f.largest, h.smallest) || Less(h.largest, f.smallest)
  {
    var i :| 0 <= i < |files| && files[i] == f;
    var j :| 0 <= j < |files| && files[j] == h;
    if i < j {
      assert Less(files[i].largest, files[j].smallest);
    } else if j < i {
      assert Less(files[j].largest, files[i].smallest);
    }
  }

  lemma {:induction false} SplitEntries(v: Version, level: nat, in0: Level, in1: Level, input: seq<Entry>)
    requires WellFormed(v) && Selected(v, level, in0, in1) && IsMerge(input, in0, in1)
    ensures AllEntries(v) == Untouched(v, level, in0, in1) + Contents(input)
    ensures forall e :: e in Untouched(v, level, in0, in1) ==> e !in input
  {
    hide WellFormed, Selected, SortedTable, AllEntries, Untouched, IsMerge;
    var untouched := Untouched(v, level, in0, in1);
    forall e | e in AllEntries(v)
      ensures e in untouched || e in input
    {
      EntryIsSomewhere(v, level, in0, in1, input, e);
    }
    forall e | e in untouched
      ensures e in AllEntries(v) && e !in input
    {
      UntouchedIsApart(v, level, in0, in1, input, e);
    }
    forall e | e in input
      ensures e in AllEntries(v)
    {
      InputIsThere(v, level, in0, in1, input, e);
    }
  }

  lemma {:induction false} EntryIsSomewhere(v: Version, level: nat, in0: Level, in1: Level, input: seq<Entry>, e: Entry)
    requires IsMerge(input, in0, in1) && e in AllEntries(v)
    ensures e in Untouched(v, level, in0, in1) || e in input
  {
    hide SortedTable, AllEntries;
    var l, f := EntryHasFile(v, e);
    if SelectedAt(level, in0, in1, l, f) {
      assert e in LevelEntries(in0) || e in LevelEntries(in1);
    } else {
      UntouchedEntry(v, level, in0, in1, l, f, e);
    }
  }

  lemma {:induction false} InputIsThere(v: Version, level: nat, in0: Level, in1: Level, input: seq<Entry>, e: Entry)
    requires WellFormed(v) && Selected(v, level, in0, in1) && IsMerge(input, in0, in1) && e in input
    ensures e in AllEntries(v)
  {
    hide WellFormed, Selected, IsMerge, AllEntries;
    SelectionFacts(v, level, in0, in1);
    var l, f := InputHasFile(v, level, in0, in1, input, e);
    FileEntryIsThere(v, l, f, e);
  }

  lemma {:induction false} UntouchedIsApart(v: Version, level: nat, in0: Level, in1: Level, input: seq<Entry>, e: Entry)
    requires WellFormed(v) && Selected(v, level, in0, in1) && IsMerge(input, in0, in1)
    requires e in Untouched(v, level, in0, in1)
    ensures e in AllEntries(v) && e !in input
  {
    hide WellFormed, Selected, IsMerge, AllEntries, Untouched, Layered, Shaped, Sealed, ValidFiles, SortedLevel;
    SelectionFacts(v, level, in0, in1);
    var l, f := UntouchedHasFile(v, level, in0, in1, e);
    FileEntryIsThere(v, l, f, e);
    if e in input {
      var m, h := InputHasFile(v, level, in0, in1, input, e);
      OneFilePerEntry(v, l, f, m, h, e);
    }
  }

  lemma {:induction false} SettingFacts(s: Setting)
    requires s.Valid()
    ensures s.level + 1 < |s.v.files| == NUM_LEVELS
    ensures WellFormed(s.v) && Selected(s.v, s.level, s.in0, s.in1) && IsMerge(s.input, s.in0, s.in1)
    ensures UniqueSequences(s.Before()) && UniqueSequences(AllEntries(s.v)) && Above(s.upper, AllEntries(s.v))
    ensures SortedTable(s.input) && s.smallestSnapshot < MAX_SEQUENCE_NUMBER
    ensures ValidFiles(s.v.files[s.level + 1]) && SortedLevel(s.v.files[s.level + 1])
  {
    hide WellFormed, Selected, IsMerge, ValidFiles, SortedLevel, UniqueSequences, AllEntries;
    SelectionFacts(s.v, s.level, s.in0, s.in1);
    MergeIsSorted(s.input, s.in0, s.in1);
    PartIsUnique(AllEntries(s.v), s.Before());
  }

  lemma {:induction false} SelectionFacts(v: Version, level: nat, in0: Level, in1: Level)
    requires WellFormed(v) && Selected(v, level, in0, in1)
    ensures |v.files| == NUM_LEVELS && level + 1 < NUM_LEVELS
    ensures Shaped(v) && Layered(v) && Sealed(v, level, in0)
    ensures ValidFiles(v.files[level + 1]) && SortedLevel(v.files[level + 1])
  {
    hide ValidFiles, SortedLevel, Layered, AgedByNumber, IsRange, OthersOutside, StartsAt, Continues, ExactlyMeets;
    assert Sealed(v, level, in0) && PreSelected(v, level, in0);
  }

  lemma {:induction false} MergeIsSorted(input: seq<Entry>, in0: Level, in1: Level)
    requires IsMerge(input, in0, in1)
    ensures SortedTable(input)
  {
  }

  lemma {:induction false} SettingIsMerge(s: Setting)
    requires s.Valid()
    ensures s.AsMerge().Valid() && s.AsMerge().Before() == s.Before()
  {
    hide Setting.Valid, WellFormed, Selected, SortedTable, UniqueSequences, IsMerge, AllEntries, Untouched;
    SettingFacts(s);
    SplitEntries(s.v, s.level, s.in0, s.in1, s.input);
    assert s.AsMerge().Before() == s.Before();
    forall e | e in s.input
      ensures e !in s.upper
    {
      assert e in AllEntries(s.v);
    }
  }

  // ----- where older entries of a merged user key can hide -----

  lemma {:induction false} OutsideSharesNothing(f: FileMetaData, lo: UserKey, hi: UserKey, o: Entry)
    requires f.Valid() && o in f.table && !Overlaps(f, Some(lo), Some(hi))
    ensures !(lo <= o.key.user <= hi)
  {
    EntryInRange(f, o);
  }

  lemma {:induction false} InsideRange(in0: Level, lo: InternalKey, hi: InternalKey, f: FileMetaData, t: Entry)
    requires IsRange(in0, lo, hi) && f in in0 && f.Valid() && t in f.table
    ensures lo.user <= t.key.user <= hi.user
  {
    EntryInRange(f, t);
  }

  // Below level 0, a file outside the chosen run holds only newer entries of its keys.
  lemma {:induction false} RunIsComplete(files: Level, in0: Level, lo: InternalKey, hi: InternalKey,
                                         f: FileMetaData, t: Entry, h: FileMetaData, o: Entry)
    requires ValidFiles(files) && SortedLevel(files) && IsRange(in0, lo, hi)
    requires exists a: nat :: StartsAt(in0, files, a)
    requires forall g :: g in files ==> !Continues(g, hi)
    requires f in in0 && t in f.table && h in files && h !in in0 && o in h.table && t.key.user == o.key.user
    ensures Less(o.key, t.key)
  {
    hide SortedTable;
    var a: nat :| StartsAt(in0, files, a);
    var last :| last in in0 && last.largest == hi;
    var i := RunIndex(files, in0, a, f);
    var m := RunIndex(files, in0, a, last);
    var j :| 0 <= j < |files| && files[j] == h;
    EntryInRange(f, t);
    EntryInRange(h, o);
    assert j < a || a + |in0| <= j by {
      assert a <= j < a + |in0| ==> in0[j - a] == h;
    }
    assert a + |in0| <= j ==> Less(hi, h.smallest);
    assert j < a ==> Less(h.largest, f.smallest);
  }

  lemma {:induction false} RunIndex(files: Level, in0: Level, a: nat, f: FileMetaData) returns (i: nat)
    requires StartsAt(in0, files, a) && f in in0
    ensures a <= i < a + |in0| && files[i] == f
  {
    var p :| 0 <= p < |in0| && in0[p] == f;
    i := a + p;
  }

  // In the output level, older entries lie only in files that continue the chosen run.
  lemma {:induction false} OutputRunContinues(files: Level, in1: Level, lo: UserKey, hi: UserKey, largest: InternalKey,
                                              f: FileMetaData, t: Entry, h: FileMetaData, o: Entry)
    requires ValidFiles(files) && SortedLevel(files) && ExactlyMeets(files, lo, hi, in1)
    requires IsLargestKey(in1, largest)
    requires f in in1 && t in f.table && h in files && h !in in1 && o in h.table
    requires t.key.user == o.key.user && Less(t.key, o.key)
    ensures Continues(h, largest) && largest.user == t.key.user
  {
    var last :| last in in1 && last.largest == largest;
    EntryInRange(f, t);
    EntryInRange(h, o);
    SortedFilesAreOrdered(files, f, h);
    FileIsOrdered(h);
    FileIsOrdered(last);
    SortedFilesAreOrdered(files, last, h);
    assert Less(f.largest, h.smallest);
    assert BeforeFile(Some(hi), h);
    assert Less(largest, h.smallest);
  }

  /**
   Once a deletion of the input is dropped, the only older entries of its user key that
   can surface are in the files that continue the chosen run of the output level.
   */
  lemma {:induction false} OlderEntriesAreNext(v: Version, level: nat, in0: Level, in1: Level, input: seq<Entry>, t: Entry, o: Entry)
    returns (largest: InternalKey, h: FileMetaData)
    requires WellFormed(v) && Selected(v, level, in0, in1) && IsMerge(input, in0, in1) && UniqueSequences(AllEntries(v))
    requires t in input && BaseLevel(v, level, t.key.user)
    requires o in Untouched(v, level, in0, in1) && o.key.user == t.key.user && o.key.sequence < t.key.sequence
    ensures IsLargestKey(in1, largest) && largest.user == t.key.user
    ensures h in v.files[level + 1] && Continues(h, largest) && o in h.table
  {
    hide WellFormed, Selected, UniqueSequences, IsMerge, Sealed, Shaped, FileMetaData.Valid, ValidFiles, SortedLevel;
    SelectionFacts(v, level, in0, in1);
    var tl, f := InputHasFile(v, level, in0, in1, input, t);
    var ol;
    ol, h := UntouchedHasFile(v, level, in0, in1, o);
    var lo, hi := SelectedRange(v, level, in0, in1);
    FileIsValid(v, tl, f);
    FileIsValid(v, ol, h);
    EntryInRange(h, o);
    assert level <= ol by {
      assert ol < level ==> NewerThan(h.table, f.table);
    }
    assert ol < level + 2 by {
      assert level + 2 <= ol ==> CoversUser(h, t.key.user);
    }
    assert tl == level + 1 && ol == level + 1 by {
      OldEntriesAreInOutputLevel(v, level, in0, in1, lo, hi, tl, f, t, ol, h, o);
    }
    assert f in in1 && h !in in1;
    var lo1;
    lo1, largest := RangeExists(in1);
    OlderSortsAfter(t, o);
    OutputRunContinues(v.files[level + 1], in1, lo.user, hi.user, largest, f, t, h, o);
  }

  lemma {:induction false} OlderSortsAfter(t: Entry, o: Entry)
    requires t.key.user == o.key.user && o.key.sequence < t.key.sequence
    ensures Less(t.key, o.key)
  {
  }

  lemma {:induction false} OldEntriesAreInOutputLevel(
    v: Version, level: nat, in0: Level, in1: Level, lo: InternalKey, hi: InternalKey,
    tl: nat, f: FileMetaData, t: Entry, ol: nat, h: FileMetaData, o: Entry)
    requires Shaped(v) && Layered(v) && Sealed(v, level, in0) && IsRange(in0, lo, hi) && level + 1 < NUM_LEVELS
    requires ExactlyMeets(v.files[level + 1], lo.user, hi.user, in1)
    requires level <= tl <= level + 1 && level <= ol <= level + 1
    requires f in v.files[tl] && t in f.table && f in (if tl == level then in0 else in1)
    requires h in v.files[ol] && o in h.table && !SelectedAt(level, in0, in1, ol, h)
    requires o.key.user == t.key.user && o.key.sequence < t.key.sequence
    ensures tl == level + 1 && ol == level + 1
  {
    hide Sealed, Shaped, IsRange;
    FileIsValid(v, tl, f);
    FileIsValid(v, ol, h);
    assert ol < tl ==> NewerThan(h.table, f.table);
    if tl == level {
      InsideRange(in0, lo, hi, f, t);
      if ol == level + 1 {
        OutsideSharesNothing(h, lo.user, hi.user, o);
      } else {
        InputLevelIsComplete(v, level, in0, lo, hi, f, t, h, o);
      }
    }
  }

  // A file of the input level that was not chosen holds no older entry of a chosen key.
  lemma {:induction false} InputLevelIsComplete(v: Version, level: nat, in0: Level, lo: InternalKey, hi: InternalKey,
                                                f: FileMetaData, t: Entry, h: FileMetaData, o: Entry)
    requires Sealed(v, level, in0) && IsRange(in0, lo, hi)
    requires f in in0 && t in f.table && h in v.files[level] && h !in in0 && o in h.table && t.key.user == o.key.user
    ensures Less(o.key, t.key)
  {
    hide FileMetaData.Valid, ValidFiles, SortedLevel, Continues, StartsAt, IsRange;
    FileIsValid(v, level, f);
    FileIsValid(v, level, h);
    InsideRange(in0, lo, hi, f, t);
    if level == 0 {
      OutsideSharesNothing(h, lo.user, hi.user, o);
    } else {
      RunIsComplete(v.files[level], in0, lo, hi, f, t, h, o);
    }
  }

  // ... and the newest of those older entries is the first entry of the next file.
  lemma {:induction false} NewestOlderEntry(files: Level, largest: InternalKey, h: FileMetaData, o: Entry)
    returns (g: FileMetaData)
    requires ValidFiles(files) && SortedLevel(files) && h in files && Continues(h, largest) && o in h.table
    requires o.key.user == largest.user
    ensures IsSmallestBoundary(files, largest, g) && g.Valid()
    ensures o.key.sequence <= g.table[0].key.sequence
  {
    g := SmallestBoundaryExists(files, largest, h);
    EntryInRange(h, o);
    FileIsOrdered(g);
    FileIsOrdered(h);
    SortedFilesAreOrdered(files, g, h);
  }

  lemma {:induction false} SmallestBoundaryExists(files: Level, largest: InternalKey, h: FileMetaData) returns (g: FileMetaData)
    requires h in files && Continues(h, largest)
    ensures IsSmallestBoundary(files, largest, g)
  {
    g := h;
    for i := 0 to |files|
      invariant g in files && Continues(g, largest)
      invariant forall j :: 0 <= j < i && Continues(files[j], largest) ==> AtMost(g.smallest, files[j].smallest)
    {
      if Continues(files[i], largest) && Less(files[i].smallest, g.smallest) {
        g := files[i];
      }
    }
  }

  // What the rest of the store shows of a dropped deletion's user key.
  lemma {:induction false} RestBehindDeletion(s: Setting, t: Entry, n: SequenceNumber)
    requires s.Valid() && s.smallestSnapshot <= n
    requires s.AsMerge().DroppedDeletion(t) && Newest(s.Before(), t.key.user, n, t)
    ensures forall g :: s.NextFile(g) && g.smallest.user == t.key.user ==>
              g.Valid() && g.table != [] && View(s.AsMerge().rest, t.key.user, n) == Payload(g.table[0])
    ensures View(s.AsMerge().rest, t.key.user, n) != None ==>
              exists g :: s.NextFile(g) && g.smallest.user == t.key.user
  {
    hide Setting.Valid, WellFormed, Selected, IsMerge, UniqueSequences, ValidFiles, SortedLevel, FileMetaData.Valid;
    SettingFacts(s);
    var k := t.key.user;
    var rest := s.AsMerge().rest;
    SettingIsMerge(s);
    PartIsUnique(rest, s.Before());
    if exists o :: Candidate(rest, k, n, o) {
      var c :| Candidate(rest, k, n, c);
      var largest, h := RestEntryIsNext(s, t, n, c);
      var g := SmallestBoundaryExists(s.v.files[s.level + 1], largest, h);
      assert s.NextFile(g);
    } else {
      ViewOfNothing(rest, k, n);
    }
    forall g | s.NextFile(g) && g.smallest.user == k
      ensures g.Valid() && g.table != [] && View(rest, k, n) == Payload(g.table[0])
    {
      NextFileShows(s, t, n, g);
    }
  }

  lemma {:induction false} NextFileShows(s: Setting, t: Entry, n: SequenceNumber, g: FileMetaData)
    requires s.Valid() && s.smallestSnapshot <= n
    requires s.AsMerge().DroppedDeletion(t) && Newest(s.Before(), t.key.user, n, t)
    requires s.NextFile(g) && g.smallest.user == t.key.user
    ensures g.Valid() && g.table != [] && View(s.AsMerge().rest, t.key.user, n) == Payload(g.table[0])
  {
    hide Setting.Valid, WellFormed, Selected, IsMerge, UniqueSequences, ValidFiles, SortedLevel, SortedTable;
    SettingFacts(s);
    var k := t.key.user;
    var rest := s.AsMerge().rest;
    SettingIsMerge(s);
    PartIsUnique(rest, s.Before());
    NextFileIsUntouched(s, t, g);
    var e := g.table[0];
    assert Candidate(rest, k, n, e);
    forall o | Candidate(rest, k, n, o)
      ensures o.key.sequence <= e.key.sequence
    {
      var largest, h := RestEntryIsNext(s, t, n, o);
      var g' := NewestOlderEntry(s.v.files[s.level + 1], largest, h, o);
      NextFileIsUnique(s, g, g');
    }
    ViewOfNewest(rest, k, n, e);
  }

  lemma {:induction false} PartIsUnique(a: set<Entry>, b: set<Entry>)
    requires a <= b && UniqueSequences(b)
    ensures UniqueSequences(a)
  {
  }

  lemma {:induction false} NextFileIsUnique(s: Setting, g: FileMetaData, h: FileMetaData)
    requires s.level + 1 < |s.v.files| && SortedLevel(s.v.files[s.level + 1]) && ValidFiles(s.v.files[s.level + 1])
    requires s.NextFile(g) && s.NextFile(h)
    ensures g == h
  {
    var a :| IsLargestKey(s.in1, a) && IsSmallestBoundary(s.v.files[s.level + 1], a, g);
    var b :| IsLargestKey(s.in1, b) && IsSmallestBoundary(s.v.files[s.level + 1], b, h);
    FileIsOrdered(g);
    FileIsOrdered(h);
    SortedFilesAreOrdered(s.v.files[s.level + 1], g, h);
  }

  lemma {:induction false} RestEntryIsNext(s: Setting, t: Entry, n: SequenceNumber, o: Entry)
    returns (largest: InternalKey, h: FileMetaData)
    requires s.Valid() && s.AsMerge().DroppedDeletion(t) && Newest(s.Before(), t.key.user, n, t)
    requires Candidate(s.AsMerge().rest, t.key.user, n, o)
    ensures IsLargestKey(s.in1, largest) && largest.user == t.key.user
    ensures h in s.v.files[s.level + 1] && Continues(h, largest) && o in h.table
  {
    hide Setting.Valid, WellFormed, Selected, IsMerge, AllEntries, Untouched;
    SettingFacts(s);
    SplitEntries(s.v, s.level, s.in0, s.in1, s.input);
    assert Candidate(s.Before(), t.key.user, n, o);
    assert t in AllEntries(s.v);
    assert o !in s.upper;
    assert o in s.Before() && t in s.Before() && o != t;
    assert o.key.sequence < t.key.sequence;
    largest, h := OlderEntriesAreNext(s.v, s.level, s.in0, s.in1, s.input, t, o);
  }

  lemma {:induction false} NextFileIsUntouched(s: Setting, t: Entry, g: FileMetaData)
    requires s.Valid() && s.NextFile(g) && g.smallest.user == t.key.user
    requires s.AsMerge().DroppedDeletion(t)
    ensures g.Valid() && g.table != [] && g.table[0] in s.AsMerge().rest
    ensures g.table[0].key.user == t.key.user && g.table[0].key.sequence <= t.key.sequence
  {
    hide Setting.Valid, WellFormed, Shaped, Selected, Sealed, IsMerge, SortedTable, UniqueSequences, Above, ValidFiles, SortedLevel,
      AllEntries, Untouched, BaseLevel;
    SettingFacts(s);
    SelectionFacts(s.v, s.level, s.in0, s.in1);
    var l := s.level + 1;
    var hi :| IsLargestKey(s.in1, hi) && IsSmallestBoundary(s.v.files[l], hi, g);
    FileIsValid(s.v, l, g);
    NextFileIsNotChosen(s.in1, hi, g);
    UntouchedEntry(s.v, s.level, s.in0, s.in1, l, g, g.table[0]);
    var tl, f := InputHasFile(s.v, s.level, s.in0, s.in1, s.input, t);
    FileIsValid(s.v, tl, f);
    if tl == s.level {
      assert NewerThan(f.table, g.table);
    } else {
      EntryInRange(f, t);
    }
  }

  lemma {:induction false} NextFileIsNotChosen(in1: Level, hi: InternalKey, g: FileMetaData)
    requires IsLargestKey(in1, hi) && Continues(g, hi) && g.Valid()
    ensures g !in in1
  {
    FileIsOrdered(g);
  }

  lemma {:induction false} UntouchedEntry(v: Version, level: nat, in0: Level, in1: Level, l: nat, g: FileMetaData, e: Entry)
    requires l < |v.files| && g in v.files[l] && e in g.table && !SelectedAt(level, in0, in1, l, g)
    ensures e in Untouched(v, level, in0, in1)
  {
  }

  // ----- the theorem -----

  /**
   A compaction changes no view at or after the smallest snapshot if and only if no
   deletion that it drops was the visible state of a user key whose value waits at the
   start of the next file of the output level.
   */
  lemma {:induction false} CompactionKeepsViewsExactly(s: Setting)
    requires s.Valid()
    ensures (forall k, n :: s.smallestSnapshot <= n ==> View(s.After(), k, n) == View(s.Before(), k, n)) <==> !s.Exposed()
  {
    hide Setting.Valid, Setting.Reveals, Setting.Before, Setting.After, View;
    SettingFacts(s);
    if s.Exposed() {
      var t, g :| s.Reveals(t, g);
      ExposedViewChanges(s, t, g);
    } else {
      forall k, n | s.smallestSnapshot <= n
        ensures View(s.After(), k, n) == View(s.Before(), k, n)
      {
        UnexposedViewIsKept(s, k, n);
      }
    }
  }

  lemma {:induction false} ExposedViewChanges(s: Setting, t: Entry, g: FileMetaData)
    requires s.Valid() && s.Reveals(t, g)
    ensures View(s.Before(), t.key.user, s.smallestSnapshot) == None
    ensures View(s.After(), t.key.user, s.smallestSnapshot) == Some(g.table[0].value)
  {
    SettingIsMerge(s);
    MergeKeepsView(s.AsMerge(), t.key.user, s.smallestSnapshot);
    RestBehindDeletion(s, t, s.smallestSnapshot);
  }

  lemma {:induction false} UnexposedViewIsKept(s: Setting, k: UserKey, n: SequenceNumber)
    requires s.Valid() && s.smallestSnapshot <= n && !s.Exposed()
    ensures View(s.After(), k, n) == View(s.Before(), k, n)
  {
    SettingIsMerge(s);
    var m := s.AsMerge();
    MergeKeepsView(m, k, n);
    if t :| m.DroppedDeletion(t) && Newest(m.Before(), k, n, t) {
      RestBehindDeletion(s, t, n);
      NewestAtSnapshotToo(s, t, n);
      forall g | s.NextFile(g) && g.smallest.user == k
        ensures View(m.rest, k, n) == None
      {
        assert !s.Reveals(t, g);
      }
    }
  }

  lemma {:induction false} NewestAtSnapshotToo(s: Setting, t: Entry, n: SequenceNumber)
    requires s.smallestSnapshot <= n && t.key.sequence <= s.smallestSnapshot && Newest(s.Before(), t.key.user, n, t)
    ensures Newest(s.Before(), t.key.user, s.smallestSnapshot, t)
  {
    forall o | Candidate(s.Before(), t.key.user, s.smallestSnapshot, o)
      ensures o.key.sequence <= t.key.sequence
    {
      assert Candidate(s.Before(), t.key.user, n, o);
    }
  }

  // Nothing in the output level continues the last user key of the chosen files.
  ghost predicate OutputLevelSealed(v: Version, level: nat, in1: Level)
    requires level + 1 < |v.files|
  {
    forall hi, g :: IsLargestKey(in1, hi) && g in v.files[level + 1] ==> !Continues(g, hi)
  }

  lemma {:induction false} SealedOutputKeepsViews(s: Setting, k: UserKey, n: SequenceNumber)
    requires s.Valid() && s.smallestSnapshot <= n && OutputLevelSealed(s.v, s.level, s.in1)
    ensures View(s.After(), k, n) == View(s.Before(), k, n)
  {
    hide Setting.Valid, WellFormed, Selected, Setting.Before, Setting.After, View, Newest;
    SettingFacts(s);
    UnexposedViewIsKept(s, k, n);
  }
}
