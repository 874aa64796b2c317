/**
 The iterator of the whole store (db/db_impl.cc: NewInternalIterator, NewIterator;
 db/version_set.cc: AddIterators): the memtables, the level-0 tables and one concatenation
 for every deeper level are children that the merging iterator joins, and the elements of
 the database iterator over the union are what a reader sees.
 */
module StoreIterators {
  import opened Wrappers
  import opened DbFormat
  import opened Views
  import opened StoreViews
  import opened Versions
  import opened MergeRules
  import opened LevelRules
  import opened StoreState
  import opened StoreSteps
  import opened StoreSafety
  import opened StoreRun
  import T = TwoLevel
  import M = Merger
  import D = DbIterators

  // ----- one level -----

  // LevelFileNumIterator: the largest key of every file leads to it.
  function FileIndex(files: Level): (r: seq<Entry>)
    ensures |r| == |files| && forall i :: 0 <= i < |r| ==> r[i] == Entry(files[i].largest, [])
  {
    seq(|files|, i requires 0 <= i < |files| => Entry(files[i].largest, []))
  }

  function Tables(files: Level): (r: seq<seq<Entry>>)
    ensures |r| == |files| && forall i :: 0 <= i < |r| ==> r[i] == files[i].table
  {
    seq(|files|, i requires 0 <= i < |files| => files[i].table)
  }

  /** A sorted level is a sequence of blocks for the two-level iterator. */
  lemma {:induction false} LevelIsTwoLevel(files: Level)
    requires ValidFiles(files) && SortedLevel(files)
    ensures T.IndexFits(FileIndex(files), Tables(files))
    ensures SortedTable(T.Flatten(Tables(files))) && Contents(T.Flatten(Tables(files))) == LevelEntries(files)
  {
    hide FileMetaData.Valid;
    var index, tables := FileIndex(files), Tables(files);
    forall b, e: Entry | 0 <= b < |files| && e in tables[b]
      ensures AtMost(e.key, index[b].key) && (b > 0 ==> Less(index[b - 1].key, e.key))
    {
      EntryInRange(files[b], e);
      assert b > 0 ==> Less(files[b - 1].largest, files[b].smallest);
    }
    forall i, j | 0 <= i < j < |files|
      ensures Less(index[i].key, index[j].key)
    {
      FileIsOrdered(files[j]);
    }
    forall i | 0 <= i < |files|
      ensures SortedTable(tables[i])
    {
      TableIsSorted(files[i]);
    }
    T.ConcatenationIsSorted(index, tables);
    FlattenMembers(tables);
    forall e
      ensures e in LevelEntries(files) <==> e in T.Flatten(tables)
    {
      if e in LevelEntries(files) {
        var f :| f in files && e in f.table;
        var i :| 0 <= i < |files| && files[i] == f;
        assert e in tables[i];
      }
    }
  }

  lemma {:induction false} TableIsSorted(f: FileMetaData)
    requires f.Valid()
    ensures SortedTable(f.table)
  {
  }

  lemma {:induction false} FlattenMembers(tables: seq<seq<Entry>>)
    ensures forall e :: e in T.Flatten(tables) <==> exists i :: 0 <= i < |tables| && e in tables[i]
  {
    if tables != [] {
      var n := |tables| - 1;
      FlattenMembers(tables[..n]);
      assert forall i :: 0 <= i < n ==> tables[..n][i] == tables[i];
    }
  }

  // ----- all children -----

  // AddIterators, from a level below 0 on: levels without files have no child.
  function DeepParts(v: Version, level: nat): seq<seq<Entry>>
    requires |v.files| == NUM_LEVELS && level <= NUM_LEVELS
    decreases NUM_LEVELS - level
  {
    if level == NUM_LEVELS then []
    else (if v.files[level] == [] then [] else [T.Flatten(Tables(v.files[level]))]) + DeepParts(v, level + 1)
  }

  function VersionParts(v: Version): seq<seq<Entry>>
    requires |v.files| == NUM_LEVELS
  {
    Tables(v.files[0]) + DeepParts(v, 1)
  }

  // The entries of a memtable in the order of the skip list.
  ghost predicate Arranges(t: seq<Entry>, s: set<Entry>) {
    SortedTable(t) && Contents(t) == s
  }

  // The children of NewInternalIterator.
  function AllParts(mem: seq<Entry>, imm: Option<seq<Entry>>, v: Version): seq<seq<Entry>>
    requires |v.files| == NUM_LEVELS
  {
    [mem] + (if imm.Some? then [imm.value] else []) + VersionParts(v)
  }

  ghost function EntriesIn(parts: seq<seq<Entry>>): set<Entry> {
    set i, e | 0 <= i < |parts| && e in parts[i] :: e
  }

  // Every part is sorted, and no entry is in two of them.
  ghost predicate Separated(parts: seq<seq<Entry>>) {
    && (forall i :: 0 <= i < |parts| ==> SortedTable(parts[i]))
    && (forall i, j, e :: 0 <= i < j < |parts| && e in parts[i] ==> e !in parts[j])
  }

  lemma {:induction false} SeparatedTogether(a: seq<seq<Entry>>, b: seq<seq<Entry>>)
    requires Separated(a) && Separated(b) && EntriesIn(a) !! EntriesIn(b)
    ensures Separated(a + b) && EntriesIn(a + b) == EntriesIn(a) + EntriesIn(b)
  {
    hide SortedTable;
    var all := a + b;
    forall i | 0 <= i < |all|
      ensures SortedTable(all[i])
    {
      assert i < |a| ==> all[i] == a[i];
      assert i >= |a| ==> all[i] == b[i - |a|];
    }
    forall i, j, e | 0 <= i < j < |all| && e in all[i]
      ensures e !in all[j]
    {
      if i < |a| <= j {
        assert e in EntriesIn(a) && all[j] == b[j - |a|];
      } else if |a| <= i {
        assert e in b[i - |a|];
      }
    }
    forall e
      ensures e in EntriesIn(all) <==> e in EntriesIn(a) || e in EntriesIn(b)
    {
      if e in EntriesIn(b) {
        var i :| 0 <= i < |b| && e in b[i];
        assert all[|a| + i] == b[i];
      }
      if e in EntriesIn(a) {
        var i :| 0 <= i < |a| && e in a[i];
        assert all[i] == a[i];
      }
    }
  }

  lemma {:induction false} OnePart(t: seq<Entry>)
    requires SortedTable(t)
    ensures Separated([t]) && EntriesIn([t]) == Contents(t)
  {
    var parts := [t];
    forall e
      ensures e in EntriesIn(parts) <==> e in t
    {
      assert parts[0] == t;
    }
  }

  lemma {:induction false} NoPart()
    ensures Separated([]) && EntriesIn([]) == {}
  {
  }

  // The entries of a level and the levels below it.
  ghost function EntriesFrom(v: Version, level: nat): set<Entry>
    requires level <= |v.files|
    decreases |v.files| - level
  {
    if level == |v.files| then {} else LevelEntries(v.files[level]) + EntriesFrom(v, level + 1)
  }

  lemma {:induction false} EntriesFromMembers(v: Version, level: nat, e: Entry)
    requires level <= |v.files|
    ensures e in EntriesFrom(v, level) <==> exists l :: level <= l < |v.files| && e in LevelEntries(v.files[l])
    decreases |v.files| - level
  {
    if level < |v.files| {
      EntriesFromMembers(v, level + 1, e);
    }
  }

  lemma {:induction false} NewerSharesNothing(f: seq<Entry>, g: seq<Entry>, e: Entry)
    requires NewerThan(f, g) && e in f
    ensures e !in g
  {
  }

  lemma {:induction false} LevelsShareNothing(v: Version, level: nat)
    requires |v.files| == NUM_LEVELS && Layered(v) && level < NUM_LEVELS
    ensures LevelEntries(v.files[level]) !! EntriesFrom(v, level + 1)
  {
    hide NewerThan, EntriesFrom;
    forall e | e in LevelEntries(v.files[level])
      ensures e !in EntriesFrom(v, level + 1)
    {
      EntriesFromMembers(v, level + 1, e);
      var f :| f in v.files[level] && e in f.table;
      forall l, g | level + 1 <= l < |v.files| && g in v.files[l]
        ensures e !in g.table
      {
        NewerSharesNothing(f.table, g.table, e);
      }
    }
  }

  lemma {:induction false} DeepPartsAreSeparated(v: Version, level: nat)
    requires WellFormed(v) && 0 < level <= NUM_LEVELS
    ensures Separated(DeepParts(v, level)) && EntriesIn(DeepParts(v, level)) == EntriesFrom(v, level)
    decreases NUM_LEVELS - level
  {
    hide Separated, EntriesIn, ValidFiles, SortedLevel, SortedTable, Layered, AgedByNumber;
    if level == NUM_LEVELS {
      NoPart();
    } else {
      var files := v.files[level];
      DeepPartsAreSeparated(v, level + 1);
      LevelsShareNothing(v, level);
      if files != [] {
        LevelIsTwoLevel(files);
        OnePart(T.Flatten(Tables(files)));
        SeparatedTogether([T.Flatten(Tables(files))], DeepParts(v, level + 1));
      } else {
        assert LevelEntries(files) == {};
        assert [] + DeepParts(v, level + 1) == DeepParts(v, level + 1);
      }
    }
  }

  lemma {:induction false} FirstLevelIsSeparated(files: Level)
    requires ValidFiles(files) && AgedByNumber(files)
    ensures Separated(Tables(files)) && EntriesIn(Tables(files)) == LevelEntries(files)
  {
    hide FileMetaData.Valid;
    var tables := Tables(files);
    forall i | 0 <= i < |files|
      ensures SortedTable(tables[i])
    {
      TableIsSorted(files[i]);
    }
    forall i, j, e | 0 <= i < j < |files| && e in tables[i]
      ensures e !in tables[j]
    {
      var f, g := files[i], files[j];
      assert f.number != g.number && f in files && g in files;
      assert NewerThan(f.table, g.table) || NewerThan(g.table, f.table);
    }
    forall e
      ensures e in EntriesIn(tables) <==> e in LevelEntries(files)
    {
      if e in LevelEntries(files) {
        var f :| f in files && e in f.table;
        var i :| 0 <= i < |files| && files[i] == f;
        assert e in tables[i];
      }
    }
  }

  lemma {:induction false} VersionPartsAreSeparated(v: Version)
    requires WellFormed(v)
    ensures |v.files| == NUM_LEVELS && Separated(VersionParts(v)) && EntriesIn(VersionParts(v)) == AllEntries(v)
  {
    hide Separated, EntriesIn, ValidFiles, SortedLevel, Layered, AgedByNumber, DeepParts;
    FirstLevelIsSeparated(v.files[0]);
    DeepPartsAreSeparated(v, 1);
    LevelsShareNothing(v, 0);
    SeparatedTogether(Tables(v.files[0]), DeepParts(v, 1));
    forall e
      ensures e in AllEntries(v) <==> e in EntriesFrom(v, 0)
    {
      EntriesFromMembers(v, 0, e);
    }
  }

  // ----- the union -----

  lemma {:induction false} OlderIsElsewhere(a: set<Entry>, b: set<Entry>)
    requires Older(a, b)
    ensures a !! b
  {
  }

  lemma {:induction false} UnionOfParts(t: seq<Entry>, parts: seq<seq<Entry>>)
    requires Arranges(t, EntriesIn(parts)) && Separated(parts)
    ensures M.IsUnion(t, parts)
  {
    hide SortedTable;
    forall i, e | 0 <= i < |parts| && e in parts[i]
      ensures e in t
    {
      assert e in EntriesIn(parts);
      assert e in Contents(t);
    }
    forall e | e in t
      ensures exists i :: 0 <= i < |parts| && e in parts[i]
    {
      assert e in Contents(t);
    }
  }

  /** The children of a reader's iterator are what the merging iterator asks for. */
  lemma {:induction false} ChildrenHaveUnion(v: Version, mem: seq<Entry>, imm: Option<seq<Entry>>, t: seq<Entry>)
    requires WellFormed(v) && SortedTable(mem) && (imm.Some? ==> SortedTable(imm.value))
    requires Older(AllEntries(v), Contents(mem))
    requires imm.Some? ==> Older(AllEntries(v), Contents(imm.value)) && Older(Contents(imm.value), Contents(mem))
    requires Arranges(t, AllEntries(v) + Contents(mem) + if imm.Some? then Contents(imm.value) else {})
    ensures M.IsUnion(t, AllParts(mem, imm, v))
  {
    hide WellFormed, Separated, EntriesIn, SortedTable, Older, M.IsUnion, VersionParts, AllEntries;
    VersionPartsAreSeparated(v);
    OnePart(mem);
    OlderIsElsewhere(AllEntries(v), Contents(mem));
    if imm.Some? {
      OnePart(imm.value);
      OlderIsElsewhere(AllEntries(v), Contents(imm.value));
      OlderIsElsewhere(Contents(imm.value), Contents(mem));
      SeparatedTogether([mem], [imm.value]);
      SeparatedTogether([mem] + [imm.value], VersionParts(v));
    } else {
      SeparatedTogether([mem], VersionParts(v));
      assert [mem] + [] == [mem];
    }
    UnionOfParts(t, AllParts(mem, imm, v));
  }

  // There is such a union.
  lemma {:induction false} UnionExists(s: set<Entry>) returns (t: seq<Entry>)
    requires UniqueSequences(s)
    ensures Arranges(t, s)
    decreases s
  {
    if s == {} {
      t := [];
    } else {
      var e := First(s);
      var rest := UnionExists(s - {e});
      t := [e] + rest;
      forall i, j | 0 <= i < j < |t|
        ensures Less(t[i].key, t[j].key)
      {
        assert t[j] == rest[j - 1] && rest[j - 1] in Contents(rest);
        assert i > 0 ==> t[i] == rest[i - 1];
      }
      forall o
        ensures o in Contents(t) <==> o in s
      {
        assert o in t <==> o == e || o in rest;
        assert o in rest <==> o in Contents(rest);
      }
    }
  }

  lemma {:induction false} First(s: set<Entry>) returns (e: Entry)
    requires s != {} && UniqueSequences(s)
    ensures e in s && forall o :: o in s && o != e ==> Less(e.key, o.key)
    decreases s
  {
    var c :| c in s;
    var rest := s - {c};
    assert forall o :: o in s && o != c ==> o in rest;
    if rest == {} {
      e := c;
    } else {
      var d := First(rest);
      e := if Less(c.key, d.key) then c else d;
      forall o | o in s && o != e
        ensures Less(e.key, o.key)
      {
        assert o == c || o in rest;
        assert c.key.user == d.key.user && c.key.sequence == d.key.sequence ==> c == d;
      }
    }
  }

  // ----- what a reader iterates over -----

  // The elements of the iterator at a sequence number are exactly the views of the history.
  ghost predicate ShowsHistory(t: seq<Entry>, history: set<Entry>, n: SequenceNumber) {
    && (forall i, j :: 0 <= i < j < |t| && D.Yields(t, n, i) && D.Yields(t, n, j) ==> t[i].key.user < t[j].key.user)
    && (forall i :: 0 <= i < |t| && D.Yields(t, n, i) ==> View(history, t[i].key.user, n) == Some(t[i].value))
    && (forall k :: View(history, k, n).Some? ==> ShowsKey(t, n, k))
  }

  ghost predicate ShowsKey(t: seq<Entry>, n: SequenceNumber, k: UserKey) {
    exists i :: 0 <= i < |t| && D.Yields(t, n, i) && t[i].key.user == k
  }

  lemma {:induction false} ElementsShow(t: seq<Entry>, s: set<Entry>, history: set<Entry>, n: SequenceNumber)
    requires Arranges(t, s) && UniqueSequences(s)
    requires forall k :: View(s, k, n) == View(history, k, n)
    ensures ShowsHistory(t, history, n)
  {
    hide View, UniqueSequences, SortedTable;
    forall i: nat | i < |t| && D.Yields(t, n, i)
      ensures View(history, t[i].key.user, n) == Some(t[i].value)
    {
      D.ElementsAreViews(t, n, t[i].key.user);
    }
    forall k | View(history, k, n).Some?
      ensures ShowsKey(t, n, k)
    {
      D.ElementsAreViews(t, n, k);
    }
    D.ElementsAreViews(t, n, 0.0);
  }

  /**
   A new iterator of a running store: its children have a sorted union, and the elements
   over it are the acknowledged writes as the snapshot shows them, each user key once, in
   order.
   */
  lemma {:induction false} IteratorShowsHistory(run: seq<System>, steps: seq<Step>, j: nat, n: SequenceNumber, mem: seq<Entry>,
                                                imm: Option<seq<Entry>>, t: seq<Entry>)
    requires IsRun(run, steps) && j < |run| && run[j].Up?
    requires n in run[j].store.snapshots || n == run[j].store.lastSequence
    requires var s := run[j].store;
      && Arranges(mem, Contents(s.mem)) && imm.Some? == s.imm.Some?
      && (imm.Some? ==> Arranges(imm.value, Contents(s.imm.value)))
      && Arranges(t, Visible(s))
    ensures |run[j].store.version.files| == NUM_LEVELS && M.IsUnion(t, AllParts(mem, imm, run[j].store.version))
    ensures ShowsHistory(t, run[j].store.history, n)
  {
    hide Does, StoreInv, WellFormed, M.IsUnion, ShowsHistory, UniqueSequences, Older, View, SortedTable, AllParts, AllEntries;
    var s := run[j].store;
    RunKeepsInv(run, steps, j);
    VersionFacts(s);
    MemoriesAreApart(s);
    SoundHasLevels(s.version, Base(s));
    assert Visible(s) == AllEntries(s.version) + Contents(mem) + if imm.Some? then Contents(imm.value) else {};
    ChildrenHaveUnion(s.version, mem, imm, t);
    forall k
      ensures View(Visible(s), k, n) == View(s.history, k, n)
    {
      ReadsSeeHistory(s, k, n);
    }
    ElementsShow(t, Visible(s), s.history, n);
  }

  // Every state has the children and the union that the iterator needs.
  lemma {:induction false} StoreHasUnion(run: seq<System>, steps: seq<Step>, j: nat)
    returns (mem: seq<Entry>, imm: Option<seq<Entry>>, t: seq<Entry>)
    requires IsRun(run, steps) && j < |run| && run[j].Up?
    ensures var s := run[j].store;
      && Arranges(mem, Contents(s.mem)) && imm.Some? == s.imm.Some?
      && (imm.Some? ==> Arranges(imm.value, Contents(s.imm.value)))
      && Arranges(t, Visible(s))
  {
    hide Does, StoreInv, Arranges, UniqueSequences, AllEntries;
    var s := run[j].store;
    RunKeepsInv(run, steps, j);
    VersionFacts(s);
    SubsetIsUnique(Contents(s.mem), Visible(s));
    mem := UnionExists(Contents(s.mem));
    imm := None;
    if s.imm.Some? {
      SubsetIsUnique(Contents(s.imm.value), Visible(s));
      var m := UnionExists(Contents(s.imm.value));
      imm := Some(m);
    }
    t := UnionExists(Visible(s));
  }

  lemma {:induction false} MemoriesAreApart(s: Store)
    requires StoreInv(s)
    ensures Older(AllEntries(s.version), Contents(s.mem))
    ensures s.imm.Some? ==> Older(AllEntries(s.version), Contents(s.imm.value)) && Older(Contents(s.imm.value), Contents(s.mem))
  {
    hide DiskInv, LogsInv, ReadersInv, SnapshotsInv, ManifestInv, BackgroundInv, PausedInv, Sound, SameViews, Stored, Below, Covered;
    SubsetIsOlder(AllEntries(s.version), AllEntries(s.version), Contents(s.mem), Memory(s));
    if s.imm.Some? {
      SubsetIsOlder(AllEntries(s.version), AllEntries(s.version), Contents(s.imm.value), Memory(s));
    }
  }

  /** An iterator that stays open goes on showing the history as of its sequence number. */
  lemma {:induction false} OpenIteratorShowsHistory(run: seq<System>, steps: seq<Step>, j: nat, r: Reader, t: seq<Entry>)
    requires IsRun(run, steps) && j < |run| && run[j].Up? && r in run[j].store.readers
    requires Arranges(t, AllEntries(r.version) + r.memory) && UniqueSequences(AllEntries(r.version) + r.memory)
    ensures ShowsHistory(t, run[j].store.history, r.sequence)
  {
    hide Does, View, ShowsHistory, UniqueSequences, SortedTable, AllEntries;
    forall k
      ensures View(AllEntries(r.version) + r.memory, k, r.sequence) == View(run[j].store.history, k, r.sequence)
    {
      OpenReadersKeepTheirView(run, steps, j, r, k);
    }
    ElementsShow(t, AllEntries(r.version) + r.memory, run[j].store.history, r.sequence);
  }
}
