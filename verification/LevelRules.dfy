/**
 The rules that keep level-by-level lookup right, and the three ways a version changes:
 a flush, a trivial move and a compaction (db/db_impl.cc: CompactMemTable,
 BackgroundCompaction, InstallCompactionResults).
 */
module LevelRules {
  import opened Wrappers
  import opened DbFormat
  import opened Views
  import opened Versions
  import opened CompactionInputs
  import opened Compactions
  import opened CompactionPicker
  import opened MergeRules
  import opened CompactionMeaning
  import opened VersionBuilder
  import opened ManifestReplay

  // ----- the rules, on files together with their levels -----

  type Placed = (nat, FileMetaData)

  predicate Separate(f: FileMetaData, g: FileMetaData) {
    Less(f.largest, g.smallest) || Less(g.largest, f.smallest)
  }

  predicate UsableFile(p: Placed, next: nat) {
    p.0 < NUM_LEVELS && p.1.Valid() && p.1.number < next
  }

  // How two installed files stand to each other: below level 0 files of a level are
  // apart; at level 0 the larger number is newer; shallower is newer; and file numbers
  // are never shared.
  ghost predicate Compatible(p: Placed, q: Placed) {
    && (p.0 == q.0 && p.0 > 0 && p != q ==> Separate(p.1, q.1))
    && (p.0 == q.0 == 0 && p.1.number > q.1.number ==> NewerThan(p.1.table, q.1.table))
    && (p.0 < q.0 ==> NewerThan(p.1.table, q.1.table))
    && (p.1.number == q.1.number ==> p == q)
  }

  ghost predicate Rules(s: set<Placed>, next: nat) {
    && (forall p :: p in s ==> UsableFile(p, next))
    && (forall p, q :: p in s && q in s ==> Compatible(p, q))
  }

  ghost function AllPlaced(v: Version): set<Placed> {
    set l, f | 0 <= l < |v.files| && f in v.files[l] :: (l, f)
  }

  ghost predicate OrderedLevels(v: Version) {
    |v.files| == NUM_LEVELS && forall l :: 0 <= l < NUM_LEVELS ==> Ordered(v.files[l])
  }

  // Everything that holds of every version that is ever installed.
  ghost predicate Sound(v: Version, next: nat) {
    OrderedLevels(v) && Rules(AllPlaced(v), next)
  }

  // ----- what the rules give to lookup and compaction -----

  lemma {:induction false} SortedBySoundness(v: Version, next: nat, l: nat)
    requires Sound(v, next) && l < NUM_LEVELS
    ensures ValidFiles(v.files[l]) && (l > 0 ==> SortedLevel(v.files[l]))
    ensures l == 0 ==> AgedByNumber(v.files[0])
  {
    hide FileMetaData.Valid, NewerThan;
    var files := v.files[l];
    forall f | f in files
      ensures f.Valid()
    {
      assert (l, f) in AllPlaced(v);
    }
    forall i, j | 0 <= i < j < |files|
      ensures l > 0 ==> Less(files[i].largest, files[j].smallest)
      ensures files[i].number != files[j].number
    {
      var f, g := files[i], files[j];
      assert BySmallestKey(f, g);
      FileIsOrdered(f);
      FileIsOrdered(g);
      OrderIsTotal(f, g, f);
      assert (l, f) in AllPlaced(v) && (l, g) in AllPlaced(v);
      assert Compatible((l, f), (l, g));
    }
    forall f, g | f in files && g in files && f.number > g.number
      ensures l == 0 ==> NewerThan(f.table, g.table)
    {
      assert (l, f) in AllPlaced(v) && (l, g) in AllPlaced(v);
      assert Compatible((l, f), (l, g));
    }
  }

  lemma {:induction false} SoundIsLayered(v: Version, next: nat)
    requires Sound(v, next)
    ensures Layered(v)
  {
    hide FileMetaData.Valid, NewerThan, Ordered;
    forall i, j, f, g | 0 <= i < j < NUM_LEVELS && f in v.files[i] && g in v.files[j]
      ensures NewerThan(f.table, g.table)
    {
      assert (i, f) in AllPlaced(v) && (j, g) in AllPlaced(v);
      assert Compatible((i, f), (j, g));
    }
  }

  lemma {:induction false} SoundIsWellFormed(v: Version, next: nat)
    requires Sound(v, next)
    ensures WellFormed(v)
  {
    hide Rules, Layered, ValidFiles, SortedLevel, AgedByNumber, Ordered;
    SoundIsLayered(v, next);
    forall l | 0 <= l < NUM_LEVELS
      ensures ValidFiles(v.files[l]) && (l > 0 ==> SortedLevel(v.files[l]))
      ensures l == 0 ==> AgedByNumber(v.files[0])
    {
      SortedBySoundness(v, next, l);
    }
  }

  // ----- installing an edit -----

  ghost predicate Installed(v: Version, edit: FileEdit, v': Version)
    requires |v.files| == NUM_LEVELS
  {
    && |v'.files| == NUM_LEVELS
    && forall l :: 0 <= l < NUM_LEVELS ==> v'.files[l] == Install(v.files[l], l, edit)
  }

  ghost function UsedAt(v: Version, l: nat): set<nat> {
    if l < |v.files| then set f | f in v.files[l] :: f.number else {}
  }

  // The new files carry numbers that their level has not used.
  ghost predicate NewFiles(v: Version, edit: FileEdit) {
    && ValidEdit(edit)
    && forall l :: 0 <= l < NUM_LEVELS ==> FreshAdditions(UsedAt(v, l), l, edit.added)
  }

  /** The part of VersionSet::LogAndApply that builds the next version. */
  method BuildNextVersion(v: Version, edit: FileEdit) returns (v': Version)
    requires OrderedLevels(v) && NewFiles(v, edit)
    requires forall p :: p in edit.deleted ==> p.0 < NUM_LEVELS
    ensures Installed(v, edit, v')
  {
    var builder := new Builder(v);
    builder.Apply(edit);
    forall l | 0 <= l < NUM_LEVELS
      ensures Ordered(builder.levels[l].added)
    {
      ApplyOnce(v.files[l], l, edit, UsedAt(v, l));
    }
    v' := builder.SaveTo();
  }

  lemma {:induction false} ApplyOnce(files: Level, l: nat, edit: FileEdit, used: set<nat>)
    requires FreshAdditions(used, l, edit.added)
    ensures var s := ApplyLevel(NO_CHANGE, l, edit);
      && Ordered(s.added)
      && (forall f :: f in s.added <==> f in AddedAt(edit.added, l))
      && s.deleted == DeletedAt(edit.deleted, l) - Numbers(AddedAt(edit.added, l))
  {
    var del := DeletedAt(edit.deleted, l);
    EmptyIsOrdered();
    ApplyNewMembers(LevelState(del, []), l, edit.added, used);
    assert {} + del == del;
  }

  ghost predicate Stays(p: Placed, edit: FileEdit) {
    (p.0, p.1.number) !in edit.deleted
  }

  lemma {:induction false} InstalledLevel(v: Version, edit: FileEdit, v': Version, l: nat, f: FileMetaData)
    requires OrderedLevels(v) && NewFiles(v, edit) && Installed(v, edit, v') && l < NUM_LEVELS
    ensures f in v'.files[l] <==> (f in v.files[l] && Stays((l, f), edit)) || (l, f) in edit.added
  {
    hide Ordered, FreshAdditions;
    var files, s, news := v.files[l], ApplyLevel(NO_CHANGE, l, edit), AddedAt(edit.added, l);
    ApplyOnce(files, l, edit, UsedAt(v, l));
    FreshNumbersAreNew(UsedAt(v, l), l, edit.added);
    SaveLevelMembers(files, s);
    assert f in news <==> (l, f) in edit.added;
    assert f.number in DeletedAt(edit.deleted, l) <==> (l, f.number) in edit.deleted;
    assert f in files ==> f.number in UsedAt(v, l);
    assert f in news ==> f.number in Numbers(news);
  }

  lemma {:induction false} InstalledIsOrdered(v: Version, edit: FileEdit, v': Version)
    requires OrderedLevels(v) && NewFiles(v, edit) && Installed(v, edit, v')
    ensures OrderedLevels(v')
  {
    hide FreshAdditions;
    forall l | 0 <= l < NUM_LEVELS
      ensures Ordered(v'.files[l])
    {
      var files, s, news := v.files[l], ApplyLevel(NO_CHANGE, l, edit), AddedAt(edit.added, l);
      ApplyOnce(files, l, edit, UsedAt(v, l));
      FreshNumbersAreNew(UsedAt(v, l), l, edit.added);
      forall f, g | f in files && g in s.added
        ensures f.number != g.number
      {
        assert f.number in UsedAt(v, l) && g.number in Numbers(news);
      }
      SaveLevelIsOrdered(files, s);
    }
  }

  ghost function After(s: set<Placed>, edit: FileEdit): set<Placed> {
    (set p | p in s && Stays(p, edit)) + set p | p in edit.added
  }

  lemma {:induction false} InstalledPlaces(v: Version, edit: FileEdit, v': Version)
    requires OrderedLevels(v) && NewFiles(v, edit) && Installed(v, edit, v')
    ensures AllPlaced(v') == After(AllPlaced(v), edit)
  {
    hide Ordered, FreshAdditions, Installed, NewFiles, Stays;
    assert |v.files| == |v'.files| == NUM_LEVELS by { ShapeOfInstalled(v, edit, v'); }
    forall p
      ensures p in AllPlaced(v') <==> p in After(AllPlaced(v), edit)
    {
      var (l, f) := p;
      if l < NUM_LEVELS {
        InstalledLevel(v, edit, v', l, f);
      } else {
        AddedLevels(v, edit, p);
      }
    }
  }

  lemma {:induction false} ShapeOfInstalled(v: Version, edit: FileEdit, v': Version)
    requires OrderedLevels(v) && Installed(v, edit, v')
    ensures |v.files| == |v'.files| == NUM_LEVELS
  {
  }

  lemma {:induction false} AddedLevels(v: Version, edit: FileEdit, p: Placed)
    requires NewFiles(v, edit)
    ensures p in edit.added ==> p.0 < NUM_LEVELS
  {
  }

  /**
   An edit keeps the rules as soon as its new files are usable, go with each other and
   go with the files that stay.
   */
  lemma {:induction false} EditKeepsRules(v: Version, edit: FileEdit, v': Version, next: nat, next': nat)
    requires Sound(v, next) && NewFiles(v, edit) && Installed(v, edit, v') && next <= next'
    requires forall p :: p in edit.added ==> UsableFile(p, next')
    requires forall p, q :: p in edit.added && q in edit.added ==> Compatible(p, q)
    requires forall p, q :: p in edit.added && q in AllPlaced(v) && Stays(q, edit) ==> Compatible(p, q) && Compatible(q, p)
    ensures Sound(v', next')
  {
    hide Ordered, FreshAdditions, Installed, NewFiles, FileMetaData.Valid, Compatible, Stays, AllPlaced, OrderedLevels;
    InstalledIsOrdered(v, edit, v');
    InstalledPlaces(v, edit, v');
    forall p | p in AllPlaced(v')
      ensures UsableFile(p, next')
    {
    }
  }

  lemma {:induction false} SoundLater(v: Version, next: nat, next': nat)
    requires Sound(v, next) && next <= next'
    ensures Sound(v, next')
  {
  }

  // ----- a flush -----

  function FlushEdit(level: nat, f: FileMetaData): FileEdit {
    FileEdit({}, [(level, f)])
  }

  // The flushed table is newer than everything installed, and its level was picked by
  // PickLevelForMemTableOutput.
  ghost predicate Flushable(v: Version, next: nat, level: nat, f: FileMetaData) {
    && f.Valid() && next <= f.number && level < NUM_LEVELS
    && (forall p :: p in AllPlaced(v) ==> NewerThan(f.table, p.1.table))
    && (level > 0 ==> forall l :: 0 <= l <= level && l < |v.files| ==> NoOverlap(v.files[l], f.smallest.user, f.largest.user))
  }

  lemma {:induction false} NoOverlapSharesNothing(f: FileMetaData, g: FileMetaData)
    requires f.Valid() && g.Valid() && !Overlaps(g, Some(f.smallest.user), Some(f.largest.user))
    ensures Separate(f, g) && Separate(g, f) && NewerThan(f.table, g.table) && NewerThan(g.table, f.table)
  {
    FileIsOrdered(f);
    FileIsOrdered(g);
    forall e, o | e in f.table && o in g.table
      ensures e.key.user != o.key.user
    {
      EntryInRange(f, e);
      EntryInRange(g, o);
    }
  }

  lemma {:induction false} NumberIsFree(v: Version, next: nat, number: nat, p: Placed)
    requires Sound(v, next) && next <= number && p in AllPlaced(v)
    ensures p.1.number != number
  {
  }

  /** A flush keeps the rules. */
  lemma {:induction false} FlushKeepsRules(v: Version, next: nat, level: nat, f: FileMetaData, v': Version, next': nat)
    requires Sound(v, next) && Flushable(v, next, level, f) && Installed(v, FlushEdit(level, f), v') && f.number < next'
    ensures Sound(v', next')
    ensures AllEntries(v') == AllEntries(v) + Contents(f.table)
  {
    hide Rules, Ordered, NewerThan, Separate, FileMetaData.Valid, Installed;
    var edit := FlushEdit(level, f);
    var p := (level, f);
    assert NewFiles(v, edit) by {
      FlushIsNew(v, next, level, f);
    }
    forall q | q in AllPlaced(v)
      ensures Compatible(p, q) && Compatible(q, p)
    {
      NumberIsFree(v, next, f.number, q);
      UsableAt(v, next, q);
      if q.0 <= level && level > 0 {
        NoOverlapSharesNothing(f, q.1);
      }
    }
    EditKeepsRules(v, edit, v', next, next');
    InstalledPlaces(v, edit, v');
    assert AllPlaced(v') == AllPlaced(v) + {p};
    EntriesOfOneMore(v, v', p);
  }

  lemma {:induction false} UsableAt(v: Version, next: nat, p: Placed)
    requires Sound(v, next) && p in AllPlaced(v)
    ensures UsableFile(p, next)
  {
  }

  lemma {:induction false} FlushIsNew(v: Version, next: nat, level: nat, f: FileMetaData)
    requires Sound(v, next) && next <= f.number && level < NUM_LEVELS
    ensures NewFiles(v, FlushEdit(level, f))
  {
    var edit := FlushEdit(level, f);
    forall l | 0 <= l < NUM_LEVELS
      ensures FreshAdditions(UsedAt(v, l), l, edit.added)
    {
      forall g | g in v.files[l]
        ensures g.number != f.number
      {
        assert (l, g) in AllPlaced(v);
        NumberIsFree(v, next, f.number, (l, g));
      }
      assert edit.added[1..] == [];
    }
  }

  ghost function EntriesOf(s: set<Placed>): set<Entry> {
    set p, e | p in s && e in p.1.table :: e
  }

  lemma {:induction false} EntriesByPlace(v: Version)
    ensures AllEntries(v) == EntriesOf(AllPlaced(v))
  {
    forall e
      ensures e in AllEntries(v) <==> e in EntriesOf(AllPlaced(v))
    {
      if e in AllEntries(v) {
        var l, f := EntryHasFile(v, e);
        assert (l, f) in AllPlaced(v);
      }
      if e in EntriesOf(AllPlaced(v)) {
        var p: Placed :| p in AllPlaced(v) && e in p.1.table;
        FileEntryIsThere(v, p.0, p.1, e);
      }
    }
  }

  lemma {:induction false} EntriesOfOneMore(v: Version, v': Version, p: Placed)
    requires AllPlaced(v') == AllPlaced(v) + {p}
    ensures AllEntries(v') == AllEntries(v) + Contents(p.1.table)
  {
    EntriesByPlace(v);
    EntriesByPlace(v');
  }

  // ----- a trivial move -----

  function MoveEdit(level: nat, f: FileMetaData): FileEdit {
    FileEdit({(level, f.number)}, [(level + 1, f)])
  }

  /** Moving a file that nothing below it overlaps keeps the rules and every entry. */
  lemma {:induction false} MoveKeepsRules(v: Version, next: nat, level: nat, f: FileMetaData, v': Version)
    requires Sound(v, next) && UniqueSequences(AllEntries(v))
    requires Selected(v, level, [f], []) && Installed(v, MoveEdit(level, f), v')
    ensures Sound(v', next)
    ensures AllEntries(v') == AllEntries(v)
  {
    hide Rules, Ordered, NewerThan, Separate, FileMetaData.Valid, Installed, Selected, UniqueSequences, AllEntries;
    var edit := MoveEdit(level, f);
    SoundIsWellFormed(v, next);
    hide WellFormed;
    SelectionFacts(v, level, [f], []);
    ChosenFilesAreThere(v, level, [f], []);
    assert [f][0] == f && f in v.files[level];
    var p := (level + 1, f);
    UsableAt(v, next, (level, f));
    assert NewFiles(v, edit) by {
      MoveIsNew(v, next, level, f);
    }
    forall q | q in AllPlaced(v) && Stays(q, edit)
      ensures Compatible(p, q) && Compatible(q, p)
    {
      MovedFileFits(v, next, level, f, q);
    }
    EditKeepsRules(v, edit, v', next, next);
    InstalledPlaces(v, edit, v');
    forall q
      ensures q in AllPlaced(v') <==> (q in AllPlaced(v) && q != (level, f)) || q == p
    {
      if q in AllPlaced(v) && !Stays(q, edit) {
        SameNumberSameFile(v, next, q, (level, f));
      }
    }
    EntriesOfMoved(v, v', level, f);
  }

  lemma {:induction false} SameNumberSameFile(v: Version, next: nat, p: Placed, q: Placed)
    requires Sound(v, next) && p in AllPlaced(v) && q in AllPlaced(v) && p.1.number == q.1.number
    ensures p == q
  {
    assert Compatible(p, q);
  }

  lemma {:induction false} EntriesOfMoved(v: Version, v': Version, level: nat, f: FileMetaData)
    requires (level, f) in AllPlaced(v)
    requires forall q :: q in AllPlaced(v') <==> (q in AllPlaced(v) && q != (level, f)) || q == (level + 1, f)
    ensures AllEntries(v') == AllEntries(v)
  {
    EntriesByPlace(v);
    EntriesByPlace(v');
    forall e
      ensures e in EntriesOf(AllPlaced(v')) <==> e in EntriesOf(AllPlaced(v))
    {
      if e in EntriesOf(AllPlaced(v)) {
        var p: Placed :| p in AllPlaced(v) && e in p.1.table;
        assert p in AllPlaced(v') || p == (level, f);
        assert (level + 1, f) in AllPlaced(v');
      }
    }
  }

  lemma {:induction false} MoveIsNew(v: Version, next: nat, level: nat, f: FileMetaData)
    requires Sound(v, next) && level + 1 < NUM_LEVELS && f in v.files[level]
    ensures NewFiles(v, MoveEdit(level, f))
  {
    var edit := MoveEdit(level, f);
    forall l | 0 <= l < NUM_LEVELS
      ensures FreshAdditions(UsedAt(v, l), l, edit.added)
    {
      assert edit.added[1..] == [];
      forall g | g in v.files[level + 1]
        ensures g.number != f.number
      {
        assert (level, f) in AllPlaced(v) && (level + 1, g) in AllPlaced(v);
        assert Compatible((level, f), (level + 1, g));
      }
    }
  }

  lemma {:induction false} MovedFileFits(v: Version, next: nat, level: nat, f: FileMetaData, q: Placed)
    requires Sound(v, next) && UniqueSequences(AllEntries(v)) && WellFormed(v) && Selected(v, level, [f], [])
    requires q in AllPlaced(v) && Stays(q, MoveEdit(level, f)) && f in v.files[level]
    ensures Compatible((level + 1, f), q) && Compatible(q, (level + 1, f))
  {
    hide WellFormed, Selected, FileMetaData.Valid, NewerThan, Separate, AllEntries, UniqueSequences;
    SelectionFacts(v, level, [f], []);
    var p := (level, f);
    assert p in AllPlaced(v) && [f][0] == f;
    assert Compatible(p, q) && Compatible(q, p);
    UsableAt(v, next, p);
    UsableAt(v, next, q);
    if q.0 == level {
      UnchosenIsNewer(v, level, [f], [], f, q.1);
    } else if q.0 == level + 1 {
      NothingBelowMeets(v, level, [f], f, q.1);
      NoOverlapSharesNothing(f, q.1);
    }
  }

  lemma {:induction false} NothingBelowMeets(v: Version, level: nat, in0: Level, f: FileMetaData, g: FileMetaData)
    requires Selected(v, level, in0, []) && f in in0 && f.Valid() && g in v.files[level + 1]
    ensures !Overlaps(g, Some(f.smallest.user), Some(f.largest.user))
  {
    hide FileMetaData.Valid, Sealed;
    var lo, hi := SelectedRange(v, level, in0, []);
    FileIsOrdered(f);
    assert g !in [];
  }

  // A file of the input level that was not chosen is newer than the chosen ones.
  lemma {:induction false} UnchosenIsNewer(v: Version, level: nat, in0: Level, in1: Level, f: FileMetaData, h: FileMetaData)
    requires WellFormed(v) && UniqueSequences(AllEntries(v)) && Selected(v, level, in0, in1)
    requires f in in0 && h in v.files[level] && h !in in0
    ensures NewerThan(h.table, f.table)
  {
    hide WellFormed, Selected, AllEntries, Layered, Shaped, Sealed, ValidFiles, SortedLevel;
    SelectionFacts(v, level, in0, in1);
    ChosenFilesAreThere(v, level, in0, in1);
    var lo, hi := SelectedRange(v, level, in0, in1);
    forall o, t | o in h.table && t in f.table && o.key.user == t.key.user
      ensures o.key.sequence > t.key.sequence
    {
      InputLevelIsComplete(v, level, in0, lo, hi, f, t, h, o);
      FileEntryIsThere(v, level, f, t);
      FileEntryIsThere(v, level, h, o);
    }
  }

  // ----- a compaction -----

  function CompactionEdit(level: nat, in0: Level, in1: Level, outputs: Level): FileEdit {
    FileEdit((set f | f in in0 :: (level, f.number)) + (set f | f in in1 :: (level + 1, f.number)),
             AtLevel(level + 1, outputs))
  }

  lemma {:induction false} ConcatMembers(outputs: seq<FileMetaData>)
    ensures forall e :: e in Concat(outputs) <==> exists i :: 0 <= i < |outputs| && e in outputs[i].table
  {
    if outputs != [] {
      var n := |outputs| - 1;
      ConcatMembers(outputs[..n]);
      assert Concat(outputs) == Concat(outputs[..n]) + outputs[n].table;
      assert forall i :: 0 <= i < n ==> outputs[..n][i] == outputs[i];
    }
  }

  lemma {:induction false} OutputsInOrder(outputs: seq<FileMetaData>, i: nat, j: nat, e: Entry, o: Entry)
    requires SortedTable(Concat(outputs)) && i < j < |outputs| && e in outputs[i].table && o in outputs[j].table
    ensures Less(e.key, o.key)
  {
    var n := |outputs| - 1;
    var init, last := Concat(outputs[..n]), outputs[n].table;
    assert Concat(outputs) == init + last;
    if j == n {
      ConcatMembers(outputs[..n]);
      assert e in outputs[..n][i].table;
      assert e in init;
      var a :| 0 <= a < |init| && init[a] == e;
      var b :| 0 <= b < |last| && last[b] == o;
      assert Concat(outputs)[a] == e && Concat(outputs)[|init| + b] == o;
    } else {
      assert forall p, q :: 0 <= p < q < |init| ==> Less(Concat(outputs)[p].key, Concat(outputs)[q].key);
      assert forall p :: 0 <= p < |init| ==> Concat(outputs)[p] == init[p];
      OutputsInOrder(outputs[..n], i, j, e, o);
    }
  }

  // Usable tables with distinct numbers, all allocated since the version was current.
  predicate UsableOutputs(outputs: seq<FileMetaData>, next: nat, nextAfter: nat) {
    && (forall i :: 0 <= i < |outputs| ==> outputs[i].Valid() && next <= outputs[i].number < nextAfter)
    && (forall i, j :: 0 <= i < j < |outputs| ==> outputs[i].number != outputs[j].number)
  }

  // What the compaction was given and what it made.
  datatype Work = Work(v: Version, next: nat, nextAfter: nat, level: nat, in0: Level, in1: Level, input: seq<Entry>,
                       smallestSnapshot: SequenceNumber, outputs: seq<FileMetaData>)
  {
    ghost predicate Valid() {
      && Sound(v, next) && UniqueSequences(AllEntries(v))
      && Selected(v, level, in0, in1) && IsMerge(input, in0, in1)
      && Made()
    }

    ghost predicate Made()
      requires |v.files| == NUM_LEVELS
    {
      && Concat(outputs) == Survivors(v, level, input, smallestSnapshot, |input|)
      && next <= nextAfter
      && UsableOutputs(outputs, next, nextAfter)
    }

    function Edit(): FileEdit {
      CompactionEdit(level, in0, in1, outputs)
    }
  }

  lemma {:induction false} WorkFacts(w: Work)
    requires w.Valid()
    ensures |w.v.files| == NUM_LEVELS && w.level + 1 < NUM_LEVELS
    ensures WellFormed(w.v) && Shaped(w.v) && Layered(w.v) && OrderedLevels(w.v)
    ensures ValidFiles(w.v.files[w.level + 1]) && SortedLevel(w.v.files[w.level + 1])
    ensures SortedTable(Concat(w.outputs)) && w.next <= w.nextAfter
  {
    hide Rules, Ordered, WellFormed, Shaped, Selected, IsMerge, ValidFiles, SortedLevel, Survivors, UsableOutputs, UniqueSequences;
    SoundIsWellFormed(w.v, w.next);
    SelectionFacts(w.v, w.level, w.in0, w.in1);
    MergeIsSorted(w.input, w.in0, w.in1);
    SurvivorsSorted(w.v, w.level, w.input, w.smallestSnapshot, |w.input|);
  }

  // Every output entry comes from a chosen file.
  lemma {:induction false} OutputHasFile(w: Work, x: FileMetaData, e: Entry) returns (l: nat, f: FileMetaData)
    requires w.Valid() && x in w.outputs && e in x.table
    ensures e in w.input && (l == w.level || l == w.level + 1) && l < |w.v.files|
    ensures f in w.v.files[l] && e in f.table && f in (if l == w.level then w.in0 else w.in1)
  {
    hide Sound, UniqueSequences, Selected, IsMerge, WellFormed, Layered;
    WorkFacts(w);
    ConcatMembers(w.outputs);
    assert e in Concat(w.outputs);
    SurvivorsMembers(w.v, w.level, w.input, w.smallestSnapshot, |w.input|);
    l, f := InputHasFile(w.v, w.level, w.in0, w.in1, w.input, e);
  }

  // A file of the output level that was not chosen lies on one side of the whole merge.
  lemma {:induction false} BesideTheMerge(files: Level, in0: Level, in1: Level, lo: InternalKey, hi: InternalKey, g: FileMetaData)
    requires ValidFiles(files) && SortedLevel(files) && IsRange(in0, lo, hi) && ExactlyMeets(files, lo.user, hi.user, in1)
    requires g in files && g !in in1
    ensures g.smallest.user > hi.user || g.largest.user < lo.user
    ensures g.smallest.user > hi.user ==> forall f :: f in in1 ==> Less(f.largest, g.smallest)
    ensures g.largest.user < lo.user ==> forall f :: f in in1 ==> Less(g.largest, f.smallest)
  {
    hide FileMetaData.Valid;
    FileIsOrdered(g);
    forall f | f in in1
      ensures g.smallest.user > hi.user ==> Less(f.largest, g.smallest)
      ensures g.largest.user < lo.user ==> Less(g.largest, f.smallest)
    {
      FileIsOrdered(f);
      SortedFilesAreOrdered(files, f, g);
    }
  }

  lemma {:induction false} OutputBeside(w: Work, x: FileMetaData, g: FileMetaData)
    requires w.Valid() && x in w.outputs && x.Valid()
    requires w.level + 1 < |w.v.files| && g in w.v.files[w.level + 1] && g !in w.in1
    ensures Separate(x, g) && Separate(g, x)
  {
    hide Sound, UniqueSequences, Selected, IsMerge, WellFormed, Layered, SortedTable, ValidFiles, SortedLevel, Work.Made;
    WorkFacts(w);
    var lo, hi := SelectedRange(w.v, w.level, w.in0, w.in1);
    BesideTheMerge(w.v.files[w.level + 1], w.in0, w.in1, lo, hi, g);
    forall e | e in x.table
      ensures g.smallest.user > hi.user ==> Less(e.key, g.smallest)
      ensures g.largest.user < lo.user ==> Less(g.largest, e.key)
    {
      var l, f := OutputHasFile(w, x, e);
      FileIsValid(w.v, l, f);
      EntryInRange(f, e);
    }
    FileIsValid(w.v, w.level + 1, g);
    FileIsOrdered(g);
  }

  lemma {:induction false} ShallowerIsNewer(w: Work, x: FileMetaData, q: Placed)
    requires w.Valid() && x in w.outputs && q in AllPlaced(w.v) && !SelectedAt(w.level, w.in0, w.in1, q.0, q.1)
    ensures q.0 <= w.level ==> NewerThan(q.1.table, x.table)
    ensures w.level + 1 < q.0 ==> NewerThan(x.table, q.1.table)
  {
    hide Sound, UniqueSequences, Selected, IsMerge, WellFormed, SortedTable, ValidFiles, SortedLevel, Work.Made;
    WorkFacts(w);
    forall e, o | e in x.table && o in q.1.table && e.key.user == o.key.user
      ensures q.0 <= w.level ==> o.key.sequence > e.key.sequence
      ensures w.level + 1 < q.0 ==> e.key.sequence > o.key.sequence
    {
      var l, f := OutputHasFile(w, x, e);
      assert q.0 < l ==> NewerThan(q.1.table, f.table);
      assert l < q.0 ==> NewerThan(f.table, q.1.table);
      if q.0 == w.level && l == w.level {
        UnchosenIsNewer(w.v, w.level, w.in0, w.in1, f, q.1);
      }
    }
  }

  lemma {:induction false} OutputNumber(w: Work, x: FileMetaData) returns (i: nat)
    requires w.Valid() && x in w.outputs
    ensures i < |w.outputs| && w.outputs[i] == x && x.Valid() && w.next <= x.number < w.nextAfter
    ensures forall j :: 0 <= j < |w.outputs| && j != i ==> w.outputs[j].number != x.number
  {
    i :| 0 <= i < |w.outputs| && w.outputs[i] == x;
  }

  lemma {:induction false} OutputFits(w: Work, x: FileMetaData, q: Placed)
    requires w.Valid() && x in w.outputs && q in AllPlaced(w.v) && !SelectedAt(w.level, w.in0, w.in1, q.0, q.1)
    ensures Compatible((w.level + 1, x), q) && Compatible(q, (w.level + 1, x))
  {
    hide Sound, UniqueSequences, Selected, IsMerge, WellFormed, NewerThan, Separate, Work.Made, FileMetaData.Valid;
    WorkFacts(w);
    var i := OutputNumber(w, x);
    NumberIsFree(w.v, w.next, x.number, q);
    ShallowerIsNewer(w, x, q);
    if q.0 == w.level + 1 {
      OutputBeside(w, x, q.1);
    }
  }

  lemma {:induction false} OutputsFitEachOther(w: Work, x: FileMetaData, y: FileMetaData)
    requires w.Valid() && x in w.outputs && y in w.outputs
    ensures Compatible((w.level + 1, x), (w.level + 1, y))
  {
    hide Sound, UniqueSequences, Selected, IsMerge, WellFormed, Work.Made, SortedTable;
    WorkFacts(w);
    var i := OutputNumber(w, x);
    var j := OutputNumber(w, y);
    if i < j {
      OutputsInOrder(w.outputs, i, j, x.table[|x.table| - 1], y.table[0]);
    } else if j < i {
      OutputsInOrder(w.outputs, j, i, y.table[|y.table| - 1], x.table[0]);
    }
  }

  lemma {:induction false} StaysUnlessChosen(w: Work, q: Placed)
    requires w.Valid() && q in AllPlaced(w.v)
    ensures Stays(q, w.Edit()) <==> !SelectedAt(w.level, w.in0, w.in1, q.0, q.1)
  {
    hide Rules, Ordered, UniqueSequences, Selected, IsMerge, WellFormed, Work.Made, SortedTable;
    WorkFacts(w);
    ChosenFilesAreThere(w.v, w.level, w.in0, w.in1);
    forall f | ((f in w.in0 && q.0 == w.level) || (f in w.in1 && q.0 == w.level + 1)) && f.number == q.1.number
      ensures f == q.1
    {
      SameNumberSameFile(w.v, w.next, q, (q.0, f));
    }
  }

  lemma {:induction false} OutputsAreNew(w: Work)
    requires w.Valid()
    ensures NewFiles(w.v, w.Edit())
  {
    hide Sound, UniqueSequences, Selected, IsMerge, WellFormed, SortedTable, FreshAdditions;
    WorkFacts(w);
    var added := w.Edit().added;
    forall l | 0 <= l < NUM_LEVELS
      ensures FreshAdditions(UsedAt(w.v, l), l, added)
    {
      forall i | 0 <= i < |added| && added[i].0 == l
        ensures added[i].1.number !in UsedAt(w.v, l)
      {
        forall f | f in w.v.files[l]
          ensures f.number != added[i].1.number
        {
          NumberIsFree(w.v, w.next, added[i].1.number, (l, f));
        }
      }
      DistinctIsFresh(UsedAt(w.v, l), l, added);
    }
  }

  /** A compaction keeps the rules, and replaces the chosen entries by the survivors. */
  lemma {:induction false} CompactionKeepsRules(w: Work, v': Version)
    requires w.Valid() && Installed(w.v, w.Edit(), v')
    ensures Sound(v', w.nextAfter)
    ensures AllEntries(v') == Untouched(w.v, w.level, w.in0, w.in1) + Contents(Concat(w.outputs))
  {
    hide Rules, Ordered, UniqueSequences, Selected, IsMerge, WellFormed, Layered, SortedTable, Installed, NewFiles, Compatible,
      Stays, AllEntries, Untouched, Work.Made, FileMetaData.Valid;
    WorkFacts(w);
    OutputsAreNew(w);
    var edit := w.Edit();
    forall p | p in edit.added
      ensures p.0 == w.level + 1 && p.1 in w.outputs && UsableFile(p, w.nextAfter)
    {
      var i := OutputNumber(w, p.1);
    }
    forall p, q | p in edit.added && q in edit.added
      ensures Compatible(p, q)
    {
      OutputsFitEachOther(w, p.1, q.1);
    }
    forall p, q | p in edit.added && q in AllPlaced(w.v) && Stays(q, edit)
      ensures Compatible(p, q) && Compatible(q, p)
    {
      StaysUnlessChosen(w, q);
      OutputFits(w, p.1, q);
    }
    EditKeepsRules(w.v, edit, v', w.next, w.nextAfter);
    CompactionEntries(w, v');
  }

  lemma {:induction false} CompactionEntries(w: Work, v': Version)
    requires w.Valid() && Installed(w.v, w.Edit(), v')
    ensures AllEntries(v') == Untouched(w.v, w.level, w.in0, w.in1) + Contents(Concat(w.outputs))
  {
    hide Rules, Ordered, UniqueSequences, Selected, IsMerge, WellFormed, Layered, SortedTable, Installed, NewFiles,
      Stays, AllEntries, Work.Made;
    WorkFacts(w);
    OutputsAreNew(w);
    InstalledPlaces(w.v, w.Edit(), v');
    EntriesByPlace(v');
    ConcatMembers(w.outputs);
    forall e
      ensures e in EntriesOf(AllPlaced(v')) <==> e in Untouched(w.v, w.level, w.in0, w.in1) || e in Concat(w.outputs)
    {
      PlacedEntry(w, v', e);
    }
  }

  lemma {:induction false} PlacedEntry(w: Work, v': Version, e: Entry)
    requires w.Valid() && AllPlaced(v') == After(AllPlaced(w.v), w.Edit())
    ensures e in EntriesOf(AllPlaced(v')) <==> e in Untouched(w.v, w.level, w.in0, w.in1) || e in Concat(w.outputs)
  {
    hide Rules, Ordered, UniqueSequences, Selected, IsMerge, WellFormed, Layered, SortedTable, Stays, Work.Made;
    WorkFacts(w);
    ConcatMembers(w.outputs);
    var added := w.Edit().added;
    if e in EntriesOf(AllPlaced(v')) {
      var p: Placed :| p in AllPlaced(v') && e in p.1.table;
      if p in added {
        var i :| 0 <= i < |added| && added[i] == p;
        assert e in w.outputs[i].table;
      } else {
        StaysUnlessChosen(w, p);
        UntouchedEntry(w.v, w.level, w.in0, w.in1, p.0, p.1, e);
      }
    }
    if e in Untouched(w.v, w.level, w.in0, w.in1) {
      var l, f := UntouchedHasFile(w.v, w.level, w.in0, w.in1, e);
      StaysUnlessChosen(w, (l, f));
      assert (l, f) in AllPlaced(v');
    }
    if e in Concat(w.outputs) {
      var i :| 0 <= i < |w.outputs| && e in w.outputs[i].table;
      assert added[i] == (w.level + 1, w.outputs[i]);
      assert added[i] in AllPlaced(v');
    }
  }

  // ----- recovery -----

  // The level-0 tables that recovery writes from the logs, oldest first.
  function RecoveryEdit(tables: seq<FileMetaData>): FileEdit {
    FileEdit({}, AtLevel(0, tables))
  }

  ghost predicate RecoveryTables(v: Version, next: nat, tables: seq<FileMetaData>, next': nat) {
    && next <= next'
    && (forall i :: 0 <= i < |tables| ==> tables[i].Valid() && next <= tables[i].number < next')
    && (forall i, j :: 0 <= i < j < |tables| ==>
          tables[i].number < tables[j].number && NewerThan(tables[j].table, tables[i].table))
    && (forall i, p :: 0 <= i < |tables| && p in AllPlaced(v) ==> NewerThan(tables[i].table, p.1.table))
  }

  /** Adding the recovered tables to level 0 keeps the rules. */
  lemma {:induction false} RecoveryKeepsRules(v: Version, next: nat, tables: seq<FileMetaData>, next': nat, v': Version)
    requires Sound(v, next) && RecoveryTables(v, next, tables, next') && Installed(v, RecoveryEdit(tables), v')
    ensures Sound(v', next')
    ensures AllEntries(v') == AllEntries(v) + Contents(Concat(tables))
  {
    hide Rules, Ordered, NewerThan, Separate, FileMetaData.Valid, Installed, NewFiles;
    var edit := RecoveryEdit(tables);
    RecoveryIsNew(v, next, tables, next');
    forall p | p in edit.added
      ensures p.0 == 0 && p.1 in tables && UsableFile(p, next')
    {
      var i :| 0 <= i < |tables| && edit.added[i] == p;
    }
    forall p, q | p in edit.added && q in edit.added
      ensures Compatible(p, q)
    {
      var i :| 0 <= i < |tables| && edit.added[i] == p;
      var j :| 0 <= j < |tables| && edit.added[j] == q;
      assert j < i ==> tables[j].number < tables[i].number && NewerThan(tables[i].table, tables[j].table);
      assert i < j ==> tables[i].number < tables[j].number;
    }
    forall p, q | p in edit.added && q in AllPlaced(v)
      ensures Compatible(p, q) && Compatible(q, p)
    {
      var i :| 0 <= i < |tables| && edit.added[i] == p;
      NumberIsFree(v, next, tables[i].number, q);
      UsableAt(v, next, q);
    }
    EditKeepsRules(v, edit, v', next, next');
    InstalledPlaces(v, edit, v');
    RecoveredEntries(v, tables, v');
  }

  lemma {:induction false} RecoveryIsNew(v: Version, next: nat, tables: seq<FileMetaData>, next': nat)
    requires Sound(v, next) && RecoveryTables(v, next, tables, next')
    ensures NewFiles(v, RecoveryEdit(tables))
  {
    hide Rules, Ordered, NewerThan, FreshAdditions, FileMetaData.Valid;
    var added := RecoveryEdit(tables).added;
    forall l | 0 <= l < NUM_LEVELS
      ensures FreshAdditions(UsedAt(v, l), l, added)
    {
      forall i | 0 <= i < |added|
        ensures added[i].1.number !in UsedAt(v, l)
      {
        forall f | f in v.files[l]
          ensures f.number != added[i].1.number
        {
          NumberIsFree(v, next, added[i].1.number, (l, f));
        }
      }
      DistinctIsFresh(UsedAt(v, l), l, added);
    }
  }

  lemma {:induction false} RecoveredEntries(v: Version, tables: seq<FileMetaData>, v': Version)
    requires AllPlaced(v') == After(AllPlaced(v), RecoveryEdit(tables))
    ensures AllEntries(v') == AllEntries(v) + Contents(Concat(tables))
  {
    EntriesByPlace(v);
    EntriesByPlace(v');
    ConcatMembers(tables);
    var added := RecoveryEdit(tables).added;
    forall e
      ensures e in EntriesOf(AllPlaced(v')) <==> e in EntriesOf(AllPlaced(v)) || e in Concat(tables)
    {
      if e in EntriesOf(AllPlaced(v')) {
        var p: Placed :| p in AllPlaced(v') && e in p.1.table;
        if p in added {
          var i :| 0 <= i < |added| && added[i] == p;
          assert e in tables[i].table;
        } else {
          assert p in AllPlaced(v);
        }
      }
      if e in Concat(tables) {
        var i :| 0 <= i < |tables| && e in tables[i].table;
        assert added[i] in AllPlaced(v') && e in added[i].1.table;
      }
      if e in EntriesOf(AllPlaced(v)) {
        var p: Placed :| p in AllPlaced(v) && e in p.1.table;
        assert p in AllPlaced(v');
      }
    }
  }
}
