/**
 The edits that a store writes never add a file number twice at one level, so reading a
 manifest back restores the version that was current when it was written
 (db/version_set.cc: LogAndApply, Recover).  A number is new, or its file moves down from
 a level above; no file ever moves up.
 */
module ManifestHistory {
  import opened Wrappers
  import opened DbFormat
  import opened Views
  import opened Versions
  import opened CompactionInputs
  import opened Compactions
  import opened CompactionPicker
  import opened MergeRules
  import opened CompactionMeaning
  import opened VersionBuilder
  import opened ManifestReplay
  import opened LevelRules
  import opened FlushDuringCompaction

  // ----- what the levels have used so far -----

  type Usage = seq<set<nat>>

  // The numbers of a level's files were used there, and below none of them ever was.
  ghost predicate FilesBelong(p: Placed, used: Usage)
    requires |used| == NUM_LEVELS
  {
    && p.0 < NUM_LEVELS && p.1.number in used[p.0]
    && forall l :: p.0 < l < NUM_LEVELS ==> p.1.number !in used[l]
  }

  ghost predicate Consistent(v: Version, used: Usage) {
    |used| == NUM_LEVELS && forall p :: p in AllPlaced(v) ==> FilesBelong(p, used)
  }

  ghost function UsedBy(v: Version): Usage
    requires |v.files| == NUM_LEVELS
  {
    seq(NUM_LEVELS, l requires 0 <= l < NUM_LEVELS => UsedAt(v, l))
  }

  lemma {:induction false} StartIsConsistent(v: Version, next: nat)
    requires Sound(v, next)
    ensures Consistent(v, UsedBy(v))
    ensures forall l, n :: 0 <= l < NUM_LEVELS && n in UsedBy(v)[l] ==> n < next
  {
    hide FileMetaData.Valid, Compatible, Ordered;
    forall l, n | 0 <= l < NUM_LEVELS && n in UsedBy(v)[l]
      ensures n < next
      ensures forall p :: p in AllPlaced(v) && p.1.number == n ==> p.0 == l
    {
      var f :| f in v.files[l] && f.number == n;
      assert (l, f) in AllPlaced(v);
      forall p | p in AllPlaced(v) && p.1.number == n
        ensures p.0 == l
      {
        SameNumberSameFile(v, next, p, (l, f));
      }
    }
  }

  // ----- edits whose files are new or move down -----

  ghost predicate Unused(used: Usage, number: nat) {
    forall l :: 0 <= l < |used| ==> number !in used[l]
  }

  ghost predicate Descends(s: set<Placed>, used: Usage, edit: FileEdit, p: Placed) {
    Unused(used, p.1.number) || exists k: nat :: k < p.0 && MovesFrom(s, edit, k, p.1)
  }

  ghost predicate MovesFrom(s: set<Placed>, edit: FileEdit, k: nat, f: FileMetaData) {
    (k, f) in s && (k, f.number) in edit.deleted
  }

  predicate DistinctAdded(added: seq<Placed>) {
    forall i, j :: 0 <= i < j < |added| ==> added[i].1.number != added[j].1.number
  }

  ghost predicate Descending(v: Version, used: Usage, edit: FileEdit) {
    && ValidEdit(edit)
    && DistinctAdded(edit.added)
    && forall p :: p in edit.added ==> Descends(AllPlaced(v), used, edit, p)
  }

  ghost function UsedAfter(used: Usage, edit: FileEdit): Usage
    requires |used| == NUM_LEVELS
  {
    seq(NUM_LEVELS, l requires 0 <= l < NUM_LEVELS => used[l] + Numbers(AddedAt(edit.added, l)))
  }

  // An added file was never at its level or below it.
  lemma {:induction false} AddedIsNewHere(v: Version, used: Usage, edit: FileEdit, p: Placed, l: nat)
    requires Consistent(v, used) && Descending(v, used, edit)
    requires p in edit.added && p.0 <= l < NUM_LEVELS
    ensures p.1.number !in used[l]
  {
    if !Unused(used, p.1.number) {
      var k: nat :| k < p.0 && MovesFrom(AllPlaced(v), edit, k, p.1);
      assert FilesBelong((k, p.1), used);
    }
  }

  lemma {:induction false} DescendingIsFresh(v: Version, used: Usage, edit: FileEdit, l: nat)
    requires Consistent(v, used) && Descending(v, used, edit) && l < NUM_LEVELS
    ensures FreshAdditions(used[l], l, edit.added)
  {
    hide Consistent, FreshAdditions;
    assert |used| == NUM_LEVELS by { UsageShape(v, used); }
    forall i | 0 <= i < |edit.added| && edit.added[i].0 == l
      ensures edit.added[i].1.number !in used[l]
    {
      AddedIsNewHere(v, used, edit, edit.added[i], l);
    }
    DistinctIsFresh(used[l], l, edit.added);
  }

  lemma {:induction false} UsageShape(v: Version, used: Usage)
    requires Consistent(v, used)
    ensures |used| == NUM_LEVELS
  {
  }

  lemma {:induction false} NumbersAdded(added: seq<Placed>, l: nat, n: nat)
    ensures n in Numbers(AddedAt(added, l)) <==> exists f: FileMetaData :: f.number == n && (l, f) in added
  {
    if n in Numbers(AddedAt(added, l)) {
      var f :| f in AddedAt(added, l) && f.number == n;
      assert (l, f) in added;
    }
    if f: FileMetaData :| f.number == n && (l, f) in added {
      assert f in AddedAt(added, l);
    }
  }

  lemma {:induction false} DistinctPlaces(added: seq<Placed>, p: Placed, q: Placed)
    requires DistinctAdded(added) && p in added && q in added && p.1.number == q.1.number
    ensures p == q
  {
    var i :| 0 <= i < |added| && added[i] == p;
    var j :| 0 <= j < |added| && added[j] == q;
  }

  lemma {:induction false} FilesStillBelong(v: Version, used: Usage, next: nat, edit: FileEdit, p: Placed)
    requires Sound(v, next) && Consistent(v, used) && Descending(v, used, edit)
    requires p in After(AllPlaced(v), edit)
    ensures FilesBelong(p, UsedAfter(used, edit))
  {
    hide Sound, AllPlaced;
    var now := UsedAfter(used, edit);
    NumbersAdded(edit.added, p.0, p.1.number);
    forall l: nat | p.0 < l < NUM_LEVELS
      ensures p.1.number !in now[l]
    {
      NumbersAdded(edit.added, l, p.1.number);
      if p in edit.added {
        AddedIsNewHere(v, used, edit, p, l);
        forall f | (l, f) in edit.added && f.number == p.1.number
          ensures false
        {
          DistinctPlaces(edit.added, p, (l, f));
        }
      } else {
        assert FilesBelong(p, used);
        forall f | (l, f) in edit.added
          ensures f.number != p.1.number
        {
          if f.number == p.1.number {
            var k: nat :| k < l && MovesFrom(AllPlaced(v), edit, k, f);
            SameNumberSameFile(v, next, p, (k, f));
          }
        }
      }
    }
  }

  lemma {:induction false} DescendingIsNew(v: Version, used: Usage, edit: FileEdit)
    requires |v.files| == NUM_LEVELS && Consistent(v, used) && Descending(v, used, edit)
    ensures NewFiles(v, edit)
  {
    hide FreshAdditions, Descends;
    forall l: nat | l < NUM_LEVELS
      ensures FreshAdditions(UsedAt(v, l), l, edit.added)
    {
      forall i | 0 <= i < |edit.added| && edit.added[i].0 == l
        ensures edit.added[i].1.number !in UsedAt(v, l)
      {
        AddedIsNewHere(v, used, edit, edit.added[i], l);
        forall f | f in v.files[l]
          ensures f.number in used[l]
        {
          assert (l, f) in AllPlaced(v);
        }
      }
      DistinctIsFresh(UsedAt(v, l), l, edit.added);
    }
  }

  lemma {:induction false} StepIsConsistent(v: Version, used: Usage, next: nat, edit: FileEdit, v': Version)
    requires Sound(v, next) && Consistent(v, used) && Descending(v, used, edit) && Installed(v, edit, v')
    ensures NewFiles(v, edit)
    ensures Consistent(v', UsedAfter(used, edit))
  {
    hide Rules, Ordered, Descends, DistinctAdded, FilesBelong, FreshAdditions, Installed;
    DescendingIsNew(v, used, edit);
    InstalledPlaces(v, edit, v');
    forall p | p in AllPlaced(v')
      ensures FilesBelong(p, UsedAfter(used, edit))
    {
      FilesStillBelong(v, used, next, edit, p);
    }
  }

  // ----- the changes that a store makes -----

  datatype Change =
    | Flush(level: nat, file: FileMetaData)
    | Move(level: nat, file: FileMetaData)
    | Compact(work: Work)
    | Reopen(tables: seq<FileMetaData>)
  {
    function Edit(): FileEdit {
      match this
      case Flush(level, f) => FlushEdit(level, f)
      case Move(level, f) => MoveEdit(level, f)
      case Compact(work) => work.Edit()
      case Reopen(tables) => RecoveryEdit(tables)
    }

    // What the store has made sure of before it writes the edit.  A compaction may have
    // begun on an earlier version, with flushes since.
    ghost predicate Legal(v: Version, next: nat, next': nat) {
      && next <= next'
      && match this
         case Flush(level, f) => Flushable(v, next, level, f) && f.number < next'
         case Move(level, f) => UniqueSequences(AllEntries(v)) && Selected(v, level, [f], [])
         case Compact(work) => work.Valid() && Meanwhile(work, v, next) && OutputsClear(work, v) && work.nextAfter <= next'
         case Reopen(tables) => RecoveryTables(v, next, tables, next')
    }

    // The tables that it makes.
    function Made(): seq<FileMetaData> {
      match this
      case Flush(_, f) => [f]
      case Move(_, _) => []
      case Compact(work) => work.outputs
      case Reopen(tables) => tables
    }
  }

  ghost predicate Changed(v: Version, used: Usage, next: nat, c: Change, v': Version, next': nat) {
    && |v.files| == NUM_LEVELS
    && c.Legal(v, next, next')
    && (forall f :: f in c.Made() ==> Unused(used, f.number))
    && Installed(v, c.Edit(), v')
  }

  lemma {:induction false} FlushDescends(v: Version, used: Usage, next: nat, level: nat, f: FileMetaData)
    requires Flushable(v, next, level, f) && Unused(used, f.number)
    ensures Descending(v, used, FlushEdit(level, f))
  {
    hide NewerThan, NoOverlap, FileMetaData.Valid;
    assert FlushEdit(level, f).added == [(level, f)];
  }

  lemma {:induction false} MoveDescends(v: Version, used: Usage, next: nat, level: nat, f: FileMetaData)
    requires Sound(v, next) && Selected(v, level, [f], [])
    ensures Descending(v, used, MoveEdit(level, f))
  {
    hide Ordered, Compatible, Shaped, FileMetaData.Valid;
    ChosenFilesAreThere(v, level, [f], []);
    assert f in [f] && f in v.files[level];
    var edit := MoveEdit(level, f);
    assert (level, f) in AllPlaced(v);
    assert MovesFrom(AllPlaced(v), edit, level, f);
  }

  lemma {:induction false} CompactionDescends(w: Work, v: Version, used: Usage)
    requires w.Valid() && forall f :: f in w.outputs ==> Unused(used, f.number)
    ensures Descending(v, used, w.Edit())
  {
    hide Sound, UniqueSequences, Selected, IsMerge, WellFormed, Layered, Shaped, SortedTable, FileMetaData.Valid, Unused;
    WorkFacts(w);
    var added := w.Edit().added;
    forall i | 0 <= i < |added|
      ensures added[i] == (w.level + 1, w.outputs[i])
    {
    }
  }

  lemma {:induction false} ReopenDescends(v: Version, used: Usage, next: nat, tables: seq<FileMetaData>, next': nat)
    requires RecoveryTables(v, next, tables, next') && forall f :: f in tables ==> Unused(used, f.number)
    ensures Descending(v, used, RecoveryEdit(tables))
  {
    hide NewerThan, FileMetaData.Valid, Unused;
    var added := RecoveryEdit(tables).added;
    forall i | 0 <= i < |added|
      ensures added[i] == (0, tables[i])
    {
    }
  }

  lemma {:induction false} ChangeDescends(v: Version, used: Usage, next: nat, c: Change, v': Version, next': nat)
    requires Sound(v, next) && Changed(v, used, next, c, v', next')
    ensures Descending(v, used, c.Edit())
  {
    hide Sound, Flushable, Selected, Work.Valid, RecoveryTables, Descending, Installed, AllEntries, UniqueSequences, Unused, Meanwhile,
      OutputsClear;
    match c
    case Flush(level, f) =>
      assert f in c.Made();
      FlushDescends(v, used, next, level, f);
    case Move(level, f) => MoveDescends(v, used, next, level, f);
    case Compact(w) => CompactionDescends(w, v, used);
    case Reopen(tables) => ReopenDescends(v, used, next, tables, next');
  }

  lemma {:induction false} ChangeKeepsRules(v: Version, used: Usage, next: nat, c: Change, v': Version, next': nat)
    requires Sound(v, next) && Changed(v, used, next, c, v', next')
    ensures Sound(v', next')
  {
    hide Sound, Flushable, Selected, RecoveryTables, Installed, AllEntries, UniqueSequences, Work.Valid, Meanwhile, OutputsClear, Unused;
    match c
    case Flush(level, f) => FlushKeepsRules(v, next, level, f, v', next');
    case Move(level, f) =>
      MoveKeepsRules(v, next, level, f, v');
      SoundLater(v', next, next');
    case Compact(w) => RulesKeptExactly(w, v, next, v', next');
    case Reopen(tables) => RecoveryKeepsRules(v, next, tables, next', v');
  }

  // ----- a whole history -----

  ghost predicate Run(v: Version, used: Usage, next: nat, changes: seq<Change>, v': Version, next': nat)
    decreases |changes|
  {
    && |used| == NUM_LEVELS
    && if changes == [] then v' == v && next' == next
       else exists v1, next1: nat :: Changed(v, used, next, changes[0], v1, next1)
                                     && Run(v1, UsedAfter(used, changes[0].Edit()), next1, changes[1..], v', next')
  }

  function Edits(changes: seq<Change>): seq<FileEdit>
    decreases |changes|
  {
    if changes == [] then [] else [changes[0].Edit()] + Edits(changes[1..])
  }

  /**
   The edits of any run add no number twice at a level, and installing them in turn gives
   the last version.
   */
  lemma {:induction false} HistoryIsFresh(v: Version, used: Usage, next: nat, changes: seq<Change>, v': Version, next': nat, l: nat)
    requires Sound(v, next) && Consistent(v, used) && Run(v, used, next, changes, v', next') && l < NUM_LEVELS
    ensures |v.files| == |v'.files| == |used| == NUM_LEVELS
    ensures FreshHistory(used[l], l, Edits(changes))
    ensures InstallAll(v.files[l], l, Edits(changes)) == v'.files[l]
    ensures Sound(v', next')
    decreases |changes|
  {
    hide Sound, Consistent, Changed, Descending, FreshAdditions, Install, Change.Edit;
    UsageShape(v, used);
    SoundShape(v, next);
    if changes != [] {
      var c := changes[0];
      var used1 := UsedAfter(used, c.Edit());
      var v1, next1: nat :| Changed(v, used, next, c, v1, next1) && Run(v1, used1, next1, changes[1..], v', next');
      ChangeDescends(v, used, next, c, v1, next1);
      ChangeKeepsRules(v, used, next, c, v1, next1);
      ChangeInstalls(v, used, next, c, v1, next1, l);
      StepIsConsistent(v, used, next, c.Edit(), v1);
      DescendingIsFresh(v, used, c.Edit(), l);
      HistoryIsFresh(v1, used1, next1, changes[1..], v', next', l);
      assert Edits(changes)[0] == c.Edit() && Edits(changes)[1..] == Edits(changes[1..]);
    }
  }

  lemma {:induction false} SoundShape(v: Version, next: nat)
    requires Sound(v, next)
    ensures |v.files| == NUM_LEVELS && OrderedLevels(v)
  {
  }

  lemma {:induction false} ChangeInstalls(v: Version, used: Usage, next: nat, c: Change, v': Version, next': nat, l: nat)
    requires Changed(v, used, next, c, v', next') && l < NUM_LEVELS
    ensures |v.files| == |v'.files| == NUM_LEVELS && Installed(v, c.Edit(), v')
    ensures v'.files[l] == Install(v.files[l], l, c.Edit())
  {
    hide Change.Legal, Change.Edit, Install;
  }

  lemma {:induction false} NumbersAreDistinct(v: Version, next: nat, l: nat)
    requires Sound(v, next) && l < NUM_LEVELS
    ensures DistinctNumbers(v.files[l]) && Ordered(v.files[l])
  {
    hide FileMetaData.Valid, Compatible;
    var files := v.files[l];
    forall i, j | 0 <= i < j < |files|
      ensures files[i].number != files[j].number
    {
      assert (l, files[i]) in AllPlaced(v) && (l, files[j]) in AllPlaced(v);
      assert BySmallestKey(files[i], files[j]);
      if files[i].number == files[j].number {
        SameNumberSameFile(v, next, (l, files[i]), (l, files[j]));
      }
    }
  }

  // A run from a version, with nothing used but what the version has.
  ghost predicate RunFrom(v: Version, next: nat, changes: seq<Change>, v': Version, next': nat) {
    |v.files| == NUM_LEVELS && Run(v, UsedBy(v), next, changes, v', next')
  }

  /**
   A manifest that starts with the snapshot of any sound version and goes on with the
   edits of any run gives back the version that the run ended with.
   */
  lemma {:induction false} ReopeningRestores(v: Version, next: nat, changes: seq<Change>, v': Version, next': nat, l: nat)
    requires Sound(v, next) && RunFrom(v, next, changes, v', next') && l < NUM_LEVELS
    ensures |v.files| == |v'.files| == NUM_LEVELS
    ensures SaveLevel([], ApplyAll(NO_CHANGE, l, [SnapshotEdit(v)] + Edits(changes))) == v'.files[l]
  {
    hide Sound, Consistent, Run, FreshHistory, DistinctNumbers, Ordered, ApplyAll, SnapshotEdit;
    StartIsConsistent(v, next);
    HistoryIsFresh(v, UsedBy(v), next, changes, v', next', l);
    NumbersAreDistinct(v, next, l);
    assert NumbersWithin(v.files[l], UsedBy(v)[l]);
    RecoverRestoresVersion(v, l, Edits(changes), UsedBy(v)[l]);
  }
}
