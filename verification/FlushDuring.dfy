/**
 A flush in the middle of a merge.  DoCompactionWork writes out a full memtable whenever
 it finds one (db/db_impl.cc:908-918), and the table may go to any level that
 PickLevelForMemTableOutput allows over the current version, the output level of the
 running merge included.  The outputs are not in any version yet, so nothing keeps that
 table out of their ranges.
 */
module FlushDuringCompaction {
  import opened Wrappers
  import opened DbFormat
  import opened Views
  import opened StoreViews
  import opened Versions
  import opened CompactionInputs
  import opened Compactions
  import opened CompactionPicker
  import opened MergeRules
  import opened CompactionMeaning
  import opened VersionBuilder
  import opened ManifestReplay
  import opened LevelRules

  predicate Meets(x: FileMetaData, f: FileMetaData) {
    Overlaps(x, Some(f.smallest.user), Some(f.largest.user))
  }

  ghost predicate NewerThanAll(f: FileMetaData, s: set<Placed>) {
    forall q :: q in s ==> NewerThan(f.table, q.1.table)
  }

  // Nothing at the level or above it meets a table that was pushed below level 0.
  ghost predicate Pushable(p: Placed, s: set<Placed>) {
    p.0 > 0 ==> forall q :: q in s && q.0 <= p.0 ==> !Meets(q.1, p.1)
  }

  // What is known of a table that was flushed after the merge had begun.
  ghost predicate FlushedBeside(w: Work, p: Placed) {
    && p.1.Valid()
    && NewerThanAll(p.1, AllPlaced(w.v)) && Pushable(p, AllPlaced(w.v))
    && forall x :: x in w.outputs ==> x.number != p.1.number
  }

  // The files that came into the version while the merge was running.
  ghost function Flushed(w: Work, v: Version): set<Placed> {
    AllPlaced(v) - AllPlaced(w.v)
  }

  // A version that is current while the merge is running: the version that the merge
  // began with, and tables flushed since.
  ghost predicate Meanwhile(w: Work, v: Version, next: nat) {
    && Sound(v, next)
    && AllPlaced(w.v) <= AllPlaced(v)
    && forall p :: p in Flushed(w, v) ==> FlushedBeside(w, p)
  }

  lemma {:induction false} MergeBegins(w: Work)
    requires Sound(w.v, w.next)
    ensures Meanwhile(w, w.v, w.next)
  {
    hide Sound;
  }

  /** Any number of flushes may happen while the merge is running. */
  lemma {:induction false} FlushStaysMeanwhile(w: Work, v: Version, next: nat, level: nat, f: FileMetaData, v': Version, next': nat)
    requires Meanwhile(w, v, next)
    requires Flushable(v, next, level, f) && f.number < next' && (forall x :: x in w.outputs ==> x.number != f.number)
    requires Installed(v, FlushEdit(level, f), v')
    ensures Meanwhile(w, v', next')
    ensures Flushed(w, v') == Flushed(w, v) + {(level, f)}
  {
    hide Rules, Ordered, NewerThan, FileMetaData.Valid, Installed, NewFiles, Overlaps;
    var p := (level, f);
    FlushKeepsRules(v, next, level, f, v', next');
    FlushIsNew(v, next, level, f);
    InstalledPlaces(v, FlushEdit(level, f), v');
    assert AllPlaced(v') == AllPlaced(v) + {p};
    assert p !in AllPlaced(v) by {
      if p in AllPlaced(v) {
        NumberIsFree(v, next, f.number, p);
      }
    }
    assert Pushable(p, AllPlaced(w.v)) by {
      forall q | q in AllPlaced(w.v) && q.0 <= level && level > 0
        ensures !Meets(q.1, f)
      {
        assert q in AllPlaced(v);
      }
    }
  }

  // ----- how the outputs stand to the flushed tables -----

  lemma {:induction false} OutputPlace(w: Work, x: FileMetaData, e: Entry) returns (q: Placed)
    requires w.Valid() && x in w.outputs && e in x.table
    ensures q in AllPlaced(w.v) && e in q.1.table && q.1.Valid() && (q.0 == w.level || q.0 == w.level + 1)
  {
    hide Rules, Ordered, UniqueSequences, Selected, IsMerge, WellFormed, Layered, Work.Made, FileMetaData.Valid;
    WorkFacts(w);
    var l, f := OutputHasFile(w, x, e);
    q := (l, f);
    UsableAt(w.v, w.next, q);
  }

  // A table that was pushed to the output level or deeper shares no user key with any
  // output, whatever its range is.
  lemma {:induction false} SharesNoUserKey(w: Work, x: FileMetaData, p: Placed, e: Entry, o: Entry)
    requires w.Valid() && x in w.outputs && FlushedBeside(w, p) && p.0 > w.level
    requires e in x.table && o in p.1.table
    ensures e.key.user != o.key.user
  {
    hide Work.Valid, FileMetaData.Valid, NewerThanAll, AllPlaced;
    var q := OutputPlace(w, x, e);
    EntryInRange(q.1, e);
    EntryInRange(p.1, o);
    assert !Meets(q.1, p.1);
  }

  lemma {:induction false} FlushedIsNewer(w: Work, x: FileMetaData, p: Placed)
    requires w.Valid() && x in w.outputs && FlushedBeside(w, p)
    ensures NewerThan(p.1.table, x.table)
    ensures p.0 > w.level ==> NewerThan(x.table, p.1.table)
  {
    hide Work.Valid, FileMetaData.Valid, AllPlaced, Pushable;
    forall e, o | e in x.table && o in p.1.table && e.key.user == o.key.user
      ensures o.key.sequence > e.key.sequence && p.0 <= w.level
    {
      var q := OutputPlace(w, x, e);
      assert NewerThan(p.1.table, q.1.table);
      if p.0 > w.level {
        SharesNoUserKey(w, x, p, e, o);
      }
    }
  }

  // On the output level the two are apart if and only if their ranges do not meet.
  lemma {:induction false} ApartUnlessTheyMeet(w: Work, x: FileMetaData, p: Placed)
    requires w.Valid() && x in w.outputs && FlushedBeside(w, p) && p.0 > w.level
    ensures x.Valid()
    ensures Separate(x, p.1) <==> !Meets(x, p.1)
    ensures Separate(p.1, x) <==> !Meets(x, p.1)
  {
    hide Work.Valid, NewerThanAll, Pushable, AllPlaced;
    var f := p.1;
    var i := OutputNumber(w, x);
    FileIsOrdered(x);
    FileIsOrdered(f);
    var first, last := x.table[0], x.table[|x.table| - 1];
    SharesNoUserKey(w, x, p, first, f.table[|f.table| - 1]);
    SharesNoUserKey(w, x, p, last, f.table[0]);
  }

  lemma {:induction false} OutputFitsFlushed(w: Work, x: FileMetaData, p: Placed)
    requires w.Valid() && x in w.outputs && FlushedBeside(w, p)
    requires p.0 == w.level + 1 ==> !Meets(x, p.1)
    ensures Compatible((w.level + 1, x), p) && Compatible(p, (w.level + 1, x))
  {
    hide Work.Valid, NewerThanAll, Pushable, AllPlaced, NewerThan, Separate, Meets, FileMetaData.Valid;
    FlushedIsNewer(w, x, p);
    if p.0 == w.level + 1 {
      ApartUnlessTheyMeet(w, x, p);
    }
  }

  // ----- the edit of the merge, over the version that is current by then -----

  lemma {:induction false} OutputsAreNewStill(w: Work, v: Version, next: nat)
    requires w.Valid() && Meanwhile(w, v, next)
    ensures NewFiles(v, w.Edit())
  {
    hide Sound, UniqueSequences, Selected, IsMerge, WellFormed, SortedTable, FreshAdditions, NewerThanAll, Pushable, FileMetaData.Valid;
    WorkFacts(w);
    var added := w.Edit().added;
    forall l | 0 <= l < NUM_LEVELS
      ensures FreshAdditions(UsedAt(v, l), l, added)
    {
      forall i | 0 <= i < |added| && added[i].0 == l
        ensures added[i].1.number !in UsedAt(v, l)
      {
        forall f | l < |v.files| && f in v.files[l]
          ensures f.number != added[i].1.number
        {
          NumberIsUnused(w, v, next, added[i].1, (l, f));
        }
      }
      DistinctIsFresh(UsedAt(v, l), l, added);
    }
  }

  lemma {:induction false} NumberIsUnused(w: Work, v: Version, next: nat, x: FileMetaData, p: Placed)
    requires w.Valid() && Meanwhile(w, v, next) && x in w.outputs && p in AllPlaced(v)
    ensures p.1.number != x.number
  {
    hide Sound, UniqueSequences, Selected, IsMerge, AllPlaced, NewerThanAll, Pushable, FileMetaData.Valid;
    var i := OutputNumber(w, x);
    if p in AllPlaced(w.v) {
      NumberIsFree(w.v, w.next, x.number, p);
    } else {
      assert p in Flushed(w, v);
    }
  }

  // The edit takes out the chosen files and no other.
  lemma {:induction false} StillStays(w: Work, v: Version, next: nat, q: Placed)
    requires w.Valid() && Meanwhile(w, v, next) && q in AllPlaced(v)
    ensures Stays(q, w.Edit()) <==> q in Flushed(w, v) || !SelectedAt(w.level, w.in0, w.in1, q.0, q.1)
  {
    hide Rules, Ordered, UniqueSequences, Selected, IsMerge, FlushedBeside, Work.Made;
    if q in AllPlaced(w.v) {
      StaysUnlessChosen(w, q);
    } else {
      WorkFacts(w);
      ChosenFilesAreThere(w.v, w.level, w.in0, w.in1);
      forall f | (f in w.in0 && q.0 == w.level) || (f in w.in1 && q.0 == w.level + 1)
        ensures f.number != q.1.number
      {
        var p := (q.0, f);
        assert p in AllPlaced(w.v);
        if f.number == q.1.number {
          SameNumberSameFile(v, next, p, q);
        }
      }
    }
  }

  // No table that was flushed to the output level lies within the range of an output.
  ghost predicate OutputsClear(w: Work, v: Version) {
    forall p, x :: p in Flushed(w, v) && p.0 == w.level + 1 && x in w.outputs ==> !Meets(x, p.1)
  }

  lemma {:induction false} ClearOutputsFit(w: Work, v: Version, next: nat, x: FileMetaData, q: Placed)
    requires w.Valid() && Meanwhile(w, v, next) && OutputsClear(w, v)
    requires x in w.outputs && q in AllPlaced(v) && Stays(q, w.Edit())
    ensures Compatible((w.level + 1, x), q) && Compatible(q, (w.level + 1, x))
  {
    hide Work.Valid, Sound, AllPlaced, FlushedBeside, Stays, Compatible, Meets;
    StillStays(w, v, next, q);
    if q in AllPlaced(w.v) {
      OutputFits(w, x, q);
    } else {
      OutputFitsFlushed(w, x, q);
    }
  }

  /**
   The result of the merge obeys the level rules over a version that was flushed to in
   the meantime if and only if no output covers a table flushed to the output level.
   */
  lemma {:induction false} RulesKeptExactly(w: Work, v: Version, next: nat, v': Version, next': nat)
    requires w.Valid() && Meanwhile(w, v, next) && Installed(v, w.Edit(), v')
    requires next <= next' && w.nextAfter <= next'
    ensures Sound(v', next') <==> OutputsClear(w, v)
  {
    hide Work.Valid, Installed, NewFiles, Rules, Ordered, FlushedBeside, Stays, Compatible, OutputsClear, AllPlaced;
    OutputsAreNewStill(w, v, next);
    if OutputsClear(w, v) {
      InstalledIsSound(w, v, next, v', next');
    }
    if Sound(v', next') {
      SoundIsClear(w, v, next, v', next');
    }
  }

  lemma {:induction false} InstalledIsSound(w: Work, v: Version, next: nat, v': Version, next': nat)
    requires w.Valid() && Meanwhile(w, v, next) && NewFiles(v, w.Edit()) && Installed(v, w.Edit(), v')
    requires next <= next' && w.nextAfter <= next' && OutputsClear(w, v)
    ensures Sound(v', next')
  {
    hide Sound, UniqueSequences, Selected, IsMerge, Work.Made, Installed, NewFiles, FlushedBeside, Stays, Compatible, OutputsClear, AllPlaced,
      FileMetaData.Valid;
    var edit := w.Edit();
    WorkFacts(w);
    forall p | p in edit.added
      ensures p.0 == w.level + 1 && p.1 in w.outputs && UsableFile(p, next')
    {
      var i := OutputNumber(w, p.1);
    }
    forall p, q | p in edit.added && q in edit.added
      ensures Compatible(p, q)
    {
      OutputsFitEachOther(w, p.1, q.1);
    }
    forall p, q | p in edit.added && q in AllPlaced(v) && Stays(q, edit)
      ensures Compatible(p, q) && Compatible(q, p)
    {
      ClearOutputsFit(w, v, next, p.1, q);
    }
    EditKeepsRules(v, edit, v', next, next');
  }

  lemma {:induction false} SoundIsClear(w: Work, v: Version, next: nat, v': Version, next': nat)
    requires w.Valid() && Meanwhile(w, v, next) && NewFiles(v, w.Edit()) && Installed(v, w.Edit(), v')
    requires Sound(v', next')
    ensures OutputsClear(w, v)
  {
    hide Work.Valid, Installed, NewFiles, Ordered, FlushedBeside, Stays, Meets, AllPlaced, FileMetaData.Valid, Separate, NewerThan;
    InstalledPlaces(v, w.Edit(), v');
    forall p, x | p in Flushed(w, v) && p.0 == w.level + 1 && x in w.outputs
      ensures !Meets(x, p.1)
    {
      var i: nat :| i < |w.outputs| && w.outputs[i] == x;
      var y := (w.level + 1, x);
      assert w.Edit().added[i] == y;
      StillStays(w, v, next, p);
      assert y in AllPlaced(v') && p in AllPlaced(v');
      NumberIsUnused(w, v, next, x, p);
      assert Compatible(y, p);
      ApartUnlessTheyMeet(w, x, p);
    }
  }

  // ----- which merges cannot be in the way -----

  predicate LiesBehind(p: Placed, f: FileMetaData) {
    f.largest.user < p.1.smallest.user
  }

  predicate LiesBefore(p: Placed, f: FileMetaData) {
    p.1.largest.user < f.smallest.user
  }

  // Every chosen file lies on one side of a table that was pushed to the output level.
  lemma {:induction false} ChosenBeside(w: Work, p: Placed, l: nat, f: FileMetaData)
    requires w.Valid() && FlushedBeside(w, p) && p.0 == w.level + 1
    requires l == w.level || l == w.level + 1
    requires f in (if l == w.level then w.in0 else w.in1)
    ensures f.Valid() && (LiesBehind(p, f) || LiesBefore(p, f))
  {
    hide Rules, Ordered, UniqueSequences, Selected, IsMerge, WellFormed, Work.Made, NewerThanAll, FileMetaData.Valid;
    WorkFacts(w);
    ChosenFilesAreThere(w.v, w.level, w.in0, w.in1);
    var q := (l, f);
    assert q in AllPlaced(w.v);
    UsableAt(w.v, w.next, q);
    assert !Meets(f, p.1);
  }

  // A chosen file on one side has a chosen file of the input level on the same side.
  lemma {:induction false} InputOnThatSide(w: Work, p: Placed, l: nat, f: FileMetaData) returns (g: FileMetaData)
    requires w.Valid() && FlushedBeside(w, p) && p.0 == w.level + 1
    requires l == w.level || l == w.level + 1
    requires f in (if l == w.level then w.in0 else w.in1)
    ensures g in w.in0
    ensures LiesBehind(p, f) ==> LiesBehind(p, g)
    ensures LiesBefore(p, f) ==> LiesBefore(p, g)
  {
    hide Rules, Ordered, UniqueSequences, IsMerge, Sealed, Work.Made, NewerThanAll, Pushable, FileMetaData.Valid, AllPlaced;
    ChosenBeside(w, p, l, f);
    FileIsOrdered(f);
    FileIsOrdered(p.1);
    if l == w.level {
      g := f;
    } else {
      var lo, hi := SelectedRange(w.v, w.level, w.in0, w.in1);
      assert Overlaps(f, Some(lo.user), Some(hi.user));
      if LiesBehind(p, f) {
        g :| g in w.in0 && g.smallest == lo;
      } else {
        g :| g in w.in0 && g.largest == hi;
      }
      ChosenBeside(w, p, w.level, g);
      FileIsOrdered(g);
    }
  }

  /**
   An output can only cover a flushed table that lies in a gap between two chosen files
   of the input level.
   */
  lemma {:induction false} OnlyGapsAreCovered(w: Work, p: Placed, x: FileMetaData) returns (f: FileMetaData, g: FileMetaData)
    requires w.Valid() && FlushedBeside(w, p) && p.0 == w.level + 1 && x in w.outputs && Meets(x, p.1)
    ensures f in w.in0 && g in w.in0 && LiesBehind(p, f) && LiesBefore(p, g)
  {
    hide Work.Valid, FlushedBeside;
    var i := OutputNumber(w, x);
    f := InputOfEntry(w, p, x, x.table[0]);
    g := InputOfEntry(w, p, x, x.table[|x.table| - 1]);
  }

  lemma {:induction false} InputOfEntry(w: Work, p: Placed, x: FileMetaData, e: Entry) returns (g: FileMetaData)
    requires w.Valid() && FlushedBeside(w, p) && p.0 == w.level + 1 && x in w.outputs && e in x.table
    ensures g in w.in0
    ensures e.key.user <= p.1.largest.user ==> LiesBehind(p, g)
    ensures e.key.user >= p.1.smallest.user ==> LiesBefore(p, g)
  {
    hide Work.Valid, FlushedBeside, FileMetaData.Valid;
    var l, f := OutputHasFile(w, x, e);
    ChosenBeside(w, p, l, f);
    EntryInRange(f, e);
    g := InputOnThatSide(w, p, l, f);
  }

  /** A merge of one file of the input level is never in the way. */
  lemma {:induction false} OneInputIsClear(w: Work, v: Version, next: nat)
    requires w.Valid() && Meanwhile(w, v, next) && |w.in0| == 1
    ensures OutputsClear(w, v)
  {
    hide Work.Valid, Sound, FlushedBeside, AllPlaced;
    forall p, x | p in Flushed(w, v) && p.0 == w.level + 1 && x in w.outputs
      ensures !Meets(x, p.1)
    {
      assert FlushedBeside(w, p);
      if Meets(x, p.1) {
        var f, g := OnlyGapsAreCovered(w, p, x);
        FlushedIsOrdered(w, p);
        assert f == w.in0[0] && g == w.in0[0];
        ChosenBeside(w, p, w.level, f);
        FileIsOrdered(f);
      }
    }
  }

  lemma {:induction false} FlushedIsOrdered(w: Work, p: Placed)
    requires FlushedBeside(w, p)
    ensures p.1.smallest.user <= p.1.largest.user
  {
    hide NewerThanAll, Pushable, FileMetaData.Valid;
    FileIsOrdered(p.1);
  }

  // ----- what readers see -----

  lemma {:induction false} EntriesMeanwhile(w: Work, v: Version)
    requires AllPlaced(w.v) <= AllPlaced(v)
    ensures AllEntries(v) == EntriesOf(Flushed(w, v)) + AllEntries(w.v)
  {
    EntriesByPlace(v);
    EntriesByPlace(w.v);
    forall e
      ensures e in EntriesOf(AllPlaced(v)) <==> e in EntriesOf(Flushed(w, v)) || e in EntriesOf(AllPlaced(w.v))
    {
      if e in EntriesOf(AllPlaced(v)) {
        var p: Placed :| p in AllPlaced(v) && e in p.1.table;
        assert p in Flushed(w, v) || p in AllPlaced(w.v);
      }
    }
  }

  lemma {:induction false} EntriesAfterwards(w: Work, v: Version, next: nat, v': Version)
    requires w.Valid() && Meanwhile(w, v, next) && Installed(v, w.Edit(), v')
    ensures AllEntries(v') == EntriesOf(Flushed(w, v)) + Untouched(w.v, w.level, w.in0, w.in1) + Contents(Concat(w.outputs))
  {
    hide Work.Valid, Installed, NewFiles, Rules, Ordered, FlushedBeside, Stays, AllPlaced, Untouched, AllEntries, Flushed;
    OutputsAreNewStill(w, v, next);
    InstalledPlaces(v, w.Edit(), v');
    EntriesByPlace(v');
    ConcatMembers(w.outputs);
    forall e
      ensures e in EntriesOf(AllPlaced(v')) <==>
                e in EntriesOf(Flushed(w, v)) || e in Untouched(w.v, w.level, w.in0, w.in1) || e in Concat(w.outputs)
    {
      if e in EntriesOf(AllPlaced(v')) {
        PlacedAfterwards(w, v, next, v', e);
      }
      if e in EntriesOf(Flushed(w, v)) || e in Untouched(w.v, w.level, w.in0, w.in1) || e in Concat(w.outputs) {
        FoundAfterwards(w, v, next, v', e);
      }
    }
  }

  lemma {:induction false} PlacedAfterwards(w: Work, v: Version, next: nat, v': Version, e: Entry)
    requires w.Valid() && Meanwhile(w, v, next) && AllPlaced(v') == After(AllPlaced(v), w.Edit())
    requires e in EntriesOf(AllPlaced(v'))
    ensures e in EntriesOf(Flushed(w, v)) || e in Untouched(w.v, w.level, w.in0, w.in1) || e in Concat(w.outputs)
  {
    hide Work.Valid, Sound, FlushedBeside, Stays, Untouched;
    ConcatMembers(w.outputs);
    var added := w.Edit().added;
    var p: Placed :| p in AllPlaced(v') && e in p.1.table;
    if p in added {
      var i :| 0 <= i < |added| && added[i] == p;
      assert e in w.outputs[i].table;
    } else {
      StillStays(w, v, next, p);
      if p !in Flushed(w, v) {
        UntouchedEntry(w.v, w.level, w.in0, w.in1, p.0, p.1, e);
      }
    }
  }

  lemma {:induction false} FoundAfterwards(w: Work, v: Version, next: nat, v': Version, e: Entry)
    requires w.Valid() && Meanwhile(w, v, next) && AllPlaced(v') == After(AllPlaced(v), w.Edit())
    requires e in EntriesOf(Flushed(w, v)) || e in Untouched(w.v, w.level, w.in0, w.in1) || e in Concat(w.outputs)
    ensures e in EntriesOf(AllPlaced(v'))
  {
    hide Work.Valid, Sound, FlushedBeside, Stays;
    ConcatMembers(w.outputs);
    var added := w.Edit().added;
    if e in Concat(w.outputs) {
      var i :| 0 <= i < |w.outputs| && e in w.outputs[i].table;
      assert added[i] == (w.level + 1, w.outputs[i]);
      assert added[i] in AllPlaced(v') && e in added[i].1.table;
    } else if e in EntriesOf(Flushed(w, v)) {
      var p: Placed :| p in Flushed(w, v) && e in p.1.table;
      StillStays(w, v, next, p);
      assert p in AllPlaced(v');
    } else {
      var l, f := UntouchedHasFile(w.v, w.level, w.in0, w.in1, e);
      assert (l, f) in AllPlaced(w.v);
      StillStays(w, v, next, (l, f));
      assert (l, f) !in Flushed(w, v);
      assert (l, f) in AllPlaced(v');
    }
  }

  // The merge, with the flushed entries on top of the version that it began with.
  ghost function Beneath(w: Work, v: Version): Setting {
    Setting(w.v, w.level, w.in0, w.in1, w.input, EntriesOf(Flushed(w, v)), w.smallestSnapshot)
  }

  lemma {:induction false} BeneathIsValid(w: Work, v: Version, next: nat)
    requires w.Valid() && Meanwhile(w, v, next) && UniqueSequences(AllEntries(v)) && w.smallestSnapshot < MAX_SEQUENCE_NUMBER
    ensures |w.v.files| == NUM_LEVELS && w.level + 1 < NUM_LEVELS
    ensures Beneath(w, v).Valid() && Beneath(w, v).Before() == AllEntries(v)
  {
    hide Sound, UniqueSequences, Selected, IsMerge, WellFormed, Work.Made, AllEntries, FileMetaData.Valid, Pushable;
    WorkFacts(w);
    EntriesMeanwhile(w, v);
    EntriesByPlace(w.v);
    assert Above(EntriesOf(Flushed(w, v)), AllEntries(w.v)) by {
      forall e, o | e in EntriesOf(Flushed(w, v)) && o in EntriesOf(AllPlaced(w.v)) && e.key.user == o.key.user
        ensures e.key.sequence > o.key.sequence
      {
        var p: Placed :| p in Flushed(w, v) && e in p.1.table;
        var q: Placed :| q in AllPlaced(w.v) && o in q.1.table;
        assert NewerThan(p.1.table, q.1.table);
      }
    }
  }

  /**
   Flushes in between add nothing to what a merge may uncover: no view at or after the
   smallest snapshot changes if and only if the merge exposes nothing under the flushed
   entries.  This is about the entries, whatever level the tables went to.
   */
  lemma {:induction false} ViewsKeptExactly(w: Work, v: Version, next: nat, v': Version)
    requires w.Valid() && Meanwhile(w, v, next) && Installed(v, w.Edit(), v')
    requires UniqueSequences(AllEntries(v)) && w.smallestSnapshot < MAX_SEQUENCE_NUMBER
    ensures |w.v.files| == NUM_LEVELS && w.level + 1 < NUM_LEVELS
    ensures SameViews(AllEntries(v), AllEntries(v'), w.smallestSnapshot) <==> !Beneath(w, v).Exposed()
  {
    hide Sound, UniqueSequences, Selected, IsMerge, WellFormed, Installed, FlushedBeside, AllPlaced, AllEntries, Setting.Valid, Setting.Exposed,
      Untouched, View, Flushed, UsableOutputs;
    BeneathIsValid(w, v, next);
    EntriesAfterwards(w, v, next, v');
    var c := Beneath(w, v);
    assert c.After() == AllEntries(v');
    CompactionKeepsViewsExactly(c);
  }
}
