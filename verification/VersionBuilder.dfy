/**
 Applying edits to a version (db/version_set.cc: VersionSet::Builder), and replaying a
 manifest (VersionSet::Recover against repeated LogAndApply).
 */
module VersionBuilder {
  import opened Wrappers
  import opened DbFormat
  import opened Versions

  // The part of a VersionEdit that changes the files of a version.
  datatype FileEdit = FileEdit(deleted: set<(nat, nat)>, added: seq<(nat, FileMetaData)>)

  predicate ValidEdit(edit: FileEdit) {
    forall i :: 0 <= i < |edit.added| ==> edit.added[i].0 < NUM_LEVELS
  }

  // ----- the order of files within a level -----

  predicate BySmallestKey(f: FileMetaData, g: FileMetaData) {
    var r := Compare(f.smallest, g.smallest);
    if r != 0 then r < 0 else f.number < g.number
  }

  predicate Ordered(files: Level) {
    forall i, j :: 0 <= i < j < |files| ==> BySmallestKey(files[i], files[j])
  }

  lemma {:induction false} OrderIsTotal(f: FileMetaData, g: FileMetaData, h: FileMetaData)
    ensures !BySmallestKey(f, f)
    ensures BySmallestKey(f, g) && BySmallestKey(g, h) ==> BySmallestKey(f, h)
    ensures f.number != g.number ==> BySmallestKey(f, g) || BySmallestKey(g, f)
    ensures !BySmallestKey(f, g) && BySmallestKey(f, h) ==> !BySmallestKey(h, g)
  {
  }

  // An ordered list is determined by its members.
  lemma {:induction false} OrderedListsAgree(a: Level, b: Level)
    requires Ordered(a) && Ordered(b) && forall f :: f in a <==> f in b
    ensures a == b
  {
    if a == [] {
      assert forall i :: 0 <= i < |b| ==> b[i] in b;
    } else {
      assert a[0] in b && (b != [] ==> b[0] in a);
      HeadsAgree(a, b);
      assert a[0] == b[0];
      forall f
        ensures f in a[1..] <==> f in b[1..]
      {
        TailMembers(a, f);
        TailMembers(b, f);
      }
      OrderedListsAgree(a[1..], b[1..]);
      assert a == [a[0]] + a[1..] && b == [b[0]] + b[1..];
    }
  }

  lemma {:induction false} HeadsAgree(a: Level, b: Level)
    requires Ordered(a) && Ordered(b) && a != [] && b != [] && a[0] in b && b[0] in a
    ensures a[0] == b[0]
  {
    FirstIsLeast(a, b[0]);
    FirstIsLeast(b, a[0]);
    OrderIsTotal(a[0], b[0], a[0]);
  }

  lemma {:induction false} FirstIsLeast(a: Level, f: FileMetaData)
    requires Ordered(a) && f in a
    ensures f == a[0] || BySmallestKey(a[0], f)
  {
    var i :| 0 <= i < |a| && a[i] == f;
  }

  lemma {:induction false} TailMembers(a: Level, f: FileMetaData)
    requires Ordered(a) && a != []
    ensures f in a[1..] <==> f in a && f != a[0]
  {
    OrderIsTotal(a[0], a[0], a[0]);
    if f in a[1..] {
      var i :| 0 <= i < |a[1..]| && a[1..][i] == f;
      assert BySmallestKey(a[0], a[i + 1]);
    }
  }

  // ----- the files added at one level, kept in order -----

  function Insert(files: Level, f: FileMetaData): Level {
    if files == [] then [f]
    else if BySmallestKey(f, files[0]) then [f] + files
    else if BySmallestKey(files[0], f) then [files[0]] + Insert(files[1..], f)
    else files
  }

  lemma {:induction false} InsertionStaysOrdered(files: Level, f: FileMetaData)
    requires Ordered(files) && forall g :: g in files ==> g.number != f.number
    ensures Ordered(Insert(files, f))
    ensures forall g :: g in Insert(files, f) <==> g == f || g in files
  {
    if files != [] {
      assert files[0] in files;
      OrderIsTotal(f, files[0], f);
      assert files == [files[0]] + files[1..];
      if BySmallestKey(f, files[0]) {
        forall j | 0 <= j < |files|
          ensures BySmallestKey(f, files[j])
        {
          OrderIsTotal(f, files[0], files[j]);
        }
      } else {
        InsertionStaysOrdered(files[1..], f);
        var r := Insert(files[1..], f);
        forall j | 0 <= j < |r|
          ensures BySmallestKey(files[0], r[j])
        {
          assert r[j] in r;
          if r[j] in files[1..] {
            var i :| 0 <= i < |files[1..]| && files[1..][i] == r[j];
            assert r[j] == files[i + 1];
          }
        }
      }
    }
  }

  // ----- saving one level -----

  function Merge(base: Level, added: Level): Level {
    if added == [] then base
    else if base == [] then added
    else if BySmallestKey(added[0], base[0]) then [added[0]] + Merge(base, added[1..])
    else [base[0]] + Merge(base[1..], added)
  }

  function Remaining(files: Level, deleted: set<nat>): Level {
    if files == [] then []
    else (if files[0].number in deleted then [] else [files[0]]) + Remaining(files[1..], deleted)
  }

  lemma {:induction false} MergeMembers(base: Level, added: Level)
    ensures forall f :: f in Merge(base, added) <==> f in base || f in added
  {
    if added != [] && base != [] {
      if BySmallestKey(added[0], base[0]) {
        MergeMembers(base, added[1..]);
        assert added == [added[0]] + added[1..];
      } else {
        MergeMembers(base[1..], added);
        assert base == [base[0]] + base[1..];
      }
    }
  }

  predicate Apart(a: Level, b: Level) {
    forall f, g :: f in a && g in b ==> f.number != g.number
  }

  lemma {:induction false} MergeIsOrdered(base: Level, added: Level)
    requires Ordered(base) && Ordered(added) && Apart(base, added)
    ensures Ordered(Merge(base, added))
  {
    if added != [] && base != [] {
      var a, b := added[0], base[0];
      assert a in added && b in base;
      OrderIsTotal(a, b, a);
      if BySmallestKey(a, b) {
        assert Apart(base, added[1..]);
        MergeIsOrdered(base, added[1..]);
        MergeMembers(base, added[1..]);
        AllFollow(a, base, added[1..]);
      } else {
        assert Apart(base[1..], added);
        MergeIsOrdered(base[1..], added);
        MergeMembers(base[1..], added);
        AllFollow(b, base[1..], added);
      }
    }
  }

  lemma {:induction false} AllFollow(h: FileMetaData, base: Level, added: Level)
    requires Ordered(base) && Ordered(added)
    requires base != [] ==> BySmallestKey(h, base[0])
    requires added != [] ==> BySmallestKey(h, added[0])
    ensures forall i :: 0 <= i < |Merge(base, added)| ==> BySmallestKey(h, Merge(base, added)[i])
  {
    MergeMembers(base, added);
    forall f | f in base || f in added
      ensures BySmallestKey(h, f)
    {
      if f in base {
        var i :| 0 <= i < |base| && base[i] == f;
        OrderIsTotal(h, base[0], f);
      } else {
        var i :| 0 <= i < |added| && added[i] == f;
        OrderIsTotal(h, added[0], f);
      }
    }
    forall i | 0 <= i < |Merge(base, added)|
      ensures BySmallestKey(h, Merge(base, added)[i])
    {
      assert Merge(base, added)[i] in Merge(base, added);
    }
  }

  lemma {:induction false} RemainingMembers(files: Level, deleted: set<nat>)
    ensures forall f :: f in Remaining(files, deleted) <==> f in files && f.number !in deleted
  {
    if files != [] {
      RemainingMembers(files[1..], deleted);
      assert files == [files[0]] + files[1..];
    }
  }

  lemma {:induction false} RemainingIsOrdered(files: Level, deleted: set<nat>)
    requires Ordered(files)
    ensures Ordered(Remaining(files, deleted))
  {
    if files != [] {
      RemainingIsOrdered(files[1..], deleted);
      RemainingMembers(files[1..], deleted);
      var r := Remaining(files[1..], deleted);
      forall i | 0 <= i < |r|
        ensures BySmallestKey(files[0], r[i])
      {
        assert r[i] in r;
        var j :| 0 <= j < |files[1..]| && files[1..][j] == r[i];
        assert r[i] == files[j + 1];
      }
    }
  }

  // ----- the builder -----

  datatype LevelState = LevelState(deleted: set<nat>, added: Level)

  // What one edit does to the state of one level.
  function ApplyNew(s: LevelState, level: nat, added: seq<(nat, FileMetaData)>): LevelState
    decreases |added|
  {
    if added == [] then s
    else
      var s' := if added[0].0 == level
                then LevelState(s.deleted - {added[0].1.number}, Insert(s.added, added[0].1))
                else s;
      ApplyNew(s', level, added[1..])
  }

  function DeletedAt(deleted: set<(nat, nat)>, level: nat): set<nat> {
    set p | p in deleted && p.0 == level :: p.1
  }

  function ApplyLevel(s: LevelState, level: nat, edit: FileEdit): LevelState {
    ApplyNew(LevelState(s.deleted + DeletedAt(edit.deleted, level), s.added), level, edit.added)
  }

  function SaveLevel(base: Level, s: LevelState): Level {
    Remaining(Merge(base, s.added), s.deleted)
  }

  const NO_CHANGE := LevelState({}, [])

  class Builder {
    const base: Version
    var levels: seq<LevelState>

    constructor (base: Version)
      requires |base.files| == NUM_LEVELS
      ensures this.base == base && levels == seq(NUM_LEVELS, i => NO_CHANGE)
    {
      this.base := base;
      levels := seq(NUM_LEVELS, i => NO_CHANGE);
    }

    /** Builder::Apply: deletions first, then additions, which cancel deletions. */
    method Apply(edit: FileEdit)
      requires ValidEdit(edit) && |levels| == NUM_LEVELS
      requires forall p :: p in edit.deleted ==> p.0 < NUM_LEVELS
      modifies this`levels
      ensures |levels| == NUM_LEVELS
      ensures forall l :: 0 <= l < NUM_LEVELS ==> levels[l] == ApplyLevel(old(levels)[l], l, edit)
    {
      var rest := edit.deleted;
      ghost var done: set<(nat, nat)> := {};
      while rest != {}
        invariant done + rest == edit.deleted && |levels| == NUM_LEVELS
        invariant forall l :: 0 <= l < NUM_LEVELS ==>
                    levels[l] == LevelState(old(levels)[l].deleted + DeletedAt(done, l), old(levels)[l].added)
        decreases rest
      {
        var p :| p in rest;
        var s := levels[p.0];
        levels := levels[p.0 := s.(deleted := s.deleted + {p.1})];
        forall l
          ensures DeletedAt(done + {p}, l) == if l == p.0 then DeletedAt(done, l) + {p.1} else DeletedAt(done, l)
        {
        }
        rest, done := rest - {p}, done + {p};
      }
      assert done == edit.deleted;
      ghost var start := levels;
      var i := 0;
      while i < |edit.added|
        invariant 0 <= i <= |edit.added| && |levels| == NUM_LEVELS
        invariant forall l :: 0 <= l < NUM_LEVELS ==>
                    ApplyNew(levels[l], l, edit.added[i..]) == ApplyNew(start[l], l, edit.added)
      {
        var (level, f) := edit.added[i];
        var s := levels[level];
        assert edit.added[i..][0] == edit.added[i] && edit.added[i..][1..] == edit.added[i + 1..];
        levels := levels[level := LevelState(s.deleted - {f.number}, Insert(s.added, f))];
        i := i + 1;
      }
    }

    /** Builder::SaveTo. */
    method SaveTo() returns (v: Version)
      requires |base.files| == |levels| == NUM_LEVELS
      requires forall l :: 0 <= l < NUM_LEVELS ==> Ordered(base.files[l]) && Ordered(levels[l].added)
      ensures |v.files| == NUM_LEVELS
      ensures forall l :: 0 <= l < NUM_LEVELS ==> v.files[l] == SaveLevel(base.files[l], levels[l])
    {
      var files: seq<Level> := [];
      while |files| < NUM_LEVELS
        invariant |files| <= NUM_LEVELS
        invariant forall l :: 0 <= l < |files| ==> files[l] == SaveLevel(base.files[l], levels[l])
      {
        var saved := SaveOneLevel(base.files[|files|], levels[|files|]);
        files := files + [saved];
      }
      v := Version(files);
    }
  }

  // `out` is what SaveLevel gives, up to the files that are still to come.
  ghost predicate SavedUpTo(base: Level, s: LevelState, b: nat, a: nat, out: Level)
    requires b <= |base| && a <= |s.added|
  {
    SaveLevel(base, s) == out + Remaining(Merge(base[b..], s.added[a..]), s.deleted)
  }

  lemma {:induction false} SaveStep(base: Level, s: LevelState, b: nat, a: nat, out: Level)
    requires b <= |base| && a <= |s.added| && SavedUpTo(base, s, b, a, out)
    ensures (b < |base| && (a == |s.added| || !BySmallestKey(s.added[a], base[b]))) ==>
              SavedUpTo(base, s, b + 1, a, MaybeAdd(out, base[b], s.deleted))
    ensures (a < |s.added| && (b == |base| || BySmallestKey(s.added[a], base[b]))) ==>
              SavedUpTo(base, s, b, a + 1, MaybeAdd(out, s.added[a], s.deleted))
  {
    var bs, news := base[b..], s.added[a..];
    if b < |base| && (a == |s.added| || !BySmallestKey(s.added[a], base[b])) {
      assert bs == [base[b]] + base[b + 1..];
      StepOut(out, base[b], Merge(base[b + 1..], news), s.deleted);
    }
    if a < |s.added| && (b == |base| || BySmallestKey(s.added[a], base[b])) {
      assert news == [s.added[a]] + s.added[a + 1..];
      StepOut(out, s.added[a], Merge(bs, s.added[a + 1..]), s.deleted);
    }
  }

  lemma {:induction false} SaveStart(base: Level, s: LevelState)
    ensures SavedUpTo(base, s, 0, 0, [])
  {
    assert base[0..] == base && s.added[0..] == s.added;
  }

  lemma {:induction false} SaveEnd(base: Level, s: LevelState, out: Level)
    requires SavedUpTo(base, s, |base|, |s.added|, out)
    ensures out == SaveLevel(base, s)
  {
    assert base[|base|..] == [] && s.added[|s.added|..] == [];
  }

  // Builder::MaybeAddFile.
  function MaybeAdd(out: Level, f: FileMetaData, deleted: set<nat>): Level {
    if f.number in deleted then out else out + [f]
  }

  // The merge of the pre-existing files with the added ones, dropping the deleted.
  method SaveOneLevel(base: Level, s: LevelState) returns (out: Level)
    ensures out == SaveLevel(base, s)
  {
    hide SavedUpTo, BySmallestKey, SaveLevel;
    out := [];
    var b := 0;
    var a := 0;
    SaveStart(base, s);
    while a < |s.added|
      invariant 0 <= a <= |s.added| && 0 <= b <= |base|
      invariant SavedUpTo(base, s, b, a, out)
    {
      // Add all smaller files listed in base.
      while b < |base| && !BySmallestKey(s.added[a], base[b])
        invariant 0 <= b <= |base|
        invariant SavedUpTo(base, s, b, a, out)
      {
        SaveStep(base, s, b, a, out);
        out := MaybeAdd(out, base[b], s.deleted);
        b := b + 1;
      }
      SaveStep(base, s, b, a, out);
      out := MaybeAdd(out, s.added[a], s.deleted);
      a := a + 1;
    }
    while b < |base|
      invariant 0 <= b <= |base|
      invariant SavedUpTo(base, s, b, |s.added|, out)
    {
      SaveStep(base, s, b, |s.added|, out);
      out := MaybeAdd(out, base[b], s.deleted);
      b := b + 1;
    }
    SaveEnd(base, s, out);
  }

  lemma {:induction false} StepOut(out: Level, f: FileMetaData, rest: Level, deleted: set<nat>)
    ensures out + Remaining([f] + rest, deleted)
         == MaybeAdd(out, f, deleted) + Remaining(rest, deleted)
  {
    assert ([f] + rest)[1..] == rest;
  }
}
