/**
 A store whose own choice of files uncovers a deleted value.  SetupOtherInputs closes
 the user keys of the input level (db/version_set.cc:1407) but not those of the output
 level (db/version_set.cc:1410), so a deletion can be merged without the file that
 holds the value it deletes.
 */
module CompactionExample {
  import opened Wrappers
  import opened DbFormat
  import opened Views
  import opened Versions
  import opened CompactionInputs
  import opened Compactions
  import opened CompactionPicker
  import opened CompactionMeaning

  const PUT_A := Entry(InternalKey(1.0, 7, Value), [1])
  const OLD_A := Entry(InternalKey(1.0, 3, Value), [2])
  const DELETE_B := Entry(InternalKey(2.0, 6, Deletion), [])
  const OLD_B := Entry(InternalKey(2.0, 2, Value), [3])

  const UPPER_FILE := FileMetaData(11, 1, PUT_A.key, PUT_A.key, [PUT_A])
  const MERGED_FILE := FileMetaData(12, 1, OLD_A.key, DELETE_B.key, [OLD_A, DELETE_B])
  const NEXT_FILE := FileMetaData(13, 1, OLD_B.key, OLD_B.key, [OLD_B])

  const STORE := Version([[], [UPPER_FILE], [MERGED_FILE, NEXT_FILE], [], [], [], []])

  const EXAMPLE := Setting(STORE, 1, [UPPER_FILE], [MERGED_FILE], [PUT_A, OLD_A, DELETE_B], {}, 10)

  lemma {:induction false} LevelIsFine(files: Level)
    requires files == [] || files == [UPPER_FILE] || files == [MERGED_FILE, NEXT_FILE]
    ensures ValidFiles(files) && SortedLevel(files)
  {
    assert UPPER_FILE.Valid() && MERGED_FILE.Valid() && NEXT_FILE.Valid();
  }

  lemma {:induction false} StoreIsShaped()
    ensures Shaped(STORE)
  {
    hide ValidFiles, SortedLevel;
    forall i | 0 <= i < NUM_LEVELS
      ensures ValidFiles(STORE.files[i]) && SortedLevel(STORE.files[i])
    {
      LevelIsFine(STORE.files[i]);
    }
  }

  lemma {:induction false} StoreIsWellFormed()
    ensures WellFormed(STORE)
  {
    hide Shaped;
    StoreIsShaped();
    assert NewerThan([PUT_A], [OLD_A, DELETE_B]) && NewerThan([PUT_A], [OLD_B]);
    forall i, j, f, g | 0 <= i < j < NUM_LEVELS && f in STORE.files[i] && g in STORE.files[j]
      ensures NewerThan(f.table, g.table)
    {
      assert i == 1 && j == 2;
    }
  }

  lemma {:induction false} RunIsSealed()
    ensures Sealed(STORE, 1, [UPPER_FILE])
  {
    hide Shaped;
    StoreIsShaped();
    assert StartsAt([UPPER_FILE], STORE.files[1], 0);
    assert forall f :: f in STORE.files[1] ==> f == UPPER_FILE;
  }

  lemma {:induction false} ChoiceIsSelected()
    ensures Selected(STORE, 1, [UPPER_FILE], [MERGED_FILE])
  {
    hide Sealed;
    RunIsSealed();
    var in0, in1 := [UPPER_FILE], [MERGED_FILE];
    assert in0[0] == UPPER_FILE && in1[0] == MERGED_FILE;
    assert IsRange(in0, PUT_A.key, PUT_A.key);
    assert ExactlyMeets(STORE.files[2], 1.0, 1.0, in1);
  }

  lemma {:induction false} StoreEntries()
    ensures AllEntries(STORE) == {PUT_A, OLD_A, DELETE_B, OLD_B}
  {
    forall e
      ensures e in AllEntries(STORE) <==> e in {PUT_A, OLD_A, DELETE_B, OLD_B}
    {
      if e in AllEntries(STORE) {
        var l, f := EntryHasFile(STORE, e);
        assert l == 1 || l == 2;
        assert f == UPPER_FILE || f == MERGED_FILE || f == NEXT_FILE;
      }
      assert PUT_A in UPPER_FILE.table && UPPER_FILE in STORE.files[1];
      assert OLD_A in MERGED_FILE.table && DELETE_B in MERGED_FILE.table && MERGED_FILE in STORE.files[2];
      assert OLD_B in NEXT_FILE.table && NEXT_FILE in STORE.files[2];
      if e in {PUT_A, OLD_A, DELETE_B, OLD_B} {
        var l := if e == PUT_A then 1 else 2;
        var f := if e == PUT_A then UPPER_FILE else if e == OLD_B then NEXT_FILE else MERGED_FILE;
        FileEntryIsThere(STORE, l, f, e);
      }
    }
  }

  lemma {:induction false} ExampleIsValid()
    ensures EXAMPLE.Valid() && EXAMPLE.Before() == {PUT_A, OLD_A, DELETE_B, OLD_B}
  {
    hide WellFormed, Selected, IsMerge, AllEntries;
    StoreIsWellFormed();
    ChoiceIsSelected();
    StoreEntries();
    InputIsMerge();
  }

  lemma {:induction false} NextFileIsNext()
    ensures EXAMPLE.NextFile(NEXT_FILE)
  {
    assert IsLargestKey([MERGED_FILE], DELETE_B.key) by {
      assert [MERGED_FILE][0] == MERGED_FILE;
    }
    assert IsSmallestBoundary(STORE.files[2], DELETE_B.key, NEXT_FILE) by {
      assert STORE.files[2][1] == NEXT_FILE;
    }
  }

  lemma {:induction false} DeletionIsDropped()
    ensures EXAMPLE.AsMerge().DroppedDeletion(DELETE_B)
  {
    assert EXAMPLE.input[2] == DELETE_B;
  }

  /**
   The example satisfies everything that selection and the level rules guarantee, and
   still the merge brings the deleted value of the second user key back.
   */
  lemma {:induction false} DeletedValueReturns()
    ensures EXAMPLE.Valid() && EXAMPLE.Exposed()
    ensures View(EXAMPLE.Before(), 2.0, 10) == None
    ensures View(EXAMPLE.After(), 2.0, 10) == Some([3])
  {
    hide Setting.Valid, Setting.NextFile, WellFormed, Selected, IsMerge, AllEntries, View;
    ExampleIsValid();
    NextFileIsNext();
    DeletionIsDropped();
    assert EXAMPLE.Reveals(DELETE_B, NEXT_FILE);
    ExposedViewChanges(EXAMPLE, DELETE_B, NEXT_FILE);
  }

  lemma {:induction false} InputIsMerge()
    ensures IsMerge([PUT_A, OLD_A, DELETE_B], [UPPER_FILE], [MERGED_FILE])
  {
    var input := [PUT_A, OLD_A, DELETE_B];
    assert [UPPER_FILE][0] == UPPER_FILE && [MERGED_FILE][0] == MERGED_FILE;
    forall e
      ensures e in input <==> e in LevelEntries([UPPER_FILE]) || e in LevelEntries([MERGED_FILE])
    {
      assert e in input <==> e == PUT_A || e == OLD_A || e == DELETE_B;
      assert e in UPPER_FILE.table <==> e == PUT_A;
      assert e in MERGED_FILE.table <==> e == OLD_A || e == DELETE_B;
      assert UPPER_FILE in [UPPER_FILE] && MERGED_FILE in [MERGED_FILE];
    }
  }
}
