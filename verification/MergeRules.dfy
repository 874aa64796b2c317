/**
 The two drop rules of a merge (db/db_impl.cc:946-960), judged on sets of entries:
 `rest` is everything the merge does not read.
 */
module MergeRules {
  import opened Wrappers
  import opened DbFormat
  import opened Views
  import opened Versions
  import opened Compactions

  ghost function Contents(t: seq<Entry>): set<Entry> {
    set e | e in t
  }

  // A merge of `input`, beside entries that it does not read.
  datatype Merge = Merge(v: Version, level: nat, input: seq<Entry>, rest: set<Entry>, smallestSnapshot: SequenceNumber)
  {
    ghost predicate Valid() {
      && |v.files| == NUM_LEVELS
      && SortedTable(input)
      && UniqueSequences(Before())
      && (forall e :: e in rest ==> e !in input)
      && smallestSnapshot < MAX_SEQUENCE_NUMBER
    }

    ghost function Before(): set<Entry> {
      rest + Contents(input)
    }

    ghost function Kept(): seq<Entry>
      requires |v.files| == NUM_LEVELS
    {
      Survivors(v, level, input, smallestSnapshot, |input|)
    }

    ghost function After(): set<Entry>
      requires |v.files| == NUM_LEVELS
    {
      rest + Contents(Kept())
    }

    ghost predicate DroppedDeletion(t: Entry)
      requires |v.files| == NUM_LEVELS
    {
      t in input && Obsolete(v, level, t, smallestSnapshot)
    }
  }

  lemma {:induction false} AfterIsPartOfBefore(m: Merge)
    requires m.Valid()
    ensures m.After() <= m.Before()
  {
    SurvivorsMembers(m.v, m.level, m.input, m.smallestSnapshot, |m.input|);
  }

  lemma {:induction false} SameUserOrder(m: Merge, i: nat, j: nat)
    requires m.Valid() && i < j < |m.input| && m.input[i].key.user == m.input[j].key.user
    ensures m.input[i].key.sequence > m.input[j].key.sequence
  {
    var p, e := m.input[i], m.input[j];
    assert Less(p.key, e.key);
    assert p in m.Before() && e in m.Before();
  }

  // What is newest for some reader at or after the smallest snapshot is never shadowed.
  lemma {:induction false} NewestIsNotShadowed(m: Merge, i: nat, k: UserKey, n: SequenceNumber)
    requires m.Valid() && m.smallestSnapshot <= n && i < |m.input|
    requires Newest(m.Before(), k, n, m.input[i])
    ensures !Shadowed(m.input, i, m.smallestSnapshot)
  {
    if i > 0 && m.input[i - 1].key.user == k {
      SameUserOrder(m, i - 1, i);
      var p := m.input[i - 1];
      assert p in m.Before();
      assert !Candidate(m.Before(), k, n, p);
    }
  }

  lemma {:induction false} NewestIsKeptOrObsolete(m: Merge, k: UserKey, n: SequenceNumber, e: Entry)
    requires m.Valid() && m.smallestSnapshot <= n && Newest(m.Before(), k, n, e)
    ensures e in m.After() || m.DroppedDeletion(e)
  {
    if e !in m.rest {
      var i :| 0 <= i < |m.input| && m.input[i] == e;
      NewestIsNotShadowed(m, i, k, n);
      SurvivorsMembers(m.v, m.level, m.input, m.smallestSnapshot, |m.input|);
    }
  }

  // Entries behind a visible one of the same user key are shadowed.
  lemma {:induction false} FollowersAreShadowed(m: Merge, i: nat, j: nat)
    requires m.Valid() && i < j < |m.input| && m.input[i].key.user == m.input[j].key.user
    requires m.input[i].key.sequence <= m.smallestSnapshot
    ensures Shadowed(m.input, j, m.smallestSnapshot)
  {
    assert Less(m.input[j - 1].key, m.input[j].key);
    assert i == j - 1 || Less(m.input[i].key, m.input[j - 1].key);
    if i < j - 1 {
      SameUserOrder(m, i, j - 1);
    }
  }

  lemma {:induction false} VisibleEntriesFollow(m: Merge, t: Entry, n: SequenceNumber, i: nat, j: nat)
    requires m.Valid() && Newest(m.Before(), t.key.user, n, t)
    requires i < |m.input| && m.input[i] == t
    requires j < |m.input| && m.input[j].key.user == t.key.user && m.input[j].key.sequence <= n
    ensures i <= j
  {
    assert Candidate(m.Before(), t.key.user, n, m.input[j]);
    if j < i {
      SameUserOrder(m, j, i);
    }
  }

  // When a dropped deletion was the visible state of its user key, what is left of that
  // key is older and was not part of the merge.
  lemma {:induction false} LeftoversAreUntouched(m: Merge, t: Entry, n: SequenceNumber, o: Entry)
    requires m.Valid() && m.smallestSnapshot <= n
    requires m.DroppedDeletion(t) && Newest(m.Before(), t.key.user, n, t)
    requires Candidate(m.After(), t.key.user, n, o)
    ensures o in m.rest && o.key.sequence < t.key.sequence
  {
    AfterIsPartOfBefore(m);
    SurvivorsMembers(m.v, m.level, m.input, m.smallestSnapshot, |m.input|);
    assert Candidate(m.Before(), t.key.user, n, o);
    var i :| 0 <= i < |m.input| && m.input[i] == t;
    forall j | 0 <= j < |m.input| && m.input[j].key.user == t.key.user && m.input[j].key.sequence <= n
      ensures Dropped(m.v, m.level, m.input, j, m.smallestSnapshot)
    {
      VisibleEntriesFollow(m, t, n, i, j);
      if i < j {
        FollowersAreShadowed(m, i, j);
      }
    }
    assert t in m.Before() && o in m.Before();
  }

  /**
   A merge keeps the view of a reader at or after the smallest snapshot, except that
   dropping a deletion uncovers what the rest holds for its user key.
   */
  lemma {:induction false} MergeKeepsView(m: Merge, k: UserKey, n: SequenceNumber)
    requires m.Valid() && m.smallestSnapshot <= n
    ensures View(m.After(), k, n) != View(m.Before(), k, n) ==>
              exists t :: m.DroppedDeletion(t) && Newest(m.Before(), k, n, t)
    ensures forall t :: m.DroppedDeletion(t) && Newest(m.Before(), k, n, t) ==>
              View(m.Before(), k, n) == None && View(m.After(), k, n) == View(m.rest, k, n)
  {
    AfterIsPartOfBefore(m);
    if e :| Newest(m.Before(), k, n, e) {
      NewestIsKeptOrObsolete(m, k, n, e);
      if e in m.After() {
        ViewIgnoresHidden(m.After(), m.Before(), k, n, e);
      }
    } else {
      forall e
        ensures !Candidate(m.Before(), k, n, e)
      {
        if Candidate(m.Before(), k, n, e) { NewestExists(m.Before(), k, n, e); }
      }
      ViewOfNothing(m.Before(), k, n);
      assert forall e :: Candidate(m.After(), k, n, e) ==> Candidate(m.Before(), k, n, e);
      ViewOfNothing(m.After(), k, n);
    }
    forall t | m.DroppedDeletion(t) && Newest(m.Before(), k, n, t)
      ensures View(m.Before(), k, n) == None && View(m.After(), k, n) == View(m.rest, k, n)
    {
      ViewOfNewest(m.Before(), k, n, t);
      LeftoversAreTheRest(m, t, n);
    }
  }

  lemma {:induction false} LeftoversAreTheRest(m: Merge, t: Entry, n: SequenceNumber)
    requires m.Valid() && m.smallestSnapshot <= n
    requires m.DroppedDeletion(t) && Newest(m.Before(), t.key.user, n, t)
    ensures View(m.After(), t.key.user, n) == View(m.rest, t.key.user, n)
  {
    var k := t.key.user;
    AfterIsPartOfBefore(m);
    forall o
      ensures Candidate(m.After(), k, n, o) <==> Candidate(m.rest, k, n, o)
    {
      if Candidate(m.After(), k, n, o) { LeftoversAreUntouched(m, t, n, o); }
    }
    SameCandidatesSameView(m.After(), m.rest, k, n);
  }

  lemma {:induction false} SameCandidatesSameView(a: set<Entry>, b: set<Entry>, k: UserKey, n: SequenceNumber)
    requires UniqueSequences(a) && UniqueSequences(b)
    requires forall o :: Candidate(a, k, n, o) <==> Candidate(b, k, n, o)
    ensures View(a, k, n) == View(b, k, n)
  {
    if e :| Newest(a, k, n, e) {
      assert Candidate(b, k, n, e);
      ViewOfNewest(a, k, n, e);
      ViewOfNewest(b, k, n, e);
    } else {
      forall o
        ensures !Candidate(a, k, n, o)
      {
        if Candidate(a, k, n, o) { NewestExists(a, k, n, o); }
      }
      ViewOfNothing(a, k, n);
      ViewOfNothing(b, k, n);
    }
  }
}
