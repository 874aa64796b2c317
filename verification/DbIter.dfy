/**
 The iterator that users see (db/db_iter.cc): a cursor over the sorted map from user keys
 to their views, made out of a cursor over all entries.
 */
module DbIterators {
  import opened Wrappers
  import opened DbFormat
  import opened Views
  import opened MergeRules
  import opened Lookup
  import opened Cursors

  // ----- the entries that the map consists of -----

  predicate Visible(e: Entry, n: SequenceNumber) {
    e.key.sequence <= n
  }

  // The entry is the visible state of its user key, and a value.
  ghost predicate Yields(t: seq<Entry>, n: SequenceNumber, i: int) {
    && 0 <= i < |t| && Visible(t[i], n) && t[i].key.kind.Value?
    && forall j :: 0 <= j < i && t[j].key.user == t[i].key.user ==> !Visible(t[j], n)
  }

  // `r` is the first element of the map behind index `y`.
  ghost predicate IsNext(t: seq<Entry>, n: SequenceNumber, y: int, r: Option<nat>) {
    && (r.Some? ==> y < r.value && Yields(t, n, r.value))
    && (forall i :: y < i < (if r.Some? then r.value else |t|) ==> !Yields(t, n, i))
  }

  // `r` is the last element of the map before index `y`.
  ghost predicate IsPrev(t: seq<Entry>, n: SequenceNumber, y: int, r: Option<nat>) {
    && (r.Some? ==> r.value < y && Yields(t, n, r.value))
    && (forall i :: (if r.Some? then r.value + 1 else 0) <= i < y ==> !Yields(t, n, i))
  }

  /** The elements are the views: one for every user key that has a view, in key order. */
  lemma {:induction false} ElementsAreViews(t: seq<Entry>, n: SequenceNumber, k: UserKey)
    requires SortedTable(t) && UniqueSequences(Contents(t))
    ensures forall i :: Yields(t, n, i) && t[i].key.user == k ==> View(Contents(t), k, n) == Some(t[i].value)
    ensures View(Contents(t), k, n).Some? ==> exists i :: Yields(t, n, i) && t[i].key.user == k
    ensures forall i, j :: Yields(t, n, i) && Yields(t, n, j) && i < j ==> t[i].key.user < t[j].key.user
  {
    forall i | Yields(t, n, i) && t[i].key.user == k
      ensures View(Contents(t), k, n) == Some(t[i].value)
    {
      FirstVisibleIsNewest(t, n, i);
      ViewOfNewest(Contents(t), k, n, t[i]);
    }
    forall i, j | Yields(t, n, i) && Yields(t, n, j) && i < j
      ensures t[i].key.user < t[j].key.user
    {
      assert Less(t[i].key, t[j].key);
    }
    if View(Contents(t), k, n).Some? {
      var e :| Newest(Contents(t), k, n, e);
      var m :| 0 <= m < |t| && t[m] == e;
      var i := FirstVisible(t, n, m);
      FirstVisibleIsNewest(t, n, i);
      assert Candidate(Contents(t), k, n, t[i]);
      ViewOfNewest(Contents(t), k, n, e);
    }
  }

  lemma {:induction false} FirstVisibleIsNewest(t: seq<Entry>, n: SequenceNumber, i: nat)
    requires SortedTable(t) && i < |t| && Visible(t[i], n)
    requires forall j :: 0 <= j < i && t[j].key.user == t[i].key.user ==> !Visible(t[j], n)
    ensures Newest(Contents(t), t[i].key.user, n, t[i])
  {
    forall o | Candidate(Contents(t), t[i].key.user, n, o)
      ensures o.key.sequence <= t[i].key.sequence
    {
      var j :| 0 <= j < |t| && t[j] == o;
      assert j > i ==> Less(t[i].key, t[j].key);
    }
  }

  lemma {:induction false} FirstVisible(t: seq<Entry>, n: SequenceNumber, m: nat) returns (i: nat)
    requires m < |t| && Visible(t[m], n)
    ensures i <= m && Visible(t[i], n) && t[i].key.user == t[m].key.user
    ensures forall j :: 0 <= j < i && t[j].key.user == t[i].key.user ==> !Visible(t[j], n)
    decreases m
  {
    if j: nat :| j < m && t[j].key.user == t[m].key.user && Visible(t[j], n) {
      i := FirstVisible(t, n, j);
    } else {
      i := m;
    }
  }

  lemma {:induction false} UsersAreSorted(t: seq<Entry>, i: nat, j: nat)
    requires SortedTable(t) && i <= j < |t|
    ensures t[i].key.user <= t[j].key.user
  {
    assert i < j ==> Less(t[i].key, t[j].key);
  }

  // ----- the loops of FindNextUserEntry and FindPrevUserEntry -----

  // Nothing behind `y` and before `c` is an element, and what is to be skipped is known.
  // Up to the element `y` itself there is nothing to see.
  ghost predicate Forward(t: seq<Entry>, n: SequenceNumber, y: int, c: nat, skipping: bool, skip: UserKey) {
    && c <= |t| && y < |t|
    && (forall i, j :: c <= i < |t| && 0 <= j < c && Visible(t[j], n) && t[j].key.user == t[i].key.user
          ==> skipping && t[i].key.user <= skip)
    && (skipping ==> forall i :: c <= i < |t| && y < i && t[i].key.user <= skip ==> !Yields(t, n, i))
    && (forall i :: y < i < c ==> !Yields(t, n, i))
    && (c <= y ==>
          && skipping && t[y].key.user <= skip && t[y].key.kind.Value? && Visible(t[y], n)
          && forall i :: c <= i < y ==> !Visible(t[i], n))
  }

  lemma {:induction false} ForwardStep(t: seq<Entry>, n: SequenceNumber, y: int, c: nat, skipping: bool, skip: UserKey)
    requires SortedTable(t) && Forward(t, n, y, c, skipping, skip) && c < |t|
    ensures !Visible(t[c], n) ==> Forward(t, n, y, c + 1, skipping, skip)
    ensures Visible(t[c], n) && t[c].key.kind.Deletion? ==> Forward(t, n, y, c + 1, true, t[c].key.user)
    ensures Visible(t[c], n) && t[c].key.kind.Value? && skipping && t[c].key.user <= skip ==>
              Forward(t, n, y, c + 1, skipping, skip)
    ensures Visible(t[c], n) && t[c].key.kind.Value? && !(skipping && t[c].key.user <= skip) ==>
              IsNext(t, n, y, Some(c))
  {
    if Visible(t[c], n) && t[c].key.kind.Deletion? {
      DeletionSkips(t, n, y, c, skipping, skip);
    }
  }

  lemma {:induction false} DeletionSkips(t: seq<Entry>, n: SequenceNumber, y: int, c: nat, skipping: bool, skip: UserKey)
    requires SortedTable(t) && Forward(t, n, y, c, skipping, skip) && c < |t|
    requires Visible(t[c], n) && t[c].key.kind.Deletion?
    ensures Forward(t, n, y, c + 1, true, t[c].key.user)
  {
    forall i | c < i < |t|
      ensures t[c].key.user <= t[i].key.user
    {
      UsersAreSorted(t, c, i);
    }
    forall i, j | c < i < |t| && 0 <= j <= c && t[j].key.user == t[i].key.user
      ensures t[i].key.user <= t[c].key.user
    {
      UsersAreSorted(t, j, c);
    }
  }

  lemma {:induction false} ForwardEnd(t: seq<Entry>, n: SequenceNumber, y: int, skipping: bool, skip: UserKey)
    requires Forward(t, n, y, |t|, skipping, skip)
    ensures IsNext(t, n, y, None)
  {
  }

  // `m` is the visible entry looked at last, going backward from before `y` to `c`.
  ghost predicate Backward(t: seq<Entry>, n: SequenceNumber, y: int, c: int, m: Option<nat>) {
    && -1 <= c < y <= |t|
    && (m.Some? ==> c < m.value < y && Visible(t[m.value], n))
    && (forall i :: (if m.Some? then m.value else y) > i > c ==> !Visible(t[i], n))
    && (forall i :: (if m.Some? then m.value + 1 else y) <= i < y ==> !Yields(t, n, i))
  }

  lemma {:induction false} BackwardStep(t: seq<Entry>, n: SequenceNumber, y: int, c: nat, m: Option<nat>)
    requires SortedTable(t) && Backward(t, n, y, c, m)
    ensures !Visible(t[c], n) ==> Backward(t, n, y, c - 1, m)
    ensures Visible(t[c], n) && (m.None? || t[m.value].key.kind.Deletion? || t[c].key.user == t[m.value].key.user) ==>
              Backward(t, n, y, c - 1, Some(c))
    ensures Visible(t[c], n) && m.Some? && t[m.value].key.kind.Value? && t[c].key.user < t[m.value].key.user ==>
              Yields(t, n, m.value)
    ensures m.Some? ==> t[c].key.user <= t[m.value].key.user
  {
    if m.Some? {
      UsersAreSorted(t, c, m.value);
      forall j | 0 <= j <= c
        ensures t[j].key.user <= t[c].key.user
      {
        UsersAreSorted(t, j, c);
      }
    }
  }

  lemma {:induction false} BackwardEnd(t: seq<Entry>, n: SequenceNumber, y: int, m: Option<nat>)
    requires Backward(t, n, y, -1, m)
    ensures m.Some? && t[m.value].key.kind.Value? ==> IsPrev(t, n, y, m)
    ensures m.None? || t[m.value].key.kind.Deletion? ==> IsPrev(t, n, y, None)
    ensures m.Some? ==> forall i :: 0 <= i < m.value ==> !Visible(t[i], n)
  {
  }

  // ----- the iterator -----

  class DBIter {
    const iter: Cursor
    const sequence: SequenceNumber
    var forward: bool
    var valid: bool
    var savedKey: UserKey
    var savedValue: Bytes
    // The entry that is the current element.
    ghost var element: Option<nat>

    ghost function Entries(): seq<Entry> {
      iter.entries
    }

    // Going backward, the cursor stands before every visible entry up to the current
    // element, on an entry of an earlier user key.
    ghost predicate Behind(y: nat)
      reads this, iter
    {
      var t := iter.entries;
      var p: int := if iter.at.Some? then iter.at.value else -1;
      && p < y < |t|
      && (forall i :: p < i < y ==> !Visible(t[i], sequence))
      && (p >= 0 ==> t[p].key.user < t[y].key.user)
    }

    ghost predicate Ok()
      reads this, iter
    {
      && SortedTable(iter.entries) && iter.Ok()
      && valid == element.Some?
      && (valid ==> Yields(iter.entries, sequence, element.value))
      && (valid && forward ==> iter.at == element)
      && (valid && !forward ==>
            && Behind(element.value)
            && savedKey == iter.entries[element.value].key.user
            && savedValue == iter.entries[element.value].value)
    }

    constructor (iter: Cursor, sequence: SequenceNumber)
      requires SortedTable(iter.entries) && iter.Ok()
      ensures Ok() && !valid && this.iter == iter && this.sequence == sequence
    {
      this.iter, this.sequence := iter, sequence;
      forward, valid, savedKey, savedValue := true, false, 0.0, [];
      element := None;
    }

    // What is shown is the current element, in either direction.
    function Key(): (r: UserKey)
      reads this, iter
      requires Ok() && valid
      ensures element.Some? && element.value < |iter.entries| && r == iter.entries[element.value].key.user
    {
      if forward then iter.Current().key.user else savedKey
    }

    function Value(): (r: Bytes)
      reads this, iter
      requires Ok() && valid
      ensures element.Some? && element.value < |iter.entries| && r == iter.entries[element.value].value
    {
      if forward then iter.Current().value else savedValue
    }

    method FindNextUserEntry(startSkipping: bool, startSkip: UserKey, ghost y: int)
      requires SortedTable(iter.entries) && iter.Ok() && iter.Valid() && forward
      requires Forward(iter.entries, sequence, y, iter.at.value, startSkipping, startSkip)
      modifies this`valid, this`savedKey, this`element, iter`at
      ensures Ok() && forward && IsNext(iter.entries, sequence, y, element)
    {
      var skipping, skip := startSkipping, startSkip;
      hide Yields, Forward, SortedTable, IsNext;
      while true
        invariant iter.Ok() && iter.Valid()
        invariant Forward(iter.entries, sequence, y, iter.at.value, skipping, skip)
        decreases |iter.entries| - iter.at.value
      {
        var e := iter.Current();
        ghost var c := iter.at.value;
        ForwardStep(iter.entries, sequence, y, c, skipping, skip);
        if e.key.sequence <= sequence {
          match e.key.kind
          case Deletion =>
            skip := e.key.user;
            skipping := true;
          case Value =>
            if skipping && e.key.user <= skip {
            } else {
              valid := true;
              element := Some(c);
              NextIsElement(iter.entries, sequence, y, c);
              return;
            }
        }
        iter.Next();
        if !iter.Valid() {
          break;
        }
      }
      ForwardEnd(iter.entries, sequence, y, skipping, skip);
      valid := false;
      element := None;
    }

    method FindPrevUserEntry(ghost y: int)
      requires SortedTable(iter.entries) && iter.Ok() && !forward
      requires Backward(iter.entries, sequence, y, if iter.at.Some? then iter.at.value else -1, None)
      modifies this`valid, this`savedKey, this`savedValue, this`element, this`forward, iter`at
      ensures Ok() && IsPrev(iter.entries, sequence, y, element)
    {
      hide Yields, Backward, SortedTable, IsPrev;
      var valueType := Deletion;
      ghost var m: Option<nat> := None;
      ghost var t := iter.entries;
      if iter.Valid() {
        while true
          invariant iter.Ok() && iter.Valid() && !forward
          invariant Backward(t, sequence, y, iter.at.value, m) && (m.Some? ==> m.value < |t|)
          invariant valueType == if m.Some? then t[m.value].key.kind else Deletion
          invariant valueType.Value? ==> savedKey == t[m.value].key.user && savedValue == t[m.value].value
          decreases iter.at.value
        {
          var e := iter.Current();
          BackwardStep(t, sequence, y, iter.at.value, m);
          if e.key.sequence <= sequence {
            if valueType != Deletion && e.key.user < savedKey {
              // A value was found, and this entry is of an earlier user key.
              BackwardFound(t, sequence, y, iter.at.value, m);
              break;
            }
            valueType := e.key.kind;
            m := Some(iter.at.value);
            if valueType == Deletion {
              savedKey, savedValue := 0.0, [];
            } else {
              savedKey, savedValue := e.key.user, e.value;
            }
          }
          iter.Prev();
          if !iter.Valid() {
            BackwardEnd(t, sequence, y, m);
            break;
          }
        }
      } else {
        BackwardEnd(t, sequence, y, m);
      }
      if valueType == Deletion {
        valid := false;
        element := None;
        savedKey, savedValue := 0.0, [];
        forward := true;
      } else {
        valid := true;
        element := m;
        PrevIsElement(t, sequence, y, m.value);
      }
    }

    method Next()
      requires Ok() && valid
      modifies this, iter`at
      ensures Ok() && IsNext(iter.entries, sequence, old(element).value, element)
    {
      ghost var y := element.value;
      if !forward {
        forward := true;
        if !iter.Valid() {
          iter.SeekToFirst();
        } else {
          iter.Next();
        }
        if !iter.Valid() {
          assert false;
        }
        BeforeElement(iter.entries, sequence, y, iter.at.value);
      } else {
        savedKey := iter.Current().key.user;
        AtElement(iter.entries, sequence, y);
      }
      FindNextUserEntry(true, savedKey, y);
    }

    method Prev()
      requires Ok() && valid
      modifies this, iter`at
      ensures Ok() && IsPrev(iter.entries, sequence, old(element).value, element)
    {
      ghost var y := element.value;
      if forward {
        savedKey := iter.Current().key.user;
        while true
          invariant iter.Ok() && iter.Valid() && forward && iter.at.value <= y && savedKey == iter.entries[y].key.user
          invariant forall i :: iter.at.value <= i <= y ==> iter.entries[i].key.user == savedKey
          decreases iter.at.value
        {
          iter.Prev();
          if !iter.Valid() {
            valid := false;
            element := None;
            NothingBefore(iter.entries, sequence, y);
            return;
          }
          UsersAreSorted(iter.entries, iter.at.value, y);
          if iter.Current().key.user < savedKey {
            break;
          }
        }
        forward := false;
        SameUserBefore(iter.entries, sequence, y, iter.at.value);
      }
      FindPrevUserEntry(y);
    }

    // The first element whose user key is at or after the target.
    method Seek(target: UserKey)
      requires Ok()
      modifies this, iter`at
      ensures Ok()
      ensures element.Some? ==> iter.entries[element.value].key.user >= target
      ensures forall i :: Yields(iter.entries, sequence, i) && iter.entries[i].key.user >= target ==> element.Some? && element.value <= i
    {
      forward := true;
      savedValue := [];
      iter.Seek(SeekKey(target, sequence));
      SoughtPosition(iter.entries, sequence, target);
      if iter.Valid() {
        FindNextUserEntry(false, 0.0, iter.at.value - 1);
      } else {
        valid := false;
        element := None;
      }
    }

    method SeekToFirst()
      requires Ok()
      modifies this, iter`at
      ensures Ok() && IsNext(iter.entries, sequence, -1, element)
    {
      forward := true;
      savedValue := [];
      iter.SeekToFirst();
      if iter.Valid() {
        FindNextUserEntry(false, 0.0, -1);
      } else {
        valid := false;
        element := None;
      }
    }

    method SeekToLast()
      requires Ok()
      modifies this, iter`at
      ensures Ok() && IsPrev(iter.entries, sequence, |iter.entries|, element)
    {
      forward := false;
      savedValue := [];
      iter.SeekToLast();
      FindPrevUserEntry(|iter.entries|);
    }
  }

  lemma {:induction false} NextIsElement(t: seq<Entry>, n: SequenceNumber, y: int, c: nat)
    requires IsNext(t, n, y, Some(c))
    ensures Yields(t, n, c)
  {
  }

  lemma {:induction false} PrevIsElement(t: seq<Entry>, n: SequenceNumber, y: int, c: nat)
    requires IsPrev(t, n, y, Some(c))
    ensures Yields(t, n, c)
  {
  }

  lemma {:induction false} BackwardFound(t: seq<Entry>, n: SequenceNumber, y: int, c: nat, m: Option<nat>)
    requires Backward(t, n, y, c, m) && m.Some? && Yields(t, n, m.value)
    ensures IsPrev(t, n, y, m) && c < m.value
    ensures forall i :: c < i < m.value ==> !Visible(t[i], n)
  {
  }

  // From just before the entries of an element, the way to it shows nothing.
  lemma {:induction false} BeforeElement(t: seq<Entry>, n: SequenceNumber, y: nat, c: nat)
    requires SortedTable(t) && Yields(t, n, y) && c <= y
    requires forall i :: c <= i < y ==> !Visible(t[i], n)
    requires c > 0 ==> t[c - 1].key.user < t[y].key.user
    ensures Forward(t, n, y, c, true, t[y].key.user)
  {
    forall i, j | c <= i < |t| && 0 <= j < c && Visible(t[j], n) && t[j].key.user == t[i].key.user
      ensures t[i].key.user <= t[y].key.user
    {
      UsersAreSorted(t, j, c - 1);
    }
    forall i | y < i < |t|
      ensures t[y].key.user <= t[i].key.user
    {
      UsersAreSorted(t, y, i);
    }
  }

  lemma {:induction false} AtElement(t: seq<Entry>, n: SequenceNumber, y: nat)
    requires SortedTable(t) && Yields(t, n, y)
    ensures Forward(t, n, y, y, true, t[y].key.user)
  {
    forall i, j | y <= i < |t| && 0 <= j < y && t[j].key.user == t[i].key.user
      ensures t[i].key.user <= t[y].key.user
    {
      UsersAreSorted(t, j, y);
    }
    forall i | y < i < |t|
      ensures t[y].key.user <= t[i].key.user
    {
      UsersAreSorted(t, y, i);
    }
  }

  // The entries before an element, down to an earlier user key, hold no element.
  lemma {:induction false} SameUserBefore(t: seq<Entry>, n: SequenceNumber, y: nat, c: nat)
    requires Yields(t, n, y) && c < y && forall i :: c < i <= y ==> t[i].key.user == t[y].key.user
    ensures Backward(t, n, y, c, None)
  {
  }

  lemma {:induction false} NothingBefore(t: seq<Entry>, n: SequenceNumber, y: nat)
    requires Yields(t, n, y) && forall i :: 0 <= i <= y ==> t[i].key.user == t[y].key.user
    ensures IsPrev(t, n, y, None)
  {
  }

  lemma {:induction false} SoughtPosition(t: seq<Entry>, n: SequenceNumber, target: UserKey)
    requires SortedTable(t)
    ensures var p := Position(t, SeekKey(target, n));
      && (p < |t| ==> Forward(t, n, p - 1, p, false, 0.0) && t[p].key.user >= target)
      && (forall i :: 0 <= i < p && Visible(t[i], n) ==> t[i].key.user < target)
  {
    var p := Position(t, SeekKey(target, n));
    forall i | 0 <= i < |t|
      ensures i < p && Visible(t[i], n) ==> t[i].key.user < target
      ensures p <= i ==> t[i].key.user >= target
    {
      SeekKeySplitsByVisibility(t[i].key, target, n);
      if p <= i {
        SeekKeySplitsByVisibility(t[p].key, target, n);
        UsersAreSorted(t, p, i);
      }
    }
  }
}
