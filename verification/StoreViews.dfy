/**
 When two sets of entries show the same to every reader from some sequence number on,
 and how that is kept as newer entries arrive on top.
 */
module StoreViews {
  import opened Wrappers
  import opened DbFormat
  import opened Views
  import opened MergeRules

  ghost predicate SameViews(a: set<Entry>, b: set<Entry>, from: SequenceNumber) {
    forall k, n :: from <= n ==> View(a, k, n) == View(b, k, n)
  }

  // Every entry of `a` was written before every entry of `b`.
  ghost predicate Older(a: set<Entry>, b: set<Entry>) {
    forall e, o :: e in a && o in b ==> e.key.sequence < o.key.sequence
  }

  ghost predicate UpTo(a: set<Entry>, n: SequenceNumber) {
    forall e :: e in a ==> e.key.sequence <= n
  }

  lemma {:induction false} ViewOfLayers(lower: set<Entry>, upper: set<Entry>, k: UserKey, n: SequenceNumber)
    requires UniqueSequences(lower + upper)
    requires forall e, o :: e in lower && o in upper && e.key.user == o.key.user ==> e.key.sequence < o.key.sequence
    ensures View(lower + upper, k, n)
         == if exists e :: Candidate(upper, k, n, e) then View(upper, k, n) else View(lower, k, n)
  {
    var both := lower + upper;
    assert forall o :: Candidate(both, k, n, o) <==> Candidate(lower, k, n, o) || Candidate(upper, k, n, o);
    if c :| Candidate(upper, k, n, c) {
      NewestExists(upper, k, n, c);
      var e :| Newest(upper, k, n, e);
      ViewIgnoresHidden(upper, both, k, n, e);
    } else {
      SameCandidatesSameView(both, lower, k, n);
    }
  }

  lemma {:induction false} SameViewsUnder(a: set<Entry>, b: set<Entry>, upper: set<Entry>, from: SequenceNumber)
    requires SameViews(a, b, from) && Older(a, upper) && Older(b, upper)
    requires UniqueSequences(a + upper) && UniqueSequences(b + upper)
    ensures SameViews(a + upper, b + upper, from)
  {
    hide UniqueSequences, View;
    forall k, n | from <= n
      ensures View(a + upper, k, n) == View(b + upper, k, n)
    {
      ViewOfLayers(a, upper, k, n);
      ViewOfLayers(b, upper, k, n);
    }
  }

  lemma {:induction false} SameViewsChain(a: set<Entry>, b: set<Entry>, c: set<Entry>, from: SequenceNumber, later: SequenceNumber)
    requires SameViews(a, b, from) && SameViews(b, c, later) && from <= later
    ensures SameViews(a, c, later)
  {
    hide View;
  }

  lemma {:induction false} SameViewsLater(a: set<Entry>, b: set<Entry>, from: SequenceNumber, later: SequenceNumber)
    requires SameViews(a, b, from) && from <= later
    ensures SameViews(a, b, later)
  {
    hide View;
  }

  lemma {:induction false} SubsetIsUnique(a: set<Entry>, b: set<Entry>)
    requires a <= b && UniqueSequences(b)
    ensures UniqueSequences(a)
  {
  }

  lemma {:induction false} SubsetIsOlder(a: set<Entry>, b: set<Entry>, c: set<Entry>, d: set<Entry>)
    requires a <= b && c <= d && Older(b, d)
    ensures Older(a, c)
  {
  }

  // Writing entries under new sequence numbers.
  lemma {:induction false} UnionIsUnique(a: set<Entry>, b: set<Entry>)
    requires UniqueSequences(a) && UniqueSequences(b) && Older(a, b)
    ensures UniqueSequences(a + b)
  {
    forall e, o | e in a + b && o in a + b && e.key.user == o.key.user && e.key.sequence == o.key.sequence
      ensures e == o
    {
      assert !(e in a && o in b) && !(e in b && o in a);
    }
  }
}
