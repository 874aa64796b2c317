/**
 What a reader sees.  `View(s, k, n)` is the value of the newest entry of user key
 `k` whose sequence number is at most `n`, and nothing when there is none or when
 that entry is a deletion.  Every structure of the store is proved against it.
 */
module Views {
  import opened Wrappers
  import opened DbFormat

  ghost predicate Candidate(s: set<Entry>, k: UserKey, n: SequenceNumber, e: Entry) {
    e in s && e.key.user == k && e.key.sequence <= n
  }

  ghost predicate Newest(s: set<Entry>, k: UserKey, n: SequenceNumber, e: Entry) {
    && Candidate(s, k, n, e)
    && forall o :: Candidate(s, k, n, o) ==> o.key.sequence <= e.key.sequence
  }

  function Payload(e: Entry): Option<Bytes> {
    if e.key.kind.Value? then Some(e.value) else None
  }

  ghost function View(s: set<Entry>, k: UserKey, n: SequenceNumber): Option<Bytes> {
    if exists e :: Newest(s, k, n, e) then
      var e :| Newest(s, k, n, e);
      Payload(e)
    else
      None
  }

  // No user key is written twice under one sequence number.
  ghost predicate UniqueSequences(s: set<Entry>) {
    forall e, o :: e in s && o in s && e.key.user == o.key.user && e.key.sequence == o.key.sequence ==> e == o
  }

  lemma {:induction false} NewestExists(s: set<Entry>, k: UserKey, n: SequenceNumber, c: Entry)
    requires Candidate(s, k, n, c)
    ensures exists e :: Newest(s, k, n, e) && c.key.sequence <= e.key.sequence
  {
    var rest := s - {c};
    if d :| Candidate(rest, k, n, d) {
      NewestExists(rest, k, n, d);
      var e :| Newest(rest, k, n, e);
      if e.key.sequence < c.key.sequence {
        assert forall o :: Candidate(s, k, n, o) ==> o == c || Candidate(rest, k, n, o);
        assert Newest(s, k, n, c);
      } else {
        assert forall o :: Candidate(s, k, n, o) ==> o == c || Candidate(rest, k, n, o);
        assert Newest(s, k, n, e);
      }
    } else {
      assert forall o :: Candidate(s, k, n, o) ==> o == c || Candidate(rest, k, n, o);
      assert Newest(s, k, n, c);
    }
  }

  lemma {:induction false} ViewOfNewest(s: set<Entry>, k: UserKey, n: SequenceNumber, e: Entry)
    requires UniqueSequences(s) && Newest(s, k, n, e)
    ensures View(s, k, n) == Payload(e)
  {
    forall o | Newest(s, k, n, o)
      ensures o == e
    {
      assert Candidate(s, k, n, o) && Candidate(s, k, n, e);
    }
  }

  lemma {:induction false} ViewOfNothing(s: set<Entry>, k: UserKey, n: SequenceNumber)
    requires forall e :: !Candidate(s, k, n, e)
    ensures View(s, k, n) == None
  {
  }

  // A larger set shows the same thing when the entries it adds are hidden.
  lemma {:induction false} ViewIgnoresHidden(s: set<Entry>, t: set<Entry>, k: UserKey, n: SequenceNumber, e: Entry)
    requires s <= t && UniqueSequences(t) && Newest(s, k, n, e)
    requires forall o :: Candidate(t, k, n, o) && o !in s ==> o.key.sequence <= e.key.sequence
    ensures View(s, k, n) == View(t, k, n)
  {
    assert Newest(t, k, n, e);
    ViewOfNewest(s, k, n, e);
    ViewOfNewest(t, k, n, e);
  }
}
