/**
 Shortened keys for index entries (util/comparator.cc; db/dbformat.cc:
 InternalKeyComparator).
 */
module Comparators {
  import opened Wrappers
  import opened DbFormat

  // An internal key before its user key is ranked.
  datatype RawKey = RawKey(user: Bytes, sequence: SequenceNumber, kind: ValueType)

  function KeyOf(k: RawKey): InternalKey {
    InternalKey(Rank(k.user), k.sequence, k.kind)
  }

  // The order is decided where two strings first differ.
  lemma {:induction false} FirstDifference(a: Bytes, b: Bytes, d: nat)
    requires d <= |a| && d <= |b| && a[..d] == b[..d]
    requires d < |a| && d < |b| && a[d] != b[d]
    ensures BytesLess(a, b) <==> a[d] < b[d]
    decreases d
  {
    if d > 0 {
      assert a[0] == a[..d][0] && b[0] == b[..d][0];
      assert a[1..][..d - 1] == a[..d][1..] && b[1..][..d - 1] == b[..d][1..];
      FirstDifference(a[1..], b[1..], d - 1);
    }
  }

  // Strings before and behind one with which they share a beginning.
  lemma {:induction false} BehindShares(a: Bytes, x: Bytes, b: Bytes, d: nat)
    requires d <= |a| && d <= |b| && a[..d] == b[..d] && BytesLess(a, x) && BytesLess(x, b)
    ensures d <= |x| && x[..d] == a[..d]
    decreases d
  {
    if d > 0 {
      assert a[0] == a[..d][0] && b[0] == b[..d][0];
      assert a[1..][..d - 1] == a[..d][1..] && b[1..][..d - 1] == b[..d][1..];
      BehindShares(a[1..], x[1..], b[1..], d - 1);
      assert x[..d] == [x[0]] + x[1..][..d - 1] && a[..d] == [a[0]] + a[1..][..d - 1];
    }
  }

  // A longer string is behind its beginning.
  lemma {:induction false} BeginningIsBefore(x: Bytes, a: Bytes)
    requires x <= a
    ensures !BytesLess(a, x)
    decreases |x|
  {
    if x != [] {
      assert x[1..] <= a[1..];
      BeginningIsBefore(x[1..], a[1..]);
    }
  }

  // Where the strings differ first there is room for one byte between them.
  ghost predicate Separable(start: Bytes, limit: Bytes, d: nat) {
    d < |start| && d < |limit| && start[..d] == limit[..d] && start[d] as int + 1 < limit[d] as int
  }

  // Nothing shorter lies between the two, and of the strings of that length nothing before it.
  ghost predicate ShortestBetween(start: Bytes, r: Bytes, limit: Bytes) {
    && BytesLess(start, r) && BytesLess(r, limit)
    && forall x :: BytesLess(start, x) && BytesLess(x, limit) ==> |r| <= |x| && (|r| == |x| ==> !BytesLess(x, r))
  }

  lemma {:induction false} NextByteIsShortest(start: Bytes, limit: Bytes, d: nat, r: Bytes)
    requires Separable(start, limit, d) && |r| == d + 1 && r[..d] == start[..d] && r[d] as int == start[d] as int + 1
    ensures ShortestBetween(start, r, limit)
  {
    FirstDifference(start, r, d);
    FirstDifference(r, limit, d);
    forall x | BytesLess(start, x) && BytesLess(x, limit)
      ensures |r| <= |x| && (|r| == |x| ==> !BytesLess(x, r))
    {
      BehindShares(start, x, limit, d);
      BehindIsLonger(start, x, d);
      if x[d] != r[d] {
        FirstDifference(x, r, d);
        if x[d] != start[d] {
          FirstDifference(start, x, d);
        } else if |x| == d + 1 {
          assert x == start[..d + 1];
          BeginningIsBefore(x, start);
        }
      } else if |x| == d + 1 {
        assert x == r;
        BeginningIsBefore(x, x);
      }
    }
  }

  lemma {:induction false} BehindIsLonger(a: Bytes, x: Bytes, d: nat)
    requires BytesLess(a, x) && d <= |a| && d <= |x| && x[..d] == a[..d]
    ensures |x| > d
  {
    if |x| == d {
      assert x == a[..d];
      BeginningIsBefore(x, a);
    }
  }

  lemma {:induction false} SeparableOnce(start: Bytes, limit: Bytes, d: nat, e: nat)
    requires Separable(start, limit, d) && e < |start| && e < |limit| && start[..e] == limit[..e] && start[e] != limit[e]
    ensures d == e
  {
    SameBytes(start, limit, d);
    SameBytes(start, limit, e);
  }

  lemma {:induction false} SameBytes(a: Bytes, b: Bytes, n: nat)
    requires n <= |a| && n <= |b| && a[..n] == b[..n]
    ensures forall j :: 0 <= j < n ==> a[j] == b[j]
  {
    forall j | 0 <= j < n
      ensures a[j] == b[j]
    {
      assert a[..n][j] == b[..n][j];
    }
  }

  lemma {:induction false} NotSeparable(start: Bytes, limit: Bytes, n: nat, d: nat)
    requires n <= |start| && n <= |limit| && start[..n] == limit[..n] && (n == |start| || n == |limit|)
    ensures !Separable(start, limit, d)
  {
    SameBytes(start, limit, n);
  }

  // BytewiseComparatorImpl::FindShortestSeparator.  Unchanged if there is no room for a byte
  // between the strings; otherwise the shortest string between them, and the first of those.
  method FindShortestSeparator(start: Bytes, limit: Bytes) returns (r: Bytes)
    ensures (exists d: nat :: Separable(start, limit, d)) ==> ShortestBetween(start, r, limit)
    ensures (forall d: nat :: !Separable(start, limit, d)) ==> r == start
    ensures |r| <= |start|
  {
    hide ShortestBetween;
    var minLength := if |start| < |limit| then |start| else |limit|;
    var diffIndex := 0;
    while diffIndex < minLength && start[diffIndex] == limit[diffIndex]
      invariant diffIndex <= minLength && start[..diffIndex] == limit[..diffIndex]
    {
      diffIndex := diffIndex + 1;
    }
    r := start;
    if diffIndex >= minLength {
      // One string is a prefix of the other.
      forall d: nat
        ensures !Separable(start, limit, d)
      {
        NotSeparable(start, limit, diffIndex, d);
      }
    } else {
      forall d: nat | Separable(start, limit, d)
        ensures d == diffIndex
      {
        SeparableOnce(start, limit, d, diffIndex);
      }
      var diffByte := start[diffIndex];
      if diffByte < 0xff && diffByte + 1 < limit[diffIndex] {
        r := start[..diffIndex] + [diffByte + 1];
        assert Separable(start, limit, diffIndex);
        NextByteIsShortest(start, limit, diffIndex, r);
      }
    }
  }

  // Nothing shorter lies behind the key, and of the strings of that length nothing before it.
  ghost predicate ShortestBehind(key: Bytes, r: Bytes) {
    && BytesLess(key, r)
    && forall x :: BytesLess(key, x) ==> |r| <= |x| && (|r| == |x| ==> !BytesLess(x, r))
  }

  lemma {:induction false} NextByteIsShortSuccessor(key: Bytes, i: nat, r: Bytes)
    requires i < |key| && (forall j :: 0 <= j < i ==> key[j] == 0xff) && key[i] != 0xff
    requires |r| == i + 1 && r[..i] == key[..i] && r[i] as int == key[i] as int + 1
    ensures ShortestBehind(key, r)
  {
    FirstDifference(key, r, i);
    forall x | BytesLess(key, x)
      ensures |r| <= |x| && (|r| == |x| ==> !BytesLess(x, r))
    {
      BehindLargest(key, x, i);
      BehindIsLonger(key, x, i);
      if x[i] != r[i] {
        FirstDifference(x, r, i);
        if x[i] != key[i] {
          FirstDifference(key, x, i);
        } else if |x| == i + 1 {
          assert x == key[..i + 1];
          BeginningIsBefore(x, key);
        }
      } else if |x| == i + 1 {
        assert x == r;
        BeginningIsBefore(x, x);
      }
    }
  }

  // What is behind the largest bytes begins with them.
  lemma {:induction false} BehindLargest(key: Bytes, x: Bytes, i: nat)
    requires i <= |key| && (forall j :: 0 <= j < i ==> key[j] == 0xff) && BytesLess(key, x)
    ensures i <= |x| && x[..i] == key[..i]
    decreases i
  {
    if i > 0 {
      assert key[0] == 0xff && x[0] == 0xff;
      BehindLargest(key[1..], x[1..], i - 1);
      assert x[..i] == [x[0]] + x[1..][..i - 1] && key[..i] == [key[0]] + key[1..][..i - 1];
    }
  }

  // BytewiseComparatorImpl::FindShortSuccessor.  Unchanged if all bytes are the largest ones.
  method FindShortSuccessor(key: Bytes) returns (r: Bytes)
    ensures (exists b :: b in key && b != 0xff) ==> ShortestBehind(key, r)
    ensures (forall b :: b in key ==> b == 0xff) ==> r == key
    ensures |r| <= |key|
  {
    hide ShortestBehind;
    for i := 0 to |key|
      invariant forall j :: 0 <= j < i ==> key[j] == 0xff
    {
      var b := key[i];
      if b != 0xff {
        r := key[..i] + [b + 1];
        assert key[i] in key;
        NextByteIsShortSuccessor(key, i, r);
        return;
      }
    }
    r := key;
  }

  // An index key between two neighbours: the first itself, or with a user key strictly
  // before that of the second.
  ghost predicate Separates(r: RawKey, start: RawKey, limit: RawKey) {
    r == start || (Less(KeyOf(start), KeyOf(r)) && Rank(start.user) < Rank(r.user) < Rank(limit.user))
  }

  /**
   InternalKeyComparator::FindShortestSeparator: the shortest user key between the two, if
   there is one that is shorter than the first, before all its entries.
   */
  method ShortestSeparator(start: RawKey, limit: RawKey) returns (r: RawKey)
    ensures Separates(r, start, limit)
    ensures (exists d: nat :: Separable(start.user, limit.user, d) && d + 1 < |start.user|) ==>
              ShortestBetween(start.user, r.user, limit.user) && r == RawKey(r.user, MAX_SEQUENCE_NUMBER, VALUE_TYPE_FOR_SEEK)
    ensures (forall d: nat :: !(Separable(start.user, limit.user, d) && d + 1 < |start.user|)) ==> r == start
  {
    var tmp := FindShortestSeparator(start.user, limit.user);
    r := start;
    ghost var separable := exists d: nat :: Separable(start.user, limit.user, d);
    if separable {
      var d: nat :| Separable(start.user, limit.user, d);
      SeparatorLength(start.user, limit.user, d, tmp);
      forall e: nat | Separable(start.user, limit.user, e)
        ensures e == d
      {
        SeparableOnce(start.user, limit.user, e, d);
      }
    }
    if |tmp| < |start.user| && BytesLess(start.user, tmp) {
      r := RawKey(tmp, MAX_SEQUENCE_NUMBER, VALUE_TYPE_FOR_SEEK);
      RankOrdersLikeBytes(start.user, tmp);
      RankOrdersLikeBytes(tmp, limit.user);
    }
  }

  lemma {:induction false} SeparatorLength(start: Bytes, limit: Bytes, d: nat, r: Bytes)
    requires Separable(start, limit, d) && ShortestBetween(start, r, limit)
    ensures |r| == d + 1
  {
    var x := start[..d] + [(start[d] + 1)];
    assert x[..d] == start[..d];
    NextByteIsShortest(start, limit, d, x);
  }

  /** InternalKeyComparator::FindShortSuccessor, likewise. */
  method ShortSuccessor(key: RawKey) returns (r: RawKey)
    ensures r == key || (Less(KeyOf(key), KeyOf(r)) && Rank(key.user) < Rank(r.user))
    ensures (exists i :: 0 <= i < |key.user| - 1 && key.user[i] != 0xff) ==>
              ShortestBehind(key.user, r.user) && r == RawKey(r.user, MAX_SEQUENCE_NUMBER, VALUE_TYPE_FOR_SEEK)
    ensures (forall i :: 0 <= i < |key.user| - 1 ==> key.user[i] == 0xff) ==> r == key
  {
    var tmp := FindShortSuccessor(key.user);
    r := key;
    SuccessorLength(key.user, tmp);
    if |tmp| < |key.user| && BytesLess(key.user, tmp) {
      r := RawKey(tmp, MAX_SEQUENCE_NUMBER, VALUE_TYPE_FOR_SEEK);
      RankOrdersLikeBytes(key.user, tmp);
    }
  }

  // It is shorter than the key if a byte before the last one can be raised.
  lemma {:induction false} SuccessorLength(key: Bytes, r: Bytes)
    requires (exists b :: b in key && b != 0xff) ==> ShortestBehind(key, r)
    requires (forall b :: b in key ==> b == 0xff) ==> r == key
    requires |r| <= |key|
    ensures (exists i :: 0 <= i < |key| - 1 && key[i] != 0xff) ==> |r| < |key| && ShortestBehind(key, r)
    ensures (forall i :: 0 <= i < |key| - 1 ==> key[i] == 0xff) ==> |r| == |key|
  {
    hide ShortestBehind;
    if n: nat :| n < |key| && key[n] != 0xff {
      assert key[n] in key;
      var i := FirstRaisable(key, n);
      var x := key[..i] + [key[i] + 1];
      assert x[..i] == key[..i];
      NextByteIsShortSuccessor(key, i, x);
      SameLength(key, r, x);
    }
  }

  lemma {:induction false} SameLength(key: Bytes, r: Bytes, x: Bytes)
    requires ShortestBehind(key, r) && ShortestBehind(key, x)
    ensures |r| == |x|
  {
  }

  lemma {:induction false} FirstRaisable(key: Bytes, n: nat) returns (i: nat)
    requires n < |key| && key[n] != 0xff
    ensures i <= n && key[i] != 0xff && forall j :: 0 <= j < i ==> key[j] == 0xff
  {
    i := 0;
    while key[i] == 0xff
      invariant i <= n && forall j :: 0 <= j < i ==> key[j] == 0xff
      decreases n - i
    {
      i := i + 1;
    }
  }
}
