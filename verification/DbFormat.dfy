// Internal keys (db/dbformat.h, db/dbformat.cc) and the order that every sorted
// structure of the store follows.

module Wrappers {
  datatype Option<+T> = None | Some(value: T)
}

/**
 A user key is represented by its rank in the order of the user comparator.  Every
 total order on byte strings embeds in the reals; `RankOrdersLikeBytes` builds the
 embedding for the comparator that the store uses by default.
 */
module DbFormat {
  import opened Wrappers

  newtype byte = b: int | 0 <= b < 256
  type Bytes = seq<byte>

  type UserKey = real

  const MAX_SEQUENCE_NUMBER: int := 0xFF_FFFF_FFFF_FFFF

  type SequenceNumber = s: int | 0 <= s <= MAX_SEQUENCE_NUMBER

  datatype ValueType = Deletion | Value

  const VALUE_TYPE_FOR_SEEK := Value

  datatype InternalKey = InternalKey(user: UserKey, sequence: SequenceNumber, kind: ValueType)

  datatype Entry = Entry(key: InternalKey, value: Bytes)

  // The sequence number shares 64 bits with the one-byte type.
  function Tag(k: InternalKey): int {
    k.sequence * 256 + (if k.kind.Value? then 1 else 0)
  }

  // Increasing user key, then decreasing sequence number and type.
  predicate Less(a: InternalKey, b: InternalKey) {
    a.user < b.user || (a.user == b.user && Tag(a) > Tag(b))
  }

  predicate AtMost(a: InternalKey, b: InternalKey) {
    !Less(b, a)
  }

  function Compare(a: InternalKey, b: InternalKey): (r: int)
    ensures r < 0 <==> Less(a, b)
    ensures r > 0 <==> Less(b, a)
  {
    if a.user < b.user then -1
    else if a.user > b.user then 1
    else if Tag(a) > Tag(b) then -1
    else if Tag(a) < Tag(b) then 1
    else 0
  }

  predicate SortedTable(t: seq<Entry>) {
    forall i, j :: 0 <= i < j < |t| ==> Less(t[i].key, t[j].key)
  }

  // The key that sorts just before every entry of `user` visible at `s`.
  function SeekKey(user: UserKey, s: SequenceNumber): InternalKey {
    InternalKey(user, s, VALUE_TYPE_FOR_SEEK)
  }

  // A lookup key splits the entries of its user key by visibility: exactly the
  // entries at or after it are the ones a reader at `s` may see.
  lemma {:induction false} SeekKeySplitsByVisibility(k: InternalKey, user: UserKey, s: SequenceNumber)
    ensures Less(k, SeekKey(user, s)) <==> k.user < user || (k.user == user && k.sequence > s)
  {
    if k.user == user && k.sequence <= s {
      assert Tag(k) <= Tag(SeekKey(user, s));
    }
  }

  // ----- the default user comparator -----

  predicate BytesLess(a: Bytes, b: Bytes) {
    if b == [] then false
    else if a == [] then true
    else if a[0] != b[0] then a[0] < b[0]
    else BytesLess(a[1..], b[1..])
  }

  // Reads a byte string as a base-257 fraction with digits 1..256.
  function Rank(a: Bytes): (r: real)
    ensures 0.0 <= r < 1.0
    ensures a != [] ==> r > 0.0
  {
    if a == [] then 0.0 else ((a[0] as int + 1) as real + Rank(a[1..])) / 257.0
  }

  lemma {:induction false} RankOrdersLikeBytes(a: Bytes, b: Bytes)
    ensures BytesLess(a, b) <==> Rank(a) < Rank(b)
    ensures a == b <==> Rank(a) == Rank(b)
  {
    if a != [] && b != [] {
      RankOrdersLikeBytes(a[1..], b[1..]);
      assert a == [a[0]] + a[1..] && b == [b[0]] + b[1..];
      var x, y := a[0] as int, b[0] as int;
      if x < y {
        assert (x + 1) as real + 1.0 <= (y + 1) as real;
      } else if y < x {
        assert (y + 1) as real + 1.0 <= (x + 1) as real;
      }
    }
  }
}
