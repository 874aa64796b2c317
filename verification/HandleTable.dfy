/**
 The hash table of the cache (util/cache.cc: HandleTable): chains of handles, which is a
 map from key and hash to a handle, before and after it grows.
 */
module HandleTables {
  import opened Wrappers
  import opened DbFormat
  import opened Coding

  class LRUHandle {
    const key: Bytes
    const hash: Word
    const value: int
    const charge: nat
    var nextHash: LRUHandle?
    var next: LRUHandle?
    var prev: LRUHandle?
    var inCache: bool
    var refs: nat

    constructor (key: Bytes, hash: Word, value: int, charge: nat)
      ensures this.key == key && this.hash == hash && this.value == value && this.charge == charge
      ensures !inCache && refs == 1 && nextHash == null && next == null && prev == null
    {
      this.key, this.hash, this.value, this.charge := key, hash, value, charge;
      inCache, refs, nextHash, next, prev := false, 1, null, null, null;
    }

    predicate Matches(key: Bytes, hash: Word) {
      this.hash == hash && this.key == key
    }
  }

  function At(c: seq<LRUHandle>, i: nat): LRUHandle? {
    if i < |c| then c[i] else null
  }

  function Only(h: LRUHandle?): set<LRUHandle> {
    if h == null then {} else {h}
  }

  ghost predicate LinkAt(c: seq<LRUHandle>, k: nat)
    reads (if k < |c| then {c[k]} else {})`nextHash
  {
    k < |c| && c[k].nextHash == At(c, k + 1)
  }

  // The handles of a chain from the i-th on are linked.
  ghost predicate LinkedFrom(c: seq<LRUHandle>, i: nat)
    reads (set h | h in c)`nextHash
  {
    forall k :: i <= k < |c| ==> LinkAt(c, k)
  }

  // No two handles of a chain are for the same key.
  ghost predicate Distinct(c: seq<LRUHandle>) {
    forall i, j :: 0 <= i < j < |c| ==> !c[i].Matches(c[j].key, c[j].hash)
  }

  // Lengths double, so the mask of the source is a remainder.
  predicate PowerOfTwo(n: nat) {
    n == 1 || (n > 1 && n % 2 == 0 && PowerOfTwo(n / 2))
  }

  function Bucket(hash: Word, length: nat): (b: nat)
    requires length > 0
    ensures b < length
  {
    hash % length
  }

  // The handles are those of the chains, each in the bucket of its hash.
  ghost predicate Buckets(chains: seq<seq<LRUHandle>>, handles: set<LRUHandle>, length: nat) {
    && length == |chains| > 0 && PowerOfTwo(length)
    && (forall h :: h in handles ==> h in chains[Bucket(h.hash, length)])
    && (forall b, h :: 0 <= b < length && h in chains[b] ==> h in handles && Bucket(h.hash, length) == b)
    && (forall b :: 0 <= b < length ==> Distinct(chains[b]))
  }

  class HandleTable {
    var length: nat
    var elems: nat
    var list: array<LRUHandle?>
    ghost var chains: seq<seq<LRUHandle>>
    ghost var handles: set<LRUHandle>

    ghost predicate Sorted()
      reads this
    {
      Buckets(chains, handles, length) && elems == |handles|
    }

    ghost predicate Linked()
      requires forall b, h :: 0 <= b < |chains| && h in chains[b] ==> h in handles
      reads this, list, handles`nextHash
    {
      LinkedTo(list, chains)
    }

    ghost predicate Valid()
      reads this, list, handles`nextHash
    {
      Sorted() && Linked() && |handles| <= length
    }

    constructor ()
      ensures Valid() && handles == {} && fresh(list)
    {
      length, elems, handles := 4, 0, {};
      list := new LRUHandle?[4](_ => null);
      chains := seq(4, _ => []);
    }

    // FindPointer: the slot that points at the matching handle, or the one at the end of
    // the chain.  Without `before`, it is the slot of the bucket.
    method FindPointer(key: Bytes, hash: Word) returns (b: nat, before: LRUHandle?, found: LRUHandle?, ghost i: nat)
      requires Valid()
      ensures b == Bucket(hash, length) && b < |chains| == length && i <= |chains[b]| && found == At(chains[b], i)
      ensures found == null ==> forall x :: x in handles ==> !x.Matches(key, hash)
      ensures found != null ==> i < |chains[b]| && found in handles
      ensures before != null ==> before in handles
      ensures Distinct(chains[b])
      ensures before == if i == 0 then null else chains[b][i - 1]
      ensures forall k :: 0 <= k < i ==> !chains[b][k].Matches(key, hash)
      ensures found != null ==> found.Matches(key, hash)
    {
      hide PowerOfTwo, Distinct, Bucket;
      b := Bucket(hash, length);
      before, found, i := null, list[b], 0;
      while found != null && !(found.hash == hash && found.key == key)
        invariant i <= |chains[b]| && found == At(chains[b], i)
        invariant before == if i == 0 then null else chains[b][i - 1]
        invariant forall k :: 0 <= k < i ==> !chains[b][k].Matches(key, hash)
        decreases |chains[b]| - i
      {
        assert LinkAt(chains[b], i);
        before := found;
        found := found.nextHash;
        i := i + 1;
      }
      if found == null {
        NoMatch(chains, handles, length, key, hash);
      }
    }

    /** Lookup. */
    method Lookup(key: Bytes, hash: Word) returns (h: LRUHandle?)
      requires Valid()
      ensures h == null ==> forall x :: x in handles ==> !x.Matches(key, hash)
      ensures h != null ==> h in handles && h.Matches(key, hash)
    {
      hide PowerOfTwo, Distinct, Bucket;
      var b, before, found, i := FindPointer(key, hash);
      return found;
    }

    // Redirects a slot; what hangs on it now takes the place of the rest of the chain.
    method SetSlot(b: nat, before: LRUHandle?, x: LRUHandle?, ghost i: nat, ghost c: seq<LRUHandle>)
      requires Valid() && b < length && i <= |chains[b]| && before == (if i == 0 then null else chains[b][i - 1])
      requires i <= |c| && c[..i] == chains[b][..i] && x == At(c, i) && LinkedFrom(c, i)
      requires i > 0 ==> before !in c[i..]
      modifies list, this`chains, Only(before)`nextHash
      ensures chains == old(chains)[b := c] && LinkedTo(list, chains)
    {
      hide PowerOfTwo, Bucket;
      if i > 0 {
        assert before in chains[b];
        forall k | 0 <= k < i - 1
          ensures chains[b][k] != before
        {
          assert !chains[b][k].Matches(before.key, before.hash);
        }
      }
      if before == null {
        list[b] := x;
      } else {
        before.nextHash := x;
      }
      ghost var was := chains;
      chains := chains[b := c];
      forall k | 0 <= k < |c|
        ensures LinkAt(c, k)
      {
        if k < i {
          assert c[k] == c[..i][k] == was[b][k];
          assert k + 1 < i ==> c[k + 1] == c[..i][k + 1] == was[b][k + 1];
          assert old(LinkAt(was[b], k));
        }
      }
      assert c != [] && i > 0 ==> c[0] == c[..i][0];
      forall d | 0 <= d < |chains| && d != b
        ensures list[d] == At(chains[d], 0) && LinkedFrom(chains[d], 0)
      {
        forall k | 0 <= k < |chains[d]|
          ensures LinkAt(chains[d], k)
        {
          assert was[d][k] in was[d];
          assert old(LinkAt(was[d], k));
        }
      }
    }

    /**
     Insert: the handle takes the place of one for the same key, which is returned.  The
     table grows when it has more handles than buckets, and only then.
     */
    method Insert(h: LRUHandle) returns (replaced: LRUHandle?)
      requires Valid() && h !in handles
      modifies this, list, h`nextHash, handles`nextHash
      ensures Valid() && (list == old(list) || fresh(list))
      ensures replaced == null ==> handles == old(handles) + {h} && forall x :: x in old(handles) ==> !x.Matches(h.key, h.hash)
      ensures replaced != null ==>
                handles == old(handles) - {replaced} + {h} && replaced in old(handles) && replaced.Matches(h.key, h.hash)
      ensures if |handles| <= old(length) then length == old(length) && list == old(list)
              else length == 4 || length < 2 * |handles|
    {
      hide Buckets, LinkAt, LinkedFrom;
      replaced := Place(h);
      if replaced == null {
        elems := elems + 1;
        if elems > length {
          Resize();
        }
      }
    }

    method Place(h: LRUHandle) returns (replaced: LRUHandle?)
      requires Valid() && h !in handles
      modifies this`chains, this`handles, list, h`nextHash, handles`nextHash
      ensures Buckets(chains, handles, length) && Linked()
      ensures replaced == null ==> handles == old(handles) + {h} && forall x :: x in old(handles) ==> !x.Matches(h.key, h.hash)
      ensures replaced != null ==>
                handles == old(handles) - {replaced} + {h} && replaced in old(handles) && replaced.Matches(h.key, h.hash)
    {
      hide PowerOfTwo, Bucket, Distinct, Buckets, LinkAt, LinkedFrom;
      ghost var i;
      var b, before;
      b, before, replaced, i := FindPointer(h.key, h.hash);
      ghost var all, c := chains, chains[b];
      ghost var after := if replaced == null then c + [h] else c[i := h];
      BucketsAfterInsert(all, handles, length, i, h);
      AllInHandles(all, handles, length);
      RestAvoids(c, i, after, h);
      ChainIsLinked(c, i);
      h.nextHash := if replaced == null then null else replaced.nextHash;
      RestIsLinked(c, i, after, h);
      SetSlot(b, before, h, i, after);
      handles := if replaced == null then handles + {h} else handles - {replaced} + {h};
    }

    /** Remove. */
    method Remove(key: Bytes, hash: Word) returns (result: LRUHandle?)
      requires Valid()
      modifies this, list, handles`nextHash
      ensures Valid() && list == old(list) && length == old(length)
      ensures result == null ==> handles == old(handles) && forall x :: x in handles ==> !x.Matches(key, hash)
      ensures result != null ==> handles == old(handles) - {result} && result in old(handles) && result.Matches(key, hash)
    {
      hide PowerOfTwo, Bucket, Distinct, Buckets, LinkAt, LinkedFrom;
      ghost var i;
      var b, before;
      b, before, result, i := FindPointer(key, hash);
      if result != null {
        ghost var all, c := chains, chains[b];
        BucketsAfterRemove(all, handles, length, b, i);
        ChainIsLinked(c, i);
        ShorterIsLinked(c, i);
        SetSlot(b, before, result.nextHash, i, c[..i] + c[i + 1..]);
        handles := handles - {result};
        elems := elems - 1;
      }
    }

    // Resize: every handle is moved to the front of its new chain.  The length is the
    // least power of two from 4 on that has a bucket for every handle.
    method Resize()
      requires Sorted() && Linked()
      modifies this`length, this`list, this`chains, handles`nextHash
      ensures Valid() && fresh(list)
      ensures length == 4 || length < 2 * |handles|
    {
      hide PowerOfTwo, Bucket, Distinct, Buckets, LinkAt, LinkedFrom, MovedBefore, Left, LinkedTo;
      var newLength := 4;
      FourIsPower();
      while newLength < elems
        invariant newLength >= 4 && PowerOfTwo(newLength) && (newLength == 4 || newLength < 2 * elems)
        modifies {}
      {
        DoubleIsPower(newLength);
        newLength := newLength * 2;
      }
      var newList := new LRUHandle?[newLength](_ => null);
      ghost var all := chains;
      ghost var newChains: seq<seq<LRUHandle>> := seq(newLength, _ => []);
      ghost var moved: set<LRUHandle> := {};
      NoBuckets(newChains, newLength);
      NothingLinked(newList, newChains);
      NothingMoved(all, handles, length);
      AllLeft(list, all);
      AsManyChains(all, handles, length);
      SameLength(list, all);
      var i := 0;
      while i < length
        invariant i <= length && Buckets(newChains, moved, newLength) && LinkedTo(newList, newChains)
        invariant MovedBefore(all, moved, handles, length, i, 0) && Left(list, all, i)
        modifies newList, handles`nextHash
      {
        ghost var k: nat := 0;
        LeftFirst(list, all, i);
        var h := list[i];
        while h != null
          invariant k <= |all[i]| && h == At(all[i], k) && LinkedFrom(all[i], k)
          invariant Buckets(newChains, moved, newLength) && LinkedTo(newList, newChains)
          invariant MovedBefore(all, moved, handles, length, i, k) && Left(list, all, i + 1)
          decreases |all[i]| - k
          modifies newList, handles`nextHash
        {
          NextToMove(all, moved, handles, length, i, k);
          ChainIsLinked2(all[i], k);
          var next := h.nextHash;
          newChains := MoveHandle(h, newList, newLength, newChains, moved, all, i, k);
          moved := moved + {h};
          h := next;
          k := k + 1;
        }
        ChainMoved(all, moved, handles, length, i, k);
        i := i + 1;
      }
      AllMoved(all, moved, handles, length);
      list := newList;
      length := newLength;
      chains := newChains;
    }

    // One handle goes to the front of its new chain.
    method MoveHandle(h: LRUHandle, newList: array<LRUHandle?>, newLength: nat, ghost newChains: seq<seq<LRUHandle>>,
                      ghost moved: set<LRUHandle>, ghost all: seq<seq<LRUHandle>>, ghost i: nat, ghost k: nat)
      returns (ghost after: seq<seq<LRUHandle>>)
      requires Buckets(newChains, moved, newLength) && LinkedTo(newList, newChains) && newList != list
      requires Buckets(all, handles, length) && MovedBefore(all, moved, handles, length, i, k)
      requires i < length && k < |all[i]| && h == all[i][k] && LinkedFrom(all[i], k) && Left(list, all, i + 1)
      requires h in handles && h !in moved
      modifies newList, h`nextHash
      ensures Buckets(after, moved + {h}, newLength) && LinkedTo(newList, after)
      ensures LinkedFrom(all[i], k + 1) && Left(list, all, i + 1)
    {
      hide PowerOfTwo, Bucket, Distinct, Buckets, MovedBefore;
      AsManyChains(newChains, moved, newLength);
      AsManyChains(all, handles, length);
      var b := Bucket(h.hash, newLength);
      AllInHandles(newChains, moved, newLength);
      AllDiffer(all, handles, length, moved, h, i, k);
      NotFurtherOn(all, handles, length, i, k);
      BucketsAfterMove(newChains, moved, newLength, h);
      h.nextHash := newList[b];
      newList[b] := h;
      after := newChains[b := [h] + newChains[b]];
      forall d | 0 <= d < |after|
        ensures newList[d] == At(after[d], 0) && LinkedFrom(after[d], 0)
      {
        forall m | 0 <= m < |after[d]|
          ensures LinkAt(after[d], m)
        {
          if d == b {
            if m > 0 {
              assert old(LinkAt(newChains[d], m - 1));
              assert newChains[d][m - 1] in newChains[d];
            }
          } else {
            assert old(LinkAt(newChains[d], m));
            assert newChains[d][m] in newChains[d];
          }
        }
      }
      forall m | k + 1 <= m < |all[i]|
        ensures LinkAt(all[i], m)
      {
        assert old(LinkAt(all[i], m));
      }
      forall d | i + 1 <= d < |all|
        ensures list[d] == At(all[d], 0) && LinkedFrom(all[d], 0)
      {
        forall m | 0 <= m < |all[d]|
          ensures LinkAt(all[d], m)
        {
          assert old(LinkAt(all[d], m));
          assert all[d][m] in all[d];
        }
      }
    }
  }

  // An array of chains.
  ghost predicate LinkedTo(list: array<LRUHandle?>, chains: seq<seq<LRUHandle>>)
    reads list, (set c, h | c in chains && h in c :: h)`nextHash
  {
    && list.Length == |chains|
    && forall b :: 0 <= b < |chains| ==> list[b] == At(chains[b], 0) && LinkedFrom(chains[b], 0)
  }

  // The chains from the i-th on are as they were.
  ghost predicate Left(list: array<LRUHandle?>, chains: seq<seq<LRUHandle>>, i: nat)
    reads list, (set c, h | c in chains && h in c :: h)`nextHash
  {
    && list.Length == |chains|
    && forall b :: i <= b < |chains| ==> list[b] == At(chains[b], 0) && LinkedFrom(chains[b], 0)
  }

  // Moved are the handles of the chains before the i-th, and `k` of its own.
  ghost predicate MovedBefore(all: seq<seq<LRUHandle>>, moved: set<LRUHandle>, handles: set<LRUHandle>, length: nat, i: nat, k: nat) {
    && |all| == length > 0 && i <= length && (i < length ==> k <= |all[i]|) && moved <= handles
    && forall x :: x in handles ==>
         (x in moved <==> Bucket(x.hash, length) < i || (i < length && Bucket(x.hash, length) == i && x in all[i][..k]))
  }

  lemma {:induction false} AsManyChains(all: seq<seq<LRUHandle>>, handles: set<LRUHandle>, length: nat)
    requires Buckets(all, handles, length)
    ensures |all| == length > 0
  {
    hide PowerOfTwo, Distinct, Bucket;
  }

  lemma {:induction false} NothingLinked(list: array<LRUHandle?>, chains: seq<seq<LRUHandle>>)
    requires list.Length == |chains| && forall b :: 0 <= b < |chains| ==> chains[b] == [] && list[b] == null
    ensures LinkedTo(list, chains)
  {
  }

  lemma {:induction false} NothingMoved(all: seq<seq<LRUHandle>>, handles: set<LRUHandle>, length: nat)
    requires Buckets(all, handles, length)
    ensures MovedBefore(all, {}, handles, length, 0, 0)
  {
    hide PowerOfTwo, Distinct;
  }

  lemma {:induction false} AllLeft(list: array<LRUHandle?>, all: seq<seq<LRUHandle>>)
    requires LinkedTo(list, all)
    ensures Left(list, all, 0)
  {
    hide LinkedFrom, At;
  }

  lemma {:induction false} SameLength(list: array<LRUHandle?>, all: seq<seq<LRUHandle>>)
    requires LinkedTo(list, all)
    ensures list.Length == |all|
  {
  }

  lemma {:induction false} LeftFirst(list: array<LRUHandle?>, all: seq<seq<LRUHandle>>, i: nat)
    requires Left(list, all, i) && i < |all|
    ensures list[i] == At(all[i], 0) && LinkedFrom(all[i], 0) && Left(list, all, i + 1)
  {
    hide LinkedFrom, At;
  }

  lemma {:induction false} NextToMove(all: seq<seq<LRUHandle>>, moved: set<LRUHandle>, handles: set<LRUHandle>, length: nat, i: nat, k: nat)
    requires Buckets(all, handles, length) && MovedBefore(all, moved, handles, length, i, k) && i < length && k < |all[i]|
    ensures all[i][k] in handles && all[i][k] !in moved
    ensures MovedBefore(all, moved + {all[i][k]}, handles, length, i, k + 1)
  {
    hide PowerOfTwo, Distinct, Bucket;
    var c := all[i];
    assert c[k] in c;
    DistinctChain(all, handles, length, i);
    OnlyOnce(c, k);
    assert c[..k + 1] == c[..k] + [c[k]];
  }

  lemma {:induction false} DistinctChain(all: seq<seq<LRUHandle>>, handles: set<LRUHandle>, length: nat, i: nat)
    requires Buckets(all, handles, length) && i < length
    ensures i < |all| && Distinct(all[i])
  {
    hide Distinct;
  }

  lemma {:induction false} ChainIsLinked2(c: seq<LRUHandle>, k: nat)
    requires LinkedFrom(c, k) && k < |c|
    ensures c[k].nextHash == At(c, k + 1)
  {
    assert LinkAt(c, k);
  }

  lemma {:induction false} ChainMoved(all: seq<seq<LRUHandle>>, moved: set<LRUHandle>, handles: set<LRUHandle>, length: nat, i: nat, k: nat)
    requires Buckets(all, handles, length) && MovedBefore(all, moved, handles, length, i, k) && i < length && k == |all[i]|
    ensures MovedBefore(all, moved, handles, length, i + 1, 0)
  {
    hide PowerOfTwo, Distinct, Bucket;
    assert all[i][..k] == all[i];
  }

  lemma {:induction false} AllMoved(all: seq<seq<LRUHandle>>, moved: set<LRUHandle>, handles: set<LRUHandle>, length: nat)
    requires MovedBefore(all, moved, handles, length, length, 0)
    ensures moved == handles
  {
  }

  // Two handles of a table are for different keys.
  lemma {:induction false} AllDiffer(all: seq<seq<LRUHandle>>, handles: set<LRUHandle>, length: nat, moved: set<LRUHandle>, h: LRUHandle,
                                     i: nat, k: nat)
    requires Buckets(all, handles, length) && h in handles && h !in moved && MovedBefore(all, moved, handles, length, i, k)
    ensures forall x :: x in moved ==> !h.Matches(x.key, x.hash) && !x.Matches(h.key, h.hash)
  {
    hide PowerOfTwo;
    forall x | x in moved
      ensures x.hash != h.hash || x.key != h.key
    {
      if x.hash == h.hash {
        var c := all[Bucket(h.hash, length)];
        var m :| 0 <= m < |c| && c[m] == h;
        var n :| 0 <= n < |c| && c[n] == x;
      }
    }
  }

  // A key has at most one handle.
  lemma {:induction false} OneForKey(all: seq<seq<LRUHandle>>, handles: set<LRUHandle>, length: nat, x: LRUHandle, y: LRUHandle)
    requires Buckets(all, handles, length) && x in handles && y in handles && x.Matches(y.key, y.hash)
    ensures x == y
  {
    hide PowerOfTwo;
    var c := all[Bucket(x.hash, length)];
    var m :| 0 <= m < |c| && c[m] == x;
    var n :| 0 <= n < |c| && c[n] == y;
  }

  lemma {:induction false} NotFurtherOn(all: seq<seq<LRUHandle>>, handles: set<LRUHandle>, length: nat, i: nat, k: nat)
    requires Buckets(all, handles, length) && i < length && k < |all[i]|
    ensures forall m :: k < m < |all[i]| ==> all[i][m] != all[i][k]
    ensures forall d, x :: i < d < |all| && x in all[d] ==> x != all[i][k]
  {
    hide PowerOfTwo, Bucket;
    DistinctChain(all, handles, length, i);
    OnlyOnce(all[i], k);
    var h := all[i][k];
    assert h in all[i];
    forall d, x | i < d < |all| && x in all[d]
      ensures x != h
    {
      assert Bucket(x.hash, length) == d && Bucket(h.hash, length) == i;
    }
  }

  lemma {:induction false} BucketsAfterMove(chains: seq<seq<LRUHandle>>, handles: set<LRUHandle>, length: nat, h: LRUHandle)
    requires Buckets(chains, handles, length) && h !in handles
    requires forall x :: x in handles ==> !h.Matches(x.key, x.hash) && !x.Matches(h.key, h.hash)
    ensures var b := Bucket(h.hash, length); Buckets(chains[b := [h] + chains[b]], handles + {h}, length)
  {
    hide PowerOfTwo, Bucket;
    var b := Bucket(h.hash, length);
    var c := [h] + chains[b];
    assert c[0] == h;
    forall x | x in handles + {h}
      ensures x in chains[b := c][Bucket(x.hash, length)]
    {
      if x != h && Bucket(x.hash, length) == b {
        var k :| 0 <= k < |chains[b]| && chains[b][k] == x;
        assert c[k + 1] == x;
      }
    }
    forall i, j | 0 <= i < j < |c|
      ensures !c[i].Matches(c[j].key, c[j].hash)
    {
      assert chains[b][j - 1] in chains[b];
    }
  }

  lemma {:induction false} FourIsPower()
    ensures PowerOfTwo(4)
  {
    assert PowerOfTwo(1) && PowerOfTwo(2);
  }

  lemma {:induction false} DoubleIsPower(n: nat)
    requires PowerOfTwo(n) && n > 0
    ensures PowerOfTwo(n * 2)
  {
    assert n * 2 / 2 == n;
  }

  lemma {:induction false} NoBuckets(chains: seq<seq<LRUHandle>>, length: nat)
    requires |chains| == length > 0 && PowerOfTwo(length) && forall b :: 0 <= b < length ==> chains[b] == []
    ensures Buckets(chains, {}, length)
  {
  }

  lemma {:induction false} NoMatch(chains: seq<seq<LRUHandle>>, handles: set<LRUHandle>, length: nat, key: Bytes, hash: Word)
    requires Buckets(chains, handles, length)
    requires forall x :: x in chains[Bucket(hash, length)] ==> !x.Matches(key, hash)
    ensures forall x :: x in handles ==> !x.Matches(key, hash)
  {
    hide Bucket, PowerOfTwo, Distinct;
  }

  lemma {:induction false} AllInHandles(chains: seq<seq<LRUHandle>>, handles: set<LRUHandle>, length: nat)
    requires Buckets(chains, handles, length)
    ensures forall b, h :: 0 <= b < |chains| && h in chains[b] ==> h in handles
    ensures forall b :: 0 <= b < |chains| ==> Distinct(chains[b])
    ensures |chains| == length
  {
    hide Distinct;
  }

  lemma {:induction false} ChainIsLinked(c: seq<LRUHandle>, i: nat)
    requires LinkedFrom(c, 0) && i <= |c|
    ensures LinkedFrom(c, i) && (i < |c| ==> c[i].nextHash == At(c, i + 1))
  {
    assert i < |c| ==> LinkAt(c, i);
  }

  lemma {:induction false} RestAvoids(c: seq<LRUHandle>, i: nat, after: seq<LRUHandle>, h: LRUHandle)
    requires i <= |c| && Distinct(c) && h !in c && after == (if i < |c| then c[i := h] else c + [h])
    ensures |after| >= i && after[..i] == c[..i] && h == At(after, i)
    ensures i > 0 ==> c[i - 1] !in after[i..]
  {
    if i > 0 {
      OnlyOnce(c, i - 1);
      assert forall k :: i < k < |after| ==> after[k] == c[k];
    }
  }

  lemma {:induction false} ShorterIsLinked(c: seq<LRUHandle>, i: nat)
    requires i < |c| && LinkedFrom(c, 0) && Distinct(c)
    ensures var after := c[..i] + c[i + 1..];
      LinkedFrom(after, i) && after[..i] == c[..i] && c[i].nextHash == At(after, i) && (i > 0 ==> c[i - 1] !in after[i..])
  {
    var after := c[..i] + c[i + 1..];
    assert LinkAt(c, i);
    forall k | i <= k < |after|
      ensures LinkAt(after, k)
    {
      assert LinkAt(c, k + 1);
    }
    if i > 0 {
      OnlyOnce(c, i - 1);
    }
  }

  lemma {:induction false} RestIsLinked(c: seq<LRUHandle>, i: nat, after: seq<LRUHandle>, h: LRUHandle)
    requires i <= |c| && LinkedFrom(c, i) && h !in c && after == (if i < |c| then c[i := h] else c + [h])
    requires h.nextHash == At(c, i + 1)
    ensures LinkedFrom(after, i)
  {
    forall k | i <= k < |after|
      ensures LinkAt(after, k)
    {
      assert k > i ==> LinkAt(c, k);
    }
  }

  lemma {:induction false} BucketsAfterInsert(chains: seq<seq<LRUHandle>>, handles: set<LRUHandle>, length: nat, i: nat, h: LRUHandle)
    requires Buckets(chains, handles, length) && h !in handles
    requires var c := chains[Bucket(h.hash, length)];
      && i <= |c| && (forall k :: 0 <= k < i ==> !c[k].Matches(h.key, h.hash)) && (i < |c| ==> c[i].Matches(h.key, h.hash))
    ensures var b := Bucket(h.hash, length);
      var c := chains[b];
      if i < |c| then Buckets(chains[b := c[i := h]], handles - {c[i]} + {h}, length) && c[i] in handles
      else Buckets(chains[b := c + [h]], handles + {h}, length)
           && forall x :: x in handles ==> !x.Matches(h.key, h.hash)
  {
    hide PowerOfTwo, Bucket;
    var b := Bucket(h.hash, length);
    var c := chains[b];
    NewChain(c, i, h);
    if i < |c| {
      var after := c[i := h];
      OnlyOnce(c, i);
      forall x | x in handles - {c[i]} + {h}
        ensures x in chains[b := after][Bucket(x.hash, length)]
      {
        if x == h {
          assert after[i] == h;
        } else if Bucket(x.hash, length) == b {
          var k :| 0 <= k < |c| && c[k] == x;
          assert after[k] == x;
        }
      }
    } else {
      var after := c + [h];
      forall x | x in handles + {h}
        ensures x in chains[b := after][Bucket(x.hash, length)]
      {
        if x == h {
          assert after[|c|] == h;
        } else if Bucket(x.hash, length) == b {
          var k :| 0 <= k < |c| && c[k] == x;
          assert after[k] == x;
        }
      }
    }
  }

  lemma {:induction false} OnlyOnce(c: seq<LRUHandle>, i: nat)
    requires Distinct(c) && i < |c|
    ensures forall k :: 0 <= k < |c| && k != i ==> c[k] != c[i]
    ensures Distinct(c[..i] + c[i + 1..]) && c[i] !in c[..i] + c[i + 1..]
  {
  }

  lemma {:induction false} BucketsAfterRemove(chains: seq<seq<LRUHandle>>, handles: set<LRUHandle>, length: nat, b: nat, i: nat)
    requires Buckets(chains, handles, length) && b < length && i < |chains[b]|
    ensures var c := chains[b]; Buckets(chains[b := c[..i] + c[i + 1..]], handles - {c[i]}, length) && c[i] in handles && Distinct(c)
  {
    hide PowerOfTwo, Bucket, Distinct;
    var c := chains[b];
    OnlyOnce(c, i);
    var after := c[..i] + c[i + 1..];
    forall x | x in handles - {c[i]}
      ensures x in chains[b := after][Bucket(x.hash, length)]
    {
      if Bucket(x.hash, length) == b {
        var k :| 0 <= k < |c| && c[k] == x;
        assert if k < i then after[k] == x else after[k - 1] == x;
      }
    }
    var all := chains[b := after];
    forall d, x | 0 <= d < length && x in all[d]
      ensures x in handles - {c[i]} && Bucket(x.hash, length) == d
    {
      assert x in chains[d];
      assert c[i] in chains[b];
    }
  }

  lemma {:induction false} NewChain(c: seq<LRUHandle>, i: nat, h: LRUHandle)
    requires i <= |c| && Distinct(c) && h !in c
    requires forall k :: 0 <= k < i ==> !c[k].Matches(h.key, h.hash)
    requires i < |c| ==> c[i].Matches(h.key, h.hash)
    ensures Distinct(if i < |c| then c[i := h] else c + [h])
  {
  }
}
