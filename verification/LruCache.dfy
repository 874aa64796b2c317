/**
 One shard of the cache (util/cache.cc: LRUCache): reference counts, the two lists, and
 eviction of the oldest handles that no client holds.
 */
module LruCaches {
  import opened Wrappers
  import opened DbFormat
  import opened Coding
  import opened HandleTables

  // ----- circular lists -----

  function Succ(r: seq<LRUHandle>, i: nat): nat {
    if i + 1 < |r| then i + 1 else 0
  }

  ghost predicate RingAt(r: seq<LRUHandle>, i: nat)
    reads (set h | h in r)`next, (set h | h in r)`prev
  {
    i < |r| && r[i].next == r[Succ(r, i)] && r[Succ(r, i)].prev == r[i]
  }

  ghost predicate Ring(r: seq<LRUHandle>)
    reads (set h | h in r)`next, (set h | h in r)`prev
  {
    |r| > 0 && forall i :: 0 <= i < |r| ==> RingAt(r, i)
  }

  ghost predicate NoDuplicates(r: seq<LRUHandle>) {
    forall i, j :: 0 <= i < j < |r| ==> r[i] != r[j]
  }

  function Nodes(r: seq<LRUHandle>): set<LRUHandle> {
    set h | h in r
  }

  function Drop(r: seq<LRUHandle>, k: nat): seq<LRUHandle>
    requires k < |r|
  {
    r[..k] + r[k + 1..]
  }

  function Skip(i: nat, k: nat): nat {
    if i < k then i else i + 1
  }

  // The handles behind the head.
  function Tail(r: seq<LRUHandle>): set<LRUHandle> {
    set i | 0 < i < |r| :: r[i]
  }

  lemma {:induction false} DropAt(r: seq<LRUHandle>, k: nat)
    requires k < |r|
    ensures |Drop(r, k)| == |r| - 1 && forall i :: 0 <= i < |r| - 1 ==> Drop(r, k)[i] == r[Skip(i, k)]
  {
  }

  /** LRU_Remove. */
  method LruRemove(e: LRUHandle, ghost r: seq<LRUHandle>, ghost k: nat)
    requires Ring(r) && NoDuplicates(r) && 0 < k < |r| && r[k] == e
    modifies Nodes(r)`next, Nodes(r)`prev
    ensures Ring(Drop(r, k))
  {
    assert RingAt(r, k) && RingAt(r, k - 1);
    e.next.prev := e.prev;
    e.prev.next := e.next;
    ghost var s := Drop(r, k);
    forall i | 0 <= i < |s|
      ensures RingAt(s, i)
    {
      ghost var j := if i < k then i else i + 1;
      assert s[i] == r[j];
      assert old(RingAt(r, j));
      assert i + 1 < |s| ==> s[i + 1] == r[if i + 1 < k then i + 1 else i + 2];
    }
  }

  /** LRU_Append: in front of the head of the list, as the newest. */
  method LruAppend(list: LRUHandle, e: LRUHandle, ghost r: seq<LRUHandle>)
    requires Ring(r) && NoDuplicates(r) && r[0] == list && e !in r
    modifies Nodes(r)`next, Nodes(r)`prev, e`next, e`prev
    ensures Ring(r + [e])
  {
    assert RingAt(r, |r| - 1);
    e.next := list;
    e.prev := list.prev;
    e.prev.next := e;
    e.next.prev := e;
    ghost var s := r + [e];
    forall i | 0 <= i < |s|
      ensures RingAt(s, i)
    {
      assert i < |r| ==> old(RingAt(r, i));
    }
  }

  // ----- sequences of handles -----

  function Without(s: seq<LRUHandle>, e: LRUHandle): seq<LRUHandle> {
    if s == [] then [] else if s[0] == e then s[1..] else [s[0]] + Without(s[1..], e)
  }

  lemma {:induction false} WithoutIsDrop(s: seq<LRUHandle>, k: nat)
    requires k < |s| && forall i :: 0 <= i < k ==> s[i] != s[k]
    ensures Without(s, s[k]) == Drop(s, k)
    decreases |s|
  {
    if k > 0 {
      var t := s[1..];
      WithoutIsDrop(t, k - 1);
      assert Drop(s, k) == [s[0]] + Drop(t, k - 1);
    }
  }

  lemma {:induction false} WithoutOther(s: seq<LRUHandle>, e: LRUHandle)
    requires e !in s
    ensures Without(s, e) == s
  {
    if s != [] {
      WithoutOther(s[1..], e);
    }
  }

  function Charges(s: seq<LRUHandle>): nat {
    if s == [] then 0 else Charges(s[..|s| - 1]) + s[|s| - 1].charge
  }

  lemma {:induction false} ChargesDrop(s: seq<LRUHandle>, k: nat)
    requires k < |s|
    ensures Charges(s) == Charges(Drop(s, k)) + s[k].charge
    decreases |s|
  {
    var n := |s| - 1;
    if k < n {
      ChargesDrop(s[..n], k);
      assert Drop(s, k)[..n - 1] == Drop(s[..n], k);
    } else {
      assert Drop(s, k) == s[..n];
    }
  }

  lemma {:induction false} ChargesAdd(s: seq<LRUHandle>, e: LRUHandle)
    ensures Charges(s + [e]) == Charges(s) + e.charge
  {
    assert (s + [e])[..|s|] == s;
  }

  // A ring without one handle.
  lemma {:induction false} DropFacts(r: seq<LRUHandle>, k: nat)
    requires NoDuplicates(r) && 0 < k < |r|
    ensures NoDuplicates(Drop(r, k)) && Nodes(Drop(r, k)) == Nodes(r) - {r[k]} && Drop(r, k)[0] == r[0]
    ensures Without(r, r[k]) == Drop(r, k) && Charges(r) == Charges(Drop(r, k)) + r[k].charge
  {
    hide Drop, Without, Charges;
    DropAt(r, k);
    WithoutIsDrop(r, k);
    ChargesDrop(r, k);
    var d := Drop(r, k);
    forall h | h in r && h != r[k]
      ensures h in d
    {
      var i :| 0 <= i < |r| && r[i] == h;
      assert d[if i < k then i else i - 1] == h;
    }
    forall h | h in d
      ensures h in r && h != r[k]
    {
      var i :| 0 <= i < |d| && d[i] == h;
      assert r[Skip(i, k)] == h && Skip(i, k) != k;
    }
  }

  // ... and with one more.
  lemma {:induction false} AddFacts(r: seq<LRUHandle>, e: LRUHandle)
    requires NoDuplicates(r) && e !in Nodes(r) && r != []
    ensures NoDuplicates(r + [e]) && Nodes(r + [e]) == Nodes(r) + {e} && (r + [e])[0] == r[0]
    ensures Charges(r + [e]) == Charges(r) + e.charge
  {
    ChargesAdd(r, e);
    assert (r + [e])[|r|] == e;
  }

  // Two rings without a common handle.
  ghost predicate Apart(lruRing: seq<LRUHandle>, inUseRing: seq<LRUHandle>) {
    NoDuplicates(lruRing) && NoDuplicates(inUseRing) && Nodes(lruRing) !! Nodes(inUseRing)
  }

  lemma {:induction false} DropMembers(r: seq<LRUHandle>, e: LRUHandle)
    requires NoDuplicates(r) && e in r && e != r[0]
    ensures var q := Without(r, e);
      && NoDuplicates(q) && |q| > 0 && q[0] == r[0] && Charges(q) + e.charge == Charges(r)
      && forall h :: h in q <==> h in r && h != e
  {
    hide Charges, NoDuplicates, Without, Drop;
    var k :| 0 <= k < |r| && r[k] == e;
    DropFacts(r, k);
    DropAt(r, k);
    var q := Drop(r, k);
    assert |q| > 0;
    assert forall h :: h in q <==> h in Nodes(q);
    assert forall h :: h in r <==> h in Nodes(r);
  }

  // From one list to the newest place of the other.
  method MoveTo(list: LRUHandle, e: LRUHandle, ghost r: seq<LRUHandle>, ghost s: seq<LRUHandle>)
    requires Ring(r) && Ring(s) && Apart(r, s) && e in r && e != r[0] && s[0] == list
    modifies Nodes(r)`next, Nodes(r)`prev, Nodes(s)`next, Nodes(s)`prev
    ensures var q := Without(r, e);
      && Ring(q) && Ring(s + [e]) && Apart(q, s + [e]) && q[0] == r[0] && (s + [e])[0] == s[0]
      && (forall h :: h in q <==> h in r && h != e)
      && Charges(q) + Charges(s + [e]) == Charges(r) + Charges(s)
  {
    hide Charges, NoDuplicates, Without, Drop, RingAt;
    ghost var k :| 0 <= k < |r| && r[k] == e;
    assert e in Nodes(r);
    DropFacts(r, k);
    DropMembers(r, e);
    AddFacts(s, e);
    assert Nodes(Drop(r, k)) !! Nodes(s + [e]);
    LruRemove(e, r, k);
    LruAppend(list, e, s);
  }

  // Off the list that it is on.
  method TakeOff(e: LRUHandle, ghost r: seq<LRUHandle>)
    requires Ring(r) && NoDuplicates(r) && e in r && e != r[0]
    modifies Nodes(r)`next, Nodes(r)`prev
    ensures var q := Without(r, e);
      && Ring(q) && NoDuplicates(q) && q[0] == r[0] && Charges(q) + e.charge == Charges(r)
      && forall h :: h in q <==> h in r && h != e
  {
    hide Charges, NoDuplicates, Without, Drop, RingAt;
    ghost var k :| 0 <= k < |r| && r[k] == e;
    DropFacts(r, k);
    DropMembers(r, e);
    ghost var q := Without(r, e);
    LruRemove(e, r, k);
    assert forall h :: h in q <==> h in Nodes(q);
    assert forall h :: h in r <==> h in Nodes(r);
  }

  lemma {:induction false} OnlyHeads(lru: LRUHandle, inUse: LRUHandle)
    requires lru != inUse && lru.next == lru == lru.prev && inUse.next == inUse == inUse.prev && lru.charge == 0 && inUse.charge == 0
    ensures Ring([lru]) && Ring([inUse]) && Apart([lru], [inUse]) && Charges([lru]) + Charges([inUse]) == 0
  {
    assert RingAt([lru], 0) && RingAt([inUse], 0);
    ChargesAdd([], lru);
    ChargesAdd([], inUse);
    assert [] + [lru] == [lru] && [] + [inUse] == [inUse];
  }

  // The references of a handle are those of clients, that of the cache, and maybe one that
  // is about to be given up.  They decide the list that it is on.  The table has every handle
  // of the cache, but for one that was just taken out.
  predicate Fits(refs: nat, held: nat, inCache: bool, unused: bool, used: bool, inTable: bool) {
    && refs == held + (if inCache then 1 else 0) && refs > 0
    && unused == (inCache && refs == 1) && used == (inCache && refs >= 2) && inTable == inCache
  }

  // Every handle that was made is there, or its deleter was called, and then once.
  ghost predicate Accounted(live: set<LRUHandle>, deleted: seq<LRUHandle>, made: set<LRUHandle>) {
    NoDuplicates(deleted) && Nodes(deleted) !! live && made == live + Nodes(deleted)
  }

  // Clients that hold a handle go on holding it.
  ghost predicate KeepsHeld(before: map<LRUHandle, nat>, after: map<LRUHandle, nat>) {
    forall h :: h in before && before[h] > 0 ==> h in after && after[h] == before[h]
  }

  lemma {:induction false} HeldStays(before: map<LRUHandle, nat>, e: LRUHandle, was: LRUHandle?)
    requires e !in before && (was != null ==> was in before)
    ensures KeepsHeld(before, before[e := 1])
    ensures was != null && before[was] == 0 ==> KeepsHeld(before, before[e := 1] - {was})
  {
  }

  class LRUCache {
    var capacity: nat
    var usage: nat
    // The heads of the lists; behind the first, the oldest handle comes first.
    const lru: LRUHandle
    const inUse: LRUHandle
    const table: HandleTable
    ghost var lruRing: seq<LRUHandle>
    ghost var inUseRing: seq<LRUHandle>
    // The handles that are not freed, with the references that clients hold.
    ghost var clients: map<LRUHandle, nat>
    // The calls of the deleters, and every handle that was ever made.
    ghost var deleted: seq<LRUHandle>
    ghost var made: set<LRUHandle>

    ghost function Cells(): set<LRUHandle>
      reads this`clients
    {
      clients.Keys + {lru, inUse}
    }

    ghost predicate Rings(cells: set<LRUHandle>)
      reads this`lruRing, this`inUseRing, cells`next, cells`prev
    {
      && (forall h :: h in lruRing ==> h in cells) && (forall h :: h in inUseRing ==> h in cells)
      && Ring(lruRing) && Ring(inUseRing) && Apart(lruRing, inUseRing)
      && lruRing[0] == lru && inUseRing[0] == inUse && lru.charge == 0 && inUse.charge == 0
    }

    ghost predicate CountOk(h: LRUHandle, pending: LRUHandle?, removed: LRUHandle?)
      requires h in clients
      reads this`clients, this`lruRing, this`inUseRing, h`refs, h`inCache, table`handles
    {
      Fits(h.refs, clients[h] + (if h == pending then 1 else 0), h.inCache, h in lruRing, h in inUseRing,
           h in table.handles || h == removed)
    }

    ghost predicate Counts(pending: LRUHandle?, removed: LRUHandle?)
      reads this`clients, this`lruRing, this`inUseRing, clients.Keys`refs, clients.Keys`inCache, table`handles
    {
      && lru !in clients && inUse !in clients && table.handles <= clients.Keys
      && forall h :: h in clients ==> CountOk(h, pending, removed)
    }

    ghost predicate Freed()
      reads this`deleted, this`clients, this`made
    {
      Accounted(clients.Keys, deleted, made)
    }

    ghost predicate Holds(pending: LRUHandle?, removed: LRUHandle?)
      reads this, Cells(), table, table.list, table.handles`nextHash
    {
      && Rings(Cells()) && Counts(pending, removed) && Freed() && table.Valid()
      && usage == Charges(lruRing) + Charges(inUseRing)
    }

    ghost predicate Valid()
      reads this, Cells(), table, table.list, table.handles`nextHash
    {
      Holds(null, null)
    }

    constructor (capacity: nat)
      ensures Valid() && this.capacity == capacity && usage == 0 && clients == map[] && deleted == [] && made == {}
      ensures fresh(table) && fresh(table.list) && fresh(lru) && fresh(inUse)
    {
      hide HandleTable.Valid, Rings, Counts, Freed, Ring, Apart, Charges;
      this.capacity, usage := capacity, 0;
      var lru := new LRUHandle([], 0, 0, 0);
      var inUse := new LRUHandle([], 0, 0, 0);
      lru.next, lru.prev := lru, lru;
      inUse.next, inUse.prev := inUse, inUse;
      this.lru, this.inUse := lru, inUse;
      table := new HandleTable();
      lruRing, inUseRing, clients, deleted, made := [lru], [inUse], map[], [], {};
      new;
      OnlyHeads(lru, inUse);
      NothingYet();
    }

    lemma NothingYet()
      requires lru != inUse && lru.charge == 0 && inUse.charge == 0 && Ring([lru]) && Ring([inUse]) && Apart([lru], [inUse])
      requires lruRing == [lru] && inUseRing == [inUse] && clients == map[] && deleted == [] && made == {} && table.handles == {}
      ensures Rings(Cells()) && Counts(null, null) && Freed()
    {
    }

    // To the newest place of the handles in use.
    method Use(e: LRUHandle, ghost cells: set<LRUHandle>)
      requires Rings(cells) && e in lruRing && e != lru
      modifies this`lruRing, this`inUseRing, cells`next, cells`prev
      ensures Rings(cells) && Charges(lruRing) + Charges(inUseRing) == old(Charges(lruRing) + Charges(inUseRing))
      ensures lruRing == Without(old(lruRing), e) && inUseRing == old(inUseRing) + [e]
      ensures forall h :: h in lruRing <==> h in old(lruRing) && h != e
    {
      hide Ring, Charges, Apart, Without;
      MoveTo(inUse, e, lruRing, inUseRing);
      lruRing, inUseRing := Without(lruRing, e), inUseRing + [e];
    }

    // To the newest place of the handles that no client holds.
    method Retire(e: LRUHandle, ghost cells: set<LRUHandle>)
      requires Rings(cells) && e in inUseRing && e != inUse
      modifies this`lruRing, this`inUseRing, cells`next, cells`prev
      ensures Rings(cells) && Charges(lruRing) + Charges(inUseRing) == old(Charges(lruRing) + Charges(inUseRing))
      ensures inUseRing == Without(old(inUseRing), e) && lruRing == old(lruRing) + [e]
      ensures forall h :: h in inUseRing <==> h in old(inUseRing) && h != e
    {
      hide Ring, Charges, Apart, Without;
      ApartTurned(lruRing, inUseRing);
      MoveTo(lru, e, inUseRing, lruRing);
      lruRing, inUseRing := lruRing + [e], Without(inUseRing, e);
      ApartTurned(inUseRing, lruRing);
    }

    /** Ref: a handle that no client held moves to the handles in use. */
    method Ref(e: LRUHandle)
      requires Valid() && e in clients
      modifies this`lruRing, this`inUseRing, this`clients, e`refs, Cells()`next, Cells()`prev
      ensures Valid() && clients == old(clients)[e := old(clients)[e] + 1]
      ensures lruRing == Without(old(lruRing), e)
      ensures inUseRing == if e in old(lruRing) then old(inUseRing) + [e] else old(inUseRing)
    {
      hide Accounted, Rings, Charges, HandleTable.Valid, Without, NoDuplicates, Fits;
      RefFacts(e);
      if e.refs == 1 && e.inCache {
        Use(e, Cells());
      } else {
        WithoutOther(lruRing, e);
      }
      e.refs := e.refs + 1;
      clients := clients[e := clients[e] + 1];
      assert Cells() == old(Cells()) && clients.Keys == old(clients.Keys);
      forall h | h in clients
        ensures CountOk(h, null, null)
      {
        assert old(CountOk(h, null, null));
      }
    }

    // Unref, with a reference that is no longer accounted for: the last one frees the handle,
    // the last one of a client returns it to the list of unused ones.
    method Unref(e: LRUHandle)
      requires e in clients && Holds(e, null)
      modifies this`lruRing, this`inUseRing, this`clients, this`deleted, e`refs, Cells()`next, Cells()`prev
      ensures Valid()
      ensures old(e.refs) == 1 ==> clients == old(clients) - {e} && deleted == old(deleted) + [e]
      ensures old(e.refs) > 1 ==> clients == old(clients) && deleted == old(deleted)
      ensures if old(e.refs) == 2 && e.inCache then lruRing == old(lruRing) + [e] && inUseRing == Without(old(inUseRing), e)
              else lruRing == old(lruRing) && inUseRing == old(inUseRing)
    {
      hide Accounted, Rings, Charges, HandleTable.Valid, Without, NoDuplicates, Fits;
      UnrefFacts(e);
      e.refs := e.refs - 1;
      if e.refs == 0 {
        FewerCells(Cells(), e);
        OneMoreFreed(clients.Keys, deleted, made, e);
        deleted := deleted + [e];
        clients := clients - {e};
        assert clients.Keys == old(clients.Keys) - {e};
        assert Cells() == old(Cells()) - {e};
      } else if e.inCache && e.refs == 1 {
        Retire(e, Cells());
      }
      forall h | h in clients
        ensures CountOk(h, null, null)
      {
        assert old(CountOk(h, e, null));
      }
    }

    lemma UnrefFacts(e: LRUHandle)
      requires Counts(e, null) && e in clients
      ensures e != lru && e != inUse && e.refs > 0
      ensures e.refs == 1 ==> !e.inCache && e !in table.handles && e !in lruRing && e !in inUseRing && clients[e] == 0
      ensures e.refs == 2 && e.inCache ==> e in inUseRing && e !in lruRing && Fits(1, clients[e], true, true, false, e in table.handles)
      ensures e.refs > 1 && !(e.refs == 2 && e.inCache) ==>
                Fits(e.refs - 1, clients[e], e.inCache, e in lruRing, e in inUseRing, e in table.handles)
    {
      assert CountOk(e, e, null);
    }

    lemma FewerCells(cells: set<LRUHandle>, e: LRUHandle)
      requires Rings(cells) && e !in lruRing && e !in inUseRing
      ensures Rings(cells - {e})
    {
      hide Ring, Apart;
    }

    // A handle of the cache is taken off its list.
    method Unlist(e: LRUHandle, ghost cells: set<LRUHandle>)
      requires Rings(cells) && e != lru && e != inUse && (e in lruRing || e in inUseRing)
      modifies this`lruRing, this`inUseRing, cells`next, cells`prev
      ensures Rings(cells) && Charges(lruRing) + Charges(inUseRing) + e.charge == old(Charges(lruRing) + Charges(inUseRing))
      ensures lruRing == Without(old(lruRing), e) && inUseRing == Without(old(inUseRing), e)
      ensures forall h :: h in lruRing <==> h in old(lruRing) && h != e
      ensures forall h :: h in inUseRing <==> h in old(inUseRing) && h != e
    {
      hide Ring, Charges, Without, NoDuplicates;
      ghost var r, s := lruRing, inUseRing;
      assert e in r ==> e in Nodes(r);
      assert e in s ==> e in Nodes(s);
      if e in r {
        WithoutOther(s, e);
        assert forall h :: h in r ==> h in Nodes(r);
        assert forall h :: h in s ==> h in Nodes(s);
      } else {
        WithoutOther(r, e);
      }
      TakeOff(e, if e in r then r else s);
      lruRing, inUseRing := Without(r, e), Without(s, e);
      StillApart(r, s, lruRing, inUseRing);
    }

    /** FinishErase: the handle was taken out of the table. */
    method FinishErase(e: LRUHandle?) returns (erased: bool)
      requires if e == null then Valid() else e in clients && e.inCache && e !in table.handles && Holds(null, e)
      modifies this`lruRing, this`inUseRing, this`clients, this`deleted, this`usage, Only(e)`refs, Only(e)`inCache
      modifies Cells()`next, Cells()`prev
      ensures Valid() && (erased <==> e != null)
      ensures e == null ==> unchanged(this)
      ensures e != null ==>
                && lruRing == Without(old(lruRing), e) && inUseRing == Without(old(inUseRing), e) && usage + e.charge == old(usage)
                && clients == (if old(clients)[e] == 0 then old(clients) - {e} else old(clients))
                && deleted == (if old(clients)[e] == 0 then old(deleted) + [e] else old(deleted))
    {
      hide Accounted, Rings, Charges, HandleTable.Valid, Without, NoDuplicates, Fits;
      if e != null {
        EraseFacts(e);
        Unlist(e, Cells());
        e.inCache := false;
        usage := usage - e.charge;
        forall h | h in clients
          ensures CountOk(h, e, null)
        {
          assert old(CountOk(h, null, e));
        }
        Unref(e);
      }
      return e != null;
    }

    lemma EraseFacts(e: LRUHandle)
      requires Counts(null, e) && e in clients && e.inCache
      ensures e != lru && e != inUse && (e in lruRing || e in inUseRing) && e.refs == clients[e] + 1
      ensures Fits(e.refs, clients[e] + 1, false, false, false, false)
    {
      assert CountOk(e, null, e);
    }

    /** Lookup: the handle of the key, with one more reference. */
    method Lookup(key: Bytes, hash: Word) returns (e: LRUHandle?)
      requires Valid()
      modifies this`lruRing, this`inUseRing, this`clients, clients.Keys`refs, Cells()`next, Cells()`prev
      ensures Valid()
      ensures e == null ==> unchanged(this) && forall h :: h in table.handles ==> !h.Matches(key, hash)
      ensures e != null ==>
                && e in table.handles && e.Matches(key, hash) && e in old(clients)
                && clients == old(clients)[e := old(clients)[e] + 1] && e !in lruRing && lruRing == Without(old(lruRing), e)
    {
      hide Rings, Charges, HandleTable.Valid, Without, NoDuplicates, Fits;
      e := table.Lookup(key, hash);
      if e != null {
        Ref(e);
        HeldIsUsed(e);
      }
    }

    lemma HeldIsUsed(e: LRUHandle)
      requires Valid() && e in clients && clients[e] > 0
      ensures e !in lruRing
    {
      assert CountOk(e, null, null);
    }

    /** Release: a client gives up a reference. */
    method Release(e: LRUHandle)
      requires Valid() && e in clients && clients[e] > 0
      modifies this`lruRing, this`inUseRing, this`clients, this`deleted, e`refs, Cells()`next, Cells()`prev
      ensures Valid()
      ensures old(clients)[e] == 1 && !e.inCache ==> clients == old(clients) - {e} && deleted == old(deleted) + [e]
      ensures old(clients)[e] > 1 || e.inCache ==>
                clients == old(clients)[e := old(clients)[e] - 1] && deleted == old(deleted)
      ensures lruRing == if old(clients)[e] == 1 && e.inCache then old(lruRing) + [e] else old(lruRing)
    {
      hide Accounted, Rings, Charges, HandleTable.Valid, Without, NoDuplicates, Fits;
      ReleaseFacts(e);
      clients := clients[e := clients[e] - 1];
      assert Cells() == old(Cells()) && clients.Keys == old(clients.Keys);
      forall h | h in clients
        ensures CountOk(h, e, null)
      {
        assert old(CountOk(h, null, null));
      }
      Unref(e);
      assert old(clients)[e := old(clients)[e] - 1] - {e} == old(clients) - {e};
    }

    lemma ReleaseFacts(e: LRUHandle)
      requires Counts(null, null) && e in clients && clients[e] > 0
      ensures e.refs == clients[e] + (if e.inCache then 1 else 0)
    {
      assert CountOk(e, null, null);
    }

    /** Erase: the key is no longer in the cache; clients keep their references. */
    method Erase(key: Bytes, hash: Word) returns (ghost erased: LRUHandle?)
      requires Valid()
      modifies this`lruRing, this`inUseRing, this`clients, this`deleted, this`usage, clients.Keys`refs, clients.Keys`inCache
      modifies Cells()`next, Cells()`prev, table, table.list, table.handles`nextHash
      ensures Valid() && forall h :: h in table.handles ==> !h.Matches(key, hash)
      ensures table.handles == old(table.handles) - Only(erased)
      ensures erased == null ==> clients == old(clients) && deleted == old(deleted) && lruRing == old(lruRing)
      ensures erased != null ==>
                && erased in old(clients) && erased in old(table.handles) && erased.Matches(key, hash) && usage + erased.charge == old(usage)
                && clients == (if old(clients)[erased] == 0 then old(clients) - {erased} else old(clients))
                && deleted == (if old(clients)[erased] == 0 then old(deleted) + [erased] else old(deleted))
    {
      hide Rings, Charges, HandleTable.Valid, Without, NoDuplicates, Fits, LRUHandle.Matches;
      ghost var all := table.handles;
      OnlyHandle(key, hash);
      var e := table.Remove(key, hash);
      TakenOut(e);
      var done := FinishErase(e);
      return e;
    }

    // At most one handle of the table is for a key.
    lemma OnlyHandle(key: Bytes, hash: Word)
      requires table.Valid()
      ensures forall x, y :: x in table.handles && y in table.handles && x.Matches(key, hash) && y.Matches(key, hash) ==> x == y
    {
      forall x, y | x in table.handles && y in table.handles && x.Matches(key, hash) && y.Matches(key, hash)
        ensures x == y
      {
        OneForKey(table.chains, table.handles, table.length, x, y);
      }
    }

    twostate lemma TakenOut(e: LRUHandle?)
      requires old(Holds(null, null)) && table.Valid()
      requires lruRing == old(lruRing) && inUseRing == old(inUseRing) && clients == old(clients) && deleted == old(deleted)
      requires made == old(made) && usage == old(usage) && Rings(Cells())
      requires forall h :: h in clients ==> h.refs == old(h.refs) && h.inCache == old(h.inCache)
      requires table.handles == old(table.handles) - Only(e) && (e != null ==> e in old(table.handles))
      ensures Holds(null, e) && (e != null ==> e in clients && e.inCache)
    {
      hide Rings, Charges, HandleTable.Valid, NoDuplicates, Accounted;
      forall h | h in clients
        ensures CountOk(h, null, e)
      {
        assert old(CountOk(h, null, null));
      }
      if e != null {
        assert old(CountOk(e, null, null));
      }
    }

    // The oldest handle that no client holds goes.
    method EvictOldest()
      requires Valid() && |lruRing| > 1
      modifies this`lruRing, this`inUseRing, this`clients, this`deleted, this`usage, Tail(lruRing)`refs, Tail(lruRing)`inCache
      modifies Cells()`next, Cells()`prev, table, table.list, table.handles`nextHash
      ensures Valid() && table.list == old(table.list)
      ensures var h := old(lruRing)[1];
        && lruRing == [lru] + old(lruRing)[2..] && inUseRing == old(inUseRing)
        && h in old(clients) && clients == old(clients) - {h} && deleted == old(deleted) + [h] && usage + h.charge == old(usage)
        && table.handles == old(table.handles) - {h}
      ensures KeepsHeld(old(clients), clients)
    {
      hide Charges, HandleTable.Valid, Without, NoDuplicates, Fits, LRUHandle.Matches, Rings, Ring;
      OldestFacts();
      ghost var ring := lruRing;
      var oldest := lru.next;
      OnlyHandle(oldest.key, oldest.hash);
      var e := table.Remove(oldest.key, oldest.hash);
      assert e == oldest;
      TakenOut(e);
      var erased := FinishErase(e);
    }

    lemma OldestFacts()
      requires Valid() && |lruRing| > 1
      ensures var h := lruRing[1];
        && lru.next == h && h in clients && clients[h] == 0 && h in table.handles && h.Matches(h.key, h.hash)
        && Without(lruRing, h) == [lru] + lruRing[2..] && Without(inUseRing, h) == inUseRing
    {
      hide Charges, HandleTable.Valid, Without;
      var h := lruRing[1];
      assert RingAt(lruRing, 0);
      assert h in Nodes(lruRing) && lruRing[0] != h && inUse in Nodes(inUseRing);
      assert CountOk(h, null, null);
      WithoutIsDrop(lruRing, 1);
      WithoutOther(inUseRing, h);
      assert Drop(lruRing, 1) == [lru] + lruRing[2..];
    }

    // The list is empty just when its head points to itself.
    lemma EmptyList()
      requires Rings(Cells())
      ensures |lruRing| > 0 && lruRing[0] == lru && (lru.next == lru <==> |lruRing| == 1)
    {
      assert RingAt(lruRing, 0);
    }

    // The oldest unused handles go, one by one, down to a usage.
    method EvictDownTo(most: nat) returns (ghost n: nat)
      requires Valid()
      modifies this`lruRing, this`inUseRing, this`clients, this`deleted, this`usage, Tail(lruRing)`refs, Tail(lruRing)`inCache
      modifies Cells()`next, Cells()`prev, table, table.list, table.handles`nextHash
      ensures Valid() && inUseRing == old(inUseRing)
      ensures usage <= most || lruRing == [lru]
      ensures Evicted(lru, old(lruRing), old(deleted), n, lruRing, deleted)
      ensures n > 0 ==> usage + old(lruRing)[n].charge > most
      ensures KeepsHeld(old(clients), clients)
    {
      hide Charges, HandleTable.Valid, Without, NoDuplicates, Fits, LRUHandle.Matches, Rings, Counts, Freed, Evicted, Tail;
      ghost var ring, freed := lruRing, deleted;
      n := 0;
      EmptyList();
      NoneEvicted(lru, ring, freed);
      while usage > most && lru.next != lru
        invariant Valid() && inUseRing == old(inUseRing) && Evicted(lru, ring, freed, n, lruRing, deleted)
        invariant clients.Keys <= old(clients).Keys && table.handles <= old(table.handles) && table.list == old(table.list)
        invariant KeepsHeld(old(clients), clients)
        invariant n < |ring| && (n > 0 ==> usage + ring[n].charge > most)
        decreases |ring| - n
      {
        EmptyList();
        OneMoreEvicted(lru, ring, freed, n, lruRing, deleted);
        EvictOldest();
        n := n + 1;
      }
      EmptyList();
      AllEvicted(lru, ring, freed, n, lruRing, deleted);
    }

    /** Prune: every handle that no client holds goes. */
    method Prune()
      requires Valid()
      modifies this`lruRing, this`inUseRing, this`clients, this`deleted, this`usage, Tail(lruRing)`refs, Tail(lruRing)`inCache
      modifies Cells()`next, Cells()`prev, table, table.list, table.handles`nextHash
      ensures Valid() && lruRing == [lru] && inUseRing == old(inUseRing) && |old(lruRing)| > 0
      ensures deleted == old(deleted) + old(lruRing)[1..] && KeepsHeld(old(clients), clients)
    {
      hide Charges, HandleTable.Valid, Without, NoDuplicates, Fits, LRUHandle.Matches, Rings, Counts, Freed, Evicted, Tail;
      ghost var ring, freed := lruRing, deleted;
      ghost var n: nat := 0;
      EmptyList();
      NoneEvicted(lru, ring, freed);
      while lru.next != lru
        invariant Valid() && inUseRing == old(inUseRing) && Evicted(lru, ring, freed, n, lruRing, deleted)
        invariant clients.Keys <= old(clients).Keys && table.handles <= old(table.handles) && table.list == old(table.list)
        invariant n < |ring| && KeepsHeld(old(clients), clients)
        decreases |ring| - n
      {
        EmptyList();
        OneMoreEvicted(lru, ring, freed, n, lruRing, deleted);
        EvictOldest();
        n := n + 1;
      }
      EmptyList();
      AllEvicted(lru, ring, freed, n, lruRing, deleted);
    }

    /**
     Insert: the handle is in use by the client.  One for the same key leaves the cache, and
     the oldest unused ones go until the charges fit or none is left.
     */
    method Insert(key: Bytes, hash: Word, value: int, charge: nat) returns (e: LRUHandle, ghost replaced: LRUHandle?, ghost n: nat)
      requires Valid()
      modifies this`lruRing, this`inUseRing, this`clients, this`deleted, this`made, this`usage, clients.Keys`refs, clients.Keys`inCache
      modifies Cells()`next, Cells()`prev, table, table.list, table.handles`nextHash
      ensures Valid() && fresh(e) && e.key == key && e.hash == hash && e.value == value && e.charge == charge
      ensures e in clients && clients[e] == 1 && e.inCache == (capacity > 0) && (e in table.handles <==> capacity > 0)
      ensures usage <= capacity || lruRing == [lru]
      ensures KeepsHeld(old(clients), clients) && made == old(made) + {e}
      ensures capacity > 0 ==>
                if replaced == null then forall h :: h in old(table.handles) ==> !h.Matches(key, hash)
                else replaced in old(table.handles) && replaced.Matches(key, hash)
      ensures replaced != null ==> replaced in old(clients)
      ensures var kept := if replaced == null then old(lruRing) else Without(old(lruRing), replaced);
        && Evicted(lru, kept, old(deleted) + (if replaced != null && old(clients)[replaced] == 0 then [replaced] else []), n, lruRing, deleted)
        && (n > 0 ==> usage + kept[n].charge > capacity)
    {
      hide Charges, HandleTable.Valid, Without, NoDuplicates, Fits, LRUHandle.Matches, Rings, Counts, Freed;
      e := new LRUHandle(key, hash, value, charge);
      replaced := AddHandle(e);
      HeldIsUsed(e);
      ListedAreClients(e);
      n := EvictDownTo(capacity);
      InTable(e);
    }

    lemma ListedAreClients(e: LRUHandle)
      requires Valid() && e !in lruRing
      ensures Tail(lruRing) <= clients.Keys && e !in Tail(lruRing)
    {
      forall h | h in Tail(lruRing)
        ensures h in clients && h in lruRing
      {
        var i :| 0 < i < |lruRing| && lruRing[i] == h;
        assert lruRing[0] != h;
        assert h in Nodes(lruRing) && inUse in Nodes(inUseRing);
      }
    }

    // The entry of a new handle, and the end of one for the same key.
    method AddHandle(e: LRUHandle) returns (ghost replaced: LRUHandle?)
      requires Valid() && e !in clients && e != lru && e != inUse && e !in deleted && !e.inCache && e.refs == 1
      modifies this`lruRing, this`inUseRing, this`clients, this`deleted, this`made, this`usage, clients.Keys`refs, clients.Keys`inCache
      modifies Cells()`next, Cells()`prev, table, table.list, table.handles`nextHash
      modifies e
      ensures Valid() && (table.list == old(table.list) || fresh(table.list))
      ensures e in clients && clients[e] == 1 && e.inCache == (capacity > 0) && clients.Keys <= old(clients).Keys + {e}
      ensures table.handles <= old(table.handles) + {e} && KeepsHeld(old(clients), clients) && made == old(made) + {e}
      ensures capacity > 0 ==>
                if replaced == null then forall h :: h in old(table.handles) ==> !h.Matches(e.key, e.hash)
                else replaced in old(table.handles) && replaced.Matches(e.key, e.hash)
      ensures replaced != null ==> replaced in old(clients)
      ensures lruRing == if replaced == null then old(lruRing) else Without(old(lruRing), replaced)
      ensures deleted == old(deleted) + (if replaced != null && old(clients)[replaced] == 0 then [replaced] else [])
    {
      hide Charges, HandleTable.Valid, Without, NoDuplicates, Fits, LRUHandle.Matches, Rings;
      NotListed(e);
      if capacity > 0 {
        replaced := Enter(e);
      } else {
        replaced := null;
        e.next := null;
        MoreCells(Cells(), e);
        clients, made := clients[e := 1], made + {e};
        assert Cells() == old(Cells()) + {e};
        Uncached(e);
      }
    }

    lemma Opened()
      requires Holds(null, null)
      ensures Rings(Cells()) && table.Valid() && Counts(null, null) && table.handles <= clients.Keys
    {
      hide Charges, HandleTable.Valid, Rings;
    }

    // References of the client and of the cache, and a place among the handles in use.
    method Enlist(e: LRUHandle)
      requires Rings(Cells()) && e !in Cells() && e !in lruRing && e !in inUseRing && e.refs == 1
      modifies this`inUseRing, this`clients, this`made, this`usage, Cells()`next, Cells()`prev, e
      ensures Rings(Cells()) && e.refs == 2 && e.inCache && usage == old(usage) + e.charge && inUseRing == old(inUseRing) + [e]
      ensures clients == old(clients)[e := 1] && made == old(made) + {e} && Cells() == old(Cells()) + {e}
      ensures Charges(lruRing) + Charges(inUseRing) == old(Charges(lruRing) + Charges(inUseRing)) + e.charge
    {
      hide Charges, Rings;
      e.refs := e.refs + 1;
      e.inCache := true;
      AppendUsed(e, Cells());
      clients, made := clients[e := 1], made + {e};
      assert Cells() == old(Cells()) + {e};
      usage := usage + e.charge;
    }

    method Enter(e: LRUHandle) returns (ghost replaced: LRUHandle?)
      requires Valid() && e !in Cells() && e !in deleted && !e.inCache && e.refs == 1
      requires e !in lruRing && e !in inUseRing && e !in table.handles
      modifies this`lruRing, this`inUseRing, this`clients, this`deleted, this`made, this`usage, clients.Keys`refs, clients.Keys`inCache
      modifies Cells()`next, Cells()`prev, table, table.list, table.handles`nextHash
      modifies e
      ensures Valid() && (table.list == old(table.list) || fresh(table.list))
      ensures e in clients && clients[e] == 1 && e.inCache && clients.Keys <= old(clients).Keys + {e}
      ensures table.handles <= old(table.handles) + {e} && KeepsHeld(old(clients), clients) && made == old(made) + {e}
      ensures if replaced == null then forall h :: h in old(table.handles) ==> !h.Matches(e.key, e.hash)
              else replaced in old(table.handles) && replaced.Matches(e.key, e.hash) && replaced in old(clients)
      ensures lruRing == if replaced == null then old(lruRing) else Without(old(lruRing), replaced)
      ensures deleted == old(deleted) + (if replaced != null && old(clients)[replaced] == 0 then [replaced] else [])
    {
      hide Charges, HandleTable.Valid, Without, NoDuplicates, CountOk, LRUHandle.Matches, Rings, Counts, Freed, Holds, KeepsHeld, Accounted;
      Opened();
      Enlist(e);
      var was := table.Insert(e);
      replaced := was;
      Entered(e, was);
      HeldStays(old(clients), e, was);
      var erased := FinishErase(was);
    }

    lemma NotListed(e: LRUHandle)
      requires Valid() && e !in Cells()
      ensures e !in lruRing && e !in inUseRing && e !in table.handles
    {
    }

    lemma InTable(e: LRUHandle)
      requires Valid() && e in clients
      ensures e in table.handles <==> e.inCache
    {
      assert CountOk(e, null, null);
    }

    method AppendUsed(e: LRUHandle, ghost cells: set<LRUHandle>)
      requires Rings(cells) && e !in lruRing && e !in inUseRing && e !in cells
      modifies this`inUseRing, cells`next, cells`prev, e`next, e`prev
      ensures Rings(cells + {e}) && Charges(lruRing) + Charges(inUseRing) == old(Charges(lruRing) + Charges(inUseRing)) + e.charge
      ensures inUseRing == old(inUseRing) + [e]
    {
      hide Charges;
      AddFacts(inUseRing, e);
      LruAppend(inUse, e, inUseRing);
      inUseRing := inUseRing + [e];
    }

    // A new handle that is in use, and in the table in the place of another one.
    twostate lemma Entered(new e: LRUHandle, was: LRUHandle?)
      requires old(Holds(null, null)) && e !in old(Cells()) && e !in old(deleted) && e !in old(lruRing) && e !in old(inUseRing)
      requires clients == old(clients)[e := 1] && e.refs == 2 && e.inCache && lruRing == old(lruRing) && inUseRing == old(inUseRing) + [e]
      requires deleted == old(deleted) && made == old(made) + {e} && usage == old(usage) + e.charge && table.Valid() && Rings(Cells())
      requires Charges(lruRing) + Charges(inUseRing) == old(Charges(lruRing) + Charges(inUseRing)) + e.charge
      requires forall h :: h in old(clients) ==> h.refs == old(h.refs) && h.inCache == old(h.inCache)
      requires table.handles == old(table.handles) - Only(was) + {e} && (was != null ==> was in old(table.handles))
      ensures Holds(null, was) && (was != null ==> was in clients && was.inCache && was !in table.handles && was != e)
    {
      hide Rings, Charges, HandleTable.Valid, NoDuplicates, Accounted;
      OneMoreMade(old(clients).Keys, deleted, old(made), e);
      assert clients.Keys == old(clients).Keys + {e};
      forall h | h in clients
        ensures CountOk(h, null, was)
      {
        if h != e {
          assert old(CountOk(h, null, null));
        }
      }
      if was != null {
        assert old(CountOk(was, null, null));
      }
    }

    // A new handle that the cache does not keep.
    twostate lemma Uncached(new e: LRUHandle)
      requires old(Holds(null, null)) && e !in old(Cells()) && e !in old(deleted) && e !in old(lruRing) && e !in old(inUseRing)
      requires e !in old(table.handles)
      requires clients == old(clients)[e := 1] && e.refs == 1 && !e.inCache && lruRing == old(lruRing) && inUseRing == old(inUseRing)
      requires deleted == old(deleted) && made == old(made) + {e} && usage == old(usage) && table.Valid() && Rings(Cells())
      requires forall h :: h in old(clients) ==> h.refs == old(h.refs) && h.inCache == old(h.inCache)
      requires table.handles == old(table.handles)
      ensures Holds(null, null)
    {
      hide Rings, Charges, HandleTable.Valid, NoDuplicates, Accounted;
      OneMoreMade(old(clients).Keys, deleted, old(made), e);
      assert clients.Keys == old(clients).Keys + {e};
      forall h | h in clients
        ensures CountOk(h, null, null)
      {
        if h != e {
          assert old(CountOk(h, null, null));
        }
      }
    }

    lemma MoreCells(cells: set<LRUHandle>, e: LRUHandle)
      requires Rings(cells)
      ensures Rings(cells + {e})
    {
      hide Ring, Apart;
    }

    lemma RefFacts(e: LRUHandle)
      requires Counts(null, null) && e in clients
      ensures e != lru && e != inUse && (e in lruRing <==> e.refs == 1 && e.inCache)
      ensures e.refs == 1 && e.inCache ==> Fits(2, clients[e] + 1, true, false, true, e in table.handles)
      ensures !(e.refs == 1 && e.inCache) ==>
                Fits(e.refs + 1, clients[e] + 1, e.inCache, e in lruRing, e in inUseRing, e in table.handles)
    {
      assert CountOk(e, null, null);
    }
  }

  // Of a list, the `n` oldest handles went.
  ghost predicate Evicted(head: LRUHandle, ring: seq<LRUHandle>, freed: seq<LRUHandle>, n: nat, now: seq<LRUHandle>, gone: seq<LRUHandle>) {
    n < |ring| && now == [head] + ring[n + 1..] && gone == freed + ring[1..n + 1]
  }

  lemma {:induction false} NoneEvicted(head: LRUHandle, ring: seq<LRUHandle>, freed: seq<LRUHandle>)
    requires |ring| > 0 && ring[0] == head
    ensures Evicted(head, ring, freed, 0, ring, freed)
  {
  }

  lemma {:induction false} OneMoreEvicted(head: LRUHandle, ring: seq<LRUHandle>, freed: seq<LRUHandle>, n: nat, now: seq<LRUHandle>,
                                          gone: seq<LRUHandle>)
    requires Evicted(head, ring, freed, n, now, gone) && |now| > 1
    ensures n + 1 < |ring| && now[1] == ring[n + 1] && now[1] in ring && Tail(now) <= Tail(ring)
    ensures Evicted(head, ring, freed, n + 1, [head] + now[2..], gone + [now[1]])
  {
    var rest := ring[n + 1..];
    assert now[1] == rest[0] && now[2..] == rest[1..] == ring[n + 2..];
    assert ring[1..n + 2] == ring[1..n + 1] + [ring[n + 1]];
    forall h | h in Tail(now)
      ensures h in Tail(ring)
    {
      var i :| 0 < i < |now| && now[i] == h;
      assert ring[n + i] == h;
    }
  }

  lemma {:induction false} AllEvicted(head: LRUHandle, ring: seq<LRUHandle>, freed: seq<LRUHandle>, n: nat, now: seq<LRUHandle>,
                                      gone: seq<LRUHandle>)
    requires Evicted(head, ring, freed, n, now, gone)
    ensures |now| == 1 ==> now == [head] && gone == freed + ring[1..]
  {
    if |now| == 1 {
      assert ring[1..n + 1] == ring[1..];
    }
  }

  lemma {:induction false} OneMoreFreed(live: set<LRUHandle>, deleted: seq<LRUHandle>, made: set<LRUHandle>, e: LRUHandle)
    requires Accounted(live, deleted, made) && e in live
    ensures Accounted(live - {e}, deleted + [e], made)
  {
    assert forall h :: h in deleted + [e] <==> h in deleted || h == e;
    assert e !in Nodes(deleted);
  }

  lemma {:induction false} OneMoreMade(live: set<LRUHandle>, deleted: seq<LRUHandle>, made: set<LRUHandle>, e: LRUHandle)
    requires Accounted(live, deleted, made) && e !in live && e !in deleted
    ensures Accounted(live + {e}, deleted, made + {e})
  {
  }

  lemma {:induction false} StillApart(r: seq<LRUHandle>, s: seq<LRUHandle>, q: seq<LRUHandle>, t: seq<LRUHandle>)
    requires Apart(r, s) && NoDuplicates(q) && NoDuplicates(t) && (forall h :: h in q ==> h in r) && (forall h :: h in t ==> h in s)
    ensures Apart(q, t)
  {
    hide NoDuplicates;
    forall h | h in Nodes(q)
      ensures h !in Nodes(t)
    {
      assert h in Nodes(r) && h !in Nodes(s);
    }
  }

  lemma {:induction false} ApartTurned(r: seq<LRUHandle>, s: seq<LRUHandle>)
    requires Apart(r, s)
    ensures Apart(s, r)
  {
  }
}
