/**
 Memtables (db/memtable.cc) and point lookup through the whole store (db/db_impl.cc:
 DBImpl::Get).
 */
module Lookup {
  import opened Wrappers
  import opened DbFormat
  import opened Views
  import opened Versions
  import opened MergeRules
  import opened CompactionMeaning

  // Where the skip list puts a key: before the first one that is at or after it.
  function Position(t: seq<Entry>, key: InternalKey): (r: nat)
    ensures r <= |t|
    ensures forall i :: 0 <= i < r ==> Less(t[i].key, key)
    ensures r < |t| ==> AtMost(key, t[r].key)
  {
    if t == [] || !Less(t[0].key, key) then 0 else 1 + Position(t[1..], key)
  }

  // An entry in its place in the order.
  function Inserted(t: seq<Entry>, e: Entry): seq<Entry> {
    var p := Position(t, e.key);
    t[..p] + [e] + t[p..]
  }

  class MemTable {
    var table: seq<Entry>

    ghost predicate Valid()
      reads this
    {
      SortedTable(table)
    }

    ghost function Entries(): set<Entry>
      reads this
    {
      Contents(table)
    }

    constructor ()
      ensures Valid() && Entries() == {} && table == []
    {
      table := [];
    }

    // The source allows no duplicates.
    method Add(e: Entry)
      requires Valid() && forall o :: o in Entries() ==> o.key != e.key
      modifies this
      ensures Valid() && Entries() == old(Entries()) + {e} && table == Inserted(old(table), e)
    {
      var p := Position(table, e.key);
      InsertionKeepsOrder(table, p, e);
      table := table[..p] + [e] + table[p..];
    }

    // The search is final as soon as the memtable knows anything visible of the key.
    method Get(k: UserKey, n: SequenceNumber) returns (found: bool, r: Option<Bytes>)
      requires Valid() && UniqueSequences(Entries())
      ensures found <==> exists e :: Candidate(Entries(), k, n, e)
      ensures r == View(Entries(), k, n)
    {
      SearchTableFindsNewest(table, k, n);
      match SearchTable(table, k, n)
      case Some(e) =>
        assert Newest(Entries(), k, n, e);
        ViewOfNewest(Entries(), k, n, e);
        return true, Payload(e);
      case None =>
        ViewOfNothing(Entries(), k, n);
        return false, None;
    }
  }

  lemma {:induction false} InsertionKeepsOrder(t: seq<Entry>, p: nat, e: Entry)
    requires SortedTable(t) && p <= |t| && (forall o :: o in t ==> o.key != e.key)
    requires forall i :: 0 <= i < p ==> Less(t[i].key, e.key)
    requires p < |t| ==> AtMost(e.key, t[p].key)
    ensures SortedTable(t[..p] + [e] + t[p..])
    ensures Contents(t[..p] + [e] + t[p..]) == Contents(t) + {e}
  {
    var r := t[..p] + [e] + t[p..];
    forall i | p <= i < |t|
      ensures Less(e.key, t[i].key)
    {
      assert t[p] in t && (p < i ==> Less(t[p].key, t[i].key));
      KeysDiffer(t[p], e);
    }
    forall o
      ensures o in r <==> o in t || o == e
    {
      if o in t {
        var i :| 0 <= i < |t| && t[i] == o;
        assert r[if i < p then i else i + 1] == o;
      }
      assert r[p] == e;
    }
  }

  // The order of internal keys is total.
  lemma {:induction false} KeysDiffer(a: Entry, b: Entry)
    requires a.key != b.key
    ensures Less(a.key, b.key) || Less(b.key, a.key)
  {
  }

  // A layer that has seen the key hides everything older below it.
  lemma {:induction false} UpperLayerDecides(upper: set<Entry>, lower: set<Entry>, k: UserKey, n: SequenceNumber)
    requires UniqueSequences(upper + lower) && Above(upper, lower)
    ensures (exists e :: Candidate(upper, k, n, e)) ==> View(upper + lower, k, n) == View(upper, k, n)
    ensures !(exists e :: Candidate(upper, k, n, e)) ==> View(upper + lower, k, n) == View(lower, k, n)
  {
    assert forall o :: Candidate(upper + lower, k, n, o) <==> Candidate(upper, k, n, o) || Candidate(lower, k, n, o);
    if c :| Candidate(upper, k, n, c) {
      NewestExists(upper, k, n, c);
      var e :| Newest(upper, k, n, e);
      forall o | Candidate(upper + lower, k, n, o) && o !in upper
        ensures o.key.sequence <= e.key.sequence
      {
      }
      PartIsUnique(upper, upper + lower);
      ViewIgnoresHidden(upper, upper + lower, k, n, e);
    } else {
      PartIsUnique(lower, upper + lower);
      SameCandidatesSameView(upper + lower, lower, k, n);
    }
  }

  /**
   DBImpl::Get: the memtable, the immutable memtable, then the current version; the
   first that has seen the key decides, and the answer is the view over all of them.
   */
  method Get(mem: MemTable, imm: MemTable?, current: Version, k: UserKey, n: SequenceNumber) returns (r: Option<Bytes>)
    requires mem.Valid() && (imm != null ==> imm.Valid()) && WellFormed(current)
    requires var below := (if imm != null then imm.Entries() else {}) + AllEntries(current);
      UniqueSequences(mem.Entries() + below) && Above(mem.Entries(), below)
    requires imm != null ==> Above(imm.Entries(), AllEntries(current))
    ensures r == View(mem.Entries() + ((if imm != null then imm.Entries() else {}) + AllEntries(current)), k, n)
  {
    hide WellFormed, AllEntries, View, Candidate;
    ghost var frozen := if imm != null then imm.Entries() else {};
    ghost var below := frozen + AllEntries(current);
    PartIsUnique(mem.Entries(), mem.Entries() + below);
    PartIsUnique(below, mem.Entries() + below);
    PartIsUnique(frozen, below);
    PartIsUnique(AllEntries(current), below);
    UpperLayerDecides(mem.Entries(), below, k, n);
    UpperLayerDecides(frozen, AllEntries(current), k, n);
    var found;
    found, r := mem.Get(k, n);
    if found {
      return;
    }
    if imm != null {
      found, r := imm.Get(k, n);
      if found {
        return;
      }
    }
    NothingInNothing(k, n);
    found, r := Versions.Get(current, k, n);
  }

  lemma {:induction false} NothingInNothing(k: UserKey, n: SequenceNumber)
    ensures !(exists e :: Candidate({}, k, n, e))
  {
  }
}
