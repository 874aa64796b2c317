/**
 The merging iterator (table/merger.cc) behaves as one cursor over the sorted union of
 its children, through any changes of direction.
 */
module Merger {
  import opened Wrappers
  import opened DbFormat
  import opened Lookup
  import opened Cursors

  // Everything before position `q` of the union; all of it when `q` is past the end.
  predicate Before(union: seq<Entry>, q: nat, e: Entry) {
    q >= |union| || Less(e.key, union[q].key)
  }

  // The child stands at its first entry from position `q` of the union on.
  ghost predicate From(entries: seq<Entry>, at: Option<nat>, union: seq<Entry>, q: nat) {
    var j := if at.Some? then at.value else |entries|;
    && j <= |entries| && (at.Some? ==> j < |entries|)
    && forall i :: 0 <= i < |entries| ==> (i < j <==> Before(union, q, entries[i]))
  }

  // The child stands at its last entry before position `q` of the union.
  ghost predicate UpTo(entries: seq<Entry>, at: Option<nat>, union: seq<Entry>, q: nat) {
    var j: int := if at.Some? then at.value else -1;
    && j < |entries|
    && forall i :: 0 <= i < |entries| ==> (i <= j <==> Before(union, q, entries[i]))
  }

  // The union holds exactly the entries of the children, which share no key.
  ghost predicate IsUnion(union: seq<Entry>, parts: seq<seq<Entry>>) {
    && SortedTable(union)
    && (forall i :: 0 <= i < |parts| ==> SortedTable(parts[i]))
    && (forall i, e :: 0 <= i < |parts| && e in parts[i] ==> e in union)
    && (forall e :: e in union ==> exists i :: 0 <= i < |parts| && e in parts[i])
    && (forall i, j, e :: 0 <= i < j < |parts| && e in parts[i] ==> e !in parts[j])
  }

  lemma {:induction false} TableIsOrdered(t: seq<Entry>, j: nat)
    requires SortedTable(t) && j < |t|
    ensures forall i :: 0 <= i < j ==> Less(t[i].key, t[j].key)
  {
  }

  // One position further, exactly one more entry is before.
  lemma {:induction false} BeforeStep(union: seq<Entry>, q: nat, e: Entry)
    requires SortedTable(union) && q < |union| && e in union
    ensures Before(union, q + 1, e) <==> Before(union, q, e) || e == union[q]
  {
    var r :| 0 <= r < |union| && union[r] == e;
    assert r < q ==> Less(union[r].key, union[q].key);
    assert q < r ==> Less(union[q].key, union[r].key);
    assert q + 1 < r ==> Less(union[q + 1].key, union[r].key);
    assert r < q + 1 < |union| ==> Less(union[r].key, union[q + 1].key);
  }

  lemma {:induction false} FromStep(part: seq<Entry>, at: Option<nat>, union: seq<Entry>, q: nat)
    requires SortedTable(union) && SortedTable(part) && (forall e :: e in part ==> e in union)
    requires q < |union| && From(part, at, union, q)
    ensures union[q] !in part ==> From(part, at, union, q + 1)
    ensures union[q] in part ==> at.Some? && part[at.value] == union[q]
                                 && From(part, if at.value + 1 < |part| then Some(at.value + 1) else None, union, q + 1)
  {
    forall i | 0 <= i < |part|
      ensures Before(union, q + 1, part[i]) <==> Before(union, q, part[i]) || part[i] == union[q]
    {
      BeforeStep(union, q, part[i]);
    }
    if union[q] in part {
      var m :| 0 <= m < |part| && part[m] == union[q];
      forall i | 0 <= i < m
        ensures Before(union, q, part[i])
      {
        assert Less(part[i].key, part[m].key);
      }
      forall i | m < i < |part|
        ensures !Before(union, q, part[i]) && part[i] != union[q]
      {
        assert Less(part[m].key, part[i].key);
      }
      FromPosition(part, at, union, q, m);
    }
  }

  lemma {:induction false} FromPosition(part: seq<Entry>, at: Option<nat>, union: seq<Entry>, q: nat, m: nat)
    requires From(part, at, union, q) && m < |part| && !Before(union, q, part[m])
    requires forall i :: 0 <= i < m ==> Before(union, q, part[i])
    ensures at == Some(m)
  {
    var here := at.Some? && Before(union, q, part[at.value]);
  }

  lemma {:induction false} UpToPosition(part: seq<Entry>, at: Option<nat>, union: seq<Entry>, q: nat, m: nat)
    requires UpTo(part, at, union, q) && m < |part| && Before(union, q, part[m])
    requires forall i :: m < i < |part| ==> !Before(union, q, part[i])
    ensures at == Some(m)
  {
    var here := at.Some? && Before(union, q, part[at.value]);
  }

  lemma {:induction false} UpToStep(part: seq<Entry>, at: Option<nat>, union: seq<Entry>, q: nat)
    requires SortedTable(union) && SortedTable(part) && (forall e :: e in part ==> e in union)
    requires q < |union| && UpTo(part, at, union, q + 1)
    ensures union[q] !in part ==> UpTo(part, at, union, q)
    ensures union[q] in part ==> at.Some? && part[at.value] == union[q]
                                 && UpTo(part, if at.value > 0 then Some(at.value - 1) else None, union, q)
  {
    forall i | 0 <= i < |part|
      ensures Before(union, q + 1, part[i]) <==> Before(union, q, part[i]) || part[i] == union[q]
    {
      BeforeStep(union, q, part[i]);
    }
    if union[q] in part {
      var m :| 0 <= m < |part| && part[m] == union[q];
      forall i | 0 <= i < m
        ensures Before(union, q, part[i])
      {
        assert Less(part[i].key, part[m].key);
      }
      forall i | m < i < |part|
        ensures !Before(union, q, part[i]) && part[i] != union[q]
      {
        assert Less(part[m].key, part[i].key);
      }
      UpToPosition(part, at, union, q + 1, m);
    }
  }

  // Seeking every child to a key is a position of the union.
  lemma {:induction false} SeekIsFrom(part: seq<Entry>, union: seq<Entry>, key: InternalKey)
    requires SortedTable(union) && SortedTable(part) && forall e :: e in part ==> e in union
    ensures var p := Position(part, key);
      From(part, if p < |part| then Some(p) else None, union, Position(union, key))
  {
    var p, q := Position(part, key), Position(union, key);
    forall i | 0 <= i < |part|
      ensures i < p <==> Before(union, q, part[i])
    {
      assert part[i] in part;
      var r :| 0 <= r < |union| && union[r] == part[i];
      assert r < q && q < |union| ==> Less(union[r].key, union[q].key);
      assert q < r ==> Less(union[q].key, union[r].key);
      assert p < i ==> Less(part[p].key, part[i].key);
    }
  }

  lemma {:induction false} PositionOfOwnKey(t: seq<Entry>, q: nat)
    requires SortedTable(t) && q < |t|
    ensures Position(t, t[q].key) == q
  {
    var p := Position(t, t[q].key);
    if p < q {
      TableIsOrdered(t, q);
    }
  }

  // From the first entry at or after a position, one step back is the last one before it.
  lemma {:induction false} StepBack(part: seq<Entry>, at: Option<nat>, union: seq<Entry>, q: nat)
    requires From(part, at, union, q)
    ensures at.Some? ==> UpTo(part, if at.value > 0 then Some(at.value - 1) else None, union, q)
    ensures at.None? ==> UpTo(part, if part == [] then None else Some(|part| - 1), union, q)
  {
  }

  // ----- the iterator -----

  class MergingIterator {
    const children: seq<Cursor>
    ghost const union: seq<Entry>
    var current: Option<nat>
    var forward: bool
    // Where the merged cursor stands.
    ghost var at: Option<nat>

    ghost function Parts(): seq<seq<Entry>> {
      seq(|children|, i requires 0 <= i < |children| => children[i].entries)
    }

    ghost predicate WellFormed() {
      && IsUnion(union, Parts())
      && (forall i, j :: 0 <= i < j < |children| ==> children[i] != children[j])
    }

    ghost predicate AllFrom(q: nat)
      reads this, children
    {
      forall i :: 0 <= i < |children| ==> From(children[i].entries, children[i].at, union, q)
    }

    ghost predicate AllUpTo(q: nat)
      reads this, children
    {
      forall i :: 0 <= i < |children| ==> UpTo(children[i].entries, children[i].at, union, q)
    }

    // The current child shows the entry where the merged cursor stands, and in either
    // direction all children are on the right side of it.
    ghost predicate Ok()
      reads this, children
    {
      && WellFormed()
      && current.Some? == at.Some?
      && (at.Some? ==>
            && at.value < |union| && current.value < |children|
            && children[current.value].at.Some? && children[current.value].Ok()
            && children[current.value].Current() == union[at.value]
            && (if forward then AllFrom(at.value) else AllUpTo(at.value + 1)))
    }

    predicate Valid()
      reads this
    {
      current.Some?
    }

    function Current(): (e: Entry)
      reads this, children
      requires Ok() && Valid()
      ensures e == union[at.value]
    {
      children[current.value].Current()
    }

    constructor (children: seq<Cursor>, ghost union: seq<Entry>)
      requires IsUnion(union, seq(|children|, i requires 0 <= i < |children| => children[i].entries))
      requires forall i, j :: 0 <= i < j < |children| ==> children[i] != children[j]
      ensures Ok() && !Valid() && this.children == children && this.union == union
    {
      this.children, this.union := children, union;
      current, forward, at := None, true, None;
    }

    // FindSmallest, once every child stands at its first entry from position `q` on.
    method FindSmallest(ghost q: nat)
      requires WellFormed() && AllFrom(q) && q <= |union|
      modifies this`current, this`at
      ensures at == if q < |union| then Some(q) else None
      ensures current.Some? == at.Some?
      ensures at.Some? ==> current.value < |children| && children[current.value].at.Some? && children[current.value].Ok()
                           && children[current.value].Current() == union[q]
    {
      var smallest: Option<nat> := None;
      for i := 0 to |children|
        invariant smallest.Some? ==> smallest.value < i && children[smallest.value].Valid() && children[smallest.value].Ok()
        invariant smallest.None? ==> forall j :: 0 <= j < i ==> !children[j].Valid()
        invariant smallest.Some? ==>
                    forall j :: 0 <= j < i && children[j].Valid() && children[j].Ok() ==>
                      AtMost(children[smallest.value].Current().key, children[j].Current().key)
      {
        var child := children[i];
        FromIsOk(child.entries, child.at, union, q);
        if child.Valid() {
          if smallest.None? {
            smallest := Some(i);
          } else if Compare(child.Current().key, children[smallest.value].Current().key) < 0 {
            smallest := Some(i);
          }
        }
      }
      current := smallest;
      at := if q < |union| then Some(q) else None;
      SmallestIsNext(q);
    }

    // FindLargest, once every child stands at its last entry before position `q`.
    method FindLargest(ghost q: nat)
      requires WellFormed() && AllUpTo(q) && q <= |union|
      modifies this`current, this`at
      ensures at == if q > 0 then Some(q - 1) else None
      ensures current.Some? == at.Some?
      ensures at.Some? ==> current.value < |children| && children[current.value].at.Some? && children[current.value].Ok()
                           && children[current.value].Current() == union[q - 1]
    {
      var largest: Option<nat> := None;
      var i := |children|;
      while i > 0
        invariant 0 <= i <= |children|
        invariant largest.Some? ==> i <= largest.value < |children| && children[largest.value].Valid() && children[largest.value].Ok()
        invariant largest.None? ==> forall j :: i <= j < |children| ==> !children[j].Valid()
        invariant largest.Some? ==>
                    forall j :: i <= j < |children| && children[j].Valid() && children[j].Ok() ==>
                      AtMost(children[j].Current().key, children[largest.value].Current().key)
      {
        i := i - 1;
        var child := children[i];
        UpToIsOk(child.entries, child.at, union, q);
        if child.Valid() {
          if largest.None? {
            largest := Some(i);
          } else if Compare(child.Current().key, children[largest.value].Current().key) > 0 {
            largest := Some(i);
          }
        }
      }
      current := largest;
      at := if q > 0 then Some(q - 1) else None;
      LargestIsPrev(q);
    }

    // The least entry that the children show is the one at position `q` of the union.
    lemma {:induction false} SmallestIsNext(q: nat)
      requires WellFormed() && AllFrom(q) && q <= |union|
      requires current.None? ==> forall j :: 0 <= j < |children| ==> !children[j].Valid()
      requires current.Some? ==> current.value < |children| && children[current.value].Valid() && children[current.value].Ok()
      requires current.Some? ==>
                 forall j :: 0 <= j < |children| && children[j].Valid() && children[j].Ok() ==>
                   AtMost(children[current.value].Current().key, children[j].Current().key)
      ensures current.Some? == (q < |union|)
      ensures current.Some? ==> children[current.value].Current() == union[q]
    {
      hide IsUnion, SortedTable, From;
      UnionFacts(union, Parts());
      if q < |union| {
        var i := Owner(union, Parts(), union[q]);
        assert Parts()[i] == children[i].entries;
        FromStep(children[i].entries, children[i].at, union, q);
        FromIsOk(children[i].entries, children[i].at, union, q);
        assert children[i].Current() == union[q];
      }
      if current.Some? {
        var c := children[current.value];
        assert Parts()[current.value] == c.entries;
        FromIsAfter(c.entries, c.at, union, q);
        NotBelow(union, q, c.Current());
      }
    }

    lemma {:induction false} LargestIsPrev(q: nat)
      requires WellFormed() && AllUpTo(q) && q <= |union|
      requires current.None? ==> forall j :: 0 <= j < |children| ==> !children[j].Valid()
      requires current.Some? ==> current.value < |children| && children[current.value].Valid() && children[current.value].Ok()
      requires current.Some? ==>
                 forall j :: 0 <= j < |children| && children[j].Valid() && children[j].Ok() ==>
                   AtMost(children[j].Current().key, children[current.value].Current().key)
      ensures current.Some? == (q > 0)
      ensures current.Some? ==> children[current.value].Current() == union[q - 1]
    {
      hide IsUnion, SortedTable, UpTo;
      UnionFacts(union, Parts());
      if q > 0 {
        var i := Owner(union, Parts(), union[q - 1]);
        assert Parts()[i] == children[i].entries;
        UpToStep(children[i].entries, children[i].at, union, q - 1);
        UpToIsOk(children[i].entries, children[i].at, union, q);
        assert children[i].Current() == union[q - 1];
      }
      if current.Some? {
        var c := children[current.value];
        assert Parts()[current.value] == c.entries;
        UpToIsBefore(c.entries, c.at, union, q);
        NotAbove(union, q, c.Current());
      }
    }

    method SeekToFirst()
      requires WellFormed()
      modifies this`current, this`forward, this`at, children
      ensures Ok() && at == if union == [] then None else Some(0)
    {
      hide IsUnion, From;
      for i := 0 to |children|
        invariant forall j :: 0 <= j < i ==> From(children[j].entries, children[j].at, union, 0)
      {
        children[i].SeekToFirst();
        PartFacts(union, Parts(), i);
        AtStart(children[i].entries, union);
      }
      FindSmallest(0);
      forward := true;
    }

    method SeekToLast()
      requires WellFormed()
      modifies this`current, this`forward, this`at, children
      ensures Ok() && at == if union == [] then None else Some(|union| - 1)
    {
      hide IsUnion, UpTo;
      for i := 0 to |children|
        invariant forall j :: 0 <= j < i ==> UpTo(children[j].entries, children[j].at, union, |union|)
      {
        children[i].SeekToLast();
        AtEnd(children[i].entries, union);
      }
      FindLargest(|union|);
      forward := false;
    }

    method Seek(target: InternalKey)
      requires WellFormed()
      modifies this`current, this`forward, this`at, children
      ensures Ok() && var p := Position(union, target);
        at == if p < |union| then Some(p) else None
    {
      hide IsUnion, From;
      ghost var q := Position(union, target);
      for i := 0 to |children|
        invariant forall j :: 0 <= j < i ==> From(children[j].entries, children[j].at, union, q)
      {
        children[i].Seek(target);
        PartFacts(union, Parts(), i);
        SeekIsFrom(children[i].entries, union, target);
      }
      FindSmallest(q);
      forward := true;
    }

    // Put the children that are not current behind key().
    method TurnForward()
      requires Ok() && Valid() && !forward
      modifies this`forward, children
      ensures Ok() && Valid() && forward && at == old(at) && current == old(current)
    {
      hide IsUnion, From, UpTo;
      ghost var p := at.value;
      var c := current.value;
      var key := children[c].Current().key;
      UnionFacts(union, Parts());
      PositionOfOwnKey(union, p);
      PartFacts(union, Parts(), c);
      AtElement(children[c].entries, children[c].at, union, p);
      for i := 0 to |children|
        invariant children[c].at == old(children[c].at)
        invariant forall j :: 0 <= j < |children| && (j < i || j == c) ==> From(children[j].entries, children[j].at, union, p)
      {
        if i != c {
          var child := children[i];
          child.Seek(key);
          PartFacts(union, Parts(), i);
          SeekIsFrom(child.entries, union, key);
          FromIsOk(child.entries, child.at, union, p);
          OtherParts(union, Parts(), i, c, union[p]);
          NotTheSame(child.entries, child.at, union, p);
          if child.Valid() && Compare(key, child.Current().key) == 0 {
            child.Next();
          }
        }
      }
      forward := true;
    }

    // Put the children that are not current before key().
    method TurnBackward()
      requires Ok() && Valid() && forward
      modifies this`forward, children
      ensures Ok() && Valid() && !forward && at == old(at) && current == old(current)
    {
      hide IsUnion, From, UpTo;
      ghost var p := at.value;
      var c := current.value;
      var key := children[c].Current().key;
      UnionFacts(union, Parts());
      PositionOfOwnKey(union, p);
      PartFacts(union, Parts(), c);
      AtElement(children[c].entries, children[c].at, union, p);
      for i := 0 to |children|
        invariant children[c].at == old(children[c].at)
        invariant forall j :: 0 <= j < |children| && (j < i || j == c) ==> UpTo(children[j].entries, children[j].at, union, p + 1)
      {
        if i != c {
          var child := children[i];
          child.Seek(key);
          PartFacts(union, Parts(), i);
          SeekIsFrom(child.entries, union, key);
          FromIsOk(child.entries, child.at, union, p);
          OtherParts(union, Parts(), i, c, union[p]);
          FromStep(child.entries, child.at, union, p);
          StepBack(child.entries, child.at, union, p + 1);
          if child.Valid() {
            child.Prev();
          } else {
            child.SeekToLast();
          }
        }
      }
      forward := false;
    }

    method Next()
      requires Ok() && Valid()
      modifies this`current, this`forward, this`at, children
      ensures Ok() && forward
      ensures at == if old(at).value + 1 < |union| then Some(old(at).value + 1) else None
    {
      if !forward {
        TurnForward();
      }
      hide IsUnion, From, UpTo;
      ghost var p := at.value;
      var c := current.value;
      forall i | 0 <= i < |children|
        ensures i != c ==> From(children[i].entries, children[i].at, union, p + 1)
        ensures i == c ==> children[c].at.Some?
                           && From(children[c].entries,
                                   if children[c].at.value + 1 < |children[c].entries| then Some(children[c].at.value + 1) else None,
                                   union, p + 1)
      {
        PartFacts(union, Parts(), i);
        FromStep(children[i].entries, children[i].at, union, p);
        assert children[c].Current() in children[c].entries;
        if i != c {
          OtherParts(union, Parts(), i, c, union[p]);
        }
      }
      children[c].Next();
      FindSmallest(p + 1);
    }

    method Prev()
      requires Ok() && Valid()
      modifies this`current, this`forward, this`at, children
      ensures Ok() && !forward
      ensures at == if old(at).value > 0 then Some(old(at).value - 1) else None
    {
      if forward {
        TurnBackward();
      }
      hide IsUnion, From, UpTo;
      ghost var p := at.value;
      var c := current.value;
      forall i | 0 <= i < |children|
        ensures i != c ==> UpTo(children[i].entries, children[i].at, union, p)
        ensures i == c ==> children[c].at.Some?
                           && UpTo(children[c].entries,
                                   if children[c].at.value > 0 then Some(children[c].at.value - 1) else None,
                                   union, p)
      {
        PartFacts(union, Parts(), i);
        UpToStep(children[i].entries, children[i].at, union, p);
        assert children[c].Current() in children[c].entries;
        if i != c {
          OtherParts(union, Parts(), i, c, union[p]);
        }
      }
      children[c].Prev();
      FindLargest(p);
    }
  }

  // The entry at a position of the union is of one child only.
  lemma {:induction false} OtherParts(union: seq<Entry>, parts: seq<seq<Entry>>, i: nat, c: nat, e: Entry)
    requires IsUnion(union, parts) && i < |parts| && c < |parts| && i != c && e in parts[c]
    ensures e !in parts[i]
  {
    hide SortedTable;
  }

  lemma {:induction false} AtElement(part: seq<Entry>, at: Option<nat>, union: seq<Entry>, p: nat)
    requires SortedTable(union) && SortedTable(part) && (forall e :: e in part ==> e in union)
    requires p < |union| && at.Some? && at.value < |part| && part[at.value] == union[p]
    ensures From(part, at, union, p) && UpTo(part, at, union, p + 1)
  {
    forall i | 0 <= i < |part|
      ensures i < at.value <==> Before(union, p, part[i])
      ensures i <= at.value <==> Before(union, p + 1, part[i])
    {
      assert part[i] in part;
      BeforeStep(union, p, part[i]);
      assert i < at.value ==> Less(part[i].key, part[at.value].key);
      assert at.value < i ==> Less(part[at.value].key, part[i].key);
    }
  }

  // A child that does not hold the entry at a position cannot stand at its key.
  lemma {:induction false} NotTheSame(part: seq<Entry>, at: Option<nat>, union: seq<Entry>, p: nat)
    requires SortedTable(union) && (forall e :: e in part ==> e in union) && p < |union| && union[p] !in part
    requires From(part, at, union, p)
    ensures at.Some? ==> at.value < |part| && Less(union[p].key, part[at.value].key)
  {
    if at.Some? {
      NotBelow(union, p, part[at.value]);
    }
  }

  lemma {:induction false} UnionFacts(union: seq<Entry>, parts: seq<seq<Entry>>)
    requires IsUnion(union, parts)
    ensures SortedTable(union)
    ensures forall i :: 0 <= i < |parts| ==> SortedTable(parts[i]) && forall e :: e in parts[i] ==> e in union
  {
    hide SortedTable;
  }

  lemma {:induction false} PartFacts(union: seq<Entry>, parts: seq<seq<Entry>>, i: nat)
    requires IsUnion(union, parts) && i < |parts|
    ensures SortedTable(union) && SortedTable(parts[i]) && forall e :: e in parts[i] ==> e in union
  {
    hide SortedTable;
  }

  lemma {:induction false} Owner(union: seq<Entry>, parts: seq<seq<Entry>>, e: Entry) returns (i: nat)
    requires IsUnion(union, parts) && e in union
    ensures i < |parts| && e in parts[i]
  {
    hide SortedTable;
    i :| 0 <= i < |parts| && e in parts[i];
  }

  lemma {:induction false} FromIsOk(part: seq<Entry>, at: Option<nat>, union: seq<Entry>, q: nat)
    requires From(part, at, union, q)
    ensures at.Some? ==> at.value < |part|
  {
  }

  lemma {:induction false} UpToIsOk(part: seq<Entry>, at: Option<nat>, union: seq<Entry>, q: nat)
    requires UpTo(part, at, union, q)
    ensures at.Some? ==> at.value < |part|
  {
  }

  lemma {:induction false} FromIsAfter(part: seq<Entry>, at: Option<nat>, union: seq<Entry>, q: nat)
    requires From(part, at, union, q) && at.Some?
    ensures at.value < |part| && !Before(union, q, part[at.value])
  {
  }

  lemma {:induction false} UpToIsBefore(part: seq<Entry>, at: Option<nat>, union: seq<Entry>, q: nat)
    requires UpTo(part, at, union, q) && at.Some?
    ensures at.value < |part| && Before(union, q, part[at.value])
  {
  }

  // An entry of the union that is not before a position, nor behind it, is the one there.
  lemma {:induction false} NotBelow(union: seq<Entry>, q: nat, e: Entry)
    requires SortedTable(union) && e in union && !Before(union, q, e)
    ensures q < |union| && (AtMost(e.key, union[q].key) ==> e == union[q])
  {
    var r :| 0 <= r < |union| && union[r] == e;
    TableIsOrdered(union, r);
    if q < |union| {
      TableIsOrdered(union, q);
    }
  }

  lemma {:induction false} NotAbove(union: seq<Entry>, q: nat, e: Entry)
    requires SortedTable(union) && q <= |union| && e in union && Before(union, q, e)
    ensures q > 0 && (AtMost(union[q - 1].key, e.key) ==> e == union[q - 1])
  {
    var r :| 0 <= r < |union| && union[r] == e;
    TableIsOrdered(union, r);
    if q > 0 {
      TableIsOrdered(union, q - 1);
    }
  }

  lemma {:induction false} AtStart(part: seq<Entry>, union: seq<Entry>)
    requires SortedTable(union) && forall e :: e in part ==> e in union
    ensures From(part, if part == [] then None else Some(0), union, 0)
  {
    forall i | 0 <= i < |part|
      ensures !Before(union, 0, part[i])
    {
      assert part[i] in part;
      var r :| 0 <= r < |union| && union[r] == part[i];
      assert r > 0 ==> Less(union[0].key, union[r].key);
    }
  }

  lemma {:induction false} AtEnd(part: seq<Entry>, union: seq<Entry>)
    ensures UpTo(part, if part == [] then None else Some(|part| - 1), union, |union|)
  {
  }
}
