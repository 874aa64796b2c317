/**
 The two-level iterator (table/two_level_iterator.cc) behaves as one cursor over the
 concatenation of its blocks, some of which may be empty.
 */
module TwoLevel {
  import opened Wrappers
  import opened DbFormat
  import opened Lookup
  import opened Cursors

  function Flatten(blocks: seq<seq<Entry>>): seq<Entry> {
    if blocks == [] then [] else Flatten(blocks[..|blocks| - 1]) + blocks[|blocks| - 1]
  }

  // Where a block starts in the concatenation.
  function Offset(blocks: seq<seq<Entry>>, b: nat): nat
    requires b <= |blocks|
  {
    |Flatten(blocks[..b])|
  }

  lemma {:induction false} OffsetStep(blocks: seq<seq<Entry>>, b: nat)
    requires b < |blocks|
    ensures Offset(blocks, b + 1) == Offset(blocks, b) + |blocks[b]| <= |Flatten(blocks)|
    ensures forall j :: 0 <= j < |blocks[b]| ==> Flatten(blocks)[Offset(blocks, b) + j] == blocks[b][j]
  {
    var n := |blocks| - 1;
    if b == n {
      assert blocks[..b + 1] == blocks;
    } else {
      OffsetStep(blocks[..n], b);
      assert blocks[..n][..b] == blocks[..b] && blocks[..n][..b + 1] == blocks[..b + 1];
    }
  }

  lemma {:induction false} OffsetEnds(blocks: seq<seq<Entry>>)
    ensures Offset(blocks, 0) == 0 && Offset(blocks, |blocks|) == |Flatten(blocks)|
  {
    assert blocks[..0] == [] && blocks[..|blocks|] == blocks;
  }

  // The key of an index entry is at or after the entries of its block, and before those
  // of the next ones.
  ghost predicate IndexFits(index: seq<Entry>, blocks: seq<seq<Entry>>) {
    && |index| == |blocks| && SortedTable(index)
    && (forall b :: 0 <= b < |blocks| ==> SortedTable(blocks[b]))
    && (forall b, e :: 0 <= b < |blocks| && e in blocks[b] ==> AtMost(e.key, index[b].key))
    && (forall b, e :: 0 < b < |blocks| && e in blocks[b] ==> Less(index[b - 1].key, e.key))
  }

  lemma {:induction false} IndexBefore(index: seq<Entry>, blocks: seq<seq<Entry>>, b: nat, c: nat, e: Entry)
    requires IndexFits(index, blocks) && b < c < |blocks| && e in blocks[c]
    ensures Less(index[b].key, e.key)
  {
    assert Less(index[c - 1].key, e.key);
    assert b < c - 1 ==> Less(index[b].key, index[c - 1].key);
  }

  // Which block an entry of the concatenation is in.
  lemma {:induction false} BlockOf(blocks: seq<seq<Entry>>, i: nat) returns (b: nat, j: nat)
    requires i < |Flatten(blocks)|
    ensures b < |blocks| && j < |blocks[b]| && i == Offset(blocks, b) + j && Flatten(blocks)[i] == blocks[b][j]
  {
    var n := |blocks| - 1;
    if i < |Flatten(blocks[..n])| {
      b, j := BlockOf(blocks[..n], i);
      assert blocks[..n][..b] == blocks[..b];
    } else {
      b, j := n, i - |Flatten(blocks[..n])|;
    }
    OffsetStep(blocks, b);
  }

  lemma {:induction false} OffsetsGrow(blocks: seq<seq<Entry>>, b: nat, c: nat)
    requires b <= c <= |blocks|
    ensures Offset(blocks, b) <= Offset(blocks, c)
    decreases c
  {
    if b < c {
      OffsetsGrow(blocks, b, c - 1);
      OffsetStep(blocks, c - 1);
    }
  }

  // The search through index and block finds the position in the concatenation.
  lemma {:induction false} SoughtPosition(index: seq<Entry>, blocks: seq<seq<Entry>>, target: InternalKey)
    requires IndexFits(index, blocks)
    ensures SortedTable(Flatten(blocks))
    ensures var b := Position(index, target);
      Position(Flatten(blocks), target)
        == if b < |index| then Offset(blocks, b) + Position(blocks[b], target) else |Flatten(blocks)|
  {
    ConcatenationIsSorted(index, blocks);
    var all := Flatten(blocks);
    var b: nat := Position(index, target);
    var p: nat := if b < |index| then Offset(blocks, b) + Position(blocks[b], target) else |all|;
    if b < |index| {
      OffsetStep(blocks, b);
    }
    forall i | 0 <= i < |all|
      ensures i < p <==> Less(all[i].key, target)
    {
      SideOfTarget(index, blocks, target, i);
    }
    PositionIs(all, target, p);
  }

  lemma {:induction false} PositionIs(t: seq<Entry>, target: InternalKey, p: nat)
    requires p <= |t| && forall i :: 0 <= i < |t| ==> (i < p <==> Less(t[i].key, target))
    ensures Position(t, target) == p
  {
    var q: nat := Position(t, target);
    var at, here := q < |t| && Less(t[q].key, target), p < |t| && Less(t[p].key, target);
  }

  lemma {:induction false} SideOfTarget(index: seq<Entry>, blocks: seq<seq<Entry>>, target: InternalKey, i: nat)
    requires IndexFits(index, blocks) && i < |Flatten(blocks)|
    ensures var b := Position(index, target);
      var p := if b < |index| then Offset(blocks, b) + Position(blocks[b], target) else |Flatten(blocks)|;
      i < p <==> Less(Flatten(blocks)[i].key, target)
  {
    hide Flatten;
    var b: nat := Position(index, target);
    var c, j := BlockOf(blocks, i);
    var e := blocks[c][j];
    assert e in blocks[c];
    assert AtMost(e.key, index[c].key);
    if c < b {
      if b < |index| {
        OffsetsGrow(blocks, c + 1, b);
        OffsetStep(blocks, c);
      }
    } else if b < c {
      OffsetsGrow(blocks, b + 1, c);
      OffsetStep(blocks, b);
      IndexBefore(index, blocks, b, c, e);
    } else {
      SideWithin(blocks[b], target, j);
    }
  }

  lemma {:induction false} SideWithin(t: seq<Entry>, target: InternalKey, j: nat)
    requires SortedTable(t) && j < |t|
    ensures j < Position(t, target) <==> Less(t[j].key, target)
  {
    var p: nat := Position(t, target);
    assert p < j ==> Less(t[p].key, t[j].key);
  }

  lemma {:induction false} ConcatenationIsSorted(index: seq<Entry>, blocks: seq<seq<Entry>>)
    requires IndexFits(index, blocks)
    ensures SortedTable(Flatten(blocks))
  {
    hide Flatten;
    var all := Flatten(blocks);
    forall i, k | 0 <= i < k < |all|
      ensures Less(all[i].key, all[k].key)
    {
      var b, x := BlockOf(blocks, i);
      var c, y := BlockOf(blocks, k);
      if c < b {
        OffsetsGrow(blocks, c + 1, b);
        OffsetStep(blocks, c);
      }
      assert b <= c;
      if b < c {
        IndexBefore(index, blocks, b, c, blocks[c][y]);
        assert blocks[b][x] in blocks[b];
        assert AtMost(blocks[b][x].key, index[b].key);
      }
    }
  }

  // ----- the iterator -----

  class TwoLevelIterator {
    const index: Cursor
    const blocks: seq<seq<Entry>>
    var data: Cursor?
    // The block that `data` was made for.
    var handle: nat
    // Where the cursor over the concatenation stands.
    ghost var at: Option<nat>

    ghost function Entries(): seq<Entry> {
      Flatten(blocks)
    }

    ghost predicate WellFormed()
      reads this, index
    {
      IndexFits(index.entries, blocks) && index.Ok() && data != index
    }

    // The data iterator belongs to the block that the index points at.
    ghost predicate DataFits()
      reads this, index, data
    {
      data != null ==>
        && data.Ok() && handle < |blocks| && data.entries == blocks[handle]
        && index.at == Some(handle)
    }

    ghost predicate Ok()
      reads this, index, data
    {
      && WellFormed() && DataFits()
      && at.Some? == (data != null && data.Valid())
      && (at.Some? ==> at.value == Offset(blocks, handle) + data.at.value)
    }

    predicate Valid()
      reads this, data
    {
      data != null && data.Valid()
    }

    function Current(): (r: Entry)
      reads this, index, data
      requires Ok() && Valid()
      ensures at.Some? && at.value < |Entries()| && r == Entries()[at.value]
    {
      OffsetStep(blocks, handle);
      data.Current()
    }

    constructor (index: Cursor, blocks: seq<seq<Entry>>)
      requires IndexFits(index.entries, blocks) && index.Ok()
      ensures Ok() && at == None && this.index == index && this.blocks == blocks && data == null
    {
      this.index, this.blocks := index, blocks;
      data, handle, at := null, 0, None;
    }

    // InitDataBlock: a data iterator for the block the index points at.
    method InitDataBlock()
      requires WellFormed()
      requires data != null ==> data.Ok() && handle < |blocks| && data.entries == blocks[handle]
      modifies this`data, this`handle
      ensures WellFormed() && DataFits()
      ensures data == null <==> index.at.None?
      ensures data == null || data == old(data) || fresh(data)
    {
      if !index.Valid() {
        data := null;
      } else {
        var value := index.at.value;
        if data != null && value == handle {
        } else {
          data := new Cursor(blocks[value]);
          handle := value;
        }
      }
    }

    // With the data used up, the position is the start of the next block.
    ghost predicate StandsFrom(q: nat)
      reads this, index, data
    {
      if data != null && data.Valid() then handle < |blocks| && q == Offset(blocks, handle) + data.at.value
      else if index.at.Some? then index.at.value < |blocks| && q == Offset(blocks, index.at.value + 1)
      else q == |Flatten(blocks)|
    }

    // ... and backward, the entry before the start of the block.
    ghost predicate StandsBefore(q: nat)
      reads this, index, data
    {
      if data != null && data.Valid() then handle < |blocks| && q == Offset(blocks, handle) + data.at.value + 1
      else if index.at.Some? then index.at.value < |blocks| && q == Offset(blocks, index.at.value)
      else q == 0
    }

    method SkipEmptyDataBlocksForward(ghost q: nat)
      requires WellFormed() && DataFits() && StandsFrom(q)
      modifies this`data, this`handle, this`at, index`at, data
      ensures Ok() && at == if q < |Entries()| then Some(q) else None
      ensures data == null || data == old(data) || fresh(data)
    {
      hide IndexFits, Flatten;
      while data == null || !data.Valid()
        invariant WellFormed() && DataFits() && StandsFrom(q)
        invariant data == null || data == old(data) || fresh(data)
        decreases if index.at.Some? then |blocks| - index.at.value else 0, if data == null then 0 else 1
      {
        if !index.Valid() {
          data := null;
          at := None;
          return;
        }
        ghost var b := index.at.value;
        IndexLength(index.entries, blocks);
        OffsetEnds(blocks);
        index.Next();
        InitDataBlock();
        if data != null {
          data.SeekToFirst();
          OffsetStep(blocks, b + 1);
        }
      }
      OffsetStep(blocks, handle);
      at := Some(q);
    }

    method SkipEmptyDataBlocksBackward(ghost q: nat)
      requires WellFormed() && DataFits() && StandsBefore(q)
      modifies this`data, this`handle, this`at, index`at, data
      ensures Ok() && at == if q > 0 then Some(q - 1) else None
      ensures data == null || data == old(data) || fresh(data)
    {
      hide IndexFits, Flatten;
      while data == null || !data.Valid()
        invariant WellFormed() && DataFits() && StandsBefore(q)
        invariant data == null || data == old(data) || fresh(data)
        decreases if index.at.Some? then index.at.value + 1 else 0
      {
        if !index.Valid() {
          data := null;
          at := None;
          return;
        }
        ghost var b := index.at.value;
        IndexLength(index.entries, blocks);
        OffsetEnds(blocks);
        index.Prev();
        InitDataBlock();
        if data != null {
          data.SeekToLast();
          OffsetStep(blocks, b - 1);
        }
      }
      at := Some(q - 1);
    }

    method SeekToFirst()
      requires Ok()
      modifies this`data, this`handle, this`at, index`at, data
      ensures Ok() && at == if Entries() == [] then None else Some(0)
    {
      hide IndexFits, Flatten;
      index.SeekToFirst();
      InitDataBlock();
      IndexLength(index.entries, blocks);
      OffsetEnds(blocks);
      if data != null {
        data.SeekToFirst();
        OffsetStep(blocks, 0);
      }
      SkipEmptyDataBlocksForward(0);
    }

    method SeekToLast()
      requires Ok()
      modifies this`data, this`handle, this`at, index`at, data
      ensures Ok() && at == if Entries() == [] then None else Some(|Entries()| - 1)
    {
      hide IndexFits, Flatten;
      index.SeekToLast();
      InitDataBlock();
      IndexLength(index.entries, blocks);
      OffsetEnds(blocks);
      if data != null {
        data.SeekToLast();
        OffsetStep(blocks, |blocks| - 1);
      }
      SkipEmptyDataBlocksBackward(|Entries()|);
    }

    method Seek(target: InternalKey)
      requires Ok()
      modifies this`data, this`handle, this`at, index`at, data
      ensures Ok() && var p := Position(Entries(), target);
        at == if p < |Entries()| then Some(p) else None
    {
      hide IndexFits, Flatten;
      SoughtPosition(index.entries, blocks, target);
      index.Seek(target);
      InitDataBlock();
      IndexLength(index.entries, blocks);
      if data != null {
        data.Seek(target);
        OffsetStep(blocks, handle);
      }
      SkipEmptyDataBlocksForward(Position(Entries(), target));
    }

    method Next()
      requires Ok() && Valid()
      modifies this`data, this`handle, this`at, index`at, data
      ensures Ok() && at == if old(at).value + 1 < |Entries()| then Some(old(at).value + 1) else None
    {
      hide IndexFits, Flatten;
      ghost var p := at.value;
      data.Next();
      OffsetStep(blocks, handle);
      SkipEmptyDataBlocksForward(p + 1);
    }

    method Prev()
      requires Ok() && Valid()
      modifies this`data, this`handle, this`at, index`at, data
      ensures Ok() && at == if old(at).value > 0 then Some(old(at).value - 1) else None
    {
      hide IndexFits, Flatten;
      ghost var p := at.value;
      data.Prev();
      OffsetStep(blocks, handle);
      SkipEmptyDataBlocksBackward(p);
    }
  }

  lemma {:induction false} IndexLength(index: seq<Entry>, blocks: seq<seq<Entry>>)
    requires IndexFits(index, blocks)
    ensures |index| == |blocks|
  {
  }
}
