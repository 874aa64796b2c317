/**
 The plain iterator that all others refine: a position in a sorted sequence of entries
 (include/leveldb/iterator.h).
 */
module Cursors {
  import opened Wrappers
  import opened DbFormat
  import opened Lookup

  class Cursor {
    const entries: seq<Entry>
    // No position: before the first or past the last entry.
    var at: Option<nat>

    predicate Valid()
      reads this
    {
      at.Some?
    }

    ghost predicate Ok()
      reads this
    {
      at.Some? ==> at.value < |entries|
    }

    constructor (entries: seq<Entry>)
      ensures this.entries == entries && at == None && Ok()
    {
      this.entries := entries;
      at := None;
    }

    function Current(): Entry
      reads this
      requires Ok() && Valid()
    {
      entries[at.value]
    }

    method SeekToFirst()
      modifies this`at
      ensures Ok() && at == if entries == [] then None else Some(0)
    {
      at := if entries == [] then None else Some(0);
    }

    method SeekToLast()
      modifies this`at
      ensures Ok() && at == if entries == [] then None else Some(|entries| - 1)
    {
      at := if entries == [] then None else Some(|entries| - 1);
    }

    // The first entry at or after the key.
    method Seek(key: InternalKey)
      modifies this`at
      ensures Ok() && var p := Position(entries, key);
        at == if p < |entries| then Some(p) else None
    {
      var p := Position(entries, key);
      at := if p < |entries| then Some(p) else None;
    }

    method Next()
      requires Ok() && Valid()
      modifies this`at
      ensures Ok() && at == if old(at).value + 1 < |entries| then Some(old(at).value + 1) else None
    {
      at := if at.value + 1 < |entries| then Some(at.value + 1) else None;
    }

    method Prev()
      requires Ok() && Valid()
      modifies this`at
      ensures Ok() && at == if old(at).value > 0 then Some(old(at).value - 1) else None
    {
      at := if at.value > 0 then Some(at.value - 1) else None;
    }
  }
}
