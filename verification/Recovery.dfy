/**
 Replaying the logs when the store is opened (db/db_impl.cc: RecoverLogFile,
 WriteLevel0Table, Recover): however the entries fall into memtables, the tables meet
 what the restart step of the store asks of them.
 */
module Recovery {
  import opened Wrappers
  import opened DbFormat
  import opened Views
  import opened StoreViews
  import opened Versions
  import opened MergeRules
  import opened Compactions
  import opened LevelRules
  import opened StoreState
  import opened Lookup

  // A log record is the batch of one group of writers.
  type Record = seq<Entry>

  function Flatten(log: seq<Record>): seq<Entry> {
    if log == [] then [] else Flatten(log[..|log| - 1]) + log[|log| - 1]
  }

  function FlattenLogs(logs: seq<seq<Record>>): seq<Entry> {
    if logs == [] then [] else FlattenLogs(logs[..|logs| - 1]) + Flatten(logs[|logs| - 1])
  }

  // The tables hold the entries, in order of age, under fresh numbers.
  ghost predicate TablesFrom(files: seq<FileMetaData>, first: nat, next: nat, entries: seq<Entry>) {
    && first <= next
    && (forall i :: 0 <= i < |files| ==> files[i].Valid() && first <= files[i].number < next)
    && (forall i, j :: 0 <= i < j < |files| ==>
          files[i].number < files[j].number && NewerThan(files[j].table, files[i].table))
    && Contents(Concat(files)) == Contents(entries)
  }

  lemma {:induction false} NoTables(first: nat)
    ensures TablesFrom([], first, first, [])
  {
  }

  lemma {:induction false} LaterNumber(files: seq<FileMetaData>, first: nat, next: nat, entries: seq<Entry>, next': nat)
    requires TablesFrom(files, first, next, entries) && next <= next'
    ensures TablesFrom(files, first, next', entries)
  {
  }

  lemma {:induction false} OneMoreTable(files: seq<FileMetaData>, first: nat, next: nat, entries: seq<Entry>, f: FileMetaData,
                                        chunk: seq<Entry>)
    requires TablesFrom(files, first, next, entries) && f.Valid() && f.number == next
    requires Contents(f.table) == Contents(chunk) && Increasing(entries + chunk)
    ensures TablesFrom(files + [f], first, next + 1, entries + chunk)
  {
    hide FileMetaData.Valid, Increasing, NewerThan;
    var all := files + [f];
    assert all[..|files|] == files;
    AppendedContents(Concat(files), f.table, entries, chunk);
    forall i | 0 <= i < |files|
      ensures NewerThan(f.table, files[i].table)
    {
      ChunkIsNewer(files, i, entries, f, chunk);
    }
  }

  lemma {:induction false} AppendedContents(a: seq<Entry>, b: seq<Entry>, c: seq<Entry>, d: seq<Entry>)
    requires Contents(a) == Contents(c) && Contents(b) == Contents(d)
    ensures Contents(a + b) == Contents(c + d)
  {
    assert Contents(a + b) == Contents(a) + Contents(b);
    assert Contents(c + d) == Contents(c) + Contents(d);
  }

  lemma {:induction false} ChunkIsNewer(files: seq<FileMetaData>, i: nat, entries: seq<Entry>, f: FileMetaData, chunk: seq<Entry>)
    requires i < |files| && Contents(Concat(files)) == Contents(entries)
    requires Contents(f.table) == Contents(chunk) && Increasing(entries + chunk)
    ensures NewerThan(f.table, files[i].table)
  {
    hide Increasing;
    ConcatMembers(files);
    forall e, o | e in f.table && o in files[i].table
      ensures o.key.sequence < e.key.sequence
    {
      assert o in Contents(Concat(files)) && e in Contents(f.table);
      EarlierIsOlder(entries, chunk, o, e);
    }
  }

  lemma {:induction false} EarlierIsOlder(a: seq<Entry>, b: seq<Entry>, e: Entry, o: Entry)
    requires Increasing(a + b) && e in a && o in b
    ensures e.key.sequence < o.key.sequence
  {
    var i :| 0 <= i < |a| && a[i] == e;
    var j :| 0 <= j < |b| && b[j] == o;
    assert (a + b)[i] == e && (a + b)[|a| + j] == o;
  }

  lemma {:induction false} PrefixIncreases(a: seq<Entry>, b: seq<Entry>)
    requires Increasing(a + b)
    ensures Increasing(a)
  {
    assert forall i :: 0 <= i < |a| ==> (a + b)[i] == a[i];
  }

  // What a memtable holds once the entries have been added to it one after the other.
  function TableOf(entries: seq<Entry>): seq<Entry> {
    if entries == [] then [] else Inserted(TableOf(entries[..|entries| - 1]), entries[|entries| - 1])
  }

  // WriteBatchInternal::InsertInto.
  method InsertInto(batch: Record, mem: MemTable, ghost before: seq<Entry>)
    requires mem.Valid() && mem.Entries() == Contents(before) && mem.table == TableOf(before) && Increasing(before + batch)
    modifies mem
    ensures mem.Valid() && mem.Entries() == Contents(before + batch) && mem.table == TableOf(before + batch)
  {
    hide Inserted;
    assert before + batch[..0] == before;
    for i := 0 to |batch|
      invariant mem.Valid() && mem.Entries() == Contents(before + batch[..i]) && mem.table == TableOf(before + batch[..i])
    {
      forall o | o in mem.Entries()
        ensures o.key != batch[i].key
      {
        assert (before + batch)[|before| + i] == batch[i];
        var j :| 0 <= j < |before + batch[..i]| && (before + batch[..i])[j] == o;
        assert (before + batch)[j] == o;
      }
      mem.Add(batch[i]);
      assert before + batch[..i + 1] == (before + batch[..i]) + [batch[i]];
      assert (before + batch[..i + 1])[..|before| + i] == before + batch[..i];
    }
    assert batch[..|batch|] == batch;
  }

  // WriteLevel0Table: an empty memtable uses up a number but gives no table.
  method WriteLevel0Table(mem: MemTable, number: nat, sizeOf: seq<Entry> -> nat) returns (f: Option<FileMetaData>)
    requires mem.Valid()
    ensures f.None? <==> mem.Entries() == {}
    ensures f.None? ==> mem.table == []
    ensures f.Some? ==> f.value.Valid() && f.value.number == number && Contents(f.value.table) == mem.Entries()
    ensures f.Some? ==> f.value.table == mem.table && f.value.fileSize == sizeOf(mem.table)
  {
    var t := mem.table;
    if t == [] {
      return None;
    }
    assert t[0] in mem.Entries();
    return Some(FileMetaData(number, sizeOf(t), t[0].key, t[|t| - 1].key, t));
  }

  lemma {:induction false} SomeContents(chunk: seq<Entry>)
    ensures chunk != [] ==> Contents(chunk) != {}
  {
    if chunk != [] {
      assert chunk[0] in Contents(chunk);
    }
  }

  // ----- where the memtables are cut -----

  // The table that a memtable with the entries gives.
  function TableFor(chunk: seq<Entry>, number: nat, sizeOf: seq<Entry> -> nat): seq<FileMetaData> {
    var t := TableOf(chunk);
    if t == [] then [] else [FileMetaData(number, sizeOf(t), t[0].key, t[|t| - 1].key, t)]
  }

  // One table, or none, and one number for every memtable.
  function TablesFor(cuts: seq<seq<Record>>, first: nat, sizeOf: seq<Entry> -> nat): seq<FileMetaData> {
    if cuts == [] then []
    else
      var n := |cuts| - 1;
      TablesFor(cuts[..n], first, sizeOf) + TableFor(Flatten(cuts[n]), first + n, sizeOf)
  }

  function Joined<T>(parts: seq<seq<T>>): seq<T> {
    if parts == [] then [] else Joined(parts[..|parts| - 1]) + parts[|parts| - 1]
  }

  predicate IsFull(records: seq<Record>, usage: seq<Entry> -> nat, writeBufferSize: nat) {
    usage(TableOf(Flatten(records))) > writeBufferSize
  }

  // No memtable is full before its last record.
  ghost predicate FullLast(cut: seq<Record>, usage: seq<Entry> -> nat, writeBufferSize: nat) {
    cut != [] && forall m :: 0 < m < |cut| ==> !IsFull(cut[..m], usage, writeBufferSize)
  }

  /**
   How a log falls into memtables: its records in order, every memtable closed with the
   first record that makes it full, the last one by the end of the log.
   */
  ghost predicate CutWhenFull(log: seq<Record>, cuts: seq<seq<Record>>, usage: seq<Entry> -> nat, writeBufferSize: nat) {
    && Joined(cuts) == log
    && (forall c :: c in cuts ==> FullLast(c, usage, writeBufferSize))
    && forall j :: 0 <= j < |cuts| - 1 ==> IsFull(cuts[j], usage, writeBufferSize)
  }

  // The same, with the memtable that is open.
  ghost predicate CutSoFar(log: seq<Record>, cuts: seq<seq<Record>>, open: seq<Record>, usage: seq<Entry> -> nat, writeBufferSize: nat) {
    && Joined(cuts) + open == log
    && (forall c :: c in cuts ==> FullLast(c, usage, writeBufferSize) && IsFull(c, usage, writeBufferSize))
    && (open != [] ==> FullLast(open, usage, writeBufferSize) && !IsFull(open, usage, writeBufferSize))
  }

  lemma {:induction false} NothingCut(usage: seq<Entry> -> nat, writeBufferSize: nat)
    ensures CutSoFar([], [], [], usage, writeBufferSize)
  {
  }

  lemma {:induction false} OneMoreRecord(log: seq<Record>, cuts: seq<seq<Record>>, open: seq<Record>, record: Record,
                                         usage: seq<Entry> -> nat, writeBufferSize: nat)
    requires CutSoFar(log, cuts, open, usage, writeBufferSize)
    ensures if IsFull(open + [record], usage, writeBufferSize)
            then CutSoFar(log + [record], cuts + [open + [record]], [], usage, writeBufferSize)
            else CutSoFar(log + [record], cuts, open + [record], usage, writeBufferSize)
  {
    hide IsFull, Joined, FullLast;
    var more := open + [record];
    assert Joined(cuts) + more == log + [record];
    FullWithOne(open, record, usage, writeBufferSize);
    if IsFull(more, usage, writeBufferSize) {
      JoinedWithOne(cuts, more);
      assert Joined(cuts + [more]) + [] == log + [record];
    }
  }

  lemma {:induction false} FullWithOne(open: seq<Record>, record: Record, usage: seq<Entry> -> nat, writeBufferSize: nat)
    requires open != [] ==> FullLast(open, usage, writeBufferSize) && !IsFull(open, usage, writeBufferSize)
    ensures FullLast(open + [record], usage, writeBufferSize)
  {
    hide IsFull;
    var more := open + [record];
    forall m | 0 < m < |more|
      ensures !IsFull(more[..m], usage, writeBufferSize)
    {
      assert more[..m] == open[..m];
      assert open[..|open|] == open;
    }
  }

  lemma {:induction false} EndOfLog(log: seq<Record>, cuts: seq<seq<Record>>, open: seq<Record>, usage: seq<Entry> -> nat, writeBufferSize: nat)
    requires CutSoFar(log, cuts, open, usage, writeBufferSize)
    ensures CutWhenFull(log, if open == [] then cuts else cuts + [open], usage, writeBufferSize)
  {
    hide IsFull, FullLast, Joined;
    var all := if open == [] then cuts else cuts + [open];
    JoinedWithOne(cuts, open);
    assert open == [] ==> Joined(cuts) + open == Joined(cuts);
    forall c | c in all
      ensures FullLast(c, usage, writeBufferSize)
    {
      assert c in cuts || (open != [] && c == open);
    }
    forall j | 0 <= j < |all| - 1
      ensures IsFull(all[j], usage, writeBufferSize)
    {
      assert all[j] == cuts[j] && cuts[j] in cuts;
    }
  }

  lemma {:induction false} JoinedWithOne<T>(parts: seq<seq<T>>, part: seq<T>)
    ensures Joined(parts + [part]) == Joined(parts) + part
  {
    assert (parts + [part])[..|parts|] == parts;
  }

  lemma {:induction false} OneMoreTableFor(cuts: seq<seq<Record>>, cut: seq<Record>, first: nat, sizeOf: seq<Entry> -> nat)
    ensures TablesFor(cuts + [cut], first, sizeOf) == TablesFor(cuts, first, sizeOf) + TableFor(Flatten(cut), first + |cuts|, sizeOf)
  {
    hide TableFor;
    assert (cuts + [cut])[..|cuts|] == cuts;
  }

  method FlushChunk(mem: MemTable, files: seq<FileMetaData>, ghost first: nat, next: nat, sizeOf: seq<Entry> -> nat,
                    ghost done: seq<Entry>, ghost chunk: seq<Entry>)
    returns (files': seq<FileMetaData>)
    requires mem.Valid() && mem.Entries() == Contents(chunk) && mem.table == TableOf(chunk)
    requires TablesFrom(files, first, next, done) && Increasing(done + chunk)
    ensures TablesFrom(files', first, next + 1, done + chunk)
    ensures files' == files + TableFor(chunk, next, sizeOf)
  {
    hide TablesFrom, SortedTable, TableOf;
    var f := WriteLevel0Table(mem, next, sizeOf);
    if f.Some? {
      files' := files + [f.value];
      OneMoreTable(files, first, next, done, f.value, chunk);
    } else {
      files' := files;
      SomeContents(chunk);
      assert done + chunk == done;
      LaterNumber(files, first, next, done, next + 1);
    }
  }

  // The largest sequence number seen, if it is beyond the one known before.
  ghost predicate MaxSequence(known: SequenceNumber, entries: seq<Entry>, last: SequenceNumber) {
    && known <= last && UpTo(Contents(entries), last)
    && (last == known || exists e :: e in entries && e.key.sequence == last)
  }

  lemma {:induction false} MaxOfRecord(known: SequenceNumber, entries: seq<Entry>, last: SequenceNumber, record: Record)
    requires MaxSequence(known, entries, last) && Increasing(record)
    ensures record == [] ==> MaxSequence(known, entries + record, last)
    ensures record != [] ==>
              MaxSequence(known, entries + record, if record[|record| - 1].key.sequence > last then record[|record| - 1].key.sequence else last)
  {
    assert record == [] ==> entries + record == entries;
    if record != [] {
      var e := record[|record| - 1];
      assert e in entries + record;
      forall o | o in record
        ensures o.key.sequence <= e.key.sequence
      {
      }
    }
  }

  lemma {:induction false} SuffixIncreases(a: seq<Entry>, b: seq<Entry>)
    requires Increasing(a + b)
    ensures Increasing(b)
  {
    assert forall i :: 0 <= i < |b| ==> (a + b)[|a| + i] == b[i];
  }

  // The prefix of a log up to one record more.
  lemma {:induction false} NextRecord(log: seq<Record>, i: nat)
    requires i < |log|
    ensures Flatten(log[..i + 1]) == Flatten(log[..i]) + log[i]
    ensures Flatten(log[..i + 1]) <= Flatten(log)
  {
    assert log[..i + 1][..i] == log[..i];
    if i + 1 == |log| {
      assert log[..i + 1] == log;
    } else {
      var n := |log| - 1;
      NextRecord(log[..n], i);
      assert log[..n][..i + 1] == log[..i + 1];
    }
  }

  /**
   RecoverLogFile.  `usage` is the memory a memtable takes; the entries read before this
   log are in the tables already.  `cuts` says which records each new table is of.
   */
  method RecoverLogFile(log: seq<Record>, files: seq<FileMetaData>, ghost first: nat, next: nat, ghost before: seq<Entry>,
                        known: SequenceNumber, ghost start: SequenceNumber,
                        usage: seq<Entry> -> nat, writeBufferSize: nat, sizeOf: seq<Entry> -> nat)
    returns (files': seq<FileMetaData>, next': nat, last: SequenceNumber, ghost cuts: seq<seq<Record>>)
    requires TablesFrom(files, first, next, before) && Increasing(before + Flatten(log))
    requires MaxSequence(start, before, known)
    ensures TablesFrom(files', first, next', before + Flatten(log)) && next <= next'
    ensures MaxSequence(start, before + Flatten(log), last)
    ensures CutWhenFull(log, cuts, usage, writeBufferSize)
    ensures files' == files + TablesFor(cuts, next, sizeOf) && next' == next + |cuts|
  {
    hide TablesFrom, Increasing, MaxSequence, FileMetaData.Valid, SortedTable, Flatten, TableOf, TableFor, TablesFor, CutSoFar, CutWhenFull;
    files', next', last, cuts := files, next, known, [];
    var mem: MemTable? := null;
    ghost var done := before;
    // The records of the open memtable.
    ghost var open: seq<Record> := [];
    assert before + [] == before && log[..0] == [];
    FlattenNothing();
    NothingCut(usage, writeBufferSize);
    NoTablesFor(next, sizeOf);
    for i := 0 to |log|
      invariant done + Flatten(open) == before + Flatten(log[..i])
      invariant TablesFrom(files', first, next', done)
      invariant mem == null <==> open == []
      invariant mem != null ==> fresh(mem) && mem.Valid() && mem.Entries() == Contents(Flatten(open)) && mem.table == TableOf(Flatten(open))
      invariant MaxSequence(start, before + Flatten(log[..i]), last)
      invariant CutSoFar(log[..i], cuts, open, usage, writeBufferSize)
      invariant files' == files + TablesFor(cuts, next, sizeOf) && next' == next + |cuts|
    {
      var record := log[i];
      RecordInOrder(log, i, before, done, Flatten(open));
      if mem == null {
        mem := new MemTable();
        NoTable();
      }
      InsertInto(record, mem, Flatten(open));
      LastRecord(open, record);
      assert log[..i + 1] == log[..i] + [record];
      OneMoreRecord(log[..i], cuts, open, record, usage, writeBufferSize);
      open := open + [record];
      MaxOfRecord(start, before + Flatten(log[..i]), last, record);
      assert before + Flatten(log[..i + 1]) == (before + Flatten(log[..i])) + record;
      assert record == [] ==> (before + Flatten(log[..i])) + record == before + Flatten(log[..i]);
      if record != [] && record[|record| - 1].key.sequence > last {
        last := record[|record| - 1].key.sequence;
      }
      if usage(mem.table) > writeBufferSize {
        files' := FlushChunk(mem, files', first, next', sizeOf, done, Flatten(open));
        OneMoreTableFor(cuts, open, next, sizeOf);
        next' := next' + 1;
        mem := null;
        cuts, done, open := cuts + [open], done + Flatten(open), [];
        assert done + [] == done;
      }
    }
    assert log[..|log|] == log;
    EndOfLog(log, cuts, open, usage, writeBufferSize);
    if mem != null {
      files' := FlushChunk(mem, files', first, next', sizeOf, done, Flatten(open));
      OneMoreTableFor(cuts, open, next, sizeOf);
      next' := next' + 1;
      cuts := cuts + [open];
    } else {
      assert done + [] == done;
    }
  }

  lemma {:induction false} NoTablesFor(next: nat, sizeOf: seq<Entry> -> nat)
    ensures TablesFor([], next, sizeOf) == []
  {
  }

  lemma {:induction false} NoTable()
    ensures TableOf([]) == []
  {
  }

  lemma {:induction false} LastRecord(open: seq<Record>, record: Record)
    ensures Flatten(open + [record]) == Flatten(open) + record
  {
    assert (open + [record])[..|open|] == open;
  }

  // The next record goes on with increasing sequence numbers.
  lemma {:induction false} RecordInOrder(log: seq<Record>, i: nat, before: seq<Entry>, done: seq<Entry>, chunk: seq<Entry>)
    requires i < |log| && done + chunk == before + Flatten(log[..i]) && Increasing(before + Flatten(log))
    ensures Increasing(done + (chunk + log[i])) && Increasing(chunk + log[i]) && Increasing(log[i])
    ensures before + Flatten(log[..i + 1]) == done + (chunk + log[i])
    ensures Flatten(log[..i + 1]) == Flatten(log[..i]) + log[i]
  {
    hide Increasing, Flatten;
    var record := log[i];
    NextRecord(log, i);
    var rest := Flatten(log)[|Flatten(log[..i + 1])|..];
    assert Flatten(log) == Flatten(log[..i + 1]) + rest;
    assert done + (chunk + record) == (done + chunk) + record;
    assert before + Flatten(log[..i + 1]) == (before + Flatten(log[..i])) + record;
    assert before + Flatten(log) == (before + Flatten(log[..i + 1])) + rest;
    assert before + Flatten(log) == (done + (chunk + record)) + rest;
    PrefixIncreases(done + (chunk + record), rest);
    SuffixIncreases(done, chunk + record);
    SuffixIncreases(chunk, record);
  }

  lemma {:induction false} FlattenNothing()
    ensures Flatten([]) == [] && FlattenLogs([]) == []
  {
  }

  lemma {:induction false} NextLog(logs: seq<seq<Record>>, i: nat)
    requires i < |logs|
    ensures FlattenLogs(logs[..i + 1]) == FlattenLogs(logs[..i]) + Flatten(logs[i])
    ensures FlattenLogs(logs[..i + 1]) <= FlattenLogs(logs)
  {
    assert logs[..i + 1][..i] == logs[..i];
    if i + 1 == |logs| {
      assert logs[..i + 1] == logs;
    } else {
      var n := |logs| - 1;
      NextLog(logs[..n], i);
      assert logs[..n][..i + 1] == logs[..i + 1];
    }
  }

  /**
   The log replay of DBImpl::Recover, over the logs that the manifest does not cover, in
   order: the tables are what RecoveryTables asks for, they hold exactly the logged
   entries, and the last sequence number is the largest known one.
   */
  method RecoverLogs(v: Version, logs: seq<seq<Record>>, first: nat, known: SequenceNumber,
                     usage: seq<Entry> -> nat, writeBufferSize: nat, sizeOf: seq<Entry> -> nat)
    returns (files: seq<FileMetaData>, next: nat, last: SequenceNumber)
    requires Increasing(FlattenLogs(logs)) && Older(AllEntries(v), Contents(FlattenLogs(logs)))
    ensures RecoveryTables(v, first, files, next)
    ensures Contents(Concat(files)) == Contents(FlattenLogs(logs))
    ensures MaxSequence(known, FlattenLogs(logs), last)
    ensures exists cuts :: LogsCut(logs, cuts, usage, writeBufferSize)
                           && files == TablesFor(Joined(cuts), first, sizeOf) && next == first + |Joined(cuts)|
  {
    hide TablesFrom, Increasing, MaxSequence, FlattenLogs, Flatten, TablesFor, CutWhenFull;
    files, next, last := [], first, known;
    ghost var cuts: seq<seq<seq<Record>>> := [];
    NoTablesFor(first, sizeOf);
    NoTables(first);
    assert logs[..0] == [];
    FlattenNothing();
    NothingKnown(known);
    for i := 0 to |logs|
      invariant TablesFrom(files, first, next, FlattenLogs(logs[..i]))
      invariant MaxSequence(known, FlattenLogs(logs[..i]), last)
      invariant LogsCut(logs[..i], cuts, usage, writeBufferSize)
      invariant files == TablesFor(Joined(cuts), first, sizeOf) && next == first + |Joined(cuts)|
    {
      NextLog(logs, i);
      ghost var rest := FlattenLogs(logs)[|FlattenLogs(logs[..i + 1])|..];
      assert FlattenLogs(logs) == FlattenLogs(logs[..i + 1]) + rest;
      PrefixIncreases(FlattenLogs(logs[..i + 1]), rest);
      ghost var more;
      files, next, last, more := RecoverLogFile(logs[i], files, first, next, FlattenLogs(logs[..i]), last, known, usage, writeBufferSize, sizeOf);
      TablesInParts(Joined(cuts), more, first, sizeOf);
      JoinedWithOne(cuts, more);
      cuts := cuts + [more];
    }
    assert logs[..|logs|] == logs;
    TablesAreUsable(v, files, first, next, FlattenLogs(logs));
  }

  // Every log falls into memtables of its own.
  ghost predicate LogsCut(logs: seq<seq<Record>>, cuts: seq<seq<seq<Record>>>, usage: seq<Entry> -> nat, writeBufferSize: nat) {
    |cuts| == |logs| && forall k :: 0 <= k < |logs| ==> CutWhenFull(logs[k], cuts[k], usage, writeBufferSize)
  }

  lemma {:induction false} TablesInParts(a: seq<seq<Record>>, b: seq<seq<Record>>, first: nat, sizeOf: seq<Entry> -> nat)
    ensures TablesFor(a + b, first, sizeOf) == TablesFor(a, first, sizeOf) + TablesFor(b, first + |a|, sizeOf)
  {
    hide TableFor;
    if b == [] {
      assert a + b == a;
    } else {
      var n := |b| - 1;
      TablesInParts(a, b[..n], first, sizeOf);
      assert (a + b)[..|a| + n] == a + b[..n];
    }
  }

  lemma {:induction false} NothingKnown(known: SequenceNumber)
    ensures MaxSequence(known, [], known)
  {
  }

  lemma {:induction false} TablesAreUsable(v: Version, files: seq<FileMetaData>, first: nat, next: nat, entries: seq<Entry>)
    requires TablesFrom(files, first, next, entries) && Older(AllEntries(v), Contents(entries))
    ensures RecoveryTables(v, first, files, next) && Contents(Concat(files)) == Contents(entries)
  {
    hide FileMetaData.Valid, AllPlaced, AllEntries;
    ConcatMembers(files);
    forall i, p | 0 <= i < |files| && p in AllPlaced(v)
      ensures NewerThan(files[i].table, p.1.table)
    {
      forall e, o | e in files[i].table && o in p.1.table
        ensures o.key.sequence < e.key.sequence
      {
        assert e in Contents(Concat(files));
        assert o in AllEntries(v) by { EntryIsPlaced(v, p, o); }
      }
    }
  }

  lemma {:induction false} EntryIsPlaced(v: Version, p: Placed, e: Entry)
    requires p in AllPlaced(v) && e in p.1.table
    ensures e in AllEntries(v)
  {
    EntriesByPlace(v);
  }
}
