/**
 From the bytes of a log to the batches that recovery replays (db/db_impl.cc:
 RecoverLogFile), and what a crash in the midst of an append leaves of them.
 */
module LogReplay {
  import opened Wrappers
  import opened DbFormat
  import opened Coding
  import opened Views
  import opened MergeRules
  import opened StoreState
  import opened StoreSteps
  import R = Recovery
  import Logs = LogFormat
  import W = WriteBatches

  // ----- batches and their entries -----

  datatype Batch = Batch(sequence: Long, ops: seq<W.Op>)
  {
    // The numbers of its operations are sequence numbers.
    predicate Numbered() {
      sequence + |ops| <= MAX_SEQUENCE_NUMBER
    }
  }

  function EntryOf(sequence: SequenceNumber, op: W.Op): Entry {
    match op
    case Put(key, value) => Entry(InternalKey(Rank(key), sequence, Value), value)
    case Delete(key) => Entry(InternalKey(Rank(key), sequence, Deletion), [])
  }

  // InsertInto: consecutive numbers, from that of the batch on.
  function EntriesOf(b: Batch): (r: seq<Entry>)
    requires b.Numbered()
    ensures |r| == |b.ops|
    ensures forall i :: 0 <= i < |r| ==> r[i] == EntryOf(b.sequence + i, b.ops[i])
  {
    seq(|b.ops|, i requires 0 <= i < |b.ops| => EntryOf(b.sequence + i, b.ops[i]))
  }

  predicate AllNumbered(batches: seq<Batch>) {
    forall i :: 0 <= i < |batches| ==> batches[i].Numbered()
  }

  // What recovery replays, record by record.
  function RecordsOf(batches: seq<Batch>): (r: seq<R.Record>)
    requires AllNumbered(batches)
    ensures |r| == |batches| && forall i :: 0 <= i < |r| ==> r[i] == EntriesOf(batches[i])
  {
    seq(|batches|, i requires 0 <= i < |batches| => EntriesOf(batches[i]))
  }

  function AllEntriesOf(batches: seq<Batch>): seq<Entry>
    requires AllNumbered(batches)
  {
    R.Flatten(RecordsOf(batches))
  }

  lemma {:induction false} LastEntries(batches: seq<Batch>)
    requires AllNumbered(batches) && batches != []
    ensures AllEntriesOf(batches) == AllEntriesOf(batches[..|batches| - 1]) + EntriesOf(batches[|batches| - 1])
  {
    var n := |batches| - 1;
    assert RecordsOf(batches)[..n] == RecordsOf(batches[..n]);
  }

  // ----- reading -----

  // What one record holds for the replay; too short a record holds nothing.
  function BatchIn(record: Bytes): Option<Batch> {
    if |record| < W.HEADER_SIZE then None else Some(Batch(W.SequenceOf(record), W.Iterated(record).0))
  }

  function BatchesIn(records: seq<Bytes>): seq<Batch> {
    if records == [] then []
    else
      var n := |records| - 1;
      BatchesIn(records[..n]) + match BatchIn(records[n]) case None => [] case Some(b) => [b]
  }

  predicate Sane(record: Bytes) {
    |record| >= W.HEADER_SIZE && W.Iterated(record).1
  }

  /**
   The reading part of RecoverLogFile, on any file.  Without paranoid checks every error is
   passed over and every record is replayed; with them the first error ends the replay, be it
   of a record or reported of the file, and there is none exactly if all is well.
   */
  method ReadBatches(checksum: Logs.Checksum, file: Bytes, paranoid: bool, ghost w: Logs.Written)
    returns (batches: seq<Batch>, ok: bool, ghost records: seq<Bytes>)
    ensures Logs.Holds(checksum, true, file, 0, records) && batches == BatchesIn(records)
    ensures !paranoid ==> ok && records == Logs.AllRecords(checksum, true, file, 0)
    ensures paranoid ==>
              (ok <==> AllSane(Logs.AllRecords(checksum, true, file, 0)) && !Logs.Reported(checksum, true, file, 0))
    ensures paranoid ==> UpToFirstError(Logs.CleanRecords(checksum, true, file, 0), records)
    ensures paranoid && ok ==> records == Logs.AllRecords(checksum, true, file, 0) && Logs.Intact(checksum, true, file, 0)
    ensures Logs.WrittenAs(checksum, w, file) && AllSane(w.records)
            ==> ok && records == w.records[..Logs.WholeRecords(checksum, w, file, 0)]
  {
    hide Logs.Layout, Logs.Fits, Logs.ReadUpTo, Logs.InBlock, Logs.RecordWhole, Logs.Written.Valid, Logs.RecordsIn, Logs.WrittenAs, AllSane,
      BatchesIn, FirstOnes, Sane, Logs.Holds, Logs.AllRecords, Logs.CleanRecords, Logs.Reported, Logs.Intact, Logs.ReadSoFar, UpToFirstError,
      Logs.Gather, Logs.Reader.Ok;
    Logs.StartsReading(checksum, true, file);
    var reader := new Logs.Reader(checksum, file, true);
    ghost var known := Logs.WrittenAs(checksum, w, file) && AllSane(w.records);
    Logs.PositionInFile(reader);
    if known {
      Logs.OpenedAtStart(checksum, w, file, reader);
    }
    batches, ok, records := [], true, [];
    NothingReplayed(checksum, w, file);
    while true
      invariant fresh(reader) && reader.checksum == checksum && reader.file == file && reader.verify
      invariant reader.Ok() && |reader.buffer| <= reader.end <= |file|
      invariant Logs.RecordsIn(checksum, true, file, 0, reader.Pos(), records)
      invariant known ==> reader.reports == 0 && reader.AtRecord(w, |records|) && FirstOnes(checksum, w, file, records)
      invariant batches == BatchesIn(records) && ok && (paranoid ==> AllSane(records))
      invariant Logs.AllRecords(checksum, true, file, 0) == records + Logs.AllRecords(checksum, true, file, reader.Pos())
      invariant paranoid ==> reader.reports == 0 && Logs.ReadSoFar(checksum, true, file, records, reader.Pos())
      decreases |file| - reader.end + |reader.buffer|
    {
      Logs.PositionInFile(reader);
      ghost var mid := reader.Pos();
      Logs.HeldSoFar(checksum, file, mid, records);
      Logs.ReadsOn(checksum, true, file, records, mid);
      if paranoid {
        ReplaysOn(checksum, file, records, mid);
      }
      var more, record := reader.ReadRecord(w, |records|);
      Logs.PositionInFile(reader);
      if paranoid && reader.reports != 0 {
        return batches, false, records;
      }
      if !more {
        if known {
          AllRead(checksum, w, file, records);
        }
        return;
      }
      if known {
        OneMoreOfThem(checksum, w, file, records, record);
      }
      Logs.OneMoreHeld(checksum, true, file, 0, mid, reader.Pos(), records, record);
      Logs.HeldSoFar(checksum, file, reader.Pos(), records + [record]);
      OneMoreSane(records, record);
      var found, fine := ReadBatch(record);
      OneMoreBatch(records, record);
      records := records + [record];
      batches := batches + found;
      if paranoid && !fine {
        StopsAtError(checksum, file, records, reader.Pos());
        return batches, false, records;
      }
    }
  }

  // What is replayed up to the first error: clean records, of which only the last one may
  // have something wrong with it.
  predicate UpToFirstError(clean: seq<Bytes>, read: seq<Bytes>) {
    && read <= clean && (read != [] ==> AllSane(read[..|read| - 1]))
    && (|read| < |clean| ==> read != [] && !Sane(read[|read| - 1]))
  }

  // The next call, with paranoid checks.
  lemma {:induction false} ReplaysOn(checksum: Logs.Checksum, file: Bytes, records: seq<Bytes>, pos: nat)
    requires Logs.ReadSoFar(checksum, true, file, records, pos) && AllSane(records)
    ensures var call := Logs.NextRecord(checksum, true, file, pos);
      if call.reports > 0 then Logs.Reported(checksum, true, file, 0) && UpToFirstError(Logs.CleanRecords(checksum, true, file, 0), records)
      else if call.NoRecord? then
        && !Logs.Reported(checksum, true, file, 0) && Logs.Intact(checksum, true, file, 0)
        && records == Logs.AllRecords(checksum, true, file, 0) && UpToFirstError(Logs.CleanRecords(checksum, true, file, 0), records)
      else Logs.ReadSoFar(checksum, true, file, records + [call.record], call.next)
  {
    hide Logs.Gather, Sane, Logs.AllRecords, Logs.CleanRecords, Logs.Reported, Logs.ReadSoFar, Logs.Intact;
    Logs.ReadsOnCleanly(checksum, true, file, records, pos);
    if Logs.NextRecord(checksum, true, file, pos) == Logs.NoRecord(0) {
      Logs.UnreportedIsIntact(checksum, true, file, 0);
    }
  }

  lemma {:induction false} StopsAtError(checksum: Logs.Checksum, file: Bytes, records: seq<Bytes>, pos: nat)
    requires Logs.ReadSoFar(checksum, true, file, records, pos) && records != []
    requires AllSane(records[..|records| - 1]) && !Sane(records[|records| - 1])
    requires Logs.AllRecords(checksum, true, file, 0) == records + Logs.AllRecords(checksum, true, file, pos)
    ensures UpToFirstError(Logs.CleanRecords(checksum, true, file, 0), records)
    ensures !AllSane(Logs.AllRecords(checksum, true, file, 0))
  {
    hide Logs.Gather, Sane, Logs.AllRecords, Logs.CleanRecords, Logs.Reported;
    var all := Logs.AllRecords(checksum, true, file, 0);
    assert all[|records| - 1] == records[|records| - 1];
  }

  // SetContents and InsertInto, if the record is long enough.
  method ReadBatch(record: Bytes) returns (found: seq<Batch>, fine: bool)
    ensures found == match BatchIn(record) case None => [] case Some(b) => [b]
    ensures fine == Sane(record)
  {
    hide W.Iterated, W.SequenceOf;
    if |record| < W.HEADER_SIZE {
      return [], false;
    }
    var batch := new W.WriteBatch();
    batch.SetContents(record);
    var ops, status := batch.Iterate();
    return [Batch(W.SequenceOf(record), ops)], status;
  }

  predicate AllSane(records: seq<Bytes>) {
    forall i :: 0 <= i < |records| ==> Sane(records[i])
  }

  lemma {:induction false} OneMoreSane(records: seq<Bytes>, record: Bytes)
    ensures AllSane(records) && Sane(record) ==> AllSane(records + [record])
    ensures (records + [record])[..|records|] == records && (records + [record])[|records|] == record
  {
    hide Sane;
  }

  lemma {:induction false} OneMoreBatch(records: seq<Bytes>, record: Bytes)
    ensures BatchesIn(records + [record]) == BatchesIn(records) + match BatchIn(record) case None => [] case Some(b) => [b]
  {
    assert (records + [record])[..|records|] == records;
  }

  // The records are the first ones of the log, and whole.
  ghost predicate FirstOnes(checksum: Logs.Checksum, w: Logs.Written, file: Bytes, records: seq<Bytes>) {
    Logs.Seen(checksum, w, file, records) && AllSane(w.records)
  }

  lemma {:induction false} NothingReplayed(checksum: Logs.Checksum, w: Logs.Written, file: Bytes)
    ensures Logs.RecordsIn(checksum, true, file, 0, 0, []) && BatchesIn([]) == [] && AllSane([])
    ensures AllSane(w.records) ==> FirstOnes(checksum, w, file, [])
  {
    hide Sane;
    assert w.records[..0] == [];
  }

  lemma {:induction false} AllRead(checksum: Logs.Checksum, w: Logs.Written, file: Bytes, records: seq<Bytes>)
    requires FirstOnes(checksum, w, file, records) && !Logs.RecordWhole(checksum, w, |records|, file)
    ensures records == w.records[..Logs.WholeRecords(checksum, w, file, 0)]
  {
    hide Logs.Seen, Sane;
    Logs.AllSeen(checksum, w, file, records);
  }

  lemma {:induction false} OneMoreOfThem(checksum: Logs.Checksum, w: Logs.Written, file: Bytes, records: seq<Bytes>, record: Bytes)
    requires FirstOnes(checksum, w, file, records) && Logs.RecordWhole(checksum, w, |records|, file)
    requires |records| < |w.records| ==> record == w.records[|records|]
    ensures FirstOnes(checksum, w, file, records + [record]) && Sane(record)
  {
    hide Logs.Seen, Logs.RecordWhole, Sane;
    Logs.WholeIsThere(checksum, w, |records|, file);
    Logs.OneMoreSeen(checksum, w, file, records, record);
  }

  // ----- what a crash leaves -----

  // The records of the log are the batches.
  ghost predicate Logged(w: Logs.Written, batches: seq<Batch>) {
    && |w.records| == |batches|
    && forall i :: 0 <= i < |batches| ==> W.SmallOps(batches[i].ops) && w.records[i] == W.Image(batches[i].sequence, batches[i].ops)
  }

  lemma {:induction false} LoggedIsRead(w: Logs.Written, batches: seq<Batch>, n: nat)
    requires Logged(w, batches) && n <= |batches|
    ensures BatchesIn(w.records[..n]) == batches[..n]
    ensures forall i :: 0 <= i < |w.records| ==> Sane(w.records[i])
  {
    hide W.Image, W.Iterated, W.SequenceOf, W.SmallOps;
    forall i | 0 <= i < |w.records|
      ensures Sane(w.records[i]) && BatchIn(w.records[i]) == Some(batches[i])
    {
      W.BatchRoundTrip(batches[i].sequence, batches[i].ops);
    }
    if n > 0 {
      LoggedIsRead(w, batches, n - 1);
      assert w.records[..n][..n - 1] == w.records[..n - 1];
      assert batches[..n] == batches[..n - 1] + [batches[n - 1]];
    }
  }

  // What was in the file when the first `k` records were acknowledged.
  ghost predicate Reaches(checksum: Logs.Checksum, w: Logs.Written, k: nat, file: Bytes) {
    && Logs.WrittenAs(checksum, w, file)
    && k <= |w.records| && w.Start(k) <= |w.fragments| && Logs.Fits(w.fragments[..w.Start(k)])
    && |Logs.Layout(checksum, w.fragments[..w.Start(k)])| <= |file|
  }

  // The acknowledged records are there in full.
  lemma {:induction false} AcknowledgedAreWhole(checksum: Logs.Checksum, w: Logs.Written, k: nat, file: Bytes)
    requires Reaches(checksum, w, k, file)
    ensures k <= Logs.WholeRecords(checksum, w, file, 0)
  {
    hide Logs.Layout, Logs.Fits;
    forall i | 0 <= i < k
      ensures Logs.RecordWhole(checksum, w, i, file)
    {
      EarlierIsShorter(checksum, w, i, k);
    }
    Logs.StopsHere(checksum, w, file, 0, k);
  }

  lemma {:induction false} EarlierIsShorter(checksum: Logs.Checksum, w: Logs.Written, i: nat, k: nat)
    requires w.Valid() && i < k <= |w.records|
    ensures w.ends[i] <= w.Start(k) <= |w.fragments|
    ensures Logs.Fits(w.fragments[..w.ends[i]]) && Logs.Fits(w.fragments[..w.Start(k)])
    ensures |Logs.Layout(checksum, w.fragments[..w.ends[i]])| <= |Logs.Layout(checksum, w.fragments[..w.Start(k)])|
  {
    hide Logs.Layout, Logs.Fits, Logs.IsRecord;
    EndsGrow(w, i, k - 1);
    assert w.RecordAt(k - 1);
    Logs.PrefixFits(w.fragments, w.ends[i]);
    Logs.PrefixFits(w.fragments, w.ends[k - 1]);
    Logs.LongerLayout(checksum, w.fragments, w.ends[i], w.ends[k - 1]);
  }

  lemma {:induction false} EndsGrow(w: Logs.Written, i: nat, j: nat)
    requires w.Valid() && i <= j < |w.records|
    ensures w.ends[i] <= w.ends[j]
    decreases j
  {
    hide Logs.Fits, Logs.IsRecord;
    if i < j {
      EndsGrow(w, i, j - 1);
      assert w.RecordAt(j);
    }
  }

  /**
   A crash while the last batch is being appended leaves a log file cut anywhere behind the
   acknowledged batches.  Replayed, it gives all of these and the last batch either whole
   or not at all: what the crash step of the store says of its log.
   */
  lemma {:induction false} CutAppendIsCrash(checksum: Logs.Checksum, w: Logs.Written, batches: seq<Batch>, file: Bytes, s: Store, y: System)
    requires Logged(w, batches) && AllNumbered(batches) && batches != []
    requires Reaches(checksum, w, |batches| - 1, file)
    requires s.currentLog in s.disk.logs && s.disk.logs[s.currentLog] == AllEntriesOf(batches[..|batches| - 1])
    requires s.inFlight == EntriesOf(batches[|batches| - 1])
    requires Crash(s, Logs.WholeRecords(checksum, w, file, 0) == |batches|, y)
    ensures var n := Logs.WholeRecords(checksum, w, file, 0);
      && |batches| - 1 <= n <= |batches|
      && BatchesIn(w.records[..n]) == batches[..n]
      && y.Down? && y.disk.logs[s.currentLog] == AllEntriesOf(batches[..n])
  {
    hide Logs.WholeRecords, Reaches, Logged;
    AcknowledgedAreWhole(checksum, w, |batches| - 1, file);
    assert |w.records| == |batches| by { SameLength(w, batches); }
    var n := Logs.WholeRecords(checksum, w, file, 0);
    LoggedIsRead(w, batches, n);
    LastEntries(batches);
    if n == |batches| {
      assert batches[..n] == batches;
    }
  }

  lemma {:induction false} SameLength(w: Logs.Written, batches: seq<Batch>)
    requires Logged(w, batches)
    ensures |w.records| == |batches|
  {
  }
}
