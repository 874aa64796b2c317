/**
 Reading a manifest back, from its bytes (db/version_set.cc: VersionSet::Recover).  The
 log layer, the encoding of edits, the builder and the history of the store meet here.
 */
module Manifests {
  import opened Wrappers
  import opened DbFormat
  import opened Versions
  import opened VersionBuilder
  import opened ManifestReplay
  import opened LevelRules
  import History = ManifestHistory
  import Edits = VersionEdits
  import opened Coding
  import Logs = LogFormat
  import Damage = LogDamage

  type Content = Edits.Content
  type Field = Edits.Field

  const FRESH_EDIT := Edits.Content(None, None, None, None, None, [], [], [])

  // What an encoded key stands for, and what the table file of a number holds.
  datatype Meaning = Meaning(key: Bytes -> InternalKey, table: nat -> seq<Entry>)
  {
    function File(f: Field): FileMetaData
      requires f.NewFile?
    {
      FileMetaData(f.number, f.fileSize, key(f.smallest), key(f.largest), table(f.number))
    }

    function Files(fields: seq<Field>): (r: seq<(nat, FileMetaData)>)
      requires Edits.OnlyNewFiles(fields)
    {
      seq(|fields|, i requires 0 <= i < |fields| => assert fields[i] in fields; (fields[i].level, File(fields[i])))
    }

    function Edit(c: Content): FileEdit
      requires Edits.OnlyNewFiles(c.newFiles)
    {
      FileEdit(set p | p in c.deletedFiles :: (p.0, p.1), Files(c.newFiles))
    }
  }

  // ----- what decoding can give -----

  ghost predicate Placeable(c: Content) {
    && Edits.OnlyNewFiles(c.newFiles)
    && (forall f :: f in c.newFiles ==> f.NewFile? && f.level < NUM_LEVELS)
    && (forall p :: p in c.deletedFiles ==> p.0 < NUM_LEVELS)
  }

  ghost predicate LevelInRange(f: Field) {
    f.NewFile? || f.DeletedFile? ==> f.level < NUM_LEVELS
  }

  lemma {:induction false} InsertedMembers(files: seq<(nat, Long)>, f: (nat, Long))
    ensures forall p :: p in Edits.Insert(files, f) ==> p == f || p in files
  {
    if files != [] && f != files[0] && !Edits.Before(f, files[0]) {
      InsertedMembers(files[1..], f);
    }
  }

  lemma {:induction false} ApplyIsPlaceable(c: Content, f: Field)
    requires Placeable(c) && LevelInRange(f)
    ensures Placeable(Edits.Apply(c, f))
  {
    if f.DeletedFile? {
      InsertedMembers(c.deletedFiles, (f.level, f.number));
    }
  }

  lemma {:induction false} ParsedLevelInRange(tag: Word, b: Bytes)
    ensures var r := Edits.ParseBody(tag, b); r.Some? ==> LevelInRange(r.value.0)
  {
    hide ParseWord, ParseLong, GetLengthPrefixed;
  }

  lemma {:induction false} DecodedIsPlaceable(c: Content, input: Bytes)
    requires Placeable(c)
    ensures var r := Edits.Decode(c, input); r.Some? ==> Placeable(r.value)
    decreases |input|
  {
    hide ParseWord, Edits.ParseBody, Placeable, LevelInRange, Edits.Apply;
    var tag := ParseWord(input);
    if tag.Some? {
      ParsedLevelInRange(tag.value.0, input[tag.value.1..]);
      var field := Edits.ParseBody(tag.value.0, input[tag.value.1..]);
      if field.Some? {
        ApplyIsPlaceable(c, field.value.0);
        DecodedIsPlaceable(Edits.Apply(c, field.value.0), input[tag.value.1 + field.value.1..]);
      }
    }
  }

  function DecodeEdit(record: Bytes): (r: Option<Content>)
    ensures r.Some? ==> Placeable(r.value)
  {
    DecodedIsPlaceable(FRESH_EDIT, record);
    Edits.Decode(FRESH_EDIT, record)
  }

  lemma {:induction false} PlaceableEdit(m: Meaning, c: Content)
    requires Placeable(c)
    ensures ValidEdit(m.Edit(c))
    ensures forall p :: p in m.Edit(c).deleted ==> p.0 < NUM_LEVELS
  {
    forall i | 0 <= i < |c.newFiles|
      ensures m.Edit(c).added[i].0 < NUM_LEVELS
    {
      assert c.newFiles[i] in c.newFiles;
    }
  }

  // ----- the records, one after the other -----

  datatype Failure = BadFile | BadRecord | WrongComparator | NoNextFile | NoLogNumber | NoLastSequence

  datatype Restored = Restored(version: Version, logNumber: Long, prevLogNumber: Long, nextFileNumber: nat, lastSequence: Long)

  datatype Outcome = Recovered(restored: Restored) | Failed(why: Failure)

  datatype Progress =
    | Reading(levels: seq<LevelState>, logNumber: Option<Long>, prevLogNumber: Option<Long>, nextFile: Option<Long>, lastSequence: Option<Long>)
    | Stopped(why: Failure)

  function Start(): Progress {
    Reading(seq(NUM_LEVELS, i => NO_CHANGE), None, None, None, None)
  }

  function Later<T>(newer: Option<T>, older: Option<T>): Option<T> {
    if newer.Some? then newer else older
  }

  // The effect of one record; the first failure stays.
  function ReadOne(m: Meaning, name: Bytes, p: Progress, record: Bytes): (r: Progress)
    requires p.Reading? ==> |p.levels| == NUM_LEVELS
    ensures r.Reading? ==> |r.levels| == NUM_LEVELS
  {
    match p
    case Stopped(why) => p
    case Reading(levels, logNumber, prevLogNumber, nextFile, lastSequence) =>
      match DecodeEdit(record)
      case None => Stopped(BadRecord)
      case Some(c) =>
        if c.comparator.Some? && c.comparator.value != name then Stopped(WrongComparator)
        else
          Reading(seq(NUM_LEVELS, l requires 0 <= l < NUM_LEVELS => ApplyLevel(levels[l], l, m.Edit(c))),
                  Later(c.logNumber, logNumber), Later(c.prevLogNumber, prevLogNumber),
                  Later(c.nextFileNumber, nextFile), Later(c.lastSequence, lastSequence))
  }

  function ReadAllOf(m: Meaning, name: Bytes, records: seq<Bytes>): (r: Progress)
    ensures r.Reading? ==> |r.levels| == NUM_LEVELS
  {
    if records == [] then Start()
    else ReadOne(m, name, ReadAllOf(m, name, records[..|records| - 1]), records[|records| - 1])
  }

  // What the scan over all records comes to.
  function Finish(p: Progress): Outcome
    requires p.Reading? ==> |p.levels| == NUM_LEVELS
  {
    match p
    case Stopped(why) => Failed(why)
    case Reading(levels, logNumber, prevLogNumber, nextFile, lastSequence) =>
      if nextFile.None? then Failed(NoNextFile)
      else if logNumber.None? then Failed(NoLogNumber)
      else if lastSequence.None? then Failed(NoLastSequence)
      else
        var version := Version(seq(NUM_LEVELS, l requires 0 <= l < NUM_LEVELS => SaveLevel([], levels[l])));
        Recovered(Restored(version, logNumber.value, if prevLogNumber.Some? then prevLogNumber.value else 0,
                           nextFile.value + 1, lastSequence.value))
  }

  lemma {:induction false} FailureStays(m: Meaning, name: Bytes, records: seq<Bytes>, n: nat)
    requires n <= |records| && ReadAllOf(m, name, records[..n]).Stopped?
    ensures ReadAllOf(m, name, records) == ReadAllOf(m, name, records[..n])
  {
    if n < |records| {
      var init := records[..|records| - 1];
      assert init[..n] == records[..n];
      FailureStays(m, name, init, n);
    } else {
      assert records[..n] == records;
    }
  }

  // ----- the method -----

  const NO_FILES := Version([[], [], [], [], [], [], []])

  predicate InOrder(levels: seq<LevelState>) {
    forall l :: 0 <= l < |levels| ==> Ordered(levels[l].added)
  }

  lemma {:induction false} AddingStaysOrdered(files: Level, f: FileMetaData)
    requires Ordered(files)
    ensures Ordered(VersionBuilder.Insert(files, f))
    ensures forall g :: g in VersionBuilder.Insert(files, f) ==> g == f || g in files
  {
    if files != [] {
      OrderIsTotal(f, files[0], f);
      assert files == [files[0]] + files[1..];
      if BySmallestKey(f, files[0]) {
        forall j | 0 <= j < |files|
          ensures BySmallestKey(f, files[j])
        {
          OrderIsTotal(f, files[0], files[j]);
        }
      } else if BySmallestKey(files[0], f) {
        AddingStaysOrdered(files[1..], f);
        var r := VersionBuilder.Insert(files[1..], f);
        forall j | 0 <= j < |r|
          ensures BySmallestKey(files[0], r[j])
        {
          assert r[j] in r;
          if r[j] in files[1..] {
            var i :| 0 <= i < |files[1..]| && files[1..][i] == r[j];
            assert r[j] == files[i + 1];
          }
        }
      }
    }
  }

  lemma {:induction false} ApplyingStaysOrdered(s: LevelState, level: nat, added: seq<(nat, FileMetaData)>)
    requires Ordered(s.added)
    ensures Ordered(ApplyNew(s, level, added).added)
    decreases |added|
  {
    hide Ordered;
    if added != [] {
      if added[0].0 == level {
        AddingStaysOrdered(s.added, added[0].1);
        ApplyingStaysOrdered(LevelState(s.deleted - {added[0].1.number}, VersionBuilder.Insert(s.added, added[0].1)), level, added[1..]);
      } else {
        ApplyingStaysOrdered(s, level, added[1..]);
      }
    }
  }

  lemma {:induction false} AllStayOrdered(levels: seq<LevelState>, edit: FileEdit, after: seq<LevelState>)
    requires |levels| == |after| == NUM_LEVELS && InOrder(levels)
    requires forall l :: 0 <= l < NUM_LEVELS ==> after[l] == ApplyLevel(levels[l], l, edit)
    ensures InOrder(after)
  {
    hide Ordered;
    forall l | 0 <= l < NUM_LEVELS
      ensures Ordered(after[l].added)
    {
      ApplyingStaysOrdered(LevelState(levels[l].deleted + DeletedAt(edit.deleted, l), levels[l].added), l, edit.added);
    }
  }

  /**
   VersionSet::Recover, on any file: the first error decides, and a version is recovered only
   from a file in which nothing was dropped.  Of a manifest that was cut anywhere it reads
   the records that are there in full.
   */
  method Recover(m: Meaning, name: Bytes, checksum: Logs.Checksum, file: Bytes, ghost w: Logs.Written)
    returns (r: Outcome, ghost read: seq<Bytes>)
    ensures Logs.Holds(checksum, true, file, 0, read)
    ensures r == Verdict(m, name, checksum, file)
    ensures r.Recovered? ==>
              && Logs.Intact(checksum, true, file, 0)
              && read == Logs.AllRecords(checksum, true, file, 0) && r == Finish(ReadAllOf(m, name, read))
    ensures Logs.WrittenAs(checksum, w, file) ==>
              r == Finish(ReadAllOf(m, name, w.records[..Logs.WholeRecords(checksum, w, file, 0)]))
  {
    hide *;
    var reader := new Logs.Reader(checksum, file, true);
    ghost var known := Logs.WrittenAs(checksum, w, file);
    if known {
      Logs.OpenedAtStart(checksum, w, file, reader);
    }
    NoFilesAnywhere();
    var builder := new Builder(NO_FILES);
    var logNumber, prevLogNumber, nextFile, lastSequence: Option<Long> := None, None, None, None;
    read := [];
    NothingRead(m, name, checksum, w, file, builder.levels);
    Logs.NothingHeld(checksum, true, file, 0);
    Logs.StartsReading(checksum, true, file);
    while true
      invariant reader.verify && Logs.RecordsIn(checksum, true, file, 0, reader.Pos(), read)
      invariant fresh(reader) && fresh(builder) && reader.checksum == checksum && reader.file == file && builder.base == NO_FILES
      invariant reader.Ok() && (known ==> reader.reports == 0 && reader.AtRecord(w, |read|) && Logs.Seen(checksum, w, file, read))
      invariant |builder.levels| == NUM_LEVELS && InOrder(builder.levels)
      invariant ReadAllOf(m, name, read) == Reading(builder.levels, logNumber, prevLogNumber, nextFile, lastSequence)
      invariant reader.reports == 0 && Logs.ReadSoFar(checksum, true, file, read, reader.Pos())
      decreases |file| - reader.end + |reader.buffer|
    {
      Logs.PositionInFile(reader);
      ghost var mid := reader.Pos();
      Logs.HeldSoFar(checksum, file, mid, read);
      ReadsOn(m, name, checksum, file, read, mid);
      var ok, record := reader.ReadRecord(w, |read|);
      Logs.PositionInFile(reader);
      if reader.reports != 0 {
        return Failed(BadFile), read;
      }
      if !ok {
        if known {
          Logs.AllSeen(checksum, w, file, read);
        }
        break;
      }
      if known {
        Logs.OneMoreSeen(checksum, w, file, read, record);
      }
      ghost var before := ReadAllOf(m, name, read);
      OneMoreRead(m, name, read, record);
      Logs.OneMoreHeld(checksum, true, file, 0, mid, reader.Pos(), read, record);
      Logs.HeldSoFar(checksum, file, reader.Pos(), read + [record]);
      read := read + [record];
      var edit, status := DecodeRecord(name, record);
      if status.Some? {
        RecordStops(m, name, before, record);
        StopsReading(m, name, checksum, file, read, reader.Pos());
        if known {
          StopsEarly(m, name, checksum, w, file, read);
        }
        return Failed(status.value), read;
      }
      StatusIsPlaceable(name, record);
      PlaceableEdit(m, edit);
      ghost var levels := builder.levels;
      builder.Apply(m.Edit(edit));
      AllStayOrdered(levels, m.Edit(edit), builder.levels);
      RecordApplies(m, name, before, record, builder.levels);
      logNumber, prevLogNumber := Later(edit.logNumber, logNumber), Later(edit.prevLogNumber, prevLogNumber);
      nextFile, lastSequence := Later(edit.nextFileNumber, nextFile), Later(edit.lastSequence, lastSequence);
    }
    r := Conclude(builder, logNumber, prevLogNumber, nextFile, lastSequence);
  }

  // What a file comes to: the first failure, be it of a record or of the file; or what all
  // records come to.
  function Verdict(m: Meaning, name: Bytes, checksum: Logs.Checksum, file: Bytes): Outcome {
    var clean := ReadAllOf(m, name, Logs.CleanRecords(checksum, true, file, 0));
    if clean.Reading? && Logs.Reported(checksum, true, file, 0) then Failed(BadFile) else Finish(clean)
  }

  // The next call, and what the file comes to if it is the last one.
  lemma {:induction false} ReadsOn(m: Meaning, name: Bytes, checksum: Logs.Checksum, file: Bytes, read: seq<Bytes>, pos: nat)
    requires Logs.ReadSoFar(checksum, true, file, read, pos) && ReadAllOf(m, name, read).Reading?
    ensures match Logs.NextRecord(checksum, true, file, pos)
            case NoRecord(n) =>
              if n > 0 then Verdict(m, name, checksum, file) == Failed(BadFile)
              else
                && Verdict(m, name, checksum, file) == Finish(ReadAllOf(m, name, read))
                && Logs.Intact(checksum, true, file, 0) && read == Logs.AllRecords(checksum, true, file, 0)
            case Returns(n, record, next) =>
              if n > 0 then Verdict(m, name, checksum, file) == Failed(BadFile)
              else Logs.ReadSoFar(checksum, true, file, read + [record], next)
  {
    hide Logs.Gather, ReadAllOf, Finish, Logs.Intact, Logs.AllRecords, Logs.CleanRecords, Logs.Reported, Logs.ReadSoFar;
    Logs.ReadsOnCleanly(checksum, true, file, read, pos);
    if Logs.NextRecord(checksum, true, file, pos) == Logs.NoRecord(0) {
      Logs.UnreportedIsIntact(checksum, true, file, 0);
    }
  }

  lemma {:induction false} StopsReading(m: Meaning, name: Bytes, checksum: Logs.Checksum, file: Bytes, read: seq<Bytes>, pos: nat)
    requires Logs.ReadSoFar(checksum, true, file, read, pos) && ReadAllOf(m, name, read).Stopped?
    ensures Verdict(m, name, checksum, file) == Finish(ReadAllOf(m, name, read))
  {
    hide Logs.Reported, ReadAllOf, Logs.CleanRecords;
    var clean := Logs.CleanRecords(checksum, true, file, 0);
    assert clean[..|read|] == read;
    FailureStays(m, name, clean, |read|);
  }

  lemma {:induction false} ReadingBefore(m: Meaning, name: Bytes, records: seq<Bytes>, n: nat)
    requires n <= |records| && ReadAllOf(m, name, records).Reading?
    ensures ReadAllOf(m, name, records[..n]).Reading?
    decreases |records|
  {
    hide DecodeEdit, ApplyLevel;
    if n < |records| {
      var init := records[..|records| - 1];
      assert init[..n] == records[..n];
      ReadingBefore(m, name, init, n);
    } else {
      assert records[..n] == records;
    }
  }

  lemma {:induction false} NoFilesAnywhere()
    ensures |NO_FILES.files| == NUM_LEVELS
  {
  }

  lemma {:induction false} NothingRead(m: Meaning, name: Bytes, checksum: Logs.Checksum, w: Logs.Written, file: Bytes, levels: seq<LevelState>)
    requires levels == seq(NUM_LEVELS, i => NO_CHANGE)
    ensures InOrder(levels) && |levels| == NUM_LEVELS && Logs.Seen(checksum, w, file, [])
    ensures ReadAllOf(m, name, []) == Reading(levels, None, None, None, None)
  {
    assert w.records[..0] == [];
    assert Start().levels == levels;
  }

  lemma {:induction false} OneMoreRead(m: Meaning, name: Bytes, read: seq<Bytes>, record: Bytes)
    ensures ReadAllOf(m, name, read + [record]) == ReadOne(m, name, ReadAllOf(m, name, read), record)
  {
    assert (read + [record])[..|read|] == read;
  }

  lemma {:induction false} RecordStops(m: Meaning, name: Bytes, p: Progress, record: Bytes)
    requires p.Reading? && |p.levels| == NUM_LEVELS && DecodeStatus(name, record).1.Some?
    ensures ReadOne(m, name, p, record) == Stopped(DecodeStatus(name, record).1.value)
    ensures Finish(ReadOne(m, name, p, record)) == Failed(DecodeStatus(name, record).1.value)
  {
    hide Edits.Decode;
  }

  lemma {:induction false} StatusIsPlaceable(name: Bytes, record: Bytes)
    requires DecodeStatus(name, record).1.None?
    ensures Placeable(DecodeStatus(name, record).0)
    ensures Edits.OnlyNewFiles(DecodeStatus(name, record).0.newFiles)
  {
    hide Edits.Decode;
  }

  lemma {:induction false} RecordApplies(m: Meaning, name: Bytes, p: Progress, record: Bytes, levels: seq<LevelState>)
    requires p.Reading? && |p.levels| == |levels| == NUM_LEVELS
    requires var (c, status) := DecodeStatus(name, record);
             && status.None? && Edits.OnlyNewFiles(c.newFiles)
             && forall l :: 0 <= l < NUM_LEVELS ==> levels[l] == ApplyLevel(p.levels[l], l, m.Edit(c))
    ensures var c := DecodeStatus(name, record).0;
            ReadOne(m, name, p, record) ==
              Reading(levels, Later(c.logNumber, p.logNumber), Later(c.prevLogNumber, p.prevLogNumber),
                      Later(c.nextFileNumber, p.nextFile), Later(c.lastSequence, p.lastSequence))
  {
    hide Edits.Decode, ApplyLevel;
    var c := DecodeStatus(name, record).0;
    assert levels == seq(NUM_LEVELS, l requires 0 <= l < NUM_LEVELS => ApplyLevel(p.levels[l], l, m.Edit(c)));
  }

  lemma {:induction false} StopsEarly(m: Meaning, name: Bytes, checksum: Logs.Checksum, w: Logs.Written, file: Bytes, read: seq<Bytes>)
    requires Logs.Seen(checksum, w, file, read) && ReadAllOf(m, name, read).Stopped?
    ensures ReadAllOf(m, name, w.records[..Logs.WholeRecords(checksum, w, file, 0)]) == ReadAllOf(m, name, read)
  {
    hide Logs.RecordWhole, ReadAllOf;
    var n := Logs.WholeRecords(checksum, w, file, 0);
    Logs.StopsHere(checksum, w, file, 0, |read|);
    assert w.records[..n][..|read|] == read;
    FailureStays(m, name, w.records[..n], |read|);
  }

  function DecodeStatus(name: Bytes, record: Bytes): (r: (Content, Option<Failure>))
    ensures r.1.None? ==> Placeable(r.0)
  {
    match DecodeEdit(record)
    case None => (FRESH_EDIT, Some(BadRecord))
    case Some(c) => if c.comparator.Some? && c.comparator.value != name then (c, Some(WrongComparator)) else (c, None)
  }

  // One record, read into a fresh edit.
  method DecodeRecord(name: Bytes, record: Bytes) returns (c: Content, status: Option<Failure>)
    ensures status == DecodeStatus(name, record).1
    ensures status.None? ==> c == DecodeStatus(name, record).0
  {
    hide Edits.Decode;
    var edit := new Edits.VersionEdit();
    var ok := edit.DecodeFrom(record);
    c := edit.content;
    if !ok {
      return c, Some(BadRecord);
    }
    status := if c.comparator.Some? && c.comparator.value != name then Some(WrongComparator) else None;
  }

  // The checks after the last record, and the version that the builder saves.
  method Conclude(builder: Builder, logNumber: Option<Long>, prevLogNumber: Option<Long>, nextFile: Option<Long>, lastSequence: Option<Long>)
    returns (r: Outcome)
    requires builder.base == NO_FILES && |builder.levels| == NUM_LEVELS && InOrder(builder.levels)
    ensures r == Finish(Reading(builder.levels, logNumber, prevLogNumber, nextFile, lastSequence))
  {
    hide SaveLevel;
    if nextFile.None? {
      return Failed(NoNextFile);
    }
    if logNumber.None? {
      return Failed(NoLogNumber);
    }
    if lastSequence.None? {
      return Failed(NoLastSequence);
    }
    var version := builder.SaveTo();
    ghost var levels := builder.levels;
    assert version.files == seq(NUM_LEVELS, l requires 0 <= l < NUM_LEVELS => SaveLevel([], levels[l]));
    var prev: Long := if prevLogNumber.Some? then prevLogNumber.value else 0;
    r := Recovered(Restored(version, logNumber.value, prev, nextFile.value + 1, lastSequence.value));
  }

  // ----- what the store writes -----

  // The record is the encoding of an edit whose files are those of `edit`.
  ghost predicate Describes(m: Meaning, name: Bytes, c: Content, record: Bytes, edit: FileEdit) {
    && Edits.ValidContent(c) && Edits.OnlyNewFiles(c.newFiles)
    && record == Edits.Images(Edits.FieldsOf(c))
    && (c.comparator.Some? ==> c.comparator.value == name)
    && m.Edit(c) == edit
  }

  // LogAndApply fills in every number that the edit does not have.
  predicate Numbered(c: Content) {
    c.logNumber.Some? && c.prevLogNumber.Some? && c.nextFileNumber.Some? && c.lastSequence.Some?
  }

  // WriteSnapshot gives no numbers.
  predicate Unnumbered(c: Content) {
    c.logNumber.None? && c.prevLogNumber.None? && c.nextFileNumber.None? && c.lastSequence.None?
  }

  lemma {:induction false} DescribedIsRead(m: Meaning, name: Bytes, c: Content, record: Bytes, edit: FileEdit)
    requires Describes(m, name, c, record, edit)
    ensures DecodeStatus(name, record) == (c, None)
  {
    hide Edits.Decode, Edits.ValidContent, Edits.FieldsOf, Edits.Images;
    Edits.EditRoundTrip(FRESH_EDIT, c);
    assert Edits.Cleared(FRESH_EDIT) == FRESH_EDIT;
    assert FRESH_EDIT.compactPointers + c.compactPointers == c.compactPointers;
  }

  lemma {:induction false} ApplyAllLast(s: LevelState, l: nat, edits: seq<FileEdit>, edit: FileEdit)
    ensures ApplyAll(s, l, edits + [edit]) == ApplyLevel(ApplyAll(s, l, edits), l, edit)
    decreases |edits|
  {
    hide ApplyLevel;
    if edits == [] {
      assert edits + [edit] == [edit] && [edit][1..] == [];
    } else {
      assert (edits + [edit])[1..] == edits[1..] + [edit];
      ApplyAllLast(ApplyLevel(s, l, edits[0]), l, edits[1..], edit);
    }
  }

  ghost predicate AllDescribe(m: Meaning, name: Bytes, cs: seq<Content>, records: seq<Bytes>, edits: seq<FileEdit>) {
    && |cs| == |records| == |edits|
    && forall i :: 0 <= i < |cs| ==> Describes(m, name, cs[i], records[i], edits[i])
  }

  function LogNumberOf(c: Content): Option<Long> {
    c.logNumber
  }

  function PrevLogNumberOf(c: Content): Option<Long> {
    c.prevLogNumber
  }

  function NextFileOf(c: Content): Option<Long> {
    c.nextFileNumber
  }

  function LastSequenceOf(c: Content): Option<Long> {
    c.lastSequence
  }

  function LastOf(cs: seq<Content>, field: Content -> Option<Long>): Option<Long> {
    if cs == [] then None else Later(field(cs[|cs| - 1]), LastOf(cs[..|cs| - 1], field))
  }

  // Reading the records applies the edits in turn and keeps the last of each number.
  lemma {:induction false} RecordsReplay(m: Meaning, name: Bytes, cs: seq<Content>, records: seq<Bytes>, edits: seq<FileEdit>)
    requires AllDescribe(m, name, cs, records, edits)
    ensures var p := ReadAllOf(m, name, records);
      && p.Reading? && (forall l :: 0 <= l < NUM_LEVELS ==> p.levels[l] == ApplyAll(NO_CHANGE, l, edits))
      && p.logNumber == LastOf(cs, LogNumberOf) && p.prevLogNumber == LastOf(cs, PrevLogNumberOf)
      && p.nextFile == LastOf(cs, NextFileOf) && p.lastSequence == LastOf(cs, LastSequenceOf)
    decreases |cs|
  {
    hide Describes, ApplyLevel, ReadOne, DecodeStatus;
    var levels := seq(NUM_LEVELS, l requires 0 <= l < NUM_LEVELS => ApplyAll(NO_CHANGE, l, edits));
    if cs != [] {
      var n := |cs| - 1;
      var c, record, edit := cs[n], records[n], edits[n];
      var p := ReadAllOf(m, name, records[..n]);
      RecordsReplay(m, name, cs[..n], records[..n], edits[..n]);
      assert Describes(m, name, c, record, edit);
      DescribedIsRead(m, name, c, record, edit);
      DescribedEdit(m, name, c, record, edit);
      assert edits == edits[..n] + [edit];
      forall l | 0 <= l < NUM_LEVELS
        ensures levels[l] == ApplyLevel(p.levels[l], l, edit)
      {
        ApplyAllLast(NO_CHANGE, l, edits[..n], edit);
      }
      RecordApplies(m, name, p, record, levels);
    }
  }

  lemma {:induction false} DescribedEdit(m: Meaning, name: Bytes, c: Content, record: Bytes, edit: FileEdit)
    requires Describes(m, name, c, record, edit)
    ensures Edits.OnlyNewFiles(c.newFiles) && m.Edit(c) == edit
  {
  }

  // A manifest: a snapshot of the version it started with, and a record for every change.
  datatype Manifest = Manifest(v: Version, next: nat, snapshot: Content, contents: seq<Content>, changes: seq<History.Change>,
                               records: seq<Bytes>)
  {
    ghost predicate WellWritten(m: Meaning, name: Bytes, v': Version, next': nat) {
      && Sound(v, next) && History.RunFrom(v, next, changes, v', next')
      && |records| == |contents| + 1 == |changes| + 1
      && |v.files| == NUM_LEVELS && Unnumbered(snapshot) && Describes(m, name, snapshot, records[0], SnapshotEdit(v))
      && forall i :: 0 <= i < |changes| ==> Numbered(contents[i]) && Describes(m, name, contents[i], records[i + 1], changes[i].Edit())
    }

    // The beginning of the manifest, up to `n` changes.
    function UpTo(n: nat): Manifest
      requires n <= |changes| && |records| == |contents| + 1 == |changes| + 1
    {
      Manifest(v, next, snapshot, contents[..n], changes[..n], records[..n + 1])
    }
  }

  lemma {:induction false} EditsByIndex(changes: seq<History.Change>)
    ensures |History.Edits(changes)| == |changes|
    ensures forall i :: 0 <= i < |changes| ==> History.Edits(changes)[i] == changes[i].Edit()
    decreases |changes|
  {
    hide History.Change.Edit;
    if changes != [] {
      EditsByIndex(changes[1..]);
    }
  }

  lemma {:induction false} LastIsFinal(cs: seq<Content>, field: Content -> Option<Long>)
    requires cs != [] && field(cs[|cs| - 1]).Some?
    ensures LastOf(cs, field) == field(cs[|cs| - 1])
  {
  }

  /**
   A manifest that was written by any run of changes is read back to the version that the
   run ended with and the numbers of its last edit.  The snapshot alone restores nothing.
   */
  lemma {:induction false} ManifestRestores(m: Meaning, name: Bytes, mf: Manifest, v': Version, next': nat)
    requires mf.WellWritten(m, name, v', next')
    ensures var r := Finish(ReadAllOf(m, name, mf.records));
            if mf.changes == [] then r == Failed(NoNextFile)
            else
              var c := mf.contents[|mf.contents| - 1];
              && Numbered(c)
              && r == Recovered(Restored(v', c.logNumber.value, c.prevLogNumber.value, c.nextFileNumber.value + 1, c.lastSequence.value))
  {
    hide Manifest.WellWritten, SaveLevel, ReadAllOf, Numbered, Finish, History.Run, History.RunFrom, Sound, Describes, SnapshotEdit, ApplyAll;
    VersionIsRead(m, name, mf, v', next');
    NumbersAreRead(m, name, mf, v', next');
    var p := ReadAllOf(m, name, mf.records);
    if mf.changes == [] {
      NothingRestored(p);
    } else {
      HasNumbers(mf.contents[|mf.contents| - 1]);
      AllRestored(p, v');
    }
  }

  lemma {:induction false} VersionIsRead(m: Meaning, name: Bytes, mf: Manifest, v': Version, next': nat)
    requires mf.WellWritten(m, name, v', next')
    ensures var p := ReadAllOf(m, name, mf.records);
      && p.Reading? && |v'.files| == NUM_LEVELS && forall l :: 0 <= l < NUM_LEVELS ==> SaveLevel([], p.levels[l]) == v'.files[l]
  {
    var cs := [mf.snapshot] + mf.contents;
    AllRecordsDescribed(m, name, mf, v', next');
    VersionIsReplayed(m, name, mf, v', next');
    hide Manifest.WellWritten, AllDescribe, SaveLevel, ApplyAll, SnapshotEdit, LastOf, ReadAllOf;
    RecordsReplay(m, name, cs, mf.records, [SnapshotEdit(mf.v)] + History.Edits(mf.changes));
  }

  lemma {:induction false} NumbersAreRead(m: Meaning, name: Bytes, mf: Manifest, v': Version, next': nat)
    requires mf.WellWritten(m, name, v', next')
    ensures |mf.contents| == |mf.changes|
    ensures var p := ReadAllOf(m, name, mf.records);
      && p.Reading?
      && if mf.changes == [] then p.nextFile == None
         else
           var c := mf.contents[|mf.contents| - 1];
           && Numbered(c) && p.logNumber == c.logNumber && p.prevLogNumber == c.prevLogNumber
           && p.nextFile == c.nextFileNumber && p.lastSequence == c.lastSequence
  {
    var cs := [mf.snapshot] + mf.contents;
    AllRecordsDescribed(m, name, mf, v', next');
    LastContent(m, name, mf, v', next');
    hide Manifest.WellWritten, AllDescribe, ApplyAll, SnapshotEdit, LastOf, ReadAllOf, Numbered, Unnumbered;
    RecordsReplay(m, name, cs, mf.records, [SnapshotEdit(mf.v)] + History.Edits(mf.changes));
    if mf.changes == [] {
      SnapshotHasNoNumber(mf.snapshot);
      assert cs == [mf.snapshot];
    } else {
      LastNumbers(cs);
    }
  }

  lemma {:induction false} NothingRestored(p: Progress)
    requires p.Reading? && |p.levels| == NUM_LEVELS && p.nextFile.None?
    ensures Finish(p) == Failed(NoNextFile)
  {
  }

  lemma {:induction false} AllRestored(p: Progress, v: Version)
    requires p.Reading? && |p.levels| == |v.files| == NUM_LEVELS
    requires forall l :: 0 <= l < NUM_LEVELS ==> SaveLevel([], p.levels[l]) == v.files[l]
    requires p.logNumber.Some? && p.prevLogNumber.Some? && p.nextFile.Some? && p.lastSequence.Some?
    ensures Finish(p) == Recovered(Restored(v, p.logNumber.value, p.prevLogNumber.value, p.nextFile.value + 1, p.lastSequence.value))
  {
    hide SaveLevel;
    assert v.files == seq(NUM_LEVELS, l requires 0 <= l < NUM_LEVELS => SaveLevel([], p.levels[l]));
  }

  lemma {:induction false} AllRecordsDescribed(m: Meaning, name: Bytes, mf: Manifest, v': Version, next': nat)
    requires mf.WellWritten(m, name, v', next')
    ensures |mf.v.files| == NUM_LEVELS
    ensures AllDescribe(m, name, [mf.snapshot] + mf.contents, mf.records, [SnapshotEdit(mf.v)] + History.Edits(mf.changes))
  {
    hide Sound, History.RunFrom, Describes, SnapshotEdit, History.Change.Edit, Numbered, Unnumbered;
    var cs := [mf.snapshot] + mf.contents;
    var edits := [SnapshotEdit(mf.v)] + History.Edits(mf.changes);
    EditsByIndex(mf.changes);
    forall i | 0 <= i < |cs|
      ensures Describes(m, name, cs[i], mf.records[i], edits[i])
    {
      assert i > 0 ==> Describes(m, name, mf.contents[i - 1], mf.records[i - 1 + 1], mf.changes[i - 1].Edit());
    }
  }

  lemma {:induction false} LastContent(m: Meaning, name: Bytes, mf: Manifest, v': Version, next': nat)
    requires mf.WellWritten(m, name, v', next')
    ensures Unnumbered(mf.snapshot) && |mf.contents| == |mf.changes|
    ensures mf.changes != [] ==> Numbered(mf.contents[|mf.contents| - 1])
  {
    hide Sound, History.RunFrom, Describes, SnapshotEdit, Numbered, Unnumbered;
  }

  lemma {:induction false} VersionIsReplayed(m: Meaning, name: Bytes, mf: Manifest, v': Version, next': nat)
    requires mf.WellWritten(m, name, v', next')
    ensures |mf.v.files| == |v'.files| == NUM_LEVELS
    ensures forall l :: 0 <= l < NUM_LEVELS ==>
              SaveLevel([], ApplyAll(NO_CHANGE, l, [SnapshotEdit(mf.v)] + History.Edits(mf.changes))) == v'.files[l]
  {
    hide Sound, History.RunFrom, Describes, SnapshotEdit, Numbered, Unnumbered, SaveLevel, ApplyAll;
    History.ReopeningRestores(mf.v, mf.next, mf.changes, v', next', 0);
    forall l: nat | l < NUM_LEVELS
      ensures SaveLevel([], ApplyAll(NO_CHANGE, l, [SnapshotEdit(mf.v)] + History.Edits(mf.changes))) == v'.files[l]
    {
      History.ReopeningRestores(mf.v, mf.next, mf.changes, v', next', l);
    }
  }

  lemma {:induction false} LastNumbers(cs: seq<Content>)
    requires cs != [] && Numbered(cs[|cs| - 1])
    ensures var c := cs[|cs| - 1];
      && LastOf(cs, LogNumberOf) == c.logNumber && LastOf(cs, PrevLogNumberOf) == c.prevLogNumber
      && LastOf(cs, NextFileOf) == c.nextFileNumber && LastOf(cs, LastSequenceOf) == c.lastSequence
  {
    hide LastOf;
    LastIsFinal(cs, LogNumberOf);
    LastIsFinal(cs, PrevLogNumberOf);
    LastIsFinal(cs, NextFileOf);
    LastIsFinal(cs, LastSequenceOf);
  }

  lemma {:induction false} HasNumbers(c: Content)
    requires Numbered(c)
    ensures c.logNumber.Some? && c.prevLogNumber.Some? && c.nextFileNumber.Some? && c.lastSequence.Some?
  {
  }

  lemma {:induction false} SnapshotHasNoNumber(c: Content)
    requires Unnumbered(c)
    ensures LastOf([c], NextFileOf) == None
  {
    assert [c][..0] == [];
  }

  lemma {:induction false} RunPrefix(v: Version, used: History.Usage, next: nat, changes: seq<History.Change>, v': Version, next': nat, n: nat)
    returns (v1: Version, next1: nat)
    requires History.Run(v, used, next, changes, v', next') && n <= |changes|
    ensures History.Run(v, used, next, changes[..n], v1, next1)
    ensures n == |changes| ==> v1 == v' && next1 == next'
    decreases |changes|
  {
    hide History.Changed, History.UsedAfter;
    if n == 0 {
      v1, next1 := v, next;
    } else {
      var used2 := History.UsedAfter(used, changes[0].Edit());
      var v2, next2: nat :| History.Changed(v, used, next, changes[0], v2, next2) && History.Run(v2, used2, next2, changes[1..], v', next');
      v1, next1 := RunPrefix(v2, used2, next2, changes[1..], v', next', n - 1);
      assert changes[..n][0] == changes[0] && changes[..n][1..] == changes[1..][..n - 1];
    }
  }

  lemma {:induction false} AsManyRecords(m: Meaning, name: Bytes, mf: Manifest, v': Version, next': nat)
    requires mf.WellWritten(m, name, v', next')
    ensures |mf.records| == |mf.contents| + 1 == |mf.changes| + 1
  {
    hide Sound, History.RunFrom, Describes;
  }

  lemma {:induction false} NothingReadYet(m: Meaning, name: Bytes)
    ensures Finish(ReadAllOf(m, name, [])) == Failed(NoNextFile)
  {
  }

  // The beginning of a manifest is one.
  lemma {:induction false} WellWrittenUpTo(m: Meaning, name: Bytes, mf: Manifest, v': Version, next': nat, n: nat)
    returns (v1: Version, next1: nat)
    requires mf.WellWritten(m, name, v', next') && |mf.records| == |mf.contents| + 1 == |mf.changes| + 1 && n <= |mf.changes|
    ensures mf.UpTo(n).WellWritten(m, name, v1, next1) && History.RunFrom(mf.v, mf.next, mf.changes[..n], v1, next1)
    ensures n == |mf.changes| ==> v1 == v'
  {
    hide Sound, History.Run, Describes, Numbered;
    v1, next1 := RunPrefix(mf.v, History.UsedBy(mf.v), mf.next, mf.changes, v', next', n);
    forall i | 0 <= i < n
      ensures Numbered(mf.contents[i]) && Describes(m, name, mf.contents[i], mf.records[i + 1], mf.changes[i].Edit())
    {
    }
  }

  /**
   A manifest file that was cut anywhere restores the version of a moment of the run: the
   one after the last change whose record is there in full.
   */
  lemma {:induction false} CutManifestRestores(m: Meaning, name: Bytes, mf: Manifest, v': Version, next': nat,
                             checksum: Logs.Checksum, w: Logs.Written, file: Bytes)
    returns (v1: Version, next1: nat)
    requires mf.WellWritten(m, name, v', next') && Logs.WrittenAs(checksum, w, file) && w.records == mf.records
    ensures var n := Logs.WholeRecords(checksum, w, file, 0);
            var r := Finish(ReadAllOf(m, name, w.records[..n]));
            if n <= 1 then r == Failed(NoNextFile)
            else
              var c := mf.contents[n - 2];
              && History.RunFrom(mf.v, mf.next, mf.changes[..n - 1], v1, next1)
              && (n == |mf.records| ==> v1 == v')
              && Numbered(c)
              && r == Recovered(Restored(v1, c.logNumber.value, c.prevLogNumber.value, c.nextFileNumber.value + 1, c.lastSequence.value))
  {
    hide Manifest.WellWritten, Sound, History.Run, History.RunFrom, Describes, Logs.WrittenAs, Logs.WholeRecords, ReadAllOf, Finish, Numbered;
    var n := Logs.WholeRecords(checksum, w, file, 0);
    AsManyRecords(m, name, mf, v', next');
    v1, next1 := v', next';
    if n > 0 {
      v1, next1 := WellWrittenUpTo(m, name, mf, v', next', n - 1);
      ManifestRestores(m, name, mf.UpTo(n - 1), v1, next1);
    } else {
      NothingReadYet(m, name);
      assert w.records[..0] == [];
    }
  }

  /**
   A manifest that was damaged behind its writing is refused: the file is the manifest up to
   some fragment, the header of that fragment is broken, and whatever follows, no version is
   made of the records before it.
   */
  lemma {:induction false} DamagedManifestFails(m: Meaning, name: Bytes, mf: Manifest, v': Version, next': nat,
                                                checksum: Logs.Checksum, w: Logs.Written, i: nat, file: Bytes)
    requires mf.WellWritten(m, name, v', next') && w.records == mf.records && Damage.DamagedAt(checksum, w, i, file)
    ensures Verdict(m, name, checksum, file) == Failed(BadFile)
  {
    hide Manifest.WellWritten, Damage.DamagedAt, Logs.Reported, Logs.CleanRecords, ReadAllOf, Finish;
    VersionIsRead(m, name, mf, v', next');
    Damage.DamageIsReported(checksum, w, i, file);
    ReadingBefore(m, name, mf.records, Damage.CompleteRecords(w, i, 0));
  }
}
