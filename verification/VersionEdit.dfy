/**
 The records of a manifest (db/version_edit.h, db/version_edit.cc).
 */
module VersionEdits {
  import opened Wrappers
  import opened DbFormat
  import opened Versions
  import opened Coding

  const COMPARATOR: Word := 1
  const LOG_NUMBER: Word := 2
  const NEXT_FILE_NUMBER: Word := 3
  const LAST_SEQUENCE: Word := 4
  const COMPACT_POINTER: Word := 5
  const DELETED_FILE: Word := 6
  const NEW_FILE: Word := 7
  const PREV_LOG_NUMBER: Word := 9

  // One tagged field.  Keys are internal keys in their encoded form.
  datatype Field =
    | Comparator(name: Bytes)
    | LogNumber(number: Long)
    | PrevLogNumber(number: Long)
    | NextFileNumber(number: Long)
    | LastSequence(number: Long)
    | CompactPointer(level: nat, key: Bytes)
    | DeletedFile(level: nat, number: Long)
    | NewFile(level: nat, number: Long, fileSize: Long, smallest: Bytes, largest: Bytes)
  {
    predicate Valid() {
      match this
      case Comparator(name) => |name| < 0x1_0000_0000
      case CompactPointer(level, key) => level < NUM_LEVELS && |key| < 0x1_0000_0000
      case DeletedFile(level, _) => level < NUM_LEVELS
      case NewFile(level, _, _, smallest, largest) => level < NUM_LEVELS && |smallest| < 0x1_0000_0000 && |largest| < 0x1_0000_0000
      case _ => true
    }

    function Tag(): Word {
      match this
      case Comparator(_) => COMPARATOR
      case LogNumber(_) => LOG_NUMBER
      case PrevLogNumber(_) => PREV_LOG_NUMBER
      case NextFileNumber(_) => NEXT_FILE_NUMBER
      case LastSequence(_) => LAST_SEQUENCE
      case CompactPointer(_, _) => COMPACT_POINTER
      case DeletedFile(_, _) => DELETED_FILE
      case NewFile(_, _, _, _, _) => NEW_FILE
    }

    function Body(): Bytes {
      match this
      case Comparator(name) => PutLengthPrefixed(name)
      case LogNumber(number) => Varint(number)
      case PrevLogNumber(number) => Varint(number)
      case NextFileNumber(number) => Varint(number)
      case LastSequence(number) => Varint(number)
      case CompactPointer(level, key) => Varint(level) + PutLengthPrefixed(key)
      case DeletedFile(level, number) => Varint(level) + Varint(number)
      case NewFile(level, number, fileSize, smallest, largest) =>
        Varint(level) + (Varint(number) + (Varint(fileSize) + (PutLengthPrefixed(smallest) + PutLengthPrefixed(largest))))
    }

    function Image(): (r: Bytes)
      ensures r != []
    {
      Varint(Tag()) + Body()
    }
  }

  function Images(fields: seq<Field>): Bytes {
    if fields == [] then [] else fields[0].Image() + Images(fields[1..])
  }

  // ----- parsing -----

  function GetLevel(b: Bytes): (r: Option<(nat, nat)>)
    ensures r.Some? ==> r.value.0 < NUM_LEVELS && r.value.1 <= |b|
  {
    match ParseWord(b)
    case Some((v, n)) => if v < NUM_LEVELS then Some((v, n)) else None
    case None => None
  }

  function ParseBody(tag: Word, b: Bytes): (r: Option<(Field, nat)>)
    ensures r.Some? ==> r.value.1 <= |b|
  {
    if tag == COMPARATOR then ParseComparator(b)
    else if tag == LOG_NUMBER then ParseNumber(b, LOG_NUMBER)
    else if tag == PREV_LOG_NUMBER then ParseNumber(b, PREV_LOG_NUMBER)
    else if tag == NEXT_FILE_NUMBER then ParseNumber(b, NEXT_FILE_NUMBER)
    else if tag == LAST_SEQUENCE then ParseNumber(b, LAST_SEQUENCE)
    else if tag == COMPACT_POINTER then ParseCompactPointer(b)
    else if tag == DELETED_FILE then ParseDeletedFile(b)
    else if tag == NEW_FILE then ParseNewFile(b)
    else None
  }

  function ParseComparator(b: Bytes): (r: Option<(Field, nat)>)
    ensures r.Some? ==> r.value.1 <= |b|
  {
    match GetLengthPrefixed(b)
    case Some((name, n)) => Some((Comparator(name), n))
    case None => None
  }

  // The fields that hold one number.
  function NumberField(tag: Word, number: Long): (r: Field)
    ensures r.Valid()
  {
    if tag == LOG_NUMBER then LogNumber(number)
    else if tag == PREV_LOG_NUMBER then PrevLogNumber(number)
    else if tag == NEXT_FILE_NUMBER then NextFileNumber(number)
    else LastSequence(number)
  }

  function ParseNumber(b: Bytes, tag: Word): (r: Option<(Field, nat)>)
    ensures r.Some? ==> r.value.1 <= |b|
  {
    match ParseLong(b)
    case Some((v, n)) => Some((NumberField(tag, v), n))
    case None => None
  }

  function ParseCompactPointer(b: Bytes): (r: Option<(Field, nat)>)
    ensures r.Some? ==> r.value.1 <= |b|
  {
    match GetLevel(b)
    case None => None
    case Some((level, n1)) =>
      match GetLengthPrefixed(b[n1..])
      case None => None
      case Some((key, n2)) => Some((CompactPointer(level, key), n1 + n2))
  }

  function ParseDeletedFile(b: Bytes): (r: Option<(Field, nat)>)
    ensures r.Some? ==> r.value.1 <= |b|
  {
    match GetLevel(b)
    case None => None
    case Some((level, n1)) =>
      match ParseLong(b[n1..])
      case None => None
      case Some((number, n2)) => Some((DeletedFile(level, number), n1 + n2))
  }

  function ParseNewFile(b: Bytes): (r: Option<(Field, nat)>)
    ensures r.Some? ==> r.value.1 <= |b|
  {
    match GetLevel(b)
    case None => None
    case Some((level, n1)) =>
      match ParseLong(b[n1..])
      case None => None
      case Some((number, n2)) =>
        match ParseLong(b[n1 + n2..])
        case None => None
        case Some((fileSize, n3)) =>
          match GetLengthPrefixed(b[n1 + n2 + n3..])
          case None => None
          case Some((smallest, n4)) =>
            match GetLengthPrefixed(b[n1 + n2 + n3 + n4..])
            case None => None
            case Some((largest, n5)) => Some((NewFile(level, number, fileSize, smallest, largest), n1 + n2 + n3 + n4 + n5))
  }

  lemma {:induction false} LevelRoundTrip(level: nat, rest: Bytes)
    requires level < NUM_LEVELS
    ensures GetLevel(Varint(level) + rest) == Some((level, |Varint(level)|))
  {
    WordRoundTrip(level, rest);
  }

  lemma {:induction false} Behind(a: Bytes, b: Bytes)
    ensures (a + b)[|a|..] == b
  {
  }

  lemma {:induction false} BehindMore(a: Bytes, b: Bytes, n: nat)
    requires n <= |b|
    ensures |a| + n <= |a + b| && (a + b)[|a| + n..] == b[n..]
  {
  }

  /** A field is read back from its image, whatever follows. */
  lemma {:induction false} FieldRoundTrip(f: Field, rest: Bytes)
    requires f.Valid()
    ensures ParseBody(f.Tag(), f.Body() + rest) == Some((f, |f.Body()|))
  {
    hide Varint, ParseLong, ParseWord, GetLevel, GetLengthPrefixed, PutLengthPrefixed;
    match f
    case Comparator(name) => LengthPrefixedRoundTrip(name, rest);
    case LogNumber(number) => LongRoundTrip(number, rest);
    case PrevLogNumber(number) => LongRoundTrip(number, rest);
    case NextFileNumber(number) => LongRoundTrip(number, rest);
    case LastSequence(number) => LongRoundTrip(number, rest);
    case CompactPointer(level, key) =>
      LevelRoundTrip(level, PutLengthPrefixed(key) + rest);
      LengthPrefixedRoundTrip(key, rest);
      assert f.Body() + rest == Varint(level) + (PutLengthPrefixed(key) + rest);
      Behind(Varint(level), PutLengthPrefixed(key) + rest);
    case DeletedFile(level, number) =>
      LevelRoundTrip(level, Varint(number) + rest);
      LongRoundTrip(number, rest);
      assert f.Body() + rest == Varint(level) + (Varint(number) + rest);
      Behind(Varint(level), Varint(number) + rest);
    case NewFile(level, number, fileSize, smallest, largest) =>
      NewFileRoundTrip(level, number, fileSize, smallest, largest, rest);
  }

  lemma {:induction false} NewFileRoundTrip(level: nat, number: Long, fileSize: Long, smallest: Bytes, largest: Bytes, rest: Bytes)
    requires level < NUM_LEVELS && |smallest| < 0x1_0000_0000 && |largest| < 0x1_0000_0000
    ensures var f := NewFile(level, number, fileSize, smallest, largest);
      ParseNewFile(f.Body() + rest) == Some((f, |f.Body()|))
  {
    hide Varint, ParseLong, GetLevel, GetLengthPrefixed, PutLengthPrefixed;
    var v1, v2, v3 := Varint(level), Varint(number), Varint(fileSize);
    var v4, v5 := PutLengthPrefixed(smallest), PutLengthPrefixed(largest);
    var b4 := v5 + rest;
    var b3 := v4 + b4;
    var b2 := v3 + b3;
    var b1 := v2 + b2;
    var b := v1 + b1;
    assert NewFile(level, number, fileSize, smallest, largest).Body() + rest == b;
    LevelRoundTrip(level, b1);
    LongRoundTrip(number, b2);
    LongRoundTrip(fileSize, b3);
    LengthPrefixedRoundTrip(smallest, b4);
    LengthPrefixedRoundTrip(largest, rest);
    Behind(v4, b4);
    Behind(v3, b3);
    Behind(v2, b2);
    Behind(v1, b1);
    BehindMore(v3, b3, |v4|);
    BehindMore(v2, b2, |v3|);
    BehindMore(v2, b2, |v3| + |v4|);
    BehindMore(v1, b1, |v2|);
    BehindMore(v1, b1, |v2| + |v3|);
    BehindMore(v1, b1, |v2| + |v3| + |v4|);
  }

  // ----- the edit -----

  datatype Content = Content(
    comparator: Option<Bytes>,
    logNumber: Option<Long>,
    prevLogNumber: Option<Long>,
    nextFileNumber: Option<Long>,
    lastSequence: Option<Long>,
    compactPointers: seq<(nat, Bytes)>,
    // A set, in increasing order.
    deletedFiles: seq<(nat, Long)>,
    newFiles: seq<Field>)

  predicate Before(a: (nat, Long), b: (nat, Long)) {
    a.0 < b.0 || (a.0 == b.0 && a.1 < b.1)
  }

  predicate Increasing(files: seq<(nat, Long)>) {
    forall i, j :: 0 <= i < j < |files| ==> Before(files[i], files[j])
  }

  function Insert(files: seq<(nat, Long)>, f: (nat, Long)): seq<(nat, Long)> {
    if files == [] then [f]
    else if Before(f, files[0]) then [f] + files
    else if f == files[0] then files
    else [files[0]] + Insert(files[1..], f)
  }

  lemma {:induction false} InsertAtEnd(files: seq<(nat, Long)>, f: (nat, Long))
    requires forall i :: 0 <= i < |files| ==> Before(files[i], f)
    ensures Insert(files, f) == files + [f]
  {
    if files != [] {
      assert Before(files[0], f);
      InsertAtEnd(files[1..], f);
    }
  }

  predicate ValidContent(c: Content) {
    && Increasing(c.deletedFiles)
    && forall f :: f in FieldsOf(c) ==> f.Valid()
  }

  function FromOption(o: Option<Long>, tag: Word): seq<Field> {
    if o.Some? then [NumberField(tag, o.value)] else []
  }

  function Pointers(c: Content): (r: seq<Field>)
    ensures |r| == |c.compactPointers|
  {
    seq(|c.compactPointers|, i requires 0 <= i < |c.compactPointers| => CompactPointer(c.compactPointers[i].0, c.compactPointers[i].1))
  }

  function Deletions(c: Content): (r: seq<Field>)
    ensures |r| == |c.deletedFiles|
  {
    seq(|c.deletedFiles|, i requires 0 <= i < |c.deletedFiles| => DeletedFile(c.deletedFiles[i].0, c.deletedFiles[i].1))
  }

  // The fields in the order in which they are written.
  function FieldsOf(c: Content): seq<Field> {
    (if c.comparator.Some? then [Comparator(c.comparator.value)] else [])
    + FromOption(c.logNumber, LOG_NUMBER) + FromOption(c.prevLogNumber, PREV_LOG_NUMBER)
    + FromOption(c.nextFileNumber, NEXT_FILE_NUMBER) + FromOption(c.lastSequence, LAST_SEQUENCE)
    + Pointers(c) + Deletions(c) + c.newFiles
  }

  function Apply(c: Content, f: Field): Content {
    match f
    case Comparator(name) => c.(comparator := Some(name))
    case LogNumber(number) => c.(logNumber := Some(number))
    case PrevLogNumber(number) => c.(prevLogNumber := Some(number))
    case NextFileNumber(number) => c.(nextFileNumber := Some(number))
    case LastSequence(number) => c.(lastSequence := Some(number))
    case CompactPointer(level, key) => c.(compactPointers := c.compactPointers + [(level, key)])
    case DeletedFile(level, number) => c.(deletedFiles := Insert(c.deletedFiles, (level, number)))
    case NewFile(_, _, _, _, _) => c.(newFiles := c.newFiles + [f])
  }

  function ApplyFields(c: Content, fields: seq<Field>): Content
    decreases |fields|
  {
    if fields == [] then c else ApplyFields(Apply(c, fields[0]), fields[1..])
  }

  // What DecodeFrom makes of any input.
  function Decode(c: Content, input: Bytes): Option<Content>
    decreases |input|
  {
    match ParseWord(input)
    case None => if input == [] then Some(c) else None
    case Some((tag, n)) =>
      match ParseBody(tag, input[n..])
      case None => None
      case Some((f, m)) => Decode(Apply(c, f), input[n + m..])
  }

  lemma {:induction false} DecodeImages(c: Content, fields: seq<Field>)
    requires forall f :: f in fields ==> f.Valid()
    ensures Decode(c, Images(fields)) == Some(ApplyFields(c, fields))
    decreases |fields|
  {
    hide Varint, ParseWord, ParseBody, Field.Body, Field.Tag, Field.Valid, Apply;
    if fields == [] {
      NothingParses();
    } else {
      var f, rest := fields[0], Images(fields[1..]);
      var tag, body := Varint(f.Tag()), f.Body();
      assert f in fields;
      DecodeImages(Apply(c, f), fields[1..]);
      WordRoundTrip(f.Tag(), body + rest);
      FieldRoundTrip(f, rest);
      assert Images(fields) == tag + (body + rest);
      Behind(tag, body + rest);
      BehindMore(tag, body + rest, |body|);
      Behind(body, rest);
    }
  }

  lemma {:induction false} NothingParses()
    ensures ParseWord([]) == None
  {
  }

  // ----- the round trip -----

  lemma {:induction false} ApplyConcat(c: Content, a: seq<Field>, b: seq<Field>)
    ensures ApplyFields(c, a + b) == ApplyFields(ApplyFields(c, a), b)
    decreases |a|
  {
    hide Apply;
    if a == [] {
      assert a + b == b;
    } else {
      assert (a + b)[1..] == a[1..] + b;
      ApplyConcat(Apply(c, a[0]), a[1..], b);
    }
  }

  lemma {:induction false} ApplyLast(c: Content, a: seq<Field>, f: Field)
    ensures ApplyFields(c, a + [f]) == Apply(ApplyFields(c, a), f)
  {
    hide Apply;
    ApplyConcat(c, a, [f]);
    var d := ApplyFields(c, a);
    assert ApplyFields(d, [f]) == ApplyFields(Apply(d, f), []);
  }

  lemma {:induction false} ApplyPointers(c: Content, e: Content, n: nat)
    requires n <= |e.compactPointers|
    ensures ApplyFields(c, Pointers(e)[..n]) == c.(compactPointers := c.compactPointers + e.compactPointers[..n])
  {
    if n == 0 {
      assert c.compactPointers + [] == c.compactPointers;
    } else {
      ApplyPointers(c, e, n - 1);
      assert Pointers(e)[..n] == Pointers(e)[..n - 1] + [Pointers(e)[n - 1]];
      ApplyLast(c, Pointers(e)[..n - 1], Pointers(e)[n - 1]);
      assert e.compactPointers[..n] == e.compactPointers[..n - 1] + [e.compactPointers[n - 1]];
    }
  }

  lemma {:induction false} ApplyDeletions(c: Content, e: Content, n: nat)
    requires n <= |e.deletedFiles| && Increasing(e.deletedFiles) && c.deletedFiles == []
    ensures ApplyFields(c, Deletions(e)[..n]) == c.(deletedFiles := e.deletedFiles[..n])
  {
    if n > 0 {
      ApplyDeletions(c, e, n - 1);
      assert Deletions(e)[..n] == Deletions(e)[..n - 1] + [Deletions(e)[n - 1]];
      ApplyLast(c, Deletions(e)[..n - 1], Deletions(e)[n - 1]);
      InsertAtEnd(e.deletedFiles[..n - 1], e.deletedFiles[n - 1]);
      assert e.deletedFiles[..n] == e.deletedFiles[..n - 1] + [e.deletedFiles[n - 1]];
    }
  }

  ghost predicate OnlyNewFiles(fields: seq<Field>) {
    forall f :: f in fields ==> f.NewFile?
  }

  lemma {:induction false} ApplyNewFiles(c: Content, files: seq<Field>, n: nat)
    requires n <= |files| && OnlyNewFiles(files)
    ensures ApplyFields(c, files[..n]) == c.(newFiles := c.newFiles + files[..n])
  {
    if n == 0 {
      assert c.newFiles + [] == c.newFiles;
    } else {
      ApplyNewFiles(c, files, n - 1);
      assert files[n - 1] in files;
      assert files[..n] == files[..n - 1] + [files[n - 1]];
      assert c.newFiles + files[..n] == (c.newFiles + files[..n - 1]) + [files[n - 1]];
      ApplyLast(c, files[..n - 1], files[n - 1]);
    }
  }

  function Cleared(c: Content): Content {
    Content(None, None, None, None, None, c.compactPointers, [], [])
  }

  function Scalars(c: Content): seq<Field> {
    (if c.comparator.Some? then [Comparator(c.comparator.value)] else [])
    + FromOption(c.logNumber, LOG_NUMBER) + FromOption(c.prevLogNumber, PREV_LOG_NUMBER)
    + FromOption(c.nextFileNumber, NEXT_FILE_NUMBER) + FromOption(c.lastSequence, LAST_SEQUENCE)
  }

  lemma {:induction false} ApplyOne(c: Content, f: Field)
    ensures ApplyFields(c, [f]) == Apply(c, f) && ApplyFields(c, []) == c
  {
  }

  lemma {:induction false} ApplyScalars(d: Content, c: Content)
    requires d == Cleared(d)
    ensures ApplyFields(d, Scalars(c)) == Content(c.comparator, c.logNumber, c.prevLogNumber, c.nextFileNumber, c.lastSequence,
                                                  d.compactPointers, [], [])
  {
    hide ApplyFields;
    var f1 := if c.comparator.Some? then [Comparator(c.comparator.value)] else [];
    var f2, f3 := FromOption(c.logNumber, LOG_NUMBER), FromOption(c.prevLogNumber, PREV_LOG_NUMBER);
    var f4 := FromOption(c.nextFileNumber, NEXT_FILE_NUMBER);
    var f5 := FromOption(c.lastSequence, LAST_SEQUENCE);
    ApplyConcat(d, f1 + f2 + f3 + f4, f5);
    ApplyConcat(d, f1 + f2 + f3, f4);
    ApplyConcat(d, f1 + f2, f3);
    ApplyConcat(d, f1, f2);
    var d1 := d.(comparator := c.comparator);
    var d2 := d1.(logNumber := c.logNumber);
    var d3 := d2.(prevLogNumber := c.prevLogNumber);
    var d4 := d3.(nextFileNumber := c.nextFileNumber);
    ApplyOne(d, Comparator(if c.comparator.Some? then c.comparator.value else []));
    ApplyOne(d1, LogNumber(if c.logNumber.Some? then c.logNumber.value else 0));
    ApplyOne(d2, PrevLogNumber(if c.prevLogNumber.Some? then c.prevLogNumber.value else 0));
    ApplyOne(d3, NextFileNumber(if c.nextFileNumber.Some? then c.nextFileNumber.value else 0));
    ApplyOne(d4, LastSequence(if c.lastSequence.Some? then c.lastSequence.value else 0));
  }

  /**
   Decoding what an edit was encoded to gives back the edit, except that the compaction
   pointers are added to those the decoding object had before: Clear leaves them.
   */
  lemma {:induction false} EditRoundTrip(d: Content, c: Content)
    requires ValidContent(c) && OnlyNewFiles(c.newFiles)
    ensures Decode(Cleared(d), Images(FieldsOf(c))) == Some(c.(compactPointers := d.compactPointers + c.compactPointers))
  {
    hide Decode, Images, ApplyFields, Apply, Field.Valid;
    DecodeImages(Cleared(d), FieldsOf(c));
    assert FieldsOf(c) == Scalars(c) + Pointers(c) + Deletions(c) + c.newFiles;
    ApplyConcat(Cleared(d), Scalars(c) + Pointers(c) + Deletions(c), c.newFiles);
    ApplyConcat(Cleared(d), Scalars(c) + Pointers(c), Deletions(c));
    ApplyConcat(Cleared(d), Scalars(c), Pointers(c));
    ApplyScalars(Cleared(d), c);
    var d1 := ApplyFields(Cleared(d), Scalars(c));
    ApplyPointers(d1, c, |c.compactPointers|);
    assert Pointers(c)[..|c.compactPointers|] == Pointers(c) && c.compactPointers[..|c.compactPointers|] == c.compactPointers;
    var d2 := ApplyFields(d1, Pointers(c));
    ApplyDeletions(d2, c, |c.deletedFiles|);
    assert Deletions(c)[..|c.deletedFiles|] == Deletions(c) && c.deletedFiles[..|c.deletedFiles|] == c.deletedFiles;
    var d3 := ApplyFields(d2, Deletions(c));
    ApplyNewFiles(d3, c.newFiles, |c.newFiles|);
    assert c.newFiles[..|c.newFiles|] == c.newFiles && [] + c.newFiles == c.newFiles;
  }

  lemma {:induction false} ImagesConcat(a: seq<Field>, b: seq<Field>)
    ensures Images(a + b) == Images(a) + Images(b)
    decreases |a|
  {
    hide Field.Image;
    if a == [] {
      assert a + b == b;
    } else {
      assert (a + b)[1..] == a[1..] + b;
      ImagesConcat(a[1..], b);
    }
  }

  // ----- the object -----

  class VersionEdit {
    var content: Content

    constructor ()
      ensures content == Content(None, None, None, None, None, [], [], [])
    {
      content := Content(None, None, None, None, None, [], [], []);
    }

    // Clear does not touch the compaction pointers.
    method Clear()
      modifies this
      ensures content == Cleared(old(content))
    {
      content := content.(comparator := None, logNumber := None, prevLogNumber := None, nextFileNumber := None,
                          lastSequence := None, deletedFiles := [], newFiles := []);
    }

    method DeleteFile(level: nat, file: Long)
      modifies this
      ensures content == old(content).(deletedFiles := Insert(old(content).deletedFiles, (level, file)))
    {
      content := content.(deletedFiles := Insert(content.deletedFiles, (level, file)));
    }

    /** EncodeTo: the fields that are set, in a fixed order. */
    method EncodeTo() returns (dst: Bytes)
      ensures dst == Images(FieldsOf(content))
    {
      hide Images, Field.Image;
      ghost var done := Scalars(content);
      dst := EncodeScalars();
      assert done + Pointers(content)[..0] == done;
      for i := 0 to |content.compactPointers|
        invariant dst == Images(done + Pointers(content)[..i])
      {
        var f := CompactPointer(content.compactPointers[i].0, content.compactPointers[i].1);
        assert done + Pointers(content)[..i + 1] == (done + Pointers(content)[..i]) + [f];
        OneMore(done + Pointers(content)[..i], f);
        dst := dst + (Varint(COMPACT_POINTER) + f.Body());
      }
      done := done + Pointers(content);
      assert Pointers(content)[..|content.compactPointers|] == Pointers(content);
      assert done + Deletions(content)[..0] == done;
      for i := 0 to |content.deletedFiles|
        invariant dst == Images(done + Deletions(content)[..i])
      {
        var f := DeletedFile(content.deletedFiles[i].0, content.deletedFiles[i].1);
        assert done + Deletions(content)[..i + 1] == (done + Deletions(content)[..i]) + [f];
        OneMore(done + Deletions(content)[..i], f);
        dst := dst + (Varint(DELETED_FILE) + f.Body());
      }
      done := done + Deletions(content);
      assert Deletions(content)[..|content.deletedFiles|] == Deletions(content);
      assert done + content.newFiles[..0] == done;
      for i := 0 to |content.newFiles|
        invariant dst == Images(done + content.newFiles[..i])
      {
        var f := content.newFiles[i];
        assert done + content.newFiles[..i + 1] == (done + content.newFiles[..i]) + [f];
        OneMore(done + content.newFiles[..i], f);
        dst := dst + f.Image();
      }
      assert content.newFiles[..|content.newFiles|] == content.newFiles;
      assert done + content.newFiles == FieldsOf(content);
    }

    method EncodeScalars() returns (dst: Bytes)
      ensures dst == Images(Scalars(content))
    {
      hide Images, FromOption, Field.Image, Varint;
      ghost var done: seq<Field> := [];
      NoImages();
      dst := [];
      if content.comparator.Some? {
        OneMore(done, Comparator(content.comparator.value));
        done := done + [Comparator(content.comparator.value)];
        dst := dst + (Varint(COMPARATOR) + PutLengthPrefixed(content.comparator.value));
      }
      assert done == if content.comparator.Some? then [Comparator(content.comparator.value)] else [];
      dst, done := PutNumber(dst, done, LOG_NUMBER, content.logNumber);
      dst, done := PutNumber(dst, done, PREV_LOG_NUMBER, content.prevLogNumber);
      dst, done := PutNumber(dst, done, NEXT_FILE_NUMBER, content.nextFileNumber);
      dst, done := PutNumber(dst, done, LAST_SEQUENCE, content.lastSequence);
    }

    // A number, if the edit has it.
    static method PutNumber(dst: Bytes, ghost done: seq<Field>, tag: Word, number: Option<Long>)
      returns (r: Bytes, ghost more: seq<Field>)
      requires dst == Images(done)
      requires tag == LOG_NUMBER || tag == PREV_LOG_NUMBER || tag == NEXT_FILE_NUMBER || tag == LAST_SEQUENCE
      ensures more == done + FromOption(number, tag) && r == Images(more)
    {
      hide Images, Field.Image;
      r, more := dst, done;
      if number.Some? {
        OneMore(done, NumberField(tag, number.value));
        more := done + [NumberField(tag, number.value)];
        r := dst + (Varint(tag) + Varint(number.value));
      }
    }

    /** DecodeFrom, on any input. */
    method DecodeFrom(src: Bytes) returns (ok: bool)
      modifies this
      ensures ok <==> Decode(Cleared(old(content)), src).Some?
      ensures ok ==> Some(content) == Decode(Cleared(old(content)), src)
    {
      hide ParseWord, ParseBody, Apply;
      Clear();
      ghost var start := content;
      var input := src;
      while true
        invariant Decode(start, src) == Decode(content, input)
        decreases |input|
      {
        var tag := GetVarint32(input);
        if tag.None? {
          return input == [];
        }
        var body := input[tag.value.1..];
        var field := ReadBody(tag.value.0, body);
        if field.None? {
          return false;
        }
        assert input[tag.value.1 + field.value.1..] == body[field.value.1..];
        content := Apply(content, field.value.0);
        input := body[field.value.1..];
      }
    }
  }

  // The switch over tags; each case consumes what it needs from the input.
  method ReadBody(tag: Word, b: Bytes) returns (r: Option<(Field, nat)>)
    ensures r == ParseBody(tag, b)
  {
    if tag == COMPARATOR {
      var str := GetLengthPrefixed(b);
      return if str.Some? then Some((Comparator(str.value.0), str.value.1)) else None;
    } else if tag == LOG_NUMBER || tag == PREV_LOG_NUMBER || tag == NEXT_FILE_NUMBER || tag == LAST_SEQUENCE {
      var number := GetVarint64(b);
      return if number.Some? then Some((NumberField(tag, number.value.0), number.value.1)) else None;
    } else if tag == COMPACT_POINTER || tag == DELETED_FILE || tag == NEW_FILE {
      r := ReadAtLevel(tag, b);
    } else {
      return None;
    }
  }

  // The cases that begin with a level.
  method ReadAtLevel(tag: Word, b: Bytes) returns (r: Option<(Field, nat)>)
    requires tag == COMPACT_POINTER || tag == DELETED_FILE || tag == NEW_FILE
    ensures r == ParseBody(tag, b)
  {
    hide ParseLong, GetLengthPrefixed, ParseWord;
    var level := GetLevel(b);
    if level.None? {
      return None;
    }
    var n := level.value.1;
    if tag == COMPACT_POINTER {
      var key := GetLengthPrefixed(b[n..]);
      return if key.Some? then Some((CompactPointer(level.value.0, key.value.0), n + key.value.1)) else None;
    }
    var number := GetVarint64(b[n..]);
    if number.None? {
      return None;
    }
    n := n + number.value.1;
    if tag == DELETED_FILE {
      return Some((DeletedFile(level.value.0, number.value.0), n));
    }
    var fileSize := GetVarint64(b[n..]);
    if fileSize.None? {
      return None;
    }
    n := n + fileSize.value.1;
    var smallest := GetLengthPrefixed(b[n..]);
    if smallest.None? {
      return None;
    }
    n := n + smallest.value.1;
    var largest := GetLengthPrefixed(b[n..]);
    if largest.None? {
      return None;
    }
    return Some((NewFile(level.value.0, number.value.0, fileSize.value.0, smallest.value.0, largest.value.0), n + largest.value.1));
  }

  lemma {:induction false} NoImages()
    ensures Images([]) == []
  {
  }

  lemma {:induction false} OneMore(a: seq<Field>, f: Field)
    ensures Images(a + [f]) == Images(a) + f.Image() == Images(a) + (Varint(f.Tag()) + f.Body())
  {
    ImagesConcat(a, [f]);
    assert Images([f]) == f.Image() + Images([]);
  }
}
