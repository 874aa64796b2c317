/**
 The log (db/log_format.h, db/log_writer.cc, db/log_reader.cc): records are cut into
 fragments that never cross a block of 32 KB.  Whatever the writer wrote, the reader
 gives back the records that are wholly in the file, and reports no corruption.
 */
module LogFormat {
  import opened Wrappers
  import opened DbFormat
  import opened Coding

  const BLOCK_SIZE: nat := 32768
  const HEADER_SIZE: nat := 7

  const ZERO: int := 0
  const FULL: int := 1
  const FIRST: int := 2
  const MIDDLE: int := 3
  const LAST: int := 4
  const EOF: int := 5
  const BAD_RECORD: int := 6

  // The checksum of a type byte and its payload, and how it is stored.
  datatype Checksum = Checksum(value: Bytes -> Word, mask: Word -> Word, unmask: Word -> Word)
  {
    ghost predicate Valid() {
      forall w :: unmask(mask(w)) == w
    }
  }

  // ----- fragments, and how they lie in the file -----

  datatype Fragment = Fragment(kind: int, payload: Bytes)

  // In a block with less room than a header, the next fragment starts a new block.
  function StartOf(offset: nat): nat {
    if BLOCK_SIZE - offset < HEADER_SIZE then 0 else offset
  }

  function Trailer(offset: nat): Bytes {
    if 0 <= BLOCK_SIZE - offset < HEADER_SIZE then seq(BLOCK_SIZE - offset, i => 0) else []
  }

  function Image(c: Checksum, f: Fragment): (r: Bytes)
    requires ZERO <= f.kind <= LAST && |f.payload| <= 0xffff
    ensures |r| == HEADER_SIZE + |f.payload|
  {
    EncodeFixed32(c.mask(c.value([f.kind as byte] + f.payload)))
    + [(|f.payload| % 256) as byte, (|f.payload| / 256) as byte, f.kind as byte] + f.payload
  }

  predicate FitsAt(offset: nat, f: Fragment) {
    FULL <= f.kind <= LAST && StartOf(offset) + HEADER_SIZE + |f.payload| <= BLOCK_SIZE
  }

  // The offset in its block at which the last fragment ends.
  function OffsetAfter(fs: seq<Fragment>): nat {
    if fs == [] then 0
    else StartOf(OffsetAfter(fs[..|fs| - 1])) + HEADER_SIZE + |fs[|fs| - 1].payload|
  }

  // The fragments fit into their blocks, one after the other.
  predicate Fits(fs: seq<Fragment>)
    ensures Fits(fs) ==> OffsetAfter(fs) <= BLOCK_SIZE
  {
    fs == [] || (Fits(fs[..|fs| - 1]) && FitsAt(OffsetAfter(fs[..|fs| - 1]), fs[|fs| - 1]))
  }

  function Layout(c: Checksum, fs: seq<Fragment>): Bytes
    requires Fits(fs)
  {
    if fs == [] then []
    else
      var init := fs[..|fs| - 1];
      Layout(c, init) + Trailer(OffsetAfter(init)) + Image(c, fs[|fs| - 1])
  }

  // Positions in the file and offsets in blocks agree.
  lemma {:induction false} LayoutOffset(c: Checksum, fs: seq<Fragment>)
    requires Fits(fs)
    ensures |Layout(c, fs)| % BLOCK_SIZE == OffsetAfter(fs) % BLOCK_SIZE
  {
    if fs != [] {
      var init := fs[..|fs| - 1];
      LayoutOffset(c, init);
      var o := OffsetAfter(init);
      var start := |Layout(c, init)| + |Trailer(o)|;
      assert start % BLOCK_SIZE == StartOf(o) % BLOCK_SIZE by {
        SameOffset(|Layout(c, init)|, o);
      }
      AddToOffset(start, StartOf(o), HEADER_SIZE + |fs[|fs| - 1].payload|);
    }
  }

  lemma {:induction false} SameOffset(n: nat, o: nat)
    requires o <= BLOCK_SIZE && n % BLOCK_SIZE == o % BLOCK_SIZE
    ensures (n + |Trailer(o)|) % BLOCK_SIZE == StartOf(o) % BLOCK_SIZE
  {
    if BLOCK_SIZE - o < HEADER_SIZE {
      AddToOffset(n, o, BLOCK_SIZE - o);
    }
  }

  lemma {:induction false} ReopenOffset(n: nat, o: nat)
    requires o <= BLOCK_SIZE && n % BLOCK_SIZE == o % BLOCK_SIZE
    ensures StartOf(n % BLOCK_SIZE) == StartOf(o) && Trailer(n % BLOCK_SIZE) == Trailer(o)
  {
  }

  lemma {:induction false} AddToOffset(n: nat, m: nat, k: nat)
    requires n % BLOCK_SIZE == m % BLOCK_SIZE
    ensures (n + k) % BLOCK_SIZE == (m + k) % BLOCK_SIZE
  {
    var a, b := n / BLOCK_SIZE, m / BLOCK_SIZE;
    assert n == a * BLOCK_SIZE + n % BLOCK_SIZE && m == b * BLOCK_SIZE + m % BLOCK_SIZE;
    assert n + k == (m + k) + (a - b) * BLOCK_SIZE;
    ModShift(m + k, n + k, a - b);
  }

  lemma {:induction false} ModShift(x: int, y: int, k: int)
    requires y == x + k * BLOCK_SIZE
    ensures x % BLOCK_SIZE == y % BLOCK_SIZE
  {
    var q, r := x / BLOCK_SIZE, x % BLOCK_SIZE;
    assert y == (q + k) * BLOCK_SIZE + r;
    ModUnique(y, q + k, r);
  }

  lemma {:induction false} ModUnique(y: int, q: int, r: int)
    requires y == q * BLOCK_SIZE + r && 0 <= r < BLOCK_SIZE
    ensures y % BLOCK_SIZE == r
  {
  }

  // ----- records -----

  function Payloads(fs: seq<Fragment>): Bytes {
    if fs == [] then [] else Payloads(fs[..|fs| - 1]) + fs[|fs| - 1].payload
  }

  function KindOf(begin: bool, end: bool): int {
    if begin && end then FULL else if begin then FIRST else if end then LAST else MIDDLE
  }

  // The fragments of one record.
  ghost predicate IsRecord(fs: seq<Fragment>, data: Bytes) {
    && fs != [] && Payloads(fs) == data
    && forall i :: 0 <= i < |fs| ==> fs[i].kind == KindOf(i == 0, i == |fs| - 1)
  }

  // What has been written: `ends[r]` fragments up to and including record `r`.
  datatype Written = Written(fragments: seq<Fragment>, ends: seq<nat>, records: seq<Bytes>)
  {
    function Start(r: nat): nat
      requires r <= |ends|
    {
      if r == 0 then 0 else ends[r - 1]
    }

    ghost predicate Valid() {
      && Fits(fragments)
      && |ends| == |records|
      && Start(|ends|) == |fragments|
      && forall r :: 0 <= r < |records| ==> RecordAt(r)
    }

    ghost predicate RecordAt(r: nat)
      requires r < |records| == |ends|
    {
      Start(r) < ends[r] <= |fragments| && IsRecord(fragments[Start(r)..ends[r]], records[r])
    }
  }

  lemma {:induction false} PrefixFits(fs: seq<Fragment>, i: nat)
    requires Fits(fs) && i <= |fs|
    ensures Fits(fs[..i])
    ensures i < |fs| ==> FitsAt(OffsetAfter(fs[..i]), fs[i])
  {
    var n := |fs| - 1;
    if i < n {
      PrefixFits(fs[..n], i);
      assert fs[..n][..i] == fs[..i];
    } else if i == |fs| {
      assert fs[..i] == fs;
    }
  }

  lemma {:induction false} PrefixLayout(c: Checksum, fs: seq<Fragment>, i: nat)
    requires Fits(fs) && i <= |fs|
    ensures Fits(fs[..i]) && Layout(c, fs[..i]) <= Layout(c, fs)
  {
    hide Image, Trailer, OffsetAfter;
    PrefixFits(fs, i);
    if i < |fs| {
      var n := |fs| - 1;
      PrefixLayout(c, fs[..n], i);
      assert fs[..n][..i] == fs[..i];
      assert Layout(c, fs) == Layout(c, fs[..n]) + (Trailer(OffsetAfter(fs[..n])) + Image(c, fs[n]));
    } else {
      assert fs[..i] == fs;
    }
  }

  // ----- the writer -----

  class Writer {
    const checksum: Checksum
    var dest: Bytes
    var blockOffset: nat
    ghost var written: Written

    ghost predicate Ok()
      reads this
    {
      && Fits(written.fragments)
      && dest == Layout(checksum, written.fragments)
      && blockOffset <= BLOCK_SIZE
      && StartOf(blockOffset) == StartOf(OffsetAfter(written.fragments))
      && Trailer(blockOffset) == Trailer(OffsetAfter(written.fragments))
    }

    ghost predicate Valid()
      reads this
    {
      Ok() && written.Valid()
    }

    // A writer that goes on with a file of `dest_length` bytes.
    constructor (checksum: Checksum, dest: Bytes, ghost written: Written)
      requires written.Valid() && dest == Layout(checksum, written.fragments)
      ensures Valid() && this.checksum == checksum && this.dest == dest && this.written == written
    {
      LayoutOffset(checksum, written.fragments);
      ReopenOffset(|dest|, OffsetAfter(written.fragments));
      hide Layout, Fits, OffsetAfter, StartOf, Trailer;
      this.checksum, this.dest, this.written := checksum, dest, written;
      blockOffset := |dest| % BLOCK_SIZE;
    }

    /** AddRecord: even an empty record is emitted once. */
    method AddRecord(data: Bytes)
      requires Valid()
      modifies this
      ensures Valid() && written.records == old(written.records) + [data]
      ensures old(dest) <= dest && old(written.fragments) <= written.fragments
      ensures FillsBlocks(written.fragments, |old(written.fragments)|)
    {
      hide Layout, Image, Fits, FitsAt, OffsetAfter, Payloads, IsRecord, Cutting, Written.Valid, StartOf, Trailer;
      var left := data;
      var begin := true;
      ghost var before := written;
      ghost var start := |before.fragments|;
      WrittenFits(written);
      NothingYet(before.fragments, data);
      while true
        invariant Ok() && written.ends == before.ends && written.records == before.records
        invariant before.fragments <= written.fragments && old(dest) <= dest
        invariant begin <==> |written.fragments| == start
        invariant Cutting(written.fragments, start, left, data)
        invariant begin || left != []
        decreases |left|, if StartOf(blockOffset) + HEADER_SIZE == BLOCK_SIZE then 1 else 0
      {
        left := AddFragment(left, begin, start, data);
        begin := false;
        if |left| == 0 {
          break;
        }
      }
      written := Written(written.fragments, before.ends + [|written.fragments|], before.records + [data]);
      OneMoreRecord(before, written, data);
      CutFills(written.fragments, start, left, data);
    }

    // One turn of the loop of AddRecord.
    method AddFragment(left: Bytes, begin: bool, ghost start: nat, ghost data: Bytes) returns (rest: Bytes)
      requires Ok() && Cutting(written.fragments, start, left, data)
      requires (begin <==> |written.fragments| == start) && (begin || left != [])
      modifies this
      ensures Ok() && Cutting(written.fragments, start, rest, data)
      ensures written.ends == old(written.ends) && written.records == old(written.records)
      ensures |written.fragments| == |old(written.fragments)| + 1 && old(written.fragments) <= written.fragments
      ensures old(dest) <= dest
      ensures |rest| < |left| || rest == []
              || (rest == left && StartOf(old(blockOffset)) + HEADER_SIZE == BLOCK_SIZE && StartOf(blockOffset) + HEADER_SIZE < BLOCK_SIZE)
    {
      hide Layout, Image, Fits, FitsAt, OffsetAfter, Cutting;
      ghost var fs := written.fragments;
      var leftover := BLOCK_SIZE - blockOffset;
      if leftover < HEADER_SIZE {
        if leftover > 0 {
          dest := dest + seq(leftover, i => 0);
        }
        blockOffset := 0;
      }
      assert blockOffset == StartOf(OffsetAfter(fs)) && dest == Layout(checksum, fs) + Trailer(OffsetAfter(fs));
      var avail := BLOCK_SIZE - blockOffset - HEADER_SIZE;
      var length := if |left| < avail then |left| else avail;
      var end := |left| == length;
      var kind := KindOf(begin, end);
      ghost var f := Fragment(kind, left[..length]);
      CutOne(fs, start, left, data, f);
      OneMoreFragment(checksum, fs, f);
      EmitPhysicalRecord(kind, left[..length]);
      written := written.(fragments := fs + [f]);
      rest := left[length..];
    }

    method EmitPhysicalRecord(kind: int, payload: Bytes)
      requires FULL <= kind <= LAST && blockOffset + HEADER_SIZE + |payload| <= BLOCK_SIZE
      modifies this`dest, this`blockOffset
      ensures dest == old(dest) + Image(checksum, Fragment(kind, payload))
      ensures blockOffset == old(blockOffset) + HEADER_SIZE + |payload|
    {
      var length := |payload|;
      var crc := checksum.mask(checksum.value([kind as byte] + payload));
      var header := EncodeFixed32(crc) + [(length % 256) as byte, (length / 256) as byte, kind as byte];
      dest := dest + header;
      dest := dest + payload;
      blockOffset := blockOffset + HEADER_SIZE + length;
    }
  }

  // Every fragment that does not end its record fills its block.
  ghost predicate FillsBlocks(fs: seq<Fragment>, from: nat) {
    forall i :: from <= i < |fs| && (fs[i].kind == FIRST || fs[i].kind == MIDDLE) ==> OffsetAfter(fs[..i + 1]) == BLOCK_SIZE
  }

  // The fragments from `start` on and what is left make up the record.
  ghost predicate Cutting(fs: seq<Fragment>, start: nat, left: Bytes, data: Bytes) {
    && start <= |fs|
    && Payloads(fs[start..]) + left == data
    && (forall i :: start <= i < |fs| ==> fs[i].kind == KindOf(i == start, i == |fs| - 1 && left == []))
    && FillsBlocks(fs, start)
  }

  lemma {:induction false} CutFills(fs: seq<Fragment>, start: nat, left: Bytes, data: Bytes)
    requires Cutting(fs, start, left, data)
    ensures FillsBlocks(fs, start)
  {
  }

  lemma {:induction false} NothingYet(fs: seq<Fragment>, data: Bytes)
    ensures Cutting(fs, |fs|, data, data)
  {
    assert fs[|fs|..] == [];
  }

  lemma {:induction false} WrittenFits(w: Written)
    requires w.Valid()
    ensures Fits(w.fragments)
  {
  }

  lemma {:induction false} OneMoreFragment(c: Checksum, fs: seq<Fragment>, f: Fragment)
    requires Fits(fs) && FULL <= f.kind <= LAST && StartOf(OffsetAfter(fs)) + HEADER_SIZE + |f.payload| <= BLOCK_SIZE
    ensures Fits(fs + [f])
    ensures OffsetAfter(fs + [f]) == StartOf(OffsetAfter(fs)) + HEADER_SIZE + |f.payload|
    ensures Layout(c, fs + [f]) == Layout(c, fs) + Trailer(OffsetAfter(fs)) + Image(c, f)
  {
    hide Image, Trailer;
    assert (fs + [f])[..|fs|] == fs;
  }

  lemma {:induction false} CutOne(fs: seq<Fragment>, start: nat, left: Bytes, data: Bytes, f: Fragment)
    requires Cutting(fs, start, left, data) && (|fs| == start || left != [])
    requires |f.payload| <= |left| && f.payload == left[..|f.payload|]
    requires f.kind == KindOf(|fs| == start, |f.payload| == |left|)
    requires |f.payload| < |left| ==> StartOf(OffsetAfter(fs)) + HEADER_SIZE + |f.payload| == BLOCK_SIZE
    ensures Cutting(fs + [f], start, left[|f.payload|..], data)
  {
    hide FillsBlocks, OffsetAfter, Fits, Payloads;
    var all := fs + [f];
    FillsOn(fs, start, f);
    OnePayload(fs, start, left, f);
    forall i | start <= i < |all|
      ensures all[i].kind == KindOf(i == start, i == |all| - 1 && left[|f.payload|..] == [])
    {
      assert i < |fs| ==> all[i] == fs[i];
    }
  }

  lemma {:induction false} OnePayload(fs: seq<Fragment>, start: nat, left: Bytes, f: Fragment)
    requires start <= |fs| && |f.payload| <= |left| && f.payload == left[..|f.payload|]
    ensures Payloads((fs + [f])[start..]) + left[|f.payload|..] == Payloads(fs[start..]) + left
  {
    var n := |f.payload|;
    assert (fs + [f])[start..] == fs[start..] + [f];
    assert (fs[start..] + [f])[..|fs| - start] == fs[start..];
    assert left == left[..n] + left[n..];
  }

  lemma {:induction false} FillsOn(fs: seq<Fragment>, start: nat, f: Fragment)
    requires FillsBlocks(fs, start)
    requires f.kind == FIRST || f.kind == MIDDLE ==> StartOf(OffsetAfter(fs)) + HEADER_SIZE + |f.payload| == BLOCK_SIZE
    ensures FillsBlocks(fs + [f], start)
  {
    var all := fs + [f];
    forall i | start <= i < |all| && (all[i].kind == FIRST || all[i].kind == MIDDLE)
      ensures OffsetAfter(all[..i + 1]) == BLOCK_SIZE
    {
      if i < |fs| {
        assert all[..i + 1] == fs[..i + 1] && all[i] == fs[i];
      } else {
        assert all[..i + 1] == all && all[..|fs|] == fs;
      }
    }
  }

  lemma {:induction false} OneMoreRecord(before: Written, after: Written, data: Bytes)
    requires before.Valid() && Fits(after.fragments) && before.fragments <= after.fragments
    requires |before.fragments| < |after.fragments| && Cutting(after.fragments, |before.fragments|, [], data)
    requires after == Written(after.fragments, before.ends + [|after.fragments|], before.records + [data])
    ensures after.Valid()
  {
    hide Fits, FillsBlocks;
    forall r | 0 <= r < |after.records|
      ensures after.RecordAt(r)
    {
      if r < |before.records| {
        assert before.RecordAt(r);
        assert after.fragments[before.Start(r)..before.ends[r]] == before.fragments[before.Start(r)..before.ends[r]];
      } else {
        assert after.fragments[|before.fragments|..] == after.fragments[|before.fragments|..|after.fragments|];
        assert Payloads(after.fragments[|before.fragments|..]) + [] == data;
      }
    }
  }

  // ----- the reader -----

  // The block read last ends at `end`; what is left of it starts at `pos`.
  predicate InBlock(fileLength: nat, pos: nat, end: nat, eof: bool) {
    && pos <= end <= fileLength
    && (if eof then end == fileLength && end - end % BLOCK_SIZE <= pos
        else end % BLOCK_SIZE == 0 && end - pos <= BLOCK_SIZE)
  }

  // Where fragment `i` starts, behind the trailer of a block that is used up.
  function FragmentStart(c: Checksum, fs: seq<Fragment>, i: nat): nat
    requires i <= |fs| && Fits(fs[..i])
  {
    |Layout(c, fs[..i])| + |Trailer(OffsetAfter(fs[..i]))|
  }

  // The reader is done with the first `i` fragments of what was written.
  ghost predicate ReadUpTo(c: Checksum, fs: seq<Fragment>, i: nat, file: Bytes, pos: nat) {
    && Fits(fs) && i <= |fs| && Fits(fs[..i]) && file <= Layout(c, fs) && c.Valid()
    && |Layout(c, fs[..i])| <= |file|
    && (pos == |Layout(c, fs[..i])| || pos == FragmentStart(c, fs, i))
  }

  // Fragment `i` is wholly in the file.
  ghost predicate Whole(c: Checksum, fs: seq<Fragment>, i: nat, file: Bytes) {
    i < |fs| && Fits(fs[..i + 1]) && |Layout(c, fs[..i + 1])| <= |file|
  }

  lemma {:induction false} FragmentEnd(c: Checksum, fs: seq<Fragment>, i: nat)
    requires Fits(fs) && i < |fs|
    ensures Fits(fs[..i]) && Fits(fs[..i + 1]) && FitsAt(OffsetAfter(fs[..i]), fs[i])
    ensures |Layout(c, fs[..i + 1])| == FragmentStart(c, fs, i) + HEADER_SIZE + |fs[i].payload|
    ensures Layout(c, fs[..i + 1]) == Layout(c, fs[..i]) + Trailer(OffsetAfter(fs[..i])) + Image(c, fs[i])
  {
    hide Image, Trailer, Fits, FitsAt;
    PrefixFits(fs, i);
    PrefixFits(fs, i + 1);
    assert fs[..i + 1][..i] == fs[..i];
  }

  lemma {:induction false} StartOffset(c: Checksum, fs: seq<Fragment>, i: nat)
    requires Fits(fs) && i <= |fs| && Fits(fs[..i])
    ensures |Layout(c, fs[..i])| % BLOCK_SIZE == OffsetAfter(fs[..i]) % BLOCK_SIZE
    ensures FragmentStart(c, fs, i) % BLOCK_SIZE == StartOf(OffsetAfter(fs[..i])) % BLOCK_SIZE
    ensures OffsetAfter(fs[..i]) <= BLOCK_SIZE
  {
    hide Layout, Trailer;
    LayoutOffset(c, fs[..i]);
    SameOffset(|Layout(c, fs[..i])|, OffsetAfter(fs[..i]));
  }

  // Less than a header before the end of a full block: the next fragment is behind it.
  lemma {:induction false} TrailerIsSkipped(c: Checksum, fs: seq<Fragment>, i: nat, file: Bytes, pos: nat, end: nat)
    requires ReadUpTo(c, fs, i, file, pos) && InBlock(|file|, pos, end, false) && end - pos < HEADER_SIZE
    ensures ReadUpTo(c, fs, i, file, end)
  {
    hide Layout, Fits;
    StartOffset(c, fs, i);
    var o := OffsetAfter(fs[..i]);
    DistanceToEnd(pos, end);
    if pos % BLOCK_SIZE != 0 {
      assert pos % BLOCK_SIZE == BLOCK_SIZE - (end - pos);
    }
  }

  lemma {:induction false} DistanceToEnd(pos: nat, end: nat)
    requires pos <= end && end % BLOCK_SIZE == 0 && end - pos <= BLOCK_SIZE
    ensures pos % BLOCK_SIZE == 0 ==> end == pos || end == pos + BLOCK_SIZE
    ensures pos % BLOCK_SIZE != 0 ==> end - pos == BLOCK_SIZE - pos % BLOCK_SIZE
  {
    var q, r := pos / BLOCK_SIZE, pos % BLOCK_SIZE;
    var k := end / BLOCK_SIZE;
    assert pos == q * BLOCK_SIZE + r && end == k * BLOCK_SIZE;
    assert (k - q) * BLOCK_SIZE == end - pos + r;
    if r != 0 {
      assert k - q == 1;
    } else {
      assert k - q == 0 || k - q == 1;
    }
  }

  // With a header's worth of bytes left, the next fragment starts right here, unless
  // there is none; and it ends in this block.
  lemma {:induction false} HeaderIsHere(c: Checksum, fs: seq<Fragment>, i: nat, file: Bytes, pos: nat, end: nat, eof: bool)
    requires ReadUpTo(c, fs, i, file, pos) && InBlock(|file|, pos, end, eof) && end - pos >= HEADER_SIZE
    ensures i < |fs| && pos == FragmentStart(c, fs, i)
    ensures !eof ==> pos + HEADER_SIZE + |fs[i].payload| <= end
  {
    hide Layout, Fits;
    StartOffset(c, fs, i);
    PrefixLayout(c, fs, i);
    NothingBehind(c, fs, i, file, pos);
    var o := OffsetAfter(fs[..i]);
    if eof {
      RoomAtEnd(pos, end);
    } else {
      DistanceToEnd(pos, end);
    }
    assert pos == FragmentStart(c, fs, i);
    FragmentEnd(c, fs, i);
  }

  lemma {:induction false} NothingBehind(c: Checksum, fs: seq<Fragment>, i: nat, file: Bytes, pos: nat)
    requires ReadUpTo(c, fs, i, file, pos) && pos < |file|
    ensures i < |fs|
  {
    assert fs[..|fs|] == fs;
  }

  lemma {:induction false} RoomAtEnd(pos: nat, end: nat)
    requires end - end % BLOCK_SIZE <= pos <= end
    ensures end - pos < BLOCK_SIZE - pos % BLOCK_SIZE
  {
    var q := end / BLOCK_SIZE;
    assert end == q * BLOCK_SIZE + end % BLOCK_SIZE;
    ModUnique(pos, q, pos - q * BLOCK_SIZE);
  }

  // The bytes of a fragment, as far as the file goes.
  lemma {:induction false} ImageInFile(c: Checksum, fs: seq<Fragment>, i: nat, file: Bytes, n: nat)
    requires Fits(fs) && i < |fs| && Fits(fs[..i]) && file <= Layout(c, fs)
    requires n <= HEADER_SIZE + |fs[i].payload| && FragmentStart(c, fs, i) + n <= |file|
    ensures FULL <= fs[i].kind <= LAST && |fs[i].payload| <= 0xffff
    ensures var s := FragmentStart(c, fs, i); file[s..s + n] == Image(c, fs[i])[..n]
  {
    hide Image, Trailer, Layout, Fits;
    FragmentEnd(c, fs, i);
    PrefixLayout(c, fs, i + 1);
    var s := FragmentStart(c, fs, i);
    var here := Layout(c, fs[..i + 1]);
    assert here[s..] == Image(c, fs[i]);
    assert here[s..][..n] == here[s..s + n];
    assert file[s..s + n] == Layout(c, fs)[s..s + n] == here[s..s + n];
  }

  lemma {:induction false} HeaderFields(c: Checksum, f: Fragment)
    requires FULL <= f.kind <= LAST && |f.payload| <= 0xffff
    ensures var h := Image(c, f)[..HEADER_SIZE];
      && h[4] as int + h[5] as int * 256 == |f.payload| && h[6] as int == f.kind
      && DecodeFixed32(h) == c.mask(c.value([f.kind as byte] + f.payload))
    ensures Image(c, f)[HEADER_SIZE - 1..] == [f.kind as byte] + f.payload
    ensures Image(c, f)[HEADER_SIZE..] == f.payload
  {
    var crc := c.mask(c.value([f.kind as byte] + f.payload));
    var h := Image(c, f);
    FixedRoundTrip(crc, []);
    assert h[..4] == EncodeFixed32(crc);
    assert h[0] == EncodeFixed32(crc)[0] && h[1] == EncodeFixed32(crc)[1] && h[2] == EncodeFixed32(crc)[2] && h[3] == EncodeFixed32(crc)[3];
  }

  // ----- what a reader may take for a record, in any file -----

  // A fragment and where its header is.
  datatype Piece = Piece(at: nat, fragment: Fragment)
  {
    function End(): nat {
      at + HEADER_SIZE + |fragment.payload|
    }
  }

  ghost predicate PieceAt(c: Checksum, verify: bool, file: Bytes, p: Piece) {
    && p.End() <= |file|
    && file[p.at + 4] as int + file[p.at + 5] as int * 256 == |p.fragment.payload| && file[p.at + 6] as int == p.fragment.kind
    && file[p.at + HEADER_SIZE..p.End()] == p.fragment.payload
    && ChecksumFits(c, verify, file[p.at..p.at + HEADER_SIZE], file[p.at + HEADER_SIZE - 1..p.End()])
  }

  // The checksum is over the kind and the payload.
  predicate ChecksumFits(c: Checksum, verify: bool, header: Bytes, body: Bytes)
    requires |header| == HEADER_SIZE
  {
    verify ==> c.unmask(DecodeFixed32(header)) == c.value(body)
  }

  ghost predicate PiecesIn(c: Checksum, verify: bool, file: Bytes, pieces: seq<Piece>, from: nat, to: nat) {
    && (forall i :: 0 <= i < |pieces| ==> PieceAt(c, verify, file, pieces[i]) && from <= pieces[i].at && pieces[i].End() <= to)
    && (forall i, j :: 0 <= i < j < |pieces| ==> pieces[i].End() <= pieces[j].at)
  }

  function Fragments(pieces: seq<Piece>): (r: seq<Fragment>)
    ensures |r| == |pieces| && forall i :: 0 <= i < |r| ==> r[i] == pieces[i].fragment
  {
    seq(|pieces|, i requires 0 <= i < |pieces| => pieces[i].fragment)
  }

  // The record is put together from fragments of that part of the file, in their order and
  // with their checksums.
  ghost predicate RecordIn(c: Checksum, verify: bool, file: Bytes, from: nat, to: nat, record: Bytes) {
    exists pieces :: PiecesIn(c, verify, file, pieces, from, to) && IsRecord(Fragments(pieces), record)
  }

  // The records lie one behind the other.
  ghost predicate RecordsIn(c: Checksum, verify: bool, file: Bytes, from: nat, to: nat, records: seq<Bytes>)
    decreases |records|
  {
    if records == [] then from <= to
    else
      var n := |records| - 1;
      exists mid: nat :: RecordsIn(c, verify, file, from, mid, records[..n]) && RecordIn(c, verify, file, mid, to, records[n])
  }

  ghost predicate Holds(c: Checksum, verify: bool, file: Bytes, from: nat, records: seq<Bytes>) {
    exists to: nat :: to <= |file| && RecordsIn(c, verify, file, from, to, records)
  }

  lemma {:induction false} NothingHeld(c: Checksum, verify: bool, file: Bytes, from: nat)
    ensures RecordsIn(c, verify, file, from, from, [])
  {
  }

  lemma {:induction false} OneMoreHeld(c: Checksum, verify: bool, file: Bytes, from: nat, mid: nat, to: nat, records: seq<Bytes>, record: Bytes)
    requires RecordsIn(c, verify, file, from, mid, records) && RecordIn(c, verify, file, mid, to, record)
    ensures RecordsIn(c, verify, file, from, to, records + [record])
  {
    hide RecordIn;
    assert (records + [record])[..|records|] == records;
  }

  // A record that has begun and not ended.
  ghost predicate Begun(c: Checksum, verify: bool, file: Bytes, from: nat, to: nat, pieces: seq<Piece>, scratch: Bytes) {
    && PiecesIn(c, verify, file, pieces, from, to) && pieces != [] && Payloads(Fragments(pieces)) == scratch
    && forall i :: 0 <= i < |pieces| ==> pieces[i].fragment.kind == if i == 0 then FIRST else MIDDLE
  }

  lemma {:induction false} OnePiece(c: Checksum, verify: bool, file: Bytes, from: nat, to: nat, p: Piece)
    requires PieceAt(c, verify, file, p) && from <= p.at && p.End() <= to
    ensures PiecesIn(c, verify, file, [p], from, to) && Payloads(Fragments([p])) == p.fragment.payload
    ensures p.fragment.kind == FULL ==> RecordIn(c, verify, file, from, to, p.fragment.payload)
    ensures p.fragment.kind == FIRST ==> Begun(c, verify, file, from, to, [p], p.fragment.payload)
  {
    hide PieceAt;
    var fs := Fragments([p]);
    assert fs[..0] == [] && Payloads(fs[..0]) == [];
    assert Payloads(fs) == [] + p.fragment.payload;
    assert p.fragment.kind == FULL ==> IsRecord(fs, p.fragment.payload);
  }

  lemma {:induction false} BegunLater(c: Checksum, verify: bool, file: Bytes, from: nat, to: nat, pieces: seq<Piece>, scratch: Bytes, later: nat)
    requires Begun(c, verify, file, from, to, pieces, scratch) && to <= later
    ensures Begun(c, verify, file, from, later, pieces, scratch)
  {
    hide PieceAt;
  }

  lemma {:induction false} NextPiece(c: Checksum, verify: bool, file: Bytes, from: nat, to: nat, pieces: seq<Piece>, scratch: Bytes, p: Piece, later: nat)
    requires Begun(c, verify, file, from, to, pieces, scratch)
    requires PieceAt(c, verify, file, p) && to <= p.at && p.End() <= later
    ensures p.fragment.kind == MIDDLE ==> Begun(c, verify, file, from, later, pieces + [p], scratch + p.fragment.payload)
    ensures p.fragment.kind == LAST ==> RecordIn(c, verify, file, from, later, scratch + p.fragment.payload)
  {
    hide PieceAt;
    var all := pieces + [p];
    var fs := Fragments(all);
    assert fs[..|pieces|] == Fragments(pieces);
    assert PiecesIn(c, verify, file, all, from, later);
    assert Payloads(fs) == scratch + p.fragment.payload;
    assert p.fragment.kind == LAST ==> IsRecord(fs, scratch + p.fragment.payload);
  }

  // ----- what a reader finds, in any file -----

  // The end of the block in which the position lies, or of the file.
  function BlockEnd(fileLength: nat, p: nat): (r: nat)
    requires p <= fileLength
    ensures p <= r <= fileLength
  {
    var e := (p / BLOCK_SIZE + 1) * BLOCK_SIZE;
    if e < fileLength then e else fileLength
  }

  // Where the next header is looked for: not in the last bytes of a full block.
  function HeaderPlace(fileLength: nat, p: nat): (r: nat)
    requires p <= fileLength
    ensures p <= r <= fileLength
  {
    var e := BlockEnd(fileLength, p);
    if e - p < HEADER_SIZE && e % BLOCK_SIZE == 0 then e else p
  }

  // The end of what can be read, a fragment, or bytes that are dropped up to the end of
  // their block.
  datatype Finding = Ends | Finds(piece: Piece) | Drops(to: nat, reported: bool)

  function LengthAt(file: Bytes, s: nat): nat
    requires s + HEADER_SIZE <= |file|
  {
    file[s + 4] as int + file[s + 5] as int * 256
  }

  // What stands at a position.  A fragment that goes beyond the end of the file was cut in
  // writing; space without type and length was allocated ahead; both are no corruption.
  function Find(c: Checksum, verify: bool, file: Bytes, p: nat): (r: Finding)
    ensures r.Finds? ==> p <= r.piece.at && r.piece.End() <= |file|
    ensures r.Drops? ==> p < r.to <= |file|
  {
    if p > |file| then Ends
    else
      var s := HeaderPlace(|file|, p);
      var e := BlockEnd(|file|, s);
      if e - s < HEADER_SIZE then Ends
      else
        var stop := s + HEADER_SIZE + LengthAt(file, s);
        if stop > e then if e % BLOCK_SIZE == 0 then Drops(e, true) else Ends
        else if file[s + 6] == 0 && LengthAt(file, s) == 0 then Drops(e, false)
        else if !ChecksumFits(c, verify, file[s..s + HEADER_SIZE], file[s + HEADER_SIZE - 1..stop]) then Drops(e, true)
        else Finds(Piece(s, Fragment(file[s + 6] as int, file[s + HEADER_SIZE..stop])))
  }

  // What a call of ReadRecord gives: how many reports it makes, and the record, if any, with
  // the position behind it.
  datatype Call = NoRecord(reports: nat) | Returns(reports: nat, record: Bytes, next: nat)

  // A record that began and is given up counts if it has bytes.
  function Partial(open: Option<Bytes>): nat {
    if open.Some? && open.value != [] then 1 else 0
  }

  function Given(open: Option<Bytes>): nat {
    if open.Some? then 1 else 0
  }

  // Fragments put together from a position on, behind a record that has begun, or none.  The
  // numbers of the end and of a bad record stand for these even if they are read from the file.
  function Gather(c: Checksum, verify: bool, file: Bytes, p: nat, open: Option<Bytes>, reports: nat): (r: Call)
    ensures r.reports >= reports
    ensures r.Returns? ==> p < r.next <= |file|
    decreases |file| - p
  {
    match Find(c, verify, file, p)
    case Ends => NoRecord(reports)
    case Drops(to, reported) => Gather(c, verify, file, to, None, reports + Given(open) + if reported then 1 else 0)
    case Finds(piece) =>
      var kind, payload, next := piece.fragment.kind, piece.fragment.payload, piece.End();
      if kind == FULL then Returns(reports + Partial(open), payload, next)
      else if kind == FIRST then Gather(c, verify, file, next, Some(payload), reports + Partial(open))
      else if kind == MIDDLE && open.Some? then Gather(c, verify, file, next, Some(open.value + payload), reports)
      else if kind == LAST && open.Some? then Returns(reports, open.value + payload, next)
      else if kind == EOF then NoRecord(reports)
      else if kind == BAD_RECORD then Gather(c, verify, file, next, None, reports + Given(open))
      else Gather(c, verify, file, next, None, reports + 1)
  }

  function NextRecord(c: Checksum, verify: bool, file: Bytes, p: nat): Call {
    Gather(c, verify, file, p, None, 0)
  }

  // All records from a position on.
  function AllRecords(c: Checksum, verify: bool, file: Bytes, p: nat): seq<Bytes>
    decreases |file| - p
  {
    match NextRecord(c, verify, file, p)
    case NoRecord(_) => []
    case Returns(_, record, next) => [record] + AllRecords(c, verify, file, next)
  }

  // The records before anything is reported.
  function CleanRecords(c: Checksum, verify: bool, file: Bytes, p: nat): seq<Bytes>
    decreases |file| - p
  {
    match NextRecord(c, verify, file, p)
    case NoRecord(_) => []
    case Returns(reports, record, next) => if reports > 0 then [] else [record] + CleanRecords(c, verify, file, next)
  }

  predicate Reported(c: Checksum, verify: bool, file: Bytes, p: nat)
    decreases |file| - p
  {
    match NextRecord(c, verify, file, p)
    case NoRecord(reports) => reports > 0
    case Returns(reports, _, next) => reports > 0 || Reported(c, verify, file, next)
  }

  // Up to the end of what is read, nothing is dropped for its length or its checksum.
  predicate Intact(c: Checksum, verify: bool, file: Bytes, p: nat)
    decreases |file| - p
  {
    match Find(c, verify, file, p)
    case Ends => true
    case Drops(to, reported) => !reported && Intact(c, verify, file, to)
    case Finds(piece) => piece.fragment.kind == EOF || Intact(c, verify, file, piece.End())
  }

  // A call that reports nothing passes nothing that is dropped so.
  lemma {:induction false} QuietCallIsIntact(c: Checksum, verify: bool, file: Bytes, p: nat, open: Option<Bytes>, reports: nat)
    requires Gather(c, verify, file, p, open, reports).reports == 0
    ensures var r := Gather(c, verify, file, p, open, reports);
      r.Returns? ==> Intact(c, verify, file, r.next) ==> Intact(c, verify, file, p)
    ensures Gather(c, verify, file, p, open, reports).NoRecord? ==> Intact(c, verify, file, p)
    decreases |file| - p
  {
    hide Find;
    var found := Find(c, verify, file, p);
    if found.Drops? {
      QuietCallIsIntact(c, verify, file, found.to, None, reports + Given(open) + if found.reported then 1 else 0);
    } else if found.Finds? {
      var kind, payload, next := found.piece.fragment.kind, found.piece.fragment.payload, found.piece.End();
      if kind == FIRST {
        QuietCallIsIntact(c, verify, file, next, Some(payload), reports + Partial(open));
      } else if kind == MIDDLE && open.Some? {
        QuietCallIsIntact(c, verify, file, next, Some(open.value + payload), reports);
      } else if kind == BAD_RECORD {
        QuietCallIsIntact(c, verify, file, next, None, reports + Given(open));
      }
    }
  }

  /** Without a report nothing was dropped, and the clean records are all. */
  lemma {:induction false} UnreportedIsIntact(c: Checksum, verify: bool, file: Bytes, p: nat)
    requires !Reported(c, verify, file, p)
    ensures Intact(c, verify, file, p) && CleanRecords(c, verify, file, p) == AllRecords(c, verify, file, p)
    decreases |file| - p
  {
    hide Gather, Intact;
    var call := NextRecord(c, verify, file, p);
    QuietCallIsIntact(c, verify, file, p, None, 0);
    if call.Returns? {
      UnreportedIsIntact(c, verify, file, call.next);
    }
  }

  // These records were read without a report, and the reader stands behind them.
  ghost predicate ReadSoFar(c: Checksum, verify: bool, file: Bytes, read: seq<Bytes>, pos: nat) {
    && CleanRecords(c, verify, file, 0) == read + CleanRecords(c, verify, file, pos)
    && (Reported(c, verify, file, 0) <==> Reported(c, verify, file, pos))
  }

  lemma {:induction false} StartsReading(c: Checksum, verify: bool, file: Bytes)
    ensures ReadSoFar(c, verify, file, [], 0)
    ensures AllRecords(c, verify, file, 0) == [] + AllRecords(c, verify, file, 0)
  {
    hide CleanRecords, Reported, AllRecords;
  }

  lemma {:induction false} ReadsOn(c: Checksum, verify: bool, file: Bytes, read: seq<Bytes>, pos: nat)
    requires AllRecords(c, verify, file, 0) == read + AllRecords(c, verify, file, pos)
    ensures match NextRecord(c, verify, file, pos)
            case NoRecord(_) => AllRecords(c, verify, file, 0) == read
            case Returns(_, record, next) => AllRecords(c, verify, file, 0) == (read + [record]) + AllRecords(c, verify, file, next)
  {
    hide Gather;
    var call := NextRecord(c, verify, file, pos);
    assert read + [] == read;
    if call.Returns? {
      assert read + ([call.record] + AllRecords(c, verify, file, call.next)) == (read + [call.record]) + AllRecords(c, verify, file, call.next);
    }
  }

  // ... as long as nothing is reported.
  lemma {:induction false} ReadsOnCleanly(c: Checksum, verify: bool, file: Bytes, read: seq<Bytes>, pos: nat)
    requires ReadSoFar(c, verify, file, read, pos)
    ensures var call := NextRecord(c, verify, file, pos);
      if call.reports > 0 then CleanRecords(c, verify, file, 0) == read && Reported(c, verify, file, 0)
      else if call.NoRecord? then CleanRecords(c, verify, file, 0) == read == AllRecords(c, verify, file, 0) && !Reported(c, verify, file, 0)
      else ReadSoFar(c, verify, file, read + [call.record], call.next)
  {
    hide Gather, Intact, AllRecords;
    var call := NextRecord(c, verify, file, pos);
    assert read + [] == read;
    if call == NoRecord(0) {
      UnreportedIsIntact(c, verify, file, 0);
    }
    if call.Returns? && call.reports == 0 {
      assert read + ([call.record] + CleanRecords(c, verify, file, call.next)) == (read + [call.record]) + CleanRecords(c, verify, file, call.next);
    }
  }

  // What is found is a fragment with its checksum.
  lemma {:induction false} FoundIsPiece(c: Checksum, verify: bool, file: Bytes, p: nat)
    ensures Find(c, verify, file, p).Finds? ==> PieceAt(c, verify, file, Find(c, verify, file, p).piece)
  {
    hide ChecksumFits;
  }

  // What is returned is a record of the file.
  lemma {:induction false} GatheredIsRecord(c: Checksum, verify: bool, file: Bytes, from: nat, p: nat, open: Option<Bytes>, reports: nat, pieces: seq<Piece>)
    requires from <= p && (open.Some? ==> Begun(c, verify, file, from, p, pieces, open.value))
    ensures var r := Gather(c, verify, file, p, open, reports); r.Returns? ==> RecordIn(c, verify, file, from, r.next, r.record)
    decreases |file| - p
  {
    hide Find, PieceAt, Begun, RecordIn;
    var found := Find(c, verify, file, p);
    FoundIsPiece(c, verify, file, p);
    if found.Drops? {
      GatheredIsRecord(c, verify, file, from, found.to, None, reports + Given(open) + (if found.reported then 1 else 0), []);
    } else if found.Finds? {
      var piece := found.piece;
      var kind, payload, next := piece.fragment.kind, piece.fragment.payload, piece.End();
      if kind == FULL || kind == FIRST {
        OnePiece(c, verify, file, from, next, piece);
      }
      if kind == FIRST {
        GatheredIsRecord(c, verify, file, from, next, Some(payload), reports + Partial(open), [piece]);
      } else if (kind == MIDDLE || kind == LAST) && open.Some? {
        NextPiece(c, verify, file, from, p, pieces, open.value, piece, next);
        if kind == MIDDLE {
          GatheredIsRecord(c, verify, file, from, next, Some(open.value + payload), reports, pieces + [piece]);
        }
      } else if kind == BAD_RECORD {
        GatheredIsRecord(c, verify, file, from, next, None, reports + Given(open), []);
      } else if kind != FULL && kind != EOF {
        GatheredIsRecord(c, verify, file, from, next, None, reports + 1, []);
      }
    }
  }

  // The fragment at the beginning of a buffer, and how much of the buffer is used up by it:
  // all of it if something is wrong.
  method ParseHeader(c: Checksum, verify: bool, buffer: Bytes, eof: bool) returns (kind: int, result: Bytes, used: nat, reported: bool)
    requires |buffer| >= HEADER_SIZE
    ensures used <= |buffer|
    ensures var length := buffer[4] as int + buffer[5] as int * 256;
      if HEADER_SIZE + length > |buffer| then kind == (if eof then EOF else BAD_RECORD) && used == |buffer| && reported == !eof
      else if buffer[6] == 0 && length == 0 then kind == BAD_RECORD && used == |buffer| && !reported
      else if !ChecksumFits(c, verify, buffer[..HEADER_SIZE], buffer[HEADER_SIZE - 1..HEADER_SIZE + length]) then
        kind == BAD_RECORD && used == |buffer| && reported
      else kind == buffer[6] as int && result == buffer[HEADER_SIZE..HEADER_SIZE + length] && used == HEADER_SIZE + length && !reported
  {
    var header := buffer[..HEADER_SIZE];
    var length: nat := header[4] as int + header[5] as int * 256;
    kind := header[6] as int;
    result, used, reported := [], |buffer|, false;
    if HEADER_SIZE + length > |buffer| {
      if !eof {
        return BAD_RECORD, [], |buffer|, true;
      }
      return EOF, [], |buffer|, false;
    }
    if kind == ZERO && length == 0 {
      // Preallocated space: no report.
      return BAD_RECORD, [], |buffer|, false;
    }
    if verify {
      var expected := c.unmask(DecodeFixed32(header));
      var actual := c.value(buffer[HEADER_SIZE - 1..HEADER_SIZE + length]);
      if actual != expected {
        return BAD_RECORD, [], |buffer|, true;
      }
    }
    result, used := buffer[HEADER_SIZE..HEADER_SIZE + length], HEADER_SIZE + length;
  }

  class Reader {
    const checksum: Checksum
    const file: Bytes
    const verify: bool
    var buffer: Bytes
    var end: nat
    var eof: bool
    // How often corruption has been reported.
    var reports: int

    ghost predicate Ok()
      reads this`buffer, this`end, this`eof
    {
      && |buffer| <= end
      && InBlock(|file|, end - |buffer|, end, eof)
      && buffer == file[end - |buffer|..end]
    }

    ghost function Pos(): nat
      requires |buffer| <= end
      reads this`buffer, this`end
    {
      end - |buffer|
    }

    ghost predicate At(fs: seq<Fragment>, i: nat)
      requires |buffer| <= end
      reads this`buffer, this`end
    {
      ReadUpTo(checksum, fs, i, file, Pos())
    }

    constructor (checksum: Checksum, file: Bytes, verify: bool)
      ensures Ok() && Pos() == 0 && reports == 0
      ensures this.checksum == checksum && this.file == file && this.verify == verify
    {
      this.checksum, this.file, this.verify := checksum, file, verify;
      buffer, end, eof, reports := [], 0, false, 0;
    }

    // The next block of the file.
    method ReadBlock()
      requires Ok() && !eof
      modifies this`buffer, this`end, this`eof
      ensures Ok() && Pos() == old(end)
      ensures end > old(end) || eof
    {
      var n := if |file| - end < BLOCK_SIZE then |file| - end else BLOCK_SIZE;
      BlockBound(end, n);
      buffer := file[end..end + n];
      end := end + n;
      if n < BLOCK_SIZE {
        eof := true;
      }
    }

    /** ReadPhysicalRecord, on any file; `KnownFind` says what that is where a writer wrote. */
    method ReadPhysicalRecord() returns (kind: int, result: Bytes)
      requires Ok()
      modifies this`buffer, this`end, this`eof, this`reports
      ensures Ok() && Pos() >= old(Pos()) && (kind != EOF ==> Pos() > old(Pos()))
      ensures match Find(checksum, verify, file, old(Pos()))
              case Ends => kind == EOF && reports == old(reports)
              case Drops(to, reported) => kind == BAD_RECORD && Pos() == to && reports == old(reports) + if reported then 1 else 0
              case Finds(piece) =>
                kind == piece.fragment.kind && result == piece.fragment.payload && Pos() == piece.End() && reports == old(reports)
    {
      hide Find, Ok;
      kind, result := EOF, [];
      PositionInFile(this);
      var more := FillBuffer();
      if more {
        kind, result := ParseFragment();
      }
      PositionInFile(this);
    }

    // The fragment at the beginning of the buffer.
    method ParseFragment() returns (kind: int, result: Bytes)
      requires Ok() && |buffer| >= HEADER_SIZE
      modifies this`buffer, this`reports
      ensures Ok() && Pos() >= old(Pos()) && (kind != EOF ==> Pos() > old(Pos()))
      ensures match Find(checksum, verify, file, old(Pos()))
              case Ends => kind == EOF && reports == old(reports)
              case Drops(to, reported) => kind == BAD_RECORD && Pos() == to && reports == old(reports) + if reported then 1 else 0
              case Finds(piece) =>
                kind == piece.fragment.kind && result == piece.fragment.payload && Pos() == piece.End() && reports == old(reports)
    {
      hide InBlock, ChecksumFits, Find, DecodeFixed32;
      ghost var pos := Pos();
      InFile(|file|, pos, end, eof);
      FindInBuffer(checksum, verify, file, pos, end, eof, buffer);
      ClearsBuffer(|file|, pos, end, eof);
      var used, reported;
      kind, result, used, reported := ParseHeader(checksum, verify, buffer, eof);
      SamePlace(file, pos, end, used, |buffer|);
      TakesPrefix(|file|, pos, used, end, eof);
      buffer := buffer[used..];
      if reported {
        reports := reports + 1;
      }
    }

    ghost predicate AtRecord(w: Written, r: nat)
      requires |buffer| <= end
      reads this`buffer, this`end
    {
      w.Valid() && r <= |w.records| && At(w.fragments, w.Start(r))
    }

    /** ReadRecord, on any file; on what a writer wrote it gives the records in order. */
    method ReadRecord(ghost w: Written, ghost r: nat) returns (ok: bool, record: Bytes)
      requires Ok()
      modifies this`buffer, this`end, this`eof, this`reports
      ensures Ok() && Pos() >= old(Pos()) && (ok ==> Pos() > old(Pos()))
      ensures match NextRecord(checksum, verify, file, old(Pos()))
              case NoRecord(n) => !ok && reports == old(reports) + n
              case Returns(n, found, next) => ok && record == found && reports == old(reports) + n && Pos() == next
      ensures ok ==> RecordIn(checksum, verify, file, old(Pos()), Pos(), record)
      ensures old(AtRecord(w, r)) ==> reports == old(reports)
      ensures old(AtRecord(w, r)) && RecordWhole(checksum, w, r, file) ==> ok && record == w.records[r] && AtRecord(w, r + 1)
      ensures old(AtRecord(w, r)) && !RecordWhole(checksum, w, r, file) ==> !ok
    {
      hide Layout, Fits, Whole, ReadUpTo, InBlock, RecordWhole, Written.Valid, PieceAt, Begun, RecordIn, Find, Gather, Ok;
      PositionInFile(this);
      GatheredIsRecord(checksum, verify, file, Pos(), Pos(), None, 0, []);
      if AtRecord(w, r) {
        KnownRecord(checksum, verify, w, r, file, Pos());
      }
      ok, record := GatherFragments();
      PositionInFile(this);
    }

    // The loop of ReadRecord.
    method GatherFragments() returns (ok: bool, record: Bytes)
      requires Ok()
      modifies this`buffer, this`end, this`eof, this`reports
      ensures Ok() && Pos() >= old(Pos()) && (ok ==> Pos() > old(Pos()))
      ensures match NextRecord(checksum, verify, file, old(Pos()))
              case NoRecord(n) => !ok && reports == old(reports) + n
              case Returns(n, found, next) => ok && record == found && reports == old(reports) + n && Pos() == next
    {
      hide Find, Gather, Ok;
      PositionInFile(this);
      var inFragmentedRecord := false;
      var scratch: Bytes := [];
      record := [];
      while true
        invariant Ok() && |buffer| <= end <= |file| && Pos() >= old(Pos()) && reports >= old(reports)
        invariant NextRecord(checksum, verify, file, old(Pos()))
               == Gather(checksum, verify, file, Pos(), if inFragmentedRecord then Some(scratch) else None, reports - old(reports))
        decreases |file| - Pos()
      {
        ghost var open := if inFragmentedRecord then Some(scratch) else None;
        GatherStep(checksum, verify, file, Pos(), open, reports - old(reports));
        var kind, fragment := ReadPhysicalRecord();
        PositionInFile(this);
        if kind == FULL {
          if inFragmentedRecord && scratch != [] {
            reports := reports + 1;
          }
          return true, fragment;
        } else if kind == FIRST {
          if inFragmentedRecord && scratch != [] {
            reports := reports + 1;
          }
          scratch := fragment;
          inFragmentedRecord := true;
        } else if kind == MIDDLE {
          if !inFragmentedRecord {
            reports := reports + 1;
          } else {
            scratch := scratch + fragment;
          }
        } else if kind == LAST {
          if !inFragmentedRecord {
            reports := reports + 1;
          } else {
            return true, scratch + fragment;
          }
        } else if kind == EOF {
          return false, [];
        } else if kind == BAD_RECORD {
          if inFragmentedRecord {
            reports := reports + 1;
            inFragmentedRecord := false;
            scratch := [];
          }
        } else {
          reports := reports + 1;
          inFragmentedRecord := false;
          scratch := [];
        }
      }
    }

    /** Reading a whole file, as recovery does. */
    method ReadAll(ghost w: Written) returns (records: seq<Bytes>)
      requires Ok()
      modifies this`buffer, this`end, this`eof, this`reports
      ensures Ok() && Holds(checksum, verify, file, old(Pos()), records)
      ensures old(AtRecord(w, 0)) ==> reports == old(reports)
      ensures old(AtRecord(w, 0)) ==>
                && |records| <= |w.records| && records == w.records[..|records|]
                && (forall r :: 0 <= r < |records| ==> RecordWhole(checksum, w, r, file))
                && !RecordWhole(checksum, w, |records|, file)
                && |records| == WholeRecords(checksum, w, file, 0)
      ensures records == AllRecords(checksum, verify, file, old(Pos()))
      ensures reports > old(reports) <==> Reported(checksum, verify, file, old(Pos()))
    {
      hide Layout, Fits, ReadUpTo, InBlock, RecordWhole, Written.Valid, RecordIn, RecordsIn, Gather;
      ghost var known := AtRecord(w, 0);
      NothingHeld(checksum, verify, file, Pos());
      records := [];
      while true
        invariant Ok() && RecordsIn(checksum, verify, file, old(Pos()), Pos(), records)
        invariant known ==> reports == old(reports) && AtRecord(w, |records|)
        invariant known ==> |records| <= |w.records| && records == w.records[..|records|]
        invariant known ==> forall r :: 0 <= r < |records| ==> RecordWhole(checksum, w, r, file)
        invariant reports >= old(reports)
        invariant AllRecords(checksum, verify, file, old(Pos())) == records + AllRecords(checksum, verify, file, Pos())
        invariant Reported(checksum, verify, file, old(Pos())) <==> reports > old(reports) || Reported(checksum, verify, file, Pos())
        decreases |file| - Pos()
      {
        InFile(|file|, Pos(), end, eof);
        ghost var mid := Pos();
        var ok, record := ReadRecord(w, |records|);
        InFile(|file|, Pos(), end, eof);
        if !ok {
          if known {
            StopsHere(checksum, w, file, 0, |records|);
          }
          return;
        }
        OneMoreHeld(checksum, verify, file, old(Pos()), mid, Pos(), records, record);
        if known {
          WholeIsThere(checksum, w, |records|, file);
        }
        records := records + [record];
      }
    }

    // Until the buffer holds a header, or the file has ended.
    method FillBuffer() returns (more: bool)
      requires Ok()
      modifies this`buffer, this`end, this`eof
      ensures Ok() && Pos() >= old(Pos())
      ensures more ==> |buffer| >= HEADER_SIZE
      ensures Find(checksum, verify, file, old(Pos())) == if more then Find(checksum, verify, file, Pos()) else Ends
    {
      hide InBlock, Find;
      while |buffer| < HEADER_SIZE
        invariant Ok() && Pos() >= old(Pos())
        invariant Find(checksum, verify, file, old(Pos())) == Find(checksum, verify, file, Pos())
        decreases |file| - end, if eof then 0 else 1
      {
        InFile(|file|, Pos(), end, eof);
        if !eof {
          // The last read was a full read, so this is a trailer to skip.
          FindBehindTrailer(checksum, verify, file, Pos(), end);
          ReadBlock();
          InFile(|file|, Pos(), end, eof);
        } else {
          FindNothing(checksum, verify, file, Pos(), end);
          ClearsBuffer(|file|, Pos(), end, eof);
          buffer := [];
          return false;
        }
      }
      return true;
    }
  }

  // The block that a reader holds is the one in which it stands.
  lemma {:induction false} BlockEndIs(fileLength: nat, pos: nat, end: nat, eof: bool)
    requires InBlock(fileLength, pos, end, eof) && pos < end
    ensures BlockEnd(fileLength, pos) == end && (eof <==> end % BLOCK_SIZE != 0)
  {
    var q := pos / BLOCK_SIZE;
    assert pos == q * BLOCK_SIZE + pos % BLOCK_SIZE;
    if eof {
      RoomAtEnd(pos, end);
    } else {
      DistanceToEnd(pos, end);
    }
  }

  // At the very end of the file there is no block.
  lemma {:induction false} LastBlockEnd(fileLength: nat)
    ensures BlockEnd(fileLength, fileLength) == fileLength && HeaderPlace(fileLength, fileLength) == fileLength
  {
  }

  // In front of the end of a full block, a header is looked for where the next block begins.
  lemma {:induction false} FindBehindTrailer(c: Checksum, verify: bool, file: Bytes, pos: nat, end: nat)
    requires InBlock(|file|, pos, end, false) && end - pos < HEADER_SIZE
    ensures Find(c, verify, file, pos) == Find(c, verify, file, end)
  {
    if pos < end {
      BlockEndIs(|file|, pos, end, false);
      NextBlockEnd(|file|, end);
      assert HeaderPlace(|file|, pos) == end == HeaderPlace(|file|, end);
    }
  }

  lemma {:induction false} NextBlockEnd(fileLength: nat, end: nat)
    requires end <= fileLength && end % BLOCK_SIZE == 0
    ensures HeaderPlace(fileLength, end) == end
  {
    var e := BlockEnd(fileLength, end);
    var q := end / BLOCK_SIZE;
    assert end == q * BLOCK_SIZE;
    if e % BLOCK_SIZE == 0 && e > end {
      var k := e / BLOCK_SIZE;
      assert e == k * BLOCK_SIZE && k > q;
    }
  }

  lemma {:induction false} FindNothing(c: Checksum, verify: bool, file: Bytes, pos: nat, end: nat)
    requires InBlock(|file|, pos, end, true) && end - pos < HEADER_SIZE
    ensures Find(c, verify, file, pos) == Ends
  {
    if pos < end {
      BlockEndIs(|file|, pos, end, true);
    } else {
      LastBlockEnd(|file|);
    }
  }

  // With a header in the buffer, what is found is decided there.
  lemma {:induction false} FindInBuffer(c: Checksum, verify: bool, file: Bytes, pos: nat, end: nat, eof: bool, buffer: Bytes)
    requires InBlock(|file|, pos, end, eof) && end <= |file| && buffer == file[pos..end] && |buffer| >= HEADER_SIZE
    ensures var length := buffer[4] as int + buffer[5] as int * 256;
      Find(c, verify, file, pos)
      == if HEADER_SIZE + length > |buffer| then if eof then Ends else Drops(end, true)
         else if buffer[6] == 0 && length == 0 then Drops(end, false)
         else if !ChecksumFits(c, verify, buffer[..HEADER_SIZE], buffer[HEADER_SIZE - 1..HEADER_SIZE + length]) then Drops(end, true)
         else Finds(Piece(pos, Fragment(buffer[6] as int, buffer[HEADER_SIZE..HEADER_SIZE + length])))
  {
    hide ChecksumFits, InBlock;
    InFile(|file|, pos, end, eof);
    BlockEndIs(|file|, pos, end, eof);
    assert HeaderPlace(|file|, pos) == pos;
    var length := buffer[4] as int + buffer[5] as int * 256;
    assert LengthAt(file, pos) == length && file[pos + 6] == buffer[6];
    assert file[pos..pos + HEADER_SIZE] == buffer[..HEADER_SIZE];
    if HEADER_SIZE + length <= |buffer| {
      SamePlace(file, pos, end, HEADER_SIZE - 1, HEADER_SIZE + length);
      SamePlace(file, pos, end, HEADER_SIZE, HEADER_SIZE + length);
    }
  }

  lemma {:induction false} SamePlace(file: Bytes, pos: nat, end: nat, a: nat, b: nat)
    requires pos <= end <= |file| && a <= b <= end - pos
    ensures file[pos..end][a..b] == file[pos + a..pos + b]
  {
    var x, y := file[pos..end][a..b], file[pos + a..pos + b];
    forall i | 0 <= i < b - a
      ensures x[i] == y[i]
    {
      assert x[i] == file[pos..end][a + i];
    }
  }

  // The block of any position before the end of the file.
  lemma {:induction false} BlockOf(fileLength: nat, pos: nat)
    requires pos < fileLength
    ensures var e := BlockEnd(fileLength, pos); pos < e && InBlock(fileLength, pos, e, e % BLOCK_SIZE != 0)
  {
    var q, r := pos / BLOCK_SIZE, pos % BLOCK_SIZE;
    assert pos == q * BLOCK_SIZE + r;
    var e := BlockEnd(fileLength, pos);
    if e == (q + 1) * BLOCK_SIZE {
      ModUnique(e, q + 1, 0);
    } else {
      ModUnique(e, q, e - q * BLOCK_SIZE);
    }
  }

  // Behind the first `i` fragments of what was written the next one is found, if it is there.
  lemma {:induction false} KnownFind(c: Checksum, verify: bool, fs: seq<Fragment>, i: nat, file: Bytes, pos: nat)
    requires ReadUpTo(c, fs, i, file, pos) && pos <= |file|
    ensures !Whole(c, fs, i, file) ==> Find(c, verify, file, pos) == Ends
    ensures Whole(c, fs, i, file) ==>
              && i < |fs| && FULL <= fs[i].kind <= LAST
              && var found := Find(c, verify, file, pos);
                 found.Finds? && found.piece.fragment == fs[i] && ReadUpTo(c, fs, i + 1, file, found.piece.End())
    decreases |file| - pos
  {
    hide Layout, Fits, Whole, ReadUpTo, InBlock, Find, ChecksumFits;
    if pos == |file| {
      EndOfFile(|file|);
      NotWhole(c, fs, i, file, pos, pos);
      FindNothing(c, verify, file, pos, pos);
    } else {
      BlockOf(|file|, pos);
      var end := BlockEnd(|file|, pos);
      var eof := end % BLOCK_SIZE != 0;
      if end - pos >= HEADER_SIZE {
        KnownHeader(c, fs, i, file, pos, end, eof, file[pos..pos + HEADER_SIZE]);
        FindInBuffer(c, verify, file, pos, end, eof, file[pos..end]);
        assert file[pos..end][..HEADER_SIZE] == file[pos..pos + HEADER_SIZE];
        if pos + HEADER_SIZE + |fs[i].payload| <= end {
          KnownPayload(c, verify, fs, i, file, pos, end, eof, file[pos..end]);
        }
      } else if eof {
        NotWhole(c, fs, i, file, pos, end);
        FindNothing(c, verify, file, pos, end);
      } else {
        TrailerIsSkipped(c, fs, i, file, pos, end);
        FindBehindTrailer(c, verify, file, pos, end);
        KnownFind(c, verify, fs, i, file, end);
      }
    }
  }

  lemma {:induction false} EndOfFile(fileLength: nat)
    ensures InBlock(fileLength, fileLength, fileLength, true)
  {
  }

  // Behind the first `r` records of what was written the next one is put together, without a
  // report, if it is there.
  lemma {:induction false} KnownRecord(c: Checksum, verify: bool, w: Written, r: nat, file: Bytes, pos: nat)
    requires w.Valid() && r <= |w.records| && ReadUpTo(c, w.fragments, w.Start(r), file, pos) && pos <= |file|
    ensures var call := NextRecord(c, verify, file, pos);
      if RecordWhole(c, w, r, file) then
        && call.Returns? && call.reports == 0 && r < |w.records| && call.record == w.records[r]
        && ReadUpTo(c, w.fragments, w.Start(r + 1), file, call.next)
      else call == NoRecord(0)
  {
    hide Layout, Fits, ReadUpTo, RecordWhole, Written.Valid, Assembling, Gather;
    NothingAssembled(w, r);
    LastFragment(w, r, w.Start(r));
    KnownRest(c, verify, w, r, w.Start(r), false, [], file, pos);
  }

  lemma {:induction false} KnownRest(c: Checksum, verify: bool, w: Written, r: nat, i: nat, inFragmentedRecord: bool, scratch: Bytes,
                                     file: Bytes, pos: nat)
    requires Assembling(w, r, i, inFragmentedRecord, scratch) && r <= |w.records| == |w.ends|
    requires ReadUpTo(c, w.fragments, i, file, pos) && pos <= |file|
    ensures var call := Gather(c, verify, file, pos, if inFragmentedRecord then Some(scratch) else None, 0);
      if RecordWhole(c, w, r, file) then
        && call.Returns? && call.reports == 0 && r < |w.records| && call.record == w.records[r]
        && ReadUpTo(c, w.fragments, w.Start(r + 1), file, call.next)
      else call == NoRecord(0)
    decreases |file| - pos
  {
    hide Layout, Fits, Whole, ReadUpTo, Find, Assembling, RecordWhole, Written.Valid, Gather;
    var fs := w.fragments;
    KnownFind(c, verify, fs, i, file, pos);
    GatherStep(c, verify, file, pos, if inFragmentedRecord then Some(scratch) else None, 0);
    WholeIsThere(c, w, r, file);
    if Whole(c, fs, i, file) {
      var piece := Find(c, verify, file, pos).piece;
      Assemble(c, w, r, i, inFragmentedRecord, scratch, file, fs[i].kind, fs[i].payload);
      if fs[i].kind == FIRST {
        KnownRest(c, verify, w, r, i + 1, true, fs[i].payload, file, piece.End());
      } else if fs[i].kind == MIDDLE {
        KnownRest(c, verify, w, r, i + 1, true, scratch + fs[i].payload, file, piece.End());
      }
    } else {
      Assemble(c, w, r, i, inFragmentedRecord, scratch, file, EOF, []);
    }
  }

  lemma {:induction false} GatherStep(c: Checksum, verify: bool, file: Bytes, p: nat, open: Option<Bytes>, reports: nat)
    ensures Gather(c, verify, file, p, open, reports)
         == match Find(c, verify, file, p)
            case Ends => NoRecord(reports)
            case Drops(to, reported) => Gather(c, verify, file, to, None, reports + Given(open) + if reported then 1 else 0)
            case Finds(piece) =>
              var kind, payload, next := piece.fragment.kind, piece.fragment.payload, piece.End();
              if kind == FULL then Returns(reports + Partial(open), payload, next)
              else if kind == FIRST then Gather(c, verify, file, next, Some(payload), reports + Partial(open))
              else if kind == MIDDLE && open.Some? then Gather(c, verify, file, next, Some(open.value + payload), reports)
              else if kind == LAST && open.Some? then Returns(reports, open.value + payload, next)
              else if kind == EOF then NoRecord(reports)
              else if kind == BAD_RECORD then Gather(c, verify, file, next, None, reports + Given(open))
              else Gather(c, verify, file, next, None, reports + 1)
  {
    hide Find;
  }

  // Record `r` is wholly in the file.
  ghost predicate RecordWhole(c: Checksum, w: Written, r: nat, file: Bytes) {
    && w.Valid() && r < |w.records| && w.ends[r] <= |w.fragments|
    && Fits(w.fragments[..w.ends[r]]) && |Layout(c, w.fragments[..w.ends[r]])| <= |file|
  }

  // The file is the beginning of what a writer laid out.
  ghost predicate WrittenAs(checksum: Checksum, w: Written, file: Bytes) {
    w.Valid() && checksum.Valid() && file <= Layout(checksum, w.fragments)
  }

  // How many records the file holds in full, from one of them on.
  ghost function WholeRecords(checksum: Checksum, w: Written, file: Bytes, from: nat): (n: nat)
    requires from <= |w.records|
    ensures from <= n <= |w.records|
    decreases |w.records| - from
  {
    if from < |w.records| && RecordWhole(checksum, w, from, file) then WholeRecords(checksum, w, file, from + 1) else from
  }

  lemma {:induction false} StopsHere(checksum: Checksum, w: Written, file: Bytes, from: nat, to: nat)
    requires from <= to <= |w.records|
    requires forall i :: from <= i < to ==> RecordWhole(checksum, w, i, file)
    ensures to < |w.records| && RecordWhole(checksum, w, to, file) ==> WholeRecords(checksum, w, file, from) > to
    ensures to == |w.records| || !RecordWhole(checksum, w, to, file) ==> WholeRecords(checksum, w, file, from) == to
    decreases |w.records| - from
  {
    hide RecordWhole;
    if from < to {
      StopsHere(checksum, w, file, from + 1, to);
    }
  }

  // The records that were read are the first ones, and all of them are there in full.
  ghost predicate Seen(checksum: Checksum, w: Written, file: Bytes, read: seq<Bytes>) {
    && |read| <= |w.records| && read == w.records[..|read|]
    && forall i :: 0 <= i < |read| ==> RecordWhole(checksum, w, i, file)
  }

  lemma {:induction false} OpenedAtStart(checksum: Checksum, w: Written, file: Bytes, reader: Reader)
    requires WrittenAs(checksum, w, file) && reader.checksum == checksum && reader.file == file
    requires |reader.buffer| <= reader.end && reader.Pos() == 0
    ensures reader.AtRecord(w, 0)
  {
    hide Layout, Fits, ReadUpTo, Written.Valid;
    OpensAtStart(checksum, w, file);
  }

  lemma {:induction false} PositionInFile(reader: Reader)
    requires reader.Ok()
    ensures |reader.buffer| <= reader.end <= |reader.file|
    ensures reader.Pos() == reader.end - |reader.buffer|
  {
    InFile(|reader.file|, reader.Pos(), reader.end, reader.eof);
  }

  lemma {:induction false} OneMoreSeen(checksum: Checksum, w: Written, file: Bytes, read: seq<Bytes>, record: Bytes)
    requires Seen(checksum, w, file, read) && RecordWhole(checksum, w, |read|, file)
    requires |read| < |w.records| ==> record == w.records[|read|]
    ensures Seen(checksum, w, file, read + [record])
  {
    hide RecordWhole;
    WholeIsThere(checksum, w, |read|, file);
    var more := read + [record];
    forall i | 0 <= i < |more|
      ensures RecordWhole(checksum, w, i, file)
    {
      assert i < |read| || i == |read|;
    }
  }

  lemma {:induction false} AllSeen(checksum: Checksum, w: Written, file: Bytes, read: seq<Bytes>)
    requires Seen(checksum, w, file, read) && !RecordWhole(checksum, w, |read|, file)
    ensures read == w.records[..WholeRecords(checksum, w, file, 0)]
  {
    hide RecordWhole;
    StopsHere(checksum, w, file, 0, |read|);
  }

  lemma {:induction false} HeldSoFar(checksum: Checksum, file: Bytes, to: nat, read: seq<Bytes>)
    requires RecordsIn(checksum, true, file, 0, to, read) && to <= |file|
    ensures Holds(checksum, true, file, 0, read)
  {
    hide RecordsIn;
  }

  // The fragments of record `r` up to index `i` have been put together.
  ghost predicate Assembling(w: Written, r: nat, i: nat, inFragmentedRecord: bool, scratch: Bytes) {
    && w.Valid() && r <= |w.records| && w.Start(r) <= i <= |w.fragments|
    && (r < |w.records| ==> i < w.ends[r])
    && (r == |w.records| ==> i == w.Start(r))
    && (inFragmentedRecord <==> i > w.Start(r))
    && scratch == Payloads(w.fragments[w.Start(r)..i])
  }

  lemma {:induction false} NothingAssembled(w: Written, r: nat)
    requires w.Valid() && r <= |w.records|
    ensures r <= |w.ends| && w.Start(r) <= |w.fragments| && Assembling(w, r, w.Start(r), false, [])
  {
    hide Fits, IsRecord;
    if r < |w.records| {
      assert w.RecordAt(r);
    }
    assert w.Start(r) <= |w.fragments| by { StartInside(w, r); }
    assert w.fragments[w.Start(r)..w.Start(r)] == [];
  }

  lemma {:induction false} StartInside(w: Written, r: nat)
    requires w.Valid() && r <= |w.records|
    ensures w.Start(r) <= |w.fragments|
  {
    hide Fits, IsRecord;
    if r > 0 {
      assert w.RecordAt(r - 1);
    }
  }

  // What the next physical record means for the record being put together.
  lemma {:induction false} Assemble(c: Checksum, w: Written, r: nat, i: nat, inFragmentedRecord: bool, scratch: Bytes, file: Bytes,
                                    kind: int, fragment: Bytes)
    requires Assembling(w, r, i, inFragmentedRecord, scratch)
    requires Whole(c, w.fragments, i, file) ==> kind == w.fragments[i].kind && fragment == w.fragments[i].payload
    requires !Whole(c, w.fragments, i, file) ==> kind == EOF
    ensures kind != EOF ==> Whole(c, w.fragments, i, file) && r < |w.records|
    ensures kind == EOF ==> !RecordWhole(c, w, r, file)
    ensures kind == EOF || kind == FULL || kind == FIRST || kind == MIDDLE || kind == LAST
    ensures kind == FULL || kind == FIRST ==> !inFragmentedRecord
    ensures kind == MIDDLE || kind == LAST ==> inFragmentedRecord
    ensures kind == FIRST ==> Assembling(w, r, i + 1, true, fragment)
    ensures kind == MIDDLE ==> Assembling(w, r, i + 1, true, scratch + fragment)
    ensures kind == FULL ==> w.records[r] == fragment && i + 1 == w.Start(r + 1) && RecordWhole(c, w, r, file)
    ensures kind == LAST ==> w.records[r] == scratch + fragment && i + 1 == w.Start(r + 1) && RecordWhole(c, w, r, file)
  {
    hide Layout, Fits, IsRecord, Payloads, Whole, RecordWhole, Written.Valid;
    LastFragment(w, r, i);
    if r < |w.records| {
      RecordPart(w, r, i);
      Wholeness(c, w, r, i, file);
    } else {
      NoFragment(c, w, r, file);
    }
  }

  lemma {:induction false} LastFragment(w: Written, r: nat, i: nat)
    requires w.Valid() && r <= |w.records| && w.Start(r) <= i
    ensures |w.ends| == |w.records| && (r == |w.records| ==> w.Start(r) == |w.fragments|)
  {
    hide Fits;
  }

  lemma {:induction false} NoFragment(c: Checksum, w: Written, r: nat, file: Bytes)
    requires w.Valid() && r == |w.records|
    ensures !Whole(c, w.fragments, |w.fragments|, file) && !RecordWhole(c, w, r, file)
  {
    hide Layout, Fits;
  }

  // Fragment `i` within record `r`.
  lemma {:induction false} RecordPart(w: Written, r: nat, i: nat)
    requires w.Valid() && r < |w.records| == |w.ends| && w.Start(r) <= i < w.ends[r]
    ensures w.ends[r] <= |w.fragments| && w.Start(r + 1) == w.ends[r]
    ensures w.fragments[i].kind == KindOf(i == w.Start(r), i + 1 == w.ends[r])
    ensures Payloads(w.fragments[w.Start(r)..i + 1]) == Payloads(w.fragments[w.Start(r)..i]) + w.fragments[i].payload
    ensures i == w.Start(r) ==> Payloads(w.fragments[w.Start(r)..i]) == []
    ensures i + 1 == w.ends[r] ==> Payloads(w.fragments[w.Start(r)..i + 1]) == w.records[r]
  {
    hide Fits, IsRecord, Payloads;
    assert w.RecordAt(r);
    var fs, start, stop := w.fragments, w.Start(r), w.ends[r];
    RecordKinds(fs[start..stop], w.records[r], i - start);
    assert fs[start..stop][..i - start] == fs[start..i] && fs[start..stop][..i - start + 1] == fs[start..i + 1];
    assert fs[start..stop][i - start] == fs[i];
  }

  lemma {:induction false} Wholeness(c: Checksum, w: Written, r: nat, i: nat, file: Bytes)
    requires w.Valid() && r < |w.records| == |w.ends| && w.Start(r) <= i < w.ends[r] <= |w.fragments|
    ensures !Whole(c, w.fragments, i, file) ==> !RecordWhole(c, w, r, file)
    ensures Whole(c, w.fragments, i, file) && i + 1 == w.ends[r] ==> RecordWhole(c, w, r, file)
  {
    WrittenFits(w);
    hide Layout, Fits, Written.Valid;
    LongerLayout(c, w.fragments, i + 1, w.ends[r]);
  }

  lemma {:induction false} RecordKinds(fs: seq<Fragment>, data: Bytes, i: nat)
    requires IsRecord(fs, data) && i < |fs|
    ensures fs[i].kind == KindOf(i == 0, i == |fs| - 1)
    ensures Payloads(fs[..i + 1]) == Payloads(fs[..i]) + fs[i].payload
    ensures i == 0 ==> Payloads(fs[..i]) == []
    ensures i == |fs| - 1 ==> Payloads(fs[..i + 1]) == data
  {
    assert fs[..i + 1][..i] == fs[..i];
    assert fs[..|fs|] == fs;
  }

  lemma {:induction false} LongerLayout(c: Checksum, fs: seq<Fragment>, i: nat, j: nat)
    requires Fits(fs) && i <= j <= |fs|
    ensures Fits(fs[..i]) && Fits(fs[..j]) && |Layout(c, fs[..i])| <= |Layout(c, fs[..j])|
  {
    PrefixFits(fs, j);
    PrefixLayout(c, fs[..j], i);
    assert fs[..j][..i] == fs[..i];
  }

  lemma {:induction false} WholeIsThere(c: Checksum, w: Written, r: nat, file: Bytes)
    ensures RecordWhole(c, w, r, file) ==> r < |w.records|
  {
  }

  /** A reader that opens any prefix of a written file stands before its first record. */
  lemma {:induction false} OpensAtStart(c: Checksum, w: Written, file: Bytes)
    requires w.Valid() && c.Valid() && file <= Layout(c, w.fragments)
    ensures Fits(w.fragments) && ReadUpTo(c, w.fragments, w.Start(0), file, 0)
  {
    assert w.fragments[..0] == [];
  }

  lemma {:induction false} InFile(fileLength: nat, pos: nat, end: nat, eof: bool)
    requires InBlock(fileLength, pos, end, eof)
    ensures pos <= end <= fileLength && (eof ==> end == fileLength)
  {
  }

  lemma {:induction false} ClearsBuffer(fileLength: nat, pos: nat, end: nat, eof: bool)
    requires InBlock(fileLength, pos, end, eof)
    ensures InBlock(fileLength, end, end, eof) && pos <= end <= fileLength
  {
  }

  lemma {:induction false} TakesPrefix(fileLength: nat, pos: nat, n: nat, end: nat, eof: bool)
    requires InBlock(fileLength, pos, end, eof) && pos + n <= end
    ensures InBlock(fileLength, pos + n, end, eof) && end <= fileLength
  {
  }

  // With less than a header left in the file, the next fragment is not whole.
  lemma {:induction false} NotWhole(c: Checksum, fs: seq<Fragment>, i: nat, file: Bytes, pos: nat, end: nat)
    requires ReadUpTo(c, fs, i, file, pos) && InBlock(|file|, pos, end, true) && end - pos < HEADER_SIZE
    ensures !Whole(c, fs, i, file)
  {
    hide Layout, Fits, FitsAt, Trailer;
    if i < |fs| {
      FragmentEnd(c, fs, i);
    }
  }

  lemma {:induction false} KnownHeader(c: Checksum, fs: seq<Fragment>, i: nat, file: Bytes, pos: nat, end: nat, eof: bool, header: Bytes)
    requires ReadUpTo(c, fs, i, file, pos) && InBlock(|file|, pos, end, eof) && end - pos >= HEADER_SIZE
    requires header == file[pos..pos + HEADER_SIZE]
    ensures i < |fs| && FULL <= fs[i].kind <= LAST && |fs[i].payload| <= 0xffff
    ensures header[4] as int + header[5] as int * 256 == |fs[i].payload| && header[6] as int == fs[i].kind
    ensures pos + HEADER_SIZE + |fs[i].payload| > end ==> eof && !Whole(c, fs, i, file)
  {
    hide Layout, Fits, FitsAt, Image, Trailer;
    HeaderIsHere(c, fs, i, file, pos, end, eof);
    FragmentEnd(c, fs, i);
    ImageInFile(c, fs, i, file, HEADER_SIZE);
    HeaderFields(c, fs[i]);
  }

  lemma {:induction false} Unmasked(c: Checksum, w: Word)
    requires c.Valid()
    ensures c.unmask(c.mask(w)) == w
  {
  }

  lemma {:induction false} KnownPayload(c: Checksum, verify: bool, fs: seq<Fragment>, i: nat, file: Bytes, pos: nat, end: nat, eof: bool, buffer: Bytes)
    requires ReadUpTo(c, fs, i, file, pos) && InBlock(|file|, pos, end, eof) && end - pos >= HEADER_SIZE
    requires i < |fs| && pos + HEADER_SIZE + |fs[i].payload| <= end && buffer == file[pos..end]
    ensures FULL <= fs[i].kind <= LAST && c.Valid()
    ensures ChecksumFits(c, verify, buffer[..HEADER_SIZE], buffer[HEADER_SIZE - 1..HEADER_SIZE + |fs[i].payload|])
    ensures var n := HEADER_SIZE + |fs[i].payload|;
      && c.unmask(DecodeFixed32(buffer[..HEADER_SIZE])) == c.value(buffer[HEADER_SIZE - 1..n])
      && buffer[HEADER_SIZE..n] == fs[i].payload
      && Whole(c, fs, i, file) && ReadUpTo(c, fs, i + 1, file, pos + n)
  {
    hide Layout, Fits, FitsAt, Image, Trailer;
    HeaderIsHere(c, fs, i, file, pos, end, eof);
    FragmentEnd(c, fs, i);
    var n := HEADER_SIZE + |fs[i].payload|;
    ImageInFile(c, fs, i, file, n);
    HeaderFields(c, fs[i]);
    var image := Image(c, fs[i]);
    assert image[..n] == image;
    assert buffer[..n] == image;
    assert buffer[HEADER_SIZE - 1..n] == buffer[..n][HEADER_SIZE - 1..];
    assert buffer[..HEADER_SIZE] == image[..HEADER_SIZE];
    Unmasked(c, c.value([fs[i].kind as byte] + fs[i].payload));
    assert buffer[HEADER_SIZE..n] == buffer[..n][HEADER_SIZE..];
  }

  lemma {:induction false} BlockBound(end: nat, n: nat)
    requires end % BLOCK_SIZE == 0 && n <= BLOCK_SIZE
    ensures n < BLOCK_SIZE ==> (end + n) - (end + n) % BLOCK_SIZE == end
    ensures n == BLOCK_SIZE ==> (end + n) % BLOCK_SIZE == 0
  {
    var q := end / BLOCK_SIZE;
    assert end == q * BLOCK_SIZE;
    if n < BLOCK_SIZE {
      ModUnique(end + n, q, n);
    } else {
      ModUnique(end + n, q + 1, 0);
    }
  }
}
