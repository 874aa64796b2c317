/**
 What the log reader (db/log_reader.cc) makes of a file that was damaged after it was
 written: the damage is reported, and up to there every record is given back.
 */
module LogDamage {
  import opened Wrappers
  import opened DbFormat
  import opened Coding
  import opened LogFormat

  // A header at `s` whose fragment goes beyond the end of its full block, or whose checksum
  // is not that of its type and payload.
  predicate BrokenAt(c: Checksum, file: Bytes, s: nat) {
    && s + HEADER_SIZE <= |file|
    && var length := file[s + 4] as int + file[s + 5] as int * 256;
       var stop := s + HEADER_SIZE + length;
       var blockEnd := (s / BLOCK_SIZE + 1) * BLOCK_SIZE;
       || (blockEnd <= |file| && stop > blockEnd)
       || (&& stop <= blockEnd && stop <= |file| && !(file[s + 6] == 0 && length == 0)
           && c.unmask(DecodeFixed32(file[s..s + HEADER_SIZE])) != c.value(file[s + HEADER_SIZE - 1..stop]))
  }

  // How many records the first `i` fragments complete, from one of them on.
  ghost function CompleteRecords(w: Written, i: nat, from: nat): (n: nat)
    requires from <= |w.ends|
    ensures from <= n <= |w.ends|
    decreases |w.ends| - from
  {
    if from < |w.ends| && w.ends[from] <= i then CompleteRecords(w, i, from + 1) else from
  }

  // The file is what was written up to fragment `i`, whose header is then broken.
  ghost predicate DamagedAt(c: Checksum, w: Written, i: nat, file: Bytes) {
    && w.Valid() && c.Valid() && Fits(w.fragments) && i < |w.fragments| && Fits(w.fragments[..i])
    && Layout(c, w.fragments[..i]) <= file
    && BrokenAt(c, file, FragmentStart(c, w.fragments, i))
  }

  // ----- where the headers are -----

  // The place of a fragment within its block.
  lemma {:induction false} PlaceInBlock(c: Checksum, fs: seq<Fragment>, i: nat)
    requires Fits(fs) && i < |fs| && Fits(fs[..i])
    ensures var p, s := |Layout(c, fs[..i])|, FragmentStart(c, fs, i);
      && s % BLOCK_SIZE + HEADER_SIZE + |fs[i].payload| <= BLOCK_SIZE
      && (s == p || (p < s < p + HEADER_SIZE && s % BLOCK_SIZE == 0))
      && (s == p ==> p % BLOCK_SIZE == 0 || BLOCK_SIZE - p % BLOCK_SIZE >= HEADER_SIZE)
  {
    hide Layout, Fits;
    StartOffset(c, fs, i);
    FragmentEnd(c, fs, i);
    var o := OffsetAfter(fs[..i]);
    assert StartOf(o) % BLOCK_SIZE == StartOf(o);
  }

  // A header that is looked for behind `p` is looked for at the start of the fragment.
  lemma {:induction false} HeaderIsAtStart(c: Checksum, fs: seq<Fragment>, i: nat, fileLength: nat)
    requires Fits(fs) && i < |fs| && Fits(fs[..i]) && FragmentStart(c, fs, i) + HEADER_SIZE <= fileLength
    ensures HeaderPlace(fileLength, |Layout(c, fs[..i])|) == FragmentStart(c, fs, i)
    ensures var s := FragmentStart(c, fs, i); var blockEnd := (s / BLOCK_SIZE + 1) * BLOCK_SIZE;
      && BlockEnd(fileLength, s) == (if blockEnd < fileLength then blockEnd else fileLength)
      && s + HEADER_SIZE + |fs[i].payload| <= blockEnd
      && (BlockEnd(fileLength, s) % BLOCK_SIZE == 0 <==> blockEnd <= fileLength)
  {
    hide Layout, Fits;
    PlaceInBlock(c, fs, i);
    var p, s := |Layout(c, fs[..i])|, FragmentStart(c, fs, i);
    BlockOf(fileLength, s);
    InBlockOf(s, fileLength);
    if p < s {
      InBlockOf(p, fileLength);
      BlockOf(fileLength, p);
      BoundaryBehind(p, s);
    }
  }

  lemma {:induction false} InBlockOf(s: nat, fileLength: nat)
    requires s < fileLength
    ensures var blockEnd := (s / BLOCK_SIZE + 1) * BLOCK_SIZE;
      blockEnd == s - s % BLOCK_SIZE + BLOCK_SIZE && (BlockEnd(fileLength, s) % BLOCK_SIZE == 0 <==> blockEnd <= fileLength)
  {
    var q := s / BLOCK_SIZE;
    var e := BlockEnd(fileLength, s);
    if (q + 1) * BLOCK_SIZE <= fileLength {
      ModUnique(e, q + 1, 0);
    } else {
      ModUnique(e, q, e - q * BLOCK_SIZE);
    }
  }

  // The next block begins less than a header behind `p`.
  lemma {:induction false} BoundaryBehind(p: nat, s: nat)
    requires p < s < p + HEADER_SIZE && s % BLOCK_SIZE == 0
    ensures (p / BLOCK_SIZE + 1) * BLOCK_SIZE == s
  {
    var q, k := p / BLOCK_SIZE, s / BLOCK_SIZE;
    assert p == q * BLOCK_SIZE + p % BLOCK_SIZE && s == k * BLOCK_SIZE;
    assert k == q + 1;
  }

  // ----- what is found there -----

  lemma {:induction false} FindsFragment(c: Checksum, verify: bool, fs: seq<Fragment>, i: nat, file: Bytes)
    requires Fits(fs) && i < |fs| && c.Valid() && Fits(fs[..i + 1]) && Layout(c, fs[..i + 1]) <= file
    ensures Fits(fs[..i]) && FULL <= fs[i].kind <= LAST
    ensures var found := Find(c, verify, file, |Layout(c, fs[..i])|);
      found.Finds? && found.piece.fragment == fs[i] && found.piece.End() == |Layout(c, fs[..i + 1])|
  {
    hide Layout, Fits, FitsAt, Image, Trailer, HeaderPlace, BlockEnd;
    FragmentEnd(c, fs, i);
    var here := Layout(c, fs[..i + 1]);
    var s := FragmentStart(c, fs, i);
    var n := HEADER_SIZE + |fs[i].payload|;
    HeaderIsAtStart(c, fs, i, |file|);
    PrefixLayout(c, fs, i + 1);
    ImageInFile(c, fs, i, here, n);
    HeaderFields(c, fs[i]);
    Unmasked(c, c.value([fs[i].kind as byte] + fs[i].payload));
    var image := Image(c, fs[i]);
    assert image[..n] == image && file[s..s + n] == here[s..s + n] == image;
    assert file[s..s + HEADER_SIZE] == file[s..s + n][..HEADER_SIZE];
    assert file[s + HEADER_SIZE - 1..s + n] == file[s..s + n][HEADER_SIZE - 1..];
    assert file[s + HEADER_SIZE..s + n] == file[s..s + n][HEADER_SIZE..];
    assert file[s + 4] == image[..HEADER_SIZE][4] && file[s + 5] == image[..HEADER_SIZE][5] && file[s + 6] == image[..HEADER_SIZE][6];
  }

  lemma {:induction false} BrokenIsDropped(c: Checksum, fs: seq<Fragment>, i: nat, file: Bytes)
    requires Fits(fs) && i < |fs| && Fits(fs[..i]) && Layout(c, fs[..i]) <= file && BrokenAt(c, file, FragmentStart(c, fs, i))
    ensures var found := Find(c, true, file, |Layout(c, fs[..i])|); found.Drops? && found.reported
  {
    hide Layout, Fits, HeaderPlace, BlockEnd;
    HeaderIsAtStart(c, fs, i, |file|);
  }

  // ----- the law -----

  // From fragment `j` on, with record `r` being put together.
  lemma {:induction false} UpToTheDamage(c: Checksum, w: Written, i: nat, file: Bytes, r: nat, j: nat, inFragmentedRecord: bool, scratch: Bytes)
    requires DamagedAt(c, w, i, file) && j <= i && Assembling(w, r, j, inFragmentedRecord, scratch) && r < |w.records| == |w.ends|
    requires Fits(w.fragments[..j])
    ensures var call := Gather(c, true, file, |Layout(c, w.fragments[..j])|, if inFragmentedRecord then Some(scratch) else None, 0);
      if w.ends[r] <= i then
        && Fits(w.fragments[..w.ends[r]])
        && call == Returns(0, w.records[r], |Layout(c, w.fragments[..w.ends[r]])|)
      else call.reports > 0
    decreases i - j
  {
    hide Layout, Fits, Find, Gather, Assembling, BrokenAt, Written.Valid, Whole, RecordWhole, IsRecord;
    var fs := w.fragments;
    var p := |Layout(c, fs[..j])|;
    var open := if inFragmentedRecord then Some(scratch) else None;
    InsideRecord(w, r, j, inFragmentedRecord, scratch);
    GatherStep(c, true, file, p, open, 0);
    if j == i {
      BrokenIsDropped(c, fs, i, file);
    } else {
      PrefixFits(fs, j + 1);
      LongerLayout(c, fs, j + 1, i);
      PrefixOfPrefix(c, fs, j + 1, i);
      FindsFragment(c, true, fs, j, file);
      WholeNow(c, fs, j, file);
      Assemble(c, w, r, j, inFragmentedRecord, scratch, file, fs[j].kind, fs[j].payload);
      RecordEnds(w, r, j);
      if fs[j].kind == FIRST {
        UpToTheDamage(c, w, i, file, r, j + 1, true, fs[j].payload);
      } else if fs[j].kind == MIDDLE {
        UpToTheDamage(c, w, i, file, r, j + 1, true, scratch + fs[j].payload);
      }
    }
  }

  lemma {:induction false} PrefixOfPrefix(c: Checksum, fs: seq<Fragment>, i: nat, j: nat)
    requires Fits(fs) && i <= j <= |fs|
    ensures Fits(fs[..i]) && Fits(fs[..j]) && Layout(c, fs[..i]) <= Layout(c, fs[..j])
  {
    PrefixFits(fs, j);
    PrefixLayout(c, fs[..j], i);
    assert fs[..j][..i] == fs[..i];
  }

  lemma {:induction false} WholeNow(c: Checksum, fs: seq<Fragment>, j: nat, file: Bytes)
    requires j < |fs| && Fits(fs[..j + 1]) && Layout(c, fs[..j + 1]) <= file
    ensures Whole(c, fs, j, file)
  {
  }

  lemma {:induction false} InsideRecord(w: Written, r: nat, j: nat, inFragmentedRecord: bool, scratch: Bytes)
    requires Assembling(w, r, j, inFragmentedRecord, scratch) && r < |w.records|
    ensures w.Valid() && w.Start(r) <= j < w.ends[r] <= |w.fragments|
  {
    hide Fits, IsRecord;
    assert w.RecordAt(r);
  }

  // The kinds tell whether a fragment is the last one of its record.
  lemma {:induction false} RecordEnds(w: Written, r: nat, j: nat)
    requires w.Valid() && r < |w.records| == |w.ends| && w.Start(r) <= j < w.ends[r] <= |w.fragments|
    ensures w.fragments[j].kind == FULL || w.fragments[j].kind == LAST <==> j + 1 == w.ends[r]
    ensures FULL <= w.fragments[j].kind <= LAST
  {
    hide Fits, IsRecord, Payloads;
    RecordPart(w, r, j);
  }

  lemma {:induction false} CleanUpToTheDamage(c: Checksum, w: Written, i: nat, file: Bytes, r: nat)
    requires DamagedAt(c, w, i, file) && r < |w.records| == |w.ends| && w.Start(r) <= i < |w.fragments| && Fits(w.fragments[..w.Start(r)])
    ensures var p := |Layout(c, w.fragments[..w.Start(r)])|;
      && Reported(c, true, file, p)
      && CleanRecords(c, true, file, p) == w.records[r..CompleteRecords(w, i, r)]
    decreases |w.records| - r
  {
    hide Layout, Fits, Gather, Assembling, BrokenAt, Written.Valid;
    NothingAssembled(w, r);
    UpToTheDamage(c, w, i, file, r, w.Start(r), false, []);
    if w.ends[r] <= i {
      NextStart(w, r, i);
      CleanUpToTheDamage(c, w, i, file, r + 1);
    }
  }

  // There is a record behind, since there is a fragment.
  lemma {:induction false} NextStart(w: Written, r: nat, i: nat)
    requires w.Valid() && r < |w.records| == |w.ends| && w.ends[r] <= i < |w.fragments|
    ensures r + 1 < |w.records| && w.Start(r + 1) == w.ends[r]
  {
    hide Fits, IsRecord;
  }

  /**
   A file that is what was written up to some fragment, and whose next header is broken,
   whatever follows: the reader reports it, and before that it gives exactly the records
   that the fragments before complete.
   */
  lemma {:induction false} DamageIsReported(c: Checksum, w: Written, i: nat, file: Bytes)
    requires DamagedAt(c, w, i, file)
    ensures |w.ends| == |w.records|
    ensures Reported(c, true, file, 0)
    ensures CleanRecords(c, true, file, 0) == w.records[..CompleteRecords(w, i, 0)]
  {
    hide Fits, Gather, BrokenAt, IsRecord, CompleteRecords;
    assert w.fragments[..0] == [];
    assert |w.records| > 0;
    PrefixFits(w.fragments, 0);
    CleanUpToTheDamage(c, w, i, file, 0);
  }
}
