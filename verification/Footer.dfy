/**
 The parts of a table file that are not blocks (table/format.h, table/format.cc): block
 handles, the trailer behind every block, and the footer at the end of the file.
 */
module Footers {
  import opened Wrappers
  import opened DbFormat
  import opened Coding

  // ----- handles -----

  datatype BlockHandle = BlockHandle(offset: nat, size: nat)
  {
    // 64 bits for each.
    predicate Small() {
      offset < 0x1_0000_0000_0000_0000 && size < 0x1_0000_0000_0000_0000
    }
  }

  function EncodeHandle(h: BlockHandle): Bytes {
    Varint(h.offset) + Varint(h.size)
  }

  // A handle at the start of the input, and how long it is.
  function ParseHandle(b: Bytes): (r: Option<(BlockHandle, nat)>)
    ensures r.Some? ==> r.value.1 <= |b|
  {
    match ParseLong(b)
    case None => None
    case Some((offset, n)) =>
      match ParseLong(b[n..])
      case None => None
      case Some((size, m)) => Some((BlockHandle(offset, size), n + m))
  }

  function DecodeHandle(b: Bytes): Option<BlockHandle> {
    match ParseHandle(b)
    case None => None
    case Some((h, _)) => Some(h)
  }

  lemma {:induction false} HandleRoundTrip(h: BlockHandle, rest: Bytes)
    requires h.Small()
    ensures ParseHandle(EncodeHandle(h) + rest) == Some((h, |EncodeHandle(h)|))
    ensures DecodeHandle(EncodeHandle(h) + rest) == Some(h)
    ensures |EncodeHandle(h)| <= MAX_HANDLE_LENGTH
  {
    hide Varint, ParseLong;
    var a, b := Varint(h.offset), Varint(h.size);
    LongRoundTrip(h.offset, b + rest);
    LongRoundTrip(h.size, rest);
    assert EncodeHandle(h) + rest == a + (b + rest);
    assert (a + (b + rest))[|a|..] == b + rest;
  }

  const MAX_HANDLE_LENGTH: nat := 20

  // ----- the trailer of a block -----

  const BLOCK_TRAILER_SIZE: nat := 5
  const NO_COMPRESSION: byte := 0

  // The type of the block, and the checksum of its contents and the type.
  function Trailer(checksum: Bytes -> Word, contents: Bytes): (r: Bytes)
    ensures |r| == BLOCK_TRAILER_SIZE
  {
    [NO_COMPRESSION] + EncodeFixed32(checksum(contents + [NO_COMPRESSION]))
  }

  // The block that the handle stands for, with its trailer.
  predicate Holds(checksum: Bytes -> Word, file: Bytes, h: BlockHandle, contents: Bytes) {
    && h.size == |contents| && h.offset + h.size + BLOCK_TRAILER_SIZE <= |file|
    && file[h.offset..h.offset + h.size + BLOCK_TRAILER_SIZE] == contents + Trailer(checksum, contents)
  }

  // ReadBlock, up to the contents.  Comparing masked checksums is comparing checksums.
  function ReadContents(checksum: Bytes -> Word, verify: bool, file: Bytes, h: BlockHandle): Option<Bytes> {
    var end := h.offset + h.size;
    if end + BLOCK_TRAILER_SIZE > |file| then None
    else if verify && DecodeFixed32(file[end + 1..end + BLOCK_TRAILER_SIZE]) != checksum(file[h.offset..end + 1]) then None
    else if file[end] != NO_COMPRESSION then None
    else Some(file[h.offset..end])
  }

  /** A written block is read back, whether or not its checksum is verified. */
  lemma {:induction false} HeldIsRead(checksum: Bytes -> Word, verify: bool, file: Bytes, h: BlockHandle, contents: Bytes)
    requires Holds(checksum, file, h, contents)
    ensures ReadContents(checksum, verify, file, h) == Some(contents)
  {
    hide EncodeFixed32, DecodeFixed32;
    var end := h.offset + h.size;
    var whole := file[h.offset..end + BLOCK_TRAILER_SIZE];
    var sum := checksum(contents + [NO_COMPRESSION]);
    FixedRoundTrip(sum, []);
    assert file[h.offset..end] == whole[..h.size] == contents;
    assert file[end] == whole[h.size] == NO_COMPRESSION;
    assert file[h.offset..end + 1] == whole[..h.size + 1] == contents + [NO_COMPRESSION];
    assert file[end + 1..end + BLOCK_TRAILER_SIZE] == whole[h.size + 1..] == EncodeFixed32(sum);
  }

  // Four bytes and the number that they stand for.
  lemma {:induction false} BytesOfFixed(b: Bytes)
    requires |b| == 4
    ensures EncodeFixed32(DecodeFixed32(b)) == b
  {
    var b0, b1, b2, b3 := b[0] as int, b[1] as int, b[2] as int, b[3] as int;
    LowByte(b0, b1 + 256 * (b2 + 256 * b3));
    LowByte(b1, b2 + 256 * b3);
    LowByte(b2, b3);
    var n := DecodeFixed32(b);
    assert n == b0 + 256 * (b1 + 256 * (b2 + 256 * b3));
    assert n / 0x1_0000 == n / 256 / 256 && n / 0x100_0000 == n / 256 / 256 / 256;
  }

  lemma {:induction false} LowByte(low: int, high: nat)
    requires 0 <= low < 256
    ensures (low + 256 * high) % 256 == low && (low + 256 * high) / 256 == high
  {
  }

  /**
   With verification a block is read exactly if it stands in the file with its trailer: a
   block with a wrong checksum is refused.
   */
  lemma {:induction false} VerifiedIsHeld(checksum: Bytes -> Word, file: Bytes, h: BlockHandle, contents: Bytes)
    ensures ReadContents(checksum, true, file, h) == Some(contents) <==> Holds(checksum, file, h, contents)
  {
    hide EncodeFixed32, DecodeFixed32;
    if Holds(checksum, file, h, contents) {
      HeldIsRead(checksum, true, file, h, contents);
    }
    if ReadContents(checksum, true, file, h) == Some(contents) {
      var end := h.offset + h.size;
      var whole := file[h.offset..end + BLOCK_TRAILER_SIZE];
      var stored := file[end + 1..end + BLOCK_TRAILER_SIZE];
      BytesOfFixed(stored);
      assert file[h.offset..end + 1] == contents + [NO_COMPRESSION];
      assert whole == contents + ([NO_COMPRESSION] + stored);
    }
  }

  lemma {:induction false} StillHolds(checksum: Bytes -> Word, before: Bytes, file: Bytes, h: BlockHandle, contents: Bytes)
    requires before <= file && Holds(checksum, before, h, contents)
    ensures Holds(checksum, file, h, contents)
  {
    var end := h.offset + h.size + BLOCK_TRAILER_SIZE;
    assert before == file[..|before|];
    assert file[h.offset..end] == before[h.offset..end];
  }

  // ----- the footer -----

  datatype Footer = Footer(metaindexHandle: BlockHandle, indexHandle: BlockHandle)

  const FOOTER_LENGTH: nat := 48

  // The table magic number, its low half first.
  const MAGIC_LOW: Word := 0x8b80_fb57
  const MAGIC_HIGH: Word := 0xdb47_7524

  // resize: cut or padded with zeros.
  function Resized(b: Bytes, n: nat): (r: Bytes)
    ensures |r| == n
  {
    if |b| >= n then b[..n] else b + seq(n - |b|, i => 0)
  }

  function EncodeFooter(f: Footer): (r: Bytes)
    ensures |r| == FOOTER_LENGTH
  {
    Resized(EncodeHandle(f.metaindexHandle) + EncodeHandle(f.indexHandle), 2 * MAX_HANDLE_LENGTH)
    + EncodeFixed32(MAGIC_LOW) + EncodeFixed32(MAGIC_HIGH)
  }

  function DecodeFooter(b: Bytes): Option<Footer>
    requires |b| == FOOTER_LENGTH
  {
    if DecodeFixed32(b[FOOTER_LENGTH - 8..FOOTER_LENGTH - 4]) != MAGIC_LOW || DecodeFixed32(b[FOOTER_LENGTH - 4..]) != MAGIC_HIGH then None
    else
      match ParseHandle(b)
      case None => None
      case Some((meta, n)) =>
        match ParseHandle(b[n..])
        case None => None
        case Some((index, _)) => Some(Footer(meta, index))
  }

  lemma {:induction false} FooterRoundTrip(f: Footer)
    requires f.metaindexHandle.Small() && f.indexHandle.Small()
    ensures DecodeFooter(EncodeFooter(f)) == Some(f)
  {
    hide EncodeHandle, ParseHandle, EncodeFixed32, DecodeFixed32;
    var a, b := EncodeHandle(f.metaindexHandle), EncodeHandle(f.indexHandle);
    HandleRoundTrip(f.metaindexHandle, []);
    HandleRoundTrip(f.indexHandle, []);
    var padding: Bytes := seq(2 * MAX_HANDLE_LENGTH - |a + b|, i => 0);
    var low, high := EncodeFixed32(MAGIC_LOW), EncodeFixed32(MAGIC_HIGH);
    var all := EncodeFooter(f);
    assert all == a + (b + (padding + low + high));
    HandleRoundTrip(f.metaindexHandle, b + (padding + low + high));
    HandleRoundTrip(f.indexHandle, padding + low + high);
    assert all[|a|..] == b + (padding + low + high);
    FixedRoundTrip(MAGIC_LOW, []);
    FixedRoundTrip(MAGIC_HIGH, []);
    assert all[FOOTER_LENGTH - 8..FOOTER_LENGTH - 4] == low && all[FOOTER_LENGTH - 4..] == high;
  }

  // The file ends with the footer.
  ghost predicate EndsWith(file: Bytes, f: Footer) {
    |file| >= FOOTER_LENGTH && file[|file| - FOOTER_LENGTH..] == EncodeFooter(f)
  }
}
