/**
 Write batches as bytes (db/write_batch.cc): a header with the sequence number and the
 count, then the operations.
 */
module WriteBatches {
  import opened Wrappers
  import opened DbFormat
  import opened Coding
  import opened Comparators

  datatype Op = Put(key: Bytes, value: Bytes) | Delete(key: Bytes)
  {
    // Lengths fit the 32 bits that they are written with.
    predicate Small() {
      |key| < 0x1_0000_0000 && (Put? ==> |value| < 0x1_0000_0000)
    }
  }

  const HEADER_SIZE: nat := 12
  const PUT_TAG: byte := 1
  const DELETE_TAG: byte := 0

  // ----- the format -----

  function EncodeFixed64(w: Long): (r: Bytes)
    ensures |r| == 8
  {
    EncodeFixed32(w % 0x1_0000_0000) + EncodeFixed32(w / 0x1_0000_0000)
  }

  function DecodeFixed64(b: Bytes): Long
    requires |b| >= 8
  {
    DecodeFixed32(b[..4]) + 0x1_0000_0000 * DecodeFixed32(b[4..])
  }

  function Header(sequence: Long, count: Word): (r: Bytes)
    ensures |r| == HEADER_SIZE
  {
    EncodeFixed64(sequence) + EncodeFixed32(count)
  }

  function OpImage(op: Op): (r: Bytes)
    ensures r != []
  {
    match op
    case Put(key, value) => [PUT_TAG] + (PutLengthPrefixed(key) + PutLengthPrefixed(value))
    case Delete(key) => [DELETE_TAG] + PutLengthPrefixed(key)
  }

  function OpImages(ops: seq<Op>): Bytes
    decreases |ops|
  {
    if ops == [] then [] else OpImage(ops[0]) + OpImages(ops[1..])
  }

  predicate SmallOps(ops: seq<Op>) {
    |ops| < 0x8000_0000 && forall i :: 0 <= i < |ops| ==> ops[i].Small()
  }

  function Image(sequence: Long, ops: seq<Op>): Bytes
    requires |ops| < 0x8000_0000
  {
    Header(sequence, |ops|) + OpImages(ops)
  }

  // ----- what Iterate makes of any bytes -----

  // One operation, and how long it is.
  function ParseOp(b: Bytes): (r: Option<(Op, nat)>)
    ensures r.Some? ==> 0 < r.value.1 <= |b|
  {
    if b == [] then None
    else if b[0] == PUT_TAG then
      match GetLengthPrefixed(b[1..])
      case None => None
      case Some((key, n)) =>
        match GetLengthPrefixed(b[1 + n..])
        case None => None
        case Some((value, m)) => Some((Put(key, value), 1 + n + m))
    else if b[0] == DELETE_TAG then
      match GetLengthPrefixed(b[1..])
      case None => None
      case Some((key, n)) => Some((Delete(key), 1 + n))
    else None
  }

  // The operations that the handler is called with, and whether the input ends well.
  function Scan(b: Bytes): (seq<Op>, bool)
    decreases |b|
  {
    if b == [] then ([], true)
    else
      match ParseOp(b)
      case None => ([], false)
      case Some((op, n)) =>
        var (rest, ok) := Scan(b[n..]);
        ([op] + rest, ok)
  }

  // With the check of the count at the end.
  function Iterated(rep: Bytes): (seq<Op>, bool) {
    if |rep| < HEADER_SIZE then ([], false)
    else
      var (ops, ok) := Scan(rep[HEADER_SIZE..]);
      (ops, ok && |ops| == DecodeFixed32(rep[8..HEADER_SIZE]))
  }

  function SequenceOf(rep: Bytes): Long
    requires |rep| >= HEADER_SIZE
  {
    DecodeFixed64(rep)
  }

  // ----- the round trip -----

  lemma {:induction false} OpRoundTrip(op: Op, rest: Bytes)
    requires op.Small()
    ensures ParseOp(OpImage(op) + rest) == Some((op, |OpImage(op)|))
  {
    hide PutLengthPrefixed, GetLengthPrefixed;
    var b := OpImage(op) + rest;
    var k := PutLengthPrefixed(op.key);
    match op
    case Put(key, value) =>
      var v := PutLengthPrefixed(value);
      LengthPrefixedRoundTrip(key, v + rest);
      LengthPrefixedRoundTrip(value, rest);
      assert b[1..] == k + (v + rest);
      assert b[1 + |k|..] == v + rest;
    case Delete(key) =>
      LengthPrefixedRoundTrip(key, rest);
      assert b[1..] == k + rest;
  }

  lemma {:induction false} OpsRoundTrip(ops: seq<Op>)
    requires forall i :: 0 <= i < |ops| ==> ops[i].Small()
    ensures Scan(OpImages(ops)) == (ops, true)
    decreases |ops|
  {
    hide OpImage, ParseOp, Op.Small;
    if ops != [] {
      var rest := OpImages(ops[1..]);
      OpRoundTrip(ops[0], rest);
      OpsRoundTrip(ops[1..]);
      assert OpImages(ops)[|OpImage(ops[0])|..] == rest;
      assert [ops[0]] + ops[1..] == ops;
    }
  }

  lemma {:induction false} Fixed64RoundTrip(w: Long, rest: Bytes)
    ensures DecodeFixed64(EncodeFixed64(w) + rest) == w
  {
    hide EncodeFixed32, DecodeFixed32;
    var low, high := EncodeFixed32(w % 0x1_0000_0000), EncodeFixed32(w / 0x1_0000_0000);
    FixedRoundTrip(w % 0x1_0000_0000, []);
    FixedRoundTrip(w / 0x1_0000_0000, rest);
    var b := EncodeFixed64(w) + rest;
    assert b[..4] == low && b[4..] == high + rest;
    assert low + [] == low;
  }

  /** A batch is read back: its sequence number, and its operations in order. */
  lemma {:induction false} BatchRoundTrip(sequence: Long, ops: seq<Op>)
    requires SmallOps(ops)
    ensures var rep := Image(sequence, ops);
      |rep| >= HEADER_SIZE && SequenceOf(rep) == sequence && Iterated(rep) == (ops, true)
  {
    hide EncodeFixed64, DecodeFixed64, EncodeFixed32, DecodeFixed32, OpImages, Scan, Op.Small;
    var rep := Image(sequence, ops);
    Fixed64RoundTrip(sequence, EncodeFixed32(|ops|) + OpImages(ops));
    assert rep == EncodeFixed64(sequence) + (EncodeFixed32(|ops|) + OpImages(ops));
    FixedRoundTrip(|ops|, []);
    assert rep[8..HEADER_SIZE] == EncodeFixed32(|ops|);
    assert rep[HEADER_SIZE..] == OpImages(ops);
    OpsRoundTrip(ops);
  }

  lemma {:induction false} OpImagesConcat(a: seq<Op>, b: seq<Op>)
    ensures OpImages(a + b) == OpImages(a) + OpImages(b)
    decreases |a|
  {
    hide OpImage;
    if a == [] {
      assert a + b == b;
    } else {
      assert (a + b)[1..] == a[1..] + b;
      OpImagesConcat(a[1..], b);
    }
  }

  // ----- the object -----

  class WriteBatch {
    var rep: Bytes

    // What the batch holds.
    ghost predicate Holds(sequence: Long, ops: seq<Op>)
      reads this
    {
      |ops| < 0x8000_0000 && rep == Image(sequence, ops)
    }

    constructor ()
      ensures Holds(0, [])
    {
      hide EncodeFixed32;
      rep := [];
      new;
      Clear();
    }

    // Clear: a header of zeros.
    method Clear()
      modifies this
      ensures Holds(0, [])
    {
      rep := seq(HEADER_SIZE, i => 0);
      assert EncodeFixed32(0) == [0, 0, 0, 0];
      assert rep == Header(0, 0) + [];
    }

    method SetCount(n: Word)
      requires |rep| >= HEADER_SIZE
      modifies this
      ensures rep == old(rep)[..8] + EncodeFixed32(n) + old(rep)[HEADER_SIZE..]
    {
      rep := rep[..8] + EncodeFixed32(n) + rep[HEADER_SIZE..];
    }

    function Count(): Word
      reads this
      requires |rep| >= HEADER_SIZE
    {
      DecodeFixed32(rep[8..HEADER_SIZE])
    }

    method SetSequence(n: Long, ghost sequence: Long, ghost ops: seq<Op>)
      requires Holds(sequence, ops)
      modifies this
      ensures Holds(n, ops)
    {
      hide EncodeFixed64, EncodeFixed32, OpImages;
      assert rep[8..] == EncodeFixed32(|ops|) + OpImages(ops);
      rep := EncodeFixed64(n) + rep[8..];
      assert rep == Image(n, ops);
    }

    // More records behind those that are there, and the count with them.
    method AddRecords(image: Bytes, ghost sequence: Long, ghost ops: seq<Op>, ghost more: seq<Op>, count: nat)
      requires Holds(sequence, ops) && image == OpImages(more) && count == |more| && |ops| + |more| < 0x8000_0000
      modifies this
      ensures Holds(sequence, ops + more)
    {
      hide EncodeFixed64, EncodeFixed32, DecodeFixed32, OpImages;
      FixedRoundTrip(|ops|, []);
      assert rep[8..HEADER_SIZE] == EncodeFixed32(|ops|);
      SetCount(Count() + count);
      rep := rep + image;
      OpImagesConcat(ops, more);
      assert rep == Image(sequence, ops + more);
    }

    // WriteBatchInternal::Append, the batches of a group behind one another.
    method Append(source: WriteBatch, ghost sequence: Long, ghost ops: seq<Op>, ghost other: Long, ghost more: seq<Op>)
      requires Holds(sequence, ops) && source.Holds(other, more) && |ops| + |more| < 0x8000_0000
      modifies this
      ensures Holds(sequence, ops + more)
    {
      hide EncodeFixed64, EncodeFixed32, DecodeFixed32, OpImages;
      FixedRoundTrip(|more|, []);
      assert source.rep[8..HEADER_SIZE] == EncodeFixed32(|more|);
      assert source.rep[HEADER_SIZE..] == OpImages(more);
      AddRecords(source.rep[HEADER_SIZE..], sequence, ops, more, source.Count());
    }

    // SetContents.
    method SetContents(contents: Bytes)
      requires |contents| >= HEADER_SIZE
      modifies this
      ensures rep == contents
    {
      rep := contents;
    }

    method Put(key: Bytes, value: Bytes, ghost sequence: Long, ghost ops: seq<Op>)
      requires Holds(sequence, ops) && |ops| + 1 < 0x8000_0000
      modifies this
      ensures Holds(sequence, ops + [Op.Put(key, value)])
    {
      hide EncodeFixed64, EncodeFixed32, PutLengthPrefixed;
      var image := [PUT_TAG] + (PutLengthPrefixed(key) + PutLengthPrefixed(value));
      assert OpImages([Op.Put(key, value)]) == image + OpImages([]);
      AddRecords(image, sequence, ops, [Op.Put(key, value)], 1);
    }

    method Delete(key: Bytes, ghost sequence: Long, ghost ops: seq<Op>)
      requires Holds(sequence, ops) && |ops| + 1 < 0x8000_0000
      modifies this
      ensures Holds(sequence, ops + [Op.Delete(key)])
    {
      hide EncodeFixed64, EncodeFixed32, PutLengthPrefixed;
      var image := [DELETE_TAG] + PutLengthPrefixed(key);
      assert OpImages([Op.Delete(key)]) == image + OpImages([]);
      AddRecords(image, sequence, ops, [Op.Delete(key)], 1);
    }

    /** Iterate, on any contents: the operations up to the first error, and the status. */
    method Iterate() returns (ops: seq<Op>, ok: bool)
      ensures (ops, ok) == Iterated(rep)
    {
      hide GetLengthPrefixed, ParseOp, DecodeFixed32;
      ops := [];
      if |rep| < HEADER_SIZE {
        return ops, false;
      }
      var input := rep[HEADER_SIZE..];
      assert [] + Scan(input).0 == Scan(input).0;
      while input != []
        invariant Scan(rep[HEADER_SIZE..]) == (ops + Scan(input).0, Scan(input).1)
        decreases |input|
      {
        var r := ReadOp(input);
        if r.None? {
          assert ops + [] == ops;
          return ops, false;
        }
        assert ops + Scan(input).0 == (ops + [r.value.0]) + Scan(input[r.value.1..]).0;
        ops := ops + [r.value.0];
        input := input[r.value.1..];
      }
      assert ops + [] == ops;
      ok := |ops| == Count();
    }
  }

  // The switch over the tags.
  method ReadOp(input: Bytes) returns (r: Option<(Op, nat)>)
    requires input != []
    ensures r == ParseOp(input)
  {
    hide GetLengthPrefixed;
    var tag := input[0];
    if tag == PUT_TAG {
      var key := GetLengthPrefixed(input[1..]);
      if key.None? {
        return None;
      }
      var value := GetLengthPrefixed(input[1 + key.value.1..]);
      if value.None? {
        return None;
      }
      return Some((Put(key.value.0, value.value.0), 1 + key.value.1 + value.value.1));
    } else if tag == DELETE_TAG {
      var key := GetLengthPrefixed(input[1..]);
      if key.None? {
        return None;
      }
      return Some((Delete(key.value.0), 1 + key.value.1));
    }
    return None;
  }
}
