/**
 The nanopb encoder (nanopb/pb_encode.c) writes the encoding, or only counts its bytes.
 */
module NanopbEncode {
  import opened Wrappers
  import opened DbFormat
  import opened Coding
  import opened NanopbFormat
  import opened NanopbParse

  // The iterator over the fields of a message (pb_common.c); behind the last field it is
  // back at the first.
  class FieldIterator {
    const d: Descriptor
    var pos: nat
    var requiredFieldIndex: nat

    ghost predicate Ok()
      reads this
    {
      && (pos < |d.fields| || (pos == 0 && d.fields == []))
      && requiredFieldIndex == RequiredBefore(d, pos)
    }

    // pb_field_iter_begin; an empty message has only the terminator.
    constructor (d: Descriptor)
      ensures this.d == d && Ok() && pos == 0
    {
      this.d := d;
      pos, requiredFieldIndex := 0, 0;
    }

    /** pb_field_iter_next. */
    method Next() returns (more: bool)
      requires Ok()
      modifies this
      ensures Ok() && more == (old(pos) + 1 < |d.fields|) && pos == if more then old(pos) + 1 else 0
    {
      if d.fields == [] {
        return false;
      }
      var previous := d.fields[pos];
      pos := pos + 1;
      if pos == |d.fields| {
        pos, requiredFieldIndex := 0, 0;
        return false;
      }
      if previous.htype.Required? {
        requiredFieldIndex := requiredFieldIndex + 1;
      }
      return true;
    }

    // The terminator has tag zero.
    function TagHere(): nat
      reads this
      requires Ok()
    {
      if pos < |d.fields| then d.fields[pos].tag else 0
    }

    /** pb_field_iter_find, around the fields from wherever the iterator stands. */
    method Find(tag: nat) returns (found: bool)
      requires Ok()
      modifies this
      ensures Ok()
      ensures found ==> TagHere() == tag
      ensures !found ==> pos == old(pos) && (forall i :: 0 <= i < |d.fields| ==> d.fields[i].tag != tag)
      ensures !found && d.fields == [] ==> tag != 0
    {
      var start := pos;
      ghost var wrapped := false;
      while true
        invariant Ok()
        invariant if wrapped then pos < start && (forall i :: 0 <= i < pos || start <= i < |d.fields| ==> d.fields[i].tag != tag)
                  else start <= pos && (forall i :: start <= i < pos ==> d.fields[i].tag != tag)
        decreases if wrapped then start - pos else |d.fields| + 1 + start - pos
      {
        if TagHere() == tag {
          return true;
        }
        var more := Next();
        wrapped := wrapped || !more;
        if pos == start {
          return false;
        }
      }
    }
  }

  class OutputStream {
    // No callback: the stream only counts.
    const sizing: bool
    const maxSize: nat
    var bytesWritten: nat
    // What the callback was given.
    var data: Bytes

    constructor (sizing: bool, maxSize: nat, data: Bytes)
      ensures this.sizing == sizing && this.maxSize == maxSize && bytesWritten == 0 && this.data == data
    {
      this.sizing, this.maxSize, bytesWritten, this.data := sizing, maxSize, 0, data;
    }

    predicate HasRoom(written: nat, n: nat) {
      sizing || n == 0 || written + n <= maxSize
    }

    // The state behind a stretch of output.
    predicate Wrote(written: nat, before: Bytes, b: Bytes)
      reads this
    {
      bytesWritten == written + |b| && data == if sizing then before else before + b
    }

    /** pb_write. */
    method Write(buf: Bytes) returns (ok: bool)
      modifies this
      ensures ok <==> HasRoom(old(bytesWritten), |buf|)
      ensures ok ==> Wrote(old(bytesWritten), old(data), buf)
    {
      if |buf| > 0 && !sizing {
        if bytesWritten + |buf| > maxSize {
          return false;
        }
        data := data + buf;
      }
      bytesWritten := bytesWritten + |buf|;
      return true;
    }

    // pb_write without data.
    method Advance(count: nat)
      requires sizing
      modifies this`bytesWritten
      ensures bytesWritten == old(bytesWritten) + count
    {
      bytesWritten := bytesWritten + count;
    }
  }

  // ----- varints -----

  // Every byte with the top bit set.
  function AllMore(v: nat): Bytes {
    if v == 0 then [] else [More(v)] + AllMore(v / 128)
  }

  lemma {:induction false} Associate(a: Bytes, b: Bytes, c: Bytes)
    ensures a + (b + c) == (a + b) + c
  {
  }

  lemma {:induction false} AllMoreStep(v: nat)
    ensures AllMore(v) == if v == 0 then [] else [More(v)] + AllMore(v / 128)
  {
  }

  lemma {:induction false} LastHasNoMore(v: nat)
    requires v > 0
    ensures var a := AllMore(v); |a| == |Varint(v)| > 0 && a[|a| - 1] >= 128 && a[|a| - 1 := a[|a| - 1] - 128] == Varint(v)
  {
    if v >= 128 {
      LastHasNoMore(v / 128);
    }
  }

  lemma {:induction false} LengthIsBounded(v: nat, n: nat)
    requires v < Power128(n)
    ensures |AllMore(v)| <= n
    decreases n
  {
    if v > 0 && n > 0 {
      LengthIsBounded(v / 128, n - 1);
    }
  }

  /** pb_encode_varint. */
  method EncodeVarint(stream: OutputStream, value: Long) returns (ok: bool)
    modifies stream
    ensures ok <==> stream.HasRoom(old(stream.bytesWritten), |Varint(value)|)
    ensures ok ==> stream.Wrote(old(stream.bytesWritten), old(stream.data), Varint(value))
  {
    hide OutputStream.HasRoom, OutputStream.Wrote;
    if value <= 0x7F {
      assert Varint(value) == [value as byte];
      ok := stream.Write([value as byte]);
      return;
    }
    var bytes := VarintBytes(value);
    ok := stream.Write(bytes);
  }

  // The buffer of at most ten bytes.
  method VarintBytes(value: Long) returns (bytes: Bytes)
    requires value > 0x7F
    ensures bytes == Varint(value)
  {
    hide More, AllMore, Varint;
    var buffer := new byte[10];
    var i := 0;
    var v: nat := value;
    TenBytes();
    LengthIsBounded(value, 10);
    while v > 0
      invariant i <= 10 && buffer[..i] + AllMore(v) == AllMore(value)
      decreases v
    {
      AllMoreStep(v);
      ghost var before := buffer[..i];
      buffer[i] := More(v);
      assert buffer[..i + 1] == before + [More(v)];
      Associate(before, [More(v)], AllMore(v / 128));
      v := v / 128;
      i := i + 1;
    }
    AllMoreStep(0);
    assert buffer[..i] == AllMore(value);
    LastHasNoMore(value);
    buffer[i - 1] := buffer[i - 1] - 128;
    return buffer[..i];
  }

  const ALL_BITS: Long := 0xFFFF_FFFF_FFFF_FFFF

  /** pb_encode_svarint. */
  method EncodeSvarint(stream: OutputStream, value: int) returns (ok: bool)
    requires -0x8000_0000_0000_0000 <= value < 0x8000_0000_0000_0000
    modifies stream
    ensures ok <==> stream.HasRoom(old(stream.bytesWritten), |Varint(ZigZag(value))|)
    ensures ok ==> stream.Wrote(old(stream.bytesWritten), old(stream.data), Varint(ZigZag(value)))
  {
    var shifted := Unsigned(value) * 2 % 0x1_0000_0000_0000_0000;
    var zigzagged: Long := if value < 0 then ALL_BITS - shifted else shifted;
    assert zigzagged == ZigZag(value);
    ok := EncodeVarint(stream, zigzagged);
  }

  /** pb_encode_string. */
  method EncodeString(stream: OutputStream, b: Bytes) returns (ok: bool)
    requires |b| < 0x1_0000_0000_0000_0000
    modifies stream
    ensures ok <==> stream.HasRoom(old(stream.bytesWritten), |Prefixed(b)|)
    ensures ok ==> stream.Wrote(old(stream.bytesWritten), old(stream.data), Prefixed(b))
  {
    hide Varint;
    ok := EncodeVarint(stream, |b|);
    if ok {
      ghost var before := old(stream.data);
      assert before + (Varint(|b|) + b) == (before + Varint(|b|)) + b;
      ok := stream.Write(b);
    }
  }

  /** pb_encode_tag. */
  method EncodeTag(stream: OutputStream, wire: nat, f: Field) returns (ok: bool)
    requires f.tag < TAG_LIMIT && wire < 8
    modifies stream
    ensures ok <==> stream.HasRoom(old(stream.bytesWritten), |FieldTag(f, wire)|)
    ensures ok ==> stream.Wrote(old(stream.bytesWritten), old(stream.data), FieldTag(f, wire))
  {
    ok := EncodeVarint(stream, f.tag * 8 + wire);
  }

  // ----- values, fields, messages -----

  // Sizes are counted in 64 bits.
  predicate Countable(n: nat) {
    n < 0x1_0000_0000_0000_0000
  }

  lemma {:induction false} ValueInRange(t: LType, v: Value)
    requires TypedValue(t, v) && !t.Submessage?
    ensures v.Num? <==> Packable(t)
    ensures t.VarintOf? || t.SVarintOf? ==> -0x8000_0000_0000_0000 <= v.n < 0x8000_0000_0000_0000
    ensures t.Bool? || t.UVarintOf? || t.Fixed64? ==> 0 <= v.n < 0x1_0000_0000_0000_0000
    ensures t.Bool? ==> v.n == 0 || v.n == 1
    ensures t.Fixed32? ==> 0 <= v.n < 0x1_0000_0000
  {
  }

  /** The encoder of a type: pb_enc_bool to pb_enc_fixed_length_bytes. */
  method WriteValue(stream: OutputStream, t: LType, v: Value) returns (ok: bool)
    requires GoodTags(t) && TypedValue(t, v) && Countable(|EncodeValue(t, v)|)
    modifies stream
    ensures ok <==> EncodableValue(t, v) && stream.HasRoom(old(stream.bytesWritten), |EncodeValue(t, v)|)
    ensures ok ==> stream.Wrote(old(stream.bytesWritten), old(stream.data), EncodeValue(t, v))
    decreases t, 0, 0
  {
    hide Varint, EncodeMsg, Encodable, TypedMsg, ZigZag, OutputStream.HasRoom, OutputStream.Wrote, EncodeFixed32, EncodeFixed64;
    if t.Submessage? {
      AsManySlots(t.d, v.slots);
      ok := WriteSubmessage(stream, t.d, v.slots);
      return;
    }
    ValueInRange(t, v);
    match t {
      case Bool => ok := EncodeVarint(stream, if v.n != 0 then 1 else 0);
      case VarintOf(_) => ok := EncodeVarint(stream, Unsigned(v.n));
      case UVarintOf(_) => ok := EncodeVarint(stream, v.n);
      case SVarintOf(_) => ok := EncodeSvarint(stream, v.n);
      case Fixed32 => ok := stream.Write(EncodeFixed32(v.n));
      case Fixed64 => ok := stream.Write(EncodeFixed64(v.n));
      case BytesOf(size) =>
        if |v.bytes| + BYTES_OFFSET > size {
          return false;
        }
        ok := EncodeString(stream, v.bytes);
      case StringOf(_) => ok := EncodeString(stream, v.bytes);
      case FixedBytesOf(_) => ok := EncodeString(stream, v.bytes);
    }
  }

  lemma {:induction false} AsManySlots(d: Descriptor, slots: seq<Slot>)
    requires TypedMsg(d, slots)
    ensures |slots| == |d.fields|
  {
  }

  ghost predicate GoodTags(t: LType) {
    t.Submessage? ==> SmallTags(t.d)
  }

  ghost predicate SmallTags(d: Descriptor)
    decreases d, 0
  {
    forall i :: 0 <= i < |d.fields| ==> SmallTagsIn(d.fields[i])
  }

  ghost predicate SmallTagsIn(f: Field)
    decreases f, 0
  {
    f.tag < TAG_LIMIT && (f.ltype.Submessage? ==> SmallTags(f.ltype.d))
  }

  // What the items from the i-th on are written as.
  ghost function ItemsFrom(t: LType, items: seq<Value>, i: nat): Bytes
    requires (forall k :: 0 <= k < |items| ==> TypedValue(t, items[k])) && i <= |items|
  {
    EncodeItems(t, items[i..])
  }

  lemma {:induction false} ItemsSplit(t: LType, items: seq<Value>, i: nat)
    requires (forall k :: 0 <= k < |items| ==> TypedValue(t, items[k])) && i < |items|
    ensures ItemsFrom(t, items, i) == EncodeValue(t, items[i]) + ItemsFrom(t, items, i + 1)
  {
    hide EncodeValue, TypedValue;
    assert items[i..][0] == items[i] && items[i..][1..] == items[i + 1..];
  }

  lemma {:induction false} ItemsEnds(t: LType, items: seq<Value>)
    requires forall k :: 0 <= k < |items| ==> TypedValue(t, items[k])
    ensures ItemsFrom(t, items, 0) == EncodeItems(t, items) && ItemsFrom(t, items, |items|) == []
  {
    hide EncodeValue, TypedValue;
    assert items[0..] == items && items[|items|..] == [];
  }

  // Writing the items one after the other.
  method WriteItems(stream: OutputStream, t: LType, items: seq<Value>) returns (ok: bool)
    requires Packable(t) && (forall k :: 0 <= k < |items| ==> TypedValue(t, items[k])) && Countable(|EncodeItems(t, items)|)
    modifies stream
    ensures ok <==> stream.HasRoom(old(stream.bytesWritten), |EncodeItems(t, items)|)
    ensures ok ==> stream.Wrote(old(stream.bytesWritten), old(stream.data), EncodeItems(t, items))
    decreases t, 1, 0
  {
    hide EncodeValue, TypedValue, EncodeItems, ItemsFrom, Underway, OutputStream.HasRoom, OutputStream.Wrote;
    ghost var all := EncodeItems(t, items);
    ghost var written, before := stream.bytesWritten, stream.data;
    ghost var done: Bytes := [];
    ItemsEnds(t, items);
    SetOut(stream, all);
    for i := 0 to |items|
      invariant Underway(stream, written, before, all, done, ItemsFrom(t, items, i))
    {
      ItemsSplit(t, items, i);
      PackableIsEncodable(t, items[i]);
      ghost var one, later := EncodeValue(t, items[i]), ItemsFrom(t, items, i + 1);
      NextPart(stream, written, before, all, done, one, later);
      ghost var middle, there := stream.bytesWritten, stream.data;
      var fits := WriteValue(stream, t, items[i]);
      if !fits {
        return false;
      }
      PartWritten(stream, written, before, all, done, one, later, middle, there);
      done := done + one;
    }
    Arrived(stream, written, before, all, done);
    return true;
  }

  lemma {:induction false} PackableIsEncodable(t: LType, v: Value)
    requires Packable(t)
    ensures EncodableValue(t, v) && GoodTags(t)
  {
  }

  // Two stretches of output make one.
  lemma {:induction false} WroteTwice(stream: OutputStream, written: nat, before: Bytes, a: Bytes, middle: nat, there: Bytes, b: Bytes)
    requires middle == written + |a| && there == (if stream.sizing then before else before + a) && stream.Wrote(middle, there, b)
    ensures stream.Wrote(written, before, a + b)
  {
    assert (before + a) + b == before + (a + b);
  }

  lemma {:induction false} WroteNothing(stream: OutputStream)
    ensures stream.Wrote(stream.bytesWritten, stream.data, []) && stream.HasRoom(stream.bytesWritten, 0)
  {
  }

  // Of `all` output, `done` is written and `later` is still to come.
  ghost predicate Underway(stream: OutputStream, written: nat, before: Bytes, all: Bytes, done: Bytes, later: Bytes)
    reads stream
  {
    all == done + later && stream.Wrote(written, before, done) && stream.HasRoom(written, |done|)
  }

  lemma {:induction false} SetOut(stream: OutputStream, all: Bytes)
    ensures Underway(stream, stream.bytesWritten, stream.data, all, [], all)
  {
    WroteNothing(stream);
  }

  lemma {:induction false} NextPart(stream: OutputStream, written: nat, before: Bytes, all: Bytes, done: Bytes, one: Bytes, later: Bytes)
    requires Underway(stream, written, before, all, done, one + later)
    ensures stream.bytesWritten == written + |done| && stream.data == (if stream.sizing then before else before + done)
    ensures |all| == |done| + |one| + |later| && all == (done + one) + later
    ensures stream.HasRoom(written, |done|)
    ensures stream.HasRoom(written, |all|) ==> stream.HasRoom(stream.bytesWritten, |one|)
  {
  }

  lemma {:induction false} PartWritten(stream: OutputStream, written: nat, before: Bytes, all: Bytes, done: Bytes, one: Bytes,
                                       later: Bytes, middle: nat, there: Bytes)
    requires all == (done + one) + later && stream.HasRoom(middle, |one|)
    requires stream.HasRoom(written, |done|)
    requires middle == written + |done| && there == (if stream.sizing then before else before + done)
    requires stream.Wrote(middle, there, one)
    ensures Underway(stream, written, before, all, done + one, later)
  {
    WroteTwice(stream, written, before, done, middle, there, one);
  }

  lemma {:induction false} Arrived(stream: OutputStream, written: nat, before: Bytes, all: Bytes, done: Bytes)
    requires Underway(stream, written, before, all, done, [])
    ensures stream.Wrote(written, before, all) && stream.HasRoom(written, |all|)
  {
    assert done + [] == done;
  }

  lemma {:induction false} RoomInParts(stream: OutputStream, written: nat, a: nat, b: nat)
    ensures stream.HasRoom(written, a) && stream.HasRoom(written + a, b) <==> stream.HasRoom(written, a + b)
  {
  }

  lemma {:induction false} FixedSizes(t: LType, items: seq<Value>)
    requires (t.Fixed32? || t.Fixed64?) && forall k :: 0 <= k < |items| ==> TypedValue(t, items[k])
    ensures |EncodeItems(t, items)| == (if t.Fixed32? then 4 else 8) * |items|
    decreases |items|
  {
    if items != [] {
      FixedSizes(t, items[1..]);
    }
  }

  // The size of a packed array, known or counted.
  method PackedSize(t: LType, items: seq<Value>) returns (size: nat)
    requires Packable(t) && (forall k :: 0 <= k < |items| ==> TypedValue(t, items[k])) && Countable(|EncodeItems(t, items)|)
    ensures size == |EncodeItems(t, items)|
    decreases t, 2, 0
  {
    hide EncodeItems, TypedValue;
    if t.Fixed32? || t.Fixed64? {
      FixedSizes(t, items);
    }
    if t.Fixed32? {
      size := 4 * |items|;
    } else if t.Fixed64? {
      size := 8 * |items|;
    } else {
      var sizeStream := new OutputStream(true, 0, []);
      var ok := WriteItems(sizeStream, t, items);
      size := sizeStream.bytesWritten;
    }
  }

  /** encode_array, when it packs. */
  method WritePacked(stream: OutputStream, f: Field, items: seq<Value>) returns (ok: bool)
    requires Packable(f.ltype) && (forall k :: 0 <= k < |items| ==> TypedValue(f.ltype, items[k]))
    requires f.tag < TAG_LIMIT && Countable(|EncodeItems(f.ltype, items)|)
    modifies stream
    ensures var all := FieldTag(f, 2) + Prefixed(EncodeItems(f.ltype, items));
      && (ok <==> stream.HasRoom(old(stream.bytesWritten), |all|))
      && (ok ==> stream.Wrote(old(stream.bytesWritten), old(stream.data), all))
    decreases f, 0, 0
  {
    hide EncodeItems, TypedValue, Varint, FieldTag, OutputStream.HasRoom;
    ghost var written, before := stream.bytesWritten, stream.data;
    ghost var tag, contents := FieldTag(f, 2), EncodeItems(f.ltype, items);
    ghost var length := Varint(|contents|);
    RoomInParts(stream, written, |tag|, |length|);
    RoomInParts(stream, written, |tag| + |length|, |contents|);
    assert before + (tag + (length + contents)) == ((before + tag) + length) + contents;
    ok := EncodeTag(stream, 2, f);
    if !ok {
      return;
    }
    var size := PackedSize(f.ltype, items);
    ok := EncodeVarint(stream, size);
    if !ok {
      return;
    }
    if stream.sizing {
      RoomWhenSizing(stream, written + |tag| + |length|, |contents|);
      stream.Advance(size);
      return true;
    }
    ok := WriteItems(stream, f.ltype, items);
  }

  lemma {:induction false} RoomWhenSizing(stream: OutputStream, written: nat, n: nat)
    requires stream.sizing
    ensures stream.HasRoom(written, n)
  {
  }

  /** One record: pb_encode_tag_for_field, then the value. */
  method WriteRecord(stream: OutputStream, f: Field, v: Value) returns (ok: bool)
    requires SmallTagsIn(f) && TypedValue(f.ltype, v) && Countable(|Record(f, v)|)
    modifies stream
    ensures ok <==> EncodableValue(f.ltype, v) && stream.HasRoom(old(stream.bytesWritten), |Record(f, v)|)
    ensures ok ==> stream.Wrote(old(stream.bytesWritten), old(stream.data), Record(f, v))
    decreases f, 0, 0
  {
    hide EncodeValue, EncodableValue, TypedValue, FieldTag, OutputStream.HasRoom;
    ghost var written, before := stream.bytesWritten, stream.data;
    ghost var tag, contents := FieldTag(f, WireType(f.ltype)), EncodeValue(f.ltype, v);
    RoomInParts(stream, written, |tag|, |contents|);
    assert before + (tag + contents) == (before + tag) + contents;
    ok := EncodeTag(stream, WireType(f.ltype), f);
    if ok {
      ok := WriteValue(stream, f.ltype, v);
    }
  }

  ghost function UnpackedFrom(f: Field, items: seq<Value>, i: nat): Bytes
    requires (forall k :: 0 <= k < |items| ==> TypedValue(f.ltype, items[k])) && i <= |items|
  {
    Concat(ItemRecords(f, items[i..]))
  }

  lemma {:induction false} RecordsSplit(f: Field, items: seq<Value>, i: nat)
    requires (forall k :: 0 <= k < |items| ==> TypedValue(f.ltype, items[k])) && i < |items|
    ensures UnpackedFrom(f, items, i) == Record(f, items[i]) + UnpackedFrom(f, items, i + 1)
  {
    hide Record, TypedValue;
    assert items[i..][0] == items[i] && items[i..][1..] == items[i + 1..];
    assert ItemRecords(f, items[i..])[1..] == ItemRecords(f, items[i + 1..]);
  }

  lemma {:induction false} UnpackedEnds(f: Field, items: seq<Value>)
    requires forall k :: 0 <= k < |items| ==> TypedValue(f.ltype, items[k])
    ensures UnpackedFrom(f, items, 0) == Concat(ItemRecords(f, items)) && UnpackedFrom(f, items, |items|) == []
  {
    hide Record, TypedValue;
    assert items[0..] == items && items[|items|..] == [];
  }

  /** encode_array, when it does not pack. */
  method WriteUnpacked(stream: OutputStream, f: Field, items: seq<Value>) returns (ok: bool)
    requires SmallTagsIn(f) && (forall k :: 0 <= k < |items| ==> TypedValue(f.ltype, items[k]))
    requires Countable(|Concat(ItemRecords(f, items))|)
    modifies stream
    ensures var all := Concat(ItemRecords(f, items));
      && (ok <==> (forall k :: 0 <= k < |items| ==> EncodableValue(f.ltype, items[k]))
                  && stream.HasRoom(old(stream.bytesWritten), |all|))
      && (ok ==> stream.Wrote(old(stream.bytesWritten), old(stream.data), all))
    decreases f, 1, 0
  {
    hide Record, TypedValue, Concat, EncodableValue, Underway, OutputStream.HasRoom, OutputStream.Wrote, SmallTagsIn, ItemRecords,
      UnpackedFrom;
    ghost var all := Concat(ItemRecords(f, items));
    ghost var written, before := stream.bytesWritten, stream.data;
    ghost var done: Bytes := [];
    UnpackedEnds(f, items);
    SetOut(stream, all);
    for i := 0 to |items|
      invariant Underway(stream, written, before, all, done, UnpackedFrom(f, items, i))
      invariant forall k :: 0 <= k < i ==> EncodableValue(f.ltype, items[k])
    {
      RecordsSplit(f, items, i);
      ghost var one, later := Record(f, items[i]), UnpackedFrom(f, items, i + 1);
      NextPart(stream, written, before, all, done, one, later);
      ghost var middle, there := stream.bytesWritten, stream.data;
      var fits := WriteRecord(stream, f, items[i]);
      if !fits {
        return false;
      }
      PartWritten(stream, written, before, all, done, one, later, middle, there);
      done := done + one;
    }
    Arrived(stream, written, before, all, done);
    return true;
  }

  lemma {:induction false} RoomForNothing(stream: OutputStream, written: nat)
    ensures stream.HasRoom(written, 0)
  {
  }

  /** encode_basic_field. */
  method WriteField(stream: OutputStream, f: Field, s: Slot) returns (ok: bool)
    requires SmallTagsIn(f) && TypedSlot(f, s) && Countable(|EncodeField(f, s)|)
    modifies stream
    ensures ok <==> EncodableSlot(f, s) && stream.HasRoom(old(stream.bytesWritten), |EncodeField(f, s)|)
    ensures ok ==> stream.Wrote(old(stream.bytesWritten), old(stream.data), EncodeField(f, s))
    decreases f, 2, 0
  {
    hide Record, TypedValue, EncodableValue, EncodableSlot, EncodeField, ZeroValue, OutputStream.HasRoom, SmallTagsIn;
    RoomForNothing(stream, stream.bytesWritten);
    if Encoded(f, s) == [] {
      NothingEncoded(f, s);
    } else if !f.htype.Repeated? {
      OneEncoded(f, s);
    }
    match f.htype {
      case Required => ok := WriteRecord(stream, f, s.value);
      case Singular =>
        if !ZeroValue(f.ltype, s.value) {
          ok := WriteRecord(stream, f, s.value);
        } else {
          return true;
        }
      case Optional =>
        if s.has {
          ok := WriteRecord(stream, f, s.value);
        } else {
          return true;
        }
      case OneOf(_) =>
        if s.chosen.Some? {
          ok := WriteRecord(stream, f, s.chosen.value);
        } else {
          return true;
        }
      case Repeated(arraySize) =>
        if |s.items| == 0 {
          return true;
        }
        if |s.items| > arraySize {
          TooMany(f, s);
          return false;
        }
        ok := WriteArray(stream, f, s.items);
    }
  }

  lemma {:induction false} TooMany(f: Field, s: Slot)
    requires f.htype.Repeated? && |Encoded(f, s)| > f.htype.arraySize
    ensures !EncodableSlot(f, s)
  {
  }

  lemma {:induction false} NothingEncoded(f: Field, s: Slot)
    requires TypedSlot(f, s) && Encoded(f, s) == []
    ensures EncodeField(f, s) == [] && EncodableSlot(f, s)
  {
    hide Record, TypedValue, EncodableValue, ZeroValue, EncodeItems, FieldTag, Prefixed;
  }

  lemma {:induction false} OneEncoded(f: Field, s: Slot)
    requires TypedSlot(f, s) && !f.htype.Repeated? && Encoded(f, s) != []
    ensures TypedValue(f.ltype, Encoded(f, s)[0]) && EncodeField(f, s) == Record(f, Encoded(f, s)[0])
    ensures EncodableSlot(f, s) <==> EncodableValue(f.ltype, Encoded(f, s)[0])
  {
    hide Record, TypedValue, EncodableValue, ZeroValue, EncodeItems, FieldTag, Prefixed;
    OneRecord(Record(f, Encoded(f, s)[0]));
  }

  lemma {:induction false} OneRecord(b: Bytes)
    ensures Concat([b]) == b
  {
    assert [b][1..] == [];
  }

  method WriteArray(stream: OutputStream, f: Field, items: seq<Value>) returns (ok: bool)
    requires SmallTagsIn(f) && f.htype.Repeated? && TypedSlot(f, Items(items)) && items != []
    requires Countable(|EncodeField(f, Items(items))|) && |items| <= f.htype.arraySize
    modifies stream
    ensures ok <==> EncodableSlot(f, Items(items)) && stream.HasRoom(old(stream.bytesWritten), |EncodeField(f, Items(items))|)
    ensures ok ==> stream.Wrote(old(stream.bytesWritten), old(stream.data), EncodeField(f, Items(items)))
    decreases f, 1, 1
  {
    hide Record, TypedValue, EncodableValue, EncodeItems, OutputStream.HasRoom, FieldTag, ItemRecords;
    if Packable(f.ltype) {
      ghost var one := FieldTag(f, 2) + Prefixed(EncodeItems(f.ltype, items));
      OneRecord(one);
      assert EncodeField(f, Items(items)) == one;
      forall k | 0 <= k < |items|
        ensures EncodableValue(f.ltype, items[k])
      {
        PackableIsEncodable(f.ltype, items[k]);
      }
      ok := WritePacked(stream, f, items);
    } else {
      assert EncodeField(f, Items(items)) == Concat(ItemRecords(f, items));
      ok := WriteUnpacked(stream, f, items);
    }
  }

  /** pb_encode. */
  method WriteMsg(stream: OutputStream, d: Descriptor, slots: seq<Slot>) returns (ok: bool)
    requires SmallTags(d) && TypedMsg(d, slots) && Countable(|EncodeMsg(d, slots)|)
    modifies stream
    ensures ok <==> Encodable(d, slots) && stream.HasRoom(old(stream.bytesWritten), |EncodeMsg(d, slots)|)
    ensures ok ==> stream.Wrote(old(stream.bytesWritten), old(stream.data), EncodeMsg(d, slots))
    decreases d, 0, 0
  {
    hide EncodeField, EncodeFrom, TypedMsg, TypedSlot, EncodableSlot, Underway, OutputStream.HasRoom, OutputStream.Wrote, SmallTagsIn;
    AsManySlots(d, slots);
    LastField(d, slots);
    WroteNothing(stream);
    var iter := new FieldIterator(d);
    if d.fields == [] {
      return true;
    }
    ghost var all := EncodeFrom(d, slots, 0);
    ghost var written, before := stream.bytesWritten, stream.data;
    ghost var done: Bytes := [];
    ghost var n: nat := 0;
    var more := true;
    SetOut(stream, all);
    while more
      invariant iter.Ok() && n <= |slots| && if more then n == iter.pos < |slots| else n == |slots|
      invariant Underway(stream, written, before, all, done, EncodeFrom(d, slots, n))
      invariant forall k :: 0 <= k < n ==> EncodableSlot(d.fields[k], slots[k])
      decreases |slots| - n
    {
      var i := iter.pos;
      FieldsSplit(d, slots, i);
      ghost var one, later := EncodeField(d.fields[i], slots[i]), EncodeFrom(d, slots, i + 1);
      NextPart(stream, written, before, all, done, one, later);
      ghost var middle, there := stream.bytesWritten, stream.data;
      assert SmallTagsIn(d.fields[i]);
      var fits := WriteField(stream, d.fields[i], slots[i]);
      if !fits {
        return false;
      }
      PartWritten(stream, written, before, all, done, one, later, middle, there);
      done := done + one;
      more := iter.Next();
      n := n + 1;
    }
    Arrived(stream, written, before, all, done);
    return true;
  }

  lemma {:induction false} FieldsSplit(d: Descriptor, slots: seq<Slot>, i: nat)
    requires TypedMsg(d, slots) && i < |slots|
    ensures i < |d.fields| && TypedSlot(d.fields[i], slots[i])
    ensures EncodeFrom(d, slots, i) == EncodeField(d.fields[i], slots[i]) + EncodeFrom(d, slots, i + 1)
  {
    hide EncodeField, TypedSlot;
  }

  lemma {:induction false} LastField(d: Descriptor, slots: seq<Slot>)
    requires TypedMsg(d, slots)
    ensures EncodeFrom(d, slots, |slots|) == []
  {
  }

  /**
   pb_encode_submessage: a first pass counts, a second one writes.  Both produce as many
   bytes, so the size never turns out to have changed.
   */
  method WriteSubmessage(stream: OutputStream, d: Descriptor, slots: seq<Slot>) returns (ok: bool)
    requires SmallTags(d) && TypedMsg(d, slots) && Countable(|Prefixed(EncodeMsg(d, slots))|)
    modifies stream
    ensures ok <==> Encodable(d, slots) && stream.HasRoom(old(stream.bytesWritten), |Prefixed(EncodeMsg(d, slots))|)
    ensures ok ==> stream.Wrote(old(stream.bytesWritten), old(stream.data), Prefixed(EncodeMsg(d, slots)))
    decreases d, 1, 0
  {
    hide EncodeMsg, TypedMsg, Encodable, SmallTags, Varint;
    ghost var written, before := stream.bytesWritten, stream.data;
    ghost var contents := EncodeMsg(d, slots);
    ghost var length := Varint(|contents|);
    RoomInParts(stream, written, |length|, |contents|);
    assert before + (length + contents) == (before + length) + contents;
    var counter := new OutputStream(true, 0, []);
    ok := WriteMsg(counter, d, slots);
    if !ok {
      return;
    }
    var size := counter.bytesWritten;
    ok := EncodeVarint(stream, size);
    if !ok {
      return;
    }
    if stream.sizing {
      stream.Advance(size);
      return true;
    }
    if stream.bytesWritten + size > stream.maxSize {
      return false;
    }
    var substream := new OutputStream(false, size, stream.data);
    var status := WriteMsg(substream, d, slots);
    stream.bytesWritten := stream.bytesWritten + substream.bytesWritten;
    stream.data := substream.data;
    assert status && substream.bytesWritten == size;
    return status;
  }

  /** pb_get_encoded_size: as many bytes as pb_encode writes. */
  method GetEncodedSize(d: Descriptor, slots: seq<Slot>) returns (size: Option<nat>)
    requires SmallTags(d) && TypedMsg(d, slots) && Countable(|EncodeMsg(d, slots)|)
    ensures |slots| == |d.fields|
    ensures size == if Encodable(d, slots) then Some(|EncodeMsg(d, slots)|) else None
  {
    hide EncodeMsg, TypedMsg, Encodable, SmallTags;
    AsManySlots(d, slots);
    var stream := new OutputStream(true, 0, []);
    var ok := WriteMsg(stream, d, slots);
    size := if ok then Some(stream.bytesWritten) else None;
  }
}
