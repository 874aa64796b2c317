/**
 What the encoder puts on the wire (nanopb/pb_encode.c), told by splitting the bytes into
 records as any reader of the format would: by their tags and wire types alone.
 */
module NanopbWire {
  import opened Wrappers
  import opened DbFormat
  import opened Coding
  import opened NanopbFormat
  import opened NanopbParse
  import opened NanopbRoundTrip

  datatype WireRecord = WireRecord(tag: nat, wire: nat, payload: Bytes)
  {
    function Image(): Bytes {
      Varint(tag * 8 + wire) + payload
    }

    // A reader finds the end of the record, whatever follows it.
    ghost predicate Valid() {
      && wire < 8 && tag * 8 + wire < 0x1_0000_0000
      && forall rest: Bytes :: SkipField(wire, payload + rest) == Some(|payload|)
    }
  }

  /** The records of a byte string; no descriptor is needed to tell them apart. */
  function Records(b: Bytes): Option<seq<WireRecord>>
    decreases |b|
  {
    if b == [] then Some([])
    else
      match ParseVarint32(b)
      case None => None
      case Some((t, n)) =>
        match SkipField(t % 8, b[n..])
        case None => None
        case Some(m) =>
          match Records(b[n + m..])
          case None => None
          case Some(rest) => Some([WireRecord(t / 8, t % 8, b[n..n + m])] + rest)
  }

  function Images(records: seq<WireRecord>): (r: seq<Bytes>)
    ensures |r| == |records|
  {
    if records == [] then [] else [records[0].Image()] + Images(records[1..])
  }

  function Joined(parts: seq<seq<WireRecord>>): seq<WireRecord> {
    if parts == [] then [] else parts[0] + Joined(parts[1..])
  }

  lemma {:induction false} FirstRecord(r: WireRecord, rest: Bytes)
    requires r.Valid()
    ensures Records(r.Image() + rest)
         == match Records(rest) case None => None case Some(more) => Some([r] + more)
  {
    hide Varint, ParseVarint32, SkipField;
    var head := Varint(r.tag * 8 + r.wire);
    Varint32RoundTrip(r.tag * 8 + r.wire, r.payload + rest);
    var b := r.Image() + rest;
    assert b == head + (r.payload + rest);
    var n := |head|;
    assert b[n..] == r.payload + rest;
    assert b[n..n + |r.payload|] == r.payload;
    assert b[n + |r.payload|..] == rest;
  }

  lemma {:induction false} SplitImages(records: seq<WireRecord>)
    requires forall r :: r in records ==> r.Valid()
    ensures Records(Concat(Images(records))) == Some(records)
  {
    hide WireRecord.Valid, WireRecord.Image, ParseVarint32, SkipField;
    if records != [] {
      FirstRecord(records[0], Concat(Images(records[1..])));
      SplitImages(records[1..]);
      assert Images(records)[1..] == Images(records[1..]);
      assert [records[0]] + records[1..] == records;
    } else {
      assert Concat(Images(records)) == [];
    }
  }

  lemma {:induction false} ImagesInParts(a: seq<WireRecord>, b: seq<WireRecord>)
    ensures Images(a + b) == Images(a) + Images(b)
  {
    if a == [] {
      assert a + b == b;
    } else {
      assert (a + b)[1..] == a[1..] + b;
      ImagesInParts(a[1..], b);
    }
  }

  // ----- which records a field has -----

  /**
   How many: a required field one, a singular one none exactly if its value is zero, an
   optional one and a member of a union none exactly if it is not there; an array none if
   it is empty, one if its items can be packed, else one for every item.
   */
  function HowMany(f: Field, s: Slot): nat {
    match s
    case Plain(v) => if f.htype.Singular? && ZeroValue(f.ltype, v) then 0 else 1
    case Flagged(has, _) => if has then 1 else 0
    case Items(items) => if items != [] && Packable(f.ltype) then 1 else |items|
    case Member(chosen) => if chosen.Some? then 1 else 0
  }

  // The k-th value that the slot holds.
  function ValueAt(s: Slot, k: nat): Option<Value> {
    match s
    case Plain(v) => Some(v)
    case Flagged(_, v) => Some(v)
    case Items(items) => if k < |items| then Some(items[k]) else None
    case Member(chosen) => chosen
  }

  // The records of one field: its tag, the wire type of its type or that of a string if
  // they are packed, and the values in their order.
  ghost predicate IsOnWire(f: Field, s: Slot, records: seq<WireRecord>)
    requires TypedSlot(f, s)
  {
    && |records| == HowMany(f, s)
    && forall k :: 0 <= k < |records| ==>
         && records[k].tag == f.tag
         && if s.Items? && Packable(f.ltype) then
              records[k].wire == 2 && SubString(records[k].payload) == Some((EncodeItems(f.ltype, s.items), |records[k].payload|))
            else
              && records[k].wire == WireType(f.ltype)
              && ValueAt(s, k).Some? && TypedValue(f.ltype, ValueAt(s, k).value)
              && records[k].payload == EncodeValue(f.ltype, ValueAt(s, k).value)
  }

  // ----- the records of the encoder -----

  lemma {:induction false} VarintIsBody(v: nat)
    ensures VarintBody(Varint(v)).Valid()
  {
    if v >= 128 {
      VarintStep(v);
      VarintIsBody(v / 128);
      var b, c := Varint(v), Varint(v / 128);
      assert b[1..] == c;
      assert b[|b| - 1] == c[|c| - 1];
      forall i | 0 <= i < |b| - 1
        ensures b[i] >= 128
      {
        assert i > 0 ==> b[i] == c[i - 1];
      }
    }
  }

  // The encoding of a value, as the body of a field that is skipped.
  lemma {:induction false} ValueIsBody(t: LType, v: Value) returns (body: Body)
    requires TypedValue(t, v) && SizedValue(t, v)
    ensures body.Valid() && body.Wire() == WireType(t) && body.Image() == EncodeValue(t, v)
  {
    hide Varint, EncodeMsg;
    match t
    case Fixed32 => body := Narrow(EncodeValue(t, v));
    case Fixed64 => body := Wide(EncodeValue(t, v));
    case BytesOf(_) => body := Text(v.bytes);
    case StringOf(_) => body := Text(v.bytes);
    case FixedBytesOf(_) => body := Text(v.bytes);
    case Submessage(d) => body := Text(EncodeMsg(d, v.slots));
    case Bool => VarintIsBody(v.n); body := VarintBody(Varint(v.n));
    case VarintOf(_) => VarintIsBody(Unsigned(v.n)); body := VarintBody(Varint(Unsigned(v.n)));
    case UVarintOf(_) => VarintIsBody(v.n); body := VarintBody(Varint(v.n));
    case SVarintOf(_) => VarintIsBody(ZigZag(v.n)); body := VarintBody(Varint(ZigZag(v.n)));
  }

  lemma {:induction false} BodyIsValid(f: Field, body: Body)
    requires WellFormedField(f) && body.Valid()
    ensures WireRecord(f.tag, body.Wire(), body.Image()).Valid()
  {
    hide SkipField, Body.Image, Body.Valid, TypedValue, ZeroValue;
    forall rest: Bytes
      ensures SkipField(body.Wire(), body.Image() + rest) == Some(|body.Image()|)
    {
      SkipOver(body, rest);
    }
  }

  // The record of one value.
  lemma {:induction false} ValueOnWire(f: Field, v: Value)
    requires WellFormedField(f) && TypedValue(f.ltype, v) && SizedValue(f.ltype, v)
    ensures var r := WireRecord(f.tag, WireType(f.ltype), EncodeValue(f.ltype, v)); r.Valid() && r.Image() == Record(f, v)
  {
    hide WireRecord.Valid, WellFormedField, EncodeValue, SizedValue, Varint, Body.Valid;
    var body := ValueIsBody(f.ltype, v);
    BodyIsValid(f, body);
  }

  lemma {:induction false} PackedOnWire(f: Field, items: Bytes)
    requires WellFormedField(f) && |items| < 0x1_0000_0000
    ensures var r := WireRecord(f.tag, 2, Prefixed(items)); r.Valid() && r.Image() == FieldTag(f, 2) + Prefixed(items)
    ensures SubString(Prefixed(items)) == Some((items, |Prefixed(items)|))
  {
    hide WireRecord.Valid, WellFormedField, Varint;
    BodyIsValid(f, Text(items));
    SubStringRoundTrip(items, []);
    assert Prefixed(items) + [] == Prefixed(items);
  }

  lemma {:induction false} ItemsOnWire(f: Field, items: seq<Value>) returns (records: seq<WireRecord>)
    requires WellFormedField(f) && forall k :: 0 <= k < |items| ==> TypedValue(f.ltype, items[k]) && SizedValue(f.ltype, items[k])
    ensures |records| == |items|
    ensures forall k :: 0 <= k < |items| ==>
              records[k] == WireRecord(f.tag, WireType(f.ltype), EncodeValue(f.ltype, items[k])) && records[k].Valid()
    ensures Images(records) == ItemRecords(f, items)
  {
    hide WireRecord.Valid, WellFormedField, EncodeValue, SizedValue, WireRecord.Image, Record;
    records := [];
    if items != [] {
      var rest := ItemsOnWire(f, items[1..]);
      ValueOnWire(f, items[0]);
      records := [WireRecord(f.tag, WireType(f.ltype), EncodeValue(f.ltype, items[0]))] + rest;
      assert records[1..] == rest;
    }
  }

  lemma {:induction false} FieldOnWire(f: Field, s: Slot) returns (records: seq<WireRecord>)
    requires WellFormedField(f) && TypedSlot(f, s) && SizedSlot(f, s)
    ensures IsOnWire(f, s, records) && Images(records) == FieldRecords(f, s)
    ensures forall r :: r in records ==> r.Valid()
  {
    hide WireRecord.Valid, WellFormedField, EncodeValue, EncodeItems, SizedValue, WireRecord.Image, Record, ZeroValue, TypedValue, Varint, SubString;
    records := [];
    EncodedIsTyped(f, s);
    if s.Items? && Packable(f.ltype) {
      if s.items != [] {
        var all := EncodeItems(f.ltype, s.items);
        PackedOnWire(f, all);
        records := [WireRecord(f.tag, 2, Prefixed(all))];
      }
    } else if s.Items? {
      assert Encoded(f, s) == s.items;
      records := ItemsOnWire(f, s.items);
    } else if Encoded(f, s) != [] {
      var v := Encoded(f, s)[0];
      ValueOnWire(f, v);
      records := [WireRecord(f.tag, WireType(f.ltype), EncodeValue(f.ltype, v))];
    }
  }

  lemma {:induction false} FieldsOnWire(d: Descriptor, slots: seq<Slot>, i: nat) returns (parts: seq<seq<WireRecord>>)
    requires GoodMsg(d, slots) && i <= |slots|
    ensures |parts| == |slots| - i && |slots| == |d.fields| && TypedMsg(d, slots)
    ensures forall k :: 0 <= k < |parts| ==> TypedSlot(d.fields[i + k], slots[i + k]) && IsOnWire(d.fields[i + k], slots[i + k], parts[k])
    ensures Images(Joined(parts)) == RecordsFrom(d, slots, i)
    ensures forall r :: r in Joined(parts) ==> r.Valid()
    decreases |slots| - i
  {
    hide WireRecord.Valid, GoodMsg, TypedMsg, WellFormedField, TypedSlot, SizedSlot, EncodableSlot, IsOnWire, FieldRecords, Images;
    GoodIsTyped(d, slots);
    parts := [];
    if i < |slots| {
      GoodField(d, slots, i);
      var part := FieldOnWire(d.fields[i], slots[i]);
      var rest := FieldsOnWire(d, slots, i + 1);
      parts := [part] + rest;
      assert parts[1..] == rest;
      ImagesInParts(part, Joined(rest));
      forall k | 0 <= k < |parts|
        ensures TypedSlot(d.fields[i + k], slots[i + k]) && IsOnWire(d.fields[i + k], slots[i + k], parts[k])
      {
        assert k > 0 ==> parts[k] == rest[k - 1] && d.fields[i + k] == d.fields[i + 1 + (k - 1)];
      }
    } else {
      assert Images([]) == [] by { NoImages(); }
    }
  }

  lemma {:induction false} NoImages()
    ensures Images([]) == []
  {
  }

  // The records of a message: those of its fields, in the order of the descriptor.
  ghost predicate MessageOnWire(d: Descriptor, slots: seq<Slot>, records: seq<WireRecord>) {
    exists parts: seq<seq<WireRecord>> ::
      && |parts| == |d.fields| == |slots| && Joined(parts) == records
      && forall i :: 0 <= i < |parts| ==> TypedSlot(d.fields[i], slots[i]) && IsOnWire(d.fields[i], slots[i], parts[i])
  }

  /**
   The encoding of a message splits into records without the descriptor, and these are
   exactly the records that its fields call for.
   */
  lemma {:induction false} EncodingOnWire(d: Descriptor, slots: seq<Slot>)
    requires GoodMsg(d, slots)
    ensures TypedMsg(d, slots) && Records(EncodeMsg(d, slots)).Some?
    ensures MessageOnWire(d, slots, Records(EncodeMsg(d, slots)).value)
  {
    hide GoodMsg, TypedMsg, TypedSlot, IsOnWire, WireRecord.Valid, Images, Records, Joined;
    GoodIsTyped(d, slots);
    var parts := FieldsOnWire(d, slots, 0);
    RecordsMakeTheEncoding(d, slots, 0);
    SplitImages(Joined(parts));
    assert EncodeMsg(d, slots) == Concat(Images(Joined(parts)));
  }
}
