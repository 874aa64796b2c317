/**
 Decoding what the nanopb encoder wrote gives the message back, also when there are
 fields in between that the descriptor does not know.
 */
module NanopbRoundTrip {
  import opened Wrappers
  import opened DbFormat
  import opened Coding
  import opened NanopbFormat
  import opened NanopbParse

  // ----- numbers -----

  lemma {:induction false} TailRoundTrip(v: nat, j: nat, result: Word, rest: Bytes)
    requires 1 <= j <= 4 && result < Power128(j) && v > 0 && result + v * Power128(j) < 0x1_0000_0000
    ensures Varint32Tail(Varint(v) + rest, j, result) == Some((result + v * Power128(j), |Varint(v)|))
    decreases v
  {
    var p := Power128(j);
    var b := Varint(v) + rest;
    Split(v, j, result);
    if v < 128 {
      assert b[0] == v as byte;
    } else {
      VarintStep(v);
      var low, high := v % 128, v / 128;
      TailRoundTrip(high, j + 1, result + low * p, rest);
      assert b[0] == More(v) && b[1..] == Varint(high) + rest;
      MoreBits(v);
      hide Power128, Varint, More;
      assert (result + low * p) % 0x1_0000_0000 == result + low * p;
    }
  }

  lemma {:induction false} MoreBits(v: nat)
    ensures More(v) >= 128 && More(v) as int % 128 == v % 128
  {
  }

  lemma {:induction false} Powers()
    ensures Power128(1) == 128 && Power128(2) == 0x4000 && Power128(3) == 0x20_0000 && Power128(4) == 0x1000_0000
  {
    assert Power128(0) == 1;
    assert Power128(1) == 128 * Power128(0);
    assert Power128(2) == 128 * Power128(1);
    assert Power128(3) == 128 * Power128(2);
    assert Power128(4) == 128 * Power128(3);
  }

  lemma {:induction false} Split(v: nat, j: nat, result: nat)
    requires 1 <= j <= 4 && result < Power128(j) && result + v * Power128(j) < 0x1_0000_0000
    ensures j == 4 ==> v < 16
    ensures v < 128 ==> v * Power128(j) == v % 128 * Power128(j)
    ensures v >= 128 ==>
              && j < 4 && v / 128 > 0 && Power128(j + 1) == 128 * Power128(j)
              && 0 <= result + v % 128 * Power128(j) < Power128(j + 1)
              && (result + v % 128 * Power128(j)) + v / 128 * Power128(j + 1) == result + v * Power128(j)
              && result + v % 128 * Power128(j) < 0x1_0000_0000
  {
    Powers();
    if j == 1 {
      assert Power128(j) == 128;
    } else if j == 2 {
      assert Power128(j) == 0x4000;
    } else if j == 3 {
      assert Power128(j) == 0x20_0000;
    } else {
      assert Power128(j) == 0x1000_0000;
    }
  }

  /** A 32-bit number is read back, whatever follows it. */
  lemma {:induction false} Varint32RoundTrip(w: Word, rest: Bytes)
    ensures ParseVarint32(Varint(w) + rest) == Some((w, |Varint(w)|))
  {
    var b := Varint(w) + rest;
    if w >= 128 {
      Powers();
      VarintStep(w);
      assert b[1..] == Varint(w / 128) + rest;
      TailRoundTrip(w / 128, 1, w % 128, rest);
    }
  }

  lemma {:induction false} SubStringRoundTrip(b: Bytes, rest: Bytes)
    requires |b| < 0x1_0000_0000
    ensures SubString(Prefixed(b) + rest) == Some((b, |Prefixed(b)|))
  {
    hide Varint, ParseVarint32;
    var head := Varint(|b|);
    Varint32RoundTrip(|b|, b + rest);
    assert Prefixed(b) + rest == head + (b + rest);
    assert (Prefixed(b) + rest)[|head|..|head| + |b|] == b;
  }

  lemma {:induction false} Fixed64RoundTrip(n: Long, rest: Bytes)
    ensures DecodeFixed64(EncodeFixed64(n) + rest) == n
  {
    hide DecodeFixed32, EncodeFixed32;
    var low, high := EncodeFixed32(n % 0x1_0000_0000), EncodeFixed32(n / 0x1_0000_0000);
    FixedRoundTrip(n % 0x1_0000_0000, high + rest);
    FixedRoundTrip(n / 0x1_0000_0000, rest);
    assert EncodeFixed64(n) + rest == low + (high + rest);
    assert (low + (high + rest))[4..] == high + rest;
  }

  lemma {:induction false} CutAndBack(n: int, w: Width)
    requires -Power(w) <= 2 * n < Power(w)
    ensures Signed(Unsigned(n), 64) == n && Signed(n, w) == n
    ensures w != 64 ==> Signed(Unsigned(n), 32) == n
    ensures 0 <= Unsigned(n) < 0x1_0000_0000_0000_0000
  {
    WrapOnce(n, Power(w));
    WrapOnce(n, Power(64));
    if w != 64 {
      WrapOnce(n, Power(32));
      WrapMany(n, 0x1_0000_0000);
    }
  }

  lemma {:induction false} WrapOnce(n: int, p: int)
    requires p > 0 && -p <= n < p
    ensures n >= 0 ==> n % p == n
    ensures n < 0 ==> n % p == n + p
    ensures (n + p) % p == n % p
  {
  }

  lemma {:induction false} WrapMany(n: int, p: int)
    requires p == 0x1_0000_0000
    ensures (n + 0x1_0000_0000_0000_0000) % p == n % p
  {
  }

  lemma {:induction false} ZigZagRoundTrip(n: int, w: Width)
    requires -Power(w) <= 2 * n < Power(w)
    ensures 0 <= ZigZag(n) < 0x1_0000_0000_0000_0000 && UnZigZag(ZigZag(n)) == n
  {
  }

  lemma {:induction false} NumberRoundTrip(t: LType, v: Value, rest: Bytes)
    requires (t.VarintOf? || t.UVarintOf? || t.SVarintOf?) && TypedValue(t, v)
    ensures ParseNumber(t, EncodeValue(t, v) + rest) == Some((v, |EncodeValue(t, v)|))
  {
    hide Varint, ParseLong, Signed, Unsigned, ZigZag, UnZigZag;
    if t.VarintOf? {
      CutAndBack(v.n, t.width);
      LongRoundTrip(Unsigned(v.n), rest);
    } else if t.UVarintOf? {
      LongRoundTrip(v.n, rest);
    } else {
      CutAndBack(v.n, t.width);
      ZigZagRoundTrip(v.n, t.width);
      LongRoundTrip(ZigZag(v.n), rest);
    }
  }

  lemma {:induction false} DataRoundTrip(t: LType, v: Value, rest: Bytes)
    requires (t.BytesOf? || t.StringOf? || t.FixedBytesOf?) && TypedValue(t, v) && EncodableValue(t, v) && SizedValue(t, v)
    ensures ParseData(t, EncodeValue(t, v) + rest) == if RoomyValue(t, v) then Some((v, |EncodeValue(t, v)|)) else None
  {
    hide Varint, ParseVarint32;
    var b := v.bytes;
    var head := Varint(|b|);
    Varint32RoundTrip(|b|, b + rest);
    assert Prefixed(b) + rest == head + (b + rest);
    assert (Prefixed(b) + rest)[|head|..|head| + |b|] == b;
    assert t.FixedBytesOf? && |b| == 0 ==> b == Zeros(0);
  }

  /**
   The encoder takes a string that fills its field; the decoder takes it back exactly when
   there is room for a terminator.
   */
  lemma {:induction false} StringNeedsTerminator(size: nat, b: Bytes, rest: Bytes, base: Value)
    requires TypedValue(StringOf(size), Data(b)) && |b| < 0xFFFF_FFFF
    ensures EncodableValue(StringOf(size), Data(b))
    ensures var r := ParseValue(StringOf(size), EncodeValue(StringOf(size), Data(b)) + rest, base);
      if |b| < size then r == Some((Data(b), |Prefixed(b)|)) else r == None
  {
    hide Varint, ParseVarint32;
    var head := Varint(|b|);
    Varint32RoundTrip(|b|, b + rest);
    assert Prefixed(b) + rest == head + (b + rest);
    assert (Prefixed(b) + rest)[|head|..|head| + |b|] == b;
  }

  // ----- default values -----

  lemma {:induction false} ZeroIsDefault(f: Field, v: Value)
    requires WellFormedField(f) && f.htype.Singular? && TypedValue(f.ltype, v) && ZeroValue(f.ltype, v)
    ensures NormalValue(f.ltype, v) == DefaultValue(f)
    decreases f, 0
  {
    if f.ltype.Submessage? {
      ZeroMsgIsDefault(f.ltype.d, v.slots);
    }
  }

  lemma {:induction false} ZeroMsgIsDefault(d: Descriptor, slots: seq<Slot>)
    requires WellFormed(d) && TypedMsg(d, slots) && forall i :: 0 <= i < |slots| ==> ZeroSlot(d.fields[i], slots[i])
    ensures NormalMsg(d, slots) == DefaultMsg(d)
    decreases d, 1
  {
    forall i | 0 <= i < |slots|
      ensures NormalSlot(d.fields[i], slots[i]) == DefaultSlot(d.fields[i])
    {
      NothingToWrite(d.fields[i], slots[i]);
    }
  }

  // A slot without records stands for the default.
  lemma {:induction false} NothingToWrite(f: Field, s: Slot)
    requires WellFormedField(f) && TypedSlot(f, s) && (FieldRecords(f, s) == [] || ZeroSlot(f, s))
    ensures NormalSlot(f, s) == DefaultSlot(f)
    decreases f, 1
  {
    if s.Plain? {
      ZeroIsDefault(f, s.value);
    } else if s.Items? {
      assert s.items == [];
    }
  }

  // ----- fields that the descriptor does not know -----

  datatype Body = VarintBody(bytes: Bytes) | Wide(bytes: Bytes) | Text(bytes: Bytes) | Narrow(bytes: Bytes)
  {
    predicate Valid() {
      match this
      case VarintBody(b) => b != [] && b[|b| - 1] < 128 && forall i :: 0 <= i < |b| - 1 ==> b[i] >= 128
      case Wide(b) => |b| == 8
      case Text(b) => |b| < 0x1_0000_0000
      case Narrow(b) => |b| == 4
    }

    function Wire(): nat {
      match this
      case VarintBody(_) => 0
      case Wide(_) => 1
      case Text(_) => 2
      case Narrow(_) => 5
    }

    function Image(): Bytes {
      if Text? then Prefixed(bytes) else bytes
    }
  }

  // A record of the message, or a field from elsewhere.
  datatype Piece = Own(bytes: Bytes) | Foreign(tag: nat, body: Body)

  ghost predicate Unknown(d: Descriptor, p: Piece) {
    p.Foreign? ==> 0 < p.tag < TAG_LIMIT && p.body.Valid() && IndexOf(d, p.tag, 0) == |d.fields|
  }

  function PieceBytes(p: Piece): Bytes {
    match p
    case Own(b) => b
    case Foreign(tag, body) => Varint(tag * 8 + body.Wire()) + body.Image()
  }

  function AllBytes(pieces: seq<Piece>): Bytes {
    if pieces == [] then [] else PieceBytes(pieces[0]) + AllBytes(pieces[1..])
  }

  // The records among the pieces.
  function Owns(pieces: seq<Piece>): seq<Bytes> {
    if pieces == [] then [] else (if pieces[0].Own? then [pieces[0].bytes] else []) + Owns(pieces[1..])
  }

  lemma {:induction false} SkipOverVarint(b: Bytes, rest: Bytes)
    requires VarintBody(b).Valid()
    ensures SkipVarint(b + rest) == Some(|b|)
    decreases |b|
  {
    if |b| > 1 {
      assert b[0] >= 128;
      assert (b + rest)[1..] == b[1..] + rest;
      SkipOverVarint(b[1..], rest);
    }
  }

  lemma {:induction false} SkipOver(body: Body, rest: Bytes)
    requires body.Valid()
    ensures SkipField(body.Wire(), body.Image() + rest) == Some(|body.Image()|)
  {
    hide Varint, ParseVarint32, SkipVarint;
    match body
    case VarintBody(b) => SkipOverVarint(b, rest);
    case Text(b) =>
      Varint32RoundTrip(|b|, b + rest);
      assert Prefixed(b) + rest == Varint(|b|) + (b + rest);
    case _ =>
  }

  // ----- records -----

  // What the slot holds once `k` of its records are read.
  function Partial(f: Field, s: Slot, k: nat): Slot
    requires TypedSlot(f, s)
  {
    if k >= |FieldRecords(f, s)| then NormalSlot(f, s)
    else if s.Items? && k <= |s.items| then Items(NormalItems(f.ltype, s.items[..k]))
    else DefaultSlot(f)
  }

  function RecordWire(f: Field, s: Slot): nat {
    if s.Items? && Packable(f.ltype) then 2 else WireType(f.ltype)
  }

  function Payload(f: Field, s: Slot, k: nat): Bytes
    requires TypedSlot(f, s) && k < |FieldRecords(f, s)|
  {
    if s.Items? then
      if Packable(f.ltype) then Prefixed(EncodeItems(f.ltype, s.items))
      else if k < |s.items| then EncodeValue(f.ltype, s.items[k]) else []
    else
      EncodedIsTyped(f, s);
      if k < |Encoded(f, s)| then EncodeValue(f.ltype, Encoded(f, s)[k]) else []
  }

  lemma {:induction false} RecordIsTagAndPayload(f: Field, s: Slot, k: nat)
    requires TypedSlot(f, s) && k < |FieldRecords(f, s)|
    ensures FieldRecords(f, s)[k] == FieldTag(f, RecordWire(f, s)) + Payload(f, s, k)
  {
    hide Varint, EncodeValue, EncodeItems;
  }

  ghost predicate GoodType(t: LType) {
    t.Submessage? ==> WellFormed(t.d)
  }

  /** A value is read back, over the default, just when its strings have room. */
  lemma {:induction false} ValueRoundTrip(t: LType, v: Value, rest: Bytes, base: Value)
    requires GoodType(t) && TypedValue(t, v) && EncodableValue(t, v) && SizedValue(t, v)
    requires t.Submessage? ==> SlotsOf(t.d, base) == DefaultMsg(t.d)
    ensures ParseValue(t, EncodeValue(t, v) + rest, base)
         == if RoomyValue(t, v) then Some((NormalValue(t, v), |EncodeValue(t, v)|)) else None
    decreases t, 0, 0, 0
  {
    hide Varint, ParseVarint32, DecodeFixed32, EncodeFixed32, DecodeFixed64, EncodeFixed64, Sized, Roomy, EncodeMsg, ParseMsg, DefaultMsg,
      TypedMsg;
    match t
    case Bool => Varint32RoundTrip(v.n, rest);
    case Fixed32 => FixedRoundTrip(v.n, rest);
    case Fixed64 => Fixed64RoundTrip(v.n, rest);
    case Submessage(d) =>
      SubStringRoundTrip(EncodeMsg(d, v.slots), rest);
      RoundTrip(d, v.slots);
    case BytesOf(_) => DataRoundTrip(t, v, rest);
    case StringOf(_) => DataRoundTrip(t, v, rest);
    case FixedBytesOf(_) => DataRoundTrip(t, v, rest);
    case _ => NumberRoundTrip(t, v, rest);
  }

  lemma {:induction false} PackedValue(t: LType, v: Value, rest: Bytes)
    requires Packable(t) && TypedValue(t, v)
    ensures ParseValue(t, EncodeValue(t, v) + rest, Num(0)) == Some((v, |EncodeValue(t, v)|)) && |EncodeValue(t, v)| > 0
    decreases t, 1, 0, 0
  {
    hide EncodeValue, ParseValue;
    ValueRoundTrip(t, v, rest, Num(0));
  }

  lemma {:induction false} ItemsRoundTrip(t: LType, items: seq<Value>, done: seq<Value>, max: nat)
    requires Packable(t) && (forall k :: 0 <= k < |items| ==> TypedValue(t, items[k])) && |done| + |items| <= max
    ensures ParseItems(t, EncodeItems(t, items), done, max) == Some(done + items)
    ensures NormalItems(t, items) == items
    decreases t, 2, |items|, 0
  {
    hide EncodeValue, ParseValue, TypedValue;
    if items == [] {
      assert done + items == done;
    } else {
      var rest := EncodeItems(t, items[1..]);
      PackedValue(t, items[0], rest);
      var b := EncodeItems(t, items);
      assert b[|EncodeValue(t, items[0])|..] == rest;
      ItemsRoundTrip(t, items[1..], done + [items[0]], max);
      assert done + items == (done + [items[0]]) + items[1..];
    }
  }

  // A packed array is one record.
  lemma {:induction false} PackedRecord(f: Field, s: Slot, k: nat, rest: Bytes)
    requires WellFormedField(f) && TypedSlot(f, s) && EncodableSlot(f, s) && SizedSlot(f, s) && k < |FieldRecords(f, s)|
    requires s.Items? && Packable(f.ltype)
    ensures ParseField(f, RecordWire(f, s), Payload(f, s, k) + rest, Partial(f, s, k))
         == if RoomyAt(f, s, k) then Some((Partial(f, s, k + 1), |Payload(f, s, k)|)) else None
    decreases f, 1, 0, 0
  {
    hide Varint, ParseVarint32, EncodeValue, EncodeItems, ParseValue, ParseItems, DefaultMsg, TypedMsg, TypedValue, WellFormed, NormalMsg,
      Sized, Encodable, NormalValue, ZeroValue, SubString, SizedValue, EncodableValue, RoomyValue;
    EncodedIsTyped(f, s);
    PackedIsRoomy(f.ltype);
    SubStringRoundTrip(EncodeItems(f.ltype, s.items), rest);
    ItemsRoundTrip(f.ltype, s.items, [], f.htype.arraySize);
    assert s.items[..0] == [] && [] + s.items == s.items;
  }

  // Every other item has a record of its own.
  lemma {:induction false} ItemRecord(f: Field, s: Slot, k: nat, rest: Bytes)
    requires WellFormedField(f) && TypedSlot(f, s) && EncodableSlot(f, s) && SizedSlot(f, s) && k < |FieldRecords(f, s)|
    requires s.Items? && !Packable(f.ltype)
    ensures ParseField(f, RecordWire(f, s), Payload(f, s, k) + rest, Partial(f, s, k))
         == if RoomyAt(f, s, k) then Some((Partial(f, s, k + 1), |Payload(f, s, k)|)) else None
    decreases f, 1, 0, 0
  {
    hide Varint, ParseVarint32, EncodeValue, EncodeItems, ParseValue, ParseItems, DefaultMsg, TypedMsg, TypedValue, WellFormed, NormalMsg,
      Sized, Encodable, NormalValue, ZeroValue, SubString, SizedValue, EncodableValue, RoomyValue;
    EncodedIsTyped(f, s);
    SubmessageIsGood(f);
    assert Encoded(f, s)[k] == s.items[k];
    ValueRoundTrip(f.ltype, s.items[k], rest, DefaultValue(f));
    assert NormalItems(f.ltype, s.items[..k]) + [NormalValue(f.ltype, s.items[k])] == NormalItems(f.ltype, s.items[..k + 1]);
    assert s.items[..|s.items|] == s.items;
  }

  // So has a single value.
  lemma {:induction false} SingleRecord(f: Field, s: Slot, k: nat, rest: Bytes)
    requires WellFormedField(f) && TypedSlot(f, s) && EncodableSlot(f, s) && SizedSlot(f, s) && k < |FieldRecords(f, s)|
    requires !s.Items?
    ensures ParseField(f, RecordWire(f, s), Payload(f, s, k) + rest, Partial(f, s, k))
         == if RoomyAt(f, s, k) then Some((Partial(f, s, k + 1), |Payload(f, s, k)|)) else None
    decreases f, 1, 0, 0
  {
    hide Varint, ParseVarint32, EncodeValue, EncodeItems, ParseValue, ParseItems, DefaultMsg, TypedMsg, TypedValue, WellFormed, NormalMsg,
      Sized, Encodable, NormalValue, ZeroValue, SubString, SizedValue, EncodableValue, RoomyValue;
    EncodedIsTyped(f, s);
    SubmessageIsGood(f);
    if Packable(f.ltype) {
      PackedIsRoomy(f.ltype);
    }
    ValueRoundTrip(f.ltype, Encoded(f, s)[k], rest, DefaultValue(f));
  }

  /** A record takes the slot one step further. */
  lemma {:induction false} RecordRoundTrip(f: Field, s: Slot, k: nat, rest: Bytes)
    requires WellFormedField(f) && TypedSlot(f, s) && EncodableSlot(f, s) && SizedSlot(f, s) && k < |FieldRecords(f, s)|
    ensures ParseField(f, RecordWire(f, s), Payload(f, s, k) + rest, Partial(f, s, k))
         == if RoomyAt(f, s, k) then Some((Partial(f, s, k + 1), |Payload(f, s, k)|)) else None
    decreases f, 1, 1, 0
  {
    hide *;
    if !s.Items? {
      SingleRecord(f, s, k, rest);
    } else if Packable(f.ltype) {
      PackedRecord(f, s, k, rest);
    } else {
      ItemRecord(f, s, k, rest);
    }
  }

  lemma {:induction false} PackedIsRoomy(t: LType)
    requires Packable(t)
    ensures forall v :: RoomyValue(t, v)
  {
  }

  lemma {:induction false} SubmessageIsGood(f: Field)
    requires WellFormedField(f)
    ensures GoodType(f.ltype) && (f.ltype.Submessage? ==> SlotsOf(f.ltype.d, DefaultValue(f)) == DefaultMsg(f.ltype.d))
  {
    hide WellFormed;
  }

  // ----- messages -----

  function RecordsFrom(d: Descriptor, slots: seq<Slot>, i: nat): seq<Bytes>
    requires TypedMsg(d, slots) && i <= |slots|
    decreases |slots| - i
  {
    if i == |slots| then [] else FieldRecords(d.fields[i], slots[i]) + RecordsFrom(d, slots, i + 1)
  }

  // The struct once the fields before the i-th and `k` records of the i-th are read.
  function State(d: Descriptor, slots: seq<Slot>, i: nat, k: nat): (r: seq<Slot>)
    requires TypedMsg(d, slots)
    ensures |r| == |slots| && forall j :: 0 <= j < |r| ==> r[j] == StateOf(d.fields[j], slots[j], j, i, k)
  {
    seq(|slots|, j requires 0 <= j < |slots| => StateOf(d.fields[j], slots[j], j, i, k))
  }

  function StateOf(f: Field, s: Slot, j: nat, i: nat, k: nat): Slot
    requires TypedSlot(f, s)
  {
    if j < i then NormalSlot(f, s) else if j == i then Partial(f, s, k) else DefaultSlot(f)
  }

  ghost predicate SeenBefore(d: Descriptor, seen: set<nat>, i: nat, k: nat) {
    forall j: nat :: j < |d.fields| && d.fields[j].htype.Required? && (j < i || (j == i && k > 0)) ==> j in seen
  }

  ghost predicate GoodMsg(d: Descriptor, slots: seq<Slot>) {
    WellFormed(d) && TypedMsg(d, slots) && Encodable(d, slots) && Sized(d, slots)
  }

  lemma {:induction false} GoodField(d: Descriptor, slots: seq<Slot>, i: nat)
    requires GoodMsg(d, slots) && i < |slots|
    ensures i < |d.fields| == |slots| && WellFormedField(d.fields[i]) && TypedSlot(d.fields[i], slots[i])
    ensures EncodableSlot(d.fields[i], slots[i]) && SizedSlot(d.fields[i], slots[i])
  {
    hide WellFormedField, TypedSlot, EncodableSlot, SizedSlot;
  }

  lemma {:induction false} IndexOfField(d: Descriptor, i: nat)
    requires WellFormed(d) && i < |d.fields|
    ensures IndexOf(d, d.fields[i].tag, 0) == i
  {
    hide WellFormedField;
  }

  lemma {:induction false} NothingReadYet(f: Field, s: Slot)
    requires WellFormedField(f) && TypedSlot(f, s)
    ensures Partial(f, s, 0) == DefaultSlot(f)
  {
    hide TypedValue, WellFormed, EncodeValue;
    if FieldRecords(f, s) == [] {
      NothingToWrite(f, s);
    }
  }

  lemma {:induction false} StateAtStart(d: Descriptor, slots: seq<Slot>)
    requires GoodMsg(d, slots)
    ensures State(d, slots, 0, 0) == DefaultMsg(d)
  {
    hide TypedSlot, Partial, DefaultSlot, WellFormed, Encodable, Sized;
    forall j | 0 <= j < |slots|
      ensures State(d, slots, 0, 0)[j] == DefaultMsg(d)[j]
    {
      GoodField(d, slots, j);
      NothingReadYet(d.fields[j], slots[j]);
    }
  }

  lemma {:induction false} StateAtEnd(d: Descriptor, slots: seq<Slot>)
    requires TypedMsg(d, slots)
    ensures State(d, slots, |slots|, 0) == NormalMsg(d, slots)
  {
  }

  lemma {:induction false} StateAtNextField(d: Descriptor, slots: seq<Slot>, i: nat, k: nat)
    requires GoodMsg(d, slots) && i < |slots| && k == |FieldRecords(d.fields[i], slots[i])|
    ensures State(d, slots, i, k) == State(d, slots, i + 1, 0)
  {
    hide TypedSlot, DefaultSlot, NormalSlot, FieldRecords, WellFormed, Encodable, Sized;
    forall j | 0 <= j < |slots|
      ensures State(d, slots, i, k)[j] == State(d, slots, i + 1, 0)[j]
    {
      if j == i + 1 {
        GoodField(d, slots, j);
        NothingReadYet(d.fields[j], slots[j]);
      }
    }
  }

  // A slot with records is no union member that was left out.
  lemma {:induction false} MemberIsChosen(f: Field, s: Slot, k: nat)
    requires TypedSlot(f, s) && k < |FieldRecords(f, s)| && f.htype.OneOf?
    ensures s.Member? && s.chosen.Some?
  {
    hide EncodeValue, TypedValue;
  }

  lemma {:induction false} OtherMemberIsNot(d: Descriptor, slots: seq<Slot>, i: nat, j: nat)
    requires TypedMsg(d, slots) && i < |slots| && j < |slots| && i != j && SameUnion(d.fields[i], d.fields[j])
    requires slots[i].Member? && slots[i].chosen.Some?
    ensures slots[j] == Member(None)
  {
    hide TypedValue;
    assert TypedSlot(d.fields[j], slots[j]);
  }

  lemma {:induction false} StateAfterRecord(d: Descriptor, slots: seq<Slot>, i: nat, k: nat)
    requires GoodMsg(d, slots) && i < |slots| && k < |FieldRecords(d.fields[i], slots[i])|
    ensures Store(d, State(d, slots, i, k), i, Partial(d.fields[i], slots[i], k + 1)) == State(d, slots, i, k + 1)
  {
    hide TypedSlot, FieldRecords, TypedMsg, Partial, WellFormed, Encodable, Sized, GoodMsg;
    GoodIsTyped(d, slots);
    GoodField(d, slots, i);
    forall j | 0 <= j < |slots| && j != i && SameUnion(d.fields[i], d.fields[j])
      ensures State(d, slots, i, k + 1)[j] == Member(None)
    {
      GoodField(d, slots, j);
      MemberIsChosen(d.fields[i], slots[i], k);
      OtherMemberIsNot(d, slots, i, j);
    }
  }

  // ----- one piece of the input -----

  lemma {:induction false} OwnPiece(d: Descriptor, slots: seq<Slot>, i: nat, k: nat, rest: Bytes, seen: set<nat>)
    requires GoodMsg(d, slots) && i < |slots| && k < |FieldRecords(d.fields[i], slots[i])|
    ensures ParseMsg(d, FieldRecords(d.fields[i], slots[i])[k] + rest, State(d, slots, i, k), seen)
         == if RoomyAt(d.fields[i], slots[i], k) then ParseMsg(d, rest, State(d, slots, i, k + 1), seen + {i}) else None
    decreases d, 1, 0, 0
  {
    hide TypedSlot, FieldRecords, TypedMsg, Partial, WellFormed, Encodable, Sized, Varint, ParseVarint32, ParseField, Payload, GoodMsg,
      WellFormedField, RoomyAt;
    GoodField(d, slots, i);
    var f, s := d.fields[i], slots[i];
    var wire := RecordWire(f, s);
    var head, payload := FieldTag(f, wire), Payload(f, s, k);
    RecordIsTagAndPayload(f, s, k);
    var b := FieldRecords(f, s)[k] + rest;
    assert b == head + (payload + rest);
    TagFits(f);
    Varint32RoundTrip(f.tag * 8 + wire, payload + rest);
    IndexOfGood(d, slots, i);
    RecordRoundTrip(f, s, k, rest);
    StateAfterRecord(d, slots, i, k);
    assert b[|head|..] == payload + rest;
    assert (payload + rest)[|payload|..] == rest;
  }

  lemma {:induction false} TagFits(f: Field)
    requires WellFormedField(f)
    ensures 0 < f.tag * 8 < f.tag * 8 + 8 <= 0x1_0000_0000
  {
  }

  lemma {:induction false} IndexOfGood(d: Descriptor, slots: seq<Slot>, i: nat)
    requires GoodMsg(d, slots) && i < |slots|
    ensures i < |d.fields| && IndexOf(d, d.fields[i].tag, 0) == i
  {
    IndexOfField(d, i);
  }

  lemma {:induction false} ForeignPiece(d: Descriptor, p: Piece, rest: Bytes, slots: seq<Slot>, seen: set<nat>)
    requires p.Foreign? && Unknown(d, p) && |slots| == |d.fields|
    ensures ParseMsg(d, PieceBytes(p) + rest, slots, seen) == ParseMsg(d, rest, slots, seen)
  {
    hide Varint, ParseVarint32, SkipField, Body.Valid, Body.Image;
    var wire := p.body.Wire();
    var head, payload := Varint(p.tag * 8 + wire), p.body.Image();
    var b := PieceBytes(p) + rest;
    assert b == head + (payload + rest);
    Varint32RoundTrip(p.tag * 8 + wire, payload + rest);
    SkipOver(p.body, rest);
    assert b[|head|..] == payload + rest;
    assert (payload + rest)[|payload|..] == rest;
  }

  // ----- the whole input -----

  function Remaining(d: Descriptor, slots: seq<Slot>, i: nat, k: nat): seq<Bytes>
    requires TypedMsg(d, slots) && i <= |slots| && (i < |slots| ==> k <= |FieldRecords(d.fields[i], slots[i])|)
  {
    if i < |slots| then FieldRecords(d.fields[i], slots[i])[k..] + RecordsFrom(d, slots, i + 1) else []
  }

  // The records that remain have room for their strings.
  ghost predicate RoomyFrom(d: Descriptor, slots: seq<Slot>, i: nat, k: nat)
    requires |slots| == |d.fields|
  {
    && (i < |slots| ==> forall m: nat :: k <= m < |Encoded(d.fields[i], slots[i])| ==> RoomyAt(d.fields[i], slots[i], m))
    && forall j :: i < j < |slots| ==> RoomySlot(d.fields[j], slots[j])
  }

  lemma {:induction false} RoomyAtStart(d: Descriptor, slots: seq<Slot>)
    requires |slots| == |d.fields|
    ensures RoomyFrom(d, slots, 0, 0) <==> Roomy(d, slots)
  {
    hide RoomyAt;
    if RoomyFrom(d, slots, 0, 0) && |slots| > 0 {
      assert RoomySlot(d.fields[0], slots[0]);
    }
  }

  lemma {:induction false} RecordsOfEncoded(f: Field, s: Slot)
    requires TypedSlot(f, s)
    ensures !Packable(f.ltype) || !s.Items? ==> |FieldRecords(f, s)| == |Encoded(f, s)|
    ensures |FieldRecords(f, s)| <= |Encoded(f, s)|
  {
    hide EncodeValue, TypedValue, ZeroValue;
  }

  lemma {:induction false} RoomyNextField(d: Descriptor, slots: seq<Slot>, i: nat, k: nat)
    requires TypedMsg(d, slots) && i < |slots| && k == |FieldRecords(d.fields[i], slots[i])|
    ensures RoomyFrom(d, slots, i, k) <==> RoomyFrom(d, slots, i + 1, 0)
  {
    TypedParts(d, slots, i);
    RecordsOfEncoded(d.fields[i], slots[i]);
    hide TypedSlot, FieldRecords, TypedMsg, Encoded;
    if RoomyFrom(d, slots, i, k) && i + 1 < |slots| {
      assert RoomySlot(d.fields[i + 1], slots[i + 1]);
    }
    if RoomyFrom(d, slots, i + 1, 0) && i + 1 < |slots| {
      assert RoomySlot(d.fields[i + 1], slots[i + 1]);
    }
  }

  lemma {:induction false} RoomyNextRecord(d: Descriptor, slots: seq<Slot>, i: nat, k: nat)
    requires TypedMsg(d, slots) && i < |slots| && k < |FieldRecords(d.fields[i], slots[i])|
    ensures RoomyFrom(d, slots, i, k) <==> RoomyAt(d.fields[i], slots[i], k) && RoomyFrom(d, slots, i, k + 1)
  {
    TypedParts(d, slots, i);
    RecordsOfEncoded(d.fields[i], slots[i]);
    hide TypedSlot, FieldRecords, TypedMsg, Encoded, RoomyAt, RoomySlot;
  }

  lemma {:induction false} AllSeen(d: Descriptor, seen: set<nat>)
    requires SeenBefore(d, seen, |d.fields|, 0)
    ensures Complete(d, seen)
  {
  }

  lemma {:induction false} SeenFurther(d: Descriptor, slots: seq<Slot>, seen: set<nat>, i: nat, k: nat)
    requires TypedMsg(d, slots) && i < |slots| && SeenBefore(d, seen, i, k)
    ensures SeenBefore(d, seen + {i}, i, k + 1)
    ensures k == |FieldRecords(d.fields[i], slots[i])| ==> SeenBefore(d, seen, i + 1, 0)
  {
    hide EncodeValue, TypedValue;
    assert TypedSlot(d.fields[i], slots[i]);
  }

  lemma {:induction false} Rest(d: Descriptor, slots: seq<Slot>, pieces: seq<Piece>, i: nat, k: nat, seen: set<nat>)
    requires GoodMsg(d, slots) && i <= |slots| && (if i < |slots| then k <= |FieldRecords(d.fields[i], slots[i])| else k == 0)
    requires Owns(pieces) == Remaining(d, slots, i, k) && SeenBefore(d, seen, i, k)
    requires forall p :: p in pieces ==> Unknown(d, p)
    ensures |slots| == |d.fields|
    ensures ParseMsg(d, AllBytes(pieces), State(d, slots, i, k), seen)
         == if RoomyFrom(d, slots, i, k) then Some(NormalMsg(d, slots)) else None
    decreases d, 2, |pieces|, |slots| - i
  {
    hide FieldRecords, TypedMsg, TypedSlot, ParseMsg, SeenBefore, State, Unknown, PieceBytes, NormalMsg, WellFormed, Encodable, Sized, RoomyFrom, RoomyAt;
    GoodIsTyped(d, slots);
    if i < |slots| && k == |FieldRecords(d.fields[i], slots[i])| {
      SeenFurther(d, slots, seen, i, k);
      StateAtNextField(d, slots, i, k);
      RoomyNextField(d, slots, i, k);
      assert Remaining(d, slots, i, k) == Remaining(d, slots, i + 1, 0);
      Rest(d, slots, pieces, i + 1, 0, seen);
    } else if pieces == [] {
      assert i == |slots|;
      StateAtEnd(d, slots);
      NoneRemain(d, slots);
      AllSeen(d, seen);
      NothingLeft(d, State(d, slots, i, k), seen);
    } else {
      var rest := pieces[1..];
      var p := pieces[0];
      assert p in pieces;
      if p.Foreign? {
        ForeignPiece(d, p, AllBytes(rest), State(d, slots, i, k), seen);
        Rest(d, slots, rest, i, k, seen);
      } else {
        assert Owns(pieces)[0] == p.bytes && Owns(pieces)[1..] == Owns(rest);
        assert i < |slots| && p.bytes == FieldRecords(d.fields[i], slots[i])[k];
        assert Remaining(d, slots, i, k)[1..] == Remaining(d, slots, i, k + 1);
        OwnPieceBytes(p);
        RoomyNextRecord(d, slots, i, k);
        OwnPiece(d, slots, i, k, AllBytes(rest), seen);
        SeenFurther(d, slots, seen, i, k);
        Rest(d, slots, rest, i, k + 1, seen + {i});
      }
    }
  }

  lemma {:induction false} NoneRemain(d: Descriptor, slots: seq<Slot>)
    requires |slots| == |d.fields|
    ensures RoomyFrom(d, slots, |slots|, 0)
  {
  }

  lemma {:induction false} OwnPieceBytes(p: Piece)
    requires p.Own?
    ensures PieceBytes(p) == p.bytes
  {
  }

  lemma {:induction false} NothingLeft(d: Descriptor, slots: seq<Slot>, seen: set<nat>)
    requires |slots| == |d.fields| && Complete(d, seen)
    ensures ParseMsg(d, [], slots, seen) == Some(slots)
  {
  }

  lemma {:induction false} GoodIsTyped(d: Descriptor, slots: seq<Slot>)
    requires GoodMsg(d, slots)
    ensures TypedMsg(d, slots) && |slots| == |d.fields|
  {
  }

  /**
   Whatever unknown fields stand between its records, the message is read back if and only
   if its strings leave room for their terminators: optional fields that are not there with
   their defaults, all others as they were.  Otherwise decoding fails.
   */
  lemma {:induction false} RoundTripAmongUnknown(d: Descriptor, slots: seq<Slot>, pieces: seq<Piece>)
    requires GoodMsg(d, slots) && Owns(pieces) == RecordsFrom(d, slots, 0)
    requires forall p :: p in pieces ==> Unknown(d, p)
    ensures |slots| == |d.fields|
    ensures Decode(d, AllBytes(pieces)) == if Roomy(d, slots) then Some(NormalMsg(d, slots)) else None
    decreases d, 3, 0, 0
  {
    hide FieldRecords, TypedMsg, TypedSlot, ParseMsg, State, Unknown, PieceBytes, NormalMsg, WellFormed, Encodable, Sized, DefaultMsg,
      Roomy, RoomyFrom;
    GoodIsTyped(d, slots);
    StateAtStart(d, slots);
    RoomyAtStart(d, slots);
    assert Remaining(d, slots, 0, 0) == RecordsFrom(d, slots, 0);
    Rest(d, slots, pieces, 0, 0, {});
  }

  function AllOwn(records: seq<Bytes>): (r: seq<Piece>)
    ensures |r| == |records| && forall i :: 0 <= i < |r| ==> r[i].Own?
  {
    if records == [] then [] else [Own(records[0])] + AllOwn(records[1..])
  }

  lemma {:induction false} OnlyOwn(records: seq<Bytes>)
    ensures Owns(AllOwn(records)) == records && AllBytes(AllOwn(records)) == Concat(records)
  {
    if records != [] {
      OnlyOwn(records[1..]);
      assert AllOwn(records)[1..] == AllOwn(records[1..]);
    }
  }

  lemma {:induction false} ConcatParts(a: seq<Bytes>, b: seq<Bytes>)
    ensures Concat(a + b) == Concat(a) + Concat(b)
  {
    if a == [] {
      assert a + b == b;
    } else {
      assert (a + b)[1..] == a[1..] + b;
      ConcatParts(a[1..], b);
    }
  }

  lemma {:induction false} RecordsMakeTheEncoding(d: Descriptor, slots: seq<Slot>, i: nat)
    requires TypedMsg(d, slots) && i <= |slots|
    ensures Concat(RecordsFrom(d, slots, i)) == EncodeFrom(d, slots, i)
    decreases |slots| - i
  {
    hide FieldRecords, TypedMsg, TypedSlot;
    if i < |slots| {
      TypedParts(d, slots, i);
      ConcatParts(FieldRecords(d.fields[i], slots[i]), RecordsFrom(d, slots, i + 1));
      RecordsMakeTheEncoding(d, slots, i + 1);
    }
  }

  lemma {:induction false} TypedParts(d: Descriptor, slots: seq<Slot>, i: nat)
    requires TypedMsg(d, slots) && i < |slots|
    ensures |slots| == |d.fields| && TypedSlot(d.fields[i], slots[i])
  {
    hide TypedSlot;
  }

  /** Decoding the encoding of a message gives the message, just when its strings have room. */
  lemma {:induction false} RoundTrip(d: Descriptor, slots: seq<Slot>)
    requires GoodMsg(d, slots)
    ensures |slots| == |d.fields|
    ensures Decode(d, EncodeMsg(d, slots)) == if Roomy(d, slots) then Some(NormalMsg(d, slots)) else None
    decreases d, 4, 0, 0
  {
    hide FieldRecords, TypedMsg, ParseMsg, NormalMsg, WellFormed, Encodable, Sized, DefaultMsg, Roomy;
    GoodIsTyped(d, slots);
    var records := RecordsFrom(d, slots, 0);
    OnlyOwn(records);
    RecordsMakeTheEncoding(d, slots, 0);
    RoundTripAmongUnknown(d, slots, AllOwn(records));
  }
}
