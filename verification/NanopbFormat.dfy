/**
 nanopb messages (nanopb/pb.h): field descriptors, the structs they describe as value
 trees, and their encoding (nanopb/pb_encode.c), as functions.
 */
module NanopbFormat {
  import opened Wrappers
  import opened DbFormat
  import opened Coding

  // The width of an integer in the struct, in bits.
  type Width = w: nat | w == 8 || w == 16 || w == 32 || w == 64 witness 8

  datatype LType =
    | Bool | VarintOf(width: Width) | UVarintOf(width: Width) | SVarintOf(width: Width) | Fixed32 | Fixed64
    | BytesOf(dataSize: nat) | StringOf(dataSize: nat) | FixedBytesOf(dataSize: nat)
    | Submessage(d: Descriptor)

  // An optional field has a flag; a singular one is there when it is not zero.
  datatype HType = Required | Optional | Singular | Repeated(arraySize: nat) | OneOf(union: nat)

  datatype Field = Field(tag: nat, ltype: LType, htype: HType, initial: Value)

  datatype Descriptor = Descriptor(fields: seq<Field>)

  // A number, the contents of a byte array or string, or a struct.
  datatype Value = Num(n: int) | Data(bytes: Bytes) | Msg(slots: seq<Slot>)

  // What the struct holds for one field.  A member of a union is there or not.
  datatype Slot = Plain(value: Value) | Flagged(has: bool, value: Value) | Items(items: seq<Value>) | Member(chosen: Option<Value>)

  // ----- which structs and descriptors there are -----

  function Power(w: Width): int {
    if w == 8 then 0x100 else if w == 16 then 0x1_0000 else if w == 32 then 0x1_0000_0000 else 0x1_0000_0000_0000_0000
  }

  ghost predicate TypedValue(t: LType, v: Value)
    decreases t, 0, 0
  {
    match t
    case Bool => v == Num(0) || v == Num(1)
    case VarintOf(w) => v.Num? && -Power(w) <= 2 * v.n < Power(w)
    case SVarintOf(w) => v.Num? && -Power(w) <= 2 * v.n < Power(w)
    case UVarintOf(w) => v.Num? && 0 <= v.n < Power(w)
    case Fixed32 => v.Num? && 0 <= v.n < 0x1_0000_0000
    case Fixed64 => v.Num? && 0 <= v.n < 0x1_0000_0000_0000_0000
    case BytesOf(_) => v.Data?
    case StringOf(size) => v.Data? && |v.bytes| <= size && 0 !in v.bytes
    case FixedBytesOf(size) => v.Data? && |v.bytes| == size
    case Submessage(d) => v.Msg? && TypedMsg(d, v.slots)
  }

  ghost predicate TypedMsg(d: Descriptor, slots: seq<Slot>)
    decreases d, 0, 0
  {
    && |slots| == |d.fields|
    && (forall i :: 0 <= i < |slots| ==> TypedSlot(d.fields[i], slots[i]))
    && OneEach(d, slots)
  }

  ghost predicate TypedSlot(f: Field, s: Slot)
    decreases f, 0, 0
  {
    match f.htype
    case Required => s.Plain? && TypedValue(f.ltype, s.value)
    case Singular => s.Plain? && TypedValue(f.ltype, s.value)
    case Optional => s.Flagged? && TypedValue(f.ltype, s.value)
    case Repeated(_) => s.Items? && forall k :: 0 <= k < |s.items| ==> TypedValue(f.ltype, s.items[k])
    case OneOf(_) => s.Member? && (s.chosen.Some? ==> TypedValue(f.ltype, s.chosen.value))
  }

  predicate SameUnion(f: Field, g: Field) {
    f.htype.OneOf? && f.htype == g.htype
  }

  // A union has at most one member.
  ghost predicate OneEach(d: Descriptor, slots: seq<Slot>)
    requires |slots| == |d.fields|
  {
    forall i, j :: 0 <= i < j < |slots| && SameUnion(d.fields[i], d.fields[j]) && slots[i].Member? && slots[j].Member?
      ==> slots[i].chosen == None || slots[j].chosen == None
  }

  predicate Packable(t: LType) {
    !(t.BytesOf? || t.StringOf? || t.FixedBytesOf? || t.Submessage?)
  }

  const TAG_LIMIT: nat := 0x2000_0000
  const PB_MAX_REQUIRED_FIELDS: nat := 64

  // A descriptor as it is generated: tags differ, and singular fields start as zero.
  ghost predicate WellFormed(d: Descriptor)
    decreases d, 0
  {
    && (forall i :: 0 <= i < |d.fields| ==> WellFormedField(d.fields[i]))
    && (forall i, j :: 0 <= i < j < |d.fields| ==> d.fields[i].tag != d.fields[j].tag)
  }

  ghost predicate WellFormedField(f: Field)
    decreases f, 0
  {
    && 0 < f.tag < TAG_LIMIT
    && (f.ltype.Submessage? ==> WellFormed(f.ltype.d))
    && (!f.ltype.Submessage? ==> TypedValue(f.ltype, f.initial))
    && (f.htype.Singular? && !f.ltype.Submessage? && !f.ltype.FixedBytesOf? ==> ZeroValue(f.ltype, f.initial))
  }

  // ----- default values -----

  function DefaultValue(f: Field): Value
    decreases f, 0
  {
    if f.ltype.Submessage? then Msg(DefaultMsg(f.ltype.d)) else f.initial
  }

  function DefaultSlot(f: Field): Slot
    decreases f, 1
  {
    match f.htype
    case Required => Plain(DefaultValue(f))
    case Singular => Plain(DefaultValue(f))
    case Optional => Flagged(false, DefaultValue(f))
    case Repeated(_) => Items([])
    case OneOf(_) => Member(None)
  }

  function DefaultMsg(d: Descriptor): (r: seq<Slot>)
    ensures |r| == |d.fields| && forall i :: 0 <= i < |r| ==> r[i] == DefaultSlot(d.fields[i])
    decreases d, 0
  {
    seq(|d.fields|, i requires 0 <= i < |d.fields| => DefaultSlot(d.fields[i]))
  }

  // What a message stands for: an optional field that is not there has its default value.
  function NormalValue(t: LType, v: Value): Value
    decreases t, 0, 0
  {
    if t.Submessage? && v.Msg? && |v.slots| == |t.d.fields| then Msg(NormalMsg(t.d, v.slots)) else v
  }

  function NormalItems(t: LType, items: seq<Value>): (r: seq<Value>)
    ensures |r| == |items| && forall k :: 0 <= k < |r| ==> r[k] == NormalValue(t, items[k])
    decreases t, 0, 1
  {
    seq(|items|, k requires 0 <= k < |items| => NormalValue(t, items[k]))
  }

  function NormalSlot(f: Field, s: Slot): Slot
    decreases f, 1, 0
  {
    match s
    case Plain(v) => Plain(NormalValue(f.ltype, v))
    case Flagged(has, v) => Flagged(has, if has then NormalValue(f.ltype, v) else DefaultValue(f))
    case Items(items) => Items(NormalItems(f.ltype, items))
    case Member(chosen) => Member(if chosen.Some? then Some(NormalValue(f.ltype, chosen.value)) else None)
  }

  function NormalMsg(d: Descriptor, slots: seq<Slot>): (r: seq<Slot>)
    requires |slots| == |d.fields|
    ensures |r| == |slots| && forall i :: 0 <= i < |r| ==> r[i] == NormalSlot(d.fields[i], slots[i])
    decreases d, 0, 0
  {
    seq(|slots|, i requires 0 <= i < |slots| => NormalSlot(d.fields[i], slots[i]))
  }

  // ----- zero values -----

  predicate ZeroValue(t: LType, v: Value)
    decreases t, 0, 0
  {
    match t
    case BytesOf(_) => v.Data? && v.bytes == []
    case StringOf(_) => v.Data? && v.bytes == []
    case FixedBytesOf(size) => size == 0
    case Submessage(d) => v.Msg? && |v.slots| == |d.fields| && forall i :: 0 <= i < |v.slots| ==> ZeroSlot(d.fields[i], v.slots[i])
    case _ => v == Num(0)
  }

  /** pb_check_proto3_default_value. */
  predicate ZeroSlot(f: Field, s: Slot)
    decreases f, 0, 0
  {
    match s
    case Plain(v) => !f.htype.Required? && ZeroValue(f.ltype, v)
    case Flagged(has, _) => !has
    case Items(items) => items == []
    case Member(chosen) => chosen == None
  }

  // ----- encoding -----

  function ZigZag(n: int): nat {
    if n < 0 then -2 * n - 1 else 2 * n
  }

  // Two's complement in 64 bits.
  function Unsigned(n: int): int {
    if n < 0 then n + 0x1_0000_0000_0000_0000 else n
  }

  function EncodeFixed64(n: Long): (r: Bytes)
    ensures |r| == 8
  {
    EncodeFixed32(n % 0x1_0000_0000) + EncodeFixed32(n / 0x1_0000_0000)
  }

  function Prefixed(b: Bytes): (r: Bytes)
    ensures |r| > |b|
  {
    Varint(|b|) + b
  }

  function EncodeValue(t: LType, v: Value): Bytes
    requires TypedValue(t, v)
    decreases t, 0, 0
  {
    match t
    case Bool => Varint(v.n)
    case VarintOf(_) => Varint(Unsigned(v.n))
    case UVarintOf(_) => Varint(v.n)
    case SVarintOf(_) => Varint(ZigZag(v.n))
    case Fixed32 => EncodeFixed32(v.n)
    case Fixed64 => EncodeFixed64(v.n)
    case BytesOf(_) => Prefixed(v.bytes)
    case StringOf(_) => Prefixed(v.bytes)
    case FixedBytesOf(_) => Prefixed(v.bytes)
    case Submessage(d) => Prefixed(EncodeMsg(d, v.slots))
  }

  function WireType(t: LType): nat {
    match t
    case Fixed32 => 5
    case Fixed64 => 1
    case BytesOf(_) => 2
    case StringOf(_) => 2
    case FixedBytesOf(_) => 2
    case Submessage(_) => 2
    case _ => 0
  }

  function FieldTag(f: Field, wire: nat): Bytes {
    Varint(f.tag * 8 + wire)
  }

  function Record(f: Field, v: Value): Bytes
    requires TypedValue(f.ltype, v)
    decreases f, 0, 0
  {
    FieldTag(f, WireType(f.ltype)) + EncodeValue(f.ltype, v)
  }

  function EncodeItems(t: LType, items: seq<Value>): Bytes
    requires forall k :: 0 <= k < |items| ==> TypedValue(t, items[k])
    decreases t, 0, |items| + 1
  {
    if items == [] then [] else EncodeValue(t, items[0]) + EncodeItems(t, items[1..])
  }

  // The records of a field: tag and contents, in the order they are written.
  function FieldRecords(f: Field, s: Slot): seq<Bytes>
    requires TypedSlot(f, s)
    decreases f, 2, 0
  {
    match s
    case Plain(v) => if f.htype.Singular? && ZeroValue(f.ltype, v) then [] else [Record(f, v)]
    case Flagged(has, v) => if has then [Record(f, v)] else []
    case Items(items) =>
      if items == [] then []
      else if Packable(f.ltype) then [FieldTag(f, 2) + Prefixed(EncodeItems(f.ltype, items))]
      else ItemRecords(f, items)
    case Member(chosen) => if chosen.Some? then [Record(f, chosen.value)] else []
  }

  function ItemRecords(f: Field, items: seq<Value>): (r: seq<Bytes>)
    requires forall k :: 0 <= k < |items| ==> TypedValue(f.ltype, items[k])
    ensures |r| == |items| && forall k :: 0 <= k < |items| ==> r[k] == Record(f, items[k])
    decreases f, 1, |items|
  {
    if items == [] then [] else [Record(f, items[0])] + ItemRecords(f, items[1..])
  }

  function Concat(records: seq<Bytes>): Bytes {
    if records == [] then [] else records[0] + Concat(records[1..])
  }

  function EncodeField(f: Field, s: Slot): Bytes
    requires TypedSlot(f, s)
    decreases f, 3, 0
  {
    Concat(FieldRecords(f, s))
  }

  // The fields from the i-th on.
  function EncodeFrom(d: Descriptor, slots: seq<Slot>, i: nat): Bytes
    requires TypedMsg(d, slots) && i <= |slots|
    decreases d, 0, |slots| - i
  {
    if i == |slots| then [] else EncodeField(d.fields[i], slots[i]) + EncodeFrom(d, slots, i + 1)
  }

  function EncodeMsg(d: Descriptor, slots: seq<Slot>): Bytes
    requires TypedMsg(d, slots)
    decreases d, 1, 0
  {
    EncodeFrom(d, slots, 0)
  }

  // ----- what the encoder refuses, and what the decoder would refuse -----

  // Where the bytes start behind their size in the struct.
  const BYTES_OFFSET: nat := 4

  ghost predicate EncodableValue(t: LType, v: Value)
    decreases t, 0, 0
  {
    match t
    case BytesOf(size) => v.Data? && |v.bytes| + BYTES_OFFSET <= size
    case Submessage(d) => v.Msg? && |v.slots| == |d.fields| && Encodable(d, v.slots)
    case _ => true
  }

  // The values of a slot that are encoded.
  function Encoded(f: Field, s: Slot): seq<Value> {
    match s
    case Plain(v) => if f.htype.Singular? && ZeroValue(f.ltype, v) then [] else [v]
    case Flagged(has, v) => if has then [v] else []
    case Items(items) => items
    case Member(chosen) => if chosen.Some? then [chosen.value] else []
  }

  ghost predicate EncodableSlot(f: Field, s: Slot)
    decreases f, 0, 0
  {
    && (f.htype.Repeated? ==> |Encoded(f, s)| <= f.htype.arraySize)
    && forall k :: 0 <= k < |Encoded(f, s)| ==> EncodableValue(f.ltype, Encoded(f, s)[k])
  }

  ghost predicate Encodable(d: Descriptor, slots: seq<Slot>)
    requires |slots| == |d.fields|
    decreases d, 0, 0
  {
    forall i :: 0 <= i < |slots| ==> EncodableSlot(d.fields[i], slots[i])
  }

  // Lengths fit the 32 bits in which they are decoded.
  ghost predicate SizedValue(t: LType, v: Value)
    requires TypedValue(t, v)
    decreases t, 0, 0
  {
    match t
    case BytesOf(_) => |v.bytes| < 0x1_0000_0000
    case StringOf(_) => |v.bytes| < 0xFFFF_FFFF
    case FixedBytesOf(_) => |v.bytes| < 0x1_0000_0000
    case Submessage(d) => |EncodeMsg(d, v.slots)| < 0x1_0000_0000 && Sized(d, v.slots)
    case _ => true
  }

  lemma {:induction false} EncodedIsTyped(f: Field, s: Slot)
    requires TypedSlot(f, s)
    ensures forall k :: 0 <= k < |Encoded(f, s)| ==> TypedValue(f.ltype, Encoded(f, s)[k])
  {
  }

  ghost predicate SizedSlot(f: Field, s: Slot)
    requires TypedSlot(f, s)
    decreases f, 2, 0
  {
    EncodedIsTyped(f, s);
    && (s.Items? && Packable(f.ltype) ==> |EncodeItems(f.ltype, s.items)| < 0x1_0000_0000)
    && forall k :: 0 <= k < |Encoded(f, s)| ==> SizedValue(f.ltype, Encoded(f, s)[k])
  }

  ghost predicate Sized(d: Descriptor, slots: seq<Slot>)
    requires TypedMsg(d, slots)
    decreases d, 1, 0
  {
    forall i :: 0 <= i < |slots| ==> SizedSlot(d.fields[i], slots[i])
  }

  // Every string that is encoded leaves room for a terminator in its field.
  predicate RoomyValue(t: LType, v: Value)
    decreases t, 0, 0
  {
    match t
    case StringOf(size) => v.Data? ==> |v.bytes| < size
    case Submessage(d) => v.Msg? && |v.slots| == |d.fields| ==> Roomy(d, v.slots)
    case _ => true
  }

  predicate RoomyAt(f: Field, s: Slot, k: nat)
    decreases f, 0, 0
  {
    Packable(f.ltype) || (k < |Encoded(f, s)| ==> RoomyValue(f.ltype, Encoded(f, s)[k]))
  }

  predicate RoomySlot(f: Field, s: Slot)
    decreases f, 1, 0
  {
    forall k: nat :: k < |Encoded(f, s)| ==> RoomyAt(f, s, k)
  }

  predicate Roomy(d: Descriptor, slots: seq<Slot>)
    requires |slots| == |d.fields|
    decreases d, 0, 0
  {
    forall i :: 0 <= i < |slots| ==> RoomySlot(d.fields[i], slots[i])
  }
}
