/**
 What the nanopb decoder (nanopb/pb_decode.c) makes of a byte string, as functions.
 */
module NanopbParse {
  import opened Wrappers
  import opened DbFormat
  import opened Coding
  import opened NanopbFormat

  // ----- varints in 32 bits -----

  // The rest of a varint behind `j` bytes that amount to `result`.  More than five bytes
  // are accepted if they only extend the sign.
  function Varint32Tail(b: Bytes, j: nat, result: Word): (r: Option<(Word, nat)>)
    ensures r.Some? ==> 0 < r.value.1 <= |b|
    decreases |b|
  {
    if b == [] then None
    else
      var bits := b[0] as int % 128;
      if 7 * j >= 32 && bits != 0 && (result < 0x8000_0000 || b[0] as int != SignExtension(j)) then None
      else
        var sum: Word := if 7 * j >= 32 then result else (result + bits * Power128(j)) % 0x1_0000_0000;
        if b[0] >= 128 then
          match Varint32Tail(b[1..], j + 1, sum)
          case Some((v, n)) => Some((v, n + 1))
          case None => None
        else if j == 4 && b[0] >= 16 then None
        else Some((sum, 1))
  }

  function SignExtension(j: nat): int {
    if 7 * j < 63 then 0xFF else 0x01
  }

  /** pb_decode_varint32. */
  function ParseVarint32(b: Bytes): (r: Option<(Word, nat)>)
    ensures r.Some? ==> 0 < r.value.1 <= |b|
  {
    if b == [] then None
    else if b[0] < 128 then Some((b[0] as int, 1))
    else
      match Varint32Tail(b[1..], 1, b[0] as int % 128)
      case Some((v, n)) => Some((v, n + 1))
      case None => None
  }

  // ----- skipping -----

  /** pb_skip_varint. */
  function SkipVarint(b: Bytes): (r: Option<nat>)
    ensures r.Some? ==> 0 < r.value <= |b|
    decreases |b|
  {
    if b == [] then None
    else if b[0] < 128 then Some(1)
    else match SkipVarint(b[1..]) case Some(n) => Some(n + 1) case None => None
  }

  function Skip(b: Bytes, n: nat): (r: Option<nat>)
    ensures r.Some? ==> r.value == n <= |b|
  {
    if n <= |b| then Some(n) else None
  }

  function SkipString(b: Bytes): (r: Option<nat>)
    ensures r.Some? ==> r.value <= |b|
  {
    match ParseVarint32(b)
    case Some((len, n)) => if len <= |b| - n then Some(n + len) else None
    case None => None
  }

  /** pb_skip_field. */
  function SkipField(wire: nat, b: Bytes): (r: Option<nat>)
    ensures r.Some? ==> r.value <= |b|
  {
    if wire == 0 then SkipVarint(b)
    else if wire == 1 then Skip(b, 8)
    else if wire == 2 then SkipString(b)
    else if wire == 5 then Skip(b, 4)
    else None
  }

  // ----- values -----

  // A number cut to a signed or unsigned integer of some width.
  function Signed(n: int, w: Width): int {
    var m := n % Power(w);
    if 2 * m < Power(w) then m else m - Power(w)
  }

  function UnZigZag(v: Long): int {
    if v % 2 == 1 then -1 - v / 2 else v / 2
  }

  function Checked(n: int, w: Width): Option<Value> {
    if Signed(n, w) == n then Some(Num(n)) else None
  }

  // Integers of up to 32 bits are cut to 32 bits first.
  function SignedNumber(v: Long, w: Width): Option<Value> {
    Checked(if w == 64 then Signed(v, 64) else Signed(v, 32), w)
  }

  function ParseNumber(t: LType, b: Bytes): (r: Option<(Value, nat)>)
    requires t.VarintOf? || t.UVarintOf? || t.SVarintOf?
    ensures r.Some? ==> 0 < r.value.1 <= |b|
  {
    match ParseLong(b)
    case None => None
    case Some((v, n)) =>
      var value :=
        match t
        case VarintOf(w) => SignedNumber(v, w)
        case UVarintOf(w) => if v < Power(w) then Some(Num(v)) else None
        case SVarintOf(w) => Checked(UnZigZag(v), w);
      if value.Some? then Some((value.value, n)) else None
  }

  function DecodeFixed64(b: Bytes): Long
    requires |b| >= 8
  {
    DecodeFixed32(b) + DecodeFixed32(b[4..]) * 0x1_0000_0000
  }

  // Length and contents, for a length that the field has room for.
  function ParseData(t: LType, b: Bytes): (r: Option<(Value, nat)>)
    requires t.BytesOf? || t.StringOf? || t.FixedBytesOf?
    ensures r.Some? ==> 0 < r.value.1 <= |b|
  {
    match ParseVarint32(b)
    case None => None
    case Some((len, n)) =>
      if t.FixedBytesOf? && len == 0 then Some((Data(Zeros(t.dataSize)), n))
      else if !HasRoom(t, len) || len > |b| - n then None
      else Some((Data(b[n..n + len]), n + len))
  }

  function Zeros(n: nat): (r: Bytes)
    ensures |r| == n && forall i :: 0 <= i < n ==> r[i] == 0
  {
    seq(n, i => 0 as byte)
  }

  predicate HasRoom(t: LType, len: Word)
    requires t.BytesOf? || t.StringOf? || t.FixedBytesOf?
  {
    match t
    case BytesOf(size) => len + BYTES_OFFSET <= size
    case StringOf(size) => len + 1 < 0x1_0000_0000 && len + 1 <= size
    case FixedBytesOf(size) => len == size
  }

  // A length, and that many bytes.
  function SubString(b: Bytes): (r: Option<(Bytes, nat)>)
    ensures r.Some? ==> 0 < r.value.1 <= |b| && |r.value.0| < r.value.1
  {
    match ParseVarint32(b)
    case None => None
    case Some((len, n)) => if len > |b| - n then None else Some((b[n..n + len], n + len))
  }

  function SlotsOf(d: Descriptor, v: Value): (r: seq<Slot>)
    ensures |r| == |d.fields|
  {
    if v.Msg? && |v.slots| == |d.fields| then v.slots else DefaultMsg(d)
  }

  // A value of a field, decoded over what is there.
  function ParseValue(t: LType, b: Bytes, base: Value): (r: Option<(Value, nat)>)
    ensures r.Some? ==> 0 < r.value.1 <= |b|
    decreases t, 0, 0
  {
    match t
    case Bool => (match ParseVarint32(b) case Some((v, n)) => Some((Num(if v != 0 then 1 else 0), n)) case None => None)
    case Fixed32 => if |b| >= 4 then Some((Num(DecodeFixed32(b)), 4)) else None
    case Fixed64 => if |b| >= 8 then Some((Num(DecodeFixed64(b)), 8)) else None
    case Submessage(d) =>
      (match SubString(b)
       case None => None
       case Some((sub, n)) =>
         match ParseMsg(d, sub, SlotsOf(d, base), {})
         case Some(slots) => Some((Msg(slots), n))
         case None => None)
    case VarintOf(_) => ParseNumber(t, b)
    case UVarintOf(_) => ParseNumber(t, b)
    case SVarintOf(_) => ParseNumber(t, b)
    case BytesOf(_) => ParseData(t, b)
    case StringOf(_) => ParseData(t, b)
    case FixedBytesOf(_) => ParseData(t, b)
  }

  // A packed array, behind the items that are there already.
  function ParseItems(t: LType, b: Bytes, items: seq<Value>, max: nat): Option<seq<Value>>
    decreases t, 1, |b|
  {
    if b == [] then Some(items)
    else if |items| >= max then None
    else
      match ParseValue(t, b, Num(0))
      case None => None
      case Some((v, n)) => ParseItems(t, b[n..], items + [v], max)
  }

  // The value that a decoded one goes over.
  function Base(f: Field, s: Slot): Value {
    match s
    case Plain(v) => v
    case Flagged(_, v) => v
    case Items(_) => DefaultValue(f)
    case Member(chosen) => if chosen.Some? then chosen.value else DefaultValue(f)
  }

  function WithValue(s: Slot, v: Value): Slot {
    match s
    case Plain(_) => Plain(v)
    case Flagged(_, _) => Flagged(true, v)
    case Items(items) => Items(items + [v])
    case Member(_) => Member(Some(v))
  }

  /** decode_static_field. */
  function ParseField(f: Field, wire: nat, b: Bytes, s: Slot): (r: Option<(Slot, nat)>)
    ensures r.Some? ==> 0 < r.value.1 <= |b|
    decreases f, 0, 0
  {
    if f.htype.Repeated? && s.Items? && wire == 2 && Packable(f.ltype) then
      match SubString(b)
      case None => None
      case Some((sub, n)) =>
        match ParseItems(f.ltype, sub, s.items, f.htype.arraySize)
        case Some(items) => Some((Items(items), n))
        case None => None
    else if f.htype.Repeated? && s.Items? && |s.items| >= f.htype.arraySize then None
    else
      match ParseValue(f.ltype, b, Base(f, s))
      case Some((v, n)) => Some((WithValue(s, v), n))
      case None => None
  }

  // ----- messages -----

  // Where the field with a tag is, or the number of fields.
  function IndexOf(d: Descriptor, tag: nat, i: nat): (r: nat)
    requires i <= |d.fields|
    ensures i <= r <= |d.fields|
    ensures r < |d.fields| ==> d.fields[r].tag == tag
    ensures forall k :: i <= k < r ==> d.fields[k].tag != tag
    decreases |d.fields| - i
  {
    if i == |d.fields| || d.fields[i].tag == tag then i else IndexOf(d, tag, i + 1)
  }

  // A member of a union takes the place of the others.
  function Store(d: Descriptor, slots: seq<Slot>, i: nat, s: Slot): (r: seq<Slot>)
    requires i < |slots| == |d.fields|
    ensures |r| == |slots| && r[i] == s
    ensures forall j :: 0 <= j < |r| && j != i ==>
              r[j] == if SameUnion(d.fields[i], d.fields[j]) then Member(None) else slots[j]
  {
    seq(|slots|, j requires 0 <= j < |slots| =>
      if j == i then s else if SameUnion(d.fields[i], d.fields[j]) then Member(None) else slots[j])
  }

  // How many required fields there are before the i-th.
  function RequiredBefore(d: Descriptor, i: nat): (r: nat)
    requires i <= |d.fields|
    ensures r <= i
  {
    if i == 0 then 0 else RequiredBefore(d, i - 1) + (if d.fields[i - 1].htype.Required? then 1 else 0)
  }

  // Only the first required fields are watched.
  predicate Complete(d: Descriptor, seen: set<nat>) {
    forall i: nat :: i < |d.fields| && d.fields[i].htype.Required? && RequiredBefore(d, i) < PB_MAX_REQUIRED_FIELDS ==> i in seen
  }

  /** pb_decode_noinit: the fields of the input, over the struct that is there. */
  function ParseMsg(d: Descriptor, b: Bytes, slots: seq<Slot>, seen: set<nat>): (r: Option<seq<Slot>>)
    requires |slots| == |d.fields|
    ensures r.Some? ==> |r.value| == |d.fields|
    decreases d, 0, |b|
  {
    if b == [] then if Complete(d, seen) then Some(slots) else None
    else
      match ParseVarint32(b)
      case None => None
      case Some((temp, n)) =>
        if temp == 0 then if Complete(d, seen) then Some(slots) else None
        else
          var i := IndexOf(d, temp / 8, 0);
          if i < |d.fields| then
            match ParseField(d.fields[i], temp % 8, b[n..], slots[i])
            case None => None
            case Some((s, m)) => ParseMsg(d, b[n..][m..], Store(d, slots, i, s), seen + {i})
          else
            match (if d.fields == [] && temp / 8 == 0 then SkipBool(b[n..]) else SkipField(temp % 8, b[n..]))
            case None => None
            case Some(m) => ParseMsg(d, b[n..][m..], slots, seen)
  }

  // The terminator of an empty descriptor answers to field number zero, as a boolean that
  // is no part of the message.
  function SkipBool(b: Bytes): (r: Option<nat>)
    ensures r.Some? ==> r.value <= |b|
  {
    match ParseVarint32(b)
    case Some((_, n)) => Some(n)
    case None => None
  }

  /** pb_decode. */
  function Decode(d: Descriptor, b: Bytes): Option<seq<Slot>> {
    ParseMsg(d, b, DefaultMsg(d), {})
  }
}
