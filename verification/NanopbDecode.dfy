/**
 The nanopb decoder (nanopb/pb_decode.c), from the stream up to messages.
 */
module NanopbDecode {
  import opened Wrappers
  import opened DbFormat
  import opened Coding
  import opened NanopbFormat
  import opened NanopbParse
  import opened NanopbEncode

  class InputStream {
    // The buffer from where the stream stands, and how much of it belongs to the stream.
    var state: Bytes
    var bytesLeft: nat

    predicate Ok()
      reads this
    {
      bytesLeft <= |state|
    }

    // pb_istream_from_buffer.
    constructor (state: Bytes, bytesLeft: nat)
      requires bytesLeft <= |state|
      ensures Ok() && this.state == state && this.bytesLeft == bytesLeft
    {
      this.state, this.bytesLeft := state, bytesLeft;
    }

    function Rest(): Bytes
      reads this
      requires Ok()
    {
      state[..bytesLeft]
    }

    // Somewhere behind a state that it had.
    predicate Behind(before: Bytes, left: nat)
      reads this
    {
      left <= |before| && bytesLeft <= left && state == before[left - bytesLeft..]
    }

    // ... or, after an error, at least within the same bytes.
    predicate Within(before: Bytes, left: nat)
      reads this
    {
      left <= |before| && bytesLeft <= left && |before| - left <= |state| - bytesLeft
    }

    // Exactly `n` bytes behind it.
    predicate Consumed(before: Bytes, left: nat, n: nat)
      reads this
    {
      n <= left <= |before| && bytesLeft == left - n && state == before[n..]
    }

    /** pb_read; without a buffer the bytes are skipped. */
    method Read(count: nat) returns (r: Option<Bytes>)
      requires Ok()
      modifies this
      ensures Ok() && Within(old(state), old(bytesLeft))
      ensures r.Some? <==> count <= old(bytesLeft)
      ensures r.Some? ==> r.value == old(Rest())[..count] && Consumed(old(state), old(bytesLeft), count)
    {
      if count == 0 {
        return Some([]);
      }
      if bytesLeft < count {
        return None;
      }
      r := Some(state[..count]);
      state := state[count..];
      bytesLeft := bytesLeft - count;
    }

    /** pb_readbyte. */
    method ReadByte() returns (r: Option<byte>)
      requires Ok()
      modifies this
      ensures Ok() && (r.Some? <==> old(bytesLeft) > 0)
      ensures r.None? ==> unchanged(this)
      ensures r.Some? ==> r.value == old(Rest())[0] && Consumed(old(state), old(bytesLeft), 1)
    {
      if bytesLeft == 0 {
        return None;
      }
      r := Some(state[0]);
      state := state[1..];
      bytesLeft := bytesLeft - 1;
    }
  }

  lemma {:induction false} BehindFurther(before: Bytes, left: nat, n: nat, m: nat)
    requires n <= left <= |before| && m <= left - n
    ensures before[n..][m..] == before[n + m..]
    ensures before[n..][..left - n] == before[..left][n..]
    ensures before[..left][n..][m..] == before[..left][n + m..]
  {
  }

  lemma {:induction false} ConsumedNothing(s: InputStream)
    requires s.Ok()
    ensures s.Consumed(s.state, s.bytesLeft, 0) && s.Behind(s.state, s.bytesLeft)
  {
  }

  // Where a stream stands, in terms of where it stood.
  lemma {:induction false} ConsumedState(s: InputStream, before: Bytes, left: nat, n: nat)
    requires s.Consumed(before, left, n)
    ensures s.Ok() && s.bytesLeft == left - n && s.state == before[n..] && s.Rest() == before[..left][n..]
    ensures n < left ==> s.Rest()[0] == before[..left][n]
    ensures s.Behind(before, left)
  {
  }

  lemma {:induction false} ConsumedTwice(s: InputStream, before: Bytes, left: nat, n: nat, at: Bytes, there: nat, m: nat)
    requires n <= left <= |before| && at == before[n..] && there == left - n && s.Consumed(at, there, m)
    ensures s.Consumed(before, left, n + m)
  {
  }

  // ----- varints -----

  // What is decoded from `n` bytes on decides the result.
  ghost predicate Goes32(whole: Bytes, n: nat, j: nat, result: Word) {
    && 1 <= n == j <= |whole|
    && ParseVarint32(whole) == match Varint32Tail(whole[n..], j, result)
                               case Some((v, m)) => Some((v, m + n))
                               case None => None
  }

  lemma {:induction false} Start32(whole: Bytes)
    requires whole != [] && whole[0] >= 128
    ensures Goes32(whole, 1, 1, whole[0] as int % 128)
  {
  }

  lemma {:induction false} Step32(whole: Bytes, n: nat, j: nat, result: Word)
    requires Goes32(whole, n, j, result) && n < |whole|
    ensures var b := whole[n]; var bits := b as int % 128;
      if 7 * j >= 32 && bits != 0 && (result < 0x8000_0000 || b as int != SignExtension(j)) then ParseVarint32(whole) == None
      else
        var sum: Word := if 7 * j >= 32 then result else (result + bits * Power128(j)) % 0x1_0000_0000;
        if b >= 128 then Goes32(whole, n + 1, j + 1, sum)
        else ParseVarint32(whole) == if j == 4 && b >= 16 then None else Some((sum, n + 1))
  {
    hide ParseVarint32, Power128, SignExtension;
    var t := whole[n..];
    assert t[0] == whole[n] && t[1..] == whole[n + 1..];
  }

  /** pb_decode_varint32_eof; `eof` says that there was nothing to read. */
  method DecodeVarint32Eof(stream: InputStream) returns (r: Option<Word>, eof: bool)
    requires stream.Ok()
    modifies stream
    ensures stream.Ok() && stream.Within(old(stream.state), old(stream.bytesLeft))
    ensures eof <==> old(stream.bytesLeft) == 0
    ensures match ParseVarint32(old(stream.Rest()))
            case Some((v, n)) => r == Some(v) && stream.Consumed(old(stream.state), old(stream.bytesLeft), n)
            case None => r == None
  {
    hide ParseVarint32, Goes32, Power128, SignExtension;
    ghost var whole := stream.Rest();
    ghost var before, left := stream.state, stream.bytesLeft;
    FirstByte32(whole);
    var byte_ := stream.ReadByte();
    if byte_.None? {
      return None, true;
    }
    eof := false;
    if byte_.value < 128 {
      return Some(byte_.value as int), false;
    }
    Start32(whole);
    var result: Word := byte_.value as int % 128;
    var j: nat := 1;
    var scale: nat := 128;
    assert scale == Power128(1) by { OneByte(); }
    while true
      invariant stream.Ok() && stream.Consumed(before, left, j) && Goes32(whole, j, j, result)
      invariant scale == Power128(j)
      decreases stream.bytesLeft
    {
      BehindFurther(before, left, j, 0);
      NoMore32(whole, j, result);
      byte_ := stream.ReadByte();
      if byte_.None? {
        return None, false;
      }
      assert byte_.value == whole[j];
      Step32(whole, j, j, result);
      var bits := byte_.value as int % 128;
      if 7 * j >= 32 {
        if bits != 0 && (result < 0x8000_0000 || byte_.value as int != SignExtension(j)) {
          return None, false;
        }
      } else {
        result := (result + bits * scale) % 0x1_0000_0000;
      }
      scale := scale * 128;
      NextPower(j);
      j := j + 1;
      if byte_.value < 128 {
        if j == 5 && byte_.value >= 16 {
          return None, false;
        }
        return Some(result), false;
      }
    }
  }

  lemma {:induction false} NextPower(j: nat)
    ensures Power128(j + 1) == Power128(j) * 128
  {
  }

  lemma {:induction false} FirstByte32(whole: Bytes)
    ensures whole == [] ==> ParseVarint32(whole) == None
    ensures whole != [] && whole[0] < 128 ==> ParseVarint32(whole) == Some((whole[0] as int, 1))
  {
  }

  lemma {:induction false} NoMore32(whole: Bytes, n: nat, result: Word)
    requires Goes32(whole, n, n, result)
    ensures n == |whole| ==> ParseVarint32(whole) == None
  {
    hide ParseVarint32;
  }

  /** pb_decode_varint32. */
  method DecodeVarint32(stream: InputStream) returns (r: Option<Word>)
    requires stream.Ok()
    modifies stream
    ensures stream.Ok() && stream.Within(old(stream.state), old(stream.bytesLeft))
    ensures match ParseVarint32(old(stream.Rest()))
            case Some((v, n)) => r == Some(v) && stream.Consumed(old(stream.state), old(stream.bytesLeft), n)
            case None => r == None
  {
    hide ParseVarint32;
    var eof;
    r, eof := DecodeVarint32Eof(stream);
  }

  /** pb_decode_varint. */
  method DecodeVarint(stream: InputStream) returns (r: Option<Long>)
    requires stream.Ok()
    modifies stream
    ensures stream.Ok() && stream.Within(old(stream.state), old(stream.bytesLeft))
    ensures match ParseLong(old(stream.Rest()))
            case Some((v, n)) => r == Some(v) && stream.Consumed(old(stream.state), old(stream.bytesLeft), n)
            case None => r == None
  {
    hide ParseVarint, Continues, InputStream.Consumed, InputStream.Behind, InputStream.Within;
    ghost var whole := stream.Rest();
    ghost var before, left := stream.state, stream.bytesLeft;
    ghost var sum: nat := 0;
    var result: nat, scale: nat, p: nat := 0, 1, 0;
    ContinueStart(whole, 10);
    ConsumedNothing(stream);
    while true
      invariant stream.Consumed(before, left, p) && Continues(whole, 10, p, sum, scale)
      invariant p <= 10 && p <= left && result == sum % 0x1_0000_0000_0000_0000
      decreases 10 - p
    {
      ConsumedState(stream, before, left, p);
      if p == 10 || p == left {
        ContinueEnd(whole, 10, p, sum, scale);
      }
      ConsumedIsWithin(stream, before, left, p);
      if 7 * p >= 64 {
        return None;
      }
      ghost var at, there := stream.state, stream.bytesLeft;
      var byte_ := stream.ReadByte();
      if byte_.None? {
        return None;
      }
      ConsumedTwice(stream, before, left, p, at, there, 1);
      ConsumedState(stream, before, left, p + 1);
      ConsumedIsWithin(stream, before, left, p + 1);
      ContinueStep(whole, 10, p, sum, scale);
      var bits := byte_.value as int % 128;
      AddModulo(sum, bits * scale, 0x1_0000_0000_0000_0000);
      result := (result + bits * scale) % 0x1_0000_0000_0000_0000;
      sum := sum + bits * scale;
      scale := scale * 128;
      p := p + 1;
      if byte_.value < 128 {
        return Some(result);
      }
    }
  }

  // ----- skipping -----

  lemma {:induction false} SkipStep(whole: Bytes, n: nat)
    requires n <= |whole|
    ensures n == |whole| ==> SkipVarint(whole[n..]) == None
    ensures n < |whole| ==>
              SkipVarint(whole[n..])
              == (if whole[n] < 128 then Some(1)
                  else match SkipVarint(whole[n + 1..]) case Some(m) => Some(m + 1) case None => None)
  {
    assert n < |whole| ==> whole[n..][0] == whole[n] && whole[n..][1..] == whole[n + 1..];
  }

  /** pb_skip_varint. */
  method SkipVarintIn(stream: InputStream) returns (ok: bool)
    requires stream.Ok()
    modifies stream
    ensures stream.Ok() && stream.Within(old(stream.state), old(stream.bytesLeft))
    ensures match SkipVarint(old(stream.Rest()))
            case Some(n) => ok && stream.Consumed(old(stream.state), old(stream.bytesLeft), n)
            case None => !ok
  {
    hide SkipVarint, InputStream.Consumed, InputStream.Behind, InputStream.Within;
    ghost var whole := stream.Rest();
    ghost var before, left := stream.state, stream.bytesLeft;
    ghost var n: nat := 0;
    assert whole[0..] == whole;
    ConsumedNothing(stream);
    while true
      invariant stream.Consumed(before, left, n) && n <= left
      invariant SkipVarint(whole) == match SkipVarint(whole[n..]) case Some(m) => Some(m + n) case None => None
      decreases left - n
    {
      ConsumedState(stream, before, left, n);
      ConsumedIsWithin(stream, before, left, n);
      SkipStep(whole, n);
      ghost var at, there := stream.state, stream.bytesLeft;
      var byte_ := stream.ReadByte();
      if byte_.None? {
        return false;
      }
      ConsumedTwice(stream, before, left, n, at, there, 1);
      n := n + 1;
      ConsumedState(stream, before, left, n);
      ConsumedIsWithin(stream, before, left, n);
      if byte_.value < 128 {
        return true;
      }
    }
  }

  /** pb_skip_field, with pb_skip_string. */
  method SkipFieldIn(stream: InputStream, wire: nat) returns (ok: bool)
    requires stream.Ok()
    modifies stream
    ensures stream.Ok() && stream.Within(old(stream.state), old(stream.bytesLeft))
    ensures match SkipField(wire, old(stream.Rest()))
            case Some(n) => ok && stream.Consumed(old(stream.state), old(stream.bytesLeft), n)
            case None => !ok
  {
    hide SkipVarint, ParseVarint32;
    if wire == 0 {
      ok := SkipVarintIn(stream);
    } else if wire == 1 {
      var skipped := stream.Read(8);
      ok := skipped.Some?;
    } else if wire == 2 {
      var length := DecodeVarint32(stream);
      if length.None? {
        return false;
      }
      var skipped := stream.Read(length.value);
      ok := skipped.Some?;
    } else if wire == 5 {
      var skipped := stream.Read(4);
      ok := skipped.Some?;
    } else {
      return false;
    }
  }

  /** pb_make_string_substream. */
  method MakeStringSubstream(stream: InputStream) returns (substream: InputStream?)
    requires stream.Ok()
    modifies stream
    ensures stream.Ok() && stream.bytesLeft <= old(stream.bytesLeft) <= |old(stream.state)|
    ensures substream == null <==> SubString(old(stream.Rest())) == None
    ensures substream == null ==> stream.Within(old(stream.state), old(stream.bytesLeft))
    ensures substream != null ==>
              && fresh(substream) && substream.Ok()
              && var (sub, n) := SubString(old(stream.Rest())).value;
                 && substream.Rest() == sub && stream.state == substream.state
                 && stream.bytesLeft == old(stream.bytesLeft) - n
                 && substream.state[substream.bytesLeft..] == old(stream.state)[n..]
                 && stream.bytesLeft + substream.bytesLeft <= |stream.state|
  {
    hide ParseVarint32;
    ghost var before, left := stream.state, stream.bytesLeft;
    var size := DecodeVarint32(stream);
    if size.None? {
      return null;
    }
    ghost var n := left - stream.bytesLeft;
    BehindFurther(before, left, n, 0);
    if stream.bytesLeft < size.value {
      return null;
    }
    substream := new InputStream(stream.state, size.value);
    stream.bytesLeft := stream.bytesLeft - size.value;
    assert substream.Rest() == before[..left][n..n + size.value];
    BehindFurther(before, |before|, n, size.value);
  }

  /** pb_close_string_substream: what was not read is skipped. */
  method CloseStringSubstream(stream: InputStream, substream: InputStream, ghost state: Bytes, ghost size: nat)
    requires stream != substream && substream.Within(state, size) && stream.bytesLeft + size <= |state|
    modifies stream`state, substream
    ensures |stream.state| >= |state| - size
    ensures old(substream.Behind(state, size)) ==> stream.state == state[size..]
  {
    if substream.bytesLeft > 0 {
      var skipped := substream.Read(substream.bytesLeft);
    }
    stream.state := substream.state;
  }

  // ----- values -----

  /** pb_dec_varint, pb_dec_uvarint, pb_dec_svarint: a number that does not fit is refused. */
  method DecodeNumber(stream: InputStream, t: LType) returns (r: Option<Value>)
    requires stream.Ok() && (t.VarintOf? || t.UVarintOf? || t.SVarintOf?)
    modifies stream
    ensures stream.Ok() && stream.Within(old(stream.state), old(stream.bytesLeft))
    ensures match ParseNumber(t, old(stream.Rest()))
            case Some((v, n)) => r == Some(v) && stream.Consumed(old(stream.state), old(stream.bytesLeft), n)
            case None => r == None
  {
    hide ParseLong, Signed;
    var value := DecodeVarint(stream);
    if value.None? {
      return None;
    }
    if t.VarintOf? {
      var svalue := if t.width == 64 then Signed(value.value, 64) else Signed(value.value, 32);
      var clamped := Signed(svalue, t.width);
      return if clamped != svalue then None else Some(Num(clamped));
    } else if t.UVarintOf? {
      CutUnsigned(value.value, t.width);
      var clamped := value.value % Power(t.width);
      return if clamped != value.value then None else Some(Num(clamped));
    } else {
      var svalue := UnZigZag(value.value);
      var clamped := Signed(svalue, t.width);
      return if clamped != svalue then None else Some(Num(clamped));
    }
  }

  lemma {:induction false} CutUnsigned(v: Long, w: Width)
    ensures v % Power(w) == v <==> v < Power(w)
  {
  }

  /** pb_dec_bytes, pb_dec_string, pb_dec_fixed_length_bytes. */
  method DecodeData(stream: InputStream, t: LType) returns (r: Option<Value>)
    requires stream.Ok() && (t.BytesOf? || t.StringOf? || t.FixedBytesOf?)
    modifies stream
    ensures stream.Ok() && stream.Within(old(stream.state), old(stream.bytesLeft))
    ensures match ParseData(t, old(stream.Rest()))
            case Some((v, n)) => r == Some(v) && stream.Consumed(old(stream.state), old(stream.bytesLeft), n)
            case None => r == None
  {
    hide ParseVarint32;
    hide HasRoom;
    ghost var before, left := stream.state, stream.bytesLeft;
    var size := DecodeVarint32(stream);
    if size.None? {
      return None;
    }
    BehindFurther(before, left, left - stream.bytesLeft, 0);
    if t.FixedBytesOf? && size.value == 0 {
      return Some(Data(Zeros(t.dataSize)));
    }
    var room := CheckRoom(t, size.value);
    if !room {
      return None;
    }
    TakeBehind(old(stream.Rest()), left - stream.bytesLeft, size.value);
    var contents := stream.Read(size.value);
    if contents.None? {
      return None;
    }
    return Some(Data(contents.value));
  }

  // The checks of a length against the size of the field.
  method CheckRoom(t: LType, size: Word) returns (room: bool)
    requires t.BytesOf? || t.StringOf? || t.FixedBytesOf?
    ensures room == HasRoom(t, size)
  {
    match t {
      case BytesOf(dataSize) =>
        room := size + BYTES_OFFSET <= dataSize;
      case StringOf(dataSize) =>
        // Room for the terminator, in 32 bits.
        var allocSize := (size + 1) % 0x1_0000_0000;
        room := !(allocSize < size || allocSize > dataSize);
      case FixedBytesOf(dataSize) =>
        room := size == dataSize;
    }
  }

  lemma {:induction false} TakeBehind(b: Bytes, n: nat, m: nat)
    requires n <= |b|
    ensures m <= |b| - n ==> b[n..][..m] == b[n..n + m]
  {
  }

  /** The decoder of a type: pb_dec_bool to pb_dec_fixed_length_bytes. */
  method DecodeValue(stream: InputStream, t: LType, base: Value) returns (r: Option<Value>)
    requires stream.Ok() && (t.Submessage? ==> WellFormed(t.d))
    modifies stream
    ensures stream.Ok() && stream.Within(old(stream.state), old(stream.bytesLeft))
    ensures match ParseValue(t, old(stream.Rest()), base)
            case Some((v, n)) => r == Some(v) && stream.Consumed(old(stream.state), old(stream.bytesLeft), n)
            case None => r == None
    decreases t, 0, 0
  {
    hide ParseVarint32, ParseNumber, ParseData, ParseMsg, WellFormed, DecodeFixed32, DecodeFixed64, SubString, InputStream.Consumed, InputStream.Within;
    match t {
      case Bool =>
        var value := DecodeVarint32(stream);
        return if value.None? then None else Some(Num(if value.value != 0 then 1 else 0));
      case Fixed32 =>
        var bytes := stream.Read(4);
        FirstFour(old(stream.Rest()));
        return if bytes.None? then None else Some(Num(DecodeFixed32(bytes.value)));
      case Fixed64 =>
        var bytes := stream.Read(8);
        FirstEight(old(stream.Rest()));
        return if bytes.None? then None else Some(Num(DecodeFixed64(bytes.value)));
      case Submessage(d) => r := DecodeSubmessage(stream, d, base);
      case BytesOf(_) => r := DecodeData(stream, t);
      case StringOf(_) => r := DecodeData(stream, t);
      case FixedBytesOf(_) => r := DecodeData(stream, t);
      case _ => r := DecodeNumber(stream, t);
    }
  }

  lemma {:induction false} FirstFour(b: Bytes)
    ensures |b| >= 4 ==> DecodeFixed32(b[..4]) == DecodeFixed32(b)
  {
  }

  lemma {:induction false} FirstEight(b: Bytes)
    ensures |b| >= 8 ==> DecodeFixed64(b[..8]) == DecodeFixed64(b)
  {
    if |b| >= 8 {
      var t := b[..8];
      assert t[4..][0] == b[4..][0] && t[4..][1] == b[4..][1] && t[4..][2] == b[4..][2] && t[4..][3] == b[4..][3];
    }
  }

  /** pb_dec_submessage. */
  method DecodeSubmessage(stream: InputStream, d: Descriptor, base: Value) returns (r: Option<Value>)
    requires stream.Ok() && WellFormed(d)
    modifies stream
    ensures stream.Ok() && stream.Within(old(stream.state), old(stream.bytesLeft))
    ensures match ParseValue(Submessage(d), old(stream.Rest()), base)
            case Some((v, n)) => r == Some(v) && stream.Consumed(old(stream.state), old(stream.bytesLeft), n)
            case None => r == None
    decreases d, 3, 0
  {
    hide ParseMsg, WellFormed, SubString;
    ghost var before, left := stream.state, stream.bytesLeft;
    var substream := MakeStringSubstream(stream);
    if substream == null {
      return None;
    }
    ghost var state, size := substream.state, substream.bytesLeft;
    var slots := DecodeMsg(substream, d, SlotsOf(d, base));
    CloseStringSubstream(stream, substream, state, size);
    BehindFurther(before, |before|, left - stream.bytesLeft, 0);
    r := if slots.None? then None else Some(Msg(slots.value));
  }

  /** decode_static_field, for a packed array. */
  method DecodePacked(stream: InputStream, f: Field, items: seq<Value>) returns (r: Option<seq<Value>>)
    requires stream.Ok() && Packable(f.ltype) && f.htype.Repeated?
    modifies stream
    ensures stream.Ok() && stream.Within(old(stream.state), old(stream.bytesLeft))
    ensures match SubString(old(stream.Rest()))
            case Some((sub, n)) =>
              r == ParseItems(f.ltype, sub, items, f.htype.arraySize)
              && (r.Some? ==> stream.Consumed(old(stream.state), old(stream.bytesLeft), n))
            case None => r == None
    decreases f, 0, 0
  {
    hide SubString, ParseValue;
    ghost var before, left := stream.state, stream.bytesLeft;
    var substream := MakeStringSubstream(stream);
    if substream == null {
      return None;
    }
    ghost var state, size := substream.state, substream.bytesLeft;
    ghost var sub := substream.Rest();
    var done := items;
    var status := true;
    while status && substream.bytesLeft > 0 && |done| < f.htype.arraySize
      invariant substream.Within(state, size) && (status ==> substream.Behind(state, size))
      invariant ParseItems(f.ltype, sub, items, f.htype.arraySize)
             == if status then ParseItems(f.ltype, substream.Rest(), done, f.htype.arraySize) else None
      decreases substream.bytesLeft, status
      modifies substream
    {
      ghost var at, there := substream.state, substream.bytesLeft;
      var value := DecodeValue(substream, f.ltype, Num(0));
      if value.None? {
        status := false;
      } else {
        BehindFurther(at, there, there - substream.bytesLeft, 0);
        BehindTwice(substream, state, size, at, there);
        done := done + [value.value];
      }
    }
    if substream.bytesLeft != 0 {
      return None;
    }
    CloseStringSubstream(stream, substream, state, size);
    BehindFurther(before, |before|, left - stream.bytesLeft, 0);
    r := if status then Some(done) else None;
  }

  lemma {:induction false} BehindTwice(s: InputStream, state: Bytes, size: nat, at: Bytes, there: nat)
    requires there <= size <= |state| && at == state[size - there..] && s.Behind(at, there)
    ensures s.Behind(state, size)
  {
  }

  /** decode_static_field. */
  method DecodeField(stream: InputStream, f: Field, wire: nat, s: Slot) returns (r: Option<Slot>)
    requires stream.Ok() && WellFormedField(f)
    modifies stream
    ensures stream.Ok() && stream.Within(old(stream.state), old(stream.bytesLeft))
    ensures match ParseField(f, wire, old(stream.Rest()), s)
            case Some((v, n)) => r == Some(v) && stream.Consumed(old(stream.state), old(stream.bytesLeft), n)
            case None => r == None
    decreases f, 1, 0
  {
    hide SubString, ParseValue, ParseItems, WellFormed;
    if f.htype.Repeated? && s.Items? {
      if wire == 2 && Packable(f.ltype) {
        var items := DecodePacked(stream, f, s.items);
        return if items.None? then None else Some(Items(items.value));
      }
      if |s.items| >= f.htype.arraySize {
        return None;
      }
    }
    var value := DecodeValue(stream, f.ltype, Base(f, s));
    r := if value.None? then None else Some(WithValue(s, value.value));
  }

  // ----- messages -----

  // The bits of the required fields that were seen.
  ghost predicate Tracks(d: Descriptor, bits: seq<bool>, seen: set<nat>) {
    && |bits| == PB_MAX_REQUIRED_FIELDS
    && (forall i: nat :: i < |d.fields| && d.fields[i].htype.Required? && RequiredBefore(d, i) < |bits| ==>
          (i in seen <==> bits[RequiredBefore(d, i)]))
  }

  lemma {:induction false} RequiredGrows(d: Descriptor, i: nat, j: nat)
    requires i < j <= |d.fields|
    ensures RequiredBefore(d, i) <= RequiredBefore(d, j)
    ensures d.fields[i].htype.Required? ==> RequiredBefore(d, i) < RequiredBefore(d, j)
    decreases j
  {
    if i + 1 < j {
      RequiredGrows(d, i, j - 1);
    }
  }

  lemma {:induction false} TracksField(d: Descriptor, bits: seq<bool>, seen: set<nat>, i: nat)
    requires Tracks(d, bits, seen) && i < |d.fields|
    ensures var r := RequiredBefore(d, i);
      Tracks(d, if d.fields[i].htype.Required? && r < |bits| then bits[r := true] else bits, seen + {i})
  {
    var r := RequiredBefore(d, i);
    var after := if d.fields[i].htype.Required? && r < |bits| then bits[r := true] else bits;
    forall j: nat | j < |d.fields| && d.fields[j].htype.Required? && RequiredBefore(d, j) < |bits|
      ensures j in seen + {i} <==> after[RequiredBefore(d, j)]
    {
      if j < i {
        RequiredGrows(d, j, i);
      } else if i < j {
        RequiredGrows(d, i, j);
      }
    }
  }

  // The required field with a number.
  lemma {:induction false} RequiredField(d: Descriptor, r: nat, n: nat) returns (i: nat)
    requires n <= |d.fields| && r < RequiredBefore(d, n)
    ensures i < n && d.fields[i].htype.Required? && RequiredBefore(d, i) == r
    decreases n
  {
    if d.fields[n - 1].htype.Required? && RequiredBefore(d, n - 1) == r {
      i := n - 1;
    } else {
      i := RequiredField(d, r, n - 1);
    }
  }

  lemma {:induction false} CompleteByBits(d: Descriptor, bits: seq<bool>, seen: set<nat>, count: nat)
    requires Tracks(d, bits, seen)
    requires count == (if RequiredBefore(d, |d.fields|) > |bits| then |bits| else RequiredBefore(d, |d.fields|))
    ensures Complete(d, seen) <==> forall r :: 0 <= r < count ==> bits[r]
  {
    if forall r :: 0 <= r < count ==> bits[r] {
      forall i: nat | i < |d.fields| && d.fields[i].htype.Required? && RequiredBefore(d, i) < PB_MAX_REQUIRED_FIELDS
        ensures i in seen
      {
        RequiredGrows(d, i, |d.fields|);
      }
    } else {
      var r: nat :| r < count && !bits[r];
      var i := RequiredField(d, r, |d.fields|);
      assert i !in seen;
    }
  }

  // How many required fields there are, by walking to the last one.
  method RequiredCount(iter: FieldIterator) returns (count: nat)
    requires iter.Ok() && WellFormed(iter.d)
    modifies iter
    ensures count == RequiredBefore(iter.d, |iter.d.fields|)
  {
    hide WellFormedField;
    var last := false;
    var more := true;
    ghost var n := |iter.d.fields|;
    count := 0;
    while more
      invariant iter.Ok()
      invariant !more && n == 0 ==> count == 0 && last && iter.TagHere() == 0
      invariant !more && n > 0 ==> iter.pos == 0
      invariant !more && n > 0 ==> count == RequiredBefore(iter.d, n - 1) && last == iter.d.fields[n - 1].htype.Required?
      decreases if more then n - iter.pos + 1 else 0
    {
      count := iter.requiredFieldIndex;
      last := if iter.d.fields == [] then true else iter.d.fields[iter.pos].htype.Required?;
      more := iter.Next();
    }
    if n > 0 {
      TagIsPositive(iter.d, 0);
    }
    if last && iter.TagHere() != 0 {
      count := count + 1;
    }
  }

  lemma {:induction false} TagIsPositive(d: Descriptor, i: nat)
    requires WellFormed(d) && i < |d.fields|
    ensures d.fields[i].tag > 0 && WellFormedField(d.fields[i])
  {
    assert WellFormedField(d.fields[i]);
  }

  lemma {:induction false} FoundIsIndex(d: Descriptor, i: nat, tag: nat)
    requires WellFormed(d)
    ensures i < |d.fields| && d.fields[i].tag == tag ==> IndexOf(d, tag, 0) == i
    ensures (forall k :: 0 <= k < |d.fields| ==> d.fields[k].tag != tag) ==> IndexOf(d, tag, 0) == |d.fields|
  {
    hide WellFormedField;
  }

  // One field of the input, behind its tag: how long it is, and the struct behind it.
  ghost function Step(d: Descriptor, temp: nat, b: Bytes, slots: seq<Slot>): (r: Option<(nat, seq<Slot>)>)
    requires |slots| == |d.fields|
    ensures r.Some? ==> r.value.0 <= |b| && |r.value.1| == |d.fields|
  {
    var i := IndexOf(d, temp / 8, 0);
    if i < |d.fields| then
      match ParseField(d.fields[i], temp % 8, b, slots[i])
      case None => None
      case Some((s, m)) => Some((m, Store(d, slots, i, s)))
    else
      match (if d.fields == [] && temp / 8 == 0 then SkipBool(b) else SkipField(temp % 8, b))
      case None => None
      case Some(m) => Some((m, slots))
  }

  ghost function SeenWith(d: Descriptor, temp: nat, seen: set<nat>): set<nat> {
    if IndexOf(d, temp / 8, 0) < |d.fields| then seen + {IndexOf(d, temp / 8, 0)} else seen
  }

  lemma {:induction false} MsgStep(d: Descriptor, b: Bytes, slots: seq<Slot>, seen: set<nat>)
    requires |slots| == |d.fields| && b != []
    ensures match ParseVarint32(b)
            case None => ParseMsg(d, b, slots, seen) == None
            case Some((temp, n)) =>
              if temp == 0 then ParseMsg(d, b, slots, seen) == if Complete(d, seen) then Some(slots) else None
              else match Step(d, temp, b[n..], slots)
                   case None => ParseMsg(d, b, slots, seen) == None
                   case Some((m, after)) =>
                     ParseMsg(d, b, slots, seen) == ParseMsg(d, b[n..][m..], after, SeenWith(d, temp, seen))
  {
    hide ParseVarint32, ParseField, SkipField, SkipBool, Complete;
  }

  // The field with the given tag, or what is skipped in its place.
  method DecodeTagged(stream: InputStream, iter: FieldIterator, temp: nat, start: seq<Slot>, bits: seq<bool>, ghost seen: set<nat>)
    returns (r: Option<seq<Slot>>, fieldsSeen: seq<bool>)
    requires stream.Ok() && iter.Ok() && WellFormed(iter.d) && |start| == |iter.d.fields| && Tracks(iter.d, bits, seen)
    modifies stream, iter
    ensures iter.Ok() && stream.Ok() && stream.Within(old(stream.state), old(stream.bytesLeft))
    ensures match Step(iter.d, temp, old(stream.Rest()), start)
            case Some((m, after)) => r == Some(after) && stream.Consumed(old(stream.state), old(stream.bytesLeft), m)
            case None => r == None
    ensures Tracks(iter.d, fieldsSeen, SeenWith(iter.d, temp, seen))
    decreases iter.d, 0, 0
  {
    hide ParseVarint32, ParseField, SkipField, WellFormed, Tracks;
    var d := iter.d;
    fieldsSeen := bits;
    var tag, wire := temp / 8, temp % 8;
    var found := iter.Find(tag);
    FoundIsIndex(d, iter.pos, tag);
    if !found {
      var ok := SkipFieldIn(stream, wire);
      return if ok then Some(start) else None, bits;
    }
    if d.fields == [] {
      // The terminator, as a boolean.
      var value := DecodeVarint32(stream);
      return if value.Some? then Some(start) else None, bits;
    }
    var i := iter.pos;
    TagIsPositive(d, i);
    TracksField(d, bits, seen, i);
    TracksSize(d, bits, seen);
    if d.fields[i].htype.Required? && iter.requiredFieldIndex < PB_MAX_REQUIRED_FIELDS {
      fieldsSeen := bits[iter.requiredFieldIndex := true];
    }
    var s := DecodeField(stream, d.fields[i], wire, start[i]);
    r := if s.Some? then Some(Store(d, start, i, s.value)) else None;
  }

  // A tag and its field; `ended` says that a zero took the place of the tag.
  method DecodeNext(stream: InputStream, iter: FieldIterator, slots: seq<Slot>, bits: seq<bool>, ghost seen: set<nat>)
    returns (r: Option<seq<Slot>>, ended: bool, fieldsSeen: seq<bool>, ghost seenNow: set<nat>)
    requires stream.Ok() && stream.bytesLeft > 0
    requires iter.Ok() && WellFormed(iter.d) && |slots| == |iter.d.fields| && Tracks(iter.d, bits, seen)
    modifies stream, iter
    ensures iter.Ok() && stream.Ok() && stream.Within(old(stream.state), old(stream.bytesLeft))
    ensures r == None ==> ParseMsg(iter.d, old(stream.Rest()), slots, seen) == None
    ensures r.Some? ==>
              && |r.value| == |iter.d.fields| && Tracks(iter.d, fieldsSeen, seenNow)
              && stream.bytesLeft < old(stream.bytesLeft) && stream.Behind(old(stream.state), old(stream.bytesLeft))
              && ParseMsg(iter.d, old(stream.Rest()), slots, seen)
                 == if ended then (if Complete(iter.d, seenNow) then r else None)
                    else ParseMsg(iter.d, stream.Rest(), r.value, seenNow)
    decreases iter.d, 1, 0
  {
    hide ParseVarint32, ParseMsg, Step, SeenWith, WellFormed, Complete, Tracks, InputStream.Consumed, InputStream.Behind, InputStream.Within;
    ghost var d, whole, before, left := iter.d, stream.Rest(), stream.state, stream.bytesLeft;
    MsgStep(d, whole, slots, seen);
    fieldsSeen, seenNow := bits, seen;
    var temp, eof := DecodeVarint32Eof(stream);
    if temp.None? {
      return None, false, bits, seen;
    }
    ghost var n := ParseVarint32(whole).value.1;
    ConsumedState(stream, before, left, n);
    if temp.value == 0 {
      ConsumedIsWithin(stream, before, left, n);
      return Some(slots), true, bits, seen;
    }
    ghost var at, there := stream.state, stream.bytesLeft;
    r, fieldsSeen := DecodeTagged(stream, iter, temp.value, slots, bits, seen);
    ended, seenNow := false, SeenWith(d, temp.value, seen);
    WithinFurther(stream, before, left, n, at, there);
    if r.Some? {
      ghost var m := Step(d, temp.value, whole[n..], slots).value.0;
      ConsumedTwice(stream, before, left, n, at, there, m);
      ConsumedState(stream, before, left, n + m);
      SlicesTwice(whole, n, m, 0);
    }
  }

  /** pb_decode_noinit. */
  method DecodeMsg(stream: InputStream, d: Descriptor, start: seq<Slot>) returns (r: Option<seq<Slot>>)
    requires stream.Ok() && WellFormed(d) && |start| == |d.fields|
    modifies stream
    ensures stream.Ok() && stream.Within(old(stream.state), old(stream.bytesLeft))
    ensures r.Some? ==> stream.Behind(old(stream.state), old(stream.bytesLeft))
    ensures r == ParseMsg(d, old(stream.Rest()), start, {})
    decreases d, 2, 0
  {
    hide ParseVarint32, ParseMsg, WellFormed, Complete, Tracks, InputStream.Behind, InputStream.Within;
    ghost var whole, before, left := stream.Rest(), stream.state, stream.bytesLeft;
    var fieldsSeen := seq(PB_MAX_REQUIRED_FIELDS, _ => false);
    ghost var seen: set<nat> := {};
    NoneSeen(d, fieldsSeen);
    var slots := start;
    var iter := new FieldIterator(d);
    var ended := false;
    ConsumedNothing(stream);
    BehindIsWithin(stream, before, left);
    while stream.bytesLeft > 0 && !ended
      invariant stream.Ok() && stream.bytesLeft <= left && iter.Ok()
      invariant stream.Behind(before, left) && stream.Within(before, left)
      invariant |slots| == |d.fields| && Tracks(d, fieldsSeen, seen)
      invariant ParseMsg(d, whole, start, {}) == if ended then (if Complete(d, seen) then Some(slots) else None)
                                                 else ParseMsg(d, stream.Rest(), slots, seen)
      decreases stream.bytesLeft
      modifies stream, iter
    {
      ghost var at, there := stream.state, stream.bytesLeft;
      BehindState(stream, before, left);
      var after;
      after, ended, fieldsSeen, seen := DecodeNext(stream, iter, slots, fieldsSeen, seen);
      WithinFurther(stream, before, left, left - there, at, there);
      if after.None? {
        return None;
      }
      BehindTwice(stream, before, left, at, there);
      slots := after.value;
    }
    AtEndOfInput(d, slots, seen);
    var complete := CheckRequired(iter, fieldsSeen, seen);
    return if complete then Some(slots) else None;
  }

  lemma {:induction false} BehindIsWithin(s: InputStream, before: Bytes, left: nat)
    requires s.Behind(before, left)
    ensures s.Within(before, left)
  {
  }

  lemma {:induction false} BehindState(s: InputStream, before: Bytes, left: nat)
    requires s.Behind(before, left)
    ensures s.bytesLeft <= left <= |before| && s.state == before[left - s.bytesLeft..]
  {
  }

  lemma {:induction false} SlicesTwice(b: Bytes, n: nat, k: nat, m: nat)
    requires n + k + m <= |b|
    ensures b[n..][k..] == b[n + k..] && b[n..][k..][m..] == b[n + k + m..]
  {
  }

  lemma {:induction false} WithinFurther(s: InputStream, before: Bytes, left: nat, n: nat, at: Bytes, there: nat)
    requires n <= left <= |before| && at == before[n..] && there == left - n
    requires s.Within(at, there)
    ensures s.Within(before, left)
  {
  }

  lemma {:induction false} ConsumedIsWithin(s: InputStream, before: Bytes, left: nat, n: nat)
    requires s.Consumed(before, left, n)
    ensures s.Within(before, left) && s.Behind(before, left)
  {
  }

  lemma {:induction false} AtEndOfInput(d: Descriptor, slots: seq<Slot>, seen: set<nat>)
    requires |slots| == |d.fields|
    ensures ParseMsg(d, [], slots, seen) == if Complete(d, seen) then Some(slots) else None
  {
  }

  // Check that all required fields were present.
  method CheckRequired(iter: FieldIterator, fieldsSeen: seq<bool>, ghost seen: set<nat>) returns (complete: bool)
    requires iter.Ok() && WellFormed(iter.d) && Tracks(iter.d, fieldsSeen, seen)
    modifies iter
    ensures complete <==> Complete(iter.d, seen)
  {
    hide Complete, WellFormed;
    var count := RequiredCount(iter);
    if count > PB_MAX_REQUIRED_FIELDS {
      count := PB_MAX_REQUIRED_FIELDS;
    }
    CompleteByBits(iter.d, fieldsSeen, seen, count);
    for j := 0 to count
      invariant forall k :: 0 <= k < j ==> fieldsSeen[k]
    {
      if !fieldsSeen[j] {
        return false;
      }
    }
    return true;
  }

  lemma {:induction false} NoneSeen(d: Descriptor, bits: seq<bool>)
    requires |bits| == PB_MAX_REQUIRED_FIELDS && forall r :: 0 <= r < |bits| ==> !bits[r]
    ensures Tracks(d, bits, {})
  {
  }

  lemma {:induction false} TracksSize(d: Descriptor, bits: seq<bool>, seen: set<nat>)
    requires Tracks(d, bits, seen)
    ensures |bits| == PB_MAX_REQUIRED_FIELDS
  {
  }

  // pb_message_set_to_defaults, then pb_decode_noinit.
  method DecodeFresh(stream: InputStream, d: Descriptor) returns (r: Option<seq<Slot>>)
    requires stream.Ok() && WellFormed(d)
    modifies stream
    ensures r == Decode(d, old(stream.Rest()))
  {
    r := DecodeMsg(stream, d, DefaultMsg(d));
  }
}
