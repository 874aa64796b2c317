/**
 Numbers and strings in files (util/coding.h, util/coding.cc).
 */
module Coding {
  import opened Wrappers
  import opened DbFormat

  type Word = w: int | 0 <= w < 0x1_0000_0000
  type Long = w: int | 0 <= w < 0x1_0000_0000_0000_0000

  // ----- fixed width -----

  function EncodeFixed32(w: Word): (r: Bytes)
    ensures |r| == 4
  {
    [(w % 256) as byte, (w / 0x100 % 256) as byte, (w / 0x1_0000 % 256) as byte, (w / 0x100_0000) as byte]
  }

  function DecodeFixed32(b: Bytes): Word
    requires |b| >= 4
  {
    b[0] as int + b[1] as int * 0x100 + b[2] as int * 0x1_0000 + b[3] as int * 0x100_0000
  }

  lemma {:induction false} FixedRoundTrip(w: Word, rest: Bytes)
    ensures DecodeFixed32(EncodeFixed32(w)) == w
    ensures DecodeFixed32(EncodeFixed32(w) + rest) == w
  {
    var w1 := w / 0x100;
    var w2 := w1 / 0x100;
    assert w / 0x1_0000 == w2 && w / 0x100_0000 == w2 / 0x100;
    assert w == w1 * 0x100 + w % 256 && w1 == w2 * 0x100 + w1 % 256 && w2 == (w2 / 0x100) * 0x100 + w2 % 256;
  }

  // ----- varints: seven bits a byte, the low ones first -----

  function Varint(v: nat): (r: Bytes)
    ensures |r| > 0
  {
    if v < 128 then [v as byte] else [(v % 128 + 128) as byte] + Varint(v / 128)
  }

  // A varint of at most `most` bytes at the start of the input, and its length.
  function ParseVarint(b: Bytes, most: nat): (r: Option<(nat, nat)>)
    ensures r.Some? ==> 0 < r.value.1 <= |b|
    decreases most
  {
    if most == 0 || b == [] then None
    else if b[0] < 128 then Some((b[0] as int, 1))
    else
      match ParseVarint(b[1..], most - 1)
      case Some((v, n)) => Some((b[0] as int - 128 + 128 * v, n + 1))
      case None => None
  }

  function Power128(n: nat): (r: nat)
    ensures r > 0
  {
    if n == 0 then 1 else 128 * Power128(n - 1)
  }

  /** What is written is read back, whatever follows it. */
  lemma {:induction false} VarintRoundTrip(v: nat, rest: Bytes, most: nat)
    requires most > 0 && v < Power128(most)
    ensures ParseVarint(Varint(v) + rest, most) == Some((v, |Varint(v)|))
    ensures |Varint(v)| <= most
    decreases most
  {
    if v >= 128 {
      OneByte();
      assert v / 128 < Power128(most - 1);
      VarintRoundTrip(v / 128, rest, most - 1);
      assert (Varint(v) + rest)[1..] == Varint(v / 128) + rest;
      assert v == 128 * (v / 128) + v % 128;
    }
  }

  lemma {:induction false} OneByte()
    ensures Power128(1) == 128
  {
    assert Power128(1) == 128 * Power128(0);
  }

  // EncodeVarint32, unrolled as in the source.
  function EncodeVarint32(v: Word): Bytes {
    if v < 0x80 then [v as byte]
    else if v < 0x4000 then [More(v), (v / 0x80) as byte]
    else if v < 0x20_0000 then [More(v), More(v / 0x80), (v / 0x4000) as byte]
    else if v < 0x1000_0000 then [More(v), More(v / 0x80), More(v / 0x4000), (v / 0x20_0000) as byte]
    else [More(v), More(v / 0x80), More(v / 0x4000), More(v / 0x20_0000), (v / 0x1000_0000) as byte]
  }

  // The low seven bits, with the mark that more bytes follow.
  function More(v: nat): byte {
    (v % 128 + 128) as byte
  }

  lemma {:induction false} UnrolledIsVarint(v: Word)
    ensures EncodeVarint32(v) == Varint(v)
    ensures v < Power128(5)
  {
    assert v / 0x4000 == v / 0x80 / 0x80 && v / 0x20_0000 == v / 0x4000 / 0x80 && v / 0x1000_0000 == v / 0x20_0000 / 0x80;
    assert Power128(5) == 128 * (128 * (128 * (128 * (128 * Power128(0)))));
    if v >= 0x80 {
      VarintStep(v);
      if v >= 0x4000 {
        VarintStep(v / 0x80);
        if v >= 0x20_0000 {
          VarintStep(v / 0x4000);
          if v >= 0x1000_0000 {
            VarintStep(v / 0x20_0000);
          }
        }
      }
    }
  }

  lemma {:induction false} VarintStep(v: nat)
    requires v >= 128
    ensures Varint(v) == [More(v)] + Varint(v / 128)
  {
  }

  method EncodeVarint64(value: Long) returns (r: Bytes)
    ensures r == Varint(value)
  {
    var v: nat := value;
    r := [];
    assert [] + Varint(v) == Varint(v);
    while v >= 128
      invariant r + Varint(v) == Varint(value)
    {
      assert r + ([More(v)] + Varint(v / 128)) == (r + [More(v)]) + Varint(v / 128);
      r := r + [More(v)];
      v := v / 128;
    }
    r := r + [v as byte];
  }

  // A varint of 32 bits.
  function ParseWord(b: Bytes): (r: Option<(Word, nat)>)
    ensures r.Some? ==> 0 < r.value.1 <= |b|
  {
    match ParseVarint(b, 5)
    case Some((v, n)) => Some((v % 0x1_0000_0000, n))
    case None => None
  }

  lemma {:induction false} WordRoundTrip(w: Word, rest: Bytes)
    ensures ParseWord(Varint(w) + rest) == Some((w, |Varint(w)|))
    ensures |Varint(w)| <= 5
  {
    UnrolledIsVarint(w);
    VarintRoundTrip(w, rest, 5);
  }

  /**
   GetVarint32Ptr: the single-byte path and the loop.  Bits past the 32nd are lost.
   */
  method GetVarint32(input: Bytes) returns (result: Option<(Word, nat)>)
    ensures result == ParseWord(input)
  {
    if 0 < |input| && input[0] < 128 {
      return Some((input[0] as int, 1));
    }
    result := VarintLoop(input, 5, 0x1_0000_0000);
  }

  // A varint of 64 bits.
  function ParseLong(b: Bytes): (r: Option<(Long, nat)>)
    ensures r.Some? ==> 0 < r.value.1 <= |b|
  {
    match ParseVarint(b, 10)
    case Some((v, n)) => Some((v % 0x1_0000_0000_0000_0000, n))
    case None => None
  }

  lemma {:induction false} LongRoundTrip(w: Long, rest: Bytes)
    ensures ParseLong(Varint(w) + rest) == Some((w, |Varint(w)|))
    ensures |Varint(w)| <= 10
  {
    TenBytes();
    VarintRoundTrip(w, rest, 10);
  }

  lemma {:induction false} TenBytes()
    ensures Power128(10) >= 0x1_0000_0000_0000_0000
  {
    assert Power128(5) == 128 * (128 * (128 * (128 * (128 * Power128(0)))));
    assert Power128(10) == 128 * (128 * (128 * (128 * (128 * Power128(5)))));
  }

  // GetVarint64Ptr.
  method GetVarint64(input: Bytes) returns (result: Option<(Long, nat)>)
    ensures result == ParseLong(input)
  {
    result := VarintLoop(input, 10, 0x1_0000_0000_0000_0000);
  }

  // What is to come decides the result, after `p` bytes that amount to `whole`.
  ghost predicate Continues(input: Bytes, most: nat, p: nat, whole: nat, scale: nat) {
    && p <= most && p <= |input|
    && ParseVarint(input, most) == match ParseVarint(input[p..], most - p)
                                   case Some((v, n)) => Some((whole + scale * v, p + n))
                                   case None => None
  }

  lemma {:induction false} ContinueStep(input: Bytes, most: nat, p: nat, whole: nat, scale: nat)
    requires Continues(input, most, p, whole, scale) && p < most && p < |input|
    ensures input[p] >= 128 ==> Continues(input, most, p + 1, whole + (input[p] as int - 128) * scale, scale * 128)
    ensures input[p] < 128 ==> ParseVarint(input, most) == Some((whole + input[p] as int * scale, p + 1))
  {
    assert input[p..][0] == input[p] && input[p..][1..] == input[p + 1..];
    if input[p] >= 128 {
      match ParseVarint(input[p + 1..], most - (p + 1))
      case Some((v, n)) => Distribute(whole, scale, input[p] as int - 128, v);
      case None =>
    }
  }

  lemma {:induction false} Distribute(whole: int, scale: int, b: int, v: int)
    ensures whole + scale * (b + 128 * v) == (whole + b * scale) + (scale * 128) * v
  {
    assert scale * (128 * v) == (scale * 128) * v;
  }

  lemma {:induction false} AddModulo(whole: nat, x: nat, m: nat)
    requires m > 0
    ensures (whole % m + x) % m == (whole + x) % m
  {
    var q := whole / m;
    var y := whole % m + x;
    var k := y / m;
    assert whole + x == q * m + y && y == k * m + y % m;
    assert whole + x == (q + k) * m + y % m;
    ModuloIs(whole + x, m, q + k, y % m);
  }

  lemma {:induction false} ModuloIs(x: int, m: int, q: int, r: int)
    requires m > 0 && x == q * m + r && 0 <= r < m
    ensures x % m == r
  {
    var d := x / m - q;
    assert d * m == r - x % m;
    assert d == 0 by {
      SmallMultiple(d, m, r - x % m);
    }
  }

  lemma {:induction false} SmallMultiple(d: int, m: int, x: int)
    requires m > 0 && d * m == x && -m < x < m
    ensures d == 0
  {
    if d >= 1 {
      AtLeastOnce(d, m);
    } else if d <= -1 {
      AtLeastOnce(-d, m);
    }
  }

  lemma {:induction false} AtLeastOnce(d: int, m: int)
    requires m > 0 && d >= 1
    ensures d * m >= m && (-d) * m <= -m
  {
  }

  // The loop of both decoders; `modulus` is one more than the largest number of the type.
  method VarintLoop(input: Bytes, most: nat, modulus: nat) returns (result: Option<(nat, nat)>)
    requires modulus > 0
    ensures result == match ParseVarint(input, most)
                      case Some((v, n)) => Some((v % modulus, n))
                      case None => None
  {
    hide ParseVarint, Continues;
    var value: nat, scale: nat, p: nat := 0, 1, 0;
    ghost var whole: nat := 0;
    ContinueStart(input, most);
    while p < most && p < |input|
      invariant p <= most && p <= |input|
      invariant value == whole % modulus
      invariant Continues(input, most, p, whole, scale)
    {
      var b := input[p];
      ContinueStep(input, most, p, whole, scale);
      p := p + 1;
      if b >= 128 {
        AddModulo(whole, (b as int - 128) * scale, modulus);
        value := (value + (b as int - 128) * scale) % modulus;
        whole := whole + (b as int - 128) * scale;
        scale := scale * 128;
      } else {
        AddModulo(whole, b as int * scale, modulus);
        value := (value + b as int * scale) % modulus;
        return Some((value, p));
      }
    }
    ContinueEnd(input, most, p, whole, scale);
    return None;
  }

  lemma {:induction false} ContinueStart(input: Bytes, most: nat)
    ensures Continues(input, most, 0, 0, 1)
  {
    assert input[0..] == input;
  }

  lemma {:induction false} ContinueEnd(input: Bytes, most: nat, p: nat, whole: nat, scale: nat)
    requires Continues(input, most, p, whole, scale) && (p == most || p == |input|)
    ensures ParseVarint(input, most) == None
  {
  }

  // ----- length-prefixed strings -----

  function PutLengthPrefixed(value: Bytes): Bytes {
    Varint(|value|) + value
  }

  function GetLengthPrefixed(input: Bytes): (r: Option<(Bytes, nat)>)
    ensures r.Some? ==> 0 < r.value.1 <= |input|
  {
    match ParseWord(input)
    case Some((len, n)) =>
      if |input| - n >= len then Some((input[n..n + len], n + len)) else None
    case None => None
  }

  lemma {:induction false} LengthPrefixedRoundTrip(value: Bytes, rest: Bytes)
    requires |value| < 0x1_0000_0000
    ensures GetLengthPrefixed(PutLengthPrefixed(value) + rest) == Some((value, |PutLengthPrefixed(value)|))
  {
    var input := PutLengthPrefixed(value) + rest;
    var head := Varint(|value|);
    WordRoundTrip(|value|, value + rest);
    assert input == head + (value + rest);
    assert input[|head|..|head| + |value|] == value;
  }
}
