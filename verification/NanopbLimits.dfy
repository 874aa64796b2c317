/**
 The members of a struct have a fixed size (nanopb/pb_decode.c: decode_static_field and the
 decoders of the types): no input makes the decoder store more than there is room for, and
 what does not fit is refused.
 */
module NanopbLimits {
  import opened Wrappers
  import opened DbFormat
  import opened Coding
  import opened NanopbFormat
  import opened NanopbParse

  // ----- no array is ever overrun -----

  predicate FitsValue(t: LType, v: Value)
    decreases t, 0, 0
  {
    t.Submessage? && v.Msg? && |v.slots| == |t.d.fields| ==> FitsMsg(t.d, v.slots)
  }

  // Every array of the struct, and of the structs in it, holds at most as many items as it
  // has room for.
  predicate FitsMsg(d: Descriptor, slots: seq<Slot>)
    requires |slots| == |d.fields|
    decreases d, 0, 0
  {
    forall i :: 0 <= i < |slots| ==> FitsSlot(d.fields[i], slots[i])
  }

  predicate FitsSlot(f: Field, s: Slot)
    decreases f, 0, 0
  {
    match s
    case Plain(v) => FitsValue(f.ltype, v)
    case Flagged(_, v) => FitsValue(f.ltype, v)
    case Items(items) =>
      && (f.htype.Repeated? ==> |items| <= f.htype.arraySize)
      && forall k :: 0 <= k < |items| ==> FitsValue(f.ltype, items[k])
    case Member(chosen) => chosen.Some? ==> FitsValue(f.ltype, chosen.value)
  }

  lemma {:induction false} DefaultFits(d: Descriptor)
    ensures FitsMsg(d, DefaultMsg(d))
    decreases d, 0
  {
    forall i | 0 <= i < |d.fields|
      ensures FitsSlot(d.fields[i], DefaultMsg(d)[i])
    {
      DefaultValueFits(d.fields[i]);
    }
  }

  lemma {:induction false} DefaultValueFits(f: Field)
    ensures FitsValue(f.ltype, DefaultValue(f))
    decreases f, 0
  {
    if f.ltype.Submessage? {
      DefaultFits(f.ltype.d);
    }
  }

  lemma {:induction false} SlotFits(d: Descriptor, slots: seq<Slot>, i: nat)
    requires |slots| == |d.fields| && FitsMsg(d, slots) && i < |slots|
    ensures FitsSlot(d.fields[i], slots[i])
  {
    hide FitsSlot;
  }

  // The value that a decoded one goes over.
  lemma {:induction false} BaseFits(f: Field, s: Slot)
    requires FitsSlot(f, s)
    ensures FitsValue(f.ltype, Base(f, s))
  {
    hide FitsValue;
    DefaultValueFits(f);
  }

  lemma {:induction false} SlotsFit(d: Descriptor, v: Value)
    requires FitsValue(Submessage(d), v)
    ensures FitsMsg(d, SlotsOf(d, v))
  {
    hide FitsMsg;
    DefaultFits(d);
  }

  lemma {:induction false} WithValueFits(f: Field, s: Slot, v: Value)
    requires FitsSlot(f, s) && FitsValue(f.ltype, v)
    requires f.htype.Repeated? && s.Items? ==> |s.items| < f.htype.arraySize
    ensures FitsSlot(f, WithValue(s, v))
  {
    hide FitsValue;
  }

  lemma {:induction false} ValueFits(t: LType, b: Bytes, base: Value)
    requires FitsValue(t, base) && ParseValue(t, b, base).Some?
    ensures FitsValue(t, ParseValue(t, b, base).value.0)
    decreases t, 0, 0
  {
    hide ParseMsg, SubString, FitsMsg;
    if t.Submessage? {
      SlotsFit(t.d, base);
      MsgFits(t.d, SubString(b).value.0, SlotsOf(t.d, base), {});
    }
  }

  lemma {:induction false} ItemsFit(t: LType, b: Bytes, items: seq<Value>, max: nat)
    requires Packable(t) && |items| <= max && ParseItems(t, b, items, max).Some?
    ensures |ParseItems(t, b, items, max).value| <= max
    decreases |b|
  {
    hide ParseValue;
    if b != [] {
      var (v, n) := ParseValue(t, b, Num(0)).value;
      ItemsFit(t, b[n..], items + [v], max);
    }
  }

  lemma {:induction false} FieldFits(f: Field, wire: nat, b: Bytes, s: Slot)
    requires FitsSlot(f, s) && ParseField(f, wire, b, s).Some?
    ensures FitsSlot(f, ParseField(f, wire, b, s).value.0)
    decreases f, 0, 0
  {
    hide ParseValue, ParseItems, SubString, FitsValue;
    if f.htype.Repeated? && s.Items? && wire == 2 && Packable(f.ltype) {
      ItemsFit(f.ltype, SubString(b).value.0, s.items, f.htype.arraySize);
      PackableFits(f.ltype);
    } else {
      BaseFits(f, s);
      ValueFits(f.ltype, b, Base(f, s));
      WithValueFits(f, s, ParseValue(f.ltype, b, Base(f, s)).value.0);
    }
  }

  lemma {:induction false} PackableFits(t: LType)
    requires Packable(t)
    ensures forall v :: FitsValue(t, v)
  {
  }

  lemma {:induction false} StoreFits(d: Descriptor, slots: seq<Slot>, i: nat, s: Slot)
    requires i < |slots| == |d.fields| && FitsMsg(d, slots) && FitsSlot(d.fields[i], s)
    ensures FitsMsg(d, Store(d, slots, i, s))
  {
    hide FitsValue;
    forall j | 0 <= j < |slots|
      ensures FitsSlot(d.fields[j], Store(d, slots, i, s)[j])
    {
    }
  }

  /**
   Whatever the input, a message that is decoded over a struct whose arrays are not overrun
   is one whose arrays are not overrun, in nested messages too.
   */
  lemma {:induction false} MsgFits(d: Descriptor, b: Bytes, slots: seq<Slot>, seen: set<nat>)
    requires |slots| == |d.fields| && FitsMsg(d, slots) && ParseMsg(d, b, slots, seen).Some?
    ensures FitsMsg(d, ParseMsg(d, b, slots, seen).value)
    decreases d, 0, |b|
  {
    hide ParseVarint32, ParseField, SkipField, SkipBool, Complete, FitsMsg, FitsSlot;
    if b != [] {
      var (temp, n) := ParseVarint32(b).value;
      if temp != 0 {
        var i := IndexOf(d, temp / 8, 0);
        if i < |d.fields| {
          var (s, m) := ParseField(d.fields[i], temp % 8, b[n..], slots[i]).value;
          SlotFits(d, slots, i);
          FieldFits(d.fields[i], temp % 8, b[n..], slots[i]);
          StoreFits(d, slots, i, s);
          MsgFits(d, b[n..][m..], Store(d, slots, i, s), seen + {i});
        } else {
          var m := (if d.fields == [] && temp / 8 == 0 then SkipBool(b[n..]) else SkipField(temp % 8, b[n..])).value;
          MsgFits(d, b[n..][m..], slots, seen);
        }
      }
    }
  }

  /** Every array of a decoded message holds at most as many items as it has room for. */
  lemma {:induction false} DecodedFits(d: Descriptor, b: Bytes)
    requires Decode(d, b).Some?
    ensures FitsMsg(d, Decode(d, b).value)
  {
    DefaultFits(d);
    MsgFits(d, b, DefaultMsg(d), {});
  }

  // ----- exactly when an array overflows -----

  // The bytes are the values one after the other, and nothing else.
  predicate Packs(t: LType, b: Bytes, values: seq<Value>)
    decreases |values|
  {
    if values == [] then b == []
    else
      match ParseValue(t, b, Num(0))
      case None => false
      case Some((v, n)) => v == values[0] && Packs(t, b[n..], values[1..])
  }

  // What the record of a repeated field brings, behind its tag: packed, all values of its
  // bytes; otherwise one.
  predicate Brings(f: Field, wire: nat, b: Bytes, values: seq<Value>, n: nat) {
    if wire == 2 && Packable(f.ltype) then
      match SubString(b)
      case None => false
      case Some((sub, m)) => m == n && Packs(f.ltype, sub, values)
    else |values| == 1 && ParseValue(f.ltype, b, DefaultValue(f)) == Some((values[0], n))
  }

  lemma {:induction false} PackedExactly(t: LType, b: Bytes, values: seq<Value>, items: seq<Value>, max: nat)
    requires Packs(t, b, values) && |items| <= max
    ensures ParseItems(t, b, items, max) == if |items| + |values| <= max then Some(items + values) else None
    decreases |values|
  {
    hide ParseValue;
    if values == [] {
      assert items + values == items;
    } else {
      PackedIsNotEmpty(t, b);
      var (v, n) := ParseValue(t, b, Num(0)).value;
      if |items| < max {
        PackedExactly(t, b[n..], values[1..], items + [v], max);
        assert items + values == (items + [v]) + values[1..];
      }
    }
  }

  lemma {:induction false} PackedIsNotEmpty(t: LType, b: Bytes)
    ensures ParseValue(t, b, Num(0)).Some? ==> b != []
  {
  }

  lemma {:induction false} WhatIsPacked(t: LType, b: Bytes, items: seq<Value>, max: nat) returns (values: seq<Value>)
    requires ParseItems(t, b, items, max).Some?
    ensures Packs(t, b, values)
    decreases |b|
  {
    hide ParseValue;
    if b == [] {
      values := [];
    } else {
      var (v, n) := ParseValue(t, b, Num(0)).value;
      var rest := WhatIsPacked(t, b[n..], items + [v], max);
      values := [v] + rest;
    }
  }

  /**
   A record of a repeated field is taken exactly when the array has room for all that it
   brings, packed or not; then these items come behind the ones that are there.
   */
  lemma {:induction false} RecordFitsExactly(f: Field, wire: nat, b: Bytes, items: seq<Value>, values: seq<Value>, n: nat)
    requires f.htype.Repeated? && |items| <= f.htype.arraySize && Brings(f, wire, b, values, n)
    ensures ParseField(f, wire, b, Items(items))
         == if |items| + |values| <= f.htype.arraySize then Some((Items(items + values), n)) else None
  {
    hide ParseValue, ParseItems, SubString, Packs;
    if wire == 2 && Packable(f.ltype) {
      PackedExactly(f.ltype, SubString(b).value.0, values, items, f.htype.arraySize);
    } else {
      assert values == [values[0]];
    }
  }

  /** And a record is refused if it brings nothing that can be decoded. */
  lemma {:induction false} TakenBrings(f: Field, wire: nat, b: Bytes, items: seq<Value>) returns (values: seq<Value>, n: nat)
    requires f.htype.Repeated? && ParseField(f, wire, b, Items(items)).Some?
    ensures Brings(f, wire, b, values, n)
  {
    hide ParseValue, ParseItems, SubString, Packs;
    n := ParseField(f, wire, b, Items(items)).value.1;
    if wire == 2 && Packable(f.ltype) {
      values := WhatIsPacked(f.ltype, SubString(b).value.0, items, f.htype.arraySize);
    } else {
      values := [ParseValue(f.ltype, b, DefaultValue(f)).value.0];
    }
  }

  // ----- exactly when a value does not fit -----

  predicate InRange(w: Width, n: int) {
    -Power(w) <= 2 * n < Power(w)
  }

  // Integers of up to 32 bits are told apart by their last 32 bits only.
  function Modulus(w: Width): int {
    if w == 64 then Power(64) else Power(32)
  }

  lemma {:induction false} SignedIs(v: int, w: Width)
    ensures InRange(w, Signed(v, w)) && Signed(v, w) % Power(w) == v % Power(w)
    ensures forall n :: InRange(w, n) && n % Power(w) == v % Power(w) ==> n == Signed(v, w)
  {
    var p := Power(w);
    var m := v % p;
    assert (m - p) % p == m % p == m by { SameRest(m, p); }
    forall n | InRange(w, n) && n % p == m
      ensures n == Signed(v, w)
    {
      RestOf(n, p);
    }
  }

  lemma {:induction false} SameRest(m: int, p: int)
    requires 0 <= m < p
    ensures (m - p) % p == m && m % p == m
  {
  }

  lemma {:induction false} RestOf(n: int, p: int)
    requires p > 0 && -p <= 2 * n < p
    ensures n % p == if n >= 0 then n else n + p
  {
  }

  lemma {:induction false} SmallerRange(w: Width, n: int)
    requires InRange(w, n) && w != 64
    ensures InRange(32, n)
  {
  }

  /**
   A signed integer is taken exactly when one that fits its width has the same last bits, 64
   or 32 of them, as the number in the input; that one it is.
   */
  lemma {:induction false} SignedFitsExactly(w: Width, b: Bytes, base: Value, n: int)
    ensures ParseValue(VarintOf(w), b, base).Some? ==> ParseLong(b).Some?
    ensures ParseLong(b).Some? ==>
              var (v, m) := ParseLong(b).value;
              ParseValue(VarintOf(w), b, base) == Some((Num(n), m)) <==> InRange(w, n) && n % Modulus(w) == v % Modulus(w)
  {
    hide ParseLong, Signed;
    if ParseLong(b).Some? {
      var (v, m) := ParseLong(b).value;
      var k: Width := if w == 64 then 64 else 32;
      var s := Signed(v, k);
      SignedIs(v, k);
      SignedIs(s, w);
      if InRange(w, n) && n % Modulus(w) == v % Modulus(w) {
        if w != 64 {
          SmallerRange(w, n);
        }
        assert n == s;
      }
    }
  }

  /** An unsigned integer is taken exactly when it fits its width. */
  lemma {:induction false} UnsignedFitsExactly(w: Width, b: Bytes, base: Value)
    ensures ParseValue(UVarintOf(w), b, base)
         == match ParseLong(b)
            case None => None
            case Some((v, m)) => if v < Power(w) then Some((Num(v), m)) else None
  {
  }

  /** A zigzag integer is taken exactly when one that fits its width has that zigzag form. */
  lemma {:induction false} ZigZagFitsExactly(w: Width, b: Bytes, base: Value, n: int)
    ensures ParseValue(SVarintOf(w), b, base).Some? ==> ParseLong(b).Some?
    ensures ParseLong(b).Some? ==>
              var (v, m) := ParseLong(b).value;
              ParseValue(SVarintOf(w), b, base) == Some((Num(n), m)) <==> InRange(w, n) && ZigZag(n) == v
  {
    hide ParseLong, Signed;
    if ParseLong(b).Some? {
      var (v, m) := ParseLong(b).value;
      SignedIs(UnZigZag(v), w);
      UnZigZagIs(v, n);
    }
  }

  lemma {:induction false} UnZigZagIs(v: Long, n: int)
    ensures ZigZag(n) == v <==> n == UnZigZag(v)
  {
  }

  // How many bytes a field of the type can take; a string with its terminator is counted in
  // 32 bits.
  function Room(t: LType): int
    requires t.BytesOf? || t.StringOf?
  {
    if t.BytesOf? then t.dataSize - BYTES_OFFSET
    else if t.dataSize < 0x1_0000_0000 then t.dataSize - 1 else 0xFFFF_FFFE
  }

  /**
   Bytes and strings are taken exactly when there is room for them, behind their size or
   before their terminator; a field of fixed length takes that length only, or nothing at
   all for zeros.
   */
  lemma {:induction false} DataFitsExactly(t: LType, b: Bytes, base: Value)
    requires t.BytesOf? || t.StringOf? || t.FixedBytesOf?
    ensures SubString(b).None? ==> ParseValue(t, b, base) == None
    ensures SubString(b).Some? ==>
              var (sub, n) := SubString(b).value;
              && (!t.FixedBytesOf? ==>
                    ParseValue(t, b, base) == if |sub| <= Room(t) then Some((Data(sub), n)) else None)
              && (t.FixedBytesOf? ==>
                    ParseValue(t, b, base) == if sub == [] then Some((Data(Zeros(t.dataSize)), n))
                                              else if |sub| == t.dataSize then Some((Data(sub), n)) else None)
  {
    hide ParseVarint32;
  }

  // ----- required fields -----

  // Somewhere in the input stands the number of the field.
  ghost predicate TagIn(b: Bytes, tag: nat) {
    exists n :: 0 <= n < |b| && TagAt(b[n..], tag)
  }

  predicate TagAt(b: Bytes, tag: nat) {
    ParseVarint32(b).Some? && ParseVarint32(b).value.0 / 8 == tag
  }

  lemma {:induction false} TagFurther(b: Bytes, k: nat, tag: nat)
    requires k <= |b| && TagIn(b[k..], tag)
    ensures TagIn(b, tag)
  {
    hide TagAt;
    var n :| 0 <= n < |b[k..]| && TagAt(b[k..][n..], tag);
    assert b[k..][n..] == b[k + n..];
  }

  lemma {:induction false} RequiredComesIn(d: Descriptor, b: Bytes, slots: seq<Slot>, seen: set<nat>, i: nat)
    requires |slots| == |d.fields| && ParseMsg(d, b, slots, seen).Some?
    requires i < |d.fields| && d.fields[i].htype.Required? && RequiredBefore(d, i) < 64
    ensures i in seen || TagIn(b, d.fields[i].tag)
    decreases |b|
  {
    hide ParseVarint32, ParseField, SkipField, SkipBool, TagIn, RequiredBefore, Store;
    if b != [] {
      var (temp, n) := ParseVarint32(b).value;
      if temp != 0 {
        var j := IndexOf(d, temp / 8, 0);
        if j < |d.fields| {
          var (s, m) := ParseField(d.fields[j], temp % 8, b[n..], slots[j]).value;
          RequiredComesIn(d, b[n..][m..], Store(d, slots, j, s), seen + {j}, i);
          assert b[n..][m..] == b[n + m..];
          if TagIn(b[n..][m..], d.fields[i].tag) {
            TagFurther(b, n + m, d.fields[i].tag);
          }
          if i == j {
            TagHere(b, d.fields[i].tag);
          }
        } else {
          var m := SkipField(temp % 8, b[n..]).value;
          RequiredComesIn(d, b[n..][m..], slots, seen, i);
          assert b[n..][m..] == b[n + m..];
          if TagIn(b[n..][m..], d.fields[i].tag) {
            TagFurther(b, n + m, d.fields[i].tag);
          }
        }
      }
    }
  }

  lemma {:induction false} TagHere(b: Bytes, tag: nat)
    requires b != [] && TagAt(b, tag)
    ensures TagIn(b, tag)
  {
    hide TagAt;
    assert b[0..] == b;
  }

  /** A message without one of its first 64 required fields is refused. */
  lemma {:induction false} RequiredIsInInput(d: Descriptor, b: Bytes, i: nat)
    requires Decode(d, b).Some? && i < |d.fields| && d.fields[i].htype.Required? && RequiredBefore(d, i) < 64
    ensures TagIn(b, d.fields[i].tag)
  {
    hide ParseMsg;
    RequiredComesIn(d, b, DefaultMsg(d), {}, i);
  }
}
