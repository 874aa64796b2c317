/**
 What decoding makes of a field that comes more than once (nanopb/pb_decode.c): the last
 value of a plain field counts, items add up, submessages merge, and decoding two messages
 one behind the other over the same struct is decoding the bytes of both.
 */
module NanopbMerge {
  import opened Wrappers
  import opened DbFormat
  import opened Coding
  import opened NanopbFormat
  import opened NanopbParse
  import opened NanopbLimits

  // ----- more bytes behind a field change nothing in it -----

  lemma {:induction false} TailGoesOn(a: Bytes, more: Bytes, j: nat, result: Word)
    requires Varint32Tail(a, j, result).Some?
    ensures Varint32Tail(a + more, j, result) == Varint32Tail(a, j, result)
    decreases |a|
  {
    var bits := a[0] as int % 128;
    var sum: Word := if 7 * j >= 32 then result else (result + bits * Power128(j)) % 0x1_0000_0000;
    if a[0] >= 128 {
      assert (a + more)[1..] == a[1..] + more;
      TailGoesOn(a[1..], more, j + 1, sum);
    }
  }

  lemma {:induction false} Varint32GoesOn(a: Bytes, more: Bytes)
    requires ParseVarint32(a).Some?
    ensures ParseVarint32(a + more) == ParseVarint32(a)
  {
    hide Varint32Tail;
    if a[0] >= 128 {
      assert (a + more)[1..] == a[1..] + more;
      TailGoesOn(a[1..], more, 1, a[0] as int % 128);
    }
  }

  lemma {:induction false} VarintGoesOn(a: Bytes, more: Bytes, most: nat)
    requires ParseVarint(a, most).Some?
    ensures ParseVarint(a + more, most) == ParseVarint(a, most)
    decreases most
  {
    if a[0] >= 128 {
      assert (a + more)[1..] == a[1..] + more;
      VarintGoesOn(a[1..], more, most - 1);
    }
  }

  lemma {:induction false} SkipVarintGoesOn(a: Bytes, more: Bytes)
    requires SkipVarint(a).Some?
    ensures SkipVarint(a + more) == SkipVarint(a)
    decreases |a|
  {
    if a[0] >= 128 {
      assert (a + more)[1..] == a[1..] + more;
      SkipVarintGoesOn(a[1..], more);
    }
  }

  lemma {:induction false} SubStringGoesOn(a: Bytes, more: Bytes)
    requires SubString(a).Some?
    ensures SubString(a + more) == SubString(a)
  {
    hide ParseVarint32;
    Varint32GoesOn(a, more);
    var (len, n) := ParseVarint32(a).value;
    assert (a + more)[n..n + len] == a[n..n + len];
  }

  lemma {:induction false} SkipGoesOn(wire: nat, a: Bytes, more: Bytes)
    requires SkipField(wire, a).Some?
    ensures SkipField(wire, a + more) == SkipField(wire, a)
  {
    hide ParseVarint32, SkipVarint;
    if wire == 0 {
      SkipVarintGoesOn(a, more);
    } else if wire == 2 {
      Varint32GoesOn(a, more);
    }
  }

  lemma {:induction false} SkipBoolGoesOn(a: Bytes, more: Bytes)
    requires SkipBool(a).Some?
    ensures SkipBool(a + more) == SkipBool(a)
  {
    hide ParseVarint32;
    Varint32GoesOn(a, more);
  }

  lemma {:induction false} DataGoesOn(t: LType, a: Bytes, more: Bytes)
    requires t.BytesOf? || t.StringOf? || t.FixedBytesOf?
    requires ParseData(t, a).Some?
    ensures ParseData(t, a + more) == ParseData(t, a)
  {
    hide ParseVarint32, HasRoom;
    Varint32GoesOn(a, more);
    var (len, n) := ParseVarint32(a).value;
    assert len <= |a| - n ==> (a + more)[n..n + len] == a[n..n + len];
  }

  lemma {:induction false} ValueGoesOn(t: LType, a: Bytes, more: Bytes, base: Value)
    requires ParseValue(t, a, base).Some?
    ensures ParseValue(t, a + more, base) == ParseValue(t, a, base)
  {
    hide ParseVarint32, ParseVarint, ParseMsg, ParseData, SubString, Signed, UnZigZag;
    match t
    case Bool => Varint32GoesOn(a, more);
    case Fixed32 =>
    case Fixed64 => assert (a + more)[4..] == a[4..] + more;
    case Submessage(_) => SubStringGoesOn(a, more);
    case BytesOf(_) => DataGoesOn(t, a, more);
    case StringOf(_) => DataGoesOn(t, a, more);
    case FixedBytesOf(_) => DataGoesOn(t, a, more);
    case VarintOf(_) => VarintGoesOn(a, more, 10);
    case UVarintOf(_) => VarintGoesOn(a, more, 10);
    case SVarintOf(_) => VarintGoesOn(a, more, 10);
  }

  lemma {:induction false} FieldGoesOn(f: Field, wire: nat, a: Bytes, more: Bytes, s: Slot)
    requires ParseField(f, wire, a, s).Some?
    ensures ParseField(f, wire, a + more, s) == ParseField(f, wire, a, s)
  {
    hide ParseValue, ParseItems, SubString, Base, WithValue;
    if f.htype.Repeated? && s.Items? && wire == 2 && Packable(f.ltype) {
      SubStringGoesOn(a, more);
    } else {
      ValueGoesOn(f.ltype, a, more, Base(f, s));
    }
  }

  // ----- one message behind the other -----

  // A field number zero ends the message before its bytes do.
  predicate EndsEarly(d: Descriptor, b: Bytes, slots: seq<Slot>)
    requires |slots| == |d.fields|
    decreases |b|
  {
    b != [] &&
    match ParseVarint32(b)
    case None => false
    case Some((temp, n)) =>
      temp == 0 ||
      var i := IndexOf(d, temp / 8, 0);
      if i < |d.fields| then
        match ParseField(d.fields[i], temp % 8, b[n..], slots[i])
        case None => false
        case Some((s, m)) => EndsEarly(d, b[n..][m..], Store(d, slots, i, s))
      else
        match (if d.fields == [] && temp / 8 == 0 then SkipBool(b[n..]) else SkipField(temp % 8, b[n..]))
        case None => false
        case Some(m) => EndsEarly(d, b[n..][m..], slots)
  }

  // What was seen before can only help.
  lemma {:induction false} SeenMore(d: Descriptor, b: Bytes, slots: seq<Slot>, seen: set<nat>, more: set<nat>)
    requires |slots| == |d.fields| && seen <= more && ParseMsg(d, b, slots, seen).Some?
    ensures ParseMsg(d, b, slots, more) == ParseMsg(d, b, slots, seen)
    decreases |b|
  {
    hide ParseVarint32, ParseField, SkipField, SkipBool, Store, RequiredBefore;
    if b != [] {
      var (temp, n) := ParseVarint32(b).value;
      if temp != 0 {
        var i := IndexOf(d, temp / 8, 0);
        if i < |d.fields| {
          var (s, m) := ParseField(d.fields[i], temp % 8, b[n..], slots[i]).value;
          SeenMore(d, b[n..][m..], Store(d, slots, i, s), seen + {i}, more + {i});
        } else {
          var m := (if d.fields == [] && temp / 8 == 0 then SkipBool(b[n..]) else SkipField(temp % 8, b[n..])).value;
          SeenMore(d, b[n..][m..], slots, seen, more);
        }
      }
    }
  }

  lemma {:induction false} RestGoesOn(a: Bytes, more: Bytes, n: nat, m: nat)
    requires n <= |a| && m <= |a[n..]|
    ensures (a + more)[n..] == a[n..] + more
    ensures (a[n..] + more)[m..] == a[n..][m..] + more
  {
  }

  /**
   Decoding goes on: the bytes of one message with those of another behind them are decoded
   as the second one over what the first one made of the struct; and a message that ended
   early does not look at them.
   */
  lemma {:induction false} BytesOfBoth(d: Descriptor, a: Bytes, b: Bytes, slots: seq<Slot>, seen: set<nat>)
    requires |slots| == |d.fields| && ParseMsg(d, a, slots, seen).Some?
    ensures var first := ParseMsg(d, a, slots, seen).value;
      if EndsEarly(d, a, slots) then ParseMsg(d, a + b, slots, seen) == Some(first)
      else ParseMsg(d, b, first, seen).Some? ==> ParseMsg(d, a + b, slots, seen) == ParseMsg(d, b, first, seen)
    decreases |a|
  {
    hide ParseVarint32, ParseField, SkipField, SkipBool, Store, Complete;
    if a == [] {
      assert a + b == b;
    } else {
      Varint32GoesOn(a, b);
      var (temp, n) := ParseVarint32(a).value;
      if temp != 0 {
        var first := ParseMsg(d, a, slots, seen).value;
        var i := IndexOf(d, temp / 8, 0);
        if i < |d.fields| {
          var (s, m) := ParseField(d.fields[i], temp % 8, a[n..], slots[i]).value;
          RestGoesOn(a, b, n, m);
          FieldGoesOn(d.fields[i], temp % 8, a[n..], b, slots[i]);
          BytesOfBoth(d, a[n..][m..], b, Store(d, slots, i, s), seen + {i});
          if ParseMsg(d, b, first, seen).Some? {
            SeenMore(d, b, first, seen, seen + {i});
          }
        } else if d.fields == [] && temp / 8 == 0 {
          var m := SkipBool(a[n..]).value;
          RestGoesOn(a, b, n, m);
          SkipBoolGoesOn(a[n..], b);
          BytesOfBoth(d, a[n..][m..], b, slots, seen);
        } else {
          var m := SkipField(temp % 8, a[n..]).value;
          RestGoesOn(a, b, n, m);
          SkipGoesOn(temp % 8, a[n..], b);
          BytesOfBoth(d, a[n..][m..], b, slots, seen);
        }
      }
    }
  }

  // ----- a field that comes again -----

  /**
   Of a field that is no array and no submessage the last value counts: what the struct
   holds does not matter, nor does the wire type.
   */
  lemma {:induction false} LastValueCounts(f: Field, wire: nat, again: nat, b: Bytes, s: Slot, other: Slot)
    requires !f.htype.Repeated? && !f.ltype.Submessage?
    requires (s.Plain? && other.Plain?) || (s.Flagged? && other.Flagged?) || (s.Member? && other.Member?)
    ensures ParseField(f, wire, b, s) == ParseField(f, again, b, other)
  {
    hide ParseVarint32, ParseNumber, ParseData;
  }

  /**
   A submessage that comes again is merged: it is decoded over what the first one made, so
   both together are one whose bytes are those of both.
   */
  lemma {:induction false} SubmessagesMerge(f: Field, first: Bytes, second: Bytes, both: Bytes, wire: nat, s: Slot)
    requires f.ltype.Submessage? && !f.htype.Repeated? && !s.Items?
    requires ParseField(f, wire, first, s).Some?
    requires ParseField(f, wire, second, ParseField(f, wire, first, s).value.0).Some?
    requires SubString(first).Some? && SubString(second).Some? && SubString(both).Some?
    requires SubString(both).value.0 == SubString(first).value.0 + SubString(second).value.0
    requires !EndsEarly(f.ltype.d, SubString(first).value.0, SlotsOf(f.ltype.d, Base(f, s)))
    ensures ParseField(f, wire, both, s).Some?
    ensures ParseField(f, wire, both, s).value.0 == ParseField(f, wire, second, ParseField(f, wire, first, s).value.0).value.0
  {
    hide ParseMsg, SubString, EndsEarly;
    BytesOfBoth(f.ltype.d, SubString(first).value.0, SubString(second).value.0, SlotsOf(f.ltype.d, Base(f, s)), {});
  }

  /**
   A field that does not come keeps what the struct holds, unless another member of its
   union comes.
   */
  lemma {:induction false} AbsentStays(d: Descriptor, b: Bytes, slots: seq<Slot>, seen: set<nat>, i: nat)
    requires |slots| == |d.fields| && ParseMsg(d, b, slots, seen).Some? && i < |d.fields|
    requires forall j :: 0 <= j < |d.fields| && (j == i || SameUnion(d.fields[j], d.fields[i])) ==> !TagIn(b, d.fields[j].tag)
    ensures ParseMsg(d, b, slots, seen).value[i] == slots[i]
    decreases |b|
  {
    hide ParseVarint32, ParseField, SkipField, SkipBool, Complete, TagIn;
    if b != [] {
      var (temp, n) := ParseVarint32(b).value;
      if temp != 0 {
        var k := IndexOf(d, temp / 8, 0);
        if k < |d.fields| {
          var (s, m) := ParseField(d.fields[k], temp % 8, b[n..], slots[k]).value;
          TagHere(b, d.fields[k].tag);
          NoTagFurther(d, b, n, m, i);
          AbsentStays(d, b[n..][m..], Store(d, slots, k, s), seen + {k}, i);
        } else {
          var m := SkipField(temp % 8, b[n..]).value;
          NoTagFurther(d, b, n, m, i);
          AbsentStays(d, b[n..][m..], slots, seen, i);
        }
      }
    }
  }

  lemma {:induction false} NoTagFurther(d: Descriptor, b: Bytes, n: nat, m: nat, i: nat)
    requires i < |d.fields| && n <= |b| && m <= |b[n..]|
    requires forall j :: 0 <= j < |d.fields| && (j == i || SameUnion(d.fields[j], d.fields[i])) ==> !TagIn(b, d.fields[j].tag)
    ensures forall j :: 0 <= j < |d.fields| && (j == i || SameUnion(d.fields[j], d.fields[i])) ==> !TagIn(b[n..][m..], d.fields[j].tag)
  {
    hide TagIn, TagAt;
    assert b[n..][m..] == b[n + m..];
    forall j | 0 <= j < |d.fields| && TagIn(b[n..][m..], d.fields[j].tag)
      ensures TagIn(b, d.fields[j].tag)
    {
      TagFurther(b, n + m, d.fields[j].tag);
    }
  }
}
