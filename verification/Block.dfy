/**
 Blocks of a table (table/block_builder.cc, table/block.cc): keys are stored without the
 prefix they share with the key before, except at restart points.
 */
module Blocks {
  import opened Wrappers
  import opened DbFormat
  import opened Coding

  const LIMIT: nat := 0x1_0000_0000

  // One entry of a block: `shared` bytes of its key are not stored.
  datatype Item = Item(key: Bytes, value: Bytes, shared: nat)

  function ItemBytes(it: Item): (r: Bytes)
    requires it.shared <= |it.key|
    ensures |r| > |it.key| - it.shared + |it.value| + 2
  {
    Varint(it.shared) + Varint(|it.key| - it.shared) + Varint(|it.value|) + it.key[it.shared..] + it.value
  }

  // What is shared is a prefix of the key before.
  predicate Chained(items: seq<Item>) {
    forall i :: 0 <= i < |items| ==>
      && items[i].shared <= |items[i].key|
      && (i == 0 ==> items[i].shared == 0)
      && (i > 0 ==> items[i].shared <= |items[i - 1].key|
                    && items[i].key[..items[i].shared] == items[i - 1].key[..items[i].shared])
  }

  function Join(items: seq<Item>): Bytes
    requires forall it :: it in items ==> it.shared <= |it.key|
  {
    if items == [] then []
    else
      assert items[|items| - 1] in items;
      Join(items[..|items| - 1]) + ItemBytes(items[|items| - 1])
  }

  lemma {:induction false} ChainedSizes(items: seq<Item>)
    requires Chained(items)
    ensures forall it :: it in items ==> it.shared <= |it.key|
    ensures forall i :: 0 <= i <= |items| ==> forall it :: it in items[..i] ==> it.shared <= |it.key|
  {
  }

  function Offset(items: seq<Item>, i: nat): nat
    requires i <= |items| && forall it :: it in items ==> it.shared <= |it.key|
  {
    |Join(items[..i])|
  }

  // Where an item lies in the block.
  lemma {:induction false} ItemPlace(items: seq<Item>, i: nat)
    requires i < |items| && forall it :: it in items ==> it.shared <= |it.key|
    ensures items[i].shared <= |items[i].key|
    ensures Offset(items, i + 1) == Offset(items, i) + |ItemBytes(items[i])| <= |Join(items)|
    ensures Join(items)[Offset(items, i)..Offset(items, i + 1)] == ItemBytes(items[i])
  {
    hide ItemBytes;
    var n := |items| - 1;
    assert items[i] in items;
    if i == n {
      assert items[..i + 1] == items;
      DropPrefix(Join(items[..n]), ItemBytes(items[n]), 0);
    } else {
      ItemPlace(items[..n], i);
      assert items[..n][..i] == items[..i] && items[..n][..i + 1] == items[..i + 1];
      SamePart(Join(items[..n]), ItemBytes(items[n]), Offset(items, i), Offset(items, i + 1));
    }
  }

  lemma {:induction false} SamePart(a: Bytes, b: Bytes, s: nat, n: nat)
    requires s <= n <= |a|
    ensures (a + b)[s..n] == a[s..n]
  {
  }

  lemma {:induction false} OffsetEnds(items: seq<Item>)
    requires forall it :: it in items ==> it.shared <= |it.key|
    ensures Offset(items, 0) == 0 && Offset(items, |items|) == |Join(items)|
  {
    assert items[..0] == [] && items[..|items|] == items;
  }

  lemma {:induction false} OffsetsGrow(items: seq<Item>, i: nat, j: nat)
    requires i <= j <= |items| && forall it :: it in items ==> it.shared <= |it.key|
    ensures Offset(items, i) <= Offset(items, j)
    ensures i < j ==> Offset(items, i) < Offset(items, j)
    decreases j
  {
    if i < j {
      OffsetsGrow(items, i, j - 1);
      ItemPlace(items, j - 1);
    }
  }

  // ----- restart points -----

  // The items whose keys are stored whole, by index, in order.
  predicate RestartsAt(items: seq<Item>, at: seq<nat>) {
    && at != [] && at[0] == 0
    && (forall j, k :: 0 <= j < k < |at| ==> at[j] < at[k])
    && (forall j :: 0 <= j < |at| ==> at[j] <= |items| && (items != [] ==> at[j] < |items| && items[at[j]].shared == 0))
  }

  function RestartOffsets(items: seq<Item>, at: seq<nat>): (r: seq<nat>)
    requires (forall it :: it in items ==> it.shared <= |it.key|) && forall j :: 0 <= j < |at| ==> at[j] <= |items|
    ensures |r| == |at| && forall j :: 0 <= j < |r| ==> r[j] == Offset(items, at[j])
  {
    seq(|at|, j requires 0 <= j < |at| => Offset(items, at[j]))
  }

  function FixedArray(a: seq<nat>): (r: Bytes)
    requires forall j :: 0 <= j < |a| ==> a[j] < LIMIT
    ensures |r| == 4 * |a|
  {
    if a == [] then [] else FixedArray(a[..|a| - 1]) + EncodeFixed32(a[|a| - 1])
  }

  lemma {:induction false} FixedArrayAt(a: seq<nat>, j: nat)
    requires j < |a| && forall j :: 0 <= j < |a| ==> a[j] < LIMIT
    ensures FixedArray(a)[4 * j..4 * j + 4] == EncodeFixed32(a[j])
  {
    var n := |a| - 1;
    if j < n {
      FixedArrayAt(a[..n], j);
      assert FixedArray(a)[4 * j..4 * j + 4] == FixedArray(a[..n])[4 * j..4 * j + 4];
    }
  }

  // ----- how much of a key is shared -----

  // The length of the longest common prefix.
  function CommonPrefix(a: Bytes, b: Bytes): (n: nat)
    ensures n <= |a| && n <= |b| && a[..n] == b[..n]
    ensures n < |a| && n < |b| ==> a[n] != b[n]
  {
    if a == [] || b == [] || a[0] != b[0] then 0
    else
      var n := CommonPrefix(a[1..], b[1..]);
      assert a[..n + 1] == [a[0]] + a[1..][..n] && b[..n + 1] == [b[0]] + b[1..][..n];
      n + 1
  }

  lemma {:induction false} PrefixIsLongest(a: Bytes, b: Bytes, n: nat)
    requires n <= |a| && n <= |b| && a[..n] == b[..n]
    requires n < |a| && n < |b| ==> a[n] != b[n]
    ensures CommonPrefix(a, b) == n
  {
    assert n > 0 ==> a[0] == a[..n][0] && b[0] == b[..n][0];
    if a != [] && b != [] && a[0] == b[0] {
      assert a[1..][..n - 1] == a[..n][1..] && b[1..][..n - 1] == b[..n][1..];
      PrefixIsLongest(a[1..], b[1..], n - 1);
    }
  }

  // The items that start a run among the first `n`: a run ends after `interval` items.
  function Runs(n: nat, interval: nat): (r: seq<nat>)
    ensures r != [] && r[|r| - 1] <= n
  {
    if n == 0 then [0]
    else
      var r := Runs(n - 1, interval);
      if n - 1 - r[|r| - 1] == interval then r + [n - 1] else r
  }

  /** Runs start at every multiple of the interval, and nowhere else. */
  lemma {:induction false} RunsAreMultiples(n: nat, interval: nat)
    requires interval > 0
    ensures var r := Runs(n, interval);
      && (forall j :: 0 <= j < |r| ==> r[j] == j * interval)
      && (n > 0 ==> 0 <= n - 1 - r[|r| - 1] < interval)
      && (n == 0 ==> r == [0])
  {
    if n > 0 {
      RunsAreMultiples(n - 1, interval);
      var r := Runs(n - 1, interval);
      MultipleAfter(|r| - 1, interval);
    }
  }

  lemma {:induction false} MultipleAfter(j: nat, interval: nat)
    ensures (j + 1) * interval == j * interval + interval
  {
  }

  // The first key of a run is stored whole, the others without all that they share.
  function SharedAt(before: Bytes, key: Bytes, interval: nat, i: nat): nat {
    var r := Runs(i, interval);
    if i - r[|r| - 1] == interval then 0 else CommonPrefix(before, key)
  }

  function KeyBefore(items: seq<Item>, i: nat): Bytes
    requires i <= |items|
  {
    if i == 0 then [] else items[i - 1].key
  }

  predicate Compressed(items: seq<Item>, interval: nat) {
    forall i :: 0 <= i < |items| ==> items[i].shared == SharedAt(KeyBefore(items, i), items[i].key, interval, i)
  }

  lemma {:induction false} AsBefore(items: seq<Item>, lastKey: Bytes)
    requires lastKey == if items == [] then [] else items[|items| - 1].key
    ensures KeyBefore(items, |items|) == lastKey
  {
  }

  lemma {:induction false} SameKeyBefore(items: seq<Item>, it: Item, i: nat)
    requires i <= |items|
    ensures KeyBefore(items + [it], i) == KeyBefore(items, i)
    ensures (items + [it])[i] == if i < |items| then items[i] else it
  {
  }

  lemma {:induction false} OneMoreCompressed(items: seq<Item>, it: Item, interval: nat)
    requires Compressed(items, interval) && it.shared == SharedAt(KeyBefore(items, |items|), it.key, interval, |items|)
    ensures Compressed(items + [it], interval)
  {
    hide SharedAt, KeyBefore;
    var more := items + [it];
    forall i | 0 <= i < |more|
      ensures more[i].shared == SharedAt(KeyBefore(more, i), more[i].key, interval, i)
    {
      SameKeyBefore(items, it, i);
    }
  }

  lemma {:induction false} NextInRun(before: Bytes, key: Bytes, interval: nat, i: nat)
    ensures var r := Runs(i, interval);
      if i - r[|r| - 1] == interval
      then SharedAt(before, key, interval, i) == 0 && Runs(i + 1, interval) == r + [i]
      else SharedAt(before, key, interval, i) == CommonPrefix(before, key) && Runs(i + 1, interval) == r
  {
    hide CommonPrefix;
  }

  method SharePrefix(lastKey: Bytes, key: Bytes) returns (shared: nat)
    ensures shared == CommonPrefix(lastKey, key)
  {
    shared := 0;
    var minLength := if |lastKey| < |key| then |lastKey| else |key|;
    while shared < minLength && lastKey[shared] == key[shared]
      invariant shared <= minLength && key[..shared] == lastKey[..shared]
    {
      assert key[..shared + 1] == key[..shared] + [key[shared]];
      assert lastKey[..shared + 1] == lastKey[..shared] + [lastKey[shared]];
      shared := shared + 1;
    }
    PrefixIsLongest(lastKey, key, shared);
  }

  // ----- the builder -----

  class BlockBuilder {
    const interval: nat
    var buffer: Bytes
    var restarts: seq<nat>
    var counter: nat
    var lastKey: Bytes
    var finished: bool
    ghost var items: seq<Item>
    ghost var restartItems: seq<nat>

    ghost predicate Ok()
      reads this
    {
      && Chained(items) && (forall it :: it in items ==> it.shared <= |it.key|)
      && RestartsAt(items, restartItems)
      && restarts == RestartOffsets(items, restartItems)
      && (!finished ==> buffer == Join(items))
      && lastKey == (if items == [] then [] else items[|items| - 1].key)
      && 0 < interval && counter <= interval
      && Spaced(restartItems, |items|, interval)
      && counter == |items| - restartItems[|restartItems| - 1]
      && restartItems == Runs(|items|, interval) && Compressed(items, interval)
    }

    constructor (interval: nat)
      requires interval >= 1
      ensures Ok() && items == [] && !finished && this.interval == interval
    {
      this.interval := interval;
      buffer, restarts, counter, lastKey, finished := [], [0], 0, [], false;
      items, restartItems := [], [0];
    }

    // Add.  The order of the keys is the caller's business; nothing here depends on it.
    method Add(key: Bytes, value: Bytes)
      requires Ok() && !finished
      modifies this
      ensures Ok() && !finished
      ensures |items| == |old(items)| + 1 && old(items) <= items
      ensures items[|items| - 1].key == key && items[|items| - 1].value == value
    {
      hide Join, ItemBytes, Offset, RestartsAt, Spaced, RestartOffsets, Chained, Compressed, SharedAt, Runs,
        CommonPrefix, Varint, KeyBefore;
      AsBefore(items, lastKey);
      var shared := StartEntry(key, value);
      ghost var before := items;
      ghost var it := Item(key, value, shared);
      OneMoreItem(before, it);
      OneMoreCompressed(before, it, interval);
      AppendEntry(key, value, shared);
      lastKey := lastKey[..shared] + key[shared..];
      assert key == key[..shared] + key[shared..];
      counter := counter + 1;
      items := before + [it];
    }

    // The three lengths, the rest of the key and the value.
    method AppendEntry(key: Bytes, value: Bytes, shared: nat)
      requires shared <= |key|
      modifies this`buffer
      ensures buffer == old(buffer) + ItemBytes(Item(key, value, shared))
    {
      hide ItemBytes, Varint;
      ItemBytesOf(Item(key, value, shared));
      var nonShared := |key| - shared;
      var header := Varint(shared) + Varint(nonShared) + Varint(|value|);
      InPieces(buffer, header, key[shared..], value);
      buffer := buffer + header;
      buffer := buffer + key[shared..];
      buffer := buffer + value;
    }

    // How much of the key is shared: nothing at a restart point.
    method StartEntry(key: Bytes, ghost value: Bytes) returns (shared: nat)
      requires Ok() && !finished
      modifies this`restarts, this`restartItems, this`counter
      ensures shared == SharedAt(lastKey, key, interval, |items|)
      ensures shared <= |key| && shared <= |lastKey| && key[..shared] == lastKey[..shared]
      ensures var it := Item(key, value, shared);
        && (forall x :: x in items + [it] ==> x.shared <= |x.key|)
        && restartItems == Runs(|items| + 1, interval)
        && RestartsAt(items + [it], restartItems) && Spaced(restartItems, |items| + 1, interval)
        && restarts == RestartOffsets(items + [it], restartItems)
        && counter < interval && counter == |items| - restartItems[|restartItems| - 1]
    {
      hide Join, ItemBytes, Offset, RestartsAt, RestartOffsets, Chained, Compressed, Runs, SharedAt;
      NextInRun(lastKey, key, interval, |items|);
      shared := 0;
      if counter < interval {
        shared := SharePrefix(lastKey, key);
        RestartsKept(items, Item(key, value, shared), restartItems, interval);
      } else {
        RestartAdded(items, Item(key, value, 0), restartItems, interval);
        restarts := restarts + [|buffer|];
        restartItems := restartItems + [|items|];
        counter := 0;
      }
    }

    // Finish: the restart array and its length follow the entries.
    method Finish() returns (block: Bytes)
      requires Ok() && !finished && Block(items, restartItems).Small()
      modifies this
      ensures items == old(items) && restartItems == old(restartItems)
      ensures block == Block(items, restartItems).Image()
      ensures Block(items, restartItems).Valid()
    {
      hide Join, ItemBytes, Offset, RestartsAt, Spaced, Compressed, Runs, SharedAt, CommonPrefix, Chained;
      ghost var entries := buffer;
      var i := 0;
      while i < |restarts|
        invariant 0 <= i <= |restarts| && unchanged(`restarts) && unchanged(`items) && unchanged(`restartItems)
        invariant forall j :: 0 <= j < |restarts| ==> restarts[j] < LIMIT
        invariant buffer == entries + FixedArray(restarts[..i])
      {
        assert restarts[..i + 1][..i] == restarts[..i];
        buffer := buffer + EncodeFixed32(restarts[i]);
        i := i + 1;
      }
      assert restarts[..i] == restarts;
      buffer := buffer + EncodeFixed32(|restarts|);
      finished := true;
      block := buffer;
    }
  }

  // A finished block, by what it is made of.
  datatype Block = Block(items: seq<Item>, at: seq<nat>)
  {
    ghost predicate Valid() {
      && Chained(items) && (forall it :: it in items ==> it.shared <= |it.key|)
      && RestartsAt(items, at)
      && Small()
    }

    // Sizes fit the 32 bits that the format has for them.
    predicate Small() {
      && (forall it :: it in items ==> it.shared <= |it.key| < LIMIT)
      && (forall j :: 0 <= j < |at| ==> at[j] <= |items| && Offset(items, at[j]) < LIMIT)
      && |Join(items)| + 4 * |at| + 4 < LIMIT
    }

    function Restarts(): (r: seq<nat>)
      requires (forall it :: it in items ==> it.shared <= |it.key|) && forall j :: 0 <= j < |at| ==> at[j] <= |items|
      ensures |r| == |at|
    {
      RestartOffsets(items, at)
    }

    function Image(): Bytes
      requires Small()
    {
      Join(items) + FixedArray(Restarts()) + EncodeFixed32(|at|)
    }
  }

  lemma {:induction false} InPieces(a: Bytes, b: Bytes, c: Bytes, d: Bytes)
    ensures ((a + b) + c) + d == a + (b + c + d)
  {
  }

  lemma {:induction false} OneMoreItem(items: seq<Item>, it: Item)
    requires Chained(items) && it.shared <= |it.key|
    requires if items == [] then it.shared == 0
             else it.shared <= |items[|items| - 1].key| && it.key[..it.shared] == items[|items| - 1].key[..it.shared]
    ensures Chained(items + [it]) && (forall x :: x in items + [it] ==> x.shared <= |x.key|)
    ensures (forall x :: x in items ==> x.shared <= |x.key|)
    ensures Join(items + [it]) == Join(items) + ItemBytes(it)
  {
    hide ItemBytes;
    ChainedSizes(items);
    assert (items + [it])[..|items|] == items;
  }

  lemma {:induction false} ItemBytesOf(it: Item)
    requires it.shared <= |it.key|
    ensures ItemBytes(it) == (Varint(it.shared) + Varint(|it.key| - it.shared) + Varint(|it.value|)) + it.key[it.shared..] + it.value
  {
  }

  lemma {:induction false} SameOffsets(items: seq<Item>, it: Item, i: nat)
    requires (forall x :: x in items ==> x.shared <= |x.key|) && it.shared <= |it.key| && i <= |items|
    ensures forall x :: x in items + [it] ==> x.shared <= |x.key|
    ensures Offset(items + [it], i) == Offset(items, i)
  {
    assert (items + [it])[..i] == items[..i];
  }

  lemma {:induction false} RestartsKept(items: seq<Item>, it: Item, at: seq<nat>, interval: nat)
    requires (forall x :: x in items ==> x.shared <= |x.key|) && it.shared <= |it.key|
    requires RestartsAt(items, at) && Spaced(at, |items|, interval) && |items| < at[|at| - 1] + interval
    requires items == [] ==> it.shared == 0
    ensures (forall x :: x in items + [it] ==> x.shared <= |x.key|) && forall j :: 0 <= j < |at| ==> at[j] <= |items| + 1
    ensures RestartsAt(items + [it], at) && Spaced(at, |items| + 1, interval)
    ensures RestartOffsets(items + [it], at) == RestartOffsets(items, at)
  {
    hide Offset;
    forall j | 0 <= j < |at|
      ensures Offset(items + [it], at[j]) == Offset(items, at[j])
    {
      SameOffsets(items, it, at[j]);
    }
  }

  lemma {:induction false} RestartAdded(items: seq<Item>, it: Item, at: seq<nat>, interval: nat)
    requires (forall x :: x in items ==> x.shared <= |x.key|) && it.shared == 0
    requires RestartsAt(items, at) && Spaced(at, |items|, interval) && |items| == at[|at| - 1] + interval && interval > 0
    ensures (forall x :: x in items + [it] ==> x.shared <= |x.key|) && forall j :: 0 <= j < |at| ==> at[j] <= |items|
    ensures RestartsAt(items + [it], at + [|items|]) && Spaced(at + [|items|], |items| + 1, interval)
    ensures RestartOffsets(items + [it], at + [|items|]) == RestartOffsets(items, at) + [|Join(items)|]
  {
    hide Offset;
    OffsetEnds(items);
    forall j | 0 <= j < |at|
      ensures Offset(items + [it], at[j]) == Offset(items, at[j])
    {
      SameOffsets(items, it, at[j]);
    }
    SameOffsets(items, it, |items|);
    NextMultiple(|at| - 1, interval);
  }

  lemma {:induction false} NextMultiple(n: int, k: int)
    ensures n * k + k == (n + 1) * k
  {
  }

  // No run between restart points is longer than the interval.
  predicate Spaced(at: seq<nat>, n: nat, interval: nat) {
    && at != [] && (forall j :: 0 <= j < |at| ==> at[j] == j * interval)
    && at[|at| - 1] <= n <= at[|at| - 1] + interval
  }

  // ----- reading one entry -----

  datatype Header = Header(shared: Word, nonShared: Word, valueLength: Word, size: nat)

  // The three lengths at the start of the input, if what they announce is there.
  function ParseHeader(b: Bytes): (r: Option<Header>)
    ensures r.Some? ==> r.value.size <= |b|
  {
    if |b| < 3 then None
    else
      match ParseWord(b)
      case None => None
      case Some((shared, n1)) => ParseLengths(b, shared, n1)
  }

  function ParseLengths(b: Bytes, shared: Word, n1: nat): (r: Option<Header>)
    requires n1 <= |b|
    ensures r.Some? ==> r.value.size <= |b|
  {
    match ParseWord(b[n1..])
    case None => None
    case Some((nonShared, n2)) =>
      match ParseWord(b[n1 + n2..])
      case None => None
      case Some((valueLength, n3)) => Announced(b, Header(shared, nonShared, valueLength, n1 + n2 + n3))
  }

  // The sum of the two lengths is taken in 32 bits.
  function Announced(b: Bytes, h: Header): Option<Header>
    requires h.size <= |b|
  {
    if |b| - h.size < (h.nonShared + h.valueLength) % LIMIT then None else Some(h)
  }

  /** DecodeEntry: three single bytes are the usual case. */
  method DecodeEntry(b: Bytes) returns (r: Option<Header>)
    ensures r == ParseHeader(b)
  {
    hide ParseWord, Announced;
    if |b| < 3 {
      return None;
    }
    if b[0] < 128 && b[1] < 128 && b[2] < 128 {
      SingleByte(b);
      SingleByte(b[1..]);
      SingleByte(b[2..]);
      return Announced(b, Header(b[0] as int, b[1] as int, b[2] as int, 3));
    }
    var first := GetVarint32(b);
    if first.None? {
      return None;
    }
    var second := GetVarint32(b[first.value.1..]);
    if second.None? {
      return None;
    }
    var third := GetVarint32(b[first.value.1 + second.value.1..]);
    if third.None? {
      return None;
    }
    return Announced(b, Header(first.value.0, second.value.0, third.value.0, first.value.1 + second.value.1 + third.value.1));
  }

  lemma {:induction false} SingleByte(b: Bytes)
    requires b != [] && b[0] < 128
    ensures ParseWord(b) == Some((b[0] as int, 1))
  {
  }

  lemma {:induction false} HeaderParses(shared: Word, nonShared: Word, valueLength: Word, tail: Bytes)
    requires nonShared + valueLength < LIMIT && nonShared + valueLength <= |tail|
    ensures var v1, v2, v3 := Varint(shared), Varint(nonShared), Varint(valueLength);
      ParseHeader(v1 + v2 + v3 + tail) == Some(Header(shared, nonShared, valueLength, |v1| + |v2| + |v3|))
  {
    hide Varint, ParseWord;
    var v1, v2, v3 := Varint(shared), Varint(nonShared), Varint(valueLength);
    var b2 := v3 + tail;
    var b1 := v2 + b2;
    var b := v1 + b1;
    assert v1 + v2 + v3 + tail == b;
    WordRoundTrip(shared, b1);
    WordRoundTrip(nonShared, b2);
    WordRoundTrip(valueLength, tail);
    DropPrefix(v1, b1, |v2|);
    DropPrefix(v1, b1, 0);
    DropPrefix(v2, b2, 0);
  }

  lemma {:induction false} DropPrefix(a: Bytes, b: Bytes, n: nat)
    requires n <= |b|
    ensures (a + b)[|a| + n..] == b[n..]
    ensures b[0..] == b
  {
  }

  // What a stored entry decodes to.
  lemma {:induction false} ItemDecodes(it: Item, rest: Bytes)
    requires it.shared <= |it.key| < LIMIT && |ItemBytes(it)| < LIMIT
    ensures var r := ParseHeader(ItemBytes(it) + rest);
      && r.Some? && r.value.shared == it.shared && r.value.nonShared == |it.key| - it.shared && r.value.valueLength == |it.value|
      && r.value.size + r.value.nonShared + r.value.valueLength == |ItemBytes(it)|
      && ItemBytes(it)[r.value.size..r.value.size + r.value.nonShared] == it.key[it.shared..]
      && ItemBytes(it)[r.value.size + r.value.nonShared..] == it.value
  {
    hide Varint, ParseHeader;
    var n1, n2 := |it.key| - it.shared, |it.value|;
    var head := Varint(it.shared) + Varint(n1) + Varint(n2);
    var delta := it.key[it.shared..];
    HeaderParses(it.shared, n1, n2, delta + it.value + rest);
    assert ItemBytes(it) == head + (delta + it.value);
    assert ItemBytes(it) + rest == head + (delta + it.value + rest);
    assert ItemBytes(it)[|head|..|head| + n1] == delta;
    assert ItemBytes(it)[|head| + n1..] == it.value;
  }

  // ----- the iterator over a block -----

  class BlockIter {
    // The comparator: whether the first key is before the second.
    const less: (Bytes, Bytes) -> bool
    const data: Bytes
    const restarts: nat
    const numRestarts: nat
    ghost const block: Block
    var current: nat
    var restartIndex: nat
    var key: Bytes
    var valueAt: nat
    var valueLength: nat

    ghost predicate Fits() {
      && block.Valid() && data == block.Image()
      && restarts == |Join(block.items)| && numRestarts == |block.at|
    }

    predicate Valid()
      reads this
    {
      current < restarts
    }

    function NextEntryOffset(): nat
      reads this
    {
      valueAt + valueLength
    }

    // The iterator shows entry `j`.
    ghost predicate Shows(j: nat)
      reads this
    {
      && Fits() && j < |block.items|
      && current == Offset(block.items, j) && key == block.items[j].key
      && NextEntryOffset() == Offset(block.items, j + 1) <= |data| && data[valueAt..NextEntryOffset()] == block.items[j].value
      && restartIndex < numRestarts && block.at[restartIndex] <= j
      && (restartIndex + 1 < numRestarts ==> j <= block.at[restartIndex + 1])
    }

    // The next entry to be parsed is `j`.
    ghost predicate ReadyFor(j: nat)
      reads this
    {
      && Fits() && j <= |block.items|
      && NextEntryOffset() == Offset(block.items, j)
      && restartIndex < numRestarts && block.at[restartIndex] <= j
      && (j < |block.items| ==>
            var it := block.items[j];
            it.shared <= |key| && it.shared <= |it.key| && key[..it.shared] == it.key[..it.shared])
    }

    ghost predicate AtEnd()
      reads this
    {
      Fits() && current == restarts
    }

    // Block::Block and NewIterator: the number of restarts is in the last four bytes.
    constructor (less: (Bytes, Bytes) -> bool, contents: Bytes, ghost block: Block)
      requires block.Valid() && contents == block.Image()
      ensures AtEnd() && this.block == block && this.less == less && this.data == contents
    {
      LastWord(block);
      var n := DecodeFixed32(contents[|contents| - 4..]);
      this.less, this.data, this.block := less, contents, block;
      restarts := |contents| - (1 + n) * 4;
      numRestarts := n;
      current := |contents| - (1 + n) * 4;
      restartIndex := n;
      key, valueAt, valueLength := [], 0, 0;
    }

    method GetRestartPoint(index: nat) returns (r: nat)
      requires Fits() && index < numRestarts
      ensures index < |block.at| && block.at[index] <= |block.items| && r == Offset(block.items, block.at[index])
    {
      RestartStored(block, index);
      r := DecodeFixed32(data[restarts + index * 4..restarts + index * 4 + 4]);
    }

    method SeekToRestartPoint(index: nat)
      requires Fits() && index < numRestarts
      modifies this`key, this`restartIndex, this`valueAt, this`valueLength
      ensures index < |block.at| && ReadyFor(block.at[index]) && restartIndex == index
    {
      hide Join, ItemBytes, Offset;
      key := [];
      restartIndex := index;
      var offset := GetRestartPoint(index);
      RestartIsWhole(block, index);
      valueAt, valueLength := offset, 0;
    }

    method ParseNextKey(ghost j: nat) returns (ok: bool)
      requires ReadyFor(j)
      modifies this`current, this`restartIndex, this`key, this`valueAt, this`valueLength
      ensures ok <==> j < |block.items|
      ensures ok ==> Shows(j)
      ensures !ok ==> AtEnd()
    {
      hide Join, ItemBytes, Offset, Block.Valid, Block.Image, ParseHeader;
      BlockFacts(block);
      current := NextEntryOffset();
      EndOffset(block, j);
      if current >= restarts {
        current := restarts;
        restartIndex := numRestarts;
        return false;
      }
      ItemHere(block, j);
      var header := DecodeEntry(data[current..restarts]);
      // The source's corruption error; a block from the builder does not get there.
      assert header.Some? && header.value.shared <= |key|;
      var h := header.value;
      key := key[..h.shared] + data[current + h.size..current + h.size + h.nonShared];
      assert key == block.items[j].key by {
        assert block.items[j].key == block.items[j].key[..h.shared] + block.items[j].key[h.shared..];
      }
      valueAt, valueLength := current + h.size + h.nonShared, h.valueLength;
      while restartIndex + 1 < numRestarts
        invariant restartIndex < numRestarts && block.at[restartIndex] <= j
        decreases numRestarts - restartIndex
        modifies this`restartIndex
      {
        var next := GetRestartPoint(restartIndex + 1);
        OrderOfOffsets(block, block.at[restartIndex + 1], j);
        if next >= current {
          break;
        }
        restartIndex := restartIndex + 1;
      }
      return true;
    }

    method Next(ghost j: nat) returns (ghost ok: bool)
      requires Shows(j)
      modifies this`current, this`restartIndex, this`key, this`valueAt, this`valueLength
      ensures ok <==> j + 1 < |block.items|
      ensures ok ==> Shows(j + 1)
      ensures !ok ==> AtEnd()
    {
      NextIsReady(block, j);
      var more := ParseNextKey(j + 1);
      ok := more;
    }

    /** Prev undoes Next: it parses from a restart point up to the entry before. */
    method Prev(ghost j: nat)
      requires Shows(j)
      modifies this`current, this`restartIndex, this`key, this`valueAt, this`valueLength
      ensures j == 0 ==> AtEnd()
      ensures j > 0 ==> Shows(j - 1)
    {
      hide Join, ItemBytes, Offset, Block.Valid, Block.Image;
      BlockFacts(block);
      var original := current;
      while true
        invariant restartIndex < numRestarts && block.at[restartIndex] <= j
        decreases restartIndex
        modifies this`current, this`restartIndex
        invariant current == original
      {
        var point := GetRestartPoint(restartIndex);
        OrderOfOffsets(block, block.at[restartIndex], j);
        if point < original {
          break;
        }
        if restartIndex == 0 {
          current := restarts;
          restartIndex := numRestarts;
          return;
        }
        restartIndex := restartIndex - 1;
        RestartOrder(block, restartIndex);
      }
      SeekToRestartPoint(restartIndex);
      ghost var i := block.at[restartIndex];
      while true
        invariant i < j && ReadyFor(i)
        decreases j - i
      {
        var ok := ParseNextKey(i);
        OrderOfOffsets(block, i + 1, j);
        if !ok || NextEntryOffset() >= original {
          break;
        }
        NextIsReady(block, i);
        i := i + 1;
      }
    }

    method SeekToFirst()
      requires Fits()
      modifies this`current, this`restartIndex, this`key, this`valueAt, this`valueLength
      ensures block.items != [] ==> Shows(0)
      ensures block.items == [] ==> AtEnd()
    {
      BlockFacts(block);
      SeekToRestartPoint(0);
      var ok := ParseNextKey(0);
    }

    method SeekToLast()
      requires Fits()
      modifies this`current, this`restartIndex, this`key, this`valueAt, this`valueLength
      ensures block.items != [] ==> Shows(|block.items| - 1)
      ensures block.items == [] ==> AtEnd()
    {
      hide Join, ItemBytes, Offset, Block.Valid, Block.Image;
      BlockFacts(block);
      LastRestart(block);
      SeekToRestartPoint(numRestarts - 1);
      ghost var i := block.at[numRestarts - 1];
      while true
        invariant ReadyFor(i) && (i < |block.items| || block.items == [])
        decreases |block.items| - i
      {
        var ok := ParseNextKey(i);
        if !ok {
          break;
        }
        EndOffset(block, i + 1);
        if NextEntryOffset() >= restarts {
          break;
        }
        NextIsReady(block, i);
        i := i + 1;
      }
    }

    // No key before the target comes behind one that is not.
    ghost predicate InOrder(target: Bytes) {
      forall i, j :: 0 <= i < j < |block.items| && less(block.items[j].key, target) ==> less(block.items[i].key, target)
    }

    /** Seek lands on the first entry whose key is at or after the target. */
    method Seek(target: Bytes) returns (ghost j: nat)
      requires Fits() && InOrder(target)
      modifies this`current, this`restartIndex, this`key, this`valueAt, this`valueLength
      ensures j <= |block.items| && (if j < |block.items| then Shows(j) else AtEnd())
      ensures forall i :: 0 <= i < j ==> less(block.items[i].key, target)
      ensures j < |block.items| ==> !less(block.items[j].key, target)
    {
      hide Join, ItemBytes, Offset, Block.Valid, Block.Image, ParseHeader;
      BlockFacts(block);
      var left: nat, right: nat := 0, numRestarts - 1;
      while left < right
        invariant left <= right < numRestarts
        invariant left > 0 ==> block.at[left] < |block.items| && less(block.items[block.at[left]].key, target)
      {
        var mid := (left + right + 1) / 2;
        var regionOffset := GetRestartPoint(mid);
        RestartIsWhole(block, mid);
        RestartInside(block, mid);
        ItemHere(block, block.at[mid]);
        var header := DecodeEntry(data[regionOffset..restarts]);
        assert header.Some? && header.value.shared == 0;
        var keyPtr := regionOffset + header.value.size;
        var midKey := data[keyPtr..keyPtr + header.value.nonShared];
        assert midKey == block.items[block.at[mid]].key;
        if less(midKey, target) {
          left := mid;
        } else {
          right := mid - 1;
        }
      }
      SeekToRestartPoint(left);
      j := block.at[left];
      while true
        invariant ReadyFor(j)
        invariant forall i :: 0 <= i < j ==> less(block.items[i].key, target)
        decreases |block.items| - j
      {
        var ok := ParseNextKey(j);
        if !ok {
          return;
        }
        if !less(key, target) {
          return;
        }
        NextIsReady(block, j);
        j := j + 1;
      }
    }
  }

  // Behind an entry, its key is what the next one shares a prefix with.
  lemma {:induction false} NextIsReady(b: Block, j: nat)
    requires b.Valid() && j < |b.items|
    ensures j + 1 < |b.items| ==>
              var it, key := b.items[j + 1], b.items[j].key;
              it.shared <= |key| && it.shared <= |it.key| && key[..it.shared] == it.key[..it.shared]
  {
  }

  lemma {:induction false} RestartOrder(b: Block, k: nat)
    requires b.Valid() && k + 1 < |b.at|
    ensures b.at[k] < b.at[k + 1]
  {
  }

  lemma {:induction false} LastRestart(b: Block)
    requires b.Valid()
    ensures |b.at| > 0 && (b.at[|b.at| - 1] < |b.items| || b.items == [])
  {
  }

  lemma {:induction false} RestartInside(b: Block, k: nat)
    requires b.Valid() && 0 < k < |b.at|
    ensures b.at[k] < |b.items|
  {
    assert b.at[0] < b.at[k];
  }

  lemma {:induction false} BlockFacts(b: Block)
    requires b.Valid()
    ensures (forall it :: it in b.items ==> it.shared <= |it.key|)
    ensures |b.at| > 0 && b.at[0] == 0 && forall j :: 0 <= j < |b.at| ==> b.at[j] <= |b.items|
  {
  }

  lemma {:induction false} LastWord(b: Block)
    requires b.Valid()
    ensures |b.Image()| == |Join(b.items)| + 4 * |b.at| + 4
    ensures DecodeFixed32(b.Image()[|b.Image()| - 4..]) == |b.at|
  {
    hide Join, FixedArray;
    var image := b.Image();
    FixedRoundTrip(|b.at|, []);
    assert image[|image| - 4..] == EncodeFixed32(|b.at|);
  }

  lemma {:induction false} RestartStored(b: Block, index: nat)
    requires b.Valid() && index < |b.at|
    ensures b.at[index] <= |b.items| && |Join(b.items)| + index * 4 + 4 <= |b.Image()|
    ensures DecodeFixed32(b.Image()[|Join(b.items)| + index * 4..|Join(b.items)| + index * 4 + 4]) == Offset(b.items, b.at[index])
  {
    hide Join, FixedArray, Offset;
    var a := b.Restarts();
    FixedArrayAt(a, index);
    FixedRoundTrip(a[index], []);
    var s := |Join(b.items)| + index * 4;
    assert b.Image()[s..s + 4] == FixedArray(a)[4 * index..4 * index + 4];
  }

  lemma {:induction false} RestartIsWhole(b: Block, index: nat)
    requires b.Valid() && index < |b.at|
    ensures b.at[index] < |b.items| ==> b.items[b.at[index]].shared == 0
  {
  }

  lemma {:induction false} EndOffset(b: Block, j: nat)
    requires b.Valid() && j <= |b.items|
    ensures (forall it :: it in b.items ==> it.shared <= |it.key|)
    ensures Offset(b.items, j) <= |Join(b.items)|
    ensures j < |b.items| <==> Offset(b.items, j) < |Join(b.items)|
  {
    hide Join, Offset;
    OffsetEnds(b.items);
    OffsetsGrow(b.items, j, |b.items|);
  }

  lemma {:induction false} OrderOfOffsets(b: Block, i: nat, j: nat)
    requires b.Valid() && i <= |b.items| && j <= |b.items|
    ensures (forall it :: it in b.items ==> it.shared <= |it.key|)
    ensures Offset(b.items, i) < Offset(b.items, j) <==> i < j
  {
    hide Join, Offset;
    if i <= j {
      OffsetsGrow(b.items, i, j);
    } else {
      OffsetsGrow(b.items, j, i);
    }
  }

  // Decoding where an item starts gives the item.
  lemma {:induction false} ItemHere(b: Block, j: nat)
    requires b.Valid() && j < |b.items|
    ensures (forall it :: it in b.items ==> it.shared <= |it.key|)
    ensures var it, s, e := b.items[j], Offset(b.items, j), |Join(b.items)|;
      && s <= e <= |b.Image()|
      && var r := ParseHeader(b.Image()[s..e]);
         && r.Some? && r.value.shared == it.shared <= |it.key| && r.value.nonShared == |it.key| - it.shared
         && r.value.valueLength == |it.value|
         && s + r.value.size + r.value.nonShared + r.value.valueLength == Offset(b.items, j + 1) <= e
         && b.Image()[s + r.value.size..s + r.value.size + r.value.nonShared] == it.key[it.shared..]
         && b.Image()[s + r.value.size + r.value.nonShared..Offset(b.items, j + 1)] == it.value
  {
    hide ItemBytes, Join, Offset, FixedArray, ParseHeader;
    var it, s, e := b.items[j], Offset(b.items, j), |Join(b.items)|;
    assert it in b.items;
    ItemPlace(b.items, j);
    EndOffset(b, j + 1);
    var n := Offset(b.items, j + 1);
    var all, bytes := Join(b.items), ItemBytes(it);
    assert b.Image()[s..e] == all[s..e];
    assert all[s..e] == all[s..n] + all[n..e];
    ItemDecodes(it, all[n..e]);
    var h := ParseHeader(bytes + all[n..e]).value;
    SliceInside(b.Image(), all, s, n, h.size, h.size + h.nonShared);
    SliceInside(b.Image(), all, s, n, h.size + h.nonShared, n - s);
  }

  lemma {:induction false} SliceInside(whole: Bytes, part: Bytes, s: nat, n: nat, a: nat, c: nat)
    requires part <= whole && s <= n <= |part| && a <= c <= n - s
    ensures whole[s + a..s + c] == part[s..n][a..c]
    ensures c == n - s ==> part[s..n][a..c] == part[s..n][a..]
  {
    var mid := part[s..n];
    assert mid == whole[s..n];
    SliceOfSlice(whole, s, n, a, c);
  }

  lemma {:induction false} SliceOfSlice(whole: Bytes, s: nat, n: nat, a: nat, c: nat)
    requires s <= n <= |whole| && a <= c <= n - s
    ensures whole[s..n][a..c] == whole[s + a..s + c]
  {
    var x, y := whole[s..n][a..c], whole[s + a..s + c];
    assert |x| == |y| == c - a;
    forall i | 0 <= i < |x|
      ensures x[i] == y[i]
    {
      assert x[i] == whole[s..n][a + i] == whole[s + (a + i)];
      assert y[i] == whole[(s + a) + i];
    }
  }
}
