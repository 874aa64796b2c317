/**
 Tables on bytes: the blocks and the filter that the tables of the store really use
 (table/block_builder.cc, table/block.cc, util/bloom.cc) put in the place of the codec and
 the policy that the table code leaves open.  A table is built from its entries
 (db/builder.cc: BuildTable) and asked for a key (db/table_cache.cc: TableCache::Get, without
 the cache), and nothing but the bytes of the file goes from one to the other.
 */
module TableFormat {
  import opened Wrappers
  import opened DbFormat
  import opened Coding
  import opened Comparators
  import B = Blocks
  import T = Tables
  import F = FilterBlocks
  import P = Bloom
  import opened Footers
  import L = Lookup
  import opened TwoLevel

  type KeyValue = (Bytes, Bytes)

  // ----- the block of a list of keys and values -----

  function KeyAhead(s: seq<KeyValue>, i: nat): Bytes
    requires i <= |s|
  {
    if i == 0 then [] else s[i - 1].0
  }

  function ItemsFor(s: seq<KeyValue>, interval: nat): (r: seq<B.Item>)
    ensures |r| == |s|
    ensures forall i :: 0 <= i < |s| ==> r[i].key == s[i].0 && r[i].value == s[i].1
    ensures forall i :: 0 <= i < |s| ==> r[i].shared == B.SharedAt(KeyAhead(s, i), s[i].0, interval, i)
  {
    seq(|s|, i requires 0 <= i < |s| => B.Item(s[i].0, s[i].1, B.SharedAt(KeyAhead(s, i), s[i].0, interval, i)))
  }

  function BlockFor(s: seq<KeyValue>, interval: nat): B.Block {
    B.Block(ItemsFor(s, interval), B.Runs(|s|, interval))
  }

  function KeyValues(items: seq<B.Item>): (r: seq<KeyValue>)
    ensures |r| == |items| && forall i :: 0 <= i < |r| ==> r[i] == (items[i].key, items[i].value)
  {
    seq(|items|, i requires 0 <= i < |items| => (items[i].key, items[i].value))
  }

  /** What the builder makes is determined by the keys and values that it was given. */
  lemma {:induction false} BuilderMakesThis(b: B.BlockBuilder)
    requires b.Ok()
    ensures B.Block(b.items, b.restartItems) == BlockFor(KeyValues(b.items), b.interval)
  {
    hide B.Join, B.Offset, B.Chained, B.RestartsAt, B.RestartOffsets, B.Spaced, B.SharedAt, B.Runs;
    var s := KeyValues(b.items);
    var items := ItemsFor(s, b.interval);
    forall i | 0 <= i < |items|
      ensures items[i] == b.items[i]
    {
      assert KeyAhead(s, i) == B.KeyBefore(b.items, i);
    }
  }

  // Runs start at zero, in order, and before the end.
  lemma {:induction false} RunsInOrder(n: nat, interval: nat)
    requires interval > 0
    ensures var r := B.Runs(n, interval);
      && r[0] == 0
      && (forall j :: 0 <= j < |r| ==> r[j] <= n && (n > 0 ==> r[j] < n))
      && (forall j, k :: 0 <= j < k < |r| ==> r[j] < r[k])
  {
    if n > 0 {
      RunsInOrder(n - 1, interval);
    }
  }

  lemma {:induction false} RunsStart(n: nat, interval: nat, j: nat)
    requires j < |B.Runs(n, interval)| && B.Runs(n, interval)[j] > 0
    ensures StartsRun(B.Runs(n, interval)[j], interval)
  {
    if n > 0 && j < |B.Runs(n - 1, interval)| {
      RunsStart(n - 1, interval, j);
    }
  }

  ghost predicate StartsRun(i: nat, interval: nat) {
    var r := B.Runs(i, interval);
    i - r[|r| - 1] == interval
  }

  lemma {:induction false} SharedAtStart(before: Bytes, key: Bytes, interval: nat, i: nat)
    requires interval > 0 && (i == 0 ==> before == [])
    ensures B.SharedAt(before, key, interval, i) <= |key| && B.SharedAt(before, key, interval, i) <= |before|
    ensures var n := B.SharedAt(before, key, interval, i); before[..n] == key[..n]
    ensures i == 0 || StartsRun(i, interval) ==> B.SharedAt(before, key, interval, i) == 0
  {
  }

  // What the item shares is a prefix of the key before.
  predicate LinkedTo(before: Bytes, it: B.Item) {
    it.shared <= |it.key| && it.shared <= |before| && it.key[..it.shared] == before[..it.shared]
  }

  lemma {:induction false} ItemIsLinked(s: seq<KeyValue>, interval: nat, i: nat)
    requires interval > 0 && i < |s|
    ensures LinkedTo(KeyAhead(s, i), ItemsFor(s, interval)[i])
  {
    hide B.SharedAt;
    SharedAtStart(KeyAhead(s, i), s[i].0, interval, i);
  }

  lemma {:induction false} LinksMakeAChain(items: seq<B.Item>)
    requires forall i :: 0 <= i < |items| ==> LinkedTo(B.KeyBefore(items, i), items[i])
    ensures B.Chained(items) && forall it :: it in items ==> it.shared <= |it.key|
  {
    forall i | 0 <= i < |items|
      ensures items[i].shared <= |items[i].key| && (i == 0 ==> items[i].shared == 0)
      ensures i > 0 ==> items[i].shared <= |items[i - 1].key|
                        && items[i].key[..items[i].shared] == items[i - 1].key[..items[i].shared]
    {
      assert LinkedTo(B.KeyBefore(items, i), items[i]);
    }
  }

  lemma {:induction false} ItemsAreChained(s: seq<KeyValue>, interval: nat)
    requires interval > 0
    ensures B.Chained(ItemsFor(s, interval))
    ensures forall it :: it in ItemsFor(s, interval) ==> it.shared <= |it.key|
  {
    hide B.SharedAt, LinkedTo, B.Chained;
    var items := ItemsFor(s, interval);
    forall i | 0 <= i < |items|
      ensures LinkedTo(B.KeyBefore(items, i), items[i])
    {
      ItemIsLinked(s, interval, i);
      assert B.KeyBefore(items, i) == KeyAhead(s, i);
    }
    LinksMakeAChain(items);
  }

  lemma {:induction false} RunsAreRestarts(s: seq<KeyValue>, interval: nat)
    requires interval > 0
    ensures B.RestartsAt(ItemsFor(s, interval), B.Runs(|s|, interval))
  {
    hide B.SharedAt, B.Runs, StartsRun;
    var items, at := ItemsFor(s, interval), B.Runs(|s|, interval);
    RunsInOrder(|s|, interval);
    forall j | 0 <= j < |at|
      ensures at[j] <= |items| && (items != [] ==> at[j] < |items| && items[at[j]].shared == 0)
    {
      if at[j] > 0 {
        RunsStart(|s|, interval, j);
      }
      if items != [] {
        SharedAtStart(KeyAhead(s, at[j]), s[at[j]].0, interval, at[j]);
      }
    }
  }

  lemma {:induction false} BlockForIsValid(s: seq<KeyValue>, interval: nat)
    requires interval > 0 && BlockFor(s, interval).Small()
    ensures BlockFor(s, interval).Valid()
  {
    hide B.Runs, B.Chained, B.RestartsAt;
    ItemsAreChained(s, interval);
    RunsAreRestarts(s, interval);
  }

  // ----- reading a block as a whole -----

  // The entries from a position on, after an entry with the given key.
  function ParseEntries(data: Bytes, pos: nat, end: nat, before: Bytes): Option<seq<KeyValue>>
    requires pos <= end <= |data|
    decreases end - pos
  {
    if pos == end then Some([])
    else
      match B.ParseHeader(data[pos..end])
      case None => None
      case Some(h) =>
        var start := pos + h.size;
        var limit := start + h.nonShared + h.valueLength;
        if h.shared > |before| || limit > end || limit <= pos then None
        else
          var key := before[..h.shared] + data[start..start + h.nonShared];
          match ParseEntries(data, limit, end, key)
          case None => None
          case Some(rest) => Some([(key, data[start + h.nonShared..limit])] + rest)
  }

  // The number of restart points is in the last four bytes.
  function ParseBlock(data: Bytes): Option<seq<KeyValue>> {
    if |data| < 4 then None
    else
      var trailer := (1 + DecodeFixed32(data[|data| - 4..])) * 4;
      if trailer > |data| then None else ParseEntries(data, 0, |data| - trailer, [])
  }

  lemma {:induction false} EntriesAreThere(b: B.Block, j: nat)
    requires b.Valid() && j <= |b.items|
    ensures (forall it :: it in b.items ==> it.shared <= |it.key|)
    ensures B.Offset(b.items, j) <= |B.Join(b.items)| <= |b.Image()|
    ensures ParseEntries(b.Image(), B.Offset(b.items, j), |B.Join(b.items)|, B.KeyBefore(b.items, j)) == Some(KeyValues(b.items)[j..])
    decreases |b.items| - j
  {
    hide B.Join, B.Offset, B.Block.Image, B.ParseHeader, B.RestartsAt, B.Block.Small;
    B.BlockFacts(b);
    B.EndOffset(b, j);
    B.LastWord(b);
    var s := KeyValues(b.items);
    if j < |b.items| {
      var it, before := b.items[j], B.KeyBefore(b.items, j);
      B.ItemHere(b, j);
      B.OrderOfOffsets(b, j, j + 1);
      EntriesAreThere(b, j + 1);
      assert before[..it.shared] + it.key[it.shared..] == it.key by {
        assert before[..it.shared] == it.key[..it.shared];
      }
      assert s[j..] == [s[j]] + s[j + 1..];
    } else {
      assert s[j..] == [];
    }
  }

  /** A block is read back to the keys and values that it was built from. */
  lemma {:induction false} BlockReadsBack(s: seq<KeyValue>, interval: nat)
    requires interval > 0 && BlockFor(s, interval).Small()
    ensures ParseBlock(BlockFor(s, interval).Image()) == Some(s)
  {
    hide B.Join, B.Offset, B.Block.Image, B.RestartsAt, B.Block.Small, ParseEntries;
    var b := BlockFor(s, interval);
    BlockForIsValid(s, interval);
    B.BlockFacts(b);
    B.LastWord(b);
    B.OffsetEnds(b.items);
    EntriesAreThere(b, 0);
    assert KeyValues(b.items)[0..] == s;
  }

  // ----- internal keys as bytes -----

  function Unpack(b: Bytes): Option<RawKey> {
    if |b| < 8 then None
    else
      var n := |b| - 8;
      var tag := DecodeFixed32(b[n..n + 4]) + 0x1_0000_0000 * DecodeFixed32(b[n + 4..]);
      if tag % 256 > 1 then None
      else Some(RawKey(b[..n], tag / 256, if tag % 256 == 1 then Value else Deletion))
  }

  lemma {:induction false} UnpackPacked(k: RawKey)
    ensures Unpack(T.Pack(k)) == Some(k)
  {
    hide DecodeFixed32, EncodeFixed32;
    var tag := Tag(KeyOf(k));
    var low, high := tag % 0x1_0000_0000, tag / 0x1_0000_0000;
    var b, n := T.Pack(k), |k.user|;
    FixedRoundTrip(low, []);
    FixedRoundTrip(high, []);
    assert b[..n] == k.user && b[n..n + 4] == EncodeFixed32(low) && b[n + 4..] == EncodeFixed32(high);
    assert tag == low + 0x1_0000_0000 * high;
    TagParts(k);
  }

  lemma {:induction false} TagParts(k: RawKey)
    ensures var tag := Tag(KeyOf(k)); tag / 256 == k.sequence && tag % 256 == (if k.kind.Value? then 1 else 0)
  {
  }

  function Packed(pairs: seq<T.Pair>): (r: seq<KeyValue>)
    ensures |r| == |pairs| && forall i :: 0 <= i < |r| ==> r[i] == (T.Pack(pairs[i].key), pairs[i].value)
  {
    seq(|pairs|, i requires 0 <= i < |pairs| => (T.Pack(pairs[i].key), pairs[i].value))
  }

  function Unpacked(s: seq<KeyValue>): Option<seq<T.Pair>>
    decreases |s|
  {
    if s == [] then Some([])
    else
      match Unpack(s[0].0)
      case None => None
      case Some(key) =>
        match Unpacked(s[1..])
        case None => None
        case Some(rest) => Some([T.Pair(key, s[0].1)] + rest)
  }

  lemma {:induction false} UnpackAll(pairs: seq<T.Pair>)
    ensures Unpacked(Packed(pairs)) == Some(pairs)
    decreases |pairs|
  {
    hide Unpack, T.Pack;
    if pairs != [] {
      UnpackPacked(pairs[0].key);
      UnpackAll(pairs[1..]);
      assert Packed(pairs)[1..] == Packed(pairs[1..]);
      assert pairs == [T.Pair(pairs[0].key, pairs[0].value)] + pairs[1..];
    }
  }

  // ----- the codec -----

  // Index blocks store every key whole.
  const INDEX_INTERVAL: nat := 1

  function BlockImage(pairs: seq<T.Pair>, interval: nat): Bytes {
    var b := BlockFor(Packed(pairs), interval);
    if b.Small() then b.Image() else []
  }

  function ParsePairs(data: Bytes): Option<seq<T.Pair>> {
    match ParseBlock(data)
    case None => None
    case Some(s) => Unpacked(s)
  }

  // BlockBuilder::CurrentSizeEstimate.
  function SizeSoFar(pairs: seq<T.Pair>, interval: nat): nat
    requires interval > 0
  {
    ItemsAreChained(Packed(pairs), interval);
    var b := BlockFor(Packed(pairs), interval);
    |B.Join(b.items)| + 4 * |b.at| + 4
  }

  function MetaImage(meta: seq<KeyValue>, interval: nat): Bytes {
    var b := BlockFor(meta, interval);
    if b.Small() then b.Image() else []
  }

  function BlockCodec(interval: nat, checksum: Bytes -> Word): T.Codec
    requires interval > 0
  {
    T.Codec(pairs => BlockImage(pairs, interval), pairs => BlockImage(pairs, INDEX_INTERVAL), meta => MetaImage(meta, interval),
            pairs => SizeSoFar(pairs, interval), data => ParsePairs(data), data => ParseBlock(data), checksum)
  }

  predicate FitsInBlock(pairs: seq<T.Pair>, interval: nat) {
    BlockFor(Packed(pairs), interval).Small()
  }

  lemma {:induction false} PairsReadBack(pairs: seq<T.Pair>, interval: nat)
    requires interval > 0 && FitsInBlock(pairs, interval)
    ensures ParsePairs(BlockImage(pairs, interval)) == Some(pairs)
  {
    hide ParseBlock, B.Block.Image, B.Block.Small;
    BlockReadsBack(Packed(pairs), interval);
    UnpackAll(pairs);
  }

  // ----- the policy -----

  function FromBits(bits: seq<bv8>): (r: Bytes)
    ensures |r| == |bits|
  {
    seq(|bits|, i requires 0 <= i < |bits| => bits[i] as byte)
  }

  function ToBits(b: Bytes): (r: seq<bv8>)
    ensures |r| == |b|
  {
    seq(|b|, i requires 0 <= i < |b| => b[i] as bv8)
  }

  lemma {:induction false} BitsAndBack(bits: seq<bv8>)
    ensures ToBits(FromBits(bits)) == bits
  {
  }

  function BloomPolicy(hash: Bytes -> P.Word, bitsPerKey: nat, k: nat): F.Policy
    requires k <= 30
  {
    F.Policy((keys: seq<Bytes>) => FromBits(P.FilterFor(hash, bitsPerKey, k, keys)),
             (key: Bytes, filter: Bytes) => P.Passes(hash, key, ToBits(filter)))
  }

  lemma {:induction false} BloomIsSound(hash: Bytes -> P.Word, bitsPerKey: nat, k: nat)
    requires k <= 30
    ensures BloomPolicy(hash, bitsPerKey, k).Sound()
  {
    hide P.Passes, P.FilterFor;
    forall keys: seq<Bytes>, key | key in keys
      ensures BloomPolicy(hash, bitsPerKey, k).mayMatch(key, BloomPolicy(hash, bitsPerKey, k).create(keys))
    {
      P.OwnKeysPass(hash, bitsPerKey, k, keys, key);
      BitsAndBack(P.FilterFor(hash, bitsPerKey, k, keys));
    }
  }

  // ----- seeking in the bytes of a block -----

  function TagOf(b: Bytes): nat {
    if |b| < 8 then 0 else DecodeFixed32(b[|b| - 8..|b| - 4]) + 0x1_0000_0000 * DecodeFixed32(b[|b| - 4..])
  }

  // InternalKeyComparator::Compare.
  predicate InternalLess(a: Bytes, b: Bytes) {
    var u, v := T.ExtractUserKey(a), T.ExtractUserKey(b);
    BytesLess(u, v) || (u == v && TagOf(a) > TagOf(b))
  }

  lemma {:induction false} PackedOrder(x: RawKey, y: RawKey)
    ensures InternalLess(T.Pack(x), T.Pack(y)) <==> Less(KeyOf(x), KeyOf(y))
  {
    hide BytesLess, Rank, T.Pack, Tag;
    T.ExtractPacked(x);
    T.ExtractPacked(y);
    RankOrdersLikeBytes(x.user, y.user);
    PackedTag(x);
    PackedTag(y);
  }

  lemma {:induction false} PackedTag(k: RawKey)
    ensures TagOf(T.Pack(k)) == Tag(KeyOf(k))
  {
    hide DecodeFixed32, EncodeFixed32;
    var tag := Tag(KeyOf(k));
    var low, high := tag % 0x1_0000_0000, tag / 0x1_0000_0000;
    var b := T.Pack(k);
    FixedRoundTrip(low, []);
    FixedRoundTrip(high, []);
    assert b[|b| - 8..|b| - 4] == EncodeFixed32(low) && b[|b| - 4..] == EncodeFixed32(high);
  }

  /**
   Seeking in the bytes of a block, by its restart points, ends where a search in its
   entries does.
   */
  method SeekInBlock(data: Bytes, k: RawKey, ghost pairs: seq<T.Pair>, ghost interval: nat) returns (r: Option<T.Pair>)
    requires interval > 0 && FitsInBlock(pairs, interval) && data == BlockImage(pairs, interval) && T.InOrder(pairs)
    ensures var q := L.Position(T.AsEntries(pairs), KeyOf(k));
            r == if q < |pairs| then Some(pairs[q]) else None
  {
    ghost var b := BlockFor(Packed(pairs), interval);
    BlockOfPairs(pairs, interval);
    SameSides(pairs, interval, k);
    hide *;
    var iter := new B.BlockIter((x: Bytes, y: Bytes) => InternalLess(x, y), data, b);
    IterFits(iter, k);
    ghost var j := iter.Seek(T.Pack(k));
    Landed(pairs, b.items, iter.less, k, j);
    IterEnded(iter, j);
    if !iter.Valid() {
      return None;
    }
    IterShows(iter, j);
    UnpackPacked(pairs[j].key);
    r := Some(T.Pair(Unpack(iter.key).value, data[iter.valueAt..iter.NextEntryOffset()]));
  }

  lemma {:induction false} BlockOfPairs(pairs: seq<T.Pair>, interval: nat)
    requires interval > 0 && FitsInBlock(pairs, interval)
    ensures var b := BlockFor(Packed(pairs), interval);
      && b.Valid() && b.Image() == BlockImage(pairs, interval) && |b.items| == |pairs|
      && forall i :: 0 <= i < |pairs| ==> b.items[i].key == T.Pack(pairs[i].key) && b.items[i].value == pairs[i].value
  {
    hide B.Block.Image, B.Block.Small, B.SharedAt, B.Runs, T.Pack;
    BlockForIsValid(Packed(pairs), interval);
  }

  lemma {:induction false} IterFits(iter: B.BlockIter, k: RawKey)
    requires iter.AtEnd()
    requires iter.less == ((x: Bytes, y: Bytes) => InternalLess(x, y))
    requires forall i, j :: 0 <= i < j < |iter.block.items| && InternalLess(iter.block.items[j].key, T.Pack(k))
               ==> InternalLess(iter.block.items[i].key, T.Pack(k))
    ensures iter.Fits() && iter.InOrder(T.Pack(k))
  {
    hide B.Block.Valid, B.Block.Image, B.Join, InternalLess, T.Pack;
  }

  lemma {:induction false} IterEnded(iter: B.BlockIter, j: nat)
    requires j <= |iter.block.items| && if j < |iter.block.items| then iter.Shows(j) else iter.AtEnd()
    ensures iter.Valid() <==> j < |iter.block.items|
  {
    hide B.Block.Image, B.Join, B.Offset, B.Block.Valid;
    if j < |iter.block.items| {
      B.EndOffset(iter.block, j);
    }
  }

  lemma {:induction false} IterShows(iter: B.BlockIter, j: nat)
    requires j < |iter.block.items| && iter.Shows(j)
    ensures iter.key == iter.block.items[j].key
    ensures iter.valueAt <= iter.NextEntryOffset() <= |iter.data|
    ensures iter.data[iter.valueAt..iter.NextEntryOffset()] == iter.block.items[j].value
  {
    hide B.Block.Image, B.Join, B.Offset, B.Block.Valid;
  }

  // The keys of a block keep their order as bytes.
  lemma {:induction false} SameSides(pairs: seq<T.Pair>, interval: nat, k: RawKey)
    requires T.InOrder(pairs)
    ensures var items := BlockFor(Packed(pairs), interval).items;
      && |items| == |pairs|
      && forall i, j :: 0 <= i < j < |items| && InternalLess(items[j].key, T.Pack(k)) ==> InternalLess(items[i].key, T.Pack(k))
  {
    hide InternalLess, T.Pack, B.SharedAt, B.Runs;
    forall i | 0 <= i < |pairs|
      ensures InternalLess(T.Pack(pairs[i].key), T.Pack(k)) <==> Less(KeyOf(pairs[i].key), KeyOf(k))
    {
      PackedOrder(pairs[i].key, k);
    }
  }

  lemma {:induction false} Landed(pairs: seq<T.Pair>, items: seq<B.Item>, less: (Bytes, Bytes) -> bool, k: RawKey, j: nat)
    requires |items| == |pairs| && j <= |pairs| && T.InOrder(pairs)
    requires forall i :: 0 <= i < |pairs| ==> items[i].key == T.Pack(pairs[i].key)
    requires less == ((x: Bytes, y: Bytes) => InternalLess(x, y))
    requires forall i :: 0 <= i < j ==> less(items[i].key, T.Pack(k))
    requires j < |items| ==> !less(items[j].key, T.Pack(k))
    ensures L.Position(T.AsEntries(pairs), KeyOf(k)) == j
  {
    hide InternalLess, T.Pack, L.Position;
    forall i | 0 <= i < |pairs|
      ensures i < j <==> Less(KeyOf(pairs[i].key), KeyOf(k))
    {
      PackedOrder(pairs[i].key, k);
      if j < |pairs| {
        PackedOrder(pairs[j].key, k);
      }
    }
    PositionIs(T.AsEntries(pairs), KeyOf(k), j);
  }

  // ----- building a table, and asking it -----

  // Sizes that the format has room for, in every block.
  ghost predicate BlocksHaveRoom(d: T.Contents, interval: nat, policyName: Bytes) {
    && |d.starts| == |d.handles| + 1
    && (forall b :: 0 <= b < |d.handles| ==> FitsInBlock(T.Part(d.added, d.starts[b], d.starts[b + 1]), interval))
    && FitsInBlock(d.index, INDEX_INTERVAL)
    && BlockFor(T.MetaEntries(policyName, d.filterHandle), interval).Small()
  }

  /** The blocks of the store give every table with room for its sizes back. */
  lemma {:induction false} TableReadsBack(d: T.Contents, interval: nat, checksum: Bytes -> Word, policyName: Bytes)
    requires interval > 0 && BlocksHaveRoom(d, interval, policyName)
    ensures var c := BlockCodec(interval, checksum);
      d.ReadBack(c) && c.IndexReadsBack(d.index) && c.MetaReadsBack(T.MetaEntries(policyName, d.filterHandle))
  {
    hide FitsInBlock, ParsePairs, BlockImage, ParseBlock, B.Block.Small, B.Block.Image;
    var c := BlockCodec(interval, checksum);
    forall b | 0 <= b < |d.handles|
      ensures c.ReadsBack(T.Part(d.added, d.starts[b], d.starts[b + 1]))
    {
      PairsReadBack(T.Part(d.added, d.starts[b], d.starts[b + 1]), interval);
    }
    PairsReadBack(d.index, INDEX_INTERVAL);
    BlockReadsBack(T.MetaEntries(policyName, d.filterHandle), interval);
  }

  // What the tables of a store have in common.
  datatype Options = Options(interval: nat, blockSize: nat, checksum: Bytes -> Word, verify: bool, policyName: Bytes, hash: Bytes -> P.Word,
                             bitsPerKey: nat, probes: nat)
  {
    predicate Valid() {
      interval > 0 && probes <= 30
    }

    function Codec(): T.Codec
      requires Valid()
    {
      BlockCodec(interval, checksum)
    }

    function Policy(): F.Policy
      requires Valid()
    {
      BloomPolicy(hash, bitsPerKey, probes)
    }

    // The file is a table of these contents.
    ghost predicate IsTable(file: Bytes, d: T.Contents)
      requires Valid()
    {
      && d.InFile(Codec(), policyName, file)
      && d.filter.Some? && d.filter.value.policy == T.InternalPolicy(Policy())
    }

    ghost predicate HasRoom(d: T.Contents) {
      d.Small() && BlocksHaveRoom(d, interval, policyName)
    }
  }

  // Every block but the last one has reached the block size, none before its last entry.
  ghost predicate BlocksSized(size: seq<T.Pair> -> nat, blockSize: nat, added: seq<T.Pair>, starts: seq<nat>) {
    && (forall b :: 0 <= b && b + 2 < |starts| ==> Reaches(size, blockSize, added, starts[b], starts[b + 1]))
    && (forall b :: 0 <= b && b + 1 < |starts| ==> NotBefore(size, blockSize, added, starts[b], starts[b + 1]))
  }

  ghost predicate Reaches(size: seq<T.Pair> -> nat, blockSize: nat, added: seq<T.Pair>, from: nat, to: nat) {
    from <= to <= |added| && size(added[from..to]) >= blockSize
  }

  ghost predicate NotBefore(size: seq<T.Pair> -> nat, blockSize: nat, added: seq<T.Pair>, from: nat, to: nat) {
    to <= |added| && forall m :: from < m < to ==> size(added[from..m]) < blockSize
  }

  // The same while entries are added; the last block is open.
  ghost predicate SizedSoFar(size: seq<T.Pair> -> nat, blockSize: nat, added: seq<T.Pair>, starts: seq<nat>, open: seq<T.Pair>) {
    && starts != [] && starts[|starts| - 1] <= |added| && open == added[starts[|starts| - 1]..]
    && (forall b :: 0 <= b && b + 1 < |starts| ==>
          && Reaches(size, blockSize, added, starts[b], starts[b + 1])
          && NotBefore(size, blockSize, added, starts[b], starts[b + 1]))
    && (forall m :: 0 < m <= |open| ==> size(open[..m]) < blockSize)
  }

  lemma {:induction false} OneMoreSized(size: seq<T.Pair> -> nat, blockSize: nat, added: seq<T.Pair>, starts: seq<nat>, open: seq<T.Pair>, p: T.Pair)
    requires SizedSoFar(size, blockSize, added, starts, open)
    ensures var (block, more) := (open + [p], added + [p]);
      if size(block) >= blockSize then SizedSoFar(size, blockSize, more, starts + [|more|], [])
      else SizedSoFar(size, blockSize, more, starts, block)
  {
    var block, more := open + [p], added + [p];
    var from := starts[|starts| - 1];
    forall b | 0 <= b && b + 1 < |starts|
      ensures Reaches(size, blockSize, more, starts[b], starts[b + 1]) && NotBefore(size, blockSize, more, starts[b], starts[b + 1])
    {
      assert Reaches(size, blockSize, added, starts[b], starts[b + 1]) && NotBefore(size, blockSize, added, starts[b], starts[b + 1]);
      assert more[starts[b]..starts[b + 1]] == added[starts[b]..starts[b + 1]];
      forall m | starts[b] < m < starts[b + 1]
        ensures size(more[starts[b]..m]) < blockSize
      {
        assert more[starts[b]..m] == added[starts[b]..m];
      }
    }
    assert more[from..] == block && more[from..|more|] == block;
    forall m | 0 < m <= |open|
      ensures size(block[..m]) < blockSize
    {
      assert block[..m] == open[..m];
    }
    assert block[..|block|] == block;
    forall m | from < m < |more|
      ensures size(more[from..m]) < blockSize
    {
      assert more[from..m] == open[..m - from];
    }
  }

  lemma {:induction false} AllSized(size: seq<T.Pair> -> nat, blockSize: nat, added: seq<T.Pair>, starts: seq<nat>, open: seq<T.Pair>)
    requires SizedSoFar(size, blockSize, added, starts, open)
    ensures BlocksSized(size, blockSize, added, if open == [] then starts else starts + [|added|])
  {
    hide Reaches;
    var from := starts[|starts| - 1];
    forall m | from < m < |added|
      ensures size(added[from..m]) < blockSize
    {
      assert added[from..m] == open[..m - from];
    }
    assert NotBefore(size, blockSize, added, from, |added|);
  }

  // The estimate is the length that the block will have.
  lemma {:induction false} SizeIsLength(pairs: seq<T.Pair>, interval: nat)
    requires interval > 0 && FitsInBlock(pairs, interval)
    ensures SizeSoFar(pairs, interval) == |BlockImage(pairs, interval)|
  {
    hide B.Join, B.Chained;
  }

  /** BuildTable: no table for no entries. */
  method BuildTable(options: Options, entries: seq<T.Pair>) returns (file: Option<Bytes>, ghost d: T.Contents)
    requires options.Valid() && T.InOrder(entries)
    ensures file.None? <==> entries == []
    ensures file.Some? ==> d.added == entries && options.IsTable(file.value, d)
    ensures file.Some? ==> BlocksSized(options.Codec().sizeSoFar, options.blockSize, entries, d.starts)
  {
    hide T.Contents.InFile, T.InOrder, T.InternalPolicy, BlockCodec, BloomPolicy, SizedSoFar, BlocksSized;
    if entries == [] {
      file, d := None, T.Contents([], [], [], [], None, None, Footer(BlockHandle(0, 0), BlockHandle(0, 0)));
      return;
    }
    var builder := new T.TableBuilder(options.Codec(), options.blockSize, options.policyName, Some(options.Policy()));
    ghost var size := options.Codec().sizeSoFar;
    NothingSized(size, options.blockSize);
    for i := 0 to |entries|
      invariant builder.blockSize == options.blockSize
      invariant SizedSoFar(size, options.blockSize, entries[..i], builder.starts, builder.dataBlock)
      invariant fresh(builder) && (builder.filterBlock == null || fresh(builder.filterBlock))
      invariant builder.Ok() && !builder.closed && builder.added == entries[..i]
      invariant builder.numEntries == i && (i > 0 ==> builder.lastKey == entries[i - 1].key)
      invariant builder.codec == options.Codec() && builder.policyName == options.policyName && builder.filterBlock != null
      invariant builder.filterBlock.policy == T.InternalPolicy(options.Policy())
    {
      NextInOrder(entries, i);
      OneMoreSized(size, options.blockSize, entries[..i], builder.starts, builder.dataBlock, entries[i]);
      builder.Add(entries[i].key, entries[i].value);
    }
    assert entries[..|entries|] == entries;
    AllSized(size, options.blockSize, entries, builder.starts, builder.dataBlock);
    d := builder.Finish();
    file := Some(builder.file);
  }

  lemma {:induction false} NothingSized(size: seq<T.Pair> -> nat, blockSize: nat)
    ensures SizedSoFar(size, blockSize, [], [0], [])
  {
  }

  lemma {:induction false} NextInOrder(entries: seq<T.Pair>, i: nat)
    requires T.InOrder(entries) && i < |entries|
    ensures i > 0 ==> Less(KeyOf(entries[i - 1].key), KeyOf(entries[i].key))
    ensures entries[..i + 1] == entries[..i] + [entries[i]] && entries[i] == T.Pair(entries[i].key, entries[i].value)
  {
  }

  /**
   TableCache::Get on a file that is not cached: open the table and ask it, on any bytes.
   On a table the answer is the first entry at or after the key, unless that is of another
   user key.
   */
  method Get(options: Options, file: Bytes, k: RawKey, ghost d: T.Contents) returns (r: T.Answer)
    requires options.Valid()
    ensures options.IsTable(file, d) && options.HasRoom(d) ==> T.Answers(d.added, k, r)
    ensures T.ReadIndex(options.Codec(), options.verify, file) == None ==> r == T.Corruption
  {
    hide BlocksHaveRoom, BlockCodec, BloomPolicy, T.Contents.Shaped, T.Contents.ReadBack, T.Contents.InFile, T.Contents.Small,
      F.Policy.Sound, T.InternalPolicy, T.Answers, T.ReadIndex;
    var codec, policy := options.Codec(), options.Policy();
    if options.HasRoom(d) {
      TableReadsBack(d, options.interval, options.checksum, options.policyName);
    }
    BloomIsSound(options.hash, options.bitsPerKey, options.probes);
    var table := T.Table.Open(codec, Some(policy), options.policyName, options.verify, file, d);
    if table == null {
      return T.Corruption;
    }
    r := table.InternalGet(k, options.verify, d, policy);
  }

  /** From entries to bytes and back: a table that was built answers for its entries. */
  method BuildThenGet(options: Options, entries: seq<T.Pair>, k: RawKey) returns (r: T.Answer, ghost d: T.Contents)
    requires options.Valid() && T.InOrder(entries) && entries != []
    ensures d.added == entries
    ensures options.HasRoom(d) ==> T.Answers(entries, k, r)
  {
    hide Options.IsTable, Options.HasRoom, T.InOrder, T.Answers;
    var file;
    file, d := BuildTable(options, entries);
    r := Get(options, file.value, k, d);
  }
}
