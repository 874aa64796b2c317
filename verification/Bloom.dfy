/**
 The Bloom filter (util/bloom.cc): it never rejects a key that it was made for.
 */
module Bloom {
  import opened DbFormat

  type Word = w: int | 0 <= w < 0x1_0000_0000

  // 1 << k.
  function Mask(k: int): bv8 {
    if k == 0 then 1 else if k == 1 then 2 else if k == 2 then 4 else if k == 3 then 8
    else if k == 4 then 16 else if k == 5 then 32 else if k == 6 then 64 else 128
  }

  predicate Has(x: bv8, m: bv8) {
    x & m != 0
  }

  function With(x: bv8, m: bv8): bv8 {
    x | m
  }

  predicate HasBit(array_: seq<bv8>, bit: nat)
    requires bit < |array_| * 8
  {
    Has(array_[bit / 8], Mask(bit % 8))
  }

  // Setting one bit of a byte changes that bit only.
  lemma {:induction false} WithSetsOne(x: bv8, k: int, j: int)
    requires 0 <= k < 8 && 0 <= j < 8
    ensures Has(With(x, Mask(k)), Mask(j)) <==> Has(x, Mask(j)) || j == k
  {
  }

  // Rotate right by 17 bits.
  function Delta(h: Word): Word {
    h / 0x2_0000 + h % 0x2_0000 * 0x8000
  }

  // The j-th probe of a key, by double hashing in 32 bits.
  function Probe(h: Word, j: nat): Word {
    if j == 0 then h else (Probe(h, j - 1) + Delta(h)) % 0x1_0000_0000
  }

  lemma {:induction false} FirstProbe(h: Word)
    ensures Probe(h, 0) == h
  {
  }

  lemma {:induction false} NextProbe(h: Word, j: nat)
    ensures Probe(h, j + 1) == (Probe(h, j) + Delta(h)) % 0x1_0000_0000
  {
    hide Delta;
  }

  // Where a bit is.
  lemma {:induction false} BitPlace(bits: seq<bv8>, bit: nat)
    requires bit < |bits| * 8
    ensures bit / 8 < |bits| && 0 <= bit % 8 < 8
    ensures HasBit(bits, bit) == Has(bits[bit / 8], Mask(bit % 8))
  {
    hide Has, Mask;
  }

  // All probes of the key are set.
  predicate Marked(bits: seq<bv8>, h: Word, k: nat) {
    |bits| > 0 && forall j :: 0 <= j < k ==> HasBit(bits, Probe(h, j) % (|bits| * 8))
  }

  // ----- what a filter is -----

  function SetBit(bits: seq<bv8>, bit: nat): (r: seq<bv8>)
    requires bit < |bits| * 8
    ensures |r| == |bits|
  {
    bits[bit / 8 := With(bits[bit / 8], Mask(bit % 8))]
  }

  function SetProbes(bits: seq<bv8>, h: Word, k: nat): (r: seq<bv8>)
    requires |bits| > 0
    ensures |r| == |bits|
  {
    if k == 0 then bits else SetBit(SetProbes(bits, h, k - 1), Probe(h, k - 1) % (|bits| * 8))
  }

  function SetKeys(bits: seq<bv8>, hash: Bytes -> Word, keys: seq<Bytes>, k: nat): (r: seq<bv8>)
    requires |bits| > 0
    ensures |r| == |bits|
  {
    if keys == [] then bits
    else SetProbes(SetKeys(bits, hash, keys[..|keys| - 1], k), hash(keys[|keys| - 1]), k)
  }

  function Zeros(n: nat): (r: seq<bv8>)
    ensures |r| == n
  {
    seq(n, i => 0)
  }

  // At least eight bytes.
  function ArraySize(keys: nat, bitsPerKey: nat): nat {
    ((if keys * bitsPerKey < 64 then 64 else keys * bitsPerKey) + 7) / 8
  }

  function FilterFor(hash: Bytes -> Word, bitsPerKey: nat, k: nat, keys: seq<Bytes>): (r: seq<bv8>)
    requires k <= 30
    ensures |r| == ArraySize(|keys|, bitsPerKey) + 1 >= 9
  {
    EightBytes(|keys|, bitsPerKey);
    SetKeys(Zeros(ArraySize(|keys|, bitsPerKey)), hash, keys, k) + [k as bv8]
  }

  // As many bits for every key, and no byte more than that takes.
  lemma {:induction false} EightBytes(keys: nat, bitsPerKey: nat)
    ensures ArraySize(keys, bitsPerKey) >= 8
    ensures keys * bitsPerKey <= ArraySize(keys, bitsPerKey) * 8
    ensures ArraySize(keys, bitsPerKey) > 8 ==> (ArraySize(keys, bitsPerKey) - 1) * 8 < keys * bitsPerKey
  {
    var bits := keys * bitsPerKey;
  }

  // Whether a filter lets a key pass.
  predicate Passes(hash: Bytes -> Word, key: Bytes, filter: seq<bv8>) {
    && |filter| >= 2
    && (filter[|filter| - 1] as int > 30 || Marked(filter[..|filter| - 1], hash(key), filter[|filter| - 1] as int))
  }

  // ----- which bits are set -----

  lemma {:induction false} SetBitSetsOne(bits: seq<bv8>, bit: nat, other: nat)
    requires bit < |bits| * 8 && other < |bits| * 8
    ensures HasBit(SetBit(bits, bit), other) <==> HasBit(bits, other) || other == bit
  {
    hide Has, With, Mask;
    if bit / 8 == other / 8 {
      WithSetsOne(bits[bit / 8], bit % 8, other % 8);
    }
  }

  // Some probe of the key falls on the bit.
  predicate Hits(size: nat, h: Word, k: nat, bit: nat)
    requires size > 0
  {
    exists j :: 0 <= j < k && Probe(h, j) % (size * 8) == bit
  }

  lemma {:induction false} ProbesSetExactly(bits: seq<bv8>, h: Word, k: nat, bit: nat)
    requires |bits| > 0 && bit < |bits| * 8
    ensures HasBit(SetProbes(bits, h, k), bit) <==> HasBit(bits, bit) || Hits(|bits|, h, k, bit)
  {
    hide HasBit, Probe, SetBit;
    if k > 0 {
      var p := Probe(h, k - 1) % (|bits| * 8);
      ProbesSetExactly(bits, h, k - 1, bit);
      SetBitSetsOne(SetProbes(bits, h, k - 1), p, bit);
      if Hits(|bits|, h, k, bit) {
        var j :| 0 <= j < k && Probe(h, j) % (|bits| * 8) == bit;
        assert j == k - 1 || Hits(|bits|, h, k - 1, bit);
      }
    }
  }

  predicate HitByOne(size: nat, hash: Bytes -> Word, keys: seq<Bytes>, k: nat, bit: nat)
    requires size > 0
  {
    exists i :: 0 <= i < |keys| && Hits(size, hash(keys[i]), k, bit)
  }

  lemma {:induction false} KeysSetExactly(bits: seq<bv8>, hash: Bytes -> Word, keys: seq<Bytes>, k: nat, bit: nat)
    requires |bits| > 0 && bit < |bits| * 8
    ensures HasBit(SetKeys(bits, hash, keys, k), bit) <==> HasBit(bits, bit) || HitByOne(|bits|, hash, keys, k, bit)
  {
    hide HasBit, SetProbes, Hits;
    if keys != [] {
      var n := |keys| - 1;
      var init := SetKeys(bits, hash, keys[..n], k);
      KeysSetExactly(bits, hash, keys[..n], k, bit);
      ProbesSetExactly(init, hash(keys[n]), k, bit);
      if HitByOne(|bits|, hash, keys, k, bit) {
        var i :| 0 <= i < |keys| && Hits(|bits|, hash(keys[i]), k, bit);
        assert i < n ==> keys[..n][i] == keys[i];
        assert i == n || HitByOne(|bits|, hash, keys[..n], k, bit);
      }
      if HitByOne(|bits|, hash, keys[..n], k, bit) {
        var i :| 0 <= i < n && Hits(|bits|, hash(keys[..n][i]), k, bit);
        assert keys[..n][i] == keys[i];
      }
    }
  }

  /** The bits of a filter are exactly those that a probe of one of its keys falls on. */
  lemma {:induction false} FilterBitsExactly(hash: Bytes -> Word, bitsPerKey: nat, k: nat, keys: seq<Bytes>, bit: nat)
    requires k <= 30 && bit < ArraySize(|keys|, bitsPerKey) * 8
    ensures HasBit(FilterFor(hash, bitsPerKey, k, keys), bit) <==> HitByOne(ArraySize(|keys|, bitsPerKey), hash, keys, k, bit)
  {
    hide SetKeys, HitByOne, With;
    var zeros := Zeros(ArraySize(|keys|, bitsPerKey));
    KeysSetExactly(zeros, hash, keys, k, bit);
    assert zeros[bit / 8] == 0;
  }

  /** No false negatives. */
  lemma {:induction false} OwnKeysPass(hash: Bytes -> Word, bitsPerKey: nat, k: nat, keys: seq<Bytes>, key: Bytes)
    requires k <= 30 && key in keys
    ensures Passes(hash, key, FilterFor(hash, bitsPerKey, k, keys))
  {
    hide HasBit, SetKeys, Probe;
    var filter := FilterFor(hash, bitsPerKey, k, keys);
    var bits := filter[..|filter| - 1];
    var i :| 0 <= i < |keys| && keys[i] == key;
    forall j | 0 <= j < k
      ensures HasBit(bits, Probe(hash(key), j) % (|bits| * 8))
    {
      var bit := Probe(hash(key), j) % (|bits| * 8);
      assert Hits(|bits|, hash(keys[i]), k, bit);
      KeysSetExactly(Zeros(|bits|), hash, keys, k, bit);
    }
  }

  class BloomFilterPolicy {
    const hash: Bytes -> Word
    const bitsPerKey: nat
    // The number of probes, from the bits per key.
    const k: nat

    constructor (hash: Bytes -> Word, bitsPerKey: nat, probes: nat)
      ensures this.hash == hash && this.bitsPerKey == bitsPerKey && 1 <= k <= 30
    {
      this.hash, this.bitsPerKey := hash, bitsPerKey;
      k := if probes < 1 then 1 else if probes > 30 then 30 else probes;
    }

    /** CreateFilter: the bit array, and the number of probes behind it. */
    method CreateFilter(keys: seq<Bytes>) returns (filter: seq<bv8>)
      requires k <= 30
      ensures filter == FilterFor(hash, bitsPerKey, k, keys)
    {
      hide SetProbes;
      EightBytes(|keys|, bitsPerKey);
      var bits := |keys| * bitsPerKey;
      if bits < 64 {
        bits := 64;
      }
      var bytes := (bits + 7) / 8;
      bits := bytes * 8;
      var array_ := new bv8[bytes](_ => 0);
      assert array_[..] == Zeros(bytes);
      for i := 0 to |keys|
        invariant array_.Length == bytes
        invariant array_[..] == SetKeys(Zeros(bytes), hash, keys[..i], k)
      {
        AddKey(array_, hash(keys[i]));
        assert keys[..i + 1][..i] == keys[..i];
      }
      assert keys[..|keys|] == keys;
      filter := array_[..] + [k as bv8];
    }

    // The probes of one key.
    method AddKey(array_: array<bv8>, start: Word)
      requires array_.Length > 0
      modifies array_
      ensures array_[..] == SetProbes(old(array_[..]), start, k)
    {
      hide HasBit, Delta, With, Mask, Probe;
      FirstProbe(start);
      var bits := array_.Length * 8;
      var h: Word := start;
      var delta := Delta(h);
      ghost var before := array_[..];
      for j := 0 to k
        invariant h == Probe(start, j)
        invariant array_[..] == SetProbes(before, start, j)
      {
        var bitpos := h % bits;
        BitPlace(array_[..], bitpos);
        NextProbe(start, j);
        array_[bitpos / 8] := With(array_[bitpos / 8], Mask(bitpos % 8));
        h := (h + delta) % 0x1_0000_0000;
      }
    }

    /** KeyMayMatch, on any filter. */
    method KeyMayMatch(key: Bytes, filter: seq<bv8>) returns (match_: bool)
      ensures match_ == Passes(hash, key, filter)
    {
      hide Has, HasBit, Mask, Delta, Probe;
      var len := |filter|;
      if len < 2 {
        return false;
      }
      var bitArray := filter[..len - 1];
      var bits := (len - 1) * 8;
      var probes := filter[len - 1] as int;
      if probes > 30 {
        return true;
      }
      var h: Word := hash(key);
      var delta := Delta(h);
      FirstProbe(h);
      for j := 0 to probes
        invariant h == Probe(hash(key), j)
        invariant forall i :: 0 <= i < j ==> HasBit(bitArray, Probe(hash(key), i) % bits)
      {
        var bitpos := h % bits;
        BitPlace(bitArray, bitpos);
        NextProbe(hash(key), j);
        if !Has(bitArray[bitpos / 8], Mask(bitpos % 8)) {
          return false;
        }
        h := (h + delta) % 0x1_0000_0000;
      }
      return true;
    }

    /** No false negatives. */
    method MatchesOwnKeys(keys: seq<Bytes>, key: Bytes) returns (match_: bool)
      requires 1 <= k <= 30 && key in keys
      ensures match_
    {
      var filter := CreateFilter(keys);
      OwnKeysPass(hash, bitsPerKey, k, keys, key);
      match_ := KeyMayMatch(key, filter);
    }
  }
}
