/**
 The filter block of a table (table/filter_block.cc): one filter for every 2 KB of data
 offsets.  No filter rejects a key of a block that starts in its range.
 */
module FilterBlocks {
  import opened Wrappers
  import opened DbFormat
  import opened Coding
  import opened Blocks

  const FILTER_BASE_LG: nat := 11
  const FILTER_BASE: nat := 2048

  datatype Policy = Policy(create: seq<Bytes> -> Bytes, mayMatch: (Bytes, Bytes) -> bool)
  {
    // No false negatives.
    ghost predicate Sound() {
      forall keys, key :: key in keys ==> mayMatch(key, create(keys))
    }
  }

  function FilterOf(p: Policy, keys: seq<Bytes>): Bytes {
    if keys == [] then [] else p.create(keys)
  }

  function AllFilters(p: Policy, groups: seq<seq<Bytes>>): Bytes {
    if groups == [] then [] else AllFilters(p, groups[..|groups| - 1]) + FilterOf(p, groups[|groups| - 1])
  }

  function FilterOffset(p: Policy, groups: seq<seq<Bytes>>, i: nat): nat
    requires i <= |groups|
  {
    |AllFilters(p, groups[..i])|
  }

  lemma {:induction false} FilterPlace(p: Policy, groups: seq<seq<Bytes>>, i: nat)
    requires i < |groups|
    ensures FilterOffset(p, groups, i) <= FilterOffset(p, groups, i + 1) <= |AllFilters(p, groups)|
    ensures AllFilters(p, groups)[FilterOffset(p, groups, i)..FilterOffset(p, groups, i + 1)] == FilterOf(p, groups[i])
  {
    hide FilterOf;
    var n := |groups| - 1;
    if i == n {
      assert groups[..i + 1] == groups;
      DropPrefix(AllFilters(p, groups[..n]), FilterOf(p, groups[n]), 0);
    } else {
      FilterPlace(p, groups[..n], i);
      assert groups[..n][..i] == groups[..i] && groups[..n][..i + 1] == groups[..i + 1];
      SamePart(AllFilters(p, groups[..n]), FilterOf(p, groups[n]), FilterOffset(p, groups, i), FilterOffset(p, groups, i + 1));
    }
  }

  lemma {:induction false} LastOffset(p: Policy, groups: seq<seq<Bytes>>)
    ensures FilterOffset(p, groups, |groups|) == |AllFilters(p, groups)|
  {
    assert groups[..|groups|] == groups;
  }

  function Offsets(p: Policy, groups: seq<seq<Bytes>>): (r: seq<nat>)
    ensures |r| == |groups| && forall i :: 0 <= i < |r| ==> r[i] == FilterOffset(p, groups, i)
  {
    seq(|groups|, i requires 0 <= i < |groups| => FilterOffset(p, groups, i))
  }

  ghost predicate SmallFilters(p: Policy, groups: seq<seq<Bytes>>) {
    |AllFilters(p, groups)| < LIMIT && forall i :: 0 <= i < |groups| ==> FilterOffset(p, groups, i) < LIMIT
  }

  // Filters, their offsets, the offset of the offsets, and the base.
  ghost function FilterImage(p: Policy, groups: seq<seq<Bytes>>): Bytes
    requires SmallFilters(p, groups)
  {
    AllFilters(p, groups) + FixedArray(Offsets(p, groups) + [|AllFilters(p, groups)|]) + [FILTER_BASE_LG as byte]
  }

  // The keys that were added while filter `g` was the next one, in order.
  ghost function KeysOf(added: seq<(nat, Bytes)>, g: nat): seq<Bytes> {
    if added == [] then []
    else
      var last := added[|added| - 1];
      KeysOf(added[..|added| - 1], g) + if last.0 == g then [last.1] else []
  }

  lemma {:induction false} KeysOfMembers(added: seq<(nat, Bytes)>, g: nat, key: Bytes)
    ensures key in KeysOf(added, g) <==> (g, key) in added
  {
    if added != [] {
      KeysOfMembers(added[..|added| - 1], g, key);
    }
  }

  lemma {:induction false} OneMoreKey(added: seq<(nat, Bytes)>, a: (nat, Bytes))
    ensures forall g: nat :: KeysOf(added + [a], g) == KeysOf(added, g) + if a.0 == g then [a.1] else []
  {
    assert (added + [a])[..|added|] == added;
  }

  lemma {:induction false} NoKeysYet(added: seq<(nat, Bytes)>, g: nat)
    requires forall a :: a in added ==> a.0 < g
    ensures KeysOf(added, g) == []
  {
    if added != [] {
      NoKeysYet(added[..|added| - 1], g);
    }
  }

  class FilterBlockBuilder {
    const policy: Policy
    // Keys since the last filter.
    var keys: seq<Bytes>
    var result: Bytes
    var filterOffsets: seq<nat>
    // The keys of every filter, and every key with the filter that it went to.
    ghost var groups: seq<seq<Bytes>>
    ghost var added: seq<(nat, Bytes)>

    ghost predicate Ok()
      reads this
    {
      && result == AllFilters(policy, groups) && filterOffsets == Offsets(policy, groups)
      && (forall g :: 0 <= g < |groups| ==> groups[g] == KeysOf(added, g)) && keys == KeysOf(added, |groups|)
      && forall a :: a in added ==> a.0 <= |groups|
    }

    constructor (policy: Policy)
      ensures Ok() && this.policy == policy && groups == [] && keys == [] && added == []
    {
      this.policy := policy;
      keys, result, filterOffsets, groups, added := [], [], [], [], [];
    }

    /** StartBlock: filters up to the one of the new block are finished. */
    method StartBlock(blockOffset: nat)
      requires Ok() && blockOffset / FILTER_BASE >= |groups|
      modifies this
      ensures Ok() && |groups| == blockOffset / FILTER_BASE && added == old(added)
    {
      var filterIndex := blockOffset / FILTER_BASE;
      while filterIndex > |filterOffsets|
        invariant Ok() && |groups| <= filterIndex && added == old(added)
        decreases filterIndex - |filterOffsets|
      {
        GenerateFilter();
      }
    }

    method AddKey(key: Bytes)
      requires Ok()
      modifies this`keys, this`added
      ensures Ok() && added == old(added) + [(|groups|, key)]
    {
      OneMoreKey(added, (|groups|, key));
      keys := keys + [key];
      added := added + [(|groups|, key)];
    }

    method GenerateFilter()
      requires Ok()
      modifies this`keys, this`result, this`filterOffsets, this`groups
      ensures Ok() && keys == [] && groups == old(groups) + [old(keys)]
    {
      hide AllFilters, FilterOffset, KeysOf;
      OneMoreFilter(policy, groups, keys);
      filterOffsets := filterOffsets + [|result|];
      if |keys| > 0 {
        result := result + policy.create(keys);
      }
      NoKeysYet(added, |groups| + 1);
      groups := groups + [keys];
      keys := [];
    }

    // Finish: every filter is of exactly the keys that were added while it was the next
    // one.  Offsets are cut to 32 bits.
    method Finish() returns (block: Bytes)
      requires Ok()
      modifies this
      ensures Ok() && keys == [] && added == old(added)
      ensures SmallFilters(policy, groups) ==> block == FilterImage(policy, groups)
      ensures forall g :: 0 <= g < |groups| ==> groups[g] == KeysOf(added, g)
      ensures forall a :: a in added ==> a.0 < |groups|
    {
      forall a | a in added
        ensures keys == [] ==> a.0 < |groups|
      {
        KeysOfMembers(added, a.0, a.1);
      }
      if |keys| > 0 {
        GenerateFilter();
      }
      block := WriteOffsets();
    }

    method WriteOffsets() returns (block: Bytes)
      requires Ok()
      ensures SmallFilters(policy, groups) ==> block == FilterImage(policy, groups)
    {
      hide AllFilters, FilterOffset, Offsets, FixedArray;
      block := AppendWords(result, filterOffsets);
      block := AppendWords(block, [|result|]);
      block := block + [FILTER_BASE_LG as byte];
      if SmallFilters(policy, groups) {
        OffsetsAreSmall(policy, groups);
        WordsInParts(filterOffsets, [|result|]);
        assert result + FixedArray(filterOffsets) + FixedArray([|result|])
            == result + (FixedArray(filterOffsets) + FixedArray([|result|]));
      }
    }
  }

  predicate AreWords(a: seq<nat>) {
    forall j :: 0 <= j < |a| ==> a[j] < LIMIT
  }

  method AppendWords(start: Bytes, a: seq<nat>) returns (r: Bytes)
    ensures AreWords(a) ==> r == start + FixedArray(a)
  {
    r := start;
    for i := 0 to |a|
      invariant AreWords(a) ==> r == start + FixedArray(a[..i])
    {
      assert a[..i + 1][..i] == a[..i];
      r := r + EncodeFixed32(a[i] % LIMIT);
    }
    assert a[..|a|] == a;
  }

  lemma {:induction false} WordsInParts(a: seq<nat>, b: seq<nat>)
    requires AreWords(a) && AreWords(b) && |b| == 1
    ensures AreWords(a + b) && FixedArray(a + b) == FixedArray(a) + FixedArray(b)
  {
    assert (a + b)[..|a|] == a;
    assert FixedArray(b) == FixedArray([]) + EncodeFixed32(b[0]);
  }

  lemma {:induction false} OffsetsAreSmall(p: Policy, groups: seq<seq<Bytes>>)
    requires SmallFilters(p, groups)
    ensures forall i :: 0 <= i < |groups| ==> Offsets(p, groups)[i] < LIMIT
  {
    hide AllFilters, FilterOffset;
  }

  lemma {:induction false} OneMoreFilter(p: Policy, groups: seq<seq<Bytes>>, keys: seq<Bytes>)
    ensures AllFilters(p, groups + [keys]) == AllFilters(p, groups) + FilterOf(p, keys)
    ensures Offsets(p, groups + [keys]) == Offsets(p, groups) + [|AllFilters(p, groups)|]
  {
    hide FilterOf;
    var all := groups + [keys];
    assert all[..|groups|] == groups;
    forall i | 0 <= i < |groups|
      ensures FilterOffset(p, all, i) == FilterOffset(p, groups, i)
    {
      assert all[..i] == groups[..i];
    }
  }

  function ShiftRight(x: nat, n: nat): nat
    decreases n
  {
    if n == 0 then x else ShiftRight(x / 2, n - 1)
  }

  lemma {:induction false} ShiftByBase(x: nat)
    ensures ShiftRight(x, FILTER_BASE_LG) == x / FILTER_BASE
  {
    var a := x / 2 / 2 / 2 / 2;
    var b := a / 2 / 2 / 2 / 2;
    assert ShiftRight(x, 11) == ShiftRight(a, 7);
    assert ShiftRight(a, 7) == ShiftRight(b, 3);
    assert ShiftRight(b, 3) == b / 2 / 2 / 2;
  }

  class FilterBlockReader {
    const policy: Policy
    const data: Bytes
    const offset: nat
    const num: nat
    const baseLg: nat

    // A block that is too short, or whose array would lie behind its end, has no filters.
    constructor (policy: Policy, contents: Bytes)
      ensures this.policy == policy && data == contents && offset <= |contents|
      ensures num > 0 ==> offset + 4 * num + 5 <= |contents|
      ensures |contents| >= 5 && DecodeFixed32(contents[|contents| - 5..]) <= |contents| - 5 ==>
                && baseLg == contents[|contents| - 1] as int
                && offset == DecodeFixed32(contents[|contents| - 5..])
                && num == (|contents| - 5 - offset) / 4
      ensures num > 0 ==> |contents| >= 5 && DecodeFixed32(contents[|contents| - 5..]) <= |contents| - 5
    {
      this.policy, this.data := policy, contents;
      var n := |contents|;
      var lg: nat, off: nat, count: nat := 0, 0, 0;
      if n >= 5 {
        lg := contents[n - 1] as int;
        var lastWord := DecodeFixed32(contents[n - 5..]);
        if lastWord <= n - 5 {
          off := lastWord;
          count := (n - 5 - lastWord) / 4;
        }
      }
      baseLg, offset, num := lg, off, count;
    }

    /** KeyMayMatch, on any filter block; errors are potential matches. */
    method KeyMayMatch(blockOffset: nat, key: Bytes) returns (may: bool)
      requires offset <= |data| && (num > 0 ==> offset + 4 * num + 5 <= |data|)
      ensures may == MayMatch(policy, data, offset, num, ShiftRight(blockOffset, baseLg), key)
    {
      var index := ShiftRight(blockOffset, baseLg);
      if index < num {
        var start := DecodeFixed32(data[offset + index * 4..]);
        var limit := DecodeFixed32(data[offset + index * 4 + 4..]);
        if start <= limit && limit <= offset {
          return policy.mayMatch(key, data[start..limit]);
        } else if start == limit {
          return false;
        }
      }
      return true;
    }
  }

  function MayMatch(p: Policy, data: Bytes, offset: nat, num: nat, index: nat, key: Bytes): bool
    requires offset <= |data| && (num > 0 ==> offset + 4 * num + 5 <= |data|)
  {
    index < num ==>
      var start := DecodeFixed32(data[offset + index * 4..]);
      var limit := DecodeFixed32(data[offset + index * 4 + 4..]);
      if start <= limit && limit <= offset then p.mayMatch(key, data[start..limit])
      else start != limit
  }

  lemma {:induction false} WordOfArray(pre: Bytes, a: seq<nat>, post: Bytes, j: nat)
    requires j < |a| && forall j :: 0 <= j < |a| ==> a[j] < LIMIT
    ensures |pre| + 4 * j + 4 <= |pre + FixedArray(a) + post|
    ensures DecodeFixed32((pre + FixedArray(a) + post)[|pre| + 4 * j..]) == a[j]
  {
    hide FixedArray;
    FixedArrayAt(a, j);
    FixedRoundTrip(a[j], []);
    var all := pre + FixedArray(a) + post;
    var t := all[|pre| + 4 * j..];
    assert t[..4] == FixedArray(a)[4 * j..4 * j + 4];
    assert t[0] == t[..4][0] && t[1] == t[..4][1] && t[2] == t[..4][2] && t[3] == t[..4][3];
  }

  /**
   What the reader asks of a filter block that was written: for the offset of a block in
   the range of a filter, that filter, and nothing else; behind the last one every key
   is a potential match.
   */
  lemma {:induction false} FilterIsAsked(p: Policy, groups: seq<seq<Bytes>>, index: nat, key: Bytes)
    requires SmallFilters(p, groups)
    ensures var data := FilterImage(p, groups);
      && |data| >= 5 && DecodeFixed32(data[|data| - 5..]) <= |data| - 5
      && data[|data| - 1] as nat == FILTER_BASE_LG
      && var offset := DecodeFixed32(data[|data| - 5..]);
         var num := (|data| - 5 - offset) / 4;
         && (num > 0 ==> offset + 4 * num + 5 <= |data|)
         && MayMatch(p, data, offset, num, index, key)
            == (index < |groups| ==> p.mayMatch(key, FilterOf(p, groups[index])))
  {
    hide AllFilters, FilterOffset, FixedArray, Offsets, FilterOf;
    OffsetsAreSmall(p, groups);
    LastOffset(p, groups);
    var filters := AllFilters(p, groups);
    var a := Offsets(p, groups) + [|filters|];
    var data := FilterImage(p, groups);
    WordOfArray(filters, a, [FILTER_BASE_LG as byte], |groups|);
    assert |data| - 5 == |filters| + 4 * |groups|;
    if index < |groups| {
      WordOfArray(filters, a, [FILTER_BASE_LG as byte], index);
      WordOfArray(filters, a, [FILTER_BASE_LG as byte], index + 1);
      FilterPlace(p, groups, index);
      var start, limit := FilterOffset(p, groups, index), FilterOffset(p, groups, index + 1);
      assert a[index + 1] == limit;
      assert data[start..limit] == filters[start..limit];
    }
  }

  /**
   A key is not rejected by the filter that it was put into, which is the one that a
   lookup in its block consults.
   */
  lemma {:induction false} OwnKeysMatch(p: Policy, groups: seq<seq<Bytes>>, index: nat, key: Bytes)
    requires p.Sound() && SmallFilters(p, groups) && index < |groups| && key in groups[index]
    ensures var data := FilterImage(p, groups);
      && |data| >= 5 && DecodeFixed32(data[|data| - 5..]) <= |data| - 5
      && data[|data| - 1] as nat == FILTER_BASE_LG
      && var offset := DecodeFixed32(data[|data| - 5..]);
         var num := (|data| - 5 - offset) / 4;
         && (num > 0 ==> offset + 4 * num + 5 <= |data|)
         && MayMatch(p, data, offset, num, index, key)
  {
    hide AllFilters, FilterOffset, FixedArray, Offsets, FilterImage;
    FilterIsAsked(p, groups, index, key);
    assert p.mayMatch(key, p.create(groups[index]));
  }
}
