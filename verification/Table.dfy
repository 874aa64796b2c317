/**
 Table files (table/table_builder.cc, table/table.cc): the order of the entries survives
 the split into blocks, the shortened keys of the index, and the filters.
 */
module Tables {
  import opened Wrappers
  import opened DbFormat
  import opened Lookup
  import opened Coding
  import opened Footers
  import opened Comparators
  import opened FilterBlocks
  import opened Cursors
  import opened TwoLevel

  datatype Pair = Pair(key: RawKey, value: Bytes)

  // How the three kinds of blocks are written, how big a data block is so far, how blocks
  // are read back, and the masked checksum.
  datatype Codec = Codec(render: seq<Pair> -> Bytes, renderIndex: seq<Pair> -> Bytes, renderMeta: seq<(Bytes, Bytes)> -> Bytes,
                         sizeSoFar: seq<Pair> -> nat,
                         parse: Bytes -> Option<seq<Pair>>, parseMeta: Bytes -> Option<seq<(Bytes, Bytes)>>,
                         checksum: Bytes -> Word)
  {
    predicate IndexReadsBack(index: seq<Pair>) {
      parse(renderIndex(index)) == Some(index)
    }

    predicate ReadsBack(block: seq<Pair>) {
      parse(render(block)) == Some(block)
    }

    predicate MetaReadsBack(meta: seq<(Bytes, Bytes)>) {
      parseMeta(renderMeta(meta)) == Some(meta)
    }
  }

  function EntryOf(p: Pair): Entry {
    Entry(KeyOf(p.key), p.value)
  }

  function AsEntries(s: seq<Pair>): (r: seq<Entry>)
    ensures |r| == |s| && forall i :: 0 <= i < |s| ==> r[i] == EntryOf(s[i])
  {
    seq(|s|, i requires 0 <= i < |s| => EntryOf(s[i]))
  }

  // ----- filters on internal keys -----

  // The user key, then eight bytes of sequence number and type.
  function Pack(k: RawKey): Bytes {
    var tag := Tag(KeyOf(k));
    k.user + EncodeFixed32(tag % 0x1_0000_0000) + EncodeFixed32(tag / 0x1_0000_0000)
  }

  function ExtractUserKey(b: Bytes): Bytes {
    if |b| < 8 then [] else b[..|b| - 8]
  }

  lemma {:induction false} ExtractPacked(k: RawKey)
    ensures ExtractUserKey(Pack(k)) == k.user
  {
  }

  function UserKeys(keys: seq<Bytes>): (r: seq<Bytes>)
    ensures |r| == |keys| && forall i :: 0 <= i < |r| ==> r[i] == ExtractUserKey(keys[i])
  {
    seq(|keys|, i requires 0 <= i < |keys| => ExtractUserKey(keys[i]))
  }

  /** InternalFilterPolicy: the filters are about user keys. */
  function InternalPolicy(p: Policy): Policy {
    Policy(keys => p.create(UserKeys(keys)), (key, filter) => p.mayMatch(ExtractUserKey(key), filter))
  }

  lemma {:induction false} InternalIsSound(p: Policy)
    requires p.Sound()
    ensures InternalPolicy(p).Sound()
  {
    var q := InternalPolicy(p);
    forall keys: seq<Bytes>, key | key in keys
      ensures q.mayMatch(key, q.create(keys))
    {
      var i :| 0 <= i < |keys| && keys[i] == key;
      assert UserKeys(keys)[i] in UserKeys(keys);
    }
  }

  // ----- what a table file holds -----

  predicate InOrder(s: seq<Pair>) {
    forall i, j :: 0 <= i < j < |s| ==> Less(KeyOf(s[i].key), KeyOf(s[j].key))
  }

  lemma {:induction false} OneMoreInOrder(s: seq<Pair>, p: Pair)
    requires InOrder(s) && (s != [] ==> Less(KeyOf(s[|s| - 1].key), KeyOf(p.key)))
    ensures InOrder(s + [p])
  {
    forall i, j | 0 <= i < j < |s + [p]|
      ensures Less(KeyOf((s + [p])[i].key), KeyOf((s + [p])[j].key))
    {
      if j == |s| {
        assert i == |s| - 1 || Less(KeyOf(s[i].key), KeyOf(s[|s| - 1].key));
      }
    }
  }

  // Where the blocks start among the entries; the last block is still open.
  predicate Starts(starts: seq<nat>, n: nat) {
    && |starts| > 0 && starts[0] == 0 && starts[|starts| - 1] <= n
    && forall i, j :: 0 <= i < j < |starts| ==> starts[i] < starts[j]
  }

  // An index key for a block that ends before position `n`: the last key of the block, or
  // a key behind it whose user key is before that of the next entry.
  ghost predicate IndexKeyFits(k: RawKey, added: seq<Pair>, n: nat) {
    && 0 < n <= |added|
    && (k == added[n - 1].key
        || (Less(KeyOf(added[n - 1].key), KeyOf(k)) && (n < |added| ==> Rank(k.user) < Rank(added[n].key.user))))
  }

  ghost predicate Indexed(index: seq<Pair>, starts: seq<nat>, handles: seq<BlockHandle>, added: seq<Pair>) {
    && |index| < |starts| == |handles| + 1
    && forall i :: 0 <= i < |index| ==>
         IndexKeyFits(index[i].key, added, starts[i + 1]) && index[i].value == EncodeHandle(handles[i])
  }

  function Render(c: Codec, block: seq<Pair>): Bytes {
    c.render(block)
  }

  function RenderIndex(c: Codec, index: seq<Pair>): Bytes {
    c.renderIndex(index)
  }

  ghost predicate BlockAt(c: Codec, file: Bytes, h: BlockHandle, added: seq<Pair>, from: nat, to: nat) {
    from < to <= |added| && Holds(c.checksum, file, h, Render(c, added[from..to]))
  }

  ghost predicate Stored(c: Codec, file: Bytes, starts: seq<nat>, handles: seq<BlockHandle>, added: seq<Pair>) {
    && |starts| == |handles| + 1
    && forall i :: 0 <= i < |handles| ==> BlockAt(c, file, handles[i], added, starts[i], starts[i + 1])
  }

  ghost predicate AllIn(filtered: seq<(nat, Bytes)>, index: nat, added: seq<Pair>, from: nat, to: nat) {
    to <= |added| == |filtered| && forall j :: from <= j < to ==> filtered[j] == (index, Pack(added[j].key))
  }

  // Every entry of a finished block was added to the filter of the offset of its block.
  ghost predicate Filtered(filtered: seq<(nat, Bytes)>, starts: seq<nat>, handles: seq<BlockHandle>, added: seq<Pair>) {
    && |starts| == |handles| + 1
    && forall i :: 0 <= i < |handles| ==> AllIn(filtered, handles[i].offset / FILTER_BASE, added, starts[i], starts[i + 1])
  }

  // ----- the state of the builder, without the builder -----

  // The finished blocks are in the file, the open one holds what was added since.
  ghost predicate BlocksFit(c: Codec, file: Bytes, dataBlock: seq<Pair>, lastKey: RawKey, added: seq<Pair>, starts: seq<nat>,
                            handles: seq<BlockHandle>)
  {
    && InOrder(added) && Starts(starts, |added|) && dataBlock == added[starts[|starts| - 1]..]
    && Stored(c, file, starts, handles, added)
    && (added != [] ==> lastKey == added[|added| - 1].key)
  }

  // The index lacks the key of the last block until the next entry is known.
  ghost predicate IndexIs(index: seq<Pair>, pending: bool, pendingHandle: BlockHandle, added: seq<Pair>, starts: seq<nat>,
                          handles: seq<BlockHandle>)
  {
    && Starts(starts, |added|) && Indexed(index, starts, handles, added)
    && |index| == |handles| - (if pending then 1 else 0)
    && (pending ==> starts[|starts| - 1] == |added| && pendingHandle == handles[|handles| - 1])
    && (!pending && handles != [] ==> starts[|starts| - 1] < |added|)
  }

  // The entries of the open block go to the filter of the current offset.
  ghost predicate FilterIs(filtered: seq<(nat, Bytes)>, current: nat, added: seq<Pair>, starts: seq<nat>, handles: seq<BlockHandle>) {
    && Starts(starts, |added|) && Filtered(filtered, starts, handles, added)
    && AllIn(filtered, current, added, starts[|starts| - 1], |added|)
  }

  lemma {:induction false} StartsGrow(starts: seq<nat>, n: nat)
    requires Starts(starts, n)
    ensures |starts| > 0 && starts[|starts| - 1] <= n && Starts(starts, n + 1)
    ensures starts[|starts| - 1] < n ==> Starts(starts + [n], n)
  {
  }

  lemma {:induction false} BlocksAfterAdd(c: Codec, file: Bytes, dataBlock: seq<Pair>, lastKey: RawKey, added: seq<Pair>,
                                          starts: seq<nat>, handles: seq<BlockHandle>, p: Pair)
    requires BlocksFit(c, file, dataBlock, lastKey, added, starts, handles)
    requires added != [] ==> Less(KeyOf(lastKey), KeyOf(p.key))
    ensures BlocksFit(c, file, dataBlock + [p], p.key, added + [p], starts, handles)
  {
    hide Render;
    OneMoreInOrder(added, p);
    StartsGrow(starts, |added|);
    forall i | 0 <= i < |handles|
      ensures BlockAt(c, file, handles[i], added + [p], starts[i], starts[i + 1])
    {
      assert BlockAt(c, file, handles[i], added, starts[i], starts[i + 1]);
      assert (added + [p])[starts[i]..starts[i + 1]] == added[starts[i]..starts[i + 1]];
    }
  }

  // Index keys that had a next entry keep it.
  lemma {:induction false} IndexedMore(index: seq<Pair>, starts: seq<nat>, handles: seq<BlockHandle>, added: seq<Pair>, p: Pair)
    requires Starts(starts, |added|) && Indexed(index, starts, handles, added)
    requires |index| < |handles| || handles == [] || starts[|starts| - 1] < |added|
    ensures Indexed(index, starts, handles, added + [p])
  {
    forall i | 0 <= i < |index|
      ensures IndexKeyFits(index[i].key, added + [p], starts[i + 1])
    {
      assert starts[i + 1] < |added|;
      assert IndexKeyFits(index[i].key, added, starts[i + 1]);
    }
  }

  lemma {:induction false} IndexAfterAdd(index: seq<Pair>, h: BlockHandle, added: seq<Pair>, starts: seq<nat>,
                                         handles: seq<BlockHandle>, p: Pair)
    requires IndexIs(index, false, h, added, starts, handles)
    ensures IndexIs(index, false, h, added + [p], starts, handles)
  {
    IndexedMore(index, starts, handles, added, p);
    hide Indexed;
    StartsGrow(starts, |added|);
  }

  // The index key of the last block, once the entry after it is known.
  lemma {:induction false} IndexAfterPending(index: seq<Pair>, h: BlockHandle, added: seq<Pair>, starts: seq<nat>,
                                             handles: seq<BlockHandle>, p: Pair, sep: RawKey)
    requires IndexIs(index, true, h, added, starts, handles)
    requires added != [] ==> Separates(sep, added[|added| - 1].key, p.key)
    ensures IndexIs(index + [Pair(sep, EncodeHandle(h))], false, h, added + [p], starts, handles)
  {
    hide EncodeHandle;
    IndexedMore(index, starts, handles, added, p);
    StartsGrow(starts, |added|);
    LastBlockHasEntries(starts, handles, |added|);
    assert IndexKeyFits(sep, added + [p], |added|);
  }

  lemma {:induction false} LastBlockHasEntries(starts: seq<nat>, handles: seq<BlockHandle>, n: nat)
    requires Starts(starts, n) && |starts| == |handles| + 1 && handles != []
    ensures n > 0
  {
    assert starts[0] < starts[|handles|];
  }

  // ... or, at the end, when there is none.
  lemma {:induction false} IndexAtEnd(index: seq<Pair>, h: BlockHandle, added: seq<Pair>, starts: seq<nat>,
                                      handles: seq<BlockHandle>, succ: RawKey)
    requires IndexIs(index, true, h, added, starts, handles)
    requires added != [] ==> succ == added[|added| - 1].key || Less(KeyOf(added[|added| - 1].key), KeyOf(succ))
    ensures Indexed(index + [Pair(succ, EncodeHandle(h))], starts, handles, added)
  {
    hide EncodeHandle;
    LastBlockHasEntries(starts, handles, |added|);
    assert IndexKeyFits(succ, added, |added|);
  }

  lemma {:induction false} IndexAfterFlush(index: seq<Pair>, old_: BlockHandle, added: seq<Pair>, starts: seq<nat>,
                                           handles: seq<BlockHandle>, h: BlockHandle)
    requires IndexIs(index, false, old_, added, starts, handles) && starts[|starts| - 1] < |added|
    ensures IndexIs(index, true, h, added, starts + [|added|], handles + [h])
  {
    hide EncodeHandle;
    StartsGrow(starts, |added|);
  }

  lemma {:induction false} FilterAfterAdd(filtered: seq<(nat, Bytes)>, current: nat, added: seq<Pair>, starts: seq<nat>,
                                          handles: seq<BlockHandle>, p: Pair)
    requires FilterIs(filtered, current, added, starts, handles)
    ensures FilterIs(filtered + [(current, Pack(p.key))], current, added + [p], starts, handles)
  {
    hide Pack;
    StartsGrow(starts, |added|);
    var after := filtered + [(current, Pack(p.key))];
    forall i | 0 <= i < |handles|
      ensures AllIn(after, handles[i].offset / FILTER_BASE, added + [p], starts[i], starts[i + 1])
    {
      assert AllIn(filtered, handles[i].offset / FILTER_BASE, added, starts[i], starts[i + 1]);
    }
  }

  lemma {:induction false} FilterAfterFlush(filtered: seq<(nat, Bytes)>, added: seq<Pair>, starts: seq<nat>,
                                            handles: seq<BlockHandle>, h: BlockHandle, later: nat)
    requires FilterIs(filtered, h.offset / FILTER_BASE, added, starts, handles) && starts[|starts| - 1] < |added|
    ensures FilterIs(filtered, later, added, starts + [|added|], handles + [h])
  {
    assert |filtered| == |added|;
    hide AllIn;
    StartsGrow(starts, |added|);
    NothingOpen(filtered, later, added);
  }

  lemma {:induction false} NothingOpen(filtered: seq<(nat, Bytes)>, later: nat, added: seq<Pair>)
    requires |filtered| == |added|
    ensures AllIn(filtered, later, added, |added|, |added|)
  {
  }

  // A block is written behind what is there.
  lemma {:induction false} BlocksAfterFlush(c: Codec, before: Bytes, file: Bytes, dataBlock: seq<Pair>, lastKey: RawKey,
                                            added: seq<Pair>, starts: seq<nat>, handles: seq<BlockHandle>, h: BlockHandle)
    requires BlocksFit(c, before, dataBlock, lastKey, added, starts, handles) && dataBlock != [] && before <= file
    requires Holds(c.checksum, file, h, Render(c, dataBlock))
    ensures BlocksFit(c, file, [], lastKey, added, starts + [|added|], handles + [h])
  {
    hide Render;
    StartsGrow(starts, |added|);
    StillStored(c, before, file, starts, handles, added);
    assert added[starts[|starts| - 1]..] == added[starts[|starts| - 1]..|added|];
    assert BlockAt(c, file, h, added, starts[|starts| - 1], |added|);
    assert added[|added|..] == [];
  }

  lemma {:induction false} StillStored(c: Codec, before: Bytes, file: Bytes, starts: seq<nat>, handles: seq<BlockHandle>,
                                       added: seq<Pair>)
    requires Stored(c, before, starts, handles, added) && before <= file
    ensures Stored(c, file, starts, handles, added)
  {
    hide Render, Holds;
    forall i | 0 <= i < |handles|
      ensures BlockAt(c, file, handles[i], added, starts[i], starts[i + 1])
    {
      assert BlockAt(c, before, handles[i], added, starts[i], starts[i + 1]);
      StillHolds(c.checksum, before, file, handles[i], Render(c, added[starts[i]..starts[i + 1]]));
    }
  }

  class TableBuilder {
    const codec: Codec
    const blockSize: nat
    // The name of the policy, behind a prefix the key in the metaindex block.
    const policyName: Bytes
    const filterBlock: FilterBlockBuilder?
    var file: Bytes
    var offset: nat
    var dataBlock: seq<Pair>
    var indexBlock: seq<Pair>
    var lastKey: RawKey
    var numEntries: nat
    var closed: bool
    var pendingIndexEntry: bool
    var pendingHandle: BlockHandle
    // Everything that was added, and the finished blocks.
    ghost var added: seq<Pair>
    ghost var starts: seq<nat>
    ghost var handles: seq<BlockHandle>

    ghost predicate Ok()
      reads this, filterBlock
    {
      && numEntries == |added| && offset == |file|
      && BlocksFit(codec, file, dataBlock, lastKey, added, starts, handles)
      && IndexIs(indexBlock, pendingIndexEntry, pendingHandle, added, starts, handles)
      && (filterBlock != null ==>
            && filterBlock.Ok() && |filterBlock.groups| == offset / FILTER_BASE
            && FilterIs(filterBlock.added, offset / FILTER_BASE, added, starts, handles))
    }

    constructor (codec: Codec, blockSize: nat, policyName: Bytes, policy: Option<Policy>)
      ensures Ok() && !closed && added == [] && this.codec == codec && this.blockSize == blockSize && this.policyName == policyName
      ensures dataBlock == [] && starts == [0]
      ensures filterBlock == null || fresh(filterBlock)
      ensures filterBlock != null <==> policy.Some?
      ensures policy.Some? ==> filterBlock.policy == InternalPolicy(policy.value)
    {
      this.codec, this.blockSize, this.policyName := codec, blockSize, policyName;
      file, offset, dataBlock, indexBlock := [], 0, [], [];
      lastKey, numEntries, closed := RawKey([], 0, Deletion), 0, false;
      pendingIndexEntry, pendingHandle := false, BlockHandle(0, 0);
      added, starts, handles := [], [0], [];
      var f: FilterBlockBuilder? := null;
      if policy.Some? {
        f := new FilterBlockBuilder(InternalPolicy(policy.value));
        f.StartBlock(0);
      }
      filterBlock := f;
    }

    /** Add; a block that has reached its size is written. */
    method Add(key: RawKey, value: Bytes)
      requires Ok() && !closed && (numEntries > 0 ==> Less(KeyOf(lastKey), KeyOf(key)))
      modifies this, filterBlock
      ensures Ok() && !closed && added == old(added) + [Pair(key, value)]
      ensures lastKey == key && numEntries == old(numEntries) + 1
      ensures var block := old(dataBlock) + [Pair(key, value)];
        if codec.sizeSoFar(block) >= blockSize then dataBlock == [] && starts == old(starts) + [|added|]
        else dataBlock == block && starts == old(starts)
    {
      hide FilterIs, FilterBlockBuilder.Ok;
      AddEntry(key, value);
      if codec.sizeSoFar(dataBlock) >= blockSize {
        Flush();
      }
    }

    // The index key of the block before is due once the next entry is known.
    method DueIndexEntry(p: Pair)
      requires IndexIs(indexBlock, pendingIndexEntry, pendingHandle, added, starts, handles)
      requires added != [] ==> lastKey == added[|added| - 1].key
      modifies this`lastKey, this`indexBlock, this`pendingIndexEntry
      ensures !pendingIndexEntry && IndexIs(indexBlock, false, pendingHandle, added + [p], starts, handles)
    {
      hide IndexIs, Separates, Separable, ShortestBetween, EncodeHandle;
      if pendingIndexEntry {
        lastKey := ShortestSeparator(lastKey, p.key);
        IndexAfterPending(indexBlock, pendingHandle, added, starts, handles, p, lastKey);
        indexBlock := indexBlock + [Pair(lastKey, EncodeHandle(pendingHandle))];
        pendingIndexEntry := false;
      } else {
        IndexAfterAdd(indexBlock, pendingHandle, added, starts, handles, p);
      }
    }

    // The entry goes to the filter and to the open block.
    method AddEntry(key: RawKey, value: Bytes)
      requires Ok() && !closed && (numEntries > 0 ==> Less(KeyOf(lastKey), KeyOf(key)))
      modifies this, filterBlock
      ensures Ok() && !closed && added == old(added) + [Pair(key, value)]
      ensures dataBlock == old(dataBlock) + [Pair(key, value)] && starts == old(starts)
    {
      hide BlocksFit, IndexIs, FilterIs, Pack, EncodeHandle, Less, KeyOf, FilterBlockBuilder.Ok;
      ghost var p := Pair(key, value);
      LastAdded(codec, file, dataBlock, lastKey, added, starts, handles);
      BlocksAfterAdd(codec, file, dataBlock, lastKey, added, starts, handles, p);
      DueIndexEntry(Pair(key, value));
      if filterBlock != null {
        FilterAfterAdd(filterBlock.added, offset / FILTER_BASE, added, starts, handles, p);
        filterBlock.AddKey(Pack(key));
      }
      lastKey := key;
      numEntries := numEntries + 1;
      dataBlock := dataBlock + [Pair(key, value)];
      added := added + [p];
    }

    /** Flush: the open block, if it has entries, is written and waits for its index key. */
    method Flush()
      requires Ok() && !closed
      modifies this`file, this`offset, this`dataBlock, this`pendingIndexEntry, this`pendingHandle
      modifies this`starts, this`handles, filterBlock
      ensures Ok() && dataBlock == []
      ensures starts == if old(dataBlock) == [] then old(starts) else old(starts) + [|added|]
    {
      hide BlocksFit, IndexIs, FilterIs, AllFilters, Offsets, Holds;
      OpenBlock(codec, file, dataBlock, lastKey, added, starts, handles, indexBlock, pendingIndexEntry, pendingHandle);
      if dataBlock == [] {
        return;
      }
      ghost var before, previous := file, pendingHandle;
      pendingHandle := WriteRawBlock(Render(codec, dataBlock));
      BlocksAfterFlush(codec, before, file, dataBlock, lastKey, added, starts, handles, pendingHandle);
      IndexAfterFlush(indexBlock, previous, added, starts, handles, pendingHandle);
      if filterBlock != null {
        FilterAfterFlush(filterBlock.added, added, starts, handles, pendingHandle, offset / FILTER_BASE);
      }
      dataBlock := [];
      starts, handles := starts + [|added|], handles + [pendingHandle];
      pendingIndexEntry := true;
      if filterBlock != null {
        filterBlock.StartBlock(offset);
      }
    }

    // The contents and their trailer.
    method WriteRawBlock(contents: Bytes) returns (handle: BlockHandle)
      requires offset == |file|
      modifies this`file, this`offset
      ensures handle == BlockHandle(old(offset), |contents|)
      ensures file == old(file) + contents + Trailer(codec.checksum, contents) && offset == |file|
      ensures old(file) <= file && Holds(codec.checksum, file, handle, contents)
    {
      hide EncodeFixed32;
      handle := BlockHandle(offset, |contents|);
      ghost var before := file;
      file := file + contents;
      var trailer := [NO_COMPRESSION] + EncodeFixed32(codec.checksum(contents + [NO_COMPRESSION]));
      file := file + trailer;
      offset := offset + |contents| + BLOCK_TRAILER_SIZE;
      assert file[|before|..] == contents + trailer;
    }

    /** Finish: the filter block, the metaindex block, the index block and the footer. */
    method Finish() returns (ghost d: Contents)
      requires Ok() && !closed
      modifies this, filterBlock
      ensures closed && d.added == old(added)
      ensures d.starts == if old(dataBlock) == [] then old(starts) else old(starts) + [|d.added|]
      ensures d.filter.Some? <==> filterBlock != null
      ensures d.filter.Some? ==> d.filter.value.policy == filterBlock.policy
      ensures d.InFile(codec, policyName, file)
    {
      hide BlocksFit, IndexIs, FilterIs, Holds, Indexed, Stored, InOrder, Less, EncodeHandle, HasKeys, EncodeFooter, MetaEntries, Trailer,
        FilterHeld, Contents.InFile, Starts, Render, RenderIndex;
      Flush();
      closed := true;
      ghost var blocks := file;
      AtEnd(codec, file, lastKey, added, starts, handles, indexBlock, pendingIndexEntry, pendingHandle);
      var filterHandle, filter := WriteFilter();
      ghost var withFilter := file;
      var metaindexHandle := WriteRawBlock(codec.renderMeta(MetaEntries(policyName, filterHandle)));
      ghost var withMeta := file;
      LastIndexEntry();
      var indexHandle := WriteRawBlock(RenderIndex(codec, indexBlock));
      ghost var withIndex := file;
      var footer := EncodeFooter(Footer(metaindexHandle, indexHandle));
      file := file + footer;
      offset := offset + |footer|;
      d := Contents(added, starts, handles, indexBlock, filter, filterHandle, Footer(metaindexHandle, indexHandle));
      AllInFile(codec, policyName, d, blocks, withFilter, withMeta, withIndex, file);
    }

    // The index key of the last block.
    method LastIndexEntry()
      requires IndexIs(indexBlock, pendingIndexEntry, pendingHandle, added, starts, handles)
      requires if pendingIndexEntry then |indexBlock| == |handles| - 1
               else |indexBlock| == |handles| && Indexed(indexBlock, starts, handles, added)
      requires added != [] ==> lastKey == added[|added| - 1].key
      modifies this`lastKey, this`indexBlock, this`pendingIndexEntry
      ensures |indexBlock| == |handles| && Indexed(indexBlock, starts, handles, added)
    {
      hide Indexed, IndexIs, EncodeHandle, Less;
      if pendingIndexEntry {
        lastKey := ShortSuccessor(lastKey);
        IndexAtEnd(indexBlock, pendingHandle, added, starts, handles, lastKey);
        indexBlock := indexBlock + [Pair(lastKey, EncodeHandle(pendingHandle))];
        pendingIndexEntry := false;
      }
    }

    // The filter block, if there is a policy.
    method WriteFilter() returns (filterHandle: Option<BlockHandle>, ghost filter: Option<Filters>)
      requires Ok() && dataBlock == []
      modifies this`file, this`offset, filterBlock
      ensures old(file) <= file && offset == |file|
      ensures filter.Some? <==> filterBlock != null
      ensures filter.Some? ==> filter.value.policy == filterBlock.policy && HasKeys(filter.value.groups, starts, handles, added)
      ensures FilterHeld(codec, file, filter, filterHandle)
    {
      hide BlocksFit, IndexIs, FilterIs, AllFilters, Offsets, Holds, Indexed, Stored, InOrder, Less, EncodeHandle, HasKeys, FilterImage, Trailer;
      filterHandle, filter := None, None;
      if filterBlock != null {
        AtEnd(codec, file, lastKey, added, starts, handles, indexBlock, pendingIndexEntry, pendingHandle);
        ghost var current := offset / FILTER_BASE;
        var contents := filterBlock.Finish();
        InTheirFilters(filterBlock.added, filterBlock.groups, current, added, starts, handles);
        var handle := WriteRawBlock(contents);
        filterHandle := Some(handle);
        filter := Some(Filters(filterBlock.policy, filterBlock.groups));
      }
    }
  }

  // The filter block is where the handle says.
  ghost predicate FilterHeld(c: Codec, file: Bytes, filter: Option<Filters>, filterHandle: Option<BlockHandle>) {
    && (filterHandle.Some? <==> filter.Some?)
    && (filter.Some? && SmallFilters(filter.value.policy, filter.value.groups) ==>
          Holds(c.checksum, file, filterHandle.value, FilterImage(filter.value.policy, filter.value.groups)))
  }

  // What was written stays where it is while more is written behind it.
  lemma {:induction false} AllInFile(c: Codec, policyName: Bytes, d: Contents, blocks: Bytes, withFilter: Bytes, withMeta: Bytes,
                                     withIndex: Bytes, file: Bytes)
    requires InOrder(d.added) && Starts(d.starts, |d.added|) && d.starts[|d.starts| - 1] == |d.added|
    requires Indexed(d.index, d.starts, d.handles, d.added) && |d.index| == |d.handles|
    requires d.filter.Some? ==> HasKeys(d.filter.value.groups, d.starts, d.handles, d.added)
    requires Stored(c, blocks, d.starts, d.handles, d.added)
    requires blocks <= withFilter <= withMeta <= withIndex && file == withIndex + EncodeFooter(d.footer)
    requires FilterHeld(c, withFilter, d.filter, d.filterHandle)
    requires Holds(c.checksum, withMeta, d.footer.metaindexHandle, c.renderMeta(MetaEntries(policyName, d.filterHandle)))
    requires Holds(c.checksum, withIndex, d.footer.indexHandle, RenderIndex(c, d.index))
    ensures d.InFile(c, policyName, file)
  {
    hide InOrder, Starts, Indexed, HasKeys, Stored, Holds, EncodeFooter, MetaEntries, FilterImage, SmallFilters;
    assert file[|file| - FOOTER_LENGTH..] == EncodeFooter(d.footer);
    StillStored(c, blocks, file, d.starts, d.handles, d.added);
    StillHolds(c.checksum, withMeta, file, d.footer.metaindexHandle, c.renderMeta(MetaEntries(policyName, d.filterHandle)));
    StillHolds(c.checksum, withIndex, file, d.footer.indexHandle, RenderIndex(c, d.index));
    if d.filter.Some? && SmallFilters(d.filter.value.policy, d.filter.value.groups) {
      StillHolds(c.checksum, withFilter, file, d.filterHandle.value, FilterImage(d.filter.value.policy, d.filter.value.groups));
    }
  }

  // ----- the metaindex block -----

  // "filter."
  const FILTER_PREFIX: Bytes := [102, 105, 108, 116, 101, 114, 46]

  function MetaEntries(policyName: Bytes, filterHandle: Option<BlockHandle>): seq<(Bytes, Bytes)> {
    if filterHandle.Some? then [(FILTER_PREFIX + policyName, EncodeHandle(filterHandle.value))] else []
  }

  // Seek in the metaindex block, and the value if the key is there.
  function FindMeta(meta: seq<(Bytes, Bytes)>, key: Bytes): Option<Bytes>
    decreases |meta|
  {
    if meta == [] then None
    else if BytesLess(meta[0].0, key) then FindMeta(meta[1..], key)
    else if meta[0].0 == key then Some(meta[0].1)
    else None
  }

  lemma {:induction false} FilterIsFound(policyName: Bytes, filterHandle: Option<BlockHandle>)
    ensures FindMeta(MetaEntries(policyName, filterHandle), FILTER_PREFIX + policyName)
            == if filterHandle.Some? then Some(EncodeHandle(filterHandle.value)) else None
  {
    RankOrdersLikeBytes(FILTER_PREFIX + policyName, FILTER_PREFIX + policyName);
  }

  lemma {:induction false} LastAdded(c: Codec, file: Bytes, dataBlock: seq<Pair>, lastKey: RawKey, added: seq<Pair>,
                                     starts: seq<nat>, handles: seq<BlockHandle>)
    requires BlocksFit(c, file, dataBlock, lastKey, added, starts, handles)
    ensures added != [] ==> lastKey == added[|added| - 1].key
  {
  }

  lemma {:induction false} OpenBlock(c: Codec, file: Bytes, dataBlock: seq<Pair>, lastKey: RawKey, added: seq<Pair>,
                                     starts: seq<nat>, handles: seq<BlockHandle>, index: seq<Pair>, pending: bool, h: BlockHandle)
    requires BlocksFit(c, file, dataBlock, lastKey, added, starts, handles)
    requires IndexIs(index, pending, h, added, starts, handles)
    ensures |starts| > 0 && starts[|starts| - 1] <= |added|
    ensures dataBlock != [] ==> !pending && starts[|starts| - 1] < |added|
  {
  }

  lemma {:induction false} AtEnd(c: Codec, file: Bytes, lastKey: RawKey, added: seq<Pair>, starts: seq<nat>,
                                 handles: seq<BlockHandle>, index: seq<Pair>, pending: bool, h: BlockHandle)
    requires BlocksFit(c, file, [], lastKey, added, starts, handles)
    requires IndexIs(index, pending, h, added, starts, handles)
    ensures |starts| > 0 && InOrder(added) && Starts(starts, |added|) && starts[|starts| - 1] == |added| && |starts| == |handles| + 1
    ensures Stored(c, file, starts, handles, added)
    ensures added != [] ==> lastKey == added[|added| - 1].key
    ensures pending ==> |index| == |handles| - 1
    ensures !pending ==> |index| == |handles| && Indexed(index, starts, handles, added)
  {
  }

  // The builder of the filters has put every key into the filter of its number.
  ghost predicate Grouped(filtered: seq<(nat, Bytes)>, groups: seq<seq<Bytes>>) {
    && (forall g :: 0 <= g < |groups| ==> groups[g] == KeysOf(filtered, g))
    && forall a :: a in filtered ==> a.0 < |groups|
  }

  lemma {:induction false} InTheirFilters(filtered: seq<(nat, Bytes)>, groups: seq<seq<Bytes>>, current: nat, added: seq<Pair>,
                                          starts: seq<nat>, handles: seq<BlockHandle>)
    requires FilterIs(filtered, current, added, starts, handles) && Grouped(filtered, groups) && starts[|starts| - 1] == |added|
    ensures HasKeys(groups, starts, handles, added)
  {
    hide Pack, KeysOf, Grouped;
    forall i | 0 <= i < |handles|
      ensures AllInGroup(groups, handles[i].offset / FILTER_BASE, added, starts[i], starts[i + 1])
    {
      InItsFilter(filtered, groups, handles[i].offset / FILTER_BASE, added, starts[i], starts[i + 1]);
    }
    forall g, key | 0 <= g < |groups| && key in groups[g]
      ensures OfBlock(g, key, starts, handles, added)
    {
      OnlyItsKeys(filtered, groups, current, added, starts, handles, g, key);
    }
  }

  lemma {:induction false} InItsFilter(filtered: seq<(nat, Bytes)>, groups: seq<seq<Bytes>>, index: nat, added: seq<Pair>,
                                       from: nat, to: nat)
    requires AllIn(filtered, index, added, from, to) && Grouped(filtered, groups)
    ensures AllInGroup(groups, index, added, from, to)
  {
    hide Pack, KeysOf;
    if from < to {
      assert filtered[from] in filtered;
      var group := groups[index];
      forall j | from <= j < to
        ensures Pack(added[j].key) in group
      {
        assert filtered[j] in filtered;
        KeysOfMembers(filtered, index, Pack(added[j].key));
      }
    }
  }

  lemma {:induction false} OnlyItsKeys(filtered: seq<(nat, Bytes)>, groups: seq<seq<Bytes>>, current: nat, added: seq<Pair>,
                                       starts: seq<nat>, handles: seq<BlockHandle>, g: nat, key: Bytes)
    requires FilterIs(filtered, current, added, starts, handles) && Grouped(filtered, groups) && starts[|starts| - 1] == |added|
    requires g < |groups| && key in groups[g]
    ensures OfBlock(g, key, starts, handles, added)
  {
    hide Pack, KeysOf;
    KeysOfMembers(filtered, g, key);
    var j :| 0 <= j < |filtered| && filtered[j] == (g, key);
    var i := BlockOf(starts, |added|, j);
    assert AllIn(filtered, handles[i].offset / FILTER_BASE, added, starts[i], starts[i + 1]);
    assert j < |added| && filtered[j] == (handles[i].offset / FILTER_BASE, Pack(added[j].key));
  }

  // The block that an entry went to.
  lemma {:induction false} BlockOf(starts: seq<nat>, n: nat, j: nat) returns (i: nat)
    requires Starts(starts, n) && j < n && starts[|starts| - 1] == n
    ensures i + 1 < |starts| && starts[i] <= j < starts[i + 1]
  {
    i := 0;
    while starts[i + 1] <= j
      invariant i + 1 < |starts| && starts[i] <= j
    {
      i := i + 1;
    }
  }

  datatype Filters = Filters(policy: Policy, groups: seq<seq<Bytes>>)

  // What is in a finished table.
  datatype Contents = Contents(added: seq<Pair>, starts: seq<nat>, handles: seq<BlockHandle>, index: seq<Pair>,
                               filter: Option<Filters>, filterHandle: Option<BlockHandle>, footer: Footer)
  {
    ghost predicate Shaped() {
      && InOrder(added) && Starts(starts, |added|) && starts[|starts| - 1] == |added|
      && Indexed(index, starts, handles, added) && |index| == |handles|
      && (filter.Some? ==> HasKeys(filter.value.groups, starts, handles, added))
    }

    ghost predicate Fits(c: Codec, file: Bytes) {
      Shaped() && Stored(c, file, starts, handles, added)
    }

    // Every block survives being written and read.
    ghost predicate ReadBack(c: Codec) {
      && |starts| == |handles| + 1
      && forall b :: 0 <= b < |handles| ==> c.ReadsBack(Part(added, starts[b], starts[b + 1]))
    }

    // The file holds all of it, as the builder leaves it.
    ghost predicate InFile(c: Codec, policyName: Bytes, file: Bytes) {
      && Fits(c, file) && FilterHeld(c, file, filter, filterHandle)
      && Holds(c.checksum, file, footer.indexHandle, RenderIndex(c, index))
      && Holds(c.checksum, file, footer.metaindexHandle, c.renderMeta(MetaEntries(policyName, filterHandle)))
      && EndsWith(file, footer)
    }

    // ... and everything in it can be read back.
    ghost predicate ReadsIn(c: Codec, policyName: Bytes, file: Bytes) {
      && InFile(c, policyName, file) && Small()
      && ReadBack(c) && c.IndexReadsBack(index) && c.MetaReadsBack(MetaEntries(policyName, filterHandle))
    }

    // Sizes that the format has room for.
    ghost predicate Small() {
      && (forall h :: h in handles ==> h.Small())
      && footer.indexHandle.Small() && footer.metaindexHandle.Small() && (filterHandle.Some? ==> filterHandle.value.Small())
      && (filter.Some? ==> SmallFilters(filter.value.policy, filter.value.groups))
    }
  }

  ghost predicate AllInGroup(groups: seq<seq<Bytes>>, index: nat, added: seq<Pair>, from: nat, to: nat) {
    to <= |added| && forall j :: from <= j < to ==> index < |groups| && Pack(added[j].key) in groups[index]
  }

  // The key is that of an entry whose block starts in the range of the filter.
  ghost predicate OfBlock(g: nat, key: Bytes, starts: seq<nat>, handles: seq<BlockHandle>, added: seq<Pair>)
    requires |starts| == |handles| + 1
  {
    exists i, j :: 0 <= i < |handles| && handles[i].offset / FILTER_BASE == g && starts[i] <= j < starts[i + 1] && j < |added|
                   && key == Pack(added[j].key)
  }

  // Every filter is of the keys of the blocks that start in its range, and of no others.
  ghost predicate HasKeys(groups: seq<seq<Bytes>>, starts: seq<nat>, handles: seq<BlockHandle>, added: seq<Pair>) {
    && |starts| == |handles| + 1
    && (forall g, key :: 0 <= g < |groups| && key in groups[g] ==> OfBlock(g, key, starts, handles, added))
    && forall i :: 0 <= i < |handles| ==> AllInGroup(groups, handles[i].offset / FILTER_BASE, added, starts[i], starts[i + 1])
  }

  // ----- reading -----

  datatype Answer = Nothing | Passed(pair: Pair) | Corruption

  function ReadBlock(c: Codec, verify: bool, file: Bytes, h: BlockHandle): Option<seq<Pair>> {
    match ReadContents(c.checksum, verify, file, h)
    case None => None
    case Some(b) => c.parse(b)
  }

  // What Open cannot do without.
  function ReadFooter(file: Bytes): Option<Footer> {
    if |file| < FOOTER_LENGTH then None else DecodeFooter(file[|file| - FOOTER_LENGTH..])
  }

  function ReadIndex(c: Codec, verify: bool, file: Bytes): Option<seq<Pair>> {
    match ReadFooter(file)
    case None => None
    case Some(footer) => ReadBlock(c, verify, file, footer.indexHandle)
  }

  // ReadMeta and ReadFilter: the contents of the filter block, if nothing is wrong.
  function ReadFilter(c: Codec, policyName: Bytes, verify: bool, file: Bytes, metaindexHandle: BlockHandle): Option<Bytes> {
    match ReadContents(c.checksum, verify, file, metaindexHandle)
    case None => None
    case Some(b) =>
      match c.parseMeta(b)
      case None => None
      case Some(meta) =>
        match FindMeta(meta, FILTER_PREFIX + policyName)
        case None => None
        case Some(value) =>
          match DecodeHandle(value)
          case None => None
          case Some(h) => ReadContents(c.checksum, verify, file, h)
  }

  // The reader of the filter block that was written for these contents.
  ghost predicate IsReaderOf(r: FilterBlockReader, f: Filters) {
    && r.policy == f.policy && SmallFilters(f.policy, f.groups) && r.data == FilterImage(f.policy, f.groups)
    && r.offset <= |r.data| && (r.num > 0 ==> r.offset + 4 * r.num + 5 <= |r.data|)
    && (|r.data| >= 5 && DecodeFixed32(r.data[|r.data| - 5..]) <= |r.data| - 5 ==>
          && r.baseLg == r.data[|r.data| - 1] as int && r.offset == DecodeFixed32(r.data[|r.data| - 5..])
          && r.num == (|r.data| - 5 - r.offset) / 4)
  }

  class Table {
    const codec: Codec
    const file: Bytes
    const index: seq<Pair>
    const filter: FilterBlockReader?

    // An opened table, whatever its file holds.
    ghost predicate Valid() {
      filter != null ==> filter.offset <= |filter.data| && (filter.num > 0 ==> filter.offset + 4 * filter.num + 5 <= |filter.data|)
    }

    // ... and one whose file was written by the builder.
    ghost predicate Reads(d: Contents, p: Policy) {
      && d.ReadBack(codec) && d.Fits(codec, file) && d.Small() && index == d.index
      && (filter != null ==>
            && d.filter.Some? && d.filter.value.policy == InternalPolicy(p) && p.Sound()
            && IsReaderOf(filter, d.filter.value))
    }

    constructor (codec: Codec, file: Bytes, index: seq<Pair>, filter: FilterBlockReader?)
      ensures this.codec == codec && this.file == file && this.index == index && this.filter == filter
    {
      this.codec, this.file, this.index, this.filter := codec, file, index, filter;
    }

    /** Open: the footer, the index block and, if there is one, the filter block. */
    static method Open(codec: Codec, policy: Option<Policy>, policyName: Bytes, verify: bool, file: Bytes, ghost d: Contents)
      returns (t: Table?)
      ensures t == null <==> ReadIndex(codec, verify, file) == None
      ensures t != null ==> t.Valid()
      ensures (policy.Some? ==> policy.value.Sound()) && d.ReadsIn(codec, policyName, file)
              && (d.filter.Some? && policy.Some? ==> d.filter.value.policy == InternalPolicy(policy.value))
              ==> t != null && t.Reads(d, if policy.Some? then policy.value else Policy(_ => [], (_, _) => true))
    {
      hide FilterImage, SmallFilters, InternalPolicy, Contents.Shaped, Contents.ReadsIn, Stored, DecodeFooter, ReadContents, FindMeta, MetaEntries,
        DecodeHandle, Policy.Sound;
      if d.ReadsIn(codec, policyName, file) {
        IndexIsRead(codec, policyName, verify, file, d);
        FilterIsRead(codec, policyName, verify, file, d);
      }
      var footer := ReadFooter(file);
      if footer.None? {
        return null;
      }
      var block := ReadBlock(codec, verify, file, footer.value.indexHandle);
      if block.None? {
        return null;
      }
      var filter: FilterBlockReader? := null;
      if policy.Some? {
        var contents := ReadFilter(codec, policyName, verify, file, footer.value.metaindexHandle);
        if contents.Some? {
          filter := new FilterBlockReader(InternalPolicy(policy.value), contents.value);
        }
      }
      t := new Table(codec, file, block.value, filter);
    }

    // The filter says that the key is not in the block.
    ghost predicate Rejected(h: BlockHandle, k: RawKey)
      requires Valid()
    {
      filter != null && !MayMatch(filter.policy, filter.data, filter.offset, filter.num, ShiftRight(h.offset, filter.baseLg), Pack(k))
    }

    /**
     InternalGet passes on the first entry at or after the key, unless that entry has
     another user key.  In any table, it looks into the one block that the index names; what
     cannot be read there is an error.
     */
    method InternalGet(k: RawKey, verify: bool, ghost d: Contents, ghost p: Policy) returns (r: Answer)
      requires Valid()
      ensures Reads(d, p) ==> Answers(d.added, k, r)
      ensures var b := Position(AsEntries(index), KeyOf(k));
        if b == |index| then r == Nothing
        else
          match DecodeHandle(index[b].value)
          case None => r == Corruption
          case Some(h) =>
            if Rejected(h, k) then r == Nothing
            else
              match ReadBlock(codec, verify, file, h)
              case None => r == Corruption
              case Some(block) => AnswerIn(block, k, r)
    {
      hide Contents.Shaped, Stored, Pack, Position, MayMatch, EncodeHandle, DecodeHandle, IsReaderOf, Policy.Sound, InternalPolicy;
      if Reads(d, p) {
        IndexLeadsToBlock(d, k);
      }
      var iiter := new Cursor(AsEntries(index));
      iiter.Seek(KeyOf(k));
      if !iiter.Valid() {
        return Nothing;
      }
      var b := iiter.at.value;
      if Reads(d, p) {
        HandleIsStored(codec, verify, file, d, b);
      }
      var handle := DecodeHandle(iiter.Current().value);
      if filter != null && handle.Some? {
        var may := filter.KeyMayMatch(handle.value.offset, Pack(k));
        if !may {
          if Reads(d, p) {
            NotInBlock(filter, d, p, b, k);
          }
          return Nothing;
        }
      }
      if handle.None? {
        return Corruption;
      }
      var block := ReadBlock(codec, verify, file, handle.value);
      if block.None? {
        return Corruption;
      }
      var blockIter := new Cursor(AsEntries(block.value));
      blockIter.Seek(KeyOf(k));
      if blockIter.Valid() {
        return Passed(block.value[blockIter.at.value]);
      }
      return Nothing;
    }
  }

  // The first entry of a block at or after the key, if there is one.
  ghost predicate AnswerIn(block: seq<Pair>, k: RawKey, r: Answer) {
    var q := Position(AsEntries(block), KeyOf(k));
    r == if q < |block| then Passed(block[q]) else Nothing
  }

  /** With verification, a block whose bytes do not carry its checksum is not read. */
  lemma {:induction false} DamagedBlockIsRefused(c: Codec, file: Bytes, h: BlockHandle)
    requires forall contents :: !Holds(c.checksum, file, h, contents)
    ensures ReadBlock(c, true, file, h) == None
  {
    hide Holds, ReadContents;
    match ReadContents(c.checksum, true, file, h)
    case None =>
    case Some(contents) => VerifiedIsHeld(c.checksum, file, h, contents);
  }

  // The first entry at or after the key, or nothing when it is of another user key.
  ghost predicate Answers(added: seq<Pair>, k: RawKey, r: Answer) {
    var q := Position(AsEntries(added), KeyOf(k));
    match r
    case Passed(pair) => q < |added| && pair == added[q]
    case Nothing => q == |added| || added[q].key.user != k.user
    case Corruption => false
  }

  function BlockOfContents(d: Contents, b: nat): seq<Pair>
    requires b + 1 < |d.starts| && d.starts[b] <= d.starts[b + 1] <= |d.added|
  {
    d.added[d.starts[b]..d.starts[b + 1]]
  }

  // Search in the index, then in the block it names, against search in all entries.
  lemma {:induction false} IndexLeadsToBlock(d: Contents, k: RawKey)
    requires d.Shaped()
    ensures var b := Position(AsEntries(d.index), KeyOf(k));
      var q := Position(AsEntries(d.added), KeyOf(k));
      if b == |d.index| then q == |d.added|
      else
        && |d.starts| == |d.index| + 1 && d.starts[b] < d.starts[b + 1] <= |d.added|
        && d.starts[b] <= q <= d.starts[b + 1]
        && Position(AsEntries(BlockOfContents(d, b)), KeyOf(k)) == q - d.starts[b]
        && (q == d.starts[b + 1] && q < |d.added| ==> d.added[q].key.user != k.user)
  {
    hide HasKeys, EncodeHandle, Position;
    var b: nat := Position(AsEntries(d.index), KeyOf(k));
    var q: nat := Position(AsEntries(d.added), KeyOf(k));
    if b > 0 {
      assert IndexKeyFits(d.index[b - 1].key, d.added, d.starts[b]);
      assert Less(AsEntries(d.index)[b - 1].key, KeyOf(k));
      BehindPosition(d.added, k, d.starts[b] - 1);
    }
    if b < |d.index| {
      assert IndexKeyFits(d.index[b].key, d.added, d.starts[b + 1]);
      assert AtMost(KeyOf(k), AsEntries(d.index)[b].key);
      NextIsAfter(d.index[b].key, d.added, d.starts[b + 1], k);
      PositionInPart(d.added, d.starts[b], d.starts[b + 1], k);
    }
  }

  lemma {:induction false} BehindPosition(s: seq<Pair>, k: RawKey, i: nat)
    requires i < |s| && InOrder(s) && Less(KeyOf(s[i].key), KeyOf(k))
    ensures i < Position(AsEntries(s), KeyOf(k))
  {
    hide Position;
    var q: nat := Position(AsEntries(s), KeyOf(k));
    if q < |s| {
      assert AtMost(KeyOf(k), AsEntries(s)[q].key);
      assert q < i ==> Less(KeyOf(s[q].key), KeyOf(s[i].key));
    }
  }

  // Behind a block come keys after its index key, and if the whole block is before the
  // target, keys of other user keys.
  lemma {:induction false} NextIsAfter(index: RawKey, s: seq<Pair>, n: nat, k: RawKey)
    requires IndexKeyFits(index, s, n) && InOrder(s) && AtMost(KeyOf(k), KeyOf(index))
    ensures Position(AsEntries(s), KeyOf(k)) <= n
    ensures Position(AsEntries(s), KeyOf(k)) == n < |s| ==> s[n].key.user != k.user
  {
    hide Position;
    var q: nat := Position(AsEntries(s), KeyOf(k));
    if n < |s| {
      assert Less(KeyOf(s[n - 1].key), KeyOf(s[n].key));
      assert !Less(AsEntries(s)[n].key, KeyOf(k));
    }
    if n == q {
      assert Less(AsEntries(s)[n - 1].key, KeyOf(k));
    }
  }

  lemma {:induction false} PositionInPart(s: seq<Pair>, from: nat, to: nat, k: RawKey)
    requires InOrder(s) && from <= to <= |s| && from <= Position(AsEntries(s), KeyOf(k)) <= to
    ensures Position(AsEntries(s[from..to]), KeyOf(k)) == Position(AsEntries(s), KeyOf(k)) - from
  {
    hide Position;
    var q: nat := Position(AsEntries(s), KeyOf(k));
    var t := AsEntries(s[from..to]);
    forall i | 0 <= i < |t|
      ensures i < q - from <==> Less(t[i].key, KeyOf(k))
    {
      assert t[i] == AsEntries(s)[from + i];
      if i >= q - from {
        assert AtMost(KeyOf(k), AsEntries(s)[q].key);
        assert q < from + i ==> Less(KeyOf(s[q].key), KeyOf(s[from + i].key));
      }
    }
    PositionIs(t, KeyOf(k), q - from);
  }

  // The index entry leads to the block.
  lemma {:induction false} HandleIsStored(c: Codec, verify: bool, file: Bytes, d: Contents, b: nat)
    requires d.ReadBack(c) && d.Fits(c, file) && d.Small() && b < |d.index|
    ensures |d.starts| == |d.index| + 1 == |d.handles| + 1 && d.starts[b] < d.starts[b + 1] <= |d.added|
    ensures DecodeHandle(d.index[b].value) == Some(d.handles[b])
    ensures ReadBlock(c, verify, file, d.handles[b]) == Some(BlockOfContents(d, b))
  {
    hide EncodeHandle, DecodeHandle, InOrder, HasKeys, SmallFilters, Holds, ReadContents;
    assert BlockAt(c, file, d.handles[b], d.added, d.starts[b], d.starts[b + 1]);
    assert c.ReadsBack(Part(d.added, d.starts[b], d.starts[b + 1]));
    assert d.handles[b] in d.handles;
    HandleRoundTrip(d.handles[b], []);
    assert EncodeHandle(d.handles[b]) + [] == EncodeHandle(d.handles[b]);
    HeldIsRead(c.checksum, verify, file, d.handles[b], Render(c, BlockOfContents(d, b)));
  }

  lemma {:induction false} FooterIsRead(file: Bytes, footer: Footer)
    requires EndsWith(file, footer) && footer.indexHandle.Small() && footer.metaindexHandle.Small()
    ensures ReadFooter(file) == Some(footer)
  {
    hide EncodeFooter, DecodeFooter;
    FooterRoundTrip(footer);
  }

  lemma {:induction false} IndexIsRead(c: Codec, policyName: Bytes, verify: bool, file: Bytes, d: Contents)
    requires d.ReadsIn(c, policyName, file)
    ensures d.ReadBack(c) && d.Fits(c, file) && d.Small()
    ensures ReadFooter(file) == Some(d.footer) && ReadBlock(c, verify, file, d.footer.indexHandle) == Some(d.index)
  {
    hide Contents.Shaped, Stored, Holds, ReadContents, EndsWith, SmallFilters, FilterImage, MetaEntries;
    FooterIsRead(file, d.footer);
    HeldIsRead(c.checksum, verify, file, d.footer.indexHandle, RenderIndex(c, d.index));
  }

  lemma {:induction false} FilterIsRead(c: Codec, policyName: Bytes, verify: bool, file: Bytes, d: Contents)
    requires d.ReadsIn(c, policyName, file)
    ensures ReadFilter(c, policyName, verify, file, d.footer.metaindexHandle)
            == if d.filter.Some? then Some(FilterImage(d.filter.value.policy, d.filter.value.groups)) else None
    ensures d.filter.Some? ==> SmallFilters(d.filter.value.policy, d.filter.value.groups)
  {
    hide Contents.Shaped, Stored, Holds, ReadContents, EndsWith, SmallFilters, FilterImage, MetaEntries, FindMeta, EncodeHandle, DecodeHandle;
    HeldIsRead(c.checksum, verify, file, d.footer.metaindexHandle, c.renderMeta(MetaEntries(policyName, d.filterHandle)));
    FilterIsFound(policyName, d.filterHandle);
    if d.filter.Some? {
      var h := d.filterHandle.value;
      HandleRoundTrip(h, []);
      assert EncodeHandle(h) + [] == EncodeHandle(h);
      HeldIsRead(c.checksum, verify, file, h, FilterImage(d.filter.value.policy, d.filter.value.groups));
    }
  }

  // A filter that rejects the key is right about the block.
  lemma {:induction false} NotInBlock(r: FilterBlockReader, d: Contents, p: Policy, b: nat, k: RawKey)
    requires d.Shaped() && d.filter.Some? && d.filter.value.policy == InternalPolicy(p) && p.Sound()
    requires IsReaderOf(r, d.filter.value) && b < |d.index|
    requires !MayMatch(r.policy, r.data, r.offset, r.num, ShiftRight(d.handles[b].offset, r.baseLg), Pack(k))
    ensures forall j :: d.starts[b] <= j < d.starts[b + 1] ==> d.added[j].key.user != k.user
  {
    hide Pack, FilterImage, SmallFilters, InOrder, Indexed, MayMatch, Starts;
    forall j | d.starts[b] <= j < d.starts[b + 1]
      ensures d.added[j].key.user != k.user
    {
      if d.added[j].key.user == k.user {
        OwnKeyPasses(r, d, p, b, j, k);
      }
    }
  }

  lemma {:induction false} OwnKeyPasses(r: FilterBlockReader, d: Contents, p: Policy, b: nat, j: nat, k: RawKey)
    requires d.Shaped() && d.filter.Some? && d.filter.value.policy == InternalPolicy(p) && p.Sound()
    requires IsReaderOf(r, d.filter.value) && b < |d.index|
    requires d.starts[b] <= j < d.starts[b + 1] && d.added[j].key.user == k.user
    ensures MayMatch(r.policy, r.data, r.offset, r.num, ShiftRight(d.handles[b].offset, r.baseLg), Pack(k))
  {
    hide Pack, FilterImage, SmallFilters, InOrder, Indexed, Starts;
    var f := d.filter.value;
    var index := d.handles[b].offset / FILTER_BASE;
    assert AllInGroup(f.groups, index, d.added, d.starts[b], d.starts[b + 1]);
    InternalIsSound(p);
    OwnKeysMatch(f.policy, f.groups, index, Pack(d.added[j].key));
    ShiftByBase(d.handles[b].offset);
    ExtractPacked(k);
    ExtractPacked(d.added[j].key);
  }

  // ----- the whole table as one sequence -----

  function Blocks(d: Contents): (r: seq<seq<Entry>>)
    requires |d.starts| > 0
    ensures |r| == |d.starts| - 1
    ensures forall b :: 0 <= b < |r| ==> r[b] == AsEntries(Part(d.added, d.starts[b], d.starts[b + 1]))
  {
    seq(|d.starts| - 1, b requires 0 <= b < |d.starts| - 1 => AsEntries(Part(d.added, d.starts[b], d.starts[b + 1])))
  }

  function Part(s: seq<Pair>, from: nat, to: nat): seq<Pair> {
    if from <= to <= |s| then s[from..to] else []
  }

  lemma {:induction false} StartInside(starts: seq<nat>, n: nat, i: nat)
    requires Starts(starts, n) && 0 < i < |starts|
    ensures starts[i - 1] < starts[i] <= n
  {
    assert i < |starts| - 1 ==> starts[i] < starts[|starts| - 1];
  }

  lemma {:induction false} FlattenBlocks(d: Contents, n: nat)
    requires Starts(d.starts, |d.added|) && n < |d.starts|
    ensures d.starts[n] <= |d.added| && Flatten(Blocks(d)[..n]) == AsEntries(d.added[..d.starts[n]])
  {
    hide AsEntries;
    if n == 0 {
      assert AsEntries(d.added[..0]) == [];
    } else {
      FlattenBlocks(d, n - 1);
      StartInside(d.starts, |d.added|, n);
      assert Blocks(d)[..n][..n - 1] == Blocks(d)[..n - 1];
      EntriesInParts(d.added, d.starts[n - 1], d.starts[n]);
    }
  }

  lemma {:induction false} EntriesInParts(s: seq<Pair>, from: nat, to: nat)
    requires from <= to <= |s|
    ensures AsEntries(s[..to]) == AsEntries(s[..from]) + AsEntries(Part(s, from, to))
  {
  }

  /** The two-level iterator over the index and the blocks is a cursor over what was added. */
  lemma {:induction false} TableIsOneSequence(d: Contents)
    requires d.Shaped()
    ensures |d.starts| > 0 && IndexFits(AsEntries(d.index), Blocks(d)) && Flatten(Blocks(d)) == AsEntries(d.added)
  {
    hide HasKeys, EncodeHandle, Flatten, Less, InOrder, Indexed, AsEntries, Between;
    var n := |d.index|;
    ShapeFacts(d);
    FlattenBlocks(d, n);
    assert d.added[..d.starts[n]] == d.added && Blocks(d)[..n] == Blocks(d);
    forall b | 0 <= b < n
      ensures Between(AsEntries(d.index), Blocks(d), b)
    {
      BlockIsBetween(d, b);
    }
    BetweenEverywhere(AsEntries(d.index), Blocks(d));
  }

  ghost predicate Between(index: seq<Entry>, blocks: seq<seq<Entry>>, b: nat)
    requires b < |index| == |blocks|
  {
    && SortedTable(blocks[b]) && (forall e :: e in blocks[b] ==> AtMost(e.key, index[b].key))
    && (b > 0 ==> Less(index[b - 1].key, index[b].key) && forall e :: e in blocks[b] ==> Less(index[b - 1].key, e.key))
  }

  lemma {:induction false} BetweenEverywhere(index: seq<Entry>, blocks: seq<seq<Entry>>)
    requires |index| == |blocks| && forall b :: 0 <= b < |index| ==> Between(index, blocks, b)
    ensures IndexFits(index, blocks)
  {
    hide Less;
    forall b | 0 < b < |index|
      ensures Less(index[b - 1].key, index[b].key)
    {
      assert Between(index, blocks, b);
    }
    IndexIsSorted(index);
    forall b, e | 0 <= b < |blocks| && e in blocks[b]
      ensures AtMost(e.key, index[b].key) && (b > 0 ==> Less(index[b - 1].key, e.key))
    {
      assert Between(index, blocks, b);
    }
    forall b | 0 <= b < |blocks|
      ensures SortedTable(blocks[b])
    {
      assert Between(index, blocks, b);
    }
  }

  lemma {:induction false} BlockIsBetween(d: Contents, b: nat)
    requires d.Shaped() && b < |d.index|
    ensures |d.starts| == |d.index| + 1 && Between(AsEntries(d.index), Blocks(d), b)
  {
    hide HasKeys, EncodeHandle, Less, Indexed, InOrder, IndexKeyFits, Contents.Shaped;
    ShapeFacts(d);
    KeysFit(d, b);
    BeforeIndexKey(d.index[b].key, d.added, d.starts[b], d.starts[b + 1]);
    if b > 0 {
      KeysFit(d, b - 1);
      BehindIndexKey(d.index[b - 1].key, d.added, d.starts[b], d.starts[b + 1]);
      var first := Blocks(d)[b][0];
      assert first in Blocks(d)[b];
      LessIsTransitive(KeyOf(d.index[b - 1].key), first.key, KeyOf(d.index[b].key));
    }
  }

  lemma {:induction false} ShapeFacts(d: Contents)
    requires d.Shaped()
    ensures InOrder(d.added) && Starts(d.starts, |d.added|) && |d.starts| == |d.index| + 1
    ensures d.starts[|d.index|] == |d.added|
  {
  }

  lemma {:induction false} KeysFit(d: Contents, b: nat)
    requires d.Shaped() && b < |d.index|
    ensures |d.starts| == |d.index| + 1 && d.starts[b] < d.starts[b + 1] <= |d.added|
    ensures IndexKeyFits(d.index[b].key, d.added, d.starts[b + 1])
  {
    hide HasKeys, EncodeHandle, IndexKeyFits, InOrder;
    StartInside(d.starts, |d.added|, b + 1);
  }

  lemma {:induction false} LessIsTransitive(a: InternalKey, b: InternalKey, c: InternalKey)
    requires Less(a, b) && AtMost(b, c)
    ensures Less(a, c)
  {
  }

  lemma {:induction false} BeforeIndexKey(k: RawKey, s: seq<Pair>, from: nat, to: nat)
    requires InOrder(s) && from < to <= |s| && IndexKeyFits(k, s, to)
    ensures var block := AsEntries(Part(s, from, to));
      |block| > 0 && SortedTable(block) && forall e :: e in block ==> AtMost(e.key, KeyOf(k))
  {
    hide Less;
    var block := AsEntries(Part(s, from, to));
    forall e | e in block
      ensures AtMost(e.key, KeyOf(k))
    {
      var i: nat :| i < |block| && block[i] == e;
      assert e.key == KeyOf(s[from + i].key);
      var last := KeyOf(s[to - 1].key);
      assert from + i < to - 1 ==> Less(e.key, last);
      AtMostIsTransitive(e.key, last, KeyOf(k));
    }
  }

  lemma {:induction false} AtMostIsTransitive(a: InternalKey, b: InternalKey, c: InternalKey)
    ensures (a == b || Less(a, b)) && (b == c || Less(b, c)) ==> AtMost(a, c)
  {
  }

  lemma {:induction false} BehindIndexKey(k: RawKey, s: seq<Pair>, from: nat, to: nat)
    requires InOrder(s) && from < to <= |s| && IndexKeyFits(k, s, from)
    ensures forall e: Entry :: e in AsEntries(Part(s, from, to)) ==> Less(KeyOf(k), e.key)
  {
    var block := AsEntries(Part(s, from, to));
    assert Less(KeyOf(s[from - 1].key), KeyOf(s[from].key));
    forall e: Entry | e in block
      ensures Less(KeyOf(k), e.key)
    {
      var i: nat :| i < |block| && block[i] == e;
      assert e.key == KeyOf(s[from + i].key);
      assert i > 0 ==> Less(KeyOf(s[from].key), e.key);
    }
  }

  lemma {:induction false} IndexIsSorted(index: seq<Entry>)
    requires forall b :: 0 < b < |index| ==> Less(index[b - 1].key, index[b].key)
    ensures SortedTable(index)
    decreases |index|
  {
    if |index| > 1 {
      var n := |index| - 1;
      IndexIsSorted(index[..n]);
      forall i | 0 <= i < n
        ensures Less(index[i].key, index[n].key)
      {
        assert i == n - 1 || Less(index[..n][i].key, index[..n][n - 1].key);
      }
      assert forall i, j :: 0 <= i < j < n ==> Less(index[..n][i].key, index[..n][j].key);
      assert forall i, j :: 0 <= i < j < n ==> index[..n][i] == index[i] && index[..n][j] == index[j];
    }
  }
}
