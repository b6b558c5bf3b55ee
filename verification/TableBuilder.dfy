/**
  Building a table (table/table_builder.cc).  The index entry of a block waits
  for the first key of the next one, so that the two can be told apart by a short
  key.
 */
module TableBuilder {
  import opened Basics
  import opened Coding
  import opened Blocks
  import opened Comparators
  import opened TableFormat
  import opened TableLookup
  import opened Concatenation
  import opened FilterBlock
  import opened Tables
  import B = BlockBuilder

  // The blocks written and the one being filled.
  function All(blocks: seq<seq<Pair>>, current: seq<Pair>): seq<seq<Pair>> {
    if current == [] then blocks else blocks + [current]
  }

  ghost function IndexUpTo(all: seq<seq<Pair>>, interval: nat, m: nat): (r: seq<Pair>)
    requires Proper(all) && m <= |all|
    ensures |r| == m && forall i :: 0 <= i < m ==> r[i] == IndexPair(all, interval, i)
  {
    seq(m, i requires 0 <= i < m => IndexPair(all, interval, i))
  }

  // The builder's fields: all blocks but the last are in the index.
  ghost predicate Tracks(blocks: seq<seq<Pair>>, current: seq<Pair>, interval: nat, file: Bytes, index: seq<Pair>,
                         lastKey: Bytes, pending: bool, handle: Handle) {
    var all := All(blocks, current);
    && Proper(all) && file == DataPart(blocks, interval)
    && (pending <==> current == [] && blocks != [])
    && index == IndexUpTo(all, interval, if all == [] then 0 else |all| - 1)
    && (all != [] ==> lastKey == LastKey(all[|all| - 1]))
    && (pending ==>
          handle == HandleFor(DataOffset(blocks, interval, |blocks| - 1), BlockBytes(blocks[|blocks| - 1], interval)))
  }

  // An index entry depends on its block and the first key of the next.
  lemma IndexPairSame(a: seq<seq<Pair>>, b: seq<seq<Pair>>, interval: nat, i: nat)
    requires Proper(a) && Proper(b) && i + 1 < |a| && i + 1 < |b| && a[..i + 1] == b[..i + 1]
    requires FirstKey(a[i + 1]) == FirstKey(b[i + 1])
    ensures IndexPair(a, interval, i) == IndexPair(b, interval, i)
  {
    hide InternalSeparator, HandleBytes, DataPart, BlockBytes;
    assert a[i] == a[..i + 1][i] == b[..i + 1][i] == b[i];
    assert a[..i] == a[..i + 1][..i] == b[..i + 1][..i] == b[..i];
  }

  lemma IndexSame(a: seq<seq<Pair>>, b: seq<seq<Pair>>, interval: nat, m: nat)
    requires Proper(a) && Proper(b) && m < |a| && m < |b| && a[..m] == b[..m] && FirstKey(a[m]) == FirstKey(b[m])
    ensures IndexUpTo(a, interval, m) == IndexUpTo(b, interval, m)
  {
    hide IndexPair;
    forall i | 0 <= i < m ensures IndexPair(a, interval, i) == IndexPair(b, interval, i) {
      assert a[..i + 1] == a[..m][..i + 1] == b[..m][..i + 1] == b[..i + 1];
      if i + 1 < m { assert a[i + 1] == a[..m][i + 1] == b[..m][i + 1] == b[i + 1]; }
      IndexPairSame(a, b, interval, i);
    }
  }

  lemma ProperMore(blocks: seq<seq<Pair>>, current: seq<Pair>, e: Pair)
    requires Proper(All(blocks, current)) && IsInternal(e.key)
    ensures Proper(blocks) && Proper(blocks + [current + [e]])
  {
    var (all, more) := (All(blocks, current), blocks + [current + [e]]);
    forall i | 0 <= i < |blocks| ensures blocks[i] == all[i] == more[i] {}
    if current != [] { assert all[|blocks|] == current; }
  }

  // Another entry for a block in progress.
  lemma AddMoreKeeps(blocks: seq<seq<Pair>>, current: seq<Pair>, e: Pair, interval: nat, file: Bytes, index: seq<Pair>,
                     lastKey: Bytes, pending: bool, handle: Handle)
    requires Tracks(blocks, current, interval, file, index, lastKey, pending, handle) && current != [] &&
             IsInternal(e.key)
    ensures Tracks(blocks, current + [e], interval, file, index, e.key, pending, handle)
  {
    hide IndexPair, DataPart, BlockBytes;
    ProperMore(blocks, current, e);
    var (a, b) := (blocks + [current], blocks + [current + [e]]);
    assert a[..|blocks|] == blocks == b[..|blocks|];
    IndexSame(a, b, interval, |blocks|);
  }

  // The first entry of a block completes the index entry of the one before.
  lemma AddFirstKeeps(blocks: seq<seq<Pair>>, e: Pair, interval: nat, file: Bytes, index: seq<Pair>,
                      lastKey: Bytes, pending: bool, handle: Handle)
    requires Tracks(blocks, [], interval, file, index, lastKey, pending, handle) && IsInternal(e.key)
    ensures !pending ==> Tracks(blocks, [e], interval, file, index, e.key, false, handle)
    ensures pending ==>
      IsInternal(lastKey) && Tracks(blocks, [e], interval, file,
        index + [Pair(InternalSeparator(lastKey, e.key), HandleBytes(handle))], e.key, false, handle)
  {
    hide InternalSeparator, HandleBytes, DataPart, BlockBytes;
    ProperMore(blocks, [], e);
    assert [] + [e] == [e];
    var all := blocks + [[e]];
    if pending {
      var n := |blocks| - 1;
      assert blocks[..n] == all[..n] && blocks[n] == all[n];
      IndexSame(blocks, all, interval, n);
      assert blocks[n][|blocks[n]| - 1] in blocks[n];
      assert IndexUpTo(all, interval, n + 1) == IndexUpTo(all, interval, n) + [IndexPair(all, interval, n)];
      assert blocks[..n] == all[..n];
    }
  }

  function NextIndex(index: seq<Pair>, pending: bool, lastKey: Bytes, key: Bytes, handle: Handle): seq<Pair>
    requires pending ==> IsInternal(lastKey) && IsInternal(key)
  {
    if pending then index + [Pair(InternalSeparator(lastKey, key), HandleBytes(handle))] else index
  }

  lemma AddKeeps(blocks: seq<seq<Pair>>, current: seq<Pair>, e: Pair, interval: nat, file: Bytes, index: seq<Pair>,
                 lastKey: Bytes, pending: bool, handle: Handle)
    requires Tracks(blocks, current, interval, file, index, lastKey, pending, handle) && IsInternal(e.key)
    ensures pending ==> IsInternal(lastKey)
    ensures Tracks(blocks, current + [e], interval, file, NextIndex(index, pending, lastKey, e.key, handle), e.key,
            false, handle)
    ensures All(blocks, current + [e]) == blocks + [current + [e]] && file == DataPart(blocks, interval)
  {
    hide InternalSeparator, HandleBytes, DataPart;
    if current == [] {
      AddFirstKeeps(blocks, e, interval, file, index, lastKey, pending, handle);
      assert [] + [e] == [e];
    } else {
      AddMoreKeeps(blocks, current, e, interval, file, index, lastKey, pending, handle);
    }
  }

  lemma AllNone(blocks: seq<seq<Pair>>)
    ensures All(blocks, []) == blocks
  {
  }

  lemma AllMore(blocks: seq<seq<Pair>>, current: seq<Pair>)
    requires current != []
    ensures All(blocks + [current], []) == All(blocks, current) == blocks + [current]
  {
  }

  // Writing out the block in progress.
  lemma FlushKeeps(blocks: seq<seq<Pair>>, current: seq<Pair>, interval: nat, file: Bytes, index: seq<Pair>,
                   lastKey: Bytes, pending: bool, handle: Handle)
    requires Tracks(blocks, current, interval, file, index, lastKey, pending, handle) && current != []
    ensures Tracks(blocks + [current], [], interval, file + RawBlock(BlockBytes(current, interval)), index, lastKey,
            true,
                   HandleFor(|file|, BlockBytes(current, interval)))
  {
    hide IndexPair, BlockBytes, RawBlock, HandleFor;
    var all := blocks + [current];
    assert all[..|blocks|] == blocks;
  }

  // The last index entry.
  lemma FinishKeeps(blocks: seq<seq<Pair>>, interval: nat, file: Bytes, index: seq<Pair>, lastKey: Bytes,
                    pending: bool, handle: Handle)
    requires Tracks(blocks, [], interval, file, index, lastKey, pending, handle)
    ensures !pending ==> index == IndexPairs(blocks, interval)
    ensures pending ==>
      IsInternal(lastKey) && index + [Pair(InternalSuccessor(lastKey), HandleBytes(handle))] ==
        IndexPairs(blocks, interval)
  {
    hide InternalSuccessor, HandleBytes, DataPart, BlockBytes;
    if pending {
      var n := |blocks| - 1;
      assert blocks[n][|blocks[n]| - 1] in blocks[n];
      assert IndexPairs(blocks, interval) == IndexUpTo(blocks, interval, n) + [IndexPair(blocks, interval, n)];
    }
  }

  // ---------------------------------------------------------------- filter

  // Every key has been added to the filter under the offset of its block.
  ghost predicate Filtered(all: seq<seq<Pair>>, interval: nat, added: set<(nat, Bytes)>) {
    forall i, e :: 0 <= i < |all| && e in all[i] ==> (DataOffset(all, interval, i), e.key) in added
  }

  // The filter has the groups of the blocks written and the keys since.
  ghost predicate Grouped(blocks: seq<seq<Pair>>, current: seq<Pair>, interval: nat, groups: seq<seq<Bytes>>,
                          pending: seq<Bytes>) {
    var (done, rest) := FilterAfter(blocks, interval);
    groups == done && pending == rest + KeysOf(current)
  }

  lemma GroupedMore(blocks: seq<seq<Pair>>, current: seq<Pair>, e: Pair, interval: nat, groups: seq<seq<Bytes>>,
                    pending: seq<Bytes>)
    requires Grouped(blocks, current, interval, groups, pending)
    ensures Grouped(blocks, current + [e], interval, groups, pending + [e.key])
  {
    hide FilterAfter;
    assert KeysOf(current + [e]) == KeysOf(current) + [e.key];
  }

  lemma GroupedFlush(blocks: seq<seq<Pair>>, current: seq<Pair>, interval: nat, file: Bytes, index: seq<Pair>,
                     lastKey: Bytes, pending: bool, handle: Handle, groups: seq<seq<Bytes>>, keys: seq<Bytes>)
    requires Tracks(blocks, current, interval, file, index, lastKey, pending, handle)
    requires Grouped(blocks, current, interval, groups, keys)
    ensures var (g, p) := Started(groups, keys, |file + RawBlock(BlockBytes(current, interval))| / BASE);
            Grouped(blocks + [current], [], interval, g, p)
  {
    hide Started, IndexUpTo, RawBlock, BlockBytes, Proper;
    assert file == DataPart(blocks, interval);
    var more := blocks + [current];
    assert more[..|blocks|] == blocks && more[|blocks|] == current;
    assert DataPart(more, interval) == file + RawBlock(BlockBytes(current, interval));
    assert KeysOf([]) == [];
  }

  lemma GroupedFirst(interval: nat)
    ensures Grouped([], [], interval, [], [])
  {
  }

  // At the end the groups are those of the table.
  lemma GroupedFinish(blocks: seq<seq<Pair>>, interval: nat, groups: seq<seq<Bytes>>, pending: seq<Bytes>)
    requires Grouped(blocks, [], interval, groups, pending)
    ensures Finished(groups, pending) == GroupsOf(blocks, interval)
  {
    hide FilterAfter;
    assert pending == FilterAfter(blocks, interval).1;
  }

  lemma FilteredMore(blocks: seq<seq<Pair>>, current: seq<Pair>, e: Pair, interval: nat, added: set<(nat, Bytes)>)
    requires Filtered(All(blocks, current), interval, added)
    ensures Filtered(blocks + [current + [e]], interval, added + {(|DataPart(blocks, interval)|, e.key)})
  {
    hide DataPart;
    var (all, more) := (All(blocks, current), blocks + [current + [e]]);
    forall i, x: Pair | 0 <= i < |more| && x in more[i]
      ensures (DataOffset(more, interval, i), x.key) in added + {(|DataPart(blocks, interval)|, e.key)}
    {
      assert more[..i] == blocks[..i];
      if i < |blocks| {
        assert all[..i] == blocks[..i] && all[i] == more[i];
        assert (DataOffset(all, interval, i), x.key) in added;
      } else {
        assert more[..i] == blocks && more[i] == current + [e];
        if x != e {
          assert all[..i] == blocks && all[i] == current;
          assert (DataOffset(all, interval, i), x.key) in added;
        }
      }
    }
  }

  lemma FiledFrom(t: Table, added: set<(nat, Bytes)>)
    requires t.filter.Some? && Filtered(t.blocks, t.interval, added) && Placed(added, t.filter.value.groups, [])
    ensures Filed(t)
  {
    hide DataPart;
    forall i, e: Pair | 0 <= i < |t.blocks| && e in t.blocks[i]
      ensures var index := DataOffset(t.blocks, t.interval, i) / BASE;
        index < |t.filter.value.groups| ==> e.key in t.filter.value.groups[index]
    {
      assert (DataOffset(t.blocks, t.interval, i), e.key) in added;
    }
  }

  // ---------------------------------------------------------------- builder

  // An entry goes to the block in progress, which ends when it has reached the
  // block size.
  function Added(blocks: seq<seq<Pair>>, current: seq<Pair>, e: Pair, interval: nat, blockSize: nat)
    : (seq<seq<Pair>>, seq<Pair>)
    requires interval >= 1
  {
    var more := current + [e];
    if B.Estimate(more, interval) >= blockSize then (blocks + [more], []) else (blocks, more)
  }

  class Builder {
    const interval: nat
    const blockSize: nat
    const hasFilter: bool
    const filterName: Bytes
    const data: B.Builder
    const index: B.Builder
    const filter: FilterBlock.Builder
    var file: Bytes
    var lastKey: Bytes
    var numEntries: nat
    var pendingIndexEntry: bool
    var pendingHandle: Handle
    var closed: bool
    ghost var blocks: seq<seq<Pair>>

    ghost function Everything(): seq<seq<Pair>>
      reads this, data
    {
      All(blocks, data.es)
    }

    // The offset of the source is the length of the file.
    ghost predicate Valid()
      reads this, data, index, filter
    {
      && interval >= 1 && data != index && data.Valid() && index.Valid() && data.interval == interval &&
        index.interval == 1
      && Tracks(blocks, data.es, interval, file, index.es, lastKey, pendingIndexEntry, pendingHandle)
      && (hasFilter ==> filter.Valid() && filter.block == |file| && Filtered(Everything(), interval, filter.added))
      && (hasFilter ==> Grouped(blocks, data.es, interval, filter.groups, filter.pending))
    }

    constructor (interval: nat, blockSize: nat, hasFilter: bool, policy: Policy, filterName: Bytes)
      requires interval >= 1
      ensures Valid() && Everything() == [] && !closed
      ensures this.interval == interval && this.hasFilter == hasFilter && this.filterName == filterName &&
              filter.policy == policy
      ensures this.blockSize == blockSize && blocks == [] && data.es == []
      ensures fresh(data) && fresh(index) && fresh(filter)
    {
      this.interval, this.blockSize, this.hasFilter, this.filterName := interval, blockSize, hasFilter, filterName;
      data := new B.Builder(interval);
      index := new B.Builder(1);
      filter := new FilterBlock.Builder(policy);
      file, lastKey, numEntries, pendingIndexEntry, pendingHandle, closed := [], [], 0, false, Handle(0, 0), false;
      blocks := [];
      GroupedFirst(interval);
    }

    // The caller adds keys in ascending order; the block in progress stays small.
    method Add(key: Bytes, value: Bytes)
      requires Valid() && !closed && IsInternal(key)
      requires Room(file, data.es + [Pair(key, value)], interval)
      modifies this, data, index, filter
      ensures Valid() && !closed
      ensures (blocks, data.es) == Added(old(blocks), old(data.es), Pair(key, value), interval, blockSize)
    {
      hide Tracks, Filtered, Grouped, Flat, Room, B.Estimate;
      AddEntry(key, value);
      var estimate := data.CurrentSizeEstimate();
      if estimate >= blockSize {
        Flush();
      }
    }

    method AddEntry(key: Bytes, value: Bytes)
      requires Valid() && !closed && IsInternal(key)
      modifies this, data, index, filter
      ensures Valid() && !closed && blocks == old(blocks) && file == old(file) &&
              data.es == old(data.es) + [Pair(key, value)]
    {
      hide Tracks, Filtered, Grouped, InternalSeparator, HandleBytes, DataPart, B.Builder.Valid,
           FilterBlock.Builder.Valid, All;
      ghost var e := Pair(key, value);
      AddKeeps(blocks, data.es, e, interval, file, index.es, lastKey, pendingIndexEntry, pendingHandle);
      if hasFilter {
        FilteredMore(blocks, data.es, e, interval, filter.added);
        GroupedMore(blocks, data.es, e, interval, filter.groups, filter.pending);
      }
      if pendingIndexEntry {
        lastKey := InternalSeparator(lastKey, key);
        index.Add(lastKey, HandleBytes(pendingHandle));
        pendingIndexEntry := false;
      }
      if hasFilter {
        filter.AddKey(key);
      }
      lastKey := key;
      numEntries := numEntries + 1;
      data.Add(key, value);
    }

    // Write out the block in progress, if it holds anything.
    method Flush()
      requires Valid() && !closed && (data.es != [] ==> Room(file, data.es, interval))
      modifies this, data, filter
      ensures Valid() && !closed && Everything() == old(Everything()) && data.es == []
      ensures index.es == old(index.es)
      ensures blocks == All(old(blocks), old(data.es))
    {
      hide Tracks, Filtered, Grouped, RawBlock, BlockBytes, B.Builder.Valid, FilterBlock.Builder.Valid, All, Room;
      BufferEmpty(data);
      if |data.buffer| == 0 {
        AllNone(blocks);
        return;
      }
      RoomIs(file, data.es, interval);
      AllMore(blocks, data.es);
      FlushKeeps(blocks, data.es, interval, file, index.es, lastKey, pendingIndexEntry, pendingHandle);
      if hasFilter {
        GroupedFlush(blocks, data.es, interval, file, index.es, lastKey, pendingIndexEntry, pendingHandle,
                     filter.groups, filter.pending);
      }
      var raw := data.Finish();
      pendingHandle := WriteRawBlock(raw);
      blocks := blocks + [data.es];
      data.Reset();
      pendingIndexEntry := true;
      if hasFilter {
        filter.StartBlock(|file|);
      }
    }

    // Offsets and sizes are 64-bit numbers.
    method WriteRawBlock(contents: Bytes) returns (handle: Handle)
      modifies this`file
      ensures |old(file)| + |contents| < TWO_64 ==> handle == HandleFor(|old(file)|, contents)
      ensures file == old(file) + RawBlock(contents)
    {
      hide BlockChecksum, Fixed32;
      handle := Handle(|file| % TWO_64, |contents| % TWO_64);
      file := file + contents;
      var crc := BlockChecksum(contents, NO_COMPRESSION);
      file := file + ([NO_COMPRESSION] + Fixed32(crc));
      assert file == old(file) + (contents + ([NO_COMPRESSION] + Fixed32(crc)));
    }

    method WriteBlock(block: B.Builder) returns (handle: Handle)
      requires block.Valid()
      modifies this`file, block`buffer, block`finished
      ensures var contents := BlockBytes(block.es, block.interval);
        Blocks.Small(block.es, block.interval) && |old(file)| + |contents| < TWO_64 ==>
          handle == HandleFor(|old(file)|, contents) && file == old(file) + RawBlock(contents)
    {
      hide RawBlock, HandleFor, Block, Blocks.Small;
      assert block.interval >= 1;
      var raw := block.Finish();
      handle := WriteRawBlock(raw);
    }

    // The table is complete: filter, metaindex, index and footer follow the data.
    method Finish() returns (ghost t: Table)
      requires Valid() && !closed && (data.es != [] ==> Room(file, data.es, interval))
      modifies this, data, index, filter
      ensures closed && t.blocks == old(Everything()) && t.interval == interval && Proper(t.blocks)
      ensures t.filter.Some? == hasFilter &&
              (hasFilter ==> t.filter.value == FilterSpec(filter.policy, filterName, GroupsOf(t.blocks, interval)))
      ensures Filed(t) && (Fits(t) ==> file == TableBytes(t))
    {
      hide Tracks, Filtered, Grouped, RawBlock, BlockBytes, B.Builder.Valid, FilterBlock.Builder.Valid, All, Room,
           Proper,
           Filed, Fits, TableBytes,
           DataPart, FilterPart, MetaPairs, IndexPairs, MetaHandle, IndexHandle, HandleFor, Footer, HandleBytes,
           InternalSuccessor, Placed;
      Flush();
      closed := true;
      TracksProper(blocks, interval, file, index.es, lastKey, pendingIndexEntry, pendingHandle);
      var filterHandle := Handle(0, 0);
      t := Table(blocks, interval, None);
      if hasFilter {
        GroupedFinish(blocks, interval, filter.groups, filter.pending);
        var contents := filter.Finish();
        t := Table(blocks, interval, Some(FilterSpec(filter.policy, filterName, filter.groups)));
        FiledFrom(t, filter.added);
        FilterWritten(t, file, contents);
        filterHandle := WriteRawBlock(contents);
      } else {
        NoFilter(t, file);
      }
      FinishMeta(t, filterHandle);
    }

    method FinishMeta(ghost t: Table, filterHandle: Handle)
      requires index.Valid() && index.interval == 1 && t.interval == interval >= 1 && t.filter.Some? == hasFilter &&
               Proper(t.blocks)
      requires hasFilter ==> t.filter.value.name == filterName
      requires Tracks(t.blocks, [], interval, DataPart(t.blocks, interval), index.es, lastKey, pendingIndexEntry,
               pendingHandle)
      requires Fits(t) ==> file == DataPart(t.blocks, interval) + FilterPart(t)
      requires Fits(t) && hasFilter ==> filterHandle == HandleFor(|DataPart(t.blocks, interval)|, FilterBytes(t))
      modifies this, index
      ensures closed == old(closed) && (Fits(t) ==> file == TableBytes(t))
    {
      hide Tracks, RawBlock, BlockBytes, B.Builder.Valid, Proper, Fits, TableBytes, DataPart, FilterPart, FilterBytes,
           IndexPairs, MetaHandle, IndexHandle, HandleFor, Footer, HandleBytes, InternalSuccessor, Blocks.Small;
      if Fits(t) { Sizes(t); }
      var meta := new B.Builder(interval);
      if hasFilter {
        meta.Add(FILTER_PREFIX + filterName, HandleBytes(filterHandle));
      }
      assert Fits(t) ==> meta.es == MetaPairs(t);
      var metaHandle := WriteBlock(meta);
      assert Fits(t) ==> metaHandle == MetaHandle(t);
      FinishKeeps(t.blocks, interval, DataPart(t.blocks, interval), index.es, lastKey, pendingIndexEntry,
        pendingHandle);
      if pendingIndexEntry {
        lastKey := InternalSuccessor(lastKey);
        index.Add(lastKey, HandleBytes(pendingHandle));
        pendingIndexEntry := false;
      }
      assert index.es == IndexPairs(t.blocks, t.interval);
      var indexHandle := WriteBlock(index);
      assert Fits(t) ==> indexHandle == IndexHandle(t);
      file := file + Footer(metaHandle, indexHandle);
    }
  }

  // The block can be finished and written.
  ghost predicate Room(file: Bytes, es: seq<Pair>, interval: nat) {
    interval >= 1 && Blocks.Small(es, interval) && |file| + |BlockBytes(es, interval)| < TWO_64
  }

  lemma FlatMore(blocks: seq<seq<Pair>>, current: seq<Pair>, e: Pair)
    ensures Flat(All(blocks, current + [e])) == Flat(All(blocks, current)) + [e]
  {
    var more := blocks + [current + [e]];
    assert more[..|blocks|] == blocks;
    assert Flat(more) == Flat(blocks) + (current + [e]);
    if current != [] {
      assert (blocks + [current])[..|blocks|] == blocks;
      assert Flat(blocks + [current]) == Flat(blocks) + current;
      assert Flat(blocks) + (current + [e]) == (Flat(blocks) + current) + [e];
    } else {
      assert current + [e] == [e];
    }
  }

  lemma RoomIs(file: Bytes, es: seq<Pair>, interval: nat)
    requires Room(file, es, interval)
    ensures interval >= 1 && Blocks.Small(es, interval) && BlockBytes(es, interval) == Block(es, interval)
    ensures |file| + |BlockBytes(es, interval)| < TWO_64
  {
    hide Block, Blocks.Small;
  }

  lemma BufferEmpty(b: B.Builder)
    requires b.Valid()
    ensures |b.buffer| == 0 <==> b.es == []
  {
    hide EntryBytes;
  }

  // ---------------------------------------------------------------- the end of the file

  lemma TracksProper(blocks: seq<seq<Pair>>, interval: nat, file: Bytes, index: seq<Pair>, lastKey: Bytes,
                     pending: bool, handle: Handle)
    requires Tracks(blocks, [], interval, file, index, lastKey, pending, handle)
    ensures Proper(blocks) && file == DataPart(blocks, interval) && All(blocks, []) == blocks
  {
  }

  lemma NoFilter(t: Table, file: Bytes)
    requires t.filter.None? && file == DataPart(t.blocks, t.interval)
    ensures Filed(t) && file == DataPart(t.blocks, t.interval) + FilterPart(t)
  {
  }

  lemma FilterWritten(t: Table, file: Bytes, contents: Bytes)
    requires t.filter.Some? && file == DataPart(t.blocks, t.interval)
    requires FilterBlock.Small(t.filter.value.policy, t.filter.value.groups) ==>
      contents == Contents(t.filter.value.policy, t.filter.value.groups)
    ensures Fits(t) ==> FilterPart(t) == RawBlock(contents) && contents == FilterBytes(t)
    ensures Fits(t) ==> |file| + |contents| < TWO_64
  {
    hide DataPart, Contents, RawBlock, Blocks.Small, IndexPairs, MetaPairs, BlockBytes;
    if Fits(t) {
      TableParts(t);
      assert PartAt(TableBytes(t), |DataPart(t.blocks, t.interval)|, FilterPart(t));
    }
  }

  // Each part fits where it is written.
  lemma Sizes(t: Table)
    requires Fits(t)
    ensures Blocks.Small(MetaPairs(t), t.interval) && Blocks.Small(IndexPairs(t.blocks, t.interval), 1)
    ensures MetaOffset(t) + |MetaBytes(t)| < TWO_64
    ensures MetaOffset(t) + |RawBlock(MetaBytes(t))| + |IndexBytes(t)| < TWO_64
    ensures MetaHandle(t) == HandleFor(MetaOffset(t), MetaBytes(t))
    ensures IndexHandle(t) == HandleFor(MetaOffset(t) + |RawBlock(MetaBytes(t))|, IndexBytes(t))
    ensures TableBytes(t) ==
            DataPart(t.blocks, t.interval) + FilterPart(t) + RawBlock(MetaBytes(t)) + RawBlock(IndexBytes(t))
                             + Footer(MetaHandle(t), IndexHandle(t))
  {
    hide DataPart, FilterPart, MetaBytes, IndexBytes, Blocks.Small, Footer, FilterBlock.Small, MetaPairs, IndexPairs,
         BlockChecksum, Proper, HandleBytes;
    TableParts(t);
  }
}
