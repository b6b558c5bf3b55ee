/**
  A table from entries to bytes and back: built from any sorted entries, opened
  again and searched, it answers as the entries would.
 */
module TableRoundTrip {
  import opened Basics
  import opened Coding
  import opened Blocks
  import opened BlockIter
  import opened Comparators
  import opened TableFormat
  import opened TableLookup
  import opened Concatenation
  import opened FilterBlock
  import opened Tables
  import opened TableReader
  import B = BlockBuilder
  import T = TableBuilder

  // ---------------------------------------------------------------- blocks

  // The blocks written and the one in progress after adding the entries.
  function Split(es: seq<Pair>, interval: nat, blockSize: nat): (seq<seq<Pair>>, seq<Pair>)
    requires interval >= 1
  {
    if es == [] then ([], [])
    else
      var (blocks, current) := Split(es[..|es| - 1], interval, blockSize);
      T.Added(blocks, current, es[|es| - 1], interval, blockSize)
  }

  function BlocksOf(es: seq<Pair>, interval: nat, blockSize: nat): seq<seq<Pair>>
    requires interval >= 1
  {
    var (blocks, current) := Split(es, interval, blockSize);
    T.All(blocks, current)
  }

  lemma {:induction false} BlocksFlat(es: seq<Pair>, interval: nat, blockSize: nat)
    requires interval >= 1
    ensures Flat(BlocksOf(es, interval, blockSize)) == es
  {
    hide B.Estimate, Flat;
    if es == [] {
      FlatNone();
    } else {
      var n := |es| - 1;
      BlocksFlat(es[..n], interval, blockSize);
      var (blocks, current) := Split(es[..n], interval, blockSize);
      T.FlatMore(blocks, current, es[n]);
      T.AllMore(blocks, current + [es[n]]);
      assert es == es[..n] + [es[n]];
    }
  }

  // A block is full: it has reached the block size, and had not before its last entry.
  ghost predicate JustFull(block: seq<Pair>, interval: nat, blockSize: nat)
    requires interval >= 1
  {
    && block != [] && B.Estimate(block, interval) >= blockSize
    && NotFull(block[..|block| - 1], interval, blockSize)
  }

  ghost predicate NotFull(block: seq<Pair>, interval: nat, blockSize: nat)
    requires interval >= 1
  {
    forall n :: 0 < n <= |block| ==> B.Estimate(block[..n], interval) < blockSize
  }

  // Every block but the last is just full, and the last is at most that.
  lemma {:induction false} BlocksFilled(es: seq<Pair>, interval: nat, blockSize: nat)
    requires interval >= 1
    ensures var (blocks, current) := Split(es, interval, blockSize);
            && (forall i :: 0 <= i < |blocks| ==> JustFull(blocks[i], interval, blockSize))
            && NotFull(current, interval, blockSize)
  {
    hide B.Estimate;
    if es != [] {
      BlocksFilled(es[..|es| - 1], interval, blockSize);
      var (blocks, current) := Split(es[..|es| - 1], interval, blockSize);
      var more := current + [es[|es| - 1]];
      assert more[..|more| - 1] == current && more[..|more|] == more;
      assert forall n :: 0 < n <= |current| ==> more[..n] == current[..n];
    }
  }

  lemma FlatNone()
    ensures Flat<Pair>([]) == []
  {
  }

  // ---------------------------------------------------------------- sizes

  // Every block has 32-bit offsets, and the data 64-bit ones.
  ghost predicate SizesOk(blocks: seq<seq<Pair>>, interval: nat)
    requires interval >= 1
  {
    && (forall i :: 0 <= i < |blocks| ==> Blocks.Small(blocks[i], interval))
    && |DataPart(blocks, interval)| < TWO_64
  }

  // After n entries: the blocks written are final, and the block in progress is
  // the beginning of the next.
  ghost predicate Begins(blocks: seq<seq<Pair>>, current: seq<Pair>, all: seq<seq<Pair>>) {
    && |blocks| < |all| && all[..|blocks|] == blocks
    && |current| <= |all[|blocks|]| && all[|blocks|][..|current|] == current
  }

  lemma {:induction false} SplitBegins(es: seq<Pair>, n: nat, m: nat, interval: nat, blockSize: nat)
    requires interval >= 1 && n < m <= |es|
    ensures var (blocks, current) := Split(es[..n], interval, blockSize);
            Begins(blocks, current + [es[n]], BlocksOf(es[..m], interval, blockSize))
    decreases m
  {
    hide B.Estimate;
    var (blocks, current) := Split(es[..n], interval, blockSize);
    assert es[..m][..m - 1] == es[..m - 1] && es[..m][m - 1] == es[m - 1];
    if n + 1 == m {
      assert (blocks + [current + [es[n]]])[..|blocks|] == blocks;
    } else {
      SplitBegins(es, n, m - 1, interval, blockSize);
      var (bs, c) := Split(es[..m - 1], interval, blockSize);
      BeginsMore(blocks, current + [es[n]], bs, c, es[m - 1]);
    }
  }

  lemma BeginsMore(blocks: seq<seq<Pair>>, current: seq<Pair>, bs: seq<seq<Pair>>, c: seq<Pair>, e: Pair)
    requires Begins(blocks, current, T.All(bs, c))
    ensures Begins(blocks, current, bs + [c + [e]])
  {
    var (all, more) := (T.All(bs, c), bs + [c + [e]]);
    assert more[..|blocks|] == all[..|blocks|];
    if |blocks| < |bs| {
      assert more[|blocks|] == all[|blocks|];
    } else {
      assert all[|blocks|] == c && more[|blocks|] == c + [e];
      assert (c + [e])[..|current|] == c[..|current|];
    }
  }

  lemma PrefixSmall(es: seq<Pair>, n: nat, interval: nat)
    requires interval >= 1 && n <= |es| && Blocks.Small(es, interval)
    ensures Blocks.Small(es[..n], interval) && |BlockBytes(es[..n], interval)| <= |BlockBytes(es, interval)|
  {
    hide Data, RestartCount, Block;
    OffsetsAscend(es, interval, n, |es|);
    assert es[..|es|] == es;
    RestartsAscend(n, |es|, interval);
    B.EstimateIsSize(es, interval);
    B.EstimateIsSize(es[..n], interval);
  }

  lemma {:induction false} RestartsAscend(n: nat, m: nat, interval: nat)
    requires interval >= 1 && n <= m
    ensures RestartCount(n, interval) <= RestartCount(m, interval)
  {
    hide RestartCount, B.Counter;
    if n < m {
      RestartsAscend(n, m - 1, interval);
      B.CounterMore(m - 1, interval);
    }
  }

  lemma DataPartGrows(blocks: seq<seq<Pair>>, interval: nat, i: nat)
    requires i < |blocks|
    ensures |DataPart(blocks[..i], interval)| + |BlockBytes(blocks[i], interval)| <= |DataPart(blocks, interval)|
  {
    hide BlockBytes, DataPart, BlockChecksum;
    DataBlockAt(blocks, interval, i);
  }

  lemma RoomFor(blocks: seq<seq<Pair>>, current: seq<Pair>, all: seq<seq<Pair>>, interval: nat)
    requires interval >= 1 && SizesOk(all, interval) && Begins(blocks, current, all)
    ensures T.Room(DataPart(blocks, interval), current, interval)
  {
    hide Blocks.Small, BlockBytes, DataPart;
    PrefixSmall(all[|blocks|], |current|, interval);
    DataPartGrows(all, interval, |blocks|);
  }

  lemma RoomAtEnd(blocks: seq<seq<Pair>>, current: seq<Pair>, interval: nat)
    requires interval >= 1 && SizesOk(T.All(blocks, current), interval) && current != []
    ensures T.Room(DataPart(blocks, interval), current, interval)
  {
    hide BlockBytes, DataPart;
    var all := blocks + [current];
    assert all[..|blocks|] == blocks && all[|blocks|] == current;
    DataPartGrows(all, interval, |blocks|);
  }

  // ---------------------------------------------------------------- build, open, get

  datatype TableOptions = TableOptions(interval: nat, blockSize: nat, hasFilter: bool, policy: Policy, name: Bytes)

  ghost predicate Buildable(es: seq<Pair>, o: TableOptions) {
    && o.interval >= 1 && (forall e :: e in es ==> IsInternal(e.key))
    && SizesOk(BlocksOf(es, o.interval, o.blockSize), o.interval)
  }

  // The table that the options make of the entries.
  ghost function TableOf(es: seq<Pair>, o: TableOptions): Table
    requires o.interval >= 1
  {
    var blocks := BlocksOf(es, o.interval, o.blockSize);
    Table(blocks, o.interval,
          if o.hasFilter then Some(FilterSpec(o.policy, o.name, GroupsOf(blocks, o.interval))) else None)
  }

  method Build(es: seq<Pair>, o: TableOptions) returns (file: Bytes)
    requires Buildable(es, o)
    ensures Proper(TableOf(es, o).blocks) && Filed(TableOf(es, o))
    ensures Fits(TableOf(es, o)) ==> file == TableBytes(TableOf(es, o))
  {
    hide SizesOk, T.Room, T.Added, Proper, Filed, Fits, TableBytes, T.Tracks, T.Filtered, T.Grouped, DataPart, GroupsOf;
    var b := new T.Builder(o.interval, o.blockSize, o.hasFilter, o.policy, o.name);
    for i := 0 to |es|
      invariant b.Valid() && !b.closed && fresh(b) && fresh(b.data) && fresh(b.index) && fresh(b.filter)
      invariant b.filter.policy == o.policy
      invariant (b.blocks, b.data.es) == Split(es[..i], o.interval, o.blockSize)
    {
      assert es[..i + 1][..i] == es[..i] && es[i] in es;
      RoomAt(b, es, i, o);
      b.Add(es[i].key, es[i].value);
    }
    assert es[..|es|] == es;
    if b.data.es != [] { RoomLast(b, es, o); }
    ghost var t := b.Finish();
    assert t == TableOf(es, o);
    file := b.file;
  }

  lemma RoomAt(b: T.Builder, es: seq<Pair>, i: nat, o: TableOptions)
    requires Buildable(es, o) && i < |es| && b.Valid() && b.interval == o.interval
    requires (b.blocks, b.data.es) == Split(es[..i], o.interval, o.blockSize)
    ensures T.Room(b.file, b.data.es + [es[i]], b.interval)
  {
    hide SizesOk, T.Room, T.Added, T.Filtered, DataPart, Begins, Proper;
    SplitBegins(es, i, |es|, o.interval, o.blockSize);
    assert es[..|es|] == es;
    RoomFor(b.blocks, b.data.es + [es[i]], BlocksOf(es, o.interval, o.blockSize), o.interval);
  }

  lemma RoomLast(b: T.Builder, es: seq<Pair>, o: TableOptions)
    requires Buildable(es, o) && b.Valid() && b.interval == o.interval && b.data.es != []
    requires (b.blocks, b.data.es) == Split(es, o.interval, o.blockSize)
    ensures T.Room(b.file, b.data.es, b.interval)
  {
    hide SizesOk, T.Room, T.Added, T.Filtered, DataPart, Proper;
    RoomAtEnd(b.blocks, b.data.es, o.interval);
  }

  // For every sorted list of entries and every key: build the table, open it and
  // look the key up.
  method BuildOpenGet(es: seq<Pair>, o: TableOptions, options: Options, k: Bytes) returns (found: Option<Pair>)
    requires Buildable(es, o) && Sorted(es, InternalLess) && IsInternal(k)
    requires o.hasFilter ==> NoFalseNegatives(o.policy) && ByUserKey(o.policy)
    requires o.hasFilter && options.policy.Some? && options.name == o.name ==> options.policy.value == o.policy
    ensures Fits(TableOf(es, o)) ==> Answers(es, k, found)
  {
    hide SizesOk, BlocksOf, Proper, Filed, Fits, TableBytes, Answers, Sorted, OpenedAs, NoFalseNegatives, ByUserKey,
         GroupsOf;
    ghost var t := TableOf(es, o);
    var file := Build(es, o);
    assert Flat(t.blocks) == es by { BlocksFlat(es, o.interval, o.blockSize); }
    var r := Open(file, options, t);
    if r.None? {
      return None;
    }
    found := InternalGet(r.value, k, t);
  }
}
