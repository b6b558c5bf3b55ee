/** A whole table file, as the builder leaves it: what its bytes are. */
module Tables {
  import opened Basics
  import opened Coding
  import opened Blocks
  import opened BlockIter
  import opened Comparators
  import opened TableFormat
  import opened TableLookup
  import opened Concatenation
  import opened FilterBlock

  datatype FilterSpec = FilterSpec(policy: Policy, name: Bytes, groups: seq<seq<Bytes>>)

  // blocks are the data blocks; filter is absent when no policy was given.
  datatype Table = Table(blocks: seq<seq<Pair>>, interval: nat, filter: Option<FilterSpec>)

  // The bytes of a block; the sizes are checked once, in WellBuilt.
  ghost function BlockBytes(es: seq<Pair>, interval: nat): Bytes {
    if interval >= 1 && Blocks.Small(es, interval) then Block(es, interval) else []
  }

  // The offset and size of contents that follow offset bytes.
  ghost function HandleFor(offset: nat, contents: Bytes): Handle {
    if offset < TWO_64 && |contents| < TWO_64 then Handle(offset, |contents|) else Handle(0, 0)
  }

  ghost function DataPart(blocks: seq<seq<Pair>>, interval: nat): Bytes {
    if blocks == [] then []
    else
      var n := |blocks| - 1;
      DataPart(blocks[..n], interval) + RawBlock(BlockBytes(blocks[n], interval))
  }

  ghost function DataOffset(blocks: seq<seq<Pair>>, interval: nat, i: nat): nat
    requires i <= |blocks|
  {
    |DataPart(blocks[..i], interval)|
  }

  ghost function IndexPair(blocks: seq<seq<Pair>>, interval: nat, i: nat): Pair
    requires Proper(blocks) && i < |blocks|
  {
    Pair(IndexKey(blocks, i), HandleBytes(HandleFor(DataOffset(blocks, interval, i), BlockBytes(blocks[i], interval))))
  }

  ghost function IndexPairs(blocks: seq<seq<Pair>>, interval: nat): (r: seq<Pair>)
    requires Proper(blocks)
    ensures |r| == |blocks| && forall i :: 0 <= i < |r| ==> r[i] == IndexPair(blocks, interval, i)
  {
    seq(|blocks|, i requires 0 <= i < |blocks| => IndexPair(blocks, interval, i))
  }

  const FILTER_PREFIX: Bytes := [102, 105, 108, 116, 101, 114, 46]

  // ---------------------------------------------------------------- the parts

  ghost function FilterBytes(t: Table): Bytes {
    if t.filter.Some? && FilterBlock.Small(t.filter.value.policy, t.filter.value.groups)
    then Contents(t.filter.value.policy, t.filter.value.groups) else []
  }

  ghost function FilterPart(t: Table): Bytes {
    if t.filter.None? then [] else RawBlock(FilterBytes(t))
  }

  ghost function MetaPairs(t: Table): seq<Pair> {
    if t.filter.None? then []
    else
      var h := HandleFor(|DataPart(t.blocks, t.interval)|, FilterBytes(t));
      [Pair(FILTER_PREFIX + t.filter.value.name, HandleBytes(h))]
  }

  ghost function MetaBytes(t: Table): Bytes {
    BlockBytes(MetaPairs(t), t.interval)
  }

  ghost function IndexBytes(t: Table): Bytes
    requires Proper(t.blocks)
  {
    BlockBytes(IndexPairs(t.blocks, t.interval), 1)
  }

  ghost function MetaOffset(t: Table): nat {
    |DataPart(t.blocks, t.interval)| + |FilterPart(t)|
  }

  ghost function MetaHandle(t: Table): Handle {
    HandleFor(MetaOffset(t), MetaBytes(t))
  }

  ghost function IndexHandle(t: Table): Handle
    requires Proper(t.blocks)
  {
    HandleFor(MetaOffset(t) + |RawBlock(MetaBytes(t))|, IndexBytes(t))
  }

  ghost function TableBytes(t: Table): Bytes
    requires Proper(t.blocks)
  {
    DataPart(t.blocks, t.interval) + FilterPart(t) + RawBlock(MetaBytes(t)) + RawBlock(IndexBytes(t))
    + Footer(MetaHandle(t), IndexHandle(t))
  }

  // ---------------------------------------------------------------- filters

  function KeysOf(es: seq<Pair>): seq<Bytes> {
    seq(|es|, i requires 0 <= i < |es| => es[i].key)
  }

  // The finished filters and the keys of the next one after the blocks.
  ghost function FilterAfter(blocks: seq<seq<Pair>>, interval: nat): (seq<seq<Bytes>>, seq<Bytes>) {
    if blocks == [] then ([], [])
    else
      var n := |blocks| - 1;
      var (groups, pending) := FilterAfter(blocks[..n], interval);
      Started(groups, pending + KeysOf(blocks[n]), |DataPart(blocks, interval)| / BASE)
  }

  ghost function GroupsOf(blocks: seq<seq<Pair>>, interval: nat): seq<seq<Bytes>> {
    var (groups, pending) := FilterAfter(blocks, interval);
    Finished(groups, pending)
  }

  ghost predicate IsTable(file: Bytes, t: Table) {
    Proper(t.blocks) && file == TableBytes(t)
  }

  // Keys are where the filter reader looks for them.
  ghost predicate Filed(t: Table) {
    t.filter.Some? ==>
      forall i, e :: 0 <= i < |t.blocks| && e in t.blocks[i] ==>
        var index := DataOffset(t.blocks, t.interval, i) / BASE;
        index < |t.filter.value.groups| ==> e.key in t.filter.value.groups[index]
  }

  ghost predicate Fits(t: Table) {
    && t.interval >= 1 && Proper(t.blocks)
    && (forall i :: 0 <= i < |t.blocks| ==> Blocks.Small(t.blocks[i], t.interval))
    && Blocks.Small(IndexPairs(t.blocks, t.interval), 1) && Blocks.Small(MetaPairs(t), t.interval)
    && (t.filter.Some? ==> FilterBlock.Small(t.filter.value.policy, t.filter.value.groups))
    && |TableBytes(t)| < TWO_64
  }

  ghost predicate WellBuilt(t: Table) {
    && Fits(t) && Sorted(Flat(t.blocks), InternalLess) && Filed(t)
    && (t.filter.Some? ==> NoFalseNegatives(t.filter.value.policy) && ByUserKey(t.filter.value.policy))
  }

  // ---------------------------------------------------------------- finding the parts

  lemma {:induction false} DataBlockAt(blocks: seq<seq<Pair>>, interval: nat, i: nat)
    requires i < |blocks|
    ensures var (raw, offset) := (RawBlock(BlockBytes(blocks[i], interval)), DataOffset(blocks, interval, i));
      && offset + |raw| <= |DataPart(blocks, interval)|
      && DataPart(blocks, interval)[offset..offset + |raw|] == raw
  {
    hide RawBlock, BlockBytes;
    var n := |blocks| - 1;
    if i < n {
      var shorter := blocks[..n];
      DataBlockAt(shorter, interval, i);
      assert shorter[..i] == blocks[..i];
    }
  }

  // A part of the file that starts at offset.
  ghost predicate PartAt(file: Bytes, offset: nat, part: Bytes) {
    offset + |part| <= |file| && file[offset..offset + |part|] == part
  }

  lemma PartEnd(a: Bytes, b: Bytes)
    ensures PartAt(a + b, |a|, b)
  {
  }

  lemma PartLeft(f: Bytes, offset: nat, part: Bytes, more: Bytes)
    requires PartAt(f, offset, part)
    ensures PartAt(f + more, offset, part)
  {
    assert (f + more)[offset..offset + |part|] == f[offset..offset + |part|];
  }

  lemma PartOfPart(file: Bytes, offset: nat, part: Bytes, at: nat, piece: Bytes)
    requires PartAt(file, offset, part) && PartAt(part, at, piece)
    ensures PartAt(file, offset + at, piece)
  {
    assert file[offset..offset + |part|][at..at + |piece|] == piece;
    SliceOfSlice(file, offset, offset + |part|, at, at + |piece|);
  }

  lemma TableParts(t: Table)
    requires Proper(t.blocks)
    ensures var f := TableBytes(t);
      && PartAt(f, 0, DataPart(t.blocks, t.interval))
      && PartAt(f, |DataPart(t.blocks, t.interval)|, FilterPart(t))
      && PartAt(f, MetaOffset(t), RawBlock(MetaBytes(t)))
      && PartAt(f, MetaOffset(t) + |RawBlock(MetaBytes(t))|, RawBlock(IndexBytes(t)))
      && PartAt(f, |f| - |Footer(MetaHandle(t), IndexHandle(t))|, Footer(MetaHandle(t), IndexHandle(t)))
  {
    hide DataPart, FilterPart, RawBlock, Footer, MetaBytes, IndexBytes, Proper;
    SumParts(DataPart(t.blocks, t.interval), FilterPart(t), RawBlock(MetaBytes(t)), RawBlock(IndexBytes(t)),
             Footer(MetaHandle(t), IndexHandle(t)));
  }

  lemma SumParts(a: Bytes, b: Bytes, c: Bytes, d: Bytes, e: Bytes)
    ensures var f := a + b + c + d + e;
      && PartAt(f, 0, a) && PartAt(f, |a|, b) && PartAt(f, |a| + |b|, c) && PartAt(f, |a| + |b| + |c|, d)
      && PartAt(f, |f| - |e|, e)
  {
    assert [] + a == a;
    hide PartAt;
    var (ab, abc, abcd) := (a + b, a + b + c, a + b + c + d);
    PartEnd([], a);
    PartLeft(a, 0, a, b);
    PartLeft(ab, 0, a, c);
    PartLeft(abc, 0, a, d);
    PartLeft(abcd, 0, a, e);
    PartEnd(a, b);
    PartLeft(ab, |a|, b, c);
    PartLeft(abc, |a|, b, d);
    PartLeft(abcd, |a|, b, e);
    PartEnd(ab, c);
    PartLeft(abc, |ab|, c, d);
    PartLeft(abcd, |ab|, c, e);
    PartEnd(abc, d);
    PartLeft(abcd, |abc|, d, e);
    PartEnd(abcd, e);
  }

  lemma LastPart(f: Bytes, part: Bytes)
    requires |part| <= |f| && PartAt(f, |f| - |part|, part)
    ensures f[|f| - |part|..] == part
  {
    assert f[|f| - |part|..|f|] == f[|f| - |part|..];
  }

  // A block written at a position is read back through its handle.
  lemma ReadsPart(file: Bytes, offset: nat, contents: Bytes, verify: bool)
    requires PartAt(file, offset, RawBlock(contents)) && |file| < TWO_64
    ensures ReadBlock(file, HandleFor(offset, contents), verify) == Some(contents)
  {
    assert |RawBlock(contents)| == |contents| + TRAILER_SIZE;
    assert HandleFor(offset, contents) == Handle(offset, |contents|);
    hide RawBlock, ReadBlock, HandleFor;
    ReadsRawBlock(file, Handle(offset, |contents|), contents, verify);
  }
}
