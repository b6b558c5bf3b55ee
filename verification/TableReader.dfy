/**
  Reading a table (table/table.cc): opening the file, and the lookup through
  index, filter and data block.  Every method is total; on a file that the
  builder finished, the answer is the one TableLookup asks for.
 */
module TableReader {
  import opened Basics
  import opened Coding
  import opened Blocks
  import opened BlockIter
  import opened BlockCursor
  import opened Comparators
  import opened TableFormat
  import opened TableLookup
  import opened Concatenation
  import opened FilterBlock
  import opened Tables

  datatype Options = Options(policy: Option<Policy>, name: Bytes, verify: bool)

  // An open table.  Contents that are no block leave no index.
  datatype Opened = Opened(file: Bytes, index: Option<View>, filter: Option<Bytes>, options: Options)

  // The policy is the one of that name.
  ghost predicate SamePolicy(o: Options, t: Table) {
    o.policy.Some? && t.filter.Some? && o.name == t.filter.value.name ==> o.policy.value == t.filter.value.policy
  }

  ghost predicate OpenedAs(r: Opened, t: Table) {
    && WellBuilt(t) && IsTable(r.file, t) && SamePolicy(r.options, t)
    && r.index.Some? && Built(r.index.value, IndexPairs(t.blocks, t.interval), 1)
    && (r.filter.Some? ==>
          && r.options.policy.Some? && t.filter.Some? && t.filter.value.policy == r.options.policy.value
          && r.filter.value == FilterBytes(t))
  }

  // ---------------------------------------------------------------- opening

  ghost predicate EndsWithFooter(f: Bytes, meta: Handle, index: Handle) {
    |f| >= FOOTER_SIZE && DecodeFooter(f[|f| - FOOTER_SIZE..]) == Some((meta, index))
  }

  lemma FooterEnds(f: Bytes, meta: Handle, index: Handle)
    requires |Footer(meta, index)| <= |f| && PartAt(f, |f| - |Footer(meta, index)|, Footer(meta, index))
    ensures EndsWithFooter(f, meta, index)
  {
    hide Footer, DecodeFooter;
    FooterRoundTrip(meta, index);
    LastPart(f, Footer(meta, index));
  }

  lemma FooterIs(t: Table)
    requires Proper(t.blocks)
    ensures EndsWithFooter(TableBytes(t), MetaHandle(t), IndexHandle(t))
  {
    hide Footer, EndsWithFooter, MetaHandle, IndexHandle, Proper, RawBlock, DataPart, FilterPart, MetaBytes, IndexBytes;
    TableParts(t);
    FooterEnds(TableBytes(t), MetaHandle(t), IndexHandle(t));
  }

  lemma IndexIs(t: Table, verify: bool)
    requires Fits(t)
    ensures Leads(TableBytes(t), IndexHandle(t), verify, IndexPairs(t.blocks, t.interval), 1)
  {
    hide TableBytes, Leads, RawBlock, PartAt, Blocks.Small, BlockBytes, Block, FilterPart, DataPart, MetaPairs,
         IndexPairs, HandleFor;
    TableParts(t);
    BlockLeads(TableBytes(t), MetaOffset(t) + |RawBlock(MetaBytes(t))|, verify, IndexPairs(t.blocks, t.interval), 1);
  }

  lemma MetaIs(t: Table, verify: bool)
    requires Fits(t)
    ensures ReadBlock(TableBytes(t), MetaHandle(t), verify) == Some(MetaBytes(t))
    ensures var v := OpenBlock(MetaBytes(t)); v.Some? && Built(v.value, MetaPairs(t), t.interval)
    ensures t.filter.Some? ==>
      ReadBlock(TableBytes(t), HandleFor(|DataPart(t.blocks, t.interval)|, FilterBytes(t)), verify) ==
        Some(FilterBytes(t))
  {
    hide TableBytes, ReadBlock, OpenBlock, Built, RawBlock, DataPart, FilterBytes;
    TableParts(t);
    ReadsPart(TableBytes(t), MetaOffset(t), MetaBytes(t), verify);
    OpensBuilt(MetaPairs(t), t.interval);
    if t.filter.Some? {
      ReadsPart(TableBytes(t), |DataPart(t.blocks, t.interval)|, FilterBytes(t), verify);
    }
  }

  // The metaindex has at most the one entry.
  lemma MetaEntry(t: Table, i: nat, key: Bytes)
    requires i < |MetaPairs(t)| && MetaPairs(t)[i].key == key
    ensures t.filter.Some? && key == FILTER_PREFIX + t.filter.value.name
    ensures MetaPairs(t)[i].value == HandleBytes(HandleFor(|DataPart(t.blocks, t.interval)|, FilterBytes(t)))
  {
  }

  lemma SamePrefix(a: Bytes, b: Bytes)
    requires FILTER_PREFIX + a == FILTER_PREFIX + b
    ensures a == b
  {
    assert (FILTER_PREFIX + a)[|FILTER_PREFIX|..] == a;
    assert (FILTER_PREFIX + b)[|FILTER_PREFIX|..] == b;
  }

  // Table::ReadMeta and ReadFilter: failures only mean that no filter is used.
  method ReadMeta(file: Bytes, meta: Handle, options: Options, ghost t: Table) returns (filter: Option<Bytes>)
    ensures Fits(t) && IsTable(file, t) && meta == MetaHandle(t) && SamePolicy(options, t) && filter.Some? ==>
      && options.policy.Some? && t.filter.Some? && t.filter.value.policy == options.policy.value
      && filter.value == FilterBytes(t)
  {
    hide TableBytes, ReadBlock, OpenBlock, DataPart, FilterBytes, Fits, MetaHandle, Proper, Built, DecodeHandle,
         HandleBytes;
    ghost var good := Fits(t) && IsTable(file, t) && meta == MetaHandle(t) && SamePolicy(options, t);
    if options.policy.None? {
      return None;
    }
    if good { MetaIs(t, false); }
    var contents := ReadBlock(file, meta, false);
    if contents.None? {
      return None;
    }
    var view := OpenBlock(contents.value);
    if view.None? || view.value.count == 0 {
      return None;
    }
    var iter := new Iter(Less, view.value, MetaPairs(t), t.interval);
    var key := FILTER_PREFIX + options.name;
    if good { MetaSorted(t); BytewiseOrder(); }
    iter.Seek(key);
    if !iter.Valid() || iter.key != key {
      return None;
    }
    var handle := DecodeHandle(iter.Value());
    if good {
      MetaValue(t, iter, key);
      SamePrefix(options.name, t.filter.value.name);
    }
    if handle.None? {
      return None;
    }
    filter := ReadBlock(file, handle.value.0, false);
  }

  lemma MetaSorted(t: Table)
    ensures Sorted(MetaPairs(t), Less)
  {
  }

  lemma MetaValue(t: Table, iter: Iter, key: Bytes)
    requires iter.es == MetaPairs(t) && iter.interval == t.interval && iter.Shaped() && iter.Valid() && iter.key == key
    requires iter.At(LowerBound(MetaPairs(t), iter.less, key))
    ensures t.filter.Some? && key == FILTER_PREFIX + t.filter.value.name
    ensures var h := HandleFor(|DataPart(t.blocks, t.interval)|, FilterBytes(t));
      DecodeHandle(iter.Value()) == Some((h, []))
  {
    hide DecodeHandle, HandleBytes, LowerBound, DataPart, FilterBytes;
    var i := LowerBound(MetaPairs(t), iter.less, key);
    MetaEntry(t, i, key);
    var h := HandleFor(|DataPart(t.blocks, t.interval)|, FilterBytes(t));
    assert iter.Value() == HandleBytes(h) + [];
    HandleRoundTrip(h, []);
  }

  // The index, if there is one, lies inside its block.
  ghost predicate Usable(r: Opened) {
    r.index.Some? && r.index.value.count > 0 ==> ViewOk(r.index.value)
  }

  method Open(file: Bytes, options: Options, ghost t: Table) returns (r: Option<Opened>)
    ensures r.Some? ==> Usable(r.value)
    ensures WellBuilt(t) && IsTable(file, t) && SamePolicy(options, t) ==> r.Some? && OpenedAs(r.value, t)
  {
    hide TableBytes, ReadBlock, OpenBlock, FilterBytes, Fits, MetaHandle, IndexHandle, IndexBytes, Built,
         DecodeFooter, Filed, Sorted;
    ghost var good := WellBuilt(t) && IsTable(file, t) && SamePolicy(options, t);
    if good {
      assert Proper(t.blocks) by { FitsProper(t); }
      FooterIs(t);
      IndexIs(t, false);
    }
    if |file| < FOOTER_SIZE {
      return None;
    }
    var footer := DecodeFooter(file[|file| - FOOTER_SIZE..]);
    if footer.None? {
      return None;
    }
    var contents := ReadBlock(file, footer.value.1, false);
    if contents.None? {
      return None;
    }
    var filter := ReadMeta(file, footer.value.0, options, t);
    return Some(Opened(file, OpenBlock(contents.value), filter, options));
  }

  lemma FitsProper(t: Table)
    requires Fits(t)
    ensures Proper(t.blocks)
  {
  }

  // ---------------------------------------------------------------- lookup

  lemma IndexSorted(t: Table)
    requires Proper(t.blocks) && Sorted(Flat(t.blocks), InternalLess)
    ensures Sorted(IndexPairs(t.blocks, t.interval), InternalLess)
  {
    hide InternalLess, IndexKey, Flat, Sorted;
    forall i, j | 0 <= i < j < |t.blocks| ensures InternalLess(IndexKey(t.blocks, i), IndexKey(t.blocks, j)) {
      IndexKeySeparates(t.blocks, i);
      IndexKeySeparates(t.blocks, j);
      FirstNotAfterLast(t.blocks, i + 1, j);
      Chained(IndexKey(t.blocks, i), FirstKey(t.blocks[i + 1]), LastKey(t.blocks[j]), IndexKey(t.blocks, j));
    }
    SortedByKey(IndexPairs(t.blocks, t.interval), t.blocks);
  }

  lemma SortedByKey(es: seq<Pair>, blocks: seq<seq<Pair>>)
    requires Proper(blocks) && |es| == |blocks| && forall i :: 0 <= i < |es| ==> es[i].key == IndexKey(blocks, i)
    requires forall i, j :: 0 <= i < j < |blocks| ==> InternalLess(IndexKey(blocks, i), IndexKey(blocks, j))
    ensures Sorted(es, InternalLess)
  {
    hide InternalLess, IndexKey;
  }

  lemma Chained(a: Bytes, b: Bytes, c: Bytes, d: Bytes)
    requires InternalLess(a, b) && NotAfter(b, c) && NotAfter(c, d)
    ensures InternalLess(a, d)
  {
    hide InternalLess;
    InternalOrder();
  }

  lemma NonEmpty(blocks: seq<seq<Pair>>, i: nat)
    requires Proper(blocks) && i < |blocks|
    ensures blocks[i] != []
  {
  }

  lemma FirstNotAfterLast(blocks: seq<seq<Pair>>, i: nat, j: nat)
    requires Proper(blocks) && Sorted(Flat(blocks), InternalLess) && i <= j < |blocks|
    ensures NotAfter(FirstKey(blocks[i]), LastKey(blocks[j]))
  {
    hide InternalLess, Flat, Sorted, NotAfter, Before, Proper;
    NonEmpty(blocks, i);
    NonEmpty(blocks, j);
    var last := |blocks[j]| - 1;
    EntryInFlat(blocks, i, 0);
    EntryInFlat(blocks, j, last);
    BeforeAscends(blocks, i, j);
    SortedPair(Flat(blocks), Before(blocks, i) + 0, Before(blocks, j) + last);
  }

  lemma BlockSorted(t: Table, i: nat)
    requires Sorted(Flat(t.blocks), InternalLess) && i < |t.blocks|
    ensures Sorted(t.blocks[i], InternalLess)
  {
    hide InternalLess, Flat;
    forall a, b | 0 <= a < b < |t.blocks[i]| ensures InternalLess(t.blocks[i][a].key, t.blocks[i][b].key) {
      EntryInFlat(t.blocks, i, a);
      EntryInFlat(t.blocks, i, b);
    }
  }

  lemma TargetOfIndex(t: Table, k: Bytes)
    requires Proper(t.blocks)
    ensures IsTarget(t.blocks, k, LowerBound(IndexPairs(t.blocks, t.interval), InternalLess, k))
  {
    hide InternalLess, IndexKey, LowerBound, IndexPair;
    var pairs := IndexPairs(t.blocks, t.interval);
    var i := LowerBound(pairs, InternalLess, k);
    if i > 0 { PairKey(t, i - 1); }
    if i < |pairs| { PairKey(t, i); }
  }

  lemma PairKey(t: Table, i: nat)
    requires Proper(t.blocks) && i < |t.blocks|
    ensures IndexPairs(t.blocks, t.interval)[i].key == IndexKey(t.blocks, i)
    ensures IndexPairs(t.blocks, t.interval)[i].value == HandleBytes(DataHandle(t, i))
  {
    hide IndexKey, HandleBytes;
  }

  ghost function DataHandle(t: Table, i: nat): Handle
    requires i < |t.blocks|
  {
    HandleFor(DataOffset(t.blocks, t.interval, i), BlockBytes(t.blocks[i], t.interval))
  }

  // The block behind a handle holds es.
  ghost predicate Leads(file: Bytes, h: Handle, verify: bool, es: seq<Pair>, interval: nat) {
    var c := ReadBlock(file, h, verify);
    c.Some? && OpenBlock(c.value).Some? && Built(OpenBlock(c.value).value, es, interval)
  }

  lemma BlockLeads(file: Bytes, offset: nat, verify: bool, es: seq<Pair>, interval: nat)
    requires interval >= 1 && Blocks.Small(es, interval) && |file| < TWO_64
    requires PartAt(file, offset, RawBlock(BlockBytes(es, interval)))
    ensures Leads(file, HandleFor(offset, BlockBytes(es, interval)), verify, es, interval)
  {
    assert BlockBytes(es, interval) == Block(es, interval);
    hide ReadBlock, OpenBlock, Built, RawBlock, BlockBytes, Block, PartAt, HandleFor, Blocks.Small;
    ReadsPart(file, offset, BlockBytes(es, interval), verify);
    OpensBuilt(es, interval);
  }

  // A data block is found through its handle.
  lemma DataBlockIs(t: Table, i: nat, verify: bool)
    requires Fits(t) && i < |t.blocks|
    ensures Leads(TableBytes(t), DataHandle(t, i), verify, t.blocks[i], t.interval)
  {
    hide Leads, TableBytes, RawBlock, DataPart, BlockBytes, Block, Blocks.Small, HandleFor, PartAt, FilterPart,
         MetaPairs, IndexPairs, MetaBytes, IndexBytes;
    TableParts(t);
    DataBlockInTable(t, i);
    BlockLeads(TableBytes(t), DataOffset(t.blocks, t.interval, i), verify, t.blocks[i], t.interval);
  }

  lemma DataBlockInTable(t: Table, i: nat)
    requires Proper(t.blocks) && i < |t.blocks| && PartAt(TableBytes(t), 0, DataPart(t.blocks, t.interval))
    ensures PartAt(TableBytes(t), DataOffset(t.blocks, t.interval, i), RawBlock(BlockBytes(t.blocks[i], t.interval)))
  {
    hide TableBytes, RawBlock, DataPart, BlockBytes, Proper;
    DataBlockAt(t.blocks, t.interval, i);
    PartOfPart(TableBytes(t), 0, DataPart(t.blocks, t.interval), DataOffset(t.blocks, t.interval, i),
      RawBlock(BlockBytes(t.blocks[i], t.interval)));
  }

  // A filter that rejects the key means that the block has nothing with its
  // user key.
  lemma FilterIsRight(t: Table, i: nat, k: Bytes, e: Pair)
    requires WellBuilt(t) && t.filter.Some? && i < |t.blocks| && e in t.blocks[i] && IsInternal(k) && IsInternal(e.key)
    requires UserKey(e.key) == UserKey(k) && DataHandle(t, i).offset == DataOffset(t.blocks, t.interval, i)
    ensures KeyMayMatch(t.filter.value.policy, FilterBytes(t), DataHandle(t, i).offset, k)
  {
    var f := t.filter.value;
    var o := DataOffset(t.blocks, t.interval, i);
    hide DataPart, Contents, KeyMayMatch, Sorted, Fits;
    assert FilterBlock.Small(f.policy, f.groups) by { FitsFilter(t); }
    hide FilterBlock.Small;
    ContentsMatch(f.policy, f.groups, o, e.key);
    SameUserKeyMatches(f.policy, FilterBytes(t), o, e.key, k);
  }

  lemma FitsFilter(t: Table)
    requires Fits(t) && t.filter.Some?
    ensures FilterBlock.Small(t.filter.value.policy, t.filter.value.groups)
  {
  }

  lemma DataHandleIs(t: Table, i: nat)
    requires Fits(t) && i < |t.blocks|
    ensures DataHandle(t, i).offset == DataOffset(t.blocks, t.interval, i)
  {
    hide TableBytes, DataPart, BlockBytes, Block, Blocks.Small, PartAt, FilterPart, MetaPairs, IndexPairs, MetaBytes,
         IndexBytes, RawBlock;
    TableParts(t);
    DataBlockInTable(t, i);
    PartFits(TableBytes(t), DataOffset(t.blocks, t.interval, i), BlockBytes(t.blocks[i], t.interval));
  }

  lemma PartFits(file: Bytes, offset: nat, contents: Bytes)
    requires PartAt(file, offset, RawBlock(contents)) && |file| < TWO_64
    ensures HandleFor(offset, contents).offset == offset
  {
  }

  // What the handle in an index entry says, and whether the filter rejects it.
  predicate Rejected(r: Opened, value: Bytes, k: Bytes) {
    && r.filter.Some? && r.options.policy.Some? && DecodeHandle(value).Some?
    && !KeyMayMatch(r.options.policy.value, r.filter.value, DecodeHandle(value).value.0.offset, k)
  }

  // The entry of a data block behind an encoded handle.
  method SeekBlock(file: Bytes, value: Bytes, verify: bool, k: Bytes, ghost h: Handle, ghost es: seq<Pair>,
                   ghost interval: nat)
    returns (found: Option<Pair>)
    ensures value == HandleBytes(h) && Leads(file, h, verify, es, interval) && Sorted(es, InternalLess) ==>
      found == Found(es, k)
  {
    hide DecodeHandle, HandleBytes, ReadBlock, OpenBlock, Built, InternalLess, Sorted;
    ghost var good := value == HandleBytes(h) && Leads(file, h, verify, es, interval) && Sorted(es, InternalLess);
    if good {
      assert value + [] == value;
      HandleRoundTrip(h, []);
      InternalOrder();
    }
    var handle := DecodeHandle(value);
    if handle.None? {
      return None;
    }
    var contents := ReadBlock(file, handle.value.0, verify);
    if contents.None? {
      return None;
    }
    var view := OpenBlock(contents.value);
    if view.None? {
      return None;
    }
    if good { BuiltOk(view.value, es, interval); }
    if view.value.count == 0 {
      return None;
    }
    var iter := new Iter(InternalLess, view.value, es, interval);
    iter.Seek(k);
    if !iter.Valid() {
      return None;
    }
    if good { IterPair(iter, LowerBound(es, InternalLess, k)); }
    return Some(Pair(iter.key, iter.Value()));
  }

  lemma IterPair(iter: Iter, i: nat)
    requires iter.Shaped() && iter.Valid() && iter.At(i)
    ensures i < |iter.es| && iter.es[i] == Pair(iter.key, iter.Value())
  {
  }

  method InternalGet(r: Opened, k: Bytes, ghost t: Table) returns (found: Option<Pair>)
    requires IsInternal(k) && Usable(r)
    ensures OpenedAs(r, t) ==> Answers(Flat(t.blocks), k, found)
  {
    hide OpenedAs, Answers, Built, InternalLess, Flat, Proper, Sorted;
    ghost var good := OpenedAs(r, t);
    ghost var pairs := [];
    if good {
      OpenedIndex(r, t);
      pairs := IndexPairs(t.blocks, t.interval);
      BuiltOk(r.index.value, pairs, 1);
    }
    if r.index.None? || r.index.value.count == 0 {
      return None;
    }
    var iiter := new Iter(InternalLess, r.index.value, pairs, 1);
    iiter.Seek(k);
    ghost var i := LowerBound(pairs, InternalLess, k);
    if !iiter.Valid() {
      if good { NothingThere(r, t, k, i); }
      return None;
    }
    var value := iiter.Value();
    if good {
      IterPair(iiter, i);
      PairKey(t, i);
      GetAnswers(r, t, k, i, value);
    }
    if Rejected(r, value, k) {
      return None;
    }
    found := SeekBlock(r.file, value, r.options.verify, k, if good then DataHandle(t, i) else Handle(0, 0),
                       if good then t.blocks[i] else [], t.interval);
  }

  lemma OpenedIndex(r: Opened, t: Table)
    requires OpenedAs(r, t)
    ensures Proper(t.blocks) && r.index.Some? && Built(r.index.value, IndexPairs(t.blocks, t.interval), 1)
    ensures StrictOrder(InternalLess) && Sorted(IndexPairs(t.blocks, t.interval), InternalLess)
  {
    InternalOrder();
    IndexSorted(t);
  }

  lemma NothingThere(r: Opened, t: Table, k: Bytes, i: nat)
    requires OpenedAs(r, t) && IsInternal(k) &&
             i == |t.blocks| == LowerBound(IndexPairs(t.blocks, t.interval), InternalLess, k)
    ensures Answers(Flat(t.blocks), k, None)
  {
    hide Built, Answers, Flat, InternalLess, LowerBound, TableBytes;
    TargetOfIndex(t, k);
    LookupAnswers(t.blocks, k, i, false);
  }

  // Both outcomes of the filter lead to a right answer.
  lemma GetAnswers(r: Opened, t: Table, k: Bytes, i: nat, value: Bytes)
    requires OpenedAs(r, t) && IsInternal(k) && i < |t.blocks|
    requires i == LowerBound(IndexPairs(t.blocks, t.interval), InternalLess, k) &&
             value == HandleBytes(DataHandle(t, i))
    ensures Answers(Flat(t.blocks), k, if Rejected(r, value, k) then None else Found(t.blocks[i], k))
    ensures Leads(r.file, DataHandle(t, i), r.options.verify, t.blocks[i], t.interval) &&
            Sorted(t.blocks[i], InternalLess)
  {
    hide Built, Answers, Flat, InternalLess, LowerBound, TableBytes, Leads, DecodeHandle, HandleBytes, KeyMayMatch,
         Fits, Filed;
    TargetOfIndex(t, k);
    DataBlockIs(t, i, r.options.verify);
    BlockSorted(t, i);
    assert value + [] == value;
    HandleRoundTrip(DataHandle(t, i), []);
    if Rejected(r, value, k) {
      DataHandleIs(t, i);
      forall e | e in t.blocks[i] && IsInternal(e.key) ensures UserKey(e.key) != UserKey(k) {
        if UserKey(e.key) == UserKey(k) { FilterIsRight(t, i, k, e); }
      }
    }
    LookupAnswers(t.blocks, k, i, !Rejected(r, value, k));
  }
}
