/**
  The two-level iterator (table/two_level_iterator.cc): an index iterator whose
  values are handles, and a data iterator over the block behind a handle.  It is
  a cursor on the concatenation of all blocks, however many of them are empty.
 */
module TwoLevel {
  import opened Basics
  import opened Entries
  import opened Concatenation
  import C = Cursors

  type Handle = Bytes
  type BlockFunction = Handle -> seq<Entry>

  // An index entry: a key no smaller than its block's, and the block's handle.
  datatype IndexEntry = IndexEntry(key: IKey, handle: Handle)

  // ---------------------------------------------------------------- state

  // index is the position of the index iterator, past the end when not valid;
  // data is absent when the source's data iterator is NULL.
  datatype State = State(index: nat, data: Option<C.Cursor>, handle: Handle)

  function Blocks(index: seq<IndexEntry>, open: BlockFunction): (r: seq<seq<Entry>>)
    ensures |r| == |index| && forall b :: 0 <= b < |r| ==> r[b] == open(index[b].handle)
  {
    seq(|index|, b requires 0 <= b < |index| => open(index[b].handle))
  }

  // The open data iterator is over the block of the handle that is remembered.
  ghost predicate Opened(s: State, open: BlockFunction) {
    s.data.Some? ==> s.data.value.es == open(s.handle)
  }

  predicate DataValid(s: State) {
    s.data.Some? && C.Valid(s.data.value)
  }

  // Where the iterator stands in the concatenation.
  ghost predicate Stands(s: State, index: seq<IndexEntry>, open: BlockFunction, p: nat) {
    var blocks := Blocks(index, open);
    && Opened(s, open) && s.index <= |index| && p <= |Flat(blocks)|
    && (p < |Flat(blocks)| ==>
          DataValid(s) && s.index < |index| && s.handle == index[s.index].handle
          && p == Before(blocks, s.index) + s.data.value.pos)
    && (p == |Flat(blocks)| ==> !DataValid(s))
  }

  // InitDataBlock: keep an iterator that is already over this block.
  function InitDataBlock(s: State, index: seq<IndexEntry>, open: BlockFunction): State {
    if s.index >= |index| then s.(data := None)
    else
      var handle := index[s.index].handle;
      if s.data.Some? && handle == s.handle then s
      else State(s.index, Some(C.Cursor(open(handle), 0)), handle)
  }

  lemma InitOpens(s: State, index: seq<IndexEntry>, open: BlockFunction)
    requires Opened(s, open)
    ensures var t := InitDataBlock(s, index, open);
      && Opened(t, open) && t.index == s.index
      && (s.index < |index| ==> t.data.Some? && t.handle == index[s.index].handle && t.data.value.es == open(t.handle))
      && (s.index >= |index| ==> t.data.None?)
  {
  }

  // ---------------------------------------------------------------- skipping empty blocks

  // On the way forward to p: either there, or at a spent block before it.
  ghost predicate Heading(s: State, index: seq<IndexEntry>, open: BlockFunction, p: nat) {
    var blocks := Blocks(index, open);
    && Opened(s, open) && s.index <= |index|
    && if DataValid(s) then Stands(s, index, open, p)
       else p == if s.index < |index| then Before(blocks, s.index + 1) else |Flat(blocks)|
  }

  // On the way back to p, which is past the end if nothing comes before.
  ghost predicate Returning(s: State, index: seq<IndexEntry>, open: BlockFunction, p: nat) {
    var blocks := Blocks(index, open);
    && Opened(s, open) && s.index <= |index|
    && (DataValid(s) ==> Stands(s, index, open, p))
    && (!DataValid(s) ==>
          p == if s.index < |index| && Before(blocks, s.index) > 0 then Before(blocks, s.index) - 1 else |Flat(blocks)|)
  }

  // The iterator has been put on entry j of its block.
  lemma StandsAt(s: State, index: seq<IndexEntry>, open: BlockFunction, j: nat)
    requires s.index < |index| && s.data == Some(C.Cursor(open(index[s.index].handle), j)) &&
             s.handle == index[s.index].handle
    requires j < |open(s.handle)|
    ensures Stands(s, index, open, Before(Blocks(index, open), s.index) + j)
  {
    hide Flat;
    EntryInFlat(Blocks(index, open), s.index, j);
  }

  function NextBlock(s: State, index: seq<IndexEntry>, open: BlockFunction): State
    requires s.index < |index|
  {
    var t := InitDataBlock(s.(index := s.index + 1), index, open);
    if t.data.Some? then t.(data := Some(C.SeekToFirst(t.data.value))) else t
  }

  lemma NextBlockHeads(s: State, index: seq<IndexEntry>, open: BlockFunction, p: nat)
    requires Heading(s, index, open, p) && !DataValid(s) && s.index < |index|
    ensures Heading(NextBlock(s, index, open), index, open, p)
  {
    hide Flat;
    var (t, blocks) := (NextBlock(s, index, open), Blocks(index, open));
    InitOpens(s.(index := s.index + 1), index, open);
    if t.index < |index| {
      BlockInFlat(blocks, t.index);
      if DataValid(t) { StandsAt(t, index, open, 0); }
    } else {
      Ends(blocks);
    }
  }

  function PrevBlock(s: State, index: seq<IndexEntry>, open: BlockFunction): State
    requires s.index < |index|
  {
    var t := InitDataBlock(s.(index := if s.index == 0 then |index| else s.index - 1), index, open);
    if t.data.Some? then t.(data := Some(C.SeekToLast(t.data.value))) else t
  }

  lemma PrevBlockReturns(s: State, index: seq<IndexEntry>, open: BlockFunction, p: nat)
    requires Returning(s, index, open, p) && !DataValid(s) && s.index < |index|
    ensures Returning(PrevBlock(s, index, open), index, open, p)
  {
    hide Flat;
    var (t, blocks) := (PrevBlock(s, index, open), Blocks(index, open));
    InitOpens(s.(index := if s.index == 0 then |index| else s.index - 1), index, open);
    Ends(blocks);
    if t.index < |index| {
      BlockInFlat(blocks, t.index);
      if DataValid(t) { StandsAt(t, index, open, |open(t.handle)| - 1); }
    }
  }

  // ---------------------------------------------------------------- seeking

  // Index keys ascend, are not before their block's entries, and are before
  // everything in later blocks.
  ghost predicate Separates(index: seq<IndexEntry>, open: BlockFunction) {
    && (forall a, b :: 0 <= a < b < |index| ==> ILess(index[a].key, index[b].key))
    && (forall b, e :: 0 <= b < |index| && e in open(index[b].handle) ==> !ILess(index[b].key, e.ik))
    && (forall a, b, e :: 0 <= a < b < |index| && e in open(index[b].handle) ==> ILess(index[a].key, e.ik))
  }

  function IndexBound(index: seq<IndexEntry>, k: IKey): (b: nat)
    ensures b <= |index| && (b < |index| ==> !ILess(index[b].key, k))
    ensures forall a :: 0 <= a < b ==> ILess(index[a].key, k)
  {
    if index == [] || !ILess(index[0].key, k) then 0
    else
      var b := IndexBound(index[1..], k);
      assert forall a :: 0 < a <= b ==> index[a] == index[1..][a - 1];
      b + 1
  }

  function SeekState(s: State, index: seq<IndexEntry>, open: BlockFunction, k: IKey): State {
    var t := InitDataBlock(s.(index := IndexBound(index, k)), index, open);
    if t.data.Some? then t.(data := Some(C.Seek(t.data.value, k))) else t
  }

  // Everything before the block is before the key.
  lemma EarlierBlocks(index: seq<IndexEntry>, open: BlockFunction, k: IKey, b: nat)
    requires Separates(index, open) && b <= |index| && forall a :: 0 <= a < b ==> ILess(index[a].key, k)
    ensures var blocks := Blocks(index, open);
      Before(blocks, b) <= |Flat(blocks)| && forall q :: 0 <= q < Before(blocks, b) ==> ILess(Flat(blocks)[q].ik, k)
  {
    hide Flat;
    var blocks := Blocks(index, open);
    BeforeAscends(blocks, b, |blocks|);
    forall q | 0 <= q < Before(blocks, b) ensures ILess(Flat(blocks)[q].ik, k) {
      var a := BlockOf(blocks, q);
      if a >= b { BeforeAscends(blocks, b, a); }
      BlockInFlat(blocks, a);
      EntryInFlat(blocks, a, q - Before(blocks, a));
      assert Flat(blocks)[q] in blocks[a] && !ILess(index[a].key, Flat(blocks)[q].ik);
    }
  }

  lemma SeekHeads(s: State, index: seq<IndexEntry>, open: BlockFunction, k: IKey)
    requires Opened(s, open) && Separates(index, open) && Sorted(Flat(Blocks(index, open)))
    ensures Heading(SeekState(s, index, open, k), index, open, C.LowerBound(Flat(Blocks(index, open)), k))
  {
    hide Flat, IndexBound, C.LowerBound;
    var (b, blocks) := (IndexBound(index, k), Blocks(index, open));
    var t := SeekState(s, index, open, k);
    var es := Flat(blocks);
    InitOpens(s.(index := b), index, open);
    EarlierBlocks(index, open, k, b);
    if b == |index| {
      Ends(blocks);
      C.LowerBoundIs(es, k, |es|);
    } else {
      var j := C.LowerBound(blocks[b], k);
      BlockInFlat(blocks, b);
      SeekInBlock(index, open, k, b);
      if j < |blocks[b]| {
        StandsAt(t, index, open, j);
      }
    }
  }

  // The block that the index leads to has the first entry, or ends right before it.
  lemma SeekInBlock(index: seq<IndexEntry>, open: BlockFunction, k: IKey, b: nat)
    requires Separates(index, open) && Sorted(Flat(Blocks(index, open)))
    requires b < |index| && !ILess(index[b].key, k)
    requires forall q :: 0 <= q < Before(Blocks(index, open), b) && q < |Flat(Blocks(index, open))| ==>
               ILess(Flat(Blocks(index, open))[q].ik, k)
    ensures C.LowerBound(Flat(Blocks(index, open)), k) ==
            Before(Blocks(index, open), b) + C.LowerBound(Blocks(index, open)[b], k)
  {
    hide Flat, C.LowerBound, Separates, Sorted;
    var blocks := Blocks(index, open);
    var (es, j) := (Flat(blocks), C.LowerBound(blocks[b], k));
    BlockInFlat(blocks, b);
    forall q | Before(blocks, b) <= q < Before(blocks, b) + j ensures ILess(es[q].ik, k) {
      EntryInFlat(blocks, b, q - Before(blocks, b));
    }
    if j < |blocks[b]| {
      EntryInFlat(blocks, b, j);
    } else {
      LaterEntry(index, open, k, b);
    }
    C.LowerBoundIs(es, k, Before(blocks, b) + j);
  }

  // What follows a block whose index key is not before k is not before k.
  lemma LaterEntry(index: seq<IndexEntry>, open: BlockFunction, k: IKey, b: nat)
    requires Separates(index, open) && b < |index| && !ILess(index[b].key, k)
    ensures var (es, q) := (Flat(Blocks(index, open)), Before(Blocks(index, open), b + 1));
            q < |es| ==> !ILess(es[q].ik, k)
  {
    hide Flat;
    var blocks := Blocks(index, open);
    var q := Before(blocks, b + 1);
    if q < |Flat(blocks)| {
      var a := BlockOf(blocks, q);
      if a <= b { BeforeAscends(blocks, a + 1, b + 1); }
      BlockInFlat(blocks, a);
      EntryInFlat(blocks, a, q - Before(blocks, a));
      assert Flat(blocks)[q] in blocks[a] && ILess(index[b].key, Flat(blocks)[q].ik);
    }
  }

  // ---------------------------------------------------------------- the iterator

  lemma StandsOn(s: State, index: seq<IndexEntry>, open: BlockFunction, p: nat)
    requires Stands(s, index, open, p) && DataValid(s)
    ensures p < |Flat(Blocks(index, open))| && C.Current(s.data.value) == Flat(Blocks(index, open))[p]
  {
    hide Flat;
    EntryInFlat(Blocks(index, open), s.index, s.data.value.pos);
  }

  class TwoLevelIterator {
    const entries: seq<IndexEntry>
    const open: BlockFunction
    var state: State

    // All blocks, one after the other.
    ghost function Contents(): seq<Entry> {
      Flat(Blocks(entries, open))
    }

    // The iterator is a cursor on the contents at p.
    ghost predicate At(p: nat)
      reads this
    {
      Stands(state, entries, open, p)
    }

    predicate IsValid()
      reads this
    {
      DataValid(state)
    }

    constructor (entries: seq<IndexEntry>, open: BlockFunction)
      ensures this.entries == entries && this.open == open && At(|Contents()|)
    {
      this.entries, this.open := entries, open;
      state := State(|entries|, None, []);
    }

    // key and value
    method Current(ghost p: nat) returns (e: Entry)
      requires At(p) && IsValid()
      ensures p < |Contents()| && e == Contents()[p]
    {
      StandsOn(state, entries, open, p);
      e := C.Current(state.data.value);
    }

    method SkipEmptyDataBlocksForward(ghost p: nat)
      requires Heading(state, entries, open, p)
      modifies this
      ensures At(p)
    {
      hide Flat, Before;
      Ends(Blocks(entries, open));
      while !DataValid(state)
        invariant Heading(state, entries, open, p)
        decreases |entries| - state.index
      {
        if state.index >= |entries| {
          state := state.(data := None);
          return;
        }
        NextBlockHeads(state, entries, open, p);
        state := NextBlock(state, entries, open);
      }
    }

    method SkipEmptyDataBlocksBackward(ghost p: nat)
      requires Returning(state, entries, open, p)
      modifies this
      ensures At(p)
    {
      hide Flat, Before;
      while !DataValid(state)
        invariant Returning(state, entries, open, p)
        decreases if state.index < |entries| then state.index + 1 else 0, !DataValid(state)
      {
        if state.index >= |entries| {
          state := state.(data := None);
          return;
        }
        PrevBlockReturns(state, entries, open, p);
        state := PrevBlock(state, entries, open);
      }
    }

    method Seek(k: IKey)
      requires Opened(state, open) && Separates(entries, open) && Sorted(Contents())
      modifies this
      ensures At(C.LowerBound(Contents(), k))
    {
      hide Flat, Before, SeekState;
      SeekHeads(state, entries, open, k);
      state := SeekState(state, entries, open, k);
      SkipEmptyDataBlocksForward(C.LowerBound(Contents(), k));
    }

    method SeekToFirst()
      requires Opened(state, open)
      modifies this
      ensures At(0)
    {
      hide Flat, Before;
      ghost var blocks := Blocks(entries, open);
      Ends(blocks);
      InitOpens(state.(index := 0), entries, open);
      state := InitDataBlock(state.(index := 0), entries, open);
      if state.data.Some? {
        state := state.(data := Some(C.SeekToFirst(state.data.value)));
        BlockInFlat(blocks, 0);
        if DataValid(state) { StandsAt(state, entries, open, 0); }
      }
      SkipEmptyDataBlocksForward(0);
    }

    method SeekToLast()
      requires Opened(state, open)
      modifies this
      ensures At(if Contents() == [] then 0 else |Contents()| - 1)
    {
      hide Flat, Before;
      ghost var blocks := Blocks(entries, open);
      Ends(blocks);
      var last := if |entries| == 0 then 0 else |entries| - 1;
      InitOpens(state.(index := last), entries, open);
      state := InitDataBlock(state.(index := last), entries, open);
      if state.data.Some? {
        state := state.(data := Some(C.SeekToLast(state.data.value)));
        BlockInFlat(blocks, last);
        if DataValid(state) { StandsAt(state, entries, open, |open(state.handle)| - 1); }
      }
      SkipEmptyDataBlocksBackward(if Contents() == [] then 0 else |Contents()| - 1);
    }

    method Next(ghost p: nat)
      requires At(p) && IsValid()
      modifies this
      ensures At(p + 1)
    {
      hide Flat, Before;
      ghost var blocks := Blocks(entries, open);
      BlockInFlat(blocks, state.index);
      state := state.(data := Some(C.Next(state.data.value)));
      if DataValid(state) { StandsAt(state, entries, open, state.data.value.pos); }
      SkipEmptyDataBlocksForward(p + 1);
    }

    method Prev(ghost p: nat)
      requires At(p) && IsValid()
      modifies this
      ensures if p == 0 then !IsValid() && Opened(state, open) else At(p - 1)
    {
      hide Flat, Before;
      ghost var blocks := Blocks(entries, open);
      BlockInFlat(blocks, state.index);
      state := state.(data := Some(C.Prev(state.data.value)));
      if DataValid(state) { StandsAt(state, entries, open, state.data.value.pos); }
      SkipEmptyDataBlocksBackward(if p == 0 then |Contents()| else p - 1);
    }
  }
}
