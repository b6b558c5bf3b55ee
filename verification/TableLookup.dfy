/**
  Why a lookup through shortened index keys is right (table/table.cc,
  table/table_builder.cc): the order of index keys, blocks and entries, before
  any bytes.
 */
module TableLookup {
  import opened Basics
  import opened Coding
  import opened Blocks
  import opened BlockIter
  import opened BlockCursor
  import opened Comparators
  import opened Concatenation

  // ---------------------------------------------------------------- blocks of a table

  // Every block holds something, and all keys are internal keys.
  ghost predicate Proper(blocks: seq<seq<Pair>>) {
    && (forall i :: 0 <= i < |blocks| ==> blocks[i] != [])
    && (forall i, e :: 0 <= i < |blocks| && e in blocks[i] ==> IsInternal(e.key))
  }

  function FirstKey(block: seq<Pair>): Bytes
    requires block != []
  {
    block[0].key
  }

  function LastKey(block: seq<Pair>): Bytes
    requires block != []
  {
    block[|block| - 1].key
  }

  // The key under which block i is filed in the index.
  function IndexKey(blocks: seq<seq<Pair>>, i: nat): Bytes
    requires Proper(blocks) && i < |blocks|
  {
    if i + 1 < |blocks| then InternalSeparator(LastKey(blocks[i]), FirstKey(blocks[i + 1]))
    else InternalSuccessor(LastKey(blocks[i]))
  }

  // ---------------------------------------------------------------- separation

  // Index keys lie between their block and the next.
  lemma IndexKeySeparates(blocks: seq<seq<Pair>>, i: nat)
    requires Proper(blocks) && Sorted(Flat(blocks), InternalLess) && i < |blocks|
    ensures NotAfter(LastKey(blocks[i]), IndexKey(blocks, i)) && IsInternal(IndexKey(blocks, i))
    ensures i + 1 < |blocks| ==> InternalLess(IndexKey(blocks, i), FirstKey(blocks[i + 1]))
  {
    hide Flat, InternalLess, InternalSeparator, InternalSuccessor, NotAfter;
    var last := |blocks[i]| - 1;
    assert blocks[i][last] in blocks[i];
    if i + 1 < |blocks| {
      assert blocks[i + 1][0] in blocks[i + 1];
      EntryInFlat(blocks, i, last);
      EntryInFlat(blocks, i + 1, 0);
      BlockInFlat(blocks, i);
      InternalSeparatorSeparates(LastKey(blocks[i]), FirstKey(blocks[i + 1]));
    } else {
      InternalSuccessorFollows(LastKey(blocks[i]));
    }
  }

  lemma NotAfterUser(a: Bytes, b: Bytes)
    requires IsInternal(a) && IsInternal(b) && NotAfter(a, b)
    ensures LessEq(UserKey(a), UserKey(b))
  {
    hide Less, DecodeFixed64;
  }

  lemma NotBothWays(a: Bytes, b: Bytes)
    requires IsInternal(a) && IsInternal(b) && InternalLess(a, b)
    ensures !NotAfter(b, a)
  {
    hide DecodeFixed64, Less;
    LessIrreflexive(UserKey(a));
    if Less(UserKey(a), UserKey(b)) && Less(UserKey(b), UserKey(a)) {
      LessTransitive(UserKey(a), UserKey(b), UserKey(a));
    }
  }

  lemma StrictlyBetween(a: Bytes, b: Bytes, c: Bytes, d: Bytes)
    requires LessEq(a, b) && Less(b, c) && LessEq(c, d)
    ensures a != d
  {
    hide Less;
    if a != b { LessTransitive(a, b, c); }
    if c != d { LessTransitive(a, c, d); }
    LessIrreflexive(a);
  }

  // Nothing between the last key of a block and its index key can share a user
  // key with an entry of a later block.
  lemma SeparatorGap(start: Bytes, limit: Bytes, k: Bytes, x: Bytes)
    requires IsInternal(start) && IsInternal(limit) && IsInternal(k) && IsInternal(x)
    requires InternalLess(start, limit) && InternalLess(start, k) && NotAfter(k, InternalSeparator(start, limit))
    requires NotAfter(limit, x)
    ensures UserKey(x) != UserKey(k)
  {
    hide Separator, InternalLess, NotAfter, WithMaxTag, Less;
    var user := Separator(UserKey(start), UserKey(limit));
    NotBothWays(start, k);
    assert InternalSeparator(start, limit) == WithMaxTag(user);
    MaxTagUser(user);
    SeparatorGrows(start, limit);
    NotAfterUser(k, WithMaxTag(user));
    NotAfterUser(limit, x);
    StrictlyBetween(UserKey(k), user, UserKey(limit), UserKey(x));
  }

  // A shortened separator is strictly before the user key of the limit.
  lemma SeparatorGrows(start: Bytes, limit: Bytes)
    requires IsInternal(start) && IsInternal(limit) && InternalLess(start, limit)
    requires Less(UserKey(start), Separator(UserKey(start), UserKey(limit)))
    ensures Less(Separator(UserKey(start), UserKey(limit)), UserKey(limit))
  {
    hide Separator, DecodeFixed64, Less;
    SeparatorSeparates(UserKey(start), UserKey(limit));
    if UserKey(start) == UserKey(limit) {
      SeparatorSelf(UserKey(start));
      LessIrreflexive(UserKey(start));
    }
  }

  // Index keys are short where they can be: between blocks as long as what the
  // user keys share and one byte more, and after the last as long as its run of 0xff
  // and one byte more.
  lemma IndexKeyShort(blocks: seq<seq<Pair>>, i: nat, n: nat)
    requires Proper(blocks) && i < |blocks| && n + 1 < |UserKey(LastKey(blocks[i]))|
    ensures var a := UserKey(LastKey(blocks[i]));
            if i + 1 < |blocks| then
              var b := UserKey(FirstKey(blocks[i + 1]));
              n < |b| && a[..n] == b[..n] && a[n] as int + 1 < b[n] ==> |IndexKey(blocks, i)| == n + 1 + 8
            else
              (forall j :: 0 <= j < n ==> a[j] == 255) && a[n] != 255 ==> |IndexKey(blocks, i)| == n + 1 + 8
  {
    hide Separator, Successor;
    var (last, a) := (LastKey(blocks[i]), UserKey(LastKey(blocks[i])));
    if i + 1 < |blocks| {
      var first := FirstKey(blocks[i + 1]);
      var b := UserKey(first);
      if n < |b| && a[..n] == b[..n] && a[n] as int + 1 < b[n] {
        SeparatorShortest(a, b, n);
        InternalSeparatorShort(last, first);
      }
    } else if (forall j :: 0 <= j < n ==> a[j] == 255) && a[n] != 255 {
      SuccessorLength(a, 0, n);
      InternalSuccessorShort(last);
    }
  }

  lemma {:induction false} SuccessorLength(key: Bytes, i: nat, n: nat)
    requires i <= n < |key| && (forall j :: 0 <= j < n ==> key[j] == 255) && key[n] != 255
    ensures |Successor(key, i)| == n + 1
    decreases n - i
  {
    if i < n { SuccessorLength(key, i + 1, n); }
  }

  // ---------------------------------------------------------------- lookup

  // Table::InternalGet promises: the first entry at or after the key if it has
  // the same user key; otherwise nothing with that user key.
  ghost predicate Answers(es: seq<Pair>, k: Bytes, r: Option<Pair>)
    requires IsInternal(k)
  {
    var i := LowerBound(es, InternalLess, k);
    if i < |es| && IsInternal(es[i].key) && UserKey(es[i].key) == UserKey(k) then r == Some(es[i])
    else r.Some? ==> !IsInternal(r.value.key) || UserKey(r.value.key) != UserKey(k)
  }

  // The first block whose index key is not before k.
  ghost predicate IsTarget(blocks: seq<seq<Pair>>, k: Bytes, i: nat)
    requires Proper(blocks)
  {
    && i <= |blocks|
    && (i > 0 ==> InternalLess(IndexKey(blocks, i - 1), k))
    && (i < |blocks| ==> !InternalLess(IndexKey(blocks, i), k))
  }

  // What a lookup finds in block i.
  function Found(block: seq<Pair>, k: Bytes): Option<Pair> {
    var j := LowerBound(block, InternalLess, k);
    if j < |block| then Some(block[j]) else None
  }

  lemma InternalChain(a: Bytes, b: Bytes, c: Bytes)
    requires NotAfter(a, b) && InternalLess(b, c)
    ensures InternalLess(a, c)
  {
    hide InternalLess;
    InternalOrder();
  }

  lemma NotLess(a: Bytes, b: Bytes)
    requires !InternalLess(a, b)
    ensures NotAfter(b, a)
  {
    hide InternalLess;
    InternalOrder();
  }

  lemma EarlierBlocks(blocks: seq<seq<Pair>>, k: Bytes, i: nat)
    requires Proper(blocks) && Sorted(Flat(blocks), InternalLess) && IsTarget(blocks, k, i)
    ensures forall q :: 0 <= q < Before(blocks, i) && q < |Flat(blocks)| ==> InternalLess(Flat(blocks)[q].key, k)
  {
    hide Flat, InternalLess, NotAfter, IndexKey;
    if i > 0 {
      var last := |blocks[i - 1]| - 1;
      EntryInFlat(blocks, i - 1, last);
      BlockInFlat(blocks, i - 1);
      IndexKeySeparates(blocks, i - 1);
      var end := Before(blocks, i) - 1;
      forall q | 0 <= q < Before(blocks, i) && q < |Flat(blocks)| ensures InternalLess(Flat(blocks)[q].key, k) {
        InternalChain(LastKey(blocks[i - 1]), IndexKey(blocks, i - 1), k);
        assert q == end || InternalLess(Flat(blocks)[q].key, Flat(blocks)[end].key);
        InternalEither(Flat(blocks)[q].key, Flat(blocks)[end].key, k);
      }
    } else {
      Ends(blocks);
    }
  }

  lemma InternalEither(a: Bytes, b: Bytes, c: Bytes)
    requires (a == b || InternalLess(a, b)) && InternalLess(b, c)
    ensures InternalLess(a, c)
  {
    InternalChain(a, b, c);
  }

  lemma LowerBoundUnique(es: seq<Pair>, k: Bytes, i: nat)
    requires i <= |es| && (i < |es| ==> !InternalLess(es[i].key, k))
    requires forall q :: 0 <= q < i ==> InternalLess(es[q].key, k)
    ensures LowerBound(es, InternalLess, k) == i
  {
    hide InternalLess;
  }

  // The block has an entry at or after k: it is the first one of the table.
  lemma FoundInBlock(blocks: seq<seq<Pair>>, k: Bytes, i: nat)
    requires Proper(blocks) && Sorted(Flat(blocks), InternalLess) && IsTarget(blocks, k, i) && i < |blocks|
    requires LowerBound(blocks[i], InternalLess, k) < |blocks[i]|
    ensures var j := LowerBound(blocks[i], InternalLess, k);
      LowerBound(Flat(blocks), InternalLess, k) == Before(blocks, i) + j < |Flat(blocks)|
      && Flat(blocks)[Before(blocks, i) + j] == blocks[i][j]
  {
    hide Flat, InternalLess, Proper, IsTarget, Sorted;
    var j := LowerBound(blocks[i], InternalLess, k);
    EarlierBlocks(blocks, k, i);
    EntryInFlat(blocks, i, j);
    forall q | 0 <= q < Before(blocks, i) + j ensures InternalLess(Flat(blocks)[q].key, k) {
      if q >= Before(blocks, i) { EntryInFlat(blocks, i, q - Before(blocks, i)); }
    }
    LowerBoundUnique(Flat(blocks), k, Before(blocks, i) + j);
  }

  // It has none: everything up to the end of the block is before k,
  lemma PastBlock(blocks: seq<seq<Pair>>, k: Bytes, i: nat)
    requires Proper(blocks) && Sorted(Flat(blocks), InternalLess) && IsTarget(blocks, k, i) && i < |blocks|
    requires LowerBound(blocks[i], InternalLess, k) == |blocks[i]|
    ensures LowerBound(Flat(blocks), InternalLess, k) >= Before(blocks, i + 1)
  {
    hide Flat, InternalLess, Proper, IsTarget, Sorted;
    EarlierBlocks(blocks, k, i);
    BlockInFlat(blocks, i);
    forall q | 0 <= q < Before(blocks, i + 1) ensures InternalLess(Flat(blocks)[q].key, k) {
      if q >= Before(blocks, i) { EntryInFlat(blocks, i, q - Before(blocks, i)); }
    }
  }

  // and what follows the block has another user key.
  lemma LaterUserKey(blocks: seq<seq<Pair>>, k: Bytes, i: nat, g: nat)
    requires Proper(blocks) && Sorted(Flat(blocks), InternalLess) && IsTarget(blocks, k, i) && i + 1 < |blocks| &&
             IsInternal(k)
    requires InternalLess(LastKey(blocks[i]), k)
    requires Before(blocks, i + 1) <= g < |Flat(blocks)| && IsInternal(Flat(blocks)[g].key)
    ensures UserKey(Flat(blocks)[g].key) != UserKey(k)
  {
    hide Flat, InternalLess, NotAfter, LowerBound, Sorted, Proper, InternalSeparator;
    Neighbours(blocks, i, g);
    NotLess(IndexKey(blocks, i), k);
    SeparatorGap(LastKey(blocks[i]), FirstKey(blocks[i + 1]), k, Flat(blocks)[g].key);
  }

  lemma Neighbours(blocks: seq<seq<Pair>>, i: nat, g: nat)
    requires Proper(blocks) && Sorted(Flat(blocks), InternalLess) && i + 1 < |blocks|
    requires Before(blocks, i + 1) <= g < |Flat(blocks)|
    ensures blocks[i] != [] && blocks[i + 1] != []
    ensures var (start, limit) := (LastKey(blocks[i]), FirstKey(blocks[i + 1]));
      && IsInternal(start) && IsInternal(limit) && IndexKey(blocks, i) == InternalSeparator(start, limit)
      && InternalLess(start, limit) && NotAfter(limit, Flat(blocks)[g].key)
  {
    hide Flat, InternalLess, InternalSeparator;
    var last := |blocks[i]| - 1;
    assert blocks[i][last] in blocks[i] && blocks[i + 1][0] in blocks[i + 1];
    EntryInFlat(blocks, i, last);
    EntryInFlat(blocks, i + 1, 0);
    BlockInFlat(blocks, i);
    hide Proper;
    SortedPair(Flat(blocks), Before(blocks, i) + last, Before(blocks, i + 1));
    SortedPair(Flat(blocks), Before(blocks, i + 1), g);
  }

  lemma SortedPair(es: seq<Pair>, i: nat, j: nat)
    requires Sorted(es, InternalLess) && i <= j < |es|
    ensures NotAfter(es[i].key, es[j].key) && (i < j ==> InternalLess(es[i].key, es[j].key))
  {
    hide InternalLess;
  }

  lemma AnswersPastEnd(blocks: seq<seq<Pair>>, k: Bytes)
    requires Proper(blocks) && Sorted(Flat(blocks), InternalLess) && IsInternal(k) && IsTarget(blocks, k, |blocks|)
    ensures Answers(Flat(blocks), k, None)
  {
    EarlierBlocks(blocks, k, |blocks|);
    assert blocks[..|blocks|] == blocks;
    hide Flat, InternalLess, IndexKey, Sorted, Proper;
    LowerBoundUnique(Flat(blocks), k, |Flat(blocks)|);
  }

  lemma AnswersFound(blocks: seq<seq<Pair>>, k: Bytes, i: nat, mayMatch: bool)
    requires Proper(blocks) && Sorted(Flat(blocks), InternalLess) && IsInternal(k) && IsTarget(blocks, k, i) &&
             i < |blocks|
    requires LowerBound(blocks[i], InternalLess, k) < |blocks[i]|
    requires !mayMatch ==> forall e :: e in blocks[i] && IsInternal(e.key) ==> UserKey(e.key) != UserKey(k)
    ensures Answers(Flat(blocks), k, if mayMatch then Found(blocks[i], k) else None)
  {
    hide Flat, InternalLess, IndexKey, Sorted, Proper, IsTarget, LowerBound;
    FoundInBlock(blocks, k, i);
    var j := LowerBound(blocks[i], InternalLess, k);
    assert blocks[i][j] in blocks[i];
  }

  lemma AnswersMissing(blocks: seq<seq<Pair>>, k: Bytes, i: nat)
    requires Proper(blocks) && Sorted(Flat(blocks), InternalLess) && IsInternal(k) && IsTarget(blocks, k, i) &&
             i < |blocks|
    requires LowerBound(blocks[i], InternalLess, k) == |blocks[i]|
    ensures Answers(Flat(blocks), k, None)
  {
    hide Flat, InternalLess, IndexKey, Sorted, IsTarget, LowerBound;
    PastBlock(blocks, k, i);
    assert blocks[i] != [];
    hide Proper;
    var g := LowerBound(Flat(blocks), InternalLess, k);
    if g < |Flat(blocks)| && IsInternal(Flat(blocks)[g].key) {
      Ends(blocks);
      LaterUserKey(blocks, k, i, g);
    }
  }

  // The lookup of InternalGet.  A filter may turn it away only if the block has
  // nothing with the user key.
  lemma LookupAnswers(blocks: seq<seq<Pair>>, k: Bytes, i: nat, mayMatch: bool)
    requires Proper(blocks) && Sorted(Flat(blocks), InternalLess) && IsInternal(k) && IsTarget(blocks, k, i)
    requires !mayMatch && i < |blocks| ==>
               forall e :: e in blocks[i] && IsInternal(e.key) ==> UserKey(e.key) != UserKey(k)
    ensures Answers(Flat(blocks), k, if i < |blocks| && mayMatch then Found(blocks[i], k) else None)
  {
    hide Flat, InternalLess, IndexKey, Sorted, Answers, Proper;
    if i == |blocks| {
      AnswersPastEnd(blocks, k);
    } else if LowerBound(blocks[i], InternalLess, k) < |blocks[i]| {
      AnswersFound(blocks, k, i, mayMatch);
    } else {
      AnswersMissing(blocks, k, i);
    }
  }
}
