/**
  The entries of the state machine as bytes: keys with their tags, the entries of
  a table file and the batches of a log file.  What the byte-level readers find is
  what the state machine says the file holds.
 */
module EntryBytes {
  import opened Basics
  import opened Coding
  import opened Entries
  import opened Versions
  import opened Storage
  import opened Comparators
  import opened TableLookup
  import opened WriteAheadLog
  import B = Blocks
  import I = BlockIter
  import Cursor = BlockCursor
  import W = WriteBatches
  import L = LogReader
  import F = LogFormat
  import R = TableRoundTrip
  import T = TableReader
  import FilterBlock
  import Tables

  // ---------------------------------------------------------------- keys

  type Naming = Key -> Bytes

  // The user keys behind the ranks, in their order.
  ghost predicate Names(user: Naming, ks: set<Key>) {
    forall a, b :: a in ks && b in ks && a < b ==> Less(user(a), user(b))
  }

  // Any finite set of user keys has ranks.
  lemma NamesExist(keys: set<Bytes>) returns (user: Naming)
    ensures forall k :: k in keys ==> user(Rank(keys, Less, k)) == k
    ensures Names(user, set k | k in keys :: Rank(keys, Less, k))
  {
    hide Less, Rank;
    BytewiseOrder();
    ghost var ranks: set<Key> := set k | k in keys :: Rank(keys, Less, k);
    ghost var names: map<Key, Bytes> := map r: Key | r in ranks :: NameOf(keys, r);
    user := r => if r in names then names[r] else [];
    forall k | k in keys
      ensures user(Rank(keys, Less, k)) == k
    {
      RankPreservesOrder(keys, Less, k, NameOf(keys, Rank(keys, Less, k)));
    }
    forall a, b | a in ranks && b in ranks && a < b
      ensures Less(user(a), user(b))
    {
      RankPreservesOrder(keys, Less, NameOf(keys, a), NameOf(keys, b));
    }
  }

  ghost function NameOf(keys: set<Bytes>, r: Key): (k: Bytes)
    requires exists k :: k in keys && Rank(keys, Less, k) == r
    ensures k in keys && Rank(keys, Less, k) == r
  {
    var k :| k in keys && Rank(keys, Less, k) == r;
    k
  }

  // AppendInternalKey: the user key, then the tag.
  function KeyBytes(user: Naming, ik: IKey): (r: Bytes)
    ensures IsInternal(r)
  {
    user(ik.key) + Fixed64(Tag(ik))
  }

  lemma KeyBytesParts(user: Naming, ik: IKey)
    ensures UserKey(KeyBytes(user, ik)) == user(ik.key) && TagOf(KeyBytes(user, ik)) == Tag(ik)
  {
    hide Fixed64, DecodeFixed64;
    var k := KeyBytes(user, ik);
    Fixed64RoundTrip(Tag(ik), []);
    assert k[|k| - 8..] == Fixed64(Tag(ik)) + [];
  }

  // The comparator orders the bytes as the model orders the keys.
  lemma KeyBytesOrder(user: Naming, ks: set<Key>, a: IKey, b: IKey)
    requires Names(user, ks) && a.key in ks && b.key in ks
    ensures InternalLess(KeyBytes(user, a), KeyBytes(user, b)) <==> ILess(a, b)
    ensures UserKey(KeyBytes(user, a)) == UserKey(KeyBytes(user, b)) <==> a.key == b.key
  {
    hide KeyBytes, UserKey, TagOf, Less;
    KeyBytesParts(user, a);
    KeyBytesParts(user, b);
    BytewiseOrder();
    if a.key < b.key { assert Less(user(a.key), user(b.key)); }
    if b.key < a.key { assert Less(user(b.key), user(a.key)); }
  }

  // ---------------------------------------------------------------- tables

  function PairOf(user: Naming, e: Entry): B.Pair {
    B.Pair(KeyBytes(user, e.ik), e.value)
  }

  function Pairs(user: Naming, es: seq<Entry>): (r: seq<B.Pair>)
    ensures |r| == |es| && forall i :: 0 <= i < |es| ==> r[i] == PairOf(user, es[i])
  {
    seq(|es|, i requires 0 <= i < |es| => PairOf(user, es[i]))
  }

  ghost function KeysOf(es: seq<Entry>): set<Key> {
    set e | e in es :: e.ik.key
  }

  lemma PairsSorted(user: Naming, ks: set<Key>, es: seq<Entry>)
    requires Names(user, ks) && KeysOf(es) <= ks && Sorted(es)
    ensures I.Sorted(Pairs(user, es), InternalLess)
  {
    hide KeyBytes, InternalLess, ILess;
    forall i, j | 0 <= i < j < |es|
      ensures InternalLess(Pairs(user, es)[i].key, Pairs(user, es)[j].key)
    {
      assert es[i] in es && es[j] in es;
      KeyBytesOrder(user, ks, es[i].ik, es[j].ik);
    }
  }

  // What Table::Get hands to SaveValue, which looks at the user key.
  ghost predicate FoundIs(user: Naming, k: Key, found: Option<B.Pair>, hit: Option<Entry>) {
    match hit
    case Some(e) => found == Some(PairOf(user, e))
    case None => found.Some? ==> !IsInternal(found.value.key) || UserKey(found.value.key) != user(k)
  }

  // The answer from the bytes is the answer of the model's Lookup.
  lemma AnswersLookup(user: Naming, ks: set<Key>, es: seq<Entry>, k: Key, s: Sequence, found: Option<B.Pair>)
    requires Names(user, ks) && KeysOf(es) <= ks && k in ks
    requires Answers(Pairs(user, es), KeyBytes(user, LookupKey(k, s)), found)
    ensures FoundIs(user, k, found, Lookup(es, k, s))
  {
    hide KeyBytes, InternalLess, ILess, UserKey, Cursor.LowerBound;
    var (ps, t) := (Pairs(user, es), LookupKey(k, s));
    var i := Seek(es, t);
    hide Seek;
    forall j | 0 <= j < |es|
      ensures InternalLess(ps[j].key, KeyBytes(user, t)) <==> ILess(es[j].ik, t)
      ensures UserKey(ps[j].key) == UserKey(KeyBytes(user, t)) <==> es[j].ik.key == k
    {
      assert es[j] in es;
      KeyBytesOrder(user, ks, es[j].ik, t);
    }
    LowerBoundUnique(ps, KeyBytes(user, t), i);
    KeyBytesParts(user, t);
  }

  // A table file built from the contents of a model file, opened and searched.
  method FileGet(f: File, user: Naming, o: R.TableOptions, options: T.Options, k: Key, s: Sequence)
    returns (found: Option<B.Pair>)
    requires WfFile(f) && Names(user, KeysOf(f.contents) + {k}) && R.Buildable(Pairs(user, f.contents), o)
    requires o.hasFilter ==> FilterBlock.NoFalseNegatives(o.policy) && FilterBlock.ByUserKey(o.policy)
    requires o.hasFilter && options.policy.Some? && options.name == o.name ==> options.policy.value == o.policy
    ensures Tables.Fits(R.TableOf(Pairs(user, f.contents), o)) ==> FoundIs(user, k, found, TableGet(f, k, s))
  {
    hide R.SizesOk, R.TableOf, Tables.Fits, Answers, FoundIs, Lookup, KeyBytes, I.Sorted;
    var pairs := Pairs(user, f.contents);
    PairsSorted(user, KeysOf(f.contents) + {k}, f.contents);
    found := R.BuildOpenGet(pairs, o, options, KeyBytes(user, LookupKey(k, s)));
    if Tables.Fits(R.TableOf(pairs, o)) {
      AnswersLookup(user, KeysOf(f.contents) + {k}, f.contents, k, s, found);
    }
  }

  // ---------------------------------------------------------------- logs

  function OpOf(user: Naming, e: Entry): W.Op {
    if e.ik.kind.Put? then W.Put(user(e.ik.key), e.value) else W.Delete(user(e.ik.key))
  }

  // The sequence numbers of a group are consecutive.
  ghost predicate Consecutive(batch: seq<Entry>) {
    forall i :: 0 <= i < |batch| ==> batch[i].ik.sequence == batch[0].ik.sequence + i
  }

  function BatchOf(user: Naming, es: seq<Entry>): (b: Batch)
    ensures |b.ops| == |es| && forall i :: 0 <= i < |es| ==> b.ops[i] == OpOf(user, es[i])
  {
    Batch(if es == [] then 1 else es[0].ik.sequence, seq(|es|, i requires 0 <= i < |es| => OpOf(user, es[i])))
  }

  function BatchesOf(user: Naming, log: Log): (bs: seq<Batch>)
    ensures |bs| == |log| && forall i :: 0 <= i < |log| ==> bs[i] == BatchOf(user, log[i])
  {
    seq(|log|, i requires 0 <= i < |log| => BatchOf(user, log[i]))
  }

  function BatchOps(user: Naming, es: seq<Entry>): (r: seq<(nat, W.Op)>)
    ensures |r| == |es| && forall i :: 0 <= i < |es| ==> r[i] == (es[i].ik.sequence, OpOf(user, es[i]))
  {
    seq(|es|, i requires 0 <= i < |es| => (es[i].ik.sequence, OpOf(user, es[i])))
  }

  // All entries of a log, as insertions into a memtable.
  function LogOps(user: Naming, log: Log): seq<(nat, W.Op)> {
    if log == [] then [] else LogOps(user, log[..|log| - 1]) + BatchOps(user, log[|log| - 1])
  }

  lemma BatchApplied(user: Naming, es: seq<Entry>)
    requires Consecutive(es)
    ensures var b := BatchOf(user, es); W.Numbered(b.sequence, b.ops) == BatchOps(user, es)
    ensures var b := BatchOf(user, es);
            WriteAheadLog.LastSequence(b.sequence, |b.ops|) == if es == [] then 0 else es[|es| - 1].ik.sequence
  {
    hide OpOf;
  }

  ghost predicate AllConsecutive(log: Log) {
    forall i :: 0 <= i < |log| ==> Consecutive(log[i])
  }

  // The largest sequence number of the log, or zero.
  ghost predicate IsLast(log: Log, last: nat) {
    && (forall e :: e in LogSet(log) ==> e.ik.sequence <= last)
    && (last == 0 || exists e :: e in LogSet(log) && e.ik.sequence == last)
  }

  lemma {:induction false} AppliedIsLog(user: Naming, log: Log)
    requires AllConsecutive(log)
    ensures Applied(BatchesOf(user, log)).0 == LogOps(user, log) && IsLast(log, Applied(BatchesOf(user, log)).1)
  {
    hide BatchOf, BatchOps, W.Numbered, WriteAheadLog.LastSequence, Consecutive;
    if log != [] {
      var n := |log| - 1;
      assert BatchesOf(user, log)[..n] == BatchesOf(user, log[..n]);
      AppliedIsLog(user, log[..n]);
      BatchApplied(user, log[n]);
      LastMore(log, Applied(BatchesOf(user, log[..n])).1);
    }
  }

  lemma LastMore(log: Log, last: nat)
    requires log != [] && AllConsecutive(log) && IsLast(log[..|log| - 1], last)
    ensures var es := log[|log| - 1];
            IsLast(log, Larger(last, if es == [] then 0 else es[|es| - 1].ik.sequence))
  {
    var (front, es) := (log[..|log| - 1], log[|log| - 1]);
    assert log == front + [es];
    LogSetAppend(front, es);
    assert Consecutive(es);
    if es != [] { assert es[|es| - 1] in es; }
  }

  // Cut the file of a log at any byte: the groups that lie wholly inside it are
  // replayed, entry by entry and with their sequence numbers.
  lemma LogFileReplays(user: Naming, log: Log, n: nat, whole: nat)
    requires AllConsecutive(log) && WellFormed(BatchesOf(user, log))
    requires var reps := Reps(BatchesOf(user, log));
             && n <= |F.Written(reps)| && whole <= |log| && |F.Written(reps[..whole])| <= n
             && (whole < |log| ==> n < |F.Written(reps[..whole + 1])|)
    ensures var r := Replayed(L.AllRecords(L.Opened(F.Written(Reps(BatchesOf(user, log)))[..n]), true));
            r.0 == LogOps(user, log[..whole]) && IsLast(log[..whole], r.1)
  {
    hide F.Written, L.AllRecords, Replayed, Applied, WellFormed, LogOps, IsLast, Consecutive;
    ReplaysLongestPrefix(BatchesOf(user, log), n, whole);
    assert BatchesOf(user, log)[..whole] == BatchesOf(user, log[..whole]);
    AppliedIsLog(user, log[..whole]);
  }
}
