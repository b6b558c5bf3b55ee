/**
  The write-ahead log from batches to bytes and back (DBImpl::RecoverLogFile in
  db/db_impl.cc, over db/log_reader.cc and db/write_batch.cc): after a crash that
  leaves any byte prefix of the file, exactly the batches that lie wholly inside
  it are applied again, with their sequence numbers.
 */
module WriteAheadLog {
  import opened Basics
  import opened Coding
  import opened WriteBatches
  import L = LogReader
  import W = LogFormat
  import R = LogRoundTrip

  datatype Batch = Batch(sequence: uint64, ops: seq<Op>)

  type Replay = (seq<(nat, Op)>, nat)

  // ---------------------------------------------------------------- batches

  // What applying batches one after the other inserts, and the last sequence
  // number among them.
  function Applied(batches: seq<Batch>): Replay {
    if batches == [] then ([], 0)
    else
      var (r, b) := (Applied(batches[..|batches| - 1]), batches[|batches| - 1]);
      (r.0 + Numbered(b.sequence, b.ops), Larger(r.1, LastSequence(b.sequence, |b.ops|)))
  }

  function Larger(a: nat, b: nat): nat {
    if b > a then b else a
  }

  // Unsigned arithmetic.
  function LastSequence(sequence: uint64, count: nat): uint64 {
    (sequence + count - 1) % TWO_64
  }

  ghost predicate WellFormed(batches: seq<Batch>) {
    forall i :: 0 <= i < |batches| ==> AllFit(batches[i].ops)
  }

  ghost function Reps(batches: seq<Batch>): (r: seq<Bytes>)
    requires WellFormed(batches)
    ensures |r| == |batches| && forall i :: 0 <= i < |r| ==> r[i] == Rep(batches[i].sequence, batches[i].ops)
  {
    seq(|batches|, i requires 0 <= i < |batches| => Rep(batches[i].sequence, batches[i].ops))
  }

  // ---------------------------------------------------------------- replay

  // One record: too small a one is skipped; the errors of a bad one are ignored,
  // as they are without paranoid checks.
  function ReplayRecord(r: Replay, record: Bytes): Replay {
    if |record| < HEADER_SIZE then r
    else (r.0 + Inserted(record).0, Larger(r.1, LastSequence(Sequence(record), Count(record))))
  }

  function Replayed(records: seq<Bytes>): Replay {
    if records == [] then ([], 0) else ReplayRecord(Replayed(records[..|records| - 1]), records[|records| - 1])
  }

  method ReplayLog(file: Bytes) returns (r: Replay)
    ensures r == Replayed(L.AllRecords(L.Opened(file), true))
  {
    hide L.Record, Inserted, Sequence, Count, LastSequence;
    var reader := new L.Reader(file, true);
    r := ([], 0);
    ghost var read: seq<Bytes> := [];
    while true
      invariant reader.Valid() && reader.checksum && reader.file == file
      invariant r == Replayed(read)
      invariant read + L.AllRecords(reader.State(), true) == L.AllRecords(L.Opened(file), true)
      decreases L.Left(reader.State())
    {
      ghost var before := reader.State();
      var record := reader.ReadRecord();
      if record.None? {
        assert read + [] == read;
        return;
      }
      assert (read + [record.value])[..|read|] == read;
      assert read + [record.value] + L.AllRecords(reader.State(), true) == read + L.AllRecords(before, true);
      read := read + [record.value];
      if |record.value| < HEADER_SIZE {
        continue;
      }
      var handled, ok := InsertBytes(record.value);
      r := (r.0 + handled, Larger(r.1, LastSequence(Sequence(record.value), Count(record.value))));
    }
  }

  // A written batch is replayed as it was applied.
  lemma ReplaysBatch(r: Replay, b: Batch)
    requires AllFit(b.ops)
    ensures ReplayRecord(r, Rep(b.sequence, b.ops))
         == (r.0 + Numbered(b.sequence, b.ops), Larger(r.1, LastSequence(b.sequence, |b.ops|)))
  {
    hide Rep, Iterated, Sequence, Count;
    RepFields(b.sequence, b.ops);
    IterateRep(b.sequence, b.ops);
  }

  lemma {:induction false} ReplaysAll(batches: seq<Batch>)
    requires WellFormed(batches)
    ensures Replayed(Reps(batches)) == Applied(batches)
  {
    hide ReplayRecord, AllFit, Rep;
    if batches != [] {
      var n := |batches| - 1;
      assert Reps(batches)[..n] == Reps(batches[..n]);
      ReplaysAll(batches[..n]);
      ReplaysBatch(Applied(batches[..n]), batches[n]);
    }
  }

  // Cut the log of any batches at any byte.
  lemma ReplaysLongestPrefix(batches: seq<Batch>, n: nat, whole: nat)
    requires WellFormed(batches)
    requires n <= |W.Written(Reps(batches))| && whole <= |batches|
    requires |W.Written(Reps(batches)[..whole])| <= n
    requires whole < |batches| ==> n < |W.Written(Reps(batches)[..whole + 1])|
    ensures Replayed(L.AllRecords(L.Opened(W.Written(Reps(batches))[..n]), true)) == Applied(batches[..whole])
  {
    hide W.Written, L.AllRecords, AllFit, Replayed, Applied, Rep;
    R.ReadsLongestPrefix(Reps(batches), n, whole, true);
    assert Reps(batches)[..whole] == Reps(batches[..whole]);
    ReplaysAll(batches[..whole]);
  }
}
