/**
  The loops of recovery (db/db_impl.cc, DBImpl::Recover and RecoverLogFile):
  replaying logs in order into memtables that are written out as level-zero
  tables whenever they grow too large.
 */
module RecoverLog {
  import opened Entries
  import opened Versions
  import opened Storage
  import opened Database
  import opened DatabaseVersions
  import opened DatabaseRecovery

  // A memtable, as its iterator presents it: sorted by internal key.
  function Insert(mem: seq<Entry>, e: Entry): (r: seq<Entry>)
    requires Sorted(mem) && forall x :: x in mem ==> x.ik.sequence < e.ik.sequence
    ensures Sorted(r)
    ensures forall x :: x in r <==> x == e || x in mem
  {
    if mem == [] || ILess(e.ik, mem[0].ik) then
      [e] + mem
    else
      assert forall x :: x in mem <==> x == mem[0] || x in mem[1..];
      var t := Insert(mem[1..], e);
      assert forall j :: 0 <= j < |mem[1..]| ==> ILess(mem[0].ik, mem[1..][j].ik);
      assert forall x :: x in t ==> ILess(mem[0].ik, x.ik);
      [mem[0]] + t
  }

  // WriteBatchInternal::InsertInto
  method InsertInto(batch: seq<Entry>, mem: seq<Entry>) returns (r: seq<Entry>)
    requires Sorted(mem) && BatchOrdered(batch) && AllNewer(SetOf(batch), SetOf(mem))
    ensures Sorted(r) && SetOf(r) == SetOf(mem) + SetOf(batch)
  {
    r := mem;
    var i := 0;
    while i < |batch|
      invariant 0 <= i <= |batch|
      invariant Sorted(r)
      invariant forall x :: x in r <==> x in mem || x in batch[..i]
    {
      forall x | x in r ensures x.ik.sequence < batch[i].ik.sequence {
        if x in mem { assert x in SetOf(mem) && batch[i] in SetOf(batch); }
      }
      r := Insert(r, batch[i]);
      i := i + 1;
    }
  }

  function MaxSequence(a: Sequence, b: Sequence): Sequence {
    if a < b then b else a
  }

  // The files written so far and the memtable hold the batches read so far.
  ghost predicate Replaying(fs: seq<File>, mem: seq<Entry>, es: set<Entry>, first: nat, next: nat) {
    && Sorted(mem)
    && Recovered(LevelEntries(fs), first, fs)
    && LevelEntries(fs) + SetOf(mem) == es
    && AllNewer(SetOf(mem), LevelEntries(fs))
    && first <= next && forall f :: f in fs ==> f.number < next
  }

  // WriteLevel0Table: a number is taken even when there is nothing to write.
  method WriteLevel0Table(fs: seq<File>, mem: seq<Entry>, ghost es: set<Entry>, ghost first: nat, next: nat, size: nat)
    returns (fs': seq<File>)
    requires Replaying(fs, mem, es, first, next)
    ensures Replaying(fs', [], es, first, next + 1)
  {
    if mem == [] {
      return fs;
    }
    hide LevelEntries, AllNewer, Recovered;
    var f := FlushFile(next, size, mem);
    fs' := fs + [f];
    FilesAppend(fs, f);
    RecoveredAppend(fs, f, first);
    NewerThanNothing(LevelEntries(fs'));
    assert forall g :: g in fs' <==> g in fs || g == f;
  }

  lemma NewerThanNothing(es: set<Entry>)
    ensures AllNewer(SetOf([]), es)
  {
  }

  lemma RecoveredAppend(fs: seq<File>, f: File, first: nat)
    requires Recovered(LevelEntries(fs), first, fs) && WfFile(f) && AllNewer(SetOf(f.contents), LevelEntries(fs))
    requires first <= f.number && forall g :: g in fs ==> g.number < f.number
    ensures Recovered(LevelEntries(fs + [f]), first, fs + [f])
  {
    hide WfFile, AllNewer, LevelEntries;
    var fs' := fs + [f];
    assert FreshNumbers(fs', first);
    forall i, j | 0 <= i < j < |fs'| ensures AllNewer(SetOf(fs'[j].contents), SetOf(fs'[i].contents)) {
      FileInLevel(fs, i);
      if j == |fs| { AllNewerSubset(SetOf(f.contents), LevelEntries(fs), SetOf(fs[i].contents)); }
    }
  }

  lemma AllNewerSubset(a: set<Entry>, b: set<Entry>, c: set<Entry>)
    requires AllNewer(a, b) && c <= b
    ensures AllNewer(a, c)
  {
  }

  lemma FileInLevel(fs: seq<File>, i: nat)
    ensures i < |fs| ==> SetOf(fs[i].contents) <= LevelEntries(fs)
  {
  }

  lemma FilesAppend(fs: seq<File>, f: File)
    ensures LevelEntries(fs + [f]) == LevelEntries(fs) + SetOf(f.contents)
  {
    var fs' := fs + [f];
    forall e | e in LevelEntries(fs) ensures e in LevelEntries(fs') {
      var i :| 0 <= i < |fs| && e in fs[i].contents;
      assert e in fs'[i].contents;
    }
    forall e | e in f.contents ensures e in LevelEntries(fs') {
      assert e in fs'[|fs|].contents;
    }
  }

  ghost function Prefix(log: Log, n: nat): set<Entry>
    requires n <= |log|
  {
    LogSet(log[..n])
  }

  lemma PrefixEnds(log: Log)
    ensures Prefix(log, 0) == {} && Prefix(log, |log|) == LogSet(log)
  {
    assert log[..|log|] == log;
  }

  lemma PrefixStep(log: Log, n: nat)
    requires n < |log|
    ensures Prefix(log, n + 1) == Prefix(log, n) + SetOf(log[n])
  {
    assert log[..n + 1] == log[..n] + [log[n]];
    LogSetAppend(log[..n], log[n]);
  }

  // RecoverLogFile.  full stands for the memory usage test.
  method RecoverLogFile(log: Log, fs: seq<File>, ghost es: set<Entry>, ghost first: nat, next: nat, last: Sequence,
                        full: seq<Entry> -> bool, size: seq<Entry> -> nat)
    returns (fs': seq<File>, next': nat, last': Sequence)
    requires Replaying(fs, [], es, first, next) && SeqsAtMost(es, last)
    requires LogOrdered(log) && AllNewer(LogSet(log), es)
    ensures Replaying(fs', [], es + LogSet(log), first, next')
    ensures SeqsAtMost(es + LogSet(log), last') && last <= last'
    ensures last' == last || exists e :: e in LogSet(log) && e.ik.sequence == last'
  {
    hide Replaying, Recovered, LogOrdered, AllNewer, BatchOrdered, LogSet, Prefix;
    var mem: seq<Entry> := [];
    var started := false;
    fs', next', last' := fs, next, last;
    var i := 0;
    PrefixEnds(log);
    assert es + {} == es;
    while i < |log|
      invariant 0 <= i <= |log|
      invariant Replaying(fs', mem, es + Prefix(log, i), first, next')
      invariant !started ==> mem == []
      invariant SeqsAtMost(es + Prefix(log, i), last') && last <= last'
      invariant last' == last || exists e :: e in LogSet(log) && e.ik.sequence == last'
    {
      PrefixStep(log, i);
      assert es + Prefix(log, i) + SetOf(log[i]) == es + Prefix(log, i + 1);
      mem := ReplayBatch(log, i, mem, fs', es, first, next');
      BatchInLog(log, i);
      last' := LastOfBatch(log[i], last');
      started := true;
      i := i + 1;
      if full(mem) {
        fs' := WriteLevel0Table(fs', mem, es + Prefix(log, i), first, next', size(mem));
        mem, next', started := [], next' + 1, false;
      }
    }
    if started {
      fs' := WriteLevel0Table(fs', mem, es + Prefix(log, i), first, next', size(mem));
      next' := next' + 1;
    }
  }

  method ReplayBatch(log: Log, i: nat, mem: seq<Entry>, ghost fs: seq<File>, ghost es: set<Entry>, ghost first: nat,
                     ghost next: nat)
    returns (mem': seq<Entry>)
    requires i < |log| && LogOrdered(log) && AllNewer(LogSet(log), es)
    requires Replaying(fs, mem, es + Prefix(log, i), first, next)
    ensures Replaying(fs, mem', es + Prefix(log, i) + SetOf(log[i]), first, next)
  {
    BatchNewer(log, i, es);
    AllNewerSubset(SetOf(log[i]), es + Prefix(log, i), SetOf(mem));
    mem' := InsertInto(log[i], mem);
    hide LevelEntries, Recovered;
  }

  lemma BatchNewer(log: Log, i: nat, es: set<Entry>)
    requires i < |log| && LogOrdered(log) && AllNewer(LogSet(log), es)
    ensures AllNewer(SetOf(log[i]), es + Prefix(log, i))
  {
    forall x | x in log[i] ensures x in LogSet(log) {}
  }

  // The last sequence number of a batch is that of its last entry.
  function LastOfBatch(batch: seq<Entry>, last: Sequence): (last': Sequence)
    requires BatchOrdered(batch)
    ensures last <= last' && SeqsAtMost(SetOf(batch), last')
    ensures last' == last || exists e :: e in SetOf(batch) && e.ik.sequence == last'
  {
    if batch == [] then last
    else
      assert batch[|batch| - 1] in SetOf(batch);
      MaxSequence(last, batch[|batch| - 1].ik.sequence)
  }

  lemma BatchInLog(log: Log, i: nat)
    requires i < |log| && LogOrdered(log)
    ensures SetOf(log[i]) <= LogSet(log) && BatchOrdered(log[i])
  {
  }

  // The logs numbered n or higher, in the order in which they were generated.
  ghost predicate LogNumbers(logs: map<nat, Log>, n: nat, numbers: seq<nat>) {
    && (forall i, j :: 0 <= i < j < |numbers| ==> numbers[i] < numbers[j])
    && (forall l :: l in numbers <==> l in logs && l >= n)
  }

  ghost function FirstLogs(logs: map<nat, Log>, numbers: seq<nat>, i: nat): set<Entry>
    requires i <= |numbers| && forall l :: l in numbers ==> l in logs
  {
    set j, e | 0 <= j < i && e in LogSet(logs[numbers[j]]) :: e
  }

  lemma FirstLogsStep(logs: map<nat, Log>, numbers: seq<nat>, i: nat)
    requires i < |numbers| && forall l :: l in numbers ==> l in logs
    ensures FirstLogs(logs, numbers, i + 1) == FirstLogs(logs, numbers, i) + LogSet(logs[numbers[i]])
  {
  }

  lemma FirstLogsAll(logs: map<nat, Log>, n: nat, numbers: seq<nat>)
    requires LogNumbers(logs, n, numbers)
    ensures FirstLogs(logs, numbers, |numbers|) == LogsFrom(logs, n)
  {
    forall e | e in LogsFrom(logs, n) ensures e in FirstLogs(logs, numbers, |numbers|) {
      var l :| l in logs && l >= n && e in LogSet(logs[l]);
      var i :| 0 <= i < |numbers| && numbers[i] == l;
    }
    forall e | e in FirstLogs(logs, numbers, |numbers|) ensures e in LogsFrom(logs, n) {
      var j :| 0 <= j < |numbers| && e in LogSet(logs[numbers[j]]);
      assert numbers[j] in numbers;
    }
  }

  lemma NextLogNewer(logs: map<nat, Log>, n: nat, numbers: seq<nat>, i: nat)
    requires LogNumbers(logs, n, numbers) && LogsOrdered(logs, n) && i < |numbers|
    ensures numbers[i] in logs && LogOrdered(logs[numbers[i]])
    ensures AllNewer(LogSet(logs[numbers[i]]), FirstLogs(logs, numbers, i))
  {
    assert numbers[i] in numbers;
    forall x, y | x in LogSet(logs[numbers[i]]) && y in FirstLogs(logs, numbers, i)
      ensures x.ik.sequence > y.ik.sequence
    {
      var j :| 0 <= j < i && y in LogSet(logs[numbers[j]]);
      assert numbers[j] in numbers;
      assert AllNewer(LogSet(logs[numbers[i]]), LogSet(logs[numbers[j]]));
    }
  }

  // DBImpl::Recover after the manifest has been read: the tables, the file
  // counter and the last sequence number that DB::Open goes on with.
  method RecoverLogs(logs: map<nat, Log>, n: nat, numbers: seq<nat>, first: nat, persisted: Sequence,
                     full: seq<Entry> -> bool, size: seq<Entry> -> nat)
    returns (fs: seq<File>, next: nat, last: Sequence)
    requires LogNumbers(logs, n, numbers) && LogsOrdered(logs, n)
    ensures Recovered(LogsFrom(logs, n), first, fs)
    ensures LastSequenceRecovered(persisted, LogsFrom(logs, n), last)
    ensures first <= next && (forall f :: f in fs ==> f.number < next) && (forall l :: l in numbers ==> l < next)
  {
    hide Replaying, LogsOrdered, LogOrdered, LogSet, AllNewer, Recovered, FirstLogs;
    fs, next, last := [], first, 0;
    var i := 0;
    NothingRecovered(logs, numbers, first);
    while i < |numbers|
      invariant 0 <= i <= |numbers|
      invariant Replaying(fs, [], FirstLogs(logs, numbers, i), first, next)
      invariant SeqsAtMost(FirstLogs(logs, numbers, i), last)
      invariant last == 0 || exists e :: e in FirstLogs(logs, numbers, i) && e.ik.sequence == last
      invariant forall j :: 0 <= j < i ==> numbers[j] < next
    {
      NextLogNewer(logs, n, numbers, i);
      FirstLogsStep(logs, numbers, i);
      fs, next, last := RecoverLogFile(logs[numbers[i]], fs, FirstLogs(logs, numbers, i), first, next, last, full,
        size);
      ReplayingNext(fs, FirstLogs(logs, numbers, i + 1), first, next, MarkFileNumberUsed(next, numbers[i]));
      next := MarkFileNumberUsed(next, numbers[i]);
      i := i + 1;
    }
    FirstLogsAll(logs, n, numbers);
    ReplayedAll(fs, LogsFrom(logs, n), first, next);
    if last < persisted {
      last := persisted;
    }
  }

  function MarkFileNumberUsed(next: nat, number: nat): (r: nat)
    ensures r >= next && number < r
  {
    if next <= number then number + 1 else next
  }

  lemma ReplayedAll(fs: seq<File>, es: set<Entry>, first: nat, next: nat)
    requires Replaying(fs, [], es, first, next)
    ensures Recovered(es, first, fs) && first <= next && forall f :: f in fs ==> f.number < next
  {
  }

  lemma ReplayingNext(fs: seq<File>, es: set<Entry>, first: nat, next: nat, next': nat)
    requires Replaying(fs, [], es, first, next) && next <= next'
    ensures Replaying(fs, [], es, first, next')
  {
  }

  lemma NothingRecovered(logs: map<nat, Log>, numbers: seq<nat>, first: nat)
    requires forall l :: l in numbers ==> l in logs
    ensures FirstLogs(logs, numbers, 0) == {}
    ensures Replaying([], [], {}, first, first)
  {
  }
}
