/**
  The writer's side of the database: logging a group, inserting it in the
  memtable, publishing it, and switching memtables; readers that take and
  release snapshots and versions.
 */
module DatabaseWrites {
  import opened Basics
  import opened Entries
  import opened Versions
  import opened Levels
  import opened CompactionReads
  import opened Storage
  import opened Database

  // ---------------------------------------------------------------- writing

  // Appending the record of a group to the log commits it.
  ghost predicate LogGroup(s: State, batch: seq<Entry>, s': State) {
    && s.memory.Some?
    && var m := s.memory.value;
       && m.write.NoWrite? && Follows(batch, m.last) && m.logFile in s.disk.logs
       && s' == s.(disk := s.disk.(logs := s.disk.logs[m.logFile := s.disk.logs[m.logFile] + [batch]]),
                   history := s.history + SetOf(batch),
                   memory := Some(m.(write := Logged(batch))))
  }

  lemma FollowsNewer(s: State, m: Memory, batch: seq<Entry>)
    requires SequencesOk(s.history, m.write, m.last) && m.write.NoWrite? && Follows(batch, m.last)
    ensures AllNewer(SetOf(batch), s.history)
    ensures Distinct(SetOf(batch))
  {
  }

  // Entries newer than everything can be added on both sides.
  lemma FaithfulExtend(es: set<Entry>, history: set<Entry>, dropped: set<Entry>, floor: Sequence, batch: set<Entry>)
    requires Faithful(es, history, dropped, floor) && Distinct(history) && Distinct(batch) && AllNewer(batch, history)
    ensures Faithful(es + batch, history + batch, dropped, floor)
  {
    forall k, s: Sequence | s >= floor ensures Read(es + batch, k, s) == Read(history + batch, k, s) {
      ReadExtend(es, history, batch, k, s);
    }
  }

  lemma DistinctUnion(a: set<Entry>, b: set<Entry>)
    requires Distinct(a) && Distinct(b) && AllNewer(b, a)
    ensures Distinct(a + b)
  {
  }

  lemma ReadExtend(es: set<Entry>, history: set<Entry>, batch: set<Entry>, k: Key, s: Sequence)
    requires es <= history && Read(es, k, s) == Read(history, k, s)
    requires Distinct(history) && Distinct(batch) && AllNewer(batch, history)
    ensures Read(es + batch, k, s) == Read(history + batch, k, s)
  {
    DistinctUnion(history, batch);
    DistinctSubset(history + batch, es + batch);
    if exists x :: x in batch && Visible(x, k, s) {
      NewestExists(batch, k, s);
      var n :| Newest(batch, k, s, n);
      NewerWins(es, batch, k, s, n);
      NewerWins(history, batch, k, s, n);
    } else {
      OlderStays(es, batch, k, s);
      OlderStays(history, batch, k, s);
    }
  }

  lemma NewerWins(a: set<Entry>, batch: set<Entry>, k: Key, s: Sequence, n: Entry)
    requires Distinct(a + batch) && AllNewer(batch, a) && Newest(batch, k, s, n)
    ensures Read(a + batch, k, s) == Answer(n)
  {
    assert Newest(a + batch, k, s, n);
    ReadIsNewest(a + batch, k, s, n);
  }

  lemma OlderStays(a: set<Entry>, batch: set<Entry>, k: Key, s: Sequence)
    requires Distinct(a + batch) && forall x :: x in batch ==> !Visible(x, k, s)
    ensures Read(a + batch, k, s) == Read(a, k, s)
  {
    DistinctSubset(a + batch, a);
    ReadEqual(a, a + batch, k, s);
  }

  lemma LogsOrderedAppend(logs: map<nat, Log>, l: nat, batch: seq<Entry>, n: nat)
    requires l in logs && n <= l && (forall k :: k in logs ==> k <= l)
    requires LogsOrdered(logs, n) && AllNewer(SetOf(batch), LogsFrom(logs, n)) && BatchOrdered(batch)
    ensures LogsOrdered(logs[l := logs[l] + [batch]], n)
  {
    LogSetAppend(logs[l], batch);
    var logs' := logs[l := logs[l] + [batch]];
    LogOrderedAppend(logs[l], batch) by {
      forall x | x in LogSet(logs[l]) ensures x in LogsFrom(logs, n) {}
    }
    forall k, m | k in logs' && m in logs' && n <= k < m ensures AllNewer(LogSet(logs'[m]), LogSet(logs'[k])) {
      forall x | x in LogSet(logs[k]) ensures x in LogsFrom(logs, n) {}
    }
  }

  lemma LogOrderedAppend(log: Log, batch: seq<Entry>)
    requires LogOrdered(log) && AllNewer(SetOf(batch), LogSet(log)) && BatchOrdered(batch)
    ensures LogOrdered(log + [batch])
  {
    hide BatchOrdered;
    var more := log + [batch];
    forall i, j, x: Entry, y: Entry | 0 <= i < j < |more| && x in more[i] && y in more[j]
      ensures x.ik.sequence < y.ik.sequence
    {
      assert more[i] == log[i];
      if j < |log| {
        assert more[j] == log[j];
      } else {
        assert x in log[i] && x in LogSet(log) && y in SetOf(batch);
      }
    }
  }

  lemma LogGroupDisk(s: State, m: Memory, batch: seq<Entry>, s': State)
    requires DiskInv(s) && s.memory == Some(m) && LogGroup(s, batch, s')
    requires LogOf(RecordsOf(s.disk)) <= m.logFile && (forall k :: k in s.disk.logs ==> k <= m.logFile)
    requires AllNewer(SetOf(batch), s.history) && Distinct(SetOf(batch))
    ensures DiskInv(s')
  {
    var logs, n := s.disk.logs, LogOf(RecordsOf(s.disk));
    LogsAppend(logs, m.logFile, batch, n);
    FaithfulExtend(Persisted(s), s.history, s.dropped, s.floor, SetOf(batch));
    DistinctUnion(s.history, SetOf(batch));
    assert Persisted(s') == Persisted(s) + SetOf(batch);
    assert LogsFrom(logs, n) <= Persisted(s) && VersionEntries(s.persisted) <= Persisted(s);
    LogsOrderedAppend(logs, m.logFile, batch, n);
  }

  lemma LogGroupMem(s: State, m: Memory, batch: seq<Entry>, s': State, m': Memory)
    requires Distinct(s.history) && MemInv(s, m) && s.memory == Some(m) && s'.memory == Some(m') &&
             LogGroup(s, batch, s')
    requires AllNewer(SetOf(batch), s.history) && Distinct(SetOf(batch))
    ensures MemInv(s', m')
  {
    hide ManifestOk, VersionOnDisk, LogsOrdered, Distinct, ReadsSame, TaskOk, GoodVersion, Compacting, TaskEffect,
         SnapshotOk, SnapshotsOk, LogsFrom, VersionEntries;
    var logs := s.disk.logs;
    LogsAppend(logs, m.logFile, batch, m.logNumber);
    LogsAppend(logs, m.logFile, batch, m.logFile);
    FaithfulExtend(Live(s, m), s.history, s.dropped, s.floor, SetOf(batch));
    assert Live(s', m') == Live(s, m) + SetOf(batch);
    assert VersionEntries(m.version) <= Live(s, m) && ImmSet(m.imm) <= Live(s, m);
    assert MemContents(s'.disk.logs, m'.logFile, m'.logNumber, m'.mem, m'.imm, m'.write);
  }

  lemma LogGroupKeepsInv(s: State, batch: seq<Entry>, s': State)
    requires Inv(s) && LogGroup(s, batch, s')
    ensures Inv(s')
  {
    var m := s.memory.value;
    FollowsNewer(s, m, batch);
    LogGroupDisk(s, m, batch, s');
    LogGroupMem(s, m, batch, s', s'.memory.value);
  }

  // Inserting the group in the memtable; nobody can see it yet.
  ghost predicate ApplyGroup(s: State, s': State) {
    && s.memory.Some?
    && var m := s.memory.value;
       && m.write.Logged?
       && s' == s.(memory := Some(m.(mem := m.mem + SetOf(m.write.batch), write := Applied(m.write.batch))))
  }

  lemma ApplyGroupKeepsInv(s: State, s': State)
    requires Inv(s) && ApplyGroup(s, s')
    ensures Inv(s')
  {
    hide ManifestOk, VersionOnDisk, SeqsAtMost, VersionBesideLogs, LogsOrdered, Distinct, Faithful, TaskOk, LogsFrom,
         GoodVersion, VersionEntries, Compacting, PinnedOk, TaskEffect, SnapshotOk, SnapshotsOk, AllNewer;
    var m, m' := s.memory.value, s'.memory.value;
    assert MemContents(s'.disk.logs, m'.logFile, m'.logNumber, m'.mem, m'.imm, m'.write);
  }

  // SetLastSequence: the whole group becomes visible at once.
  ghost predicate PublishGroup(s: State, s': State) {
    && s.memory.Some?
    && var m := s.memory.value;
       && m.write.Applied? && m.last + |m.write.batch| <= MAX_SEQUENCE
       && s' == s.(memory := Some(m.(last := m.last + |m.write.batch|, write := NoWrite)))
  }

  lemma PublishGroupKeepsInv(s: State, s': State)
    requires Inv(s) && PublishGroup(s, s')
    ensures Inv(s')
  {
    hide ManifestOk, VersionOnDisk, SeqsAtMost, VersionBesideLogs, LogsOrdered, Distinct, Faithful, TaskOk, LogsFrom,
         GoodVersion, VersionEntries, Compacting, PinnedOk, TaskEffect, AllNewer;
    var m, m' := s.memory.value, s'.memory.value;
    assert SequencesOk(s'.history, m'.write, m'.last);
    assert MemContents(s'.disk.logs, m'.logFile, m'.logNumber, m'.mem, m'.imm, m'.write);
  }

  // MakeRoomForWrite switches to a new memtable and a new log.
  ghost predicate SwitchMemtable(s: State, s': State) {
    && s.memory.Some?
    && var m := s.memory.value;
       && m.imm.None? && m.write.NoWrite?
       && s' == s.(disk := s.disk.(logs := s.disk.logs[m.next := []]),
                   memory := Some(m.(imm := Some(m.mem), mem := {}, logFile := m.next, next := m.next + 1)))
  }

  lemma LogsOrderedCreate(logs: map<nat, Log>, l: nat, n: nat)
    requires l !in logs && LogsOrdered(logs, n)
    ensures LogsOrdered(logs[l := []], n)
  {
  }

  lemma LogsFromNew(logs: map<nat, Log>, l: nat)
    requires forall k :: k in logs ==> k < l
    ensures LogsFrom(logs[l := []], l) == {}
  {
  }

  lemma SwitchMemtableKeepsInv(s: State, s': State)
    requires Inv(s) && SwitchMemtable(s, s')
    ensures Inv(s')
  {
    hide ManifestOk, SeqsAtMost, LogsOrdered, Distinct, Faithful, TaskOk, GoodVersion, VersionEntries, Compacting,
         SnapshotOk, SnapshotsOk, SequencesOk, NumbersOk, PreservesReads;
    var m, m' := s.memory.value, s'.memory.value;
    SwitchBounds(s.disk, m);
    LogsCreate(s.disk.logs, m.next, LogOf(RecordsOf(s.disk)));
    LogsCreate(s.disk.logs, m.next, m.logNumber);
    LogsFromNew(s.disk.logs, m.next);
    LogsOrderedCreate(s.disk.logs, m.next, LogOf(RecordsOf(s.disk)));
    assert MemContents(s'.disk.logs, m'.logFile, m'.logNumber, m'.mem, m'.imm, m'.write);
    SwitchNumbers(s.disk, m, s'.disk, m');
  }

  lemma SwitchBounds(d: Disk, m: Memory)
    requires NumbersOk(d, m)
    ensures forall k :: k in d.logs ==> k < m.next
    ensures LogOf(RecordsOf(d)) <= m.next && m.logNumber <= m.next && m.next !in d.logs
  {
  }

  lemma SwitchNumbers(d: Disk, m: Memory, d': Disk, m': Memory)
    requires NumbersOk(d, m)
    requires d' == d.(logs := d.logs[m.next := []])
    requires m' == m.(imm := Some(m.mem), mem := {}, logFile := m.next, next := m.next + 1)
    ensures NumbersOk(d', m')
  {
    assert RecordsOf(d') == RecordsOf(d);
  }

  // GetSnapshot and ReleaseSnapshot
  ghost predicate TakeSnapshot(s: State, s': State) {
    && s.memory.Some?
    && var m := s.memory.value;
       s' == s.(memory := Some(m.(snapshots := m.snapshots + multiset{m.last})))
  }

  ghost predicate ReleaseSnapshot(s: State, x: Sequence, s': State) {
    && s.memory.Some?
    && var m := s.memory.value;
       s' == s.(memory := Some(m.(snapshots := m.snapshots - multiset{x})))
  }

  lemma SnapshotsKeepInv(s: State, x: Sequence, s': State)
    requires Inv(s) && (TakeSnapshot(s, s') || ReleaseSnapshot(s, x, s'))
    ensures Inv(s')
  {
    hide ManifestOk, VersionOnDisk, SeqsAtMost, VersionBesideLogs, LogsOrdered, Distinct, Faithful, TaskOk, LogsFrom,
         GoodVersion, VersionEntries, Compacting, PinnedOk, TaskEffect, AllNewer, MemContents, SequencesOk;
    var m, m' := s.memory.value, s'.memory.value;
    assert SnapshotsOk(s'.floor, m'.snapshots, m'.last);
    assert MemContents(s'.disk.logs, m'.logFile, m'.logNumber, m'.mem, m'.imm, m'.write);
  }

  // NewInternalIterator references the memtables and the current version; the
  // iterator reads at LastSequence or at a live snapshot until it lets go.
  ghost predicate OpenIterator(s: State, n: Sequence, s': State) {
    && s.memory.Some?
    && var m := s.memory.value;
       && (n == m.last || n in m.snapshots)
       && s' == s.(memory := Some(m.(pinned := m.pinned + multiset{PinNow(m, n)})))
  }

  ghost function PinNow(m: Memory, n: Sequence): Pin {
    Pin(m.mem + ImmSet(m.imm), m.version, n)
  }

  ghost predicate CloseIterator(s: State, p: Pin, s': State) {
    && s.memory.Some?
    && var m := s.memory.value;
       s' == s.(memory := Some(m.(pinned := m.pinned - multiset{p})))
  }

  lemma OpenIteratorKeepsInv(s: State, n: Sequence, s': State)
    requires Inv(s) && OpenIterator(s, n, s')
    ensures Inv(s')
  {
    hide Compacting, AllNewer, MemContents, SequencesOk, SnapshotsOk, SnapshotOk;
    PinsKeepInv(s, s');
  }

  lemma CloseIteratorKeepsInv(s: State, p: Pin, s': State)
    requires Inv(s) && CloseIterator(s, p, s')
    ensures Inv(s')
  {
    PinsKeepInv(s, s');
  }

  lemma PinsKeepInv(s: State, s': State)
    requires Inv(s) && s.memory.Some? && s'.memory.Some?
    requires s' == s.(memory := Some(s.memory.value.(pinned := s'.memory.value.pinned)))
    requires PinnedOk(s'.disk.tables, s'.memory.value.pinned, s'.memory.value.next)
    ensures Inv(s')
  {
    hide ManifestOk, VersionOnDisk, SeqsAtMost, VersionBesideLogs, LogsOrdered, Distinct, Faithful, TaskOk, LogsFrom,
         GoodVersion, VersionEntries, Compacting, TaskEffect, AllNewer, MemContents, SequencesOk, SnapshotsOk,
         SnapshotOk;
    var m' := s'.memory.value;
    assert MemContents(s'.disk.logs, m'.logFile, m'.logNumber, m'.mem, m'.imm, m'.write);
  }
}
