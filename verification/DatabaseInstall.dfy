/**
  LogAndApply's two moments, the record reaching the manifest and the version
  becoming current, and the deletion of obsolete files.
 */
module DatabaseInstall {
  import opened Basics
  import opened Entries
  import opened Versions
  import opened Levels
  import opened CompactionReads
  import opened Storage
  import opened Database
  import opened DatabaseVersions
  import F = Files

  // ---------------------------------------------------------------- manifest append

  function Max(a: Sequence, b: Sequence): Sequence {
    if a < b then b else a
  }

  // The record is durable; the process may still crash before it uses the version.
  ghost predicate AppendRecord(s: State, s': State) {
    && s.memory.Some? && s.disk.current in s.disk.manifests
    && var m := s.memory.value;
       && m.job.Ready?
       && var t := m.job.task;
          s' == s.(disk := s.disk.(manifests := s.disk.manifests[s.disk.current := RecordsOf(s.disk) + [t.record]]),
                   persisted := t.w, dropped := s.dropped + t.dropped, floor := Max(s.floor, t.snapshot),
                   memory := Some(m.(job := Appended(t))))
  }

  lemma LastOfAppend(rs: seq<Record>, r: Record)
    requires r.log.Some? && r.next.Some? && r.last.Some?
    ensures LogOf(rs + [r]) == r.log.value && NextOf(rs + [r]) == r.next.value && LastOf(rs + [r]) == r.last.value
    ensures LastLog(rs + [r]).Some? && LastNext(rs + [r]).Some? && LastSequence(rs + [r]).Some?
  {
  }

  lemma FaithfulMonotone(es: set<Entry>, history: set<Entry>, dropped: set<Entry>, floor: Sequence,
                         dropped': set<Entry>, floor': Sequence)
    requires Faithful(es, history, dropped, floor) && dropped <= dropped' && floor <= floor'
    ensures Faithful(es, history, dropped', floor')
  {
  }

  // Replacing a version by one that preserves reads keeps the contents faithful.
  lemma FaithfulReplace(v: Version, w: Version, logs: set<Entry>, history: set<Entry>, dropped: set<Entry>,
                        floor: Sequence, snapshot: Sequence, gone: set<Entry>)
    requires Faithful(VersionEntries(v) + logs, history, dropped, floor) && Distinct(history)
    requires AllNewer(logs, VersionEntries(v))
    requires PreservesReads(v, w, snapshot) && VersionEntries(w) + gone == VersionEntries(v)
    ensures Faithful(VersionEntries(w) + logs, history, dropped + gone, Max(floor, snapshot))
  {
    DistinctSubset(history, VersionEntries(v) + logs);
    assert MemNewer(logs, VersionEntries(v));
    forall k, s: Sequence | s >= Max(floor, snapshot)
      ensures Read(VersionEntries(w) + logs, k, s) == Read(history, k, s)
    {
      assert Read(VersionEntries(v) + logs, k, s) == Read(history, k, s);
    }
  }

  // What recovery finds after the append is still the committed history.
  lemma AppendContents(s: State, m: Memory, t: Task)
    requires Inv(s) && s.memory == Some(m) && m.job == Ready(t)
    ensures Faithful(Contents(t.w, s.disk.logs, t.record.log.value), s.history, s.dropped + t.dropped,
            Max(s.floor, t.snapshot))
    ensures AllNewer(LogsFrom(s.disk.logs, t.record.log.value), VersionEntries(t.w))
    ensures LogOf(RecordsOf(s.disk)) <= t.record.log.value
  {
    hide GoodVersion, TaskOk, VersionEntries, LogsFrom, Read, ManifestOk, VersionOnDisk, PinnedOk, Distinct,
         LogsOrdered;
    var logs := s.disk.logs;
    if t.flush {
      assert LogsFrom(logs, m.logNumber) == LogsFrom(logs, m.logFile) + ImmSet(m.imm);
      assert Contents(t.w, logs, m.logFile) == Contents(m.version, logs, m.logNumber);
      FaithfulMonotone(Contents(m.version, logs, m.logNumber), s.history, s.dropped, s.floor,
                       s.dropped + t.dropped, Max(s.floor, t.snapshot));
    } else {
      FaithfulReplace(m.version, t.w, LogsFrom(logs, m.logNumber), s.history, s.dropped, s.floor, t.snapshot,
        t.dropped);
    }
  }

  lemma LogsOrderedFrom(logs: map<nat, Log>, n: nat, n': nat)
    requires LogsOrdered(logs, n) && n <= n'
    ensures LogsOrdered(logs, n')
  {
  }

  lemma AppendRecordDisk(s: State, m: Memory, t: Task, s': State)
    requires Inv(s) && s.memory == Some(m) && m.job == Ready(t) && AppendRecord(s, s')
    ensures DiskInv(s')
    ensures RecordsOf(s'.disk) == RecordsOf(s.disk) + [t.record]
  {
    hide GoodVersion, TaskEffect, VersionEntries, LogsFrom, Faithful, Distinct, F.Install, Persists, AllNewer;
    AppendContents(s, m, t);
    LastOfAppend(RecordsOf(s.disk), t.record);
    PersistsAppend(RecordsOf(s.disk), s.persisted, t.edit, t.w, t.record);
    LogsOrderedFrom(s.disk.logs, LogOf(RecordsOf(s.disk)), t.record.log.value);
  }

  lemma AppendRecordMem(s: State, m: Memory, t: Task, s': State)
    requires Inv(s) && s.memory == Some(m) && m.job == Ready(t) && AppendRecord(s, s')
    requires RecordsOf(s'.disk) == RecordsOf(s.disk) + [t.record]
    ensures MemInv(s', s'.memory.value)
  {
    hide GoodVersion, VersionEntries, LogsFrom, Distinct, F.Install, Persists, AllNewer, Read, VersionBesideLogs,
         MemContents;
    LastOfAppend(RecordsOf(s.disk), t.record);
    FaithfulMonotone(Contents(m.version, s.disk.logs, m.logNumber), s.history, s.dropped, s.floor, s'.dropped,
      s'.floor);
  }

  lemma AppendRecordKeepsInv(s: State, s': State)
    requires Inv(s) && AppendRecord(s, s')
    ensures Inv(s')
  {
    var m := s.memory.value;
    AppendRecordDisk(s, m, m.job.task, s');
    AppendRecordMem(s, m, m.job.task, s');
  }

  // ---------------------------------------------------------------- installation

  ghost predicate InstallVersion(s: State, s': State) {
    && s.memory.Some?
    && var m := s.memory.value;
       && m.job.Appended? && m.job.task.record.log.Some?
       && var t := m.job.task;
          s' == s.(memory := Some(m.(version := t.w, logNumber := t.record.log.value,
                                     imm := if t.flush then None else m.imm, job := Idle)))
  }

  lemma InstallVersionKeepsInv(s: State, s': State)
    requires Inv(s) && InstallVersion(s, s')
    ensures Inv(s')
  {
    hide GoodVersion, VersionEntries, LogsFrom, Distinct, Persists, Read;
    var m, m' := s.memory.value, s'.memory.value;
    assert MemContents(s'.disk.logs, m'.logFile, m'.logNumber, m'.mem, m'.imm, m'.write);
  }

  // ---------------------------------------------------------------- obsolete files

  // DeleteObsoleteFiles runs when no version is on its way into the manifest and
  // no flushed table waits for its edit.
  ghost predicate MayDelete(m: Memory) {
    m.job.Idle? || m.job.Working? || (m.job.Ready? && !m.job.task.flush)
  }

  ghost predicate InVersion(v: Version, n: nat) {
    exists l: Level, f :: l < |v| && f in v[l] && f.number == n
  }

  // The numbers in live: files of the current and the referenced versions, and
  // the outputs of a compaction in progress.
  ghost predicate IsLive(m: Memory, n: nat) {
    || InVersion(m.version, n)
    || (exists p :: p in m.pinned && InVersion(p.version, n))
    || (m.job.Ready? && InVersion(m.job.task.w, n))
  }

  ghost predicate DeleteLog(s: State, n: nat, s': State) {
    && s.memory.Some? && MayDelete(s.memory.value)
    && n < s.memory.value.logNumber
    && s' == s.(disk := s.disk.(logs := s.disk.logs - {n}))
  }

  ghost predicate DeleteTable(s: State, n: nat, s': State) {
    && s.memory.Some? && MayDelete(s.memory.value)
    && !IsLive(s.memory.value, n)
    && s' == s.(disk := s.disk.(tables := s.disk.tables - {n}))
  }

  ghost predicate DeleteManifest(s: State, n: nat, s': State) {
    && s.memory.Some? && MayDelete(s.memory.value)
    && n < s.disk.current
    && s' == s.(disk := s.disk.(manifests := s.disk.manifests - {n}))
  }

  lemma LogsOrderedDelete(logs: map<nat, Log>, l: nat, n: nat)
    requires LogsOrdered(logs, n)
    ensures LogsOrdered(logs - {l}, n)
  {
  }

  lemma DeleteLogKeepsInv(s: State, n: nat, s': State)
    requires Inv(s) && DeleteLog(s, n, s')
    ensures Inv(s')
  {
    hide GoodVersion, VersionEntries, LogsFrom, LogsOrdered, Distinct, Persists, Read, TaskOk, TaskEffect, Compacting;
    var m, rs := s.memory.value, RecordsOf(s.disk);
    assert RecordsOf(s'.disk) == rs;
    LogsDelete(s.disk.logs, n, LogOf(rs));
    LogsDelete(s.disk.logs, n, m.logFile);
    LogsOrderedDelete(s.disk.logs, n, LogOf(rs));
  }

  lemma TablesWithout(tables: map<nat, seq<Entry>>, n: nat, v: Version, next: nat)
    requires VersionOnDisk(tables, v, next) && !InVersion(v, n)
    ensures VersionOnDisk(tables - {n}, v, next)
  {
  }

  lemma DeleteTableKeepsInv(s: State, n: nat, s': State)
    requires Inv(s) && DeleteTable(s, n, s')
    ensures Inv(s')
  {
    hide GoodVersion, VersionEntries, LogsFrom, LogsOrdered, Distinct, Persists, Read, TaskEffect, Compacting,
         InVersion,
         TablesHold, F.Install;
    var m, rs := s.memory.value, RecordsOf(s.disk);
    assert RecordsOf(s'.disk) == rs;
    TablesWithout(s.disk.tables, n, m.version, m.next);
    TablesWithout(s.disk.tables, n, s.persisted, NextOf(rs));
    forall p | p in m.pinned ensures VersionOnDisk(s'.disk.tables, p.version, m.next) {
      TablesWithout(s.disk.tables, n, p.version, m.next);
    }
    if m.job.Ready? {
      TablesWithout(s.disk.tables, n, m.job.task.w, m.job.task.record.next.value);
    }
  }

  lemma DeleteManifestKeepsInv(s: State, n: nat, s': State)
    requires Inv(s) && DeleteManifest(s, n, s')
    ensures Inv(s')
  {
    hide GoodVersion, VersionEntries, LogsFrom, LogsOrdered, Distinct, Persists, Read, TaskOk, TaskEffect, Compacting;
    assert RecordsOf(s'.disk) == RecordsOf(s.disk);
  }
}
