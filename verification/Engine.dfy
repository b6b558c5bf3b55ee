/**
  The steps of the state machine carried out by the methods that model the source:
  a write from the log to its publication, the flush of a memtable, a compaction,
  and the opening of the database after a crash.  So every such step can be taken
  when its turn comes.
 */
module Engine {
  import opened Basics
  import opened Entries
  import opened Versions
  import opened Inputs
  import opened Levels
  import opened Storage
  import opened Database
  import opened DatabaseWrites
  import opened DatabaseVersions
  import opened DatabaseInstall
  import opened DatabaseRecovery
  import opened ManifestHistory
  import RecoverLog
  import F = Files

  // ---------------------------------------------------------------- writes

  // DBImpl::Write without concurrency: log, apply, publish.
  lemma WriteIsPossible(s: State, m: Memory, batch: seq<Entry>) returns (s1: State, s2: State, s3: State)
    requires Inv(s) && s.memory == Some(m) && m.write.NoWrite? && Follows(batch, m.last)
    ensures LogGroup(s, batch, s1) && ApplyGroup(s1, s2) && PublishGroup(s2, s3)
    ensures Inv(s3) && s3.memory.Some? && s3.memory.value.last == m.last + |batch|
  {
    hide Inv, Follows, LogGroup, ApplyGroup, PublishGroup;
    FollowsFits(batch, m.last);
    s1 := LogIsPossible(s, m, batch);
    s2 := ApplyIsPossible(s1, s1.memory.value);
    s3 := PublishIsPossible(s2, s2.memory.value);
  }

  lemma LogIsPossible(s: State, m: Memory, batch: seq<Entry>) returns (s': State)
    requires Inv(s) && s.memory == Some(m) && m.write.NoWrite? && Follows(batch, m.last)
    ensures LogGroup(s, batch, s') && Inv(s')
    ensures s'.memory.Some? && s'.memory.value.write == Logged(batch) && s'.memory.value.last == m.last
  {
    hide Inv, Follows;
    LogFileExists(s, m);
    s' := s.(disk := s.disk.(logs := s.disk.logs[m.logFile := s.disk.logs[m.logFile] + [batch]]),
             history := s.history + SetOf(batch), memory := Some(m.(write := Logged(batch))));
    LogGroupKeepsInv(s, batch, s');
  }

  lemma ApplyIsPossible(s: State, m: Memory) returns (s': State)
    requires Inv(s) && s.memory == Some(m) && m.write.Logged?
    ensures ApplyGroup(s, s') && Inv(s')
    ensures s'.memory.Some? && s'.memory.value.write == Applied(m.write.batch) && s'.memory.value.last == m.last
  {
    hide Inv;
    s' := s.(memory := Some(m.(mem := m.mem + SetOf(m.write.batch), write := Applied(m.write.batch))));
    ApplyGroupKeepsInv(s, s');
  }

  lemma PublishIsPossible(s: State, m: Memory) returns (s': State)
    requires Inv(s) && s.memory == Some(m) && m.write.Applied? && m.last + |m.write.batch| <= MAX_SEQUENCE
    ensures PublishGroup(s, s') && Inv(s')
    ensures s'.memory.Some? && s'.memory.value.last == m.last + |m.write.batch|
  {
    hide Inv;
    s' := s.(memory := Some(m.(last := m.last + |m.write.batch|, write := NoWrite)));
    PublishGroupKeepsInv(s, s');
  }

  lemma LogFileExists(s: State, m: Memory)
    requires Inv(s) && s.memory == Some(m)
    ensures m.logFile in s.disk.logs
  {
  }

  lemma FollowsFits(batch: seq<Entry>, last: Sequence)
    requires Follows(batch, last)
    ensures last + |batch| <= MAX_SEQUENCE
  {
  }

  // ---------------------------------------------------------------- installing an edit

  lemma FreshForInstall(v: Version, next: nat, e: Edit, next': nat)
    requires FreshEdit(v, next, e, next') && NumbersUnique(v) && NumbersBelow(v, next)
    ensures F.FreshHistory(v, [e])
  {
    hide F.AddsOnce;
    forall l: Level
      ensures F.Numbers(v[l]) !! F.AddedNumbers(e.added, l)
    {
      forall n | n in F.AddedNumbers(e.added, l)
        ensures n !in F.Numbers(v[l])
      {
        var p :| p in e.added && p.0 == l && p.1.number == n;
        assert F.Adds(e, l, p.1);
      }
    }
  }

  // VersionSet::LogAndApply: the record reaches the manifest, the version becomes
  // current.
  lemma LogAndApply(s: State, m: Memory) returns (s1: State, s2: State)
    requires Inv(s) && s.memory == Some(m) && m.job.Ready?
    ensures AppendRecord(s, s1) && InstallVersion(s1, s2) && Inv(s2)
    ensures s2.memory.Some? && s2.history == s.history
    ensures var (t, m') := (m.job.task, s2.memory.value);
            && m'.version == t.w && m'.job == Idle && m'.imm == (if t.flush then None else m.imm)
            && m'.mem == m.mem && m'.last == m.last
  {
    hide Inv;
    ReadyRecord(s, m);
    var t := m.job.task;
    s1 := s.(disk := s.disk.(manifests := s.disk.manifests[s.disk.current := RecordsOf(s.disk) + [t.record]]),
             persisted := t.w, dropped := s.dropped + t.dropped, floor := Max(s.floor, t.snapshot),
             memory := Some(m.(job := Appended(t))));
    AppendRecordKeepsInv(s, s1);
    s2 := s1.(memory := Some(m.(version := t.w, logNumber := t.record.log.value,
                                imm := if t.flush then None else m.imm, job := Idle)));
    InstallVersionKeepsInv(s1, s2);
  }

  lemma ReadyRecord(s: State, m: Memory)
    requires Inv(s) && s.memory == Some(m) && m.job.Ready?
    ensures s.disk.current in s.disk.manifests && m.job.task.record.log.Some?
  {
  }

  // ---------------------------------------------------------------- flush

  lemma IdleVersion(s: State, m: Memory)
    requires Inv(s) && s.memory == Some(m) && (m.job.Idle? || m.job.Working?)
    ensures GoodVersion(m.version) && SortedLevels(m.version) && UserDisjointLevels(m.version)
    ensures NumbersBelow(m.version, NextOf(RecordsOf(s.disk))) && NextOf(RecordsOf(s.disk)) <= m.next
  {
    WorksOnPersisted(s, m);
    assert GoodVersion(m.version);
    GoodIsWf(m.version);
  }

  // CompactMemTable and WriteLevel0Table: the immutable memtable becomes a table at
  // the level that PickLevelForMemTableOutput chooses.
  method BuildFlushOf(s: State, contents: seq<Entry>, size: nat)
    returns (s': State, ghost level: Level, ghost w: Version)
    requires Inv(s) && s.memory.Some? && s.memory.value.job.Idle? && s.memory.value.imm.Some?
    requires contents != [] && Sorted(contents) && SetOf(contents) == s.memory.value.imm.value
    ensures BuildFlush(s, contents, size, level, w, s') && Inv(s')
  {
    hide Inv, GoodVersion, SortedLevels, UserDisjointLevels, F.Install, DeepestLevel, Sorted, SetOf, BuildFlush,
         LevelPicked;
    var m := s.memory.value;
    IdleVersion(s, m);
    var f := FlushFile(m.next, size, contents);
    var l := PickedLevel(m.version, f);
    var edit: Edit := F.FileEdit([], [(l, f)]);
    FlushEditFresh(m.version, NextOf(RecordsOf(s.disk)), f, l, m.next);
    var version := F.InstallEdit(m.version, edit);
    level, w := l, version;
    s' := s.(disk := s.disk.(tables := s.disk.tables[m.next := contents]),
             memory := Some(m.(next := m.next + 1, job := Ready(FlushTask(m, edit, version, m.next + 1)))));
    IsBuildFlush(s, m, contents, size, level, w, s');
    BuildFlushKeepsInv(s, contents, size, level, w, s');
  }

  method PickedLevel(v: Version, f: File) returns (level: Level)
    requires SortedLevels(v)
    ensures LevelPicked(v, f, level)
  {
    var picked := PickLevelForMemTableOutput(v, f.smallest.key, f.largest.key);
    level := picked;
  }

  lemma IsBuildFlush(s: State, m: Memory, contents: seq<Entry>, size: nat, level: Level, w: Version, s': State)
    requires s.memory == Some(m) && m.job.Idle? && m.imm.Some? && contents != []
    requires Sorted(contents) && SetOf(contents) == m.imm.value
    requires LevelPicked(m.version, FlushFile(m.next, size, contents), level)
    requires F.Install(m.version, F.FileEdit([], [(level, FlushFile(m.next, size, contents))]), w)
    requires var edit: Edit := F.FileEdit([], [(level, FlushFile(m.next, size, contents))]);
             s' == s.(disk := s.disk.(tables := s.disk.tables[m.next := contents]),
                      memory := Some(m.(next := m.next + 1, job := Ready(FlushTask(m, edit, w, m.next + 1)))))
    ensures BuildFlush(s, contents, size, level, w, s')
  {
    hide LevelPicked, F.Install, Sorted, SetOf;
  }

  lemma FlushEditFresh(v: Version, next: nat, f: File, level: Level, number: nat)
    requires GoodVersion(v) && NumbersBelow(v, next) && next <= number && f.number == number
    ensures F.OrderedVersion(v) && F.FreshHistory(v, [F.FileEdit([], [(level, f)])])
  {
    hide FreshEdit;
    NewFilesFresh(v, next, [], [f], level, number, number + 1);
    AtLevelIs([f], level);
    assert AtLevel([f], level) == [(level, f)];
    FreshForInstall(v, next, F.FileEdit([], [(level, f)]), number + 1);
  }

  // ---------------------------------------------------------------- opening

  // VersionSet::WriteSnapshot
  method SnapshotOf(v: Version) returns (r: Record)
    requires GoodVersion(v)
    ensures SnapshotRecord(v, r)
  {
    hide LevelsDisjoint, ZeroNewer, ShallowerNewer, FilesWf, NumbersUnique, F.AddsOnce;
    var added: seq<(Level, Meta)> := [];
    assert F.AddsOnce(F.FileEdit([], added)) by { NothingAdded(); }
    for l := 0 to NUM_LEVELS
      invariant F.AddsOnce(F.FileEdit([], added))
      invariant forall k: Level, g :: (k, g) in added <==> k < l && g in Metas(v[k])
    {
      added := AddLevel(v, l, added);
    }
    r := Record(F.FileEdit([], added), None, None, None);
  }

  lemma NothingAdded()
    ensures F.AddsOnce<()>(F.FileEdit([], []))
  {
  }

  method AddLevel(v: Version, l: Level, before: seq<(Level, Meta)>) returns (added: seq<(Level, Meta)>)
    requires GoodVersion(v) && F.AddsOnce(F.FileEdit([], before))
    requires forall k: Level, g :: (k, g) in before <==> k < l && g in Metas(v[k])
    ensures F.AddsOnce(F.FileEdit([], added))
    ensures forall k: Level, g :: (k, g) in added <==> k <= l && g in Metas(v[k])
  {
    hide LevelsDisjoint, ZeroNewer, ShallowerNewer, FilesWf;
    added := before;
    var i := 0;
    while i < |v[l]|
      invariant 0 <= i <= |v[l]|
      invariant F.AddsOnce(F.FileEdit([], added))
      invariant forall k: Level, g :: (k, g) in added <==> (k, g) in before || (k == l && g in Metas(v[l][..i]))
    {
      MetasMore(v[l], i);
      OnceMore(v, l, before, added, i);
      added := added + [(l, Strip(v[l][i]))];
      i := i + 1;
    }
    assert v[l][..i] == v[l];
  }

  lemma MetasMore(fs: seq<File>, i: nat)
    requires i < |fs|
    ensures Metas(fs[..i + 1]) == Metas(fs[..i]) + {Strip(fs[i])}
  {
    assert fs[..i + 1] == fs[..i] + [fs[i]];
  }

  // A file of the level has a number that was not added to the level yet.
  lemma OnceMore(v: Version, l: Level, before: seq<(Level, Meta)>, added: seq<(Level, Meta)>, i: nat)
    requires GoodVersion(v) && i < |v[l]| && F.AddsOnce(F.FileEdit([], added))
    requires forall k: Level, g :: (k, g) in before ==> k < l
    requires forall k: Level, g :: (k, g) in added <==> (k, g) in before || (k == l && g in Metas(v[l][..i]))
    ensures F.AddsOnce(F.FileEdit([], added + [(l, Strip(v[l][i]))]))
  {
    hide LevelsDisjoint, ZeroNewer, ShallowerNewer, FilesWf;
    forall j | 0 <= j < |added| && added[j].0 == l
      ensures added[j].1.number != v[l][i].number
    {
      assert (added[j].0, added[j].1) in added;
      var f :| f in v[l][..i] && Strip(f) == added[j].1;
      var k :| 0 <= k < i && v[l][k] == f;
      assert F.Before(v[l][k], v[l][i]) && v[l][k] in v[l] && v[l][i] in v[l];
    }
  }

  lemma DownVersion(s: State)
    requires DiskInv(s)
    ensures GoodVersion(s.persisted) && NumbersBelow(s.persisted, NextOf(RecordsOf(s.disk)))
    ensures LogsOrdered(s.disk.logs, LogOf(RecordsOf(s.disk))) && LogOf(RecordsOf(s.disk)) < NextOf(RecordsOf(s.disk))
    ensures s.disk.current in s.disk.manifests
  {
  }

  // DB::Open after a crash.  numbers lists the logs to replay, as the directory does.
  method OpenDatabase(s: State, numbers: seq<nat>, full: seq<Entry> -> bool, size: seq<Entry> -> nat)
    returns (s': State, ghost fs: seq<File>, ghost newLog: nat, ghost last: Sequence, ghost w: Version,
             ghost snap: Record)
    requires Inv(s) && s.memory.None?
    requires RecoverLog.LogNumbers(s.disk.logs, LogOf(RecordsOf(s.disk)), numbers)
    ensures Open(s, fs, newLog, last, w, snap, s') && Inv(s')
  {
    hide DiskInv, GoodVersion, LogsOrdered, NumbersBelow, F.Install, Open, SnapshotRecord, Recovered, F.OrderedVersion,
         LastSequenceRecovered, AddTables, LogsFrom;
    DownVersion(s);
    var rs := s.disk.manifests[s.disk.current];
    var manifest := NextOf(rs);
    var files, next, lastSequence := RecoverLog.RecoverLogs(s.disk.logs, LogOf(rs), numbers, manifest + 1, LastOf(rs),
                                                            full, size);
    var edit: Edit := F.FileEdit([], AtLevel(files, 0));
    RecoveredEditFresh(s.persisted, LogsFrom(s.disk.logs, LogOf(rs)), manifest, files, next);
    var version := F.InstallEdit(s.persisted, edit);
    var snapshot := SnapshotOf(s.persisted);
    fs, newLog, last, w, snap := files, next, lastSequence, version, snapshot;
    var record := Record(StripEdit(edit), Some(next), Some(next + 1), Some(lastSequence));
    s' := s.(disk := Disk(s.disk.logs[next := []], AddTables(s.disk.tables, files),
                          s.disk.manifests[manifest := [snapshot, record]], manifest),
             persisted := version,
             memory := Some(Memory({}, None, next, next, next + 1, lastSequence, version, multiset{}, multiset{},
                                   NoWrite, Idle)));
    IsOpen(s, rs, files, next, lastSequence, version, snapshot, s');
    OpenKeepsInv(s, fs, newLog, last, w, snap, s');
  }

  lemma RecoveredEditFresh(v: Version, es: set<Entry>, manifest: nat, files: seq<File>, next: nat)
    requires GoodVersion(v) && NumbersBelow(v, manifest) && Recovered(es, manifest + 1, files)
    requires manifest + 1 <= next && forall f :: f in files ==> f.number < next
    ensures F.OrderedVersion(v) && F.FreshHistory(v, [F.FileEdit([], AtLevel(files, 0))])
  {
    hide FreshEdit;
    NewFilesFresh(v, manifest, [], files, 0, manifest + 1, next);
    FreshForInstall(v, manifest, F.FileEdit([], AtLevel(files, 0)), next);
  }

  lemma IsOpen(s: State, rs: seq<Record>, fs: seq<File>, newLog: nat, last: Sequence, w: Version, snap: Record,
               s': State)
    requires s.memory.None? && rs == RecordsOf(s.disk) && LogOf(rs) < NextOf(rs)
    requires Recovered(LogsFrom(s.disk.logs, LogOf(rs)), NextOf(rs) + 1, fs) && NextOf(rs) + 1 <= newLog
    requires forall f :: f in fs ==> f.number < newLog
    requires forall l :: l in s.disk.logs && l >= LogOf(rs) ==> l < newLog
    requires LastSequenceRecovered(LastOf(rs), LogsFrom(s.disk.logs, LogOf(rs)), last)
    requires F.Install(s.persisted, F.FileEdit([], AtLevel(fs, 0)), w) && SnapshotRecord(s.persisted, snap)
    requires var edit: Edit := F.FileEdit([], AtLevel(fs, 0));
             var record := Record(StripEdit(edit), Some(newLog), Some(newLog + 1), Some(last));
             s' == s.(disk := Disk(s.disk.logs[newLog := []], AddTables(s.disk.tables, fs),
                                   s.disk.manifests[NextOf(rs) := [snap, record]], NextOf(rs)),
                      persisted := w,
                      memory := Some(Memory({}, None, newLog, newLog, newLog + 1, last, w, multiset{}, multiset{},
                                            NoWrite, Idle)))
    ensures Open(s, fs, newLog, last, w, snap, s')
  {
    hide Recovered, F.Install, SnapshotRecord, LastSequenceRecovered, LogsFrom, AddTables;
  }
}
