/**
  Crash and recovery (db/db_impl.cc, DB::Open, DBImpl::Recover,
  RecoverLogFile), and the theorems over all runs of the database.
 */
module DatabaseRecovery {
  import opened Basics
  import opened Entries
  import opened Versions
  import opened Inputs
  import opened Levels
  import opened CompactionReads
  import opened Storage
  import opened Database
  import opened DatabaseWrites
  import opened DatabaseVersions
  import opened DatabaseInstall
  import F = Files

  // A process may stop between any two steps.
  ghost predicate Crash(s: State, s': State) {
    s' == s.(memory := None)
  }

  lemma CrashKeepsInv(s: State, s': State)
    requires Inv(s) && Crash(s, s')
    ensures Inv(s')
  {
    hide GoodVersion, VersionEntries, LogsFrom, LogsOrdered, Distinct, Persists, Read;
  }

  // An attempt to open the database that does not get as far as CURRENT leaves
  // new tables, a new log and a new manifest behind, none of them referenced.
  ghost predicate FailedOpen(s: State, tables': map<nat, seq<Entry>>, newLog: nat, manifests': map<nat, seq<Record>>,
                             s': State) {
    && s.memory.None?
    && TablesExtended(s.disk.tables, NextOf(RecordsOf(s.disk)), tables')
    && newLog !in s.disk.logs
    && (s.disk.current in s.disk.manifests ==>
          s.disk.current in manifests' && manifests'[s.disk.current] == s.disk.manifests[s.disk.current])
    && s' == s.(disk := s.disk.(tables := tables', logs := s.disk.logs[newLog := []], manifests := manifests'))
  }

  lemma FailedOpenKeepsInv(s: State, tables': map<nat, seq<Entry>>, newLog: nat, manifests': map<nat, seq<Record>>,
                           s': State)
    requires Inv(s) && FailedOpen(s, tables', newLog, manifests', s')
    ensures Inv(s')
  {
    hide GoodVersion, VersionEntries, LogsFrom, LogsOrdered, Distinct, Persists, Read, TablesHold, TablesExtended;
    var rs := RecordsOf(s.disk);
    assert RecordsOf(s'.disk) == rs;
    LogsCreate(s.disk.logs, newLog, LogOf(rs));
    LogsOrderedCreate(s.disk.logs, newLog, LogOf(rs));
    StillOnDisk(s.disk.tables, tables', s.persisted, NextOf(rs), NextOf(rs));
  }

  // ---------------------------------------------------------------- recovery

  // The level-zero tables that RecoverLogFile writes for the logs in order.
  ghost predicate Recovered(es: set<Entry>, first: nat, fs: seq<File>) {
    && AllWf(fs)
    && LevelEntries(fs) == es
    && FreshNumbers(fs, first)
    && (forall i, j :: 0 <= i < j < |fs| ==> AllNewer(SetOf(fs[j].contents), SetOf(fs[i].contents)))
  }

  // WriteSnapshot: the recovered version as one edit.
  ghost predicate SnapshotRecord(v: Version, r: Record) {
    && |v| == NUM_LEVELS
    && r.log.None? && r.next.None? && r.last.None? && r.edit.deleted == [] && F.AddsOnce(r.edit)
    && forall l: Level, g :: (l, g) in r.edit.added <==> g in Metas(v[l])
  }

  // DB::Open: replay the logs into tables, start a new log and a new manifest,
  // and point CURRENT at it.
  ghost predicate Open(s: State, fs: seq<File>, newLog: nat, last: Sequence, w: Version, snap: Record, s': State) {
    var rs := RecordsOf(s.disk);
    var manifest := NextOf(rs);
    var edit: Edit := F.FileEdit([], AtLevel(fs, 0));
    var record := Record(StripEdit(edit), Some(newLog), Some(newLog + 1), Some(last));
    && s.memory.None?
    && Recovered(LogsFrom(s.disk.logs, LogOf(rs)), manifest + 1, fs)
    && manifest < newLog && (forall f :: f in fs ==> f.number < newLog) && (forall l :: l in s.disk.logs ==> l < newLog)
    && LastSequenceRecovered(LastOf(rs), LogsFrom(s.disk.logs, LogOf(rs)), last)
    && F.Install(s.persisted, edit, w) && SnapshotRecord(s.persisted, snap)
    && s' == s.(disk := Disk(s.disk.logs[newLog := []], AddTables(s.disk.tables, fs),
                             s.disk.manifests[manifest := [snap, record]], manifest),
                persisted := w,
                memory := Some(Memory({}, None, newLog, newLog, newLog + 1, last, w, multiset{}, multiset{}, NoWrite,
                  Idle)))
  }

  // The manifest's last sequence, or the largest one in a replayed batch if that is larger.
  ghost predicate LastSequenceRecovered(persisted: Sequence, es: set<Entry>, last: Sequence) {
    && persisted <= last && SeqsAtMost(es, last)
    && (last == persisted || exists e :: e in es && e.ik.sequence == last)
  }

  lemma SnapshotPersists(v: Version, r: Record)
    requires SnapshotRecord(v, r)
    ensures Persists([r], v)
  {
    forall l: Level ensures FilesAt([r], l) == Metas(v[l]) {
      assert [r][..0] == [];
      forall g ensures g in AddedMetas(r.edit, l) <==> g in Metas(v[l]) {
        assert g in AddedMetas(r.edit, l) <==> (l, g) in r.edit.added;
      }
    }
  }

  lemma RecoveredFits(v: Version, es: set<Entry>, next: nat, fs: seq<File>)
    requires |v| == NUM_LEVELS && NumbersBelow(v, next) && AllNewer(es, VersionEntries(v))
    requires Recovered(es, next + 1, fs)
    ensures Fits(v, {}, 0, fs)
  {
    hide VersionEntries, LevelEntries, AllNewer, Newer, WfFile, RangeDisjoint;
    forall l: Level, o, g | o in fs && g in v[l] ensures Newer(o, g) && o.number > g.number {
      var i :| 0 <= i < |fs| && fs[i] == o;
      FileNewer(v, es, fs, i, l, g);
    }
    forall o, p | o in fs && p in fs && o != p ensures o.number != p.number && (o.number > p.number ==> Newer(o, p)) {
      var i :| 0 <= i < |fs| && fs[i] == o;
      var j :| 0 <= j < |fs| && fs[j] == p;
      if j < i { AllNewerFiles(fs[i], fs[j]); }
    }
  }

  lemma AllNewerFiles(f: File, g: File)
    requires AllNewer(SetOf(f.contents), SetOf(g.contents))
    ensures Newer(f, g)
  {
    forall x, y | x in f.contents && y in g.contents ensures x.ik.sequence > y.ik.sequence {
      assert x in SetOf(f.contents) && y in SetOf(g.contents);
    }
  }

  lemma FileNewer(v: Version, es: set<Entry>, fs: seq<File>, i: nat, l: Level, g: File)
    requires |v| == NUM_LEVELS && AllNewer(es, VersionEntries(v)) && LevelEntries(fs) <= es
    requires i < |fs| && g in v[l]
    ensures Newer(fs[i], g)
  {
    forall x, y | x in fs[i].contents && y in g.contents ensures x.ik.sequence > y.ik.sequence {
      assert x in LevelEntries(fs);
      var j :| 0 <= j < |v[l]| && v[l][j] == g;
      assert y in VersionEntries(v);
    }
  }

  lemma RecoveredVersion(v: Version, es: set<Entry>, next: nat, fs: seq<File>, w: Version)
    requires GoodVersion(v) && NumbersBelow(v, next) && AllNewer(es, VersionEntries(v))
    requires Recovered(es, next + 1, fs) && F.Install(v, F.FileEdit([], AtLevel(fs, 0)), w)
    ensures GoodVersion(w) && VersionEntries(w) == VersionEntries(v) + es
    ensures forall l: Level, g :: g in w[l] ==> g in v[l] || g in fs
  {
    hide LevelsDisjoint, ZeroNewer, ShallowerNewer, NumbersUnique, Fits, VersionEntries, LevelEntries, RestEntries,
         AllNewer, AllWf;
    InstallReplaces(v, F.FileEdit([], AtLevel(fs, 0)), w, {}, 0, fs);
    RecoveredFits(v, es, next, fs);
    ReplaceKeepsGood(v, w, {}, 0, fs);
    EntriesReplaced(v, w, {}, 0, fs);
    RestOfNothing(v);
  }

  lemma OpenDisk(s: State, fs: seq<File>, newLog: nat, last: Sequence, w: Version, snap: Record, s': State)
    requires DiskInv(s) && Open(s, fs, newLog, last, w, snap, s')
    ensures DiskInv(s') && LogsFrom(s'.disk.logs, newLog) == {} && NextOf(RecordsOf(s'.disk)) == newLog + 1
    ensures LogOf(RecordsOf(s'.disk)) == newLog && LastOf(RecordsOf(s'.disk)) == last
  {
    hide GoodVersion, VersionEntries, LogsFrom, LogsOrdered, Distinct, Persists, Read, Recovered, F.Install,
         SnapshotRecord,
         TablesHold, AddTables, AllNewer, FilesAt, ReadsSame;
    var rs, logs := RecordsOf(s.disk), s.disk.logs;
    var edit: Edit := F.FileEdit([], AtLevel(fs, 0));
    var record := Record(StripEdit(edit), Some(newLog), Some(newLog + 1), Some(last));
    assert RecordsOf(s'.disk) == [snap] + [record];
    LastOfAppend([snap], record);
    SnapshotPersists(s.persisted, snap);
    PersistsAppend([snap], s.persisted, edit, w, record);
    RecoveredVersion(s.persisted, LogsFrom(logs, LogOf(rs)), NextOf(rs), fs, w);
    LogsFromNew(logs, newLog);
    OpenOnDisk(s.disk.tables, s.persisted, LogsFrom(logs, LogOf(rs)), fs, NextOf(rs), w, newLog);
    OpenLogsOrdered(logs, LogOf(rs), newLog);
    assert Contents(w, s'.disk.logs, newLog) == Persisted(s);
    OpenBesideLogs(w, s'.disk.logs, newLog);
    assert SeqsAtMost(VersionEntries(w), last);
  }

  lemma OpenBesideLogs(w: Version, logs: map<nat, Log>, n: nat)
    requires GoodVersion(w) && LogsFrom(logs, n) == {}
    ensures VersionBesideLogs(w, logs, n)
  {
  }

  lemma OpenLogsOrdered(logs: map<nat, Log>, n: nat, newLog: nat)
    requires LogsOrdered(logs, n) && n <= newLog && newLog !in logs
    ensures LogsOrdered(logs[newLog := []], newLog)
  {
    LogsOrderedCreate(logs, newLog, n);
    LogsOrderedFrom(logs[newLog := []], n, newLog);
  }

  lemma OpenOnDisk(tables: map<nat, seq<Entry>>, v: Version, es: set<Entry>, fs: seq<File>, next: nat, w: Version,
                   newLog: nat)
    requires VersionOnDisk(tables, v, next) && |w| == NUM_LEVELS
    requires forall l: Level, g :: g in w[l] ==> g in v[l] || g in fs
    requires Recovered(es, next + 1, fs)
    requires next < newLog && forall f :: f in fs ==> f.number < newLog
    ensures VersionOnDisk(AddTables(tables, fs), w, newLog + 1)
  {
    AddTablesHold(tables, fs, next + 1);
    hide AddTables, Recovered;
    forall l: Level, g | g in w[l]
      ensures g.number in AddTables(tables, fs) && AddTables(tables, fs)[g.number] == g.contents &&
              g.number < newLog + 1
    {
      if g in v[l] { assert g.number in tables && tables[g.number] == g.contents && g.number < next; }
    }
  }

  lemma OpenKeepsInv(s: State, fs: seq<File>, newLog: nat, last: Sequence, w: Version, snap: Record, s': State)
    requires Inv(s) && Open(s, fs, newLog, last, w, snap, s')
    ensures Inv(s')
  {
    hide GoodVersion, VersionEntries, LogsFrom, LogsOrdered, Distinct, Persists, Recovered, F.Install, SnapshotRecord,
         TablesHold, AddTables, FilesAt, ReadsSame, ManifestOk;
    OpenDisk(s, fs, newLog, last, w, snap, s');
    var m' := s'.memory.value;
    assert SequencesOk(s'.history, m'.write, m'.last) by {
      assert Persisted(s) <= s.history <= Persisted(s) + s.dropped;
    }
  }

  // Recovery finds everything: after Open the store answers every read at
  // LastSequence from the committed history, and LastSequence covers it all.
  lemma RecoveredReads(s: State, fs: seq<File>, newLog: nat, last: Sequence, w: Version, snap: Record, s': State,
                       k: Key)
    requires Inv(s) && Open(s, fs, newLog, last, w, snap, s')
    ensures Read(VersionEntries(w), k, last) == Read(s.history, k, last)
    ensures SeqsAtMost(s.history, last)
    ensures VersionEntries(w) <= s.history <= VersionEntries(w) + s.dropped
  {
    hide GoodVersion, VersionEntries, LogsFrom, LogsOrdered, Distinct, Persists, Recovered, F.Install, SnapshotRecord,
         TablesHold, AddTables, FilesAt, ManifestOk, Read;
    OpenKeepsInv(s, fs, newLog, last, w, snap, s');
    OpenDisk(s, fs, newLog, last, w, snap, s');
    var m' := s'.memory.value;
    assert Held(m') == VersionEntries(w);
    assert Live(s', m') == VersionEntries(w);
    ReadsAreHistory(s', m', k, last);
  }

  // ---------------------------------------------------------------- runs

  datatype Action =
    | DoLogGroup(batch: seq<Entry>)
    | DoApplyGroup
    | DoPublishGroup
    | DoSwitchMemtable
    | DoTakeSnapshot
    | DoReleaseSnapshot(x: Sequence)
    | DoOpenIterator(x: Sequence)
    | DoCloseIterator(p: Pin)
    | DoBuildFlush(contents: seq<Entry>, size: nat, level: Level, w: Version)
    | DoBuildEmptyFlush(w: Version)
    | DoStartCompaction(from: nat, in0: seq<File>, in1: seq<File>, snapshot: Sequence)
    | DoBuildCompaction(input: seq<Entry>, outputs: seq<seq<Entry>>, outs: seq<File>, w: Version)
    | DoBuildMove(f: File, w: Version)
    | DoAppendRecord
    | DoInstallVersion
    | DoDeleteLog(n: nat)
    | DoDeleteTable(n: nat)
    | DoDeleteManifest(n: nat)
    | DoCrash
    | DoFailedOpen(tables: map<nat, seq<Entry>>, newLog: nat, manifests: map<nat, seq<Record>>)
    | DoOpen(fs: seq<File>, newLog: nat, last: Sequence, w: Version, snap: Record)

  ghost predicate Next(s: State, a: Action, s': State) {
    match a
    case DoLogGroup(batch) => LogGroup(s, batch, s')
    case DoApplyGroup => ApplyGroup(s, s')
    case DoPublishGroup => PublishGroup(s, s')
    case DoSwitchMemtable => SwitchMemtable(s, s')
    case DoTakeSnapshot => TakeSnapshot(s, s')
    case DoReleaseSnapshot(x) => ReleaseSnapshot(s, x, s')
    case DoOpenIterator(n) => OpenIterator(s, n, s')
    case DoCloseIterator(p) => CloseIterator(s, p, s')
    case DoBuildFlush(contents, size, level, w) => BuildFlush(s, contents, size, level, w, s')
    case DoBuildEmptyFlush(w) => BuildEmptyFlush(s, w, s')
    case DoStartCompaction(from, in0, in1, snapshot) => StartCompaction(s, from, in0, in1, snapshot, s')
    case DoBuildCompaction(input, outputs, outs, w) => BuildCompaction(s, input, outputs, outs, w, s')
    case DoBuildMove(f, w) => BuildMove(s, f, w, s')
    case DoAppendRecord => AppendRecord(s, s')
    case DoInstallVersion => InstallVersion(s, s')
    case DoDeleteLog(n) => DeleteLog(s, n, s')
    case DoDeleteTable(n) => DeleteTable(s, n, s')
    case DoDeleteManifest(n) => DeleteManifest(s, n, s')
    case DoCrash => Crash(s, s')
    case DoFailedOpen(tables, newLog, manifests) => FailedOpen(s, tables, newLog, manifests, s')
    case DoOpen(fs, newLog, last, w, snap) => Open(s, fs, newLog, last, w, snap, s')
  }

  // NewDB: manifest 1 with one record and no files.
  ghost predicate Init(s: State) {
    && s.disk == Disk(map[], map[], map[1 := [Record(F.FileEdit([], []), Some(0), Some(2), Some(0))]], 1)
    && s.memory.None?
    && s.persisted == [[], [], [], [], [], [], []]
    && s.history == {} && s.dropped == {} && s.floor == 0
  }

  lemma EmptyVersion(v: Version)
    requires v == [[], [], [], [], [], [], []]
    ensures GoodVersion(v) && VersionEntries(v) == {}
    ensures VersionOnDisk(map[], v, 2)
  {
    assert forall l: Level :: v[l] == [];
  }

  lemma EmptyPersists(r: Record, v: Version)
    requires v == [[], [], [], [], [], [], []] && r.edit == F.FileEdit([], [])
    ensures Persists([r], v)
  {
    assert [r][..0] == [];
    forall l: Level ensures FilesAt([r], l) == Metas(v[l]) {
      assert v[l] == [];
    }
  }

  lemma InitInv(s: State)
    requires Init(s)
    ensures Inv(s)
  {
    hide GoodVersion, VersionEntries, VersionOnDisk, Persists;
    var r := Record(F.FileEdit([], []), Some(0), Some(2), Some(0));
    assert RecordsOf(s.disk) == [] + [r];
    LastOfAppend([], r);
    EmptyVersion(s.persisted);
    EmptyPersists(r, s.persisted);
    assert Persisted(s) == {};
  }

  lemma NextKeepsInv(s: State, a: Action, s': State)
    requires Inv(s) && Next(s, a, s')
    ensures Inv(s')
  {
    hide Inv, TaskOk, GoodVersion;
    hide LogGroup, ApplyGroup, PublishGroup, SwitchMemtable, TakeSnapshot, ReleaseSnapshot, OpenIterator, CloseIterator,
         BuildFlush, BuildEmptyFlush, StartCompaction, BuildCompaction, BuildMove, AppendRecord, InstallVersion,
         DeleteLog, DeleteTable, DeleteManifest, Crash, FailedOpen, Open;
    match a
    case DoLogGroup(batch) => LogGroupKeepsInv(s, batch, s');
    case DoApplyGroup => ApplyGroupKeepsInv(s, s');
    case DoPublishGroup => PublishGroupKeepsInv(s, s');
    case DoSwitchMemtable => SwitchMemtableKeepsInv(s, s');
    case DoTakeSnapshot => SnapshotsKeepInv(s, 0, s');
    case DoReleaseSnapshot(x) => SnapshotsKeepInv(s, x, s');
    case DoOpenIterator(n) => OpenIteratorKeepsInv(s, n, s');
    case DoCloseIterator(p) => CloseIteratorKeepsInv(s, p, s');
    case DoBuildFlush(contents, size, level, w) => BuildFlushKeepsInv(s, contents, size, level, w, s');
    case DoBuildEmptyFlush(w) => BuildEmptyFlushKeepsInv(s, w, s');
    case DoStartCompaction(from, in0, in1, snapshot) => StartCompactionKeepsInv(s, from, in0, in1, snapshot, s');
    case DoBuildCompaction(input, outputs, outs, w) => BuildCompactionKeepsInv(s, input, outputs, outs, w, s');
    case DoBuildMove(f, w) => BuildMoveKeepsInv(s, f, w, s');
    case DoAppendRecord => AppendRecordKeepsInv(s, s');
    case DoInstallVersion => InstallVersionKeepsInv(s, s');
    case DoDeleteLog(n) => DeleteLogKeepsInv(s, n, s');
    case DoDeleteTable(n) => DeleteTableKeepsInv(s, n, s');
    case DoDeleteManifest(n) => DeleteManifestKeepsInv(s, n, s');
    case DoCrash => CrashKeepsInv(s, s');
    case DoFailedOpen(tables, newLog, manifests) => FailedOpenKeepsInv(s, tables, newLog, manifests, s');
    case DoOpen(fs, newLog, last, w, snap) => OpenKeepsInv(s, fs, newLog, last, w, snap, s');
  }

  ghost predicate Run(states: seq<State>, actions: seq<Action>) {
    && |states| == |actions| + 1
    && Init(states[0])
    && forall i :: 0 <= i < |actions| ==> Next(states[i], actions[i], states[i + 1])
  }

  lemma {:induction false} RunKeepsInv(states: seq<State>, actions: seq<Action>, i: nat)
    requires Run(states, actions) && i < |states|
    ensures Inv(states[i])
  {
    if i == 0 {
      InitInv(states[0]);
    } else {
      RunKeepsInv(states, actions, i - 1);
      NextKeepsInv(states[i - 1], actions[i - 1], states[i]);
    }
  }

  // In every state of every run of writes, flushes, compactions, deletions,
  // crashes and recoveries in which compactions cut between user keys (see
  // DatabaseVersions.Compacted): what recovery would rebuild is the committed
  // history up to dropped entries, reads alike at every sequence that a reader
  // may still use, and every table it needs is on disk.
  lemma RunIsDurable(states: seq<State>, actions: seq<Action>, i: nat, k: Key, n: Sequence)
    requires Run(states, actions) && i < |states| && n >= states[i].floor
    ensures Persisted(states[i]) <= states[i].history <= Persisted(states[i]) + states[i].dropped
    ensures Read(Persisted(states[i]), k, n) == Read(states[i].history, k, n)
    ensures |states[i].persisted| == NUM_LEVELS && TablesHold(states[i].disk.tables, states[i].persisted)
  {
    RunKeepsInv(states, actions, i);
    PersistedIsHistory(states[i], k, n);
  }

  // ... and, under the same hypothesis, a running database answers at LastSequence and at every live
  // snapshot from that history.
  lemma RunReads(states: seq<State>, actions: seq<Action>, i: nat, m: Memory, k: Key, n: Sequence)
    requires Run(states, actions) && i < |states| && states[i].memory == Some(m)
    requires n == m.last || n in m.snapshots
    ensures Read(Held(m), k, n) == Read(states[i].history, k, n)
    ensures WfVersion(m.version) && TablesHold(states[i].disk.tables, m.version)
    ensures forall p :: p in m.pinned ==> |p.version| == NUM_LEVELS && TablesHold(states[i].disk.tables, p.version)
  {
    RunKeepsInv(states, actions, i);
    GoodIsWf(m.version);
    ReadsAreHistory(states[i], m, k, n);
  }
}
