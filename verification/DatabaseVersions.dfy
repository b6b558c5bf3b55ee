/**
  The background thread's side of the database: flushing the immutable
  memtable, compacting files, writing the new version to the manifest,
  installing it, and deleting what no version and no recovery needs.
 */
module DatabaseVersions {
  import opened Basics
  import opened Entries
  import opened Versions
  import opened Inputs
  import opened Levels
  import opened Compaction
  import opened Outputs
  import opened CompactionReads
  import opened Storage
  import opened Database
  import F = Files

  type Edit = F.FileEdit<seq<Entry>>

  // ---------------------------------------------------------------- preparing a task

  // New tables have numbers that no version uses yet.
  ghost predicate TablesExtended(tables: map<nat, seq<Entry>>, next: nat, tables': map<nat, seq<Entry>>) {
    forall n :: n in tables && n < next ==> n in tables' && tables'[n] == tables[n]
  }

  lemma StillOnDisk(tables: map<nat, seq<Entry>>, tables': map<nat, seq<Entry>>, v: Version, next: nat, next': nat)
    requires VersionOnDisk(tables, v, next) && TablesExtended(tables, next, tables') && next <= next'
    ensures VersionOnDisk(tables', v, next')
  {
  }

  // The background thread hands a task to LogAndApply.
  ghost predicate Prepare(s: State, tables': map<nat, seq<Entry>>, next': nat, t: Task, s': State) {
    && s.memory.Some?
    && var m := s.memory.value;
       && (m.job.Idle? || m.job.Working?)
       && m.next <= next' && TablesExtended(s.disk.tables, m.next, tables')
       && s' == s.(disk := s.disk.(tables := tables'), memory := Some(m.(next := next', job := Ready(t))))
  }

  lemma PrepareDisk(s: State, tables': map<nat, seq<Entry>>, next': nat, t: Task, s': State)
    requires Inv(s) && Prepare(s, tables', next', t, s')
    ensures DiskInv(s')
  {
    var m, rs := s.memory.value, RecordsOf(s.disk);
    assert RecordsOf(s'.disk) == rs;
    assert TablesExtended(s.disk.tables, NextOf(rs), tables');
    StillOnDisk(s.disk.tables, tables', s.persisted, NextOf(rs), NextOf(rs));
  }

  lemma PrepareNumbers(d: Disk, m: Memory, d': Disk, m': Memory)
    requires NumbersOk(d, m) && d' == d.(tables := d'.tables) && TablesExtended(d.tables, m.next, d'.tables)
    requires m.next <= m'.next && m' == m.(next := m'.next, job := m'.job)
    ensures NumbersOk(d', m')
  {
    assert RecordsOf(d') == RecordsOf(d);
    StillOnDisk(d.tables, d'.tables, m.version, m.next, m'.next);
    forall p | p in m.pinned ensures VersionOnDisk(d'.tables, p.version, m'.next) {
      StillOnDisk(d.tables, d'.tables, p.version, m.next, m'.next);
    }
  }

  lemma PrepareKeepsInv(s: State, m: Memory, tables': map<nat, seq<Entry>>, next': nat, t: Task, s': State)
    requires Inv(s) && s.memory == Some(m) && Prepare(s, tables', next', t, s')
    requires TaskOk(tables', s.disk.current, m.version, t)
    requires TaskEffect(m.version, m.imm, m.logFile, m.logNumber, t)
    requires SnapshotOk(m.snapshots, m.last, t.snapshot) && t.record.next.value <= next' &&
             t.record.last == Some(m.last)
    ensures Inv(s')
  {
    PrepareDisk(s, tables', next', t, s');
    PrepareNumbers(s.disk, m, s'.disk, s'.memory.value);
  }

  // ---------------------------------------------------------------- flush

  // The table that WriteLevel0Table builds from a memtable.
  function FlushFile(number: nat, size: nat, contents: seq<Entry>): File
    requires contents != []
  {
    F.File(number, size, contents[0].ik, contents[|contents| - 1].ik, contents)
  }

  // WriteLevel0Table: build the table, pick a level, prepare the edit.
  ghost predicate BuildFlush(s: State, contents: seq<Entry>, size: nat, level: Level, w: Version, s': State) {
    && s.memory.Some?
    && var m := s.memory.value;
       && m.job.Idle? && m.imm.Some? && contents != []
       && Sorted(contents) && SetOf(contents) == m.imm.value
       && var f := FlushFile(m.next, size, contents);
          var edit: Edit := F.FileEdit([], [(level, f)]);
          && LevelPicked(m.version, f, level)
          && F.Install(m.version, edit, w)
          && s' == s.(disk := s.disk.(tables := s.disk.tables[m.next := contents]),
                      memory := Some(m.(next := m.next + 1, job := Ready(FlushTask(m, edit, w, m.next + 1)))))
  }

  ghost predicate LevelPicked(v: Version, f: File, level: Level) {
    |v| == NUM_LEVELS && DeepestLevel(v, Range(Some(f.smallest.key), Some(f.largest.key)), level)
  }

  // CompactMemTable sets the log number so that earlier logs are no longer needed.
  function FlushTask(m: Memory, edit: Edit, w: Version, next: nat): Task {
    Task(w, edit, Record(StripEdit(edit), Some(m.logFile), Some(next), Some(m.last)), 0, {}, true)
  }

  // An empty memtable produces no file.
  ghost predicate BuildEmptyFlush(s: State, w: Version, s': State) {
    && s.memory.Some?
    && var m := s.memory.value;
       var edit: Edit := F.FileEdit([], []);
       && m.job.Idle? && m.imm == Some({})
       && F.Install(m.version, edit, w)
       && s' == s.(memory := Some(m.(job := Ready(FlushTask(m, edit, w, m.next)))))
  }

  lemma RestOfNothing(v: Version)
    ensures RestEntries(v, {}) == VersionEntries(v)
  {
  }

  lemma FlushVersion(v: Version, f: File, level: Level, w: Version)
    requires GoodVersion(v) && WfFile(f) && LevelPicked(v, f, level)
    requires forall l: Level, g :: g in v[l] ==> Newer(f, g) && f.number > g.number
    requires F.Install(v, F.FileEdit([], [(level, f)]), w)
    ensures GoodVersion(w)
    ensures VersionEntries(w) == VersionEntries(v) + SetOf(f.contents)
    ensures forall l: Level, g :: g in w[l] ==> g in v[l] || g == f
  {
    InstallReplaces(v, F.FileEdit([], [(level, f)]), w, {}, level, [f]);
    FlushFits(v, level, f);
    ReplaceKeepsGood(v, w, {}, level, [f]);
    EntriesReplaced(v, w, {}, level, [f]);
    RestOfNothing(v);
    OneFileEntries(f);
  }

  lemma OneFileEntries(f: File)
    ensures LevelEntries([f]) == SetOf(f.contents)
  {
    forall e | e in SetOf(f.contents) ensures e in LevelEntries([f]) {
      assert e in [f][0].contents;
    }
  }

  // Entries outside the group that is being written have published sequence numbers.
  lemma OldEntriesPublished(s: State, m: Memory, es: set<Entry>)
    requires SequencesOk(s.history, m.write, m.last) && es <= s.history
    requires AllNewer(WriteSet(m.write), es)
    ensures SeqsAtMost(es, m.last)
  {
  }

  lemma VersionAndImmPublished(s: State, m: Memory)
    requires MemInv(s, m)
    ensures SeqsAtMost(VersionEntries(m.version) + ImmSet(m.imm), m.last)
  {
    assert WriteSet(m.write) <= LogsFrom(s.disk.logs, m.logFile) <= LogsFrom(s.disk.logs, m.logNumber);
    OldEntriesPublished(s, m, VersionEntries(m.version) + ImmSet(m.imm));
  }

  lemma ImmNewerThanFiles(s: State, m: Memory, f: File)
    requires MemInv(s, m) && SetOf(f.contents) == ImmSet(m.imm)
    ensures forall l: Level, g :: g in m.version[l] ==> Newer(f, g)
  {
    forall l: Level, g | g in m.version[l] ensures Newer(f, g) {
      forall x, y | x in f.contents && y in g.contents ensures x.ik.sequence > y.ik.sequence {
        assert x in SetOf(f.contents) && x in LogsFrom(s.disk.logs, m.logNumber);
        var i :| 0 <= i < |m.version[l]| && m.version[l][i] == g;
        assert y in VersionEntries(m.version);
      }
    }
  }

  // What the invariant offers to the builder of a task.
  ghost predicate TaskContext(s: State, m: Memory) {
    && GoodVersion(m.version)
    && VersionOnDisk(s.disk.tables, m.version, m.next)
    && SeqsAtMost(VersionEntries(m.version) + ImmSet(m.imm), m.last)
    && s.disk.current < m.next && m.logFile < m.next && m.logNumber < m.next
  }

  lemma InvTaskContext(s: State, m: Memory)
    requires Inv(s) && s.memory == Some(m)
    ensures TaskContext(s, m)
  {
    VersionAndImmPublished(s, m);
  }

  lemma FlushOnDisk(tables: map<nat, seq<Entry>>, v: Version, f: File, w: Version)
    requires VersionOnDisk(tables, v, f.number) && |w| == NUM_LEVELS
    requires forall l: Level, g :: g in w[l] ==> g in v[l] || g == f
    ensures VersionOnDisk(tables[f.number := f.contents], w, f.number + 1)
  {
  }

  lemma BuildFlushTask(s: State, m: Memory, f: File, level: Level, w: Version)
    requires TaskContext(s, m) && m.imm.Some? && f.number == m.next && WfFile(f)
    requires SetOf(f.contents) == m.imm.value && LevelPicked(m.version, f, level)
    requires forall l: Level, g :: g in m.version[l] ==> Newer(f, g)
    requires F.Install(m.version, F.FileEdit([], [(level, f)]), w)
    ensures var t := FlushTask(m, F.FileEdit([], [(level, f)]), w, m.next + 1);
            && TaskOk(s.disk.tables[m.next := f.contents], s.disk.current, m.version, t)
            && TaskEffect(m.version, m.imm, m.logFile, m.logNumber, t)
  {
    FlushVersion(m.version, f, level, w);
    FlushOnDisk(s.disk.tables, m.version, f, w);
  }

  lemma BuildFlushPrepares(s: State, m: Memory, contents: seq<Entry>, size: nat, level: Level, w: Version, s': State,
                           t: Task)
    requires s.memory == Some(m) && BuildFlush(s, contents, size, level, w, s')
    requires t == FlushTask(m, F.FileEdit([], [(level, FlushFile(m.next, size, contents))]), w, m.next + 1)
    ensures Prepare(s, s.disk.tables[m.next := contents], m.next + 1, t, s')
    ensures WfFile(FlushFile(m.next, size, contents))
  {
  }

  lemma BuildFlushKeepsInv(s: State, contents: seq<Entry>, size: nat, level: Level, w: Version, s': State)
    requires Inv(s) && BuildFlush(s, contents, size, level, w, s')
    ensures Inv(s')
  {
    hide Inv, TaskOk, TaskEffect;
    var m := s.memory.value;
    var f := FlushFile(m.next, size, contents);
    var t := FlushTask(m, F.FileEdit([], [(level, f)]), w, m.next + 1);
    BuildFlushPrepares(s, m, contents, size, level, w, s', t);
    FlushTaskFits(s, m, f, level, w, t);
    PrepareKeepsInv(s, m, s.disk.tables[m.next := contents], m.next + 1, t, s');
  }

  lemma FlushTaskFits(s: State, m: Memory, f: File, level: Level, w: Version, t: Task)
    requires Inv(s) && s.memory == Some(m) && m.imm.Some? && f.number == m.next && WfFile(f)
    requires SetOf(f.contents) == m.imm.value && LevelPicked(m.version, f, level)
    requires F.Install(m.version, F.FileEdit([], [(level, f)]), w)
    requires t == FlushTask(m, F.FileEdit([], [(level, f)]), w, m.next + 1)
    ensures TaskOk(s.disk.tables[m.next := f.contents], s.disk.current, m.version, t)
    ensures TaskEffect(m.version, m.imm, m.logFile, m.logNumber, t)
  {
    InvTaskContext(s, m);
    ImmNewerThanFiles(s, m, f);
    BuildFlushTask(s, m, f, level, w);
  }

  lemma InstallNothing(v: Version, w: Version)
    requires F.OrderedVersion(v) && F.Install(v, F.FileEdit([], []), w)
    ensures w == v
  {
    forall l: Level ensures w[l] == v[l] { F.OrderedUnique(w[l], v[l]); }
  }

  lemma BuildEmptyFlushKeepsInv(s: State, w: Version, s': State)
    requires Inv(s) && BuildEmptyFlush(s, w, s')
    ensures Inv(s')
  {
    var m := s.memory.value;
    InvTaskContext(s, m);
    InstallNothing(m.version, w);
    PrepareKeepsInv(s, m, s'.disk.tables, m.next, s'.memory.value.job.task, s');
  }

  // ---------------------------------------------------------------- compaction

  // The oldest sequence number that some reader may still ask for.
  ghost predicate OldestSnapshot(m: Memory, x: Sequence) {
    if m.snapshots == multiset{} then x == m.last
    else x in m.snapshots && forall y :: y in m.snapshots ==> x <= y
  }

  // PickCompaction and the start of DoCompactionWork; the memtable goes first.
  ghost predicate StartCompaction(s: State, level: nat, in0: seq<File>, in1: seq<File>, snapshot: Sequence, s': State) {
    && s.memory.Some?
    && var m := s.memory.value;
       && m.job.Idle? && m.imm.None?
       && Compacting(m.version, level, in0, in1)
       && OldestSnapshot(m, snapshot)
       && s' == s.(memory := Some(m.(job := Working(level, in0, in1, snapshot))))
  }

  lemma StartCompactionKeepsInv(s: State, level: nat, in0: seq<File>, in1: seq<File>, snapshot: Sequence, s': State)
    requires Inv(s) && StartCompaction(s, level, in0, in1, snapshot, s')
    ensures Inv(s')
  {
    hide Compacting, VersionBesideLogs, Faithful, MemContents, VersionOnDisk, ManifestOk;
    var m := s.memory.value;
    assert SnapshotOk(m.snapshots, m.last, snapshot) by {
      if m.snapshots != multiset{} { assert snapshot in m.snapshots; }
    }
  }

  function NumbersOf(fs: seq<File>, level: Level): (r: seq<(Level, nat)>)
    ensures forall l: Level, n :: (l, n) in r <==> l == level && exists f :: f in fs && f.number == n
  {
    if fs == [] then []
    else
      assert forall f :: f in fs <==> f == fs[0] || f in fs[1..];
      [(level, fs[0].number)] + NumbersOf(fs[1..], level)
  }

  function AtLevel(fs: seq<File>, level: Level): (r: seq<(Level, File)>)
    ensures forall l: Level, f :: (l, f) in r <==> l == level && f in fs
  {
    if fs == [] then []
    else
      assert forall f :: f in fs <==> f == fs[0] || f in fs[1..];
      [(level, fs[0])] + AtLevel(fs[1..], level)
  }

  // AddInputDeletions and InstallCompactionResults
  function CompactionEdit(level: nat, in0: seq<File>, in1: seq<File>, outs: seq<File>): Edit
    requires level + 1 < NUM_LEVELS
  {
    F.FileEdit(NumbersOf(in0, level) + NumbersOf(in1, level + 1), AtLevel(outs, level + 1))
  }

  lemma CompactionEditReplaces(v: Version, level: nat, in0: seq<File>, in1: seq<File>, outs: seq<File>, w: Version)
    requires Compacting(v, level, in0, in1)
    requires F.Install(v, CompactionEdit(level, in0, in1, outs), w)
    ensures Replaces(v, w, FileSet(in0 + in1), level + 1, outs)
  {
    var e := CompactionEdit(level, in0, in1, outs);
    forall l: Level, f | f in v[l]
      ensures f.number in F.DeletedNumbers(e.deleted, l) <==> f in FileSet(in0 + in1)
    {
      DeletedByEdit(v, level, in0, in1, l, f);
    }
    forall l: Level, f ensures F.Adds(e, l, f) <==> l == level + 1 && f in outs {
    }
    InstallReplaces(v, e, w, FileSet(in0 + in1), level + 1, outs);
  }

  lemma DeletedByEdit(v: Version, level: nat, in0: seq<File>, in1: seq<File>, l: Level, f: File)
    requires Compacting(v, level, in0, in1) && f in v[l]
    ensures f.number in F.DeletedNumbers(NumbersOf(in0, level) + NumbersOf(in1, level + 1), l) <==>
      f in FileSet(in0 + in1)
  {
    var ds := NumbersOf(in0, level) + NumbersOf(in1, level + 1);
    if (l, f.number) in ds {
      var g :| (g in in0 || g in in1) && g.number == f.number;
      assert g in v[level] || g in v[level + 1];
      assert f == g;
    }
    if f in in0 {
      assert f in v[level] && l == level;
      assert (l, f.number) in NumbersOf(in0, level);
    } else if f in in1 {
      assert f in v[level + 1] && l == level + 1;
      assert (l, f.number) in NumbersOf(in1, level + 1);
    }
  }

  // A finished version change of a compaction at the given snapshot.
  function VersionTask(m: Memory, edit: Edit, w: Version, next: nat, snapshot: Sequence, dropped: set<Entry>): Task {
    Task(w, edit, Record(StripEdit(edit), Some(m.logNumber), Some(next), Some(m.last)), snapshot, dropped, false)
  }

  function Consecutive(next: nat, n: nat): (r: seq<nat>)
    ensures |r| == n && forall i :: 0 <= i < n ==> r[i] == next + i
  {
    seq(n, i => next + i)
  }

  function AddTables(tables: map<nat, seq<Entry>>, fs: seq<File>): map<nat, seq<Entry>> {
    if fs == [] then tables
    else AddTables(tables, fs[..|fs| - 1])[fs[|fs| - 1].number := fs[|fs| - 1].contents]
  }

  // Files with fresh numbers, in the order in which the numbers were handed out.
  ghost predicate FreshNumbers(fs: seq<File>, first: nat) {
    && (forall i :: 0 <= i < |fs| ==> fs[i].number >= first)
    && (forall i, j :: 0 <= i < j < |fs| ==> fs[i].number < fs[j].number)
  }

  lemma {:induction false} AddTablesHold(tables: map<nat, seq<Entry>>, fs: seq<File>, first: nat)
    requires FreshNumbers(fs, first)
    ensures TablesExtended(tables, first, AddTables(tables, fs))
    ensures forall f :: f in fs ==> f.number in AddTables(tables, fs) && AddTables(tables, fs)[f.number] == f.contents
  {
    if fs != [] {
      var n := |fs| - 1;
      AddTablesHold(tables, fs[..n], first);
      assert forall f :: f in fs <==> f in fs[..n] || f == fs[n];
      forall f | f in fs[..n] ensures f.number != fs[n].number {
        var i :| 0 <= i < n && fs[i] == f;
      }
    }
  }

  lemma {:induction false} FlattenMembers(outputs: seq<seq<Entry>>, e: Entry)
    ensures e in Flatten(outputs) <==> exists i :: 0 <= i < |outputs| && e in outputs[i]
  {
    if outputs != [] {
      var n := |outputs| - 1;
      FlattenMembers(outputs[..n], e);
      if e in Flatten(outputs[..n]) {
        var i :| 0 <= i < n && e in outputs[..n][i];
        assert e in outputs[i];
      }
    }
  }

  lemma OutputEntries(outputs: seq<seq<Entry>>, outs: seq<File>)
    requires |outs| == |outputs| && forall i :: 0 <= i < |outs| ==> outs[i].contents == outputs[i]
    ensures LevelEntries(outs) == SetOf(Flatten(outputs))
  {
    forall e ensures e in LevelEntries(outs) <==> e in SetOf(Flatten(outputs)) {
      FlattenMembers(outputs, e);
      if e in Flatten(outputs) {
        var i :| 0 <= i < |outputs| && e in outputs[i];
        assert e in outs[i].contents;
      }
    }
  }

  // What DoCompactionWork leaves behind for InstallCompactionResults, provided that
  // it cut its outputs between user keys.  That proviso is the one hypothesis on
  // the runs of the database: CutKeys.CutsBetweenKeysIff says which inputs
  // guarantee it, and TrivialMoves.TrivialMoveIff what goes wrong without it.
  ghost predicate Compacted(v: Version, level: nat, in0: seq<File>, in1: seq<File>, snapshot: Sequence,
                            input: seq<Entry>, outputs: seq<seq<Entry>>, outs: seq<File>, next: nat) {
    && Sorted(input) && SetOf(input) == LevelEntries(in0 + in1)
    && [] !in outputs && CutsBetweenKeys(outputs)
    && Flatten(outputs) == SurvivorSeq(input, |input|, snapshot, BaseKeys(v, level, input))
    && exists sizes :: |sizes| == |outputs| && outs == OutputFiles(outputs, Consecutive(next, |outputs|), sizes)
  }

  lemma CompactedSurvivors(v: Version, level: nat, in0: seq<File>, in1: seq<File>, snapshot: Sequence,
                           input: seq<Entry>, outputs: seq<seq<Entry>>, outs: seq<File>, next: nat)
    requires Compacted(v, level, in0, in1, snapshot, input, outputs, outs, next) && Distinct(SetOf(input))
    ensures LevelEntries(outs) == Survivors(SetOf(input), snapshot, BaseKeys(v, level, input))
    ensures AllWf(outs) && UserDisjoint(outs)
    ensures forall i :: 0 <= i < |outs| ==> outs[i].number == next + i
  {
    var sizes :| |sizes| == |outputs| && outs == OutputFiles(outputs, Consecutive(next, |outputs|), sizes);
    SurvivorSeqIsSurvivors(input, snapshot, BaseKeys(v, level, input));
    OutputEntries(outputs, outs);
    OutputFilesWf(outputs, Consecutive(next, |outputs|), sizes);
    OutputFilesDisjoint(outputs, Consecutive(next, |outputs|), sizes);
  }

  lemma CompactedOutputs(in0: seq<File>, in1: seq<File>, outs: seq<File>, next: nat)
    requires LevelEntries(outs) <= LevelEntries(in0 + in1) && AllWf(outs) && UserDisjoint(outs)
    requires forall i :: 0 <= i < |outs| ==> outs[i].number == next + i
    ensures OutputsOf(outs, in0, in1)
  {
    forall o, e | o in outs && e in o.contents ensures exists g :: g in in0 + in1 && e in g.contents {
      assert e in LevelEntries(outs);
      var j :| 0 <= j < |in0 + in1| && e in (in0 + in1)[j].contents;
      assert (in0 + in1)[j] in in0 + in1;
    }
    forall o, p | o in outs && p in outs && o != p ensures o.number != p.number && RangeDisjoint(o, p) {
      var i :| 0 <= i < |outs| && outs[i] == o;
      var j :| 0 <= j < |outs| && outs[j] == p;
    }
  }

  // The version that a compaction installs keeps the level invariant and every read.
  lemma CompactionVersion(v: Version, level: nat, in0: seq<File>, in1: seq<File>, snapshot: Sequence,
                          input: seq<Entry>, outputs: seq<seq<Entry>>, outs: seq<File>, next: nat, w: Version)
    requires Compacting(v, level, in0, in1) && NumbersBelow(v, next) && Distinct(VersionEntries(v))
    requires Compacted(v, level, in0, in1, snapshot, input, outputs, outs, next)
    requires F.Install(v, CompactionEdit(level, in0, in1, outs), w)
    ensures GoodVersion(w) && PreservesReads(v, w, snapshot)
    ensures VersionEntries(w) + (LevelEntries(in0 + in1) - LevelEntries(outs)) == VersionEntries(v)
    ensures forall l: Level, g :: g in w[l] ==> g in v[l] || g in outs
    ensures forall i :: 0 <= i < |outs| ==> outs[i].number == next + i
  {
    hide Compacting, Compacted, GoodVersion, Survivors, VersionEntries, LevelEntries, RestEntries, Read, F.Install,
         Distinct, OutputsOf, Fits;
    CompactionEditReplaces(v, level, in0, in1, outs, w);
    InputsReplaced(v, w, level, in0, in1, outs);
    assert LevelEntries(in0 + in1) <= VersionEntries(v);
    InputsDistinct(v, level, in0, in1, snapshot, input, outputs, outs, next);
    CompactedSurvivors(v, level, in0, in1, snapshot, input, outputs, outs, next);
    SurvivorsSubset(SetOf(input), snapshot, BaseKeys(v, level, input));
    CompactedOutputs(in0, in1, outs, next);
    CompactionGood(v, level, in0, in1, outs, next, w);
    forall mem: set<Entry>, k, s: Sequence |
      MemNewer(mem, VersionEntries(v)) && Distinct(VersionEntries(v) + mem) && s >= snapshot
      ensures Read(VersionEntries(w) + mem, k, s) == Read(VersionEntries(v) + mem, k, s)
    {
      CompactionPreservesReads(v, w, level, in0, in1, input, snapshot, outs, mem, k, s);
    }
  }

  lemma InputsDistinct(v: Version, level: nat, in0: seq<File>, in1: seq<File>, snapshot: Sequence,
                       input: seq<Entry>, outputs: seq<seq<Entry>>, outs: seq<File>, next: nat)
    requires Compacted(v, level, in0, in1, snapshot, input, outputs, outs, next)
    requires LevelEntries(in0 + in1) <= VersionEntries(v) && Distinct(VersionEntries(v))
    ensures Distinct(SetOf(input)) && SetOf(input) == LevelEntries(in0 + in1)
  {
    DistinctSubset(VersionEntries(v), SetOf(input));
  }

  lemma SurvivorsSubset(es: set<Entry>, snapshot: Sequence, base: set<Key>)
    ensures Survivors(es, snapshot, base) <= es
  {
  }

  lemma CompactionGood(v: Version, level: nat, in0: seq<File>, in1: seq<File>, outs: seq<File>, next: nat, w: Version)
    requires Compacting(v, level, in0, in1) && NumbersBelow(v, next) && OutputsOf(outs, in0, in1)
    requires forall i :: 0 <= i < |outs| ==> outs[i].number == next + i
    requires Replaces(v, w, FileSet(in0 + in1), level + 1, outs)
    ensures GoodVersion(w)
  {
    hide LevelsDisjoint, ZeroNewer, ShallowerNewer, NumbersUnique, OutputsOf, GoodInputs, Replaces, Fits;
    CompactionFits(v, level, in0, in1, outs);
    ReplaceKeepsGood(v, w, FileSet(in0 + in1), level + 1, outs);
  }

  ghost predicate BuildCompaction(s: State, input: seq<Entry>, outputs: seq<seq<Entry>>, outs: seq<File>, w: Version,
                                  s': State) {
    && s.memory.Some?
    && var m := s.memory.value;
       && m.job.Working? && m.job.level + 1 < NUM_LEVELS
       && Compacted(m.version, m.job.level, m.job.in0, m.job.in1, m.job.snapshot, input, outputs, outs, m.next)
       && F.Install(m.version, CompactionEdit(m.job.level, m.job.in0, m.job.in1, outs), w)
       && s' == s.(disk := s.disk.(tables := AddTables(s.disk.tables, outs)),
                   memory := Some(m.(next := m.next + |outs|, job := Ready(CompactionTask(m, outs, w)))))
  }

  ghost function CompactionTask(m: Memory, outs: seq<File>, w: Version): Task
    requires m.job.Working? && m.job.level + 1 < NUM_LEVELS
  {
    VersionTask(m, CompactionEdit(m.job.level, m.job.in0, m.job.in1, outs), w, m.next + |outs|, m.job.snapshot,
                LevelEntries(m.job.in0 + m.job.in1) - LevelEntries(outs))
  }

  lemma CompactionOnDisk(tables: map<nat, seq<Entry>>, v: Version, outs: seq<File>, next: nat, w: Version)
    requires VersionOnDisk(tables, v, next) && |w| == NUM_LEVELS
    requires forall i :: 0 <= i < |outs| ==> outs[i].number == next + i
    requires forall l: Level, g :: g in w[l] ==> g in v[l] || g in outs
    ensures VersionOnDisk(AddTables(tables, outs), w, next + |outs|)
    ensures TablesExtended(tables, next, AddTables(tables, outs))
  {
    AddTablesHold(tables, outs, next);
    StillOnDisk(tables, AddTables(tables, outs), v, next, next + |outs|);
    forall o | o in outs ensures o.number < next + |outs| {
      var i :| 0 <= i < |outs| && outs[i] == o;
    }
  }

  lemma CompactionTaskFits(s: State, m: Memory, input: seq<Entry>, outputs: seq<seq<Entry>>, outs: seq<File>,
                           w: Version)
    requires TaskContext(s, m) && m.job.Working? && Compacting(m.version, m.job.level, m.job.in0, m.job.in1)
    requires Distinct(VersionEntries(m.version)) && m.job.snapshot <= m.last
    requires Compacted(m.version, m.job.level, m.job.in0, m.job.in1, m.job.snapshot, input, outputs, outs, m.next)
    requires F.Install(m.version, CompactionEdit(m.job.level, m.job.in0, m.job.in1, outs), w)
    ensures TaskOk(AddTables(s.disk.tables, outs), s.disk.current, m.version, CompactionTask(m, outs, w))
    ensures TaskEffect(m.version, m.imm, m.logFile, m.logNumber, CompactionTask(m, outs, w))
    ensures TablesExtended(s.disk.tables, m.next, AddTables(s.disk.tables, outs))
  {
    hide Compacted, GoodVersion, GoodInputs, PreservesReads, VersionEntries, LevelEntries, CompactionEdit;
    CompactionVersion(m.version, m.job.level, m.job.in0, m.job.in1, m.job.snapshot, input, outputs, outs, m.next, w);
    CompactionOnDisk(s.disk.tables, m.version, outs, m.next, w);
  }

  lemma InvWorking(s: State, m: Memory)
    requires Inv(s) && s.memory == Some(m) && m.job.Working?
    ensures TaskContext(s, m) && Compacting(m.version, m.job.level, m.job.in0, m.job.in1)
    ensures Distinct(VersionEntries(m.version)) && SnapshotOk(m.snapshots, m.last, m.job.snapshot)
  {
    InvTaskContext(s, m);
    assert VersionEntries(m.version) <= Live(s, m);
    DistinctSubset(s.history, VersionEntries(m.version));
  }

  lemma BuildCompactionKeepsInv(s: State, input: seq<Entry>, outputs: seq<seq<Entry>>, outs: seq<File>, w: Version,
                                s': State)
    requires Inv(s) && BuildCompaction(s, input, outputs, outs, w, s')
    ensures Inv(s')
  {
    hide Inv, TaskOk, TaskEffect, Compacted, TaskContext, Compacting, F.Install;
    var m := s.memory.value;
    InvWorking(s, m);
    CompactionTaskFits(s, m, input, outputs, outs, w);
    PrepareKeepsInv(s, m, AddTables(s.disk.tables, outs), m.next + |outs|, CompactionTask(m, outs, w), s');
  }

  // A trivial move changes no entry.
  ghost predicate BuildMove(s: State, f: File, w: Version, s': State) {
    && s.memory.Some?
    && var m := s.memory.value;
       && m.job.Working? && m.job.level + 1 < NUM_LEVELS && m.job.in0 == [f] && m.job.in1 == []
       && F.Install(m.version, CompactionEdit(m.job.level, [f], [], [f]), w)
       && s' == s.(memory := Some(m.(job := Ready(MoveTask(m, f, w)))))
  }

  function MoveTask(m: Memory, f: File, w: Version): Task
    requires m.job.Working? && m.job.level + 1 < NUM_LEVELS
  {
    VersionTask(m, CompactionEdit(m.job.level, [f], [], [f]), w, m.next, 0, {})
  }

  lemma MoveVersion(v: Version, level: nat, f: File, w: Version)
    requires Compacting(v, level, [f], [])
    requires F.Install(v, CompactionEdit(level, [f], [], [f]), w)
    ensures GoodVersion(w) && VersionEntries(w) == VersionEntries(v)
    ensures forall l: Level, g :: g in w[l] ==> g in v[l] || g == f
    ensures f in v[level]
  {
    hide LevelsDisjoint, ZeroNewer, ShallowerNewer, NumbersUnique, Fits, VersionEntries, LevelEntries, RestEntries;
    CompactionEditReplaces(v, level, [f], [], [f], w);
    TrivialMoveFits(v, level, f);
    assert [f] + [] == [f] && FileSet([f]) == {f};
    ReplaceKeepsGood(v, w, {f}, level + 1, [f]);
    InputsReplaced(v, w, level, [f], [], [f]);
  }

  lemma BuildMoveFits(s: State, m: Memory, f: File, w: Version)
    requires TaskContext(s, m) && m.job.Working? && Compacting(m.version, m.job.level, [f], [])
    requires F.Install(m.version, CompactionEdit(m.job.level, [f], [], [f]), w)
    ensures TaskOk(s.disk.tables, s.disk.current, m.version, MoveTask(m, f, w))
    ensures TaskEffect(m.version, m.imm, m.logFile, m.logNumber, MoveTask(m, f, w))
  {
    hide GoodVersion, GoodInputs, VersionEntries, CompactionEdit;
    MoveVersion(m.version, m.job.level, f, w);
    MoveOnDisk(s.disk.tables, m.version, m.job.level, f, m.next, w);
  }

  lemma MoveOnDisk(tables: map<nat, seq<Entry>>, v: Version, level: Level, f: File, next: nat, w: Version)
    requires VersionOnDisk(tables, v, next) && |w| == NUM_LEVELS && f in v[level]
    requires forall l: Level, g :: g in w[l] ==> g in v[l] || g == f
    ensures VersionOnDisk(tables, w, next)
  {
  }

  lemma BuildMoveKeepsInv(s: State, f: File, w: Version, s': State)
    requires Inv(s) && BuildMove(s, f, w, s')
    ensures Inv(s')
  {
    hide Inv, TaskOk, TaskEffect, TaskContext, Compacting, F.Install;
    var m := s.memory.value;
    InvWorking(s, m);
    BuildMoveFits(s, m, f, w);
    PrepareKeepsInv(s, m, s.disk.tables, m.next, MoveTask(m, f, w), s');
  }
}
