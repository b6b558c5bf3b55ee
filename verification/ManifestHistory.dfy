/**
  The edits of the current manifest over a whole run: no level ever gets the same
  file number twice, because new files have new numbers and a moved file only
  goes to a deeper level.  So replaying the manifest with one builder, as
  VersionSet::Recover does, rebuilds the persisted version.
 */
module ManifestHistory {
  import opened Basics
  import opened Entries
  import opened Versions
  import opened Levels
  import opened CompactionReads
  import opened Storage
  import opened Database
  import opened DatabaseWrites
  import opened DatabaseVersions
  import opened DatabaseInstall
  import opened DatabaseRecovery
  import F = Files

  // ---------------------------------------------------------------- numbers in a manifest

  ghost predicate EverAdded(rs: seq<Record>, l: Level, n: nat) {
    exists i :: 0 <= i < |rs| && n in F.AddedNumbers(rs[i].edit.added, l)
  }

  ghost predicate FreshManifest(rs: seq<Record>, v: Version, next: nat) {
    && |v| == NUM_LEVELS
    && F.FreshHistory(EMPTY_VERSION, Edits(rs))
    && (forall l: Level, n: nat :: EverAdded(rs, l, n) ==> n < next)
    && (forall l: Level, m: Level, f :: f in v[l] && EverAdded(rs, m, f.number) ==> m <= l)
  }

  // The file comes from a shallower level.
  ghost predicate MovesDown(v: Version, e: Edit, l: Level, f: File)
    requires |v| == NUM_LEVELS
  {
    exists from: Level :: from < l && f in v[from] && (from, f.number) in e.deleted
  }

  ghost predicate FreshEdit(v: Version, next: nat, e: Edit, next': nat) {
    && |v| == NUM_LEVELS && next <= next' && F.AddsOnce(e)
    && (forall p, q :: p in e.added && q in e.added && p.1.number == q.1.number ==> p == q)
    && forall l: Level, f :: F.Adds(e, l, f) ==> f.number < next' && (f.number >= next || MovesDown(v, e, l, f))
  }

  lemma StripNumbers(e: Edit, l: Level)
    ensures F.AddedNumbers(StripEdit(e).added, l) == F.AddedNumbers(e.added, l)
  {
    var s := StripEdit(e).added;
    forall n | n in F.AddedNumbers(e.added, l)
      ensures n in F.AddedNumbers(s, l)
    {
      var p :| p in e.added && p.0 == l && p.1.number == n;
      var i :| 0 <= i < |e.added| && e.added[i] == p;
      assert s[i] in s && s[i].0 == l && s[i].1.number == n;
    }
    forall n | n in F.AddedNumbers(s, l)
      ensures n in F.AddedNumbers(e.added, l)
    {
      var p :| p in s && p.0 == l && p.1.number == n;
      var i :| 0 <= i < |s| && s[i] == p;
      assert e.added[i] in e.added;
    }
  }

  lemma EverAddedMore(rs: seq<Record>, r: Record, l: Level, n: nat)
    ensures EverAdded(rs + [r], l, n) <==> EverAdded(rs, l, n) || n in F.AddedNumbers(r.edit.added, l)
  {
    var more := rs + [r];
    assert more[|rs|] == r;
    if EverAdded(rs, l, n) {
      var i :| 0 <= i < |rs| && n in F.AddedNumbers(rs[i].edit.added, l);
      assert more[i] == rs[i];
    }
    if EverAdded(more, l, n) {
      var i :| 0 <= i < |more| && n in F.AddedNumbers(more[i].edit.added, l);
      if i < |rs| { assert more[i] == rs[i]; }
    }
  }

  // A number that the edit adds is new to its level.
  lemma NewToLevel(rs: seq<Record>, v: Version, next: nat, e: Edit, next': nat, l: Level, n: nat)
    requires FreshManifest(rs, v, next) && FreshEdit(v, next, e, next') && n in F.AddedNumbers(e.added, l)
    ensures n < next' && !EverAdded(rs, l, n)
  {
    hide F.FreshHistory, F.AddsOnce, EverAdded;
    var p :| p in e.added && p.0 == l && p.1.number == n;
    assert F.Adds(e, l, p.1);
    if n < next {
      var from: Level :| from < l && p.1 in v[from] && (from, p.1.number) in e.deleted;
    }
  }

  lemma FreshHistoryMore(rs: seq<Record>, v: Version, next: nat, e: Edit, next': nat, r: Record)
    requires FreshManifest(rs, v, next) && FreshEdit(v, next, e, next') && r.edit == StripEdit(e)
    ensures F.FreshHistory(EMPTY_VERSION, Edits(rs + [r]))
  {
    hide FreshManifest, FreshEdit, F.AddedNumbers;
    assert F.FreshHistory(EMPTY_VERSION, Edits(rs)) by { ManifestFresh(rs, v, next); }
    assert F.AddsOnce(r.edit) by { StripAddsOnce(v, next, e, next'); }
    var es := Edits(rs + [r]);
    assert forall i :: 0 <= i < |rs| ==> es[i] == Edits(rs)[i] == rs[i].edit;
    assert es[|rs|] == r.edit;
    forall i, l: Level | 0 <= i < |rs|
      ensures F.AddedNumbers(es[i].added, l) !! F.AddedNumbers(es[|rs|].added, l)
    {
      StripNumbers(e, l);
      forall n | n in F.AddedNumbers(e.added, l)
        ensures n !in F.AddedNumbers(rs[i].edit.added, l)
      {
        NewToLevel(rs, v, next, e, next', l, n);
      }
    }
    forall i, l: Level | 0 <= i < |es|
      ensures F.Numbers(EMPTY_VERSION[l]) !! F.AddedNumbers(es[i].added, l)
    {
      assert EMPTY_VERSION[l] == [];
    }
  }

  lemma ManifestFresh(rs: seq<Record>, v: Version, next: nat)
    requires FreshManifest(rs, v, next)
    ensures F.FreshHistory(EMPTY_VERSION, Edits(rs))
  {
  }

  lemma StripAddsOnce(v: Version, next: nat, e: Edit, next': nat)
    requires FreshEdit(v, next, e, next')
    ensures F.AddsOnce(StripEdit(e))
  {
  }

  // Installing the edit keeps every file above the levels it was ever added to.
  lemma NeverDeeper(rs: seq<Record>, v: Version, next: nat, e: Edit, next': nat, w: Version, l: Level, m: Level,
                    f: File)
    requires FreshManifest(rs, v, next) && FreshEdit(v, next, e, next') && F.Install(v, e, w)
    requires NumbersUnique(v) && NumbersBelow(v, next) && f in w[l]
    requires EverAdded(rs, m, f.number) || f.number in F.AddedNumbers(e.added, m)
    ensures m <= l
  {
    hide F.FreshHistory, F.AddsOnce, EverAdded;
    if f.number in F.AddedNumbers(e.added, m) {
      var p :| p in e.added && p.0 == m && p.1.number == f.number;
      assert F.Adds(e, m, p.1);
    } else if F.Adds(e, l, f) && f !in v[l] {
      var from: Level :| from < l && f in v[from] && (from, f.number) in e.deleted;
    }
  }

  lemma FreshAppend(rs: seq<Record>, v: Version, next: nat, e: Edit, next': nat, w: Version, r: Record)
    requires FreshManifest(rs, v, next) && FreshEdit(v, next, e, next') && F.Install(v, e, w)
    requires NumbersUnique(v) && NumbersBelow(v, next) && r.edit == StripEdit(e)
    ensures FreshManifest(rs + [r], w, next')
  {
    hide F.FreshHistory, F.AddsOnce, EverAdded, F.AddedNumbers, NumbersUnique, NumbersBelow;
    FreshHistoryMore(rs, v, next, e, next', r);
    forall l: Level, n: nat | EverAdded(rs + [r], l, n)
      ensures n < next'
    {
      EverAddedMore(rs, r, l, n);
      StripNumbers(e, l);
      if n in F.AddedNumbers(e.added, l) { NewToLevel(rs, v, next, e, next', l, n); }
    }
    forall l: Level, m: Level, f | f in w[l] && EverAdded(rs + [r], m, f.number)
      ensures m <= l
    {
      EverAddedMore(rs, r, m, f.number);
      StripNumbers(e, m);
      NeverDeeper(rs, v, next, e, next', w, l, m, f);
    }
  }

  // ---------------------------------------------------------------- over a run

  ghost predicate FreshInv(s: State) {
    var rs := RecordsOf(s.disk);
    && FreshManifest(rs, s.persisted, NextOf(rs))
    && (s.memory.Some? && s.memory.value.job.Ready? ==>
          var t := s.memory.value.job.task;
          t.record.next.Some? && FreshEdit(s.persisted, NextOf(rs), t.edit, t.record.next.value))
  }

  // Most steps leave the manifest alone and prepare no edit.
  ghost predicate Touches(a: Action) {
    || a.DoBuildFlush? || a.DoBuildEmptyFlush? || a.DoBuildCompaction? || a.DoBuildMove? || a.DoAppendRecord? ||
      a.DoOpen?
  }

  lemma StepLeavesManifest(s: State, a: Action, s': State)
    requires Inv(s) && Next(s, a, s') && !Touches(a)
    ensures RecordsOf(s'.disk) == RecordsOf(s.disk) && s'.persisted == s.persisted
    ensures s'.memory.Some? && s'.memory.value.job.Ready? ==>
              s.memory.Some? && s'.memory.value.job == s.memory.value.job
  {
    hide MemInv, GoodVersion, Faithful, LogsOrdered, VersionBesideLogs, ManifestOk, VersionOnDisk, F.Install,
         Compacting,
         IsLive, OldestSnapshot, TablesExtended, SetOf, Follows;
  }

  // New tables have the numbers from next on.
  lemma {:induction false} AtLevelIs(fs: seq<File>, level: Level)
    ensures |AtLevel(fs, level)| == |fs| && forall i :: 0 <= i < |fs| ==> AtLevel(fs, level)[i] == (level, fs[i])
  {
    if fs != [] { AtLevelIs(fs[1..], level); }
  }

  lemma NewFilesFresh(v: Version, next: nat, ds: seq<(Level, nat)>, fs: seq<File>, level: Level, first: nat, next': nat)
    requires |v| == NUM_LEVELS && FreshNumbers(fs, first) && next <= first && next <= next'
    requires forall f :: f in fs ==> f.number < next'
    ensures FreshEdit(v, next, F.FileEdit(ds, AtLevel(fs, level)), next')
  {
    AtLevelIs(fs, level);
    var e: Edit := F.FileEdit(ds, AtLevel(fs, level));
    forall p, q | p in e.added && q in e.added && p.1.number == q.1.number
      ensures p == q
    {
      var i :| 0 <= i < |fs| && e.added[i] == p;
      var j :| 0 <= j < |fs| && e.added[j] == q;
    }
  }

  lemma MoveFresh(v: Version, next: nat, level: nat, f: File, next': nat)
    requires |v| == NUM_LEVELS && level + 1 < NUM_LEVELS && f in v[level] && f.number < next <= next'
    ensures FreshEdit(v, next, CompactionEdit(level, [f], [], [f]), next')
  {
    AtLevelIs([f], level + 1);
    var from: Level := level;
    assert f in [f] && (from, f.number) in NumbersOf([f], level);
    assert (from, f.number) in CompactionEdit(level, [f], [], [f]).deleted;
  }

  lemma BuildKeepsFresh(s: State, a: Action, s': State)
    requires Inv(s) && FreshInv(s) && Next(s, a, s') && Touches(a) && !a.DoAppendRecord? && !a.DoOpen?
    ensures FreshInv(s')
  {
    hide Inv, FreshManifest, FreshEdit, BuildFlush, BuildEmptyFlush, BuildCompaction, BuildMove;
    Building(s, a, s');
    var m := s.memory.value;
    if a.DoBuildFlush? {
      BuildFlushFresh(s, m, a.contents, a.size, a.level, a.w, s');
    } else if a.DoBuildEmptyFlush? {
      BuildEmptyFlushFresh(s, m, a.w, s');
    } else if a.DoBuildCompaction? {
      BuildCompactionFresh(s, m, a.input, a.outputs, a.outs, a.w, s');
    } else {
      BuildMoveFresh(s, m, a.f, a.w, s');
    }
  }

  lemma Building(s: State, a: Action, s': State)
    requires Next(s, a, s') && Touches(a) && !a.DoOpen?
    ensures s.memory.Some?
  {
    hide F.Install, Compacted, LevelPicked;
  }

  // The state after a task was prepared.
  ghost predicate Prepared(s: State, m: Memory, s': State) {
    && s.memory == Some(m) && s'.memory.Some? && s'.memory.value.job.Ready?
    && RecordsOf(s'.disk) == RecordsOf(s.disk) && s'.persisted == s.persisted
    && var t := s'.memory.value.job.task;
       t.record.next.Some? && FreshEdit(s.persisted, NextOf(RecordsOf(s.disk)), t.edit, t.record.next.value)
  }

  lemma WorksOnPersisted(s: State, m: Memory)
    requires Inv(s) && s.memory == Some(m) && (m.job.Idle? || m.job.Working?)
    ensures s.persisted == m.version && |m.version| == NUM_LEVELS && NextOf(RecordsOf(s.disk)) <= m.next
    ensures NumbersBelow(m.version, NextOf(RecordsOf(s.disk)))
    ensures m.job.Working? ==> Compacting(m.version, m.job.level, m.job.in0, m.job.in1)
  {
    hide GoodVersion, Faithful, LogsOrdered, VersionBesideLogs, MemContents, SequencesOk, SnapshotsOk, SnapshotOk,
         Compacting;
  }

  lemma BuildFlushFresh(s: State, m: Memory, contents: seq<Entry>, size: nat, level: Level, w: Version, s': State)
    requires Inv(s) && s.memory == Some(m) && BuildFlush(s, contents, size, level, w, s')
    ensures Prepared(s, m, s')
  {
    hide Inv, FreshEdit, F.Install, LevelPicked;
    WorksOnPersisted(s, m);
    var f := FlushFile(m.next, size, contents);
    NewFilesFresh(m.version, NextOf(RecordsOf(s.disk)), [], [f], level, m.next, m.next + 1);
    AtLevelIs([f], level);
    assert AtLevel([f], level) == [(level, f)];
  }

  lemma BuildEmptyFlushFresh(s: State, m: Memory, w: Version, s': State)
    requires Inv(s) && s.memory == Some(m) && BuildEmptyFlush(s, w, s')
    ensures Prepared(s, m, s')
  {
    hide Inv, FreshEdit, F.Install;
    WorksOnPersisted(s, m);
    NewFilesFresh(m.version, NextOf(RecordsOf(s.disk)), [], [], 0, m.next, m.next);
  }

  lemma BuildCompactionFresh(s: State, m: Memory, input: seq<Entry>, outputs: seq<seq<Entry>>, outs: seq<File>,
                             w: Version,
                             s': State)
    requires Inv(s) && s.memory == Some(m) && BuildCompaction(s, input, outputs, outs, w, s')
    ensures Prepared(s, m, s')
  {
    hide Inv, FreshEdit, F.Install, Compacting, Compacted;
    WorksOnPersisted(s, m);
    OutNumbers(m, input, outputs, outs);
    NewFilesFresh(m.version, NextOf(RecordsOf(s.disk)),
      NumbersOf(m.job.in0, m.job.level) + NumbersOf(m.job.in1, m.job.level + 1),
                  outs, m.job.level + 1, m.next, m.next + |outs|);
  }

  lemma OutNumbers(m: Memory, input: seq<Entry>, outputs: seq<seq<Entry>>, outs: seq<File>)
    requires m.job.Working?
    requires Compacted(m.version, m.job.level, m.job.in0, m.job.in1, m.job.snapshot, input, outputs, outs, m.next)
    ensures FreshNumbers(outs, m.next) && forall f :: f in outs ==> f.number < m.next + |outs|
  {
    hide CutsBetweenKeys, Sorted;
  }

  lemma BuildMoveFresh(s: State, m: Memory, f: File, w: Version, s': State)
    requires Inv(s) && s.memory == Some(m) && BuildMove(s, f, w, s')
    ensures Prepared(s, m, s')
  {
    hide Inv, FreshEdit, F.Install, GoodVersion;
    WorksOnPersisted(s, m);
    var l: Level := m.job.level;
    assert f in m.job.in0 && f in m.version[l];
    MoveFresh(m.version, NextOf(RecordsOf(s.disk)), m.job.level, f, m.next);
  }

  lemma AppendKeepsFresh(s: State, s': State)
    requires Inv(s) && FreshInv(s) && AppendRecord(s, s')
    ensures FreshInv(s')
  {
    hide FreshManifest, FreshEdit, F.Install, Faithful, LogsOrdered, VersionBesideLogs, MemContents, TaskEffect,
         Persists;
    var m, rs := s.memory.value, RecordsOf(s.disk);
    var t := m.job.task;
    LastOfAppend(rs, t.record);
    assert NumbersUnique(s.persisted) && NumbersBelow(s.persisted, NextOf(rs)) by { PersistedNumbers(s); }
    FreshAppend(rs, s.persisted, NextOf(rs), t.edit, t.record.next.value, t.w, t.record);
  }

  lemma PersistedNumbers(s: State)
    requires DiskInv(s)
    ensures |s.persisted| == NUM_LEVELS && NumbersUnique(s.persisted)
    ensures NumbersBelow(s.persisted, NextOf(RecordsOf(s.disk)))
  {
  }

  // A new manifest begins with every file once.
  lemma SnapshotFresh(v: Version, r: Record, next: nat)
    requires SnapshotRecord(v, r) && NumbersUnique(v) && NumbersBelow(v, next)
    ensures FreshManifest([r], v, next)
  {
    var es := Edits([r]);
    assert es == [r.edit];
    assert forall l: Level :: EMPTY_VERSION[l] == [];
    forall l: Level, n: nat | EverAdded([r], l, n)
      ensures n < next && exists f :: f in v[l] && f.number == n
    {
      var p :| p in r.edit.added && p.0 == l && p.1.number == n;
      assert (l, p.1) in r.edit.added && p.1 in Metas(v[l]);
    }
  }

  lemma OpenKeepsFresh(s: State, fs: seq<File>, newLog: nat, last: Sequence, w: Version, snap: Record, s': State)
    requires Inv(s) && Open(s, fs, newLog, last, w, snap, s')
    ensures FreshInv(s')
  {
    hide FreshManifest, FreshEdit, F.Install, SnapshotRecord, AddTables, MemInv, DiskInv, LastSequenceRecovered,
         AllWf, LevelEntries;
    var next := NextOf(RecordsOf(s.disk));
    var edit: Edit := F.FileEdit([], AtLevel(fs, 0));
    var record := Record(StripEdit(edit), Some(newLog), Some(newLog + 1), Some(last));
    PersistedNumbers(s);
    assert NumbersBelow(s.persisted, next + 1);
    SnapshotFresh(s.persisted, snap, next + 1);
    NewFilesFresh(s.persisted, next + 1, [], fs, 0, next + 1, newLog + 1);
    FreshAppend([snap], s.persisted, next + 1, edit, newLog + 1, w, record);
    assert RecordsOf(s'.disk) == [snap] + [record];
    LastOfAppend([snap], record);
  }

  lemma InitFresh(s: State)
    requires Init(s)
    ensures FreshInv(s)
  {
    var r := Record(F.FileEdit([], []), Some(0), Some(2), Some(0));
    assert RecordsOf(s.disk) == [r] && Edits([r]) == [r.edit];
    assert forall l: Level :: s.persisted[l] == [] && EMPTY_VERSION[l] == [];
  }

  lemma NextKeepsFresh(s: State, a: Action, s': State)
    requires Inv(s) && FreshInv(s) && Next(s, a, s')
    ensures FreshInv(s')
  {
    hide Inv, Next, FreshManifest, FreshEdit;
    if !Touches(a) {
      StepLeavesManifest(s, a, s');
    } else if a.DoAppendRecord? {
      assert AppendRecord(s, s') by { assert Next(s, a, s'); StepIsAppend(s, a, s'); }
      AppendKeepsFresh(s, s');
    } else if a.DoOpen? {
      StepIsOpen(s, a, s');
      OpenKeepsFresh(s, a.fs, a.newLog, a.last, a.w, a.snap, s');
    } else {
      BuildKeepsFresh(s, a, s');
    }
  }

  lemma StepIsAppend(s: State, a: Action, s': State)
    requires Next(s, a, s') && a.DoAppendRecord?
    ensures AppendRecord(s, s')
  {
  }

  lemma StepIsOpen(s: State, a: Action, s': State)
    requires Next(s, a, s') && a.DoOpen?
    ensures Open(s, a.fs, a.newLog, a.last, a.w, a.snap, s')
  {
    hide Open;
  }

  lemma {:induction false} RunKeepsFresh(states: seq<State>, actions: seq<Action>, i: nat)
    requires Run(states, actions) && i < |states|
    ensures FreshInv(states[i])
  {
    hide Inv, Next, FreshInv, Init;
    if i == 0 {
      InitFresh(states[0]);
    } else {
      RunKeepsFresh(states, actions, i - 1);
      RunKeepsInv(states, actions, i - 1);
      NextKeepsFresh(states[i - 1], actions[i - 1], states[i]);
    }
  }
}
