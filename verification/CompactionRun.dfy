/**
  A whole compaction of a running database (DBImpl::BackgroundCompaction in
  db/db_impl.cc): choose the inputs, move the file or merge and write, and hand the
  edit over.
 */
module CompactionRun {
  import opened Basics
  import opened Entries
  import opened Versions
  import opened Inputs
  import opened Levels
  import opened Outputs
  import C = Compaction
  import opened CompactionReads
  import opened Database
  import opened DatabaseVersions
  import opened ManifestHistory
  import opened Engine
  import F = Files

  // ---------------------------------------------------------------- the input in order

  ghost predicate Apart(a: seq<Entry>, b: seq<Entry>) {
    forall e, f :: e in a && f in b ==> ILess(e.ik, f.ik) || ILess(f.ik, e.ik)
  }

  // What the merging iterator of two sorted inputs goes through.
  function MergeTwo(a: seq<Entry>, b: seq<Entry>): seq<Entry> {
    if a == [] then b
    else if b == [] then a
    else if ILess(a[0].ik, b[0].ik) then [a[0]] + MergeTwo(a[1..], b)
    else [b[0]] + MergeTwo(a, b[1..])
  }

  lemma {:induction false} MergeTwoIs(a: seq<Entry>, b: seq<Entry>)
    requires Sorted(a) && Sorted(b) && Apart(a, b)
    ensures Sorted(MergeTwo(a, b)) && forall e :: e in MergeTwo(a, b) <==> e in a || e in b
  {
    if a != [] && b != [] {
      assert a[0] in a && b[0] in b;
      if ILess(a[0].ik, b[0].ik) {
        MergeTwoIs(a[1..], b);
        HeadFirst(a, b, MergeTwo(a[1..], b));
      } else {
        MergeTwoIs(a, b[1..]);
        HeadFirst(b, a, MergeTwo(a, b[1..]));
      }
    }
  }

  lemma HeadFirst(a: seq<Entry>, b: seq<Entry>, rest: seq<Entry>)
    requires a != [] && Sorted(a) && Sorted(b) && Sorted(rest) && (b != [] ==> ILess(a[0].ik, b[0].ik))
    requires forall e :: e in rest <==> e in a[1..] || e in b
    ensures Sorted([a[0]] + rest) && forall e :: e in [a[0]] + rest <==> e in a || e in b
  {
    assert a == [a[0]] + a[1..];
    forall j | 0 <= j < |rest|
      ensures ILess(a[0].ik, rest[j].ik)
    {
      assert rest[j] in rest;
      if rest[j] in a[1..] {
        var i :| 0 <= i < |a[1..]| && a[1..][i] == rest[j];
        assert a[i + 1] == rest[j];
      }
    }
  }

  ghost predicate PairwiseApart(fs: seq<File>) {
    forall i, j :: 0 <= i < j < |fs| ==> Apart(fs[i].contents, fs[j].contents)
  }

  // VersionSet::MakeInputIterator, walked from end to end.
  method MergeFiles(fs: seq<File>) returns (input: seq<Entry>)
    requires AllWf(fs) && PairwiseApart(fs)
    ensures Sorted(input) && SetOf(input) == LevelEntries(fs)
  {
    hide Apart, Sorted;
    input := [];
    assert Sorted(input) && LevelEntries(fs[..0]) == {} by { NoneSorted(); }
    for i := 0 to |fs|
      invariant Sorted(input) && SetOf(input) == LevelEntries(fs[..i])
    {
      ApartFromFirst(fs, i, input);
      MergeTwoIs(input, fs[i].contents);
      input := MergeTwo(input, fs[i].contents);
      EntriesMore(fs, i);
    }
    assert fs[..|fs|] == fs;
  }

  lemma NoneSorted()
    ensures Sorted([]) && SetOf([]) == {}
  {
  }

  lemma EntriesMore(fs: seq<File>, i: nat)
    requires i < |fs|
    ensures LevelEntries(fs[..i + 1]) == LevelEntries(fs[..i]) + SetOf(fs[i].contents)
  {
    var (a, b) := (fs[..i], fs[..i + 1]);
    forall e | e in LevelEntries(a) ensures e in LevelEntries(b) {
      var j :| 0 <= j < |a| && e in a[j].contents;
      assert e in b[j].contents;
    }
    forall e | e in SetOf(fs[i].contents) ensures e in LevelEntries(b) {
      assert e in b[i].contents;
    }
  }

  lemma ApartFromFirst(fs: seq<File>, i: nat, input: seq<Entry>)
    requires i < |fs| && PairwiseApart(fs) && SetOf(input) == LevelEntries(fs[..i]) && AllWf(fs)
    ensures Apart(input, fs[i].contents) && Sorted(fs[i].contents)
  {
    forall e, f | e in input && f in fs[i].contents
      ensures ILess(e.ik, f.ik) || ILess(f.ik, e.ik)
    {
      assert e in SetOf(input);
      var j :| 0 <= j < i && e in fs[..i][j].contents;
      assert Apart(fs[j].contents, fs[i].contents);
    }
  }

  // ---------------------------------------------------------------- the input files

  // Files of a good version share no internal key.
  lemma FilesApart(v: Version, l: Level, m: Level, f: File, g: File)
    requires GoodVersion(v) && f in v[l] && g in v[m] && (l != m || f != g)
    ensures Apart(f.contents, g.contents)
  {
    if l < m {
      NewerApart(f, g);
    } else if m < l {
      NewerApart(g, f);
    } else if l == 0 {
      assert f.number != g.number;
      if f.number > g.number { NewerApart(f, g); } else { NewerApart(g, f); }
    } else {
      FileBounds(f);
      FileBounds(g);
      DisjointNewer(f, g);
      NewerApart(f, g);
    }
  }

  lemma NewerApart(f: File, g: File)
    requires Newer(f, g)
    ensures Apart(f.contents, g.contents) && Apart(g.contents, f.contents)
  {
  }

  // No file is listed twice.
  ghost predicate Once(fs: seq<File>) {
    forall i, j :: 0 <= i < j < |fs| ==> fs[i] != fs[j]
  }

  lemma OrderedOnce(fs: seq<File>)
    requires F.Ordered(fs)
    ensures Once(fs)
  {
    forall i, j | 0 <= i < j < |fs| ensures fs[i] != fs[j] {
      assert F.Before(fs[i], fs[j]);
    }
  }

  lemma {:induction false} OverlappingOnce(fs: seq<File>, r: Range)
    requires Once(fs)
    ensures Once(Overlapping(fs, r))
  {
    if fs != [] {
      var n := |fs| - 1;
      OverlappingOnce(fs[..n], r);
      forall i | 0 <= i < |Overlapping(fs[..n], r)| ensures Overlapping(fs[..n], r)[i] != fs[n] {
        assert Overlapping(fs[..n], r)[i] in fs[..n];
      }
    }
  }

  lemma InputsApart(v: Version, level: nat, in0: seq<File>, in1: seq<File>)
    requires |v| == NUM_LEVELS && GoodVersion(v) && level + 1 < NUM_LEVELS
    requires GoodInputs(v, level, in0, in1) && Once(in0) && Once(in1)
    ensures AllWf(in0 + in1) && PairwiseApart(in0 + in1)
  {
    hide GoodVersion, Apart, Separated, Spans;
    var fs := in0 + in1;
    var (l0: Level, l1: Level) := (level, level + 1);
    forall i | 0 <= i < |fs|
      ensures WfFile(fs[i]) && fs[i] in v[if i < |in0| then l0 else l1]
    {
      if i < |in0| { assert fs[i] in in0; } else { assert fs[i] in in1; }
      GoodFile(v, if i < |in0| then l0 else l1, fs[i]);
    }
    forall i, j | 0 <= i < j < |fs|
      ensures Apart(fs[i].contents, fs[j].contents)
    {
      assert j < |in0| ==> in0[i] != in0[j];
      assert i >= |in0| ==> in1[i - |in0|] != in1[j - |in0|];
      FilesApart(v, if i < |in0| then l0 else l1, if j < |in0| then l0 else l1, fs[i], fs[j]);
    }
  }

  lemma GoodFile(v: Version, l: Level, f: File)
    requires GoodVersion(v) && f in v[l]
    ensures WfFile(f)
  {
  }

  lemma SetUpOnce(v: Version, level: nat, inputs: seq<File>, in0: seq<File>, in1: seq<File>)
    requires |v| == NUM_LEVELS && level + 1 < NUM_LEVELS && SetUp(v, level, inputs, in0, in1)
    requires Once(inputs) && Once(v[level]) && Once(v[level + 1])
    ensures Once(in0) && Once(in1)
  {
    hide Overlapping, Spans, Once, LeastClosed, TotalFileSize;
    assert Once([]) by { NoneOnce(); }
    var span :| Spans(inputs, span) && (
      var overlaps := Overlapping(v[level + 1], span);
      if overlaps == [] then in0 == inputs && in1 == []
      else Chosen(v[level], v[level + 1], level, inputs, overlaps, in0, in1));
    OverlappingOnce(v[level + 1], span);
    var overlaps := Overlapping(v[level + 1], span);
    if overlaps != [] && Expands(v[level], v[level + 1], level, inputs, overlaps, in0, in1) {
      var all :| Spans(inputs + overlaps, all) && CoveredBy(level, v[level], all, in0);
      CoveredOnce(level, v[level], all, in0);
      var r :| Spans(in0, r) && in1 == Overlapping(v[level + 1], r);
      OverlappingOnce(v[level + 1], r);
    }
  }

  lemma NoneOnce()
    ensures Once([])
  {
  }

  lemma CoveredOnce(level: nat, fs: seq<File>, given: Range, files: seq<File>)
    requires CoveredBy(level, fs, given, files) && Once(fs)
    ensures Once(files)
  {
    hide Overlapping, LeastClosed, Once;
    var q :| (if level == 0 then LeastClosed(fs, given, q) else q == given) && files == Overlapping(fs, q);
    OverlappingOnce(fs, q);
  }

  // ---------------------------------------------------------------- the compaction

  // PickCompaction for a picked file, and the files' entries in order.
  method ChooseInputs(v: Version, level: nat, picked: File)
    returns (in0: seq<File>, in1: seq<File>, grandparents: seq<File>, input: seq<Entry>)
    requires |v| == NUM_LEVELS && GoodVersion(v) && level + 1 < NUM_LEVELS && picked in v[level]
    ensures Compacting(v, level, in0, in1) && picked in in0
    ensures Sorted(input) && SetOf(input) == LevelEntries(in0 + in1)
  {
    hide LevelsDisjoint, ZeroNewer, ShallowerNewer, FilesWf, NumbersUnique, SetUp, GoodInputs, SortedLevels,
         UserDisjointLevels, LevelZeroOrdered, ShallowNewer, CoveredBy, GrandparentsOf, Once, PairwiseApart, AllWf;
    GoodIsWf(v);
    in0, in1, grandparents := PickInputs(v, level, picked);
    ghost var inputs :| SetUp(v, level, inputs, in0, in1) &&
                        (if level == 0 then CoveredBy(0, v[0], FileRange(picked), inputs) else inputs == [picked]);
    var (l0: Level, l1: Level) := (level, level + 1);
    OrderedOnce(v[l0]);
    OrderedOnce(v[l1]);
    if level == 0 { CoveredOnce(0, v[0], FileRange(picked), inputs); } else { OneOnce(picked); }
    SetUpOnce(v, level, inputs, in0, in1);
    InputsApart(v, level, in0, in1);
    input := MergeFiles(in0 + in1);
  }

  lemma OneOnce(f: File)
    ensures Once([f])
  {
  }

  // One background compaction of a picked file: outs and w are the files written
  // and the new version.  It gives up only if the outputs were cut inside a user key.
  method Compact(s: State, level: nat, picked: File, snapshot: Sequence, fileSize: seq<Entry> -> nat)
    returns (done: bool, outs: seq<File>, w: Version, ghost in0: seq<File>, ghost in1: seq<File>, ghost s1: State,
             ghost s2: State)
    requires Inv(s) && s.memory.Some? && s.memory.value.job.Idle? && s.memory.value.imm.None?
    requires level + 1 < NUM_LEVELS && |s.memory.value.version| == NUM_LEVELS
    requires picked in s.memory.value.version[level]
    requires OldestSnapshot(s.memory.value, snapshot) && snapshot < MAX_SEQUENCE
    ensures StartCompaction(s, level, in0, in1, snapshot, s1) && Inv(s1) && picked in in0
    ensures done ==> Inv(s2) && Carries(s1, outs, w, s2)
    ensures !done ==> CutInside(s.memory.value.version, level, in0, in1, snapshot)
  {
    hide Inv, GoodVersion, Compacting, StartCompaction, Carries, Sorted, SetOf, LevelEntries,
         OldestSnapshot, C.SurvivorSeq, C.BaseKeys, CutsBetweenKeys, F.Install, SortedLevels, UserDisjointLevels,
         WellCut;
    var m := s.memory.value;
    IdleVersion(s, m);
    var files0, files1, grandparents, input := ChooseInputs(m.version, level, picked);
    in0, in1 := files0, files1;
    s1 := s.(memory := Some(m.(job := Working(level, files0, files1, snapshot))));
    Starts(s, m, level, in0, in1, snapshot, s1);
    s2, outs, w := s1, [], m.version;
    if IsTrivialMove(files0, files1, grandparents) {
      assert files0 == [files0[0]] && files1 == [];
      done, outs := true, files0;
      w, s2 := Move(s1, m.version, level, files0[0]);
    } else {
      var c := new C.Compaction(level, m.version, grandparents);
      var outputs := C.DoCompactionWork(c, input, snapshot, fileSize);
      done := CutsBetweenKeys(outputs);
      if done {
        outs, w, s2 := Write(s1, m.version, m.next, level, files0, files1, snapshot, input, outputs, fileSize);
      } else {
        assert CutInside(m.version, level, in0, in1, snapshot);
      }
    }
  }

  // The job ends as a move or as a merge.
  ghost predicate Carries(s: State, outs: seq<File>, w: Version, s': State) {
    || (|outs| == 1 && BuildMove(s, outs[0], w, s'))
    || exists input, outputs :: BuildCompaction(s, input, outputs, outs, w, s')
  }

  ghost predicate CutInside(v: Version, level: nat, in0: seq<File>, in1: seq<File>, snapshot: Sequence) {
    exists input, outputs ::
      && Sorted(input) && SetOf(input) == LevelEntries(in0 + in1)
      && Flatten(outputs) == C.SurvivorSeq(input, |input|, snapshot, C.BaseKeys(v, level, input))
      && [] !in outputs && !CutsBetweenKeys(outputs)
  }

  lemma Starts(s: State, m: Memory, level: nat, in0: seq<File>, in1: seq<File>, snapshot: Sequence, s1: State)
    requires Inv(s) && s.memory == Some(m) && m.job.Idle? && m.imm.None?
    requires Compacting(m.version, level, in0, in1) && OldestSnapshot(m, snapshot)
    requires s1 == s.(memory := Some(m.(job := Working(level, in0, in1, snapshot))))
    ensures StartCompaction(s, level, in0, in1, snapshot, s1) && Inv(s1)
  {
    hide Inv, Compacting, OldestSnapshot;
    StartCompactionKeepsInv(s, level, in0, in1, snapshot, s1);
  }

  method Move(ghost s: State, v: Version, level: nat, f: File) returns (w: Version, ghost s': State)
    requires Inv(s) && s.memory.Some? && s.memory.value.job.Working? && s.memory.value.version == v
    requires var job := s.memory.value.job; job.in0 == [f] && job.in1 == [] && job.level == level
    requires level + 1 < NUM_LEVELS && Compacting(v, level, [f], [])
    ensures Inv(s') && Carries(s, [f], w, s')
  {
    hide Inv, F.Install, GoodVersion, FreshEdit, F.OrderedVersion, F.FreshHistory, CompactionEdit;
    ghost var m := s.memory.value;
    MoveEditFresh(s, m, f);
    w := F.InstallEdit(v, CompactionEdit(level, [f], [], [f]));
    s' := s.(memory := Some(m.(job := Ready(MoveTask(m, f, w)))));
    assert BuildMove(s, f, w, s');
    BuildMoveKeepsInv(s, f, w, s');
  }

  lemma MoveEditFresh(s: State, m: Memory, f: File)
    requires Inv(s) && s.memory == Some(m) && m.job.Working? && m.job.level + 1 < NUM_LEVELS
    requires Compacting(m.version, m.job.level, [f], [])
    ensures F.OrderedVersion(m.version)
    ensures F.FreshHistory(m.version, [CompactionEdit(m.job.level, [f], [], [f])])
  {
    hide Inv, FreshEdit, F.FreshHistory;
    IdleVersion(s, m);
    var (l: Level, next) := (m.job.level, NextOf(RecordsOf(s.disk)));
    assert f in [f] && f in m.version[l];
    MoveFresh(m.version, next, m.job.level, f, m.next);
    FreshForInstall(m.version, next, CompactionEdit(m.job.level, [f], [], [f]), m.next);
  }

  // The sizes of the files are those that the builder reports.
  method Write(ghost s: State, v: Version, next: nat, level: nat, in0: seq<File>, in1: seq<File>, snapshot: Sequence,
               input: seq<Entry>, outputs: seq<seq<Entry>>, fileSize: seq<Entry> -> nat)
    returns (outs: seq<File>, w: Version, ghost s': State)
    requires Inv(s) && s.memory.Some? && s.memory.value.version == v && s.memory.value.next == next
    requires s.memory.value.job == Working(level, in0, in1, snapshot) && level + 1 < NUM_LEVELS
    requires Sorted(input) && SetOf(input) == LevelEntries(in0 + in1)
    requires [] !in outputs && CutsBetweenKeys(outputs)
    requires Flatten(outputs) == C.SurvivorSeq(input, |input|, snapshot, C.BaseKeys(v, level, input))
    ensures Inv(s') && Carries(s, outs, w, s')
  {
    hide Inv, F.Install, GoodVersion, Compacting, Sorted, SetOf, LevelEntries, CutsBetweenKeys, C.SurvivorSeq,
         C.BaseKeys, CompactionEdit, F.OrderedVersion, F.FreshHistory, AddTables, Compacted, Flatten;
    ghost var m := s.memory.value;
    var sizes := seq(|outputs|, i requires 0 <= i < |outputs| => fileSize(outputs[i]));
    outs := OutputFiles(outputs, Consecutive(next, |outputs|), sizes);
    IsCompacted(v, level, in0, in1, snapshot, input, outputs, sizes, outs, next);
    WriteEditFresh(s, m, input, outputs, outs);
    w := F.InstallEdit(v, CompactionEdit(level, in0, in1, outs));
    s' := s.(disk := s.disk.(tables := AddTables(s.disk.tables, outs)),
             memory := Some(m.(next := next + |outs|, job := Ready(CompactionTask(m, outs, w)))));
    assert BuildCompaction(s, input, outputs, outs, w, s');
    BuildCompactionKeepsInv(s, input, outputs, outs, w, s');
  }

  lemma IsCompacted(v: Version, level: nat, in0: seq<File>, in1: seq<File>, snapshot: Sequence, input: seq<Entry>,
                    outputs: seq<seq<Entry>>, sizes: seq<nat>, outs: seq<File>, next: nat)
    requires Sorted(input) && SetOf(input) == LevelEntries(in0 + in1) && [] !in outputs && CutsBetweenKeys(outputs)
    requires Flatten(outputs) == C.SurvivorSeq(input, |input|, snapshot, C.BaseKeys(v, level, input))
    requires |sizes| == |outputs| && outs == OutputFiles(outputs, Consecutive(next, |outputs|), sizes)
    ensures Compacted(v, level, in0, in1, snapshot, input, outputs, outs, next)
  {
    hide Sorted, SetOf, LevelEntries, CutsBetweenKeys, C.SurvivorSeq, C.BaseKeys, Flatten;
  }

  lemma WriteEditFresh(s: State, m: Memory, input: seq<Entry>, outputs: seq<seq<Entry>>, outs: seq<File>)
    requires Inv(s) && s.memory == Some(m) && m.job.Working? && m.job.level + 1 < NUM_LEVELS
    requires Compacted(m.version, m.job.level, m.job.in0, m.job.in1, m.job.snapshot, input, outputs, outs, m.next)
    ensures F.OrderedVersion(m.version)
    ensures F.FreshHistory(m.version, [CompactionEdit(m.job.level, m.job.in0, m.job.in1, outs)])
  {
    hide Inv, FreshEdit, F.FreshHistory, Compacted;
    IdleVersion(s, m);
    var next := NextOf(RecordsOf(s.disk));
    OutNumbers(m, input, outputs, outs);
    NewFilesFresh(m.version, next, NumbersOf(m.job.in0, m.job.level) + NumbersOf(m.job.in1, m.job.level + 1), outs,
                  m.job.level + 1, m.next, m.next + |outs|);
    FreshForInstall(m.version, next, CompactionEdit(m.job.level, m.job.in0, m.job.in1, outs), m.next + |outs|);
  }
}
