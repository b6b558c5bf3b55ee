/**
  The level invariant and the three ways a new version is installed: a flushed
  memtable, a compaction, and a trivial move (db/db_impl.cc).
 */
module Levels {
  import opened Basics
  import opened Entries
  import opened Versions
  import opened Inputs
  import F = Files

  type Level = F.Level

  ghost predicate FilesWf(v: Version)
    requires |v| == NUM_LEVELS
  {
    forall l: Level, f :: f in v[l] ==> WfFile(f)
  }

  ghost predicate LevelsDisjoint(v: Version)
    requires |v| == NUM_LEVELS
  {
    forall l: Level, f, g :: l >= 1 && f in v[l] && g in v[l] && f != g ==> RangeDisjoint(f, g)
  }

  ghost predicate ZeroNewer(v: Version)
    requires |v| == NUM_LEVELS
  {
    forall f, g :: f in v[0] && g in v[0] && f.number > g.number ==> Newer(f, g)
  }

  ghost predicate ShallowerNewer(v: Version)
    requires |v| == NUM_LEVELS
  {
    forall l: Level, m: Level, f, g :: l < m && f in v[l] && g in v[m] ==> Newer(f, g)
  }

  ghost predicate NumbersUnique(v: Version)
    requires |v| == NUM_LEVELS
  {
    forall l: Level, m: Level, f, g :: f in v[l] && g in v[m] && f.number == g.number ==> l == m && f == g
  }

  // The invariant of every installed version.
  ghost predicate GoodVersion(v: Version) {
    && F.OrderedVersion(v)
    && FilesWf(v)
    && LevelsDisjoint(v)
    && ZeroNewer(v)
    && ShallowerNewer(v)
    && NumbersUnique(v)
  }

  lemma OrderedDisjoint(fs: seq<File>)
    requires F.Ordered(fs) && AllWf(fs)
    requires forall f, g :: f in fs && g in fs && f != g ==> RangeDisjoint(f, g)
    ensures UserDisjoint(fs) && LevelSorted(fs)
  {
    forall i, j | 0 <= i < j < |fs| ensures fs[i].largest.key < fs[j].smallest.key {
      assert F.Before(fs[i], fs[j]);
      FileBounds(fs[j]);
      assert RangeDisjoint(fs[i], fs[j]);
    }
  }

  // The invariant gives everything that lookups and input selection rely on.
  lemma GoodIsWf(v: Version)
    requires GoodVersion(v)
    ensures WfVersion(v) && UserDisjointLevels(v)
  {
    hide Newer, WfFile;
    GoodLevels(v);
    GoodZero(v);
    forall l, m, i, j | 0 <= l < m < |v| && 0 <= i < |v[l]| && 0 <= j < |v[m]| ensures Newer(v[l][i], v[m][j]) {
      assert v[l][i] in v[l] && v[m][j] in v[m];
    }
  }

  lemma GoodLevels(v: Version)
    requires GoodVersion(v)
    ensures forall l :: 1 <= l < |v| ==> UserDisjoint(v[l]) && LevelSorted(v[l])
  {
    hide Newer, WfFile;
    forall l | 1 <= l < |v| ensures UserDisjoint(v[l]) && LevelSorted(v[l]) {
      OrderedDisjoint(v[l]);
    }
  }

  lemma GoodZero(v: Version)
    requires GoodVersion(v)
    ensures forall i, j :: 0 <= i < j < |v[0]| ==> v[0][i].number != v[0][j].number
  {
    hide Newer, WfFile;
    forall i, j | 0 <= i < j < |v[0]| ensures v[0][i].number != v[0][j].number {
      assert F.Before(v[0][i], v[0][j]);
    }
  }

  // ---------------------------------------------------------------- replacing files

  // w is v without the files of removed and with the files of outs at level t.
  ghost predicate Replaces(v: Version, w: Version, removed: set<File>, t: Level, outs: seq<File>)
    requires |v| == NUM_LEVELS
  {
    && F.OrderedVersion(w)
    && forall l: Level, f :: f in w[l] <==> (f in v[l] && f !in removed) || (l == t && f in outs)
  }

  // What makes outs fit at level t beside the files that stay.
  ghost predicate Fits(v: Version, removed: set<File>, t: Level, outs: seq<File>)
    requires |v| == NUM_LEVELS
  {
    && FitTogether(t, outs)
    && FitNumbers(v, removed, outs)
    && FitBelow(v, removed, t, outs)
    && FitAbove(v, removed, t, outs)
    && FitBeside(v[t], removed, t, outs)
  }

  ghost predicate FitTogether(t: Level, outs: seq<File>) {
    && (forall o :: o in outs ==> WfFile(o))
    && (forall o, p :: o in outs && p in outs && o != p ==>
          o.number != p.number && (if t == 0 then o.number > p.number ==> Newer(o, p) else RangeDisjoint(o, p)))
  }

  ghost predicate FitNumbers(v: Version, removed: set<File>, outs: seq<File>)
    requires |v| == NUM_LEVELS
  {
    forall l: Level, o, g :: o in outs && g in v[l] && g !in removed ==> o.number != g.number
  }

  // Files of shallower levels are newer, files of deeper levels older.
  ghost predicate FitBelow(v: Version, removed: set<File>, t: Level, outs: seq<File>)
    requires |v| == NUM_LEVELS
  {
    forall l: Level, o, g :: l < t && o in outs && g in v[l] && g !in removed ==> Newer(g, o)
  }

  ghost predicate FitAbove(v: Version, removed: set<File>, t: Level, outs: seq<File>)
    requires |v| == NUM_LEVELS
  {
    forall l: Level, o, g :: l > t && o in outs && g in v[l] && g !in removed ==> Newer(o, g)
  }

  ghost predicate FitBeside(fs: seq<File>, removed: set<File>, t: Level, outs: seq<File>) {
    forall o, g :: o in outs && g in fs && g !in removed ==>
      if t == 0 then o.number > g.number && Newer(o, g) else RangeDisjoint(o, g)
  }

  lemma ReplaceKeepsGood(v: Version, w: Version, removed: set<File>, t: Level, outs: seq<File>)
    requires GoodVersion(v) && Replaces(v, w, removed, t, outs) && Fits(v, removed, t, outs)
    ensures GoodVersion(w)
  {
    ReplaceDisjoint(v, w, removed, t, outs);
    ReplaceShallower(v, w, removed, t, outs);
    ReplaceUnique(v, w, removed, t, outs);
  }

  lemma ReplaceDisjoint(v: Version, w: Version, removed: set<File>, t: Level, outs: seq<File>)
    requires |v| == NUM_LEVELS && LevelsDisjoint(v) && ZeroNewer(v)
    requires Replaces(v, w, removed, t, outs) && Fits(v, removed, t, outs)
    ensures LevelsDisjoint(w) && ZeroNewer(w)
  {
  }

  lemma ReplaceShallower(v: Version, w: Version, removed: set<File>, t: Level, outs: seq<File>)
    requires |v| == NUM_LEVELS && ShallowerNewer(v)
    requires Replaces(v, w, removed, t, outs) && Fits(v, removed, t, outs)
    ensures ShallowerNewer(w)
  {
    forall l: Level, m: Level, f, g | l < m && f in w[l] && g in w[m] ensures Newer(f, g) {
      hide Newer, FitBeside, FitNumbers, FitTogether;
      assert (f in v[l] && f !in removed) || (l == t && f in outs);
      assert (g in v[m] && g !in removed) || (m == t && g in outs);
    }
  }

  lemma ReplaceUnique(v: Version, w: Version, removed: set<File>, t: Level, outs: seq<File>)
    requires |v| == NUM_LEVELS && NumbersUnique(v)
    requires Replaces(v, w, removed, t, outs) && Fits(v, removed, t, outs)
    ensures NumbersUnique(w)
  {
  }

  // An edit that deletes the files of removed and adds outs at level t.
  lemma InstallReplaces(v: Version, e: F.FileEdit<seq<Entry>>, w: Version, removed: set<File>, t: Level,
                        outs: seq<File>)
    requires F.Install(v, e, w)
    requires forall l: Level, f :: f in v[l] ==> (f.number in F.DeletedNumbers(e.deleted, l) <==> f in removed)
    requires forall l: Level, f :: F.Adds(e, l, f) <==> l == t && f in outs
    ensures Replaces(v, w, removed, t, outs)
  {
  }

  lemma DisjointNewer(f: File, g: File)
    requires WfFile(f) && WfFile(g) && RangeDisjoint(f, g)
    ensures Newer(f, g) && Newer(g, f)
  {
    FileBounds(f);
    FileBounds(g);
  }

  // ---------------------------------------------------------------- flush

  // A table that is newer than every file of the version fits at the level that
  // PickLevelForMemTableOutput chooses.
  lemma FlushFits(v: Version, level: Level, f: File)
    requires |v| == NUM_LEVELS && FilesWf(v) && WfFile(f)
    requires forall l: Level, g :: g in v[l] ==> Newer(f, g) && f.number > g.number
    requires level > 0 ==>
               forall l :: 0 <= l <= level ==> !SomeOverlap(v[l], Range(Some(f.smallest.key), Some(f.largest.key)))
    ensures Fits(v, {}, level, [f])
  {
    forall l: Level, g | 0 < level && l <= level && g in v[l] ensures RangeDisjoint(f, g) && Newer(g, f) {
      assert !Overlaps(g, Range(Some(f.smallest.key), Some(f.largest.key)));
      DisjointNewer(f, g);
    }
  }

  // ---------------------------------------------------------------- compaction

  // Files built from the entries of the inputs, no user key in two of them.
  ghost predicate OutputsOf(outs: seq<File>, in0: seq<File>, in1: seq<File>) {
    && (forall o :: o in outs ==> WfFile(o) && FromInputs(o, in0, in1))
    && (forall o, p :: o in outs && p in outs && o != p ==> o.number != p.number && RangeDisjoint(o, p))
  }

  ghost predicate FromInputs(o: File, in0: seq<File>, in1: seq<File>) {
    forall e :: e in o.contents ==> exists g :: g in in0 + in1 && e in g.contents
  }

  ghost function FileSet(fs: seq<File>): set<File> {
    set f | f in fs
  }

  lemma CompactionFits(v: Version, level: nat, in0: seq<File>, in1: seq<File>, outs: seq<File>)
    requires GoodVersion(v) && level + 1 < NUM_LEVELS
    requires GoodInputs(v, level, in0, in1) && OutputsOf(outs, in0, in1)
    requires forall l: Level, o, g :: o in outs && g in v[l] ==> o.number != g.number
    ensures Fits(v, FileSet(in0 + in1), level + 1, outs)
  {
    CompactionFitsAround(v, level, in0, in1, outs);
    CompactionFitsBeside(v, level, in0, in1, outs);
  }

  lemma CompactionFitsAround(v: Version, level: nat, in0: seq<File>, in1: seq<File>, outs: seq<File>)
    requires |v| == NUM_LEVELS && FilesWf(v) && ShallowerNewer(v) && level + 1 < NUM_LEVELS
    requires GoodInputs(v, level, in0, in1) && OutputsOf(outs, in0, in1)
    ensures FitBelow(v, FileSet(in0 + in1), level + 1, outs)
    ensures FitAbove(v, FileSet(in0 + in1), level + 1, outs)
  {
    forall l: Level, o, g | l <= level && o in outs && g in v[l] && g !in FileSet(in0 + in1) ensures Newer(g, o) {
      OutputBelow(v, level, in0, in1, o, l, g);
    }
    forall l: Level, o, g | l > level + 1 && o in outs && g in v[l] ensures Newer(o, g) {
      OutputAbove(v, level, in0, in1, o, l, g);
    }
  }

  lemma CompactionFitsBeside(v: Version, level: nat, in0: seq<File>, in1: seq<File>, outs: seq<File>)
    requires GoodVersion(v) && level + 1 < NUM_LEVELS
    requires GoodInputs(v, level, in0, in1) && OutputsOf(outs, in0, in1)
    ensures FitBeside(v[level + 1], FileSet(in0 + in1), level + 1, outs)
  {
    OrderedDisjoint(v[level + 1]);
    var r :| Spans(in0, r) && in1 == Overlapping(v[level + 1], r);
    forall o, g | o in outs && g in v[level + 1] && g !in FileSet(in0 + in1) ensures RangeDisjoint(o, g) {
      LeftBehindOutside(v[level + 1], in0, in1, r, g);
      OutputBeside(in0, in1, o, g);
    }
  }

  lemma OutputBelow(v: Version, level: nat, in0: seq<File>, in1: seq<File>, o: File, l: Level, g: File)
    requires |v| == NUM_LEVELS && FilesWf(v) && ShallowerNewer(v)
    requires level + 1 < NUM_LEVELS && GoodInputs(v, level, in0, in1)
    requires FromInputs(o, in0, in1)
    requires l <= level && g in v[l] && g !in in0
    ensures Newer(g, o)
  {
    forall x, y | x in g.contents && y in o.contents && x.ik.key == y.ik.key ensures x.ik.sequence > y.ik.sequence {
      var f :| f in in0 + in1 && y in f.contents;
      if f in in0 {
        if l == level { DisjointNewer(g, f); }
      } else {
        assert f in v[level + 1];
      }
      assert Newer(g, f);
    }
  }

  lemma OutputAbove(v: Version, level: nat, in0: seq<File>, in1: seq<File>, o: File, l: Level, g: File)
    requires |v| == NUM_LEVELS && ShallowerNewer(v)
    requires level + 1 < NUM_LEVELS && GoodInputs(v, level, in0, in1)
    requires FromInputs(o, in0, in1)
    requires l > level + 1 && g in v[l]
    ensures Newer(o, g)
  {
    forall x, y | x in o.contents && y in g.contents && x.ik.key == y.ik.key ensures x.ik.sequence > y.ik.sequence {
      var f :| f in in0 + in1 && x in f.contents;
      assert f in v[level] || f in v[level + 1];
      assert Newer(f, g);
    }
  }

  lemma OutputBeside(in0: seq<File>, in1: seq<File>, o: File, g: File)
    requires WfFile(o) && FromInputs(o, in0, in1)
    requires forall f :: f in in0 + in1 ==> WfFile(f)
    requires (LeftOf(g, in0) && LeftOf(g, in1)) || (RightOf(g, in0) && RightOf(g, in1))
    ensures RangeDisjoint(o, g)
  {
    var first, last := o.contents[0], o.contents[|o.contents| - 1];
    assert first in o.contents && last in o.contents;
    var f :| f in in0 + in1 && first in f.contents;
    var h :| h in in0 + in1 && last in h.contents;
    FileBounds(f);
    FileBounds(h);
  }

  // ---------------------------------------------------------------- trivial move

  // Moving one file down a level is a compaction whose output is its input.
  lemma TrivialMoveFits(v: Version, level: nat, f: File)
    requires GoodVersion(v) && level + 1 < NUM_LEVELS
    requires GoodInputs(v, level, [f], [])
    ensures Fits(v, {f}, level + 1, [f])
  {
    assert f in [f] && f in v[level];
    assert FromInputs(f, [f], []) by { assert f in [f] + []; }
    CompactionFitsAround(v, level, [f], [], [f]);
    CompactionFitsBeside(v, level, [f], [], [f]);
    assert FileSet([f] + []) == {f};
  }
}
