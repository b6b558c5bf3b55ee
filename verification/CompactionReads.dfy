/**
  A compaction installed in a version: the outputs as files, and the theorem
  that no read at a live snapshot can tell the versions apart.
 */
module CompactionReads {
  import opened Entries
  import opened Versions
  import opened Inputs
  import opened Levels
  import opened Compaction
  import opened Outputs
  import F = Files

  // ---------------------------------------------------------------- outputs as files

  // The files that FinishCompactionOutputFile records for the outputs.
  function OutputFiles(outputs: seq<seq<Entry>>, numbers: seq<nat>, sizes: seq<nat>): (fs: seq<File>)
    requires |outputs| == |numbers| == |sizes| && [] !in outputs
    ensures |fs| == |outputs|
    ensures forall i :: 0 <= i < |fs| ==> fs[i].contents == outputs[i] && fs[i].number == numbers[i]
    ensures forall i :: 0 <= i < |fs| ==> outputs[i] != [] &&
                                          fs[i].smallest == outputs[i][0].ik &&
                                          fs[i].largest == outputs[i][|outputs[i]| - 1].ik
  {
    seq(|outputs|, i requires 0 <= i < |outputs| =>
      assert outputs[i] in outputs;
      F.File(numbers[i], sizes[i], outputs[i][0].ik, outputs[i][|outputs[i]| - 1].ik, outputs[i]))
  }

  // No user key ends one output and begins the next.
  predicate CutsBetweenKeys(outputs: seq<seq<Entry>>)
    requires [] !in outputs
  {
    forall i :: 0 <= i < |outputs| - 1 ==>
      assert outputs[i] in outputs && outputs[i + 1] in outputs;
      outputs[i][|outputs[i]| - 1].ik.key != outputs[i + 1][0].ik.key
  }

  lemma {:induction false} FlattenAt(outputs: seq<seq<Entry>>, i: nat)
    requires i < |outputs|
    ensures exists a, b :: Flatten(outputs) == a + outputs[i] + b
    decreases |outputs|
  {
    var n := |outputs| - 1;
    if i == n {
      assert Flatten(outputs) == Flatten(outputs[..n]) + outputs[i] + [];
    } else {
      FlattenAt(outputs[..n], i);
      var a, b :| Flatten(outputs[..n]) == a + outputs[..n][i] + b;
      assert Flatten(outputs) == a + outputs[i] + (b + outputs[n]);
    }
  }

  lemma {:induction false} FlattenOrder(outputs: seq<seq<Entry>>, i: nat, j: nat)
    requires i < j < |outputs| && Sorted(Flatten(outputs))
    ensures forall x, y :: x in outputs[i] && y in outputs[j] ==> ILess(x.ik, y.ik)
    decreases |outputs|
  {
    var n := |outputs| - 1;
    var front := Flatten(outputs[..n]);
    assert Flatten(outputs) == front + outputs[n];
    if j == n {
      FlattenAt(outputs[..n], i);
      var a, b :| front == a + outputs[..n][i] + b;
      forall x, y | x in outputs[i] && y in outputs[j] ensures ILess(x.ik, y.ik) {
        var p :| 0 <= p < |outputs[i]| && outputs[i][p] == x;
        var q :| 0 <= q < |outputs[j]| && outputs[j][q] == y;
        assert Flatten(outputs)[|a| + p] == x;
        assert Flatten(outputs)[|front| + q] == y;
      }
    } else {
      SortedPrefix(front, outputs[n]);
      FlattenOrder(outputs[..n], i, j);
    }
  }

  lemma SortedPrefix(a: seq<Entry>, b: seq<Entry>)
    requires Sorted(a + b)
    ensures Sorted(a)
  {
    assert forall i :: 0 <= i < |a| ==> (a + b)[i] == a[i];
  }

  lemma SortedSuffix(a: seq<Entry>, b: seq<Entry>)
    requires Sorted(a + b)
    ensures Sorted(b)
  {
    assert forall i :: 0 <= i < |b| ==> (a + b)[|a| + i] == b[i];
    forall i, j | 0 <= i < j < |b| ensures ILess(b[i].ik, b[j].ik) {
      assert ILess((a + b)[|a| + i].ik, (a + b)[|a| + j].ik);
    }
  }

  lemma {:induction false} SortedOutput(outputs: seq<seq<Entry>>, i: nat)
    requires i < |outputs| && Sorted(Flatten(outputs))
    ensures Sorted(outputs[i])
    decreases |outputs|
  {
    var n := |outputs| - 1;
    if i == n {
      SortedSuffix(Flatten(outputs[..n]), outputs[n]);
    } else {
      SortedPrefix(Flatten(outputs[..n]), outputs[n]);
      SortedOutput(outputs[..n], i);
    }
  }

  lemma OutputFilesWf(outputs: seq<seq<Entry>>, numbers: seq<nat>, sizes: seq<nat>)
    requires |outputs| == |numbers| == |sizes| && [] !in outputs && Sorted(Flatten(outputs))
    ensures AllWf(OutputFiles(outputs, numbers, sizes))
    ensures LevelSorted(OutputFiles(outputs, numbers, sizes))
  {
    var fs := OutputFiles(outputs, numbers, sizes);
    forall i | 0 <= i < |fs| ensures WfFile(fs[i]) { SortedOutput(outputs, i); }
    forall i, j | 0 <= i < j < |fs| ensures ILess(fs[i].largest, fs[j].smallest) {
      FlattenOrder(outputs, i, j);
      assert outputs[i][|outputs[i]| - 1] in outputs[i] && outputs[j][0] in outputs[j];
    }
  }

  // The output files are well formed and share no user key exactly when the
  // compaction cut its outputs between user keys.  Nothing in ShouldStopBefore
  // or in the size test looks at user keys; CutKeys says for which inputs the
  // cuts cannot go wrong.
  lemma OutputFilesDisjoint(outputs: seq<seq<Entry>>, numbers: seq<nat>, sizes: seq<nat>)
    requires |outputs| == |numbers| == |sizes| && [] !in outputs && Sorted(Flatten(outputs))
    ensures UserDisjoint(OutputFiles(outputs, numbers, sizes)) <==> CutsBetweenKeys(outputs)
  {
    OutputFilesWf(outputs, numbers, sizes);
    var fs := OutputFiles(outputs, numbers, sizes);
    assert CutsBetweenKeys(outputs) <==> NeighboursApart(fs);
    NeighboursDisjoint(fs);
  }

  ghost predicate NeighboursApart(fs: seq<File>) {
    forall i :: 0 <= i < |fs| - 1 ==> fs[i].largest.key != fs[i + 1].smallest.key
  }

  lemma NeighboursDisjoint(fs: seq<File>)
    requires AllWf(fs) && LevelSorted(fs)
    ensures UserDisjoint(fs) <==> NeighboursApart(fs)
  {
    if NeighboursApart(fs) {
      forall i, j | 0 <= i < j < |fs| ensures fs[i].largest.key < fs[j].smallest.key {
        FileBounds(fs[i + 1]);
        assert ILess(fs[i].largest, fs[i + 1].smallest);
        assert i + 1 < j ==> ILess(fs[i + 1].largest, fs[j].smallest);
      }
    }
  }

  // ---------------------------------------------------------------- reads

  ghost predicate Compacting(v: Version, level: nat, in0: seq<File>, in1: seq<File>) {
    GoodVersion(v) && level + 1 < NUM_LEVELS && GoodInputs(v, level, in0, in1)
  }

  ghost function RestEntries(v: Version, removed: set<File>): set<Entry> {
    set l, i, e | 0 <= l < |v| && 0 <= i < |v[l]| && v[l][i] !in removed && e in v[l][i].contents :: e
  }

  lemma EntriesReplaced(v: Version, w: Version, removed: set<File>, t: Level, outs: seq<File>)
    requires |v| == NUM_LEVELS && Replaces(v, w, removed, t, outs)
    ensures VersionEntries(w) == RestEntries(v, removed) + LevelEntries(outs)
  {
    forall e | e in VersionEntries(w) ensures e in RestEntries(v, removed) + LevelEntries(outs) {
      var l, i :| 0 <= l < |w| && 0 <= i < |w[l]| && e in w[l][i].contents;
      assert w[l][i] in w[l];
      EntryPlace(v, removed, l, outs, w[l][i], e);
    }
    forall e | e in RestEntries(v, removed) ensures e in VersionEntries(w) {
      var l, i :| 0 <= l < |v| && 0 <= i < |v[l]| && v[l][i] !in removed && e in v[l][i].contents;
      assert v[l][i] in w[l];
    }
    forall e | e in LevelEntries(outs) ensures e in VersionEntries(w) {
      var i :| 0 <= i < |outs| && e in outs[i].contents;
      assert outs[i] in outs && outs[i] in w[t];
    }
  }

  lemma EntryPlace(v: Version, removed: set<File>, l: nat, outs: seq<File>, f: File, e: Entry)
    requires l < |v| && e in f.contents
    requires (f in v[l] && f !in removed) || f in outs
    ensures e in RestEntries(v, removed) + LevelEntries(outs)
  {
  }

  lemma EntriesSplit(v: Version, level: nat, in0: seq<File>, in1: seq<File>)
    requires |v| == NUM_LEVELS && level + 1 < NUM_LEVELS && GoodInputs(v, level, in0, in1)
    ensures VersionEntries(v) == RestEntries(v, FileSet(in0 + in1)) + LevelEntries(in0 + in1)
  {
    var ins := in0 + in1;
    forall e | e in LevelEntries(ins) ensures e in VersionEntries(v) {
      var i :| 0 <= i < |ins| && e in ins[i].contents;
      assert ins[i] in ins;
      assert ins[i] in v[level] || ins[i] in v[level + 1];
    }
  }

  // Entries that stay behind are newer than the inputs' entries of the same key,
  // unless they lie at level + 2 or deeper.
  lemma StayBehindNewer(v: Version, level: nat, in0: seq<File>, in1: seq<File>, l: Level, f: File, g: File)
    requires Compacting(v, level, in0, in1)
    requires l <= level + 1 && f in v[l] && f !in in0 + in1 && g in in0 + in1
    ensures Newer(f, g)
  {
    if l <= level {
      assert FromInputs(g, in0, in1);
      OutputBelow(v, level, in0, in1, g, l, f);
    } else {
      var r :| Spans(in0, r) && in1 == Overlapping(v[level + 1], r);
      OrderedDisjoint(v[level + 1]);
      LeftBehindOutside(v[level + 1], in0, in1, r, f);
      assert g in v[level] || g in v[level + 1];
      DisjointNewer(f, g);
    }
  }

  lemma NothingOlderBelow(v: Version, level: nat, in0: seq<File>, in1: seq<File>, d: Entry, x: Entry)
    requires Compacting(v, level, in0, in1)
    requires d in LevelEntries(in0 + in1) && BaseLevel(v, level, d.ik.key)
    requires x in RestEntries(v, FileSet(in0 + in1)) && x.ik.key == d.ik.key
    ensures x.ik.sequence > d.ik.sequence
  {
    var l, i :| 0 <= l < |v| && 0 <= i < |v[l]| && v[l][i] !in FileSet(in0 + in1) && x in v[l][i].contents;
    var f := v[l][i];
    assert f in v[l];
    FileBounds(f);
    var j :| 0 <= j < |in0 + in1| && d in (in0 + in1)[j].contents;
    var g := (in0 + in1)[j];
    assert l <= level + 1 by { assert InRange(f, d.ik.key); }
    StayBehindNewer(v, level, in0, in1, l, f, g);
  }

  lemma ReadsBesideMem(before: set<Entry>, after: set<Entry>, behind: set<Entry>, es: set<Entry>, mem: set<Entry>,
                       snapshot: Sequence, base: set<Key>, k: Key, s: Sequence)
    requires before == behind + es && after == behind + Survivors(es, snapshot, base)
    requires Distinct(before + mem) && s >= snapshot
    requires SafeToDrop(behind + mem, es, snapshot, base)
    ensures Read(after + mem, k, s) == Read(before + mem, k, s)
  {
    assert before + mem == (behind + mem) + es;
    assert after + mem == (behind + mem) + Survivors(es, snapshot, base);
    SurvivorsPreserveReads(behind + mem, es, snapshot, base, k, s);
  }

  ghost predicate MemNewer(mem: set<Entry>, es: set<Entry>) {
    forall x, y :: x in mem && y in es && x.ik.key == y.ik.key ==> x.ik.sequence > y.ik.sequence
  }

  lemma ObsoleteHidesNothing(v: Version, level: nat, in0: seq<File>, in1: seq<File>, input: seq<Entry>,
                             snapshot: Sequence, mem: set<Entry>)
    requires Compacting(v, level, in0, in1)
    requires SetOf(input) == LevelEntries(in0 + in1)
    requires MemNewer(mem, VersionEntries(v))
    ensures SafeToDrop(RestEntries(v, FileSet(in0 + in1)) + mem, SetOf(input), snapshot, BaseKeys(v, level, input))
  {
    forall d, x | d in SetOf(input) && Obsolete(d, snapshot, BaseKeys(v, level, input))
                  && x in RestEntries(v, FileSet(in0 + in1)) + mem && x.ik.key == d.ik.key
      ensures x.ik.sequence > d.ik.sequence
    {
      assert d in input;
      NewerThanObsolete(v, level, in0, in1, mem, d, x);
    }
  }

  lemma NewerThanObsolete(v: Version, level: nat, in0: seq<File>, in1: seq<File>, mem: set<Entry>, d: Entry, x: Entry)
    requires Compacting(v, level, in0, in1) && MemNewer(mem, VersionEntries(v))
    requires d in LevelEntries(in0 + in1) && BaseLevel(v, level, d.ik.key)
    requires x in RestEntries(v, FileSet(in0 + in1)) + mem && x.ik.key == d.ik.key
    ensures x.ik.sequence > d.ik.sequence
  {
    if x in RestEntries(v, FileSet(in0 + in1)) {
      NothingOlderBelow(v, level, in0, in1, d, x);
    } else {
      EntriesSplit(v, level, in0, in1);
    }
  }

  lemma InputsReplaced(v: Version, w: Version, level: nat, in0: seq<File>, in1: seq<File>, outs: seq<File>)
    requires Compacting(v, level, in0, in1)
    requires Replaces(v, w, FileSet(in0 + in1), level + 1, outs)
    ensures VersionEntries(v) == RestEntries(v, FileSet(in0 + in1)) + LevelEntries(in0 + in1)
    ensures VersionEntries(w) == RestEntries(v, FileSet(in0 + in1)) + LevelEntries(outs)
  {
    EntriesSplit(v, level, in0, in1);
    EntriesReplaced(v, w, FileSet(in0 + in1), level + 1, outs);
  }

  // The prize: what a reader at any sequence s >= snapshot finds for any key is
  // the same in the old version and in the version that replaces the inputs by
  // the surviving entries.  mem stands for the entries of the memtables.
  lemma CompactionPreservesReads(v: Version, w: Version, level: nat, in0: seq<File>, in1: seq<File>,
                                 input: seq<Entry>, snapshot: Sequence, outs: seq<File>, mem: set<Entry>,
                                 k: Key, s: Sequence)
    requires Compacting(v, level, in0, in1)
    requires SetOf(input) == LevelEntries(in0 + in1)
    requires LevelEntries(outs) == Survivors(SetOf(input), snapshot, BaseKeys(v, level, input))
    requires Replaces(v, w, FileSet(in0 + in1), level + 1, outs)
    requires Distinct(VersionEntries(v) + mem)
    requires MemNewer(mem, VersionEntries(v))
    requires s >= snapshot
    ensures Read(VersionEntries(w) + mem, k, s) == Read(VersionEntries(v) + mem, k, s)
  {
    InputsReplaced(v, w, level, in0, in1, outs);
    ObsoleteHidesNothing(v, level, in0, in1, input, snapshot, mem);
    ReadsBesideMem(VersionEntries(v), VersionEntries(w), RestEntries(v, FileSet(in0 + in1)), SetOf(input), mem,
                   snapshot, BaseKeys(v, level, input), k, s);
  }
}
