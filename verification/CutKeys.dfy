/**
  Compaction outputs and user keys.  The loop of DoCompactionWork cuts by size and
  by grandparent overlap only, so two versions of one user key can end up in two
  files of a level.  This module says for exactly which inputs that cannot happen.
 */
module CutKeys {
  import opened Entries
  import opened Versions
  import opened Compaction
  import opened CompactionReads
  import opened Outputs

  // ---------------------------------------------------------------- one version of each key

  ghost predicate OneEach(es: seq<Entry>) {
    forall i :: 0 <= i < |es| - 1 ==> es[i].ik.key != es[i + 1].ik.key
  }

  // The guard: behind an entry that a snapshot keeps alive, the next older
  // version of its key is a marker that the compaction drops.  It holds in
  // particular when no entry of the input is newer than the oldest snapshot.
  ghost predicate OneVersionKept(input: seq<Entry>, snapshot: Sequence, base: set<Key>) {
    forall i :: 0 < i < |input| && input[i - 1].ik.key == input[i].ik.key && input[i - 1].ik.sequence > snapshot ==>
      Obsolete(input[i], snapshot, base)
  }

  lemma {:induction false} SurvivorPrefix(es: seq<Entry>, n: nat, m: nat, snapshot: Sequence, base: set<Key>)
    requires n <= m <= |es|
    ensures SurvivorSeq(es, n, snapshot, base) <= SurvivorSeq(es, m, snapshot, base)
    decreases m
  {
    if n < m { SurvivorPrefix(es, n, m - 1, snapshot, base); }
  }

  lemma {:induction false} KeptOnce(input: seq<Entry>, n: nat, snapshot: Sequence, base: set<Key>)
    requires Sorted(input) && n <= |input| && OneVersionKept(input, snapshot, base)
    ensures OneEach(SurvivorSeq(input, n, snapshot, base))
    decreases n
  {
    hide Sorted, OneVersionKept;
    if n > 0 {
      KeptOnce(input, n - 1, snapshot, base);
      var kept := SurvivorSeq(input, n - 1, snapshot, base);
      if !DropAt(input, n - 1, snapshot, base) && kept != [] {
        LastKept(input, n - 1, snapshot, base);
      }
    }
  }

  // The entry that is added has a key of its own.
  lemma LastKept(input: seq<Entry>, n: nat, snapshot: Sequence, base: set<Key>)
    requires Sorted(input) && n < |input| && OneVersionKept(input, snapshot, base)
    requires !DropAt(input, n, snapshot, base) && SurvivorSeq(input, n, snapshot, base) != []
    ensures var kept := SurvivorSeq(input, n, snapshot, base); kept[|kept| - 1].ik.key != input[n].ik.key
  {
    var kept := SurvivorSeq(input, n, snapshot, base);
    SurvivorSeqMembers(input, n, snapshot, base);
    hide SurvivorSeq, DropAt, Sorted, OneVersionKept, Tag;
    var last := kept[|kept| - 1];
    assert last in input[..n];
    GuardAt(input, n, snapshot, base);
    var j :| 0 <= j < n && input[j] == last;
    EarlierKey(input, j, n);
  }

  lemma EarlierKey(input: seq<Entry>, j: nat, n: nat)
    requires Sorted(input) && j < n < |input| && input[n - 1].ik.key != input[n].ik.key
    ensures input[j].ik.key != input[n].ik.key
  {
    hide Tag;
    assert j < n - 1 ==> ILess(input[j].ik, input[n - 1].ik);
    assert ILess(input[n - 1].ik, input[n].ik);
  }

  lemma GuardAt(input: seq<Entry>, n: nat, snapshot: Sequence, base: set<Key>)
    requires 0 < n < |input| && OneVersionKept(input, snapshot, base) && !DropAt(input, n, snapshot, base)
    ensures input[n - 1].ik.key != input[n].ik.key
  {
  }

  // Two neighbours that survive stay neighbours.
  lemma KeptTwice(input: seq<Entry>, i: nat, snapshot: Sequence, base: set<Key>)
    requires Sorted(input) && 0 < i < |input| && input[i - 1].ik.key == input[i].ik.key
    requires input[i - 1].ik.sequence > snapshot && !Obsolete(input[i], snapshot, base)
    ensures !OneEach(SurvivorSeq(input, |input|, snapshot, base))
  {
    assert i > 1 ==> ILess(input[i - 2].ik, input[i - 1].ik);
    assert !DropAt(input, i - 1, snapshot, base) && !DropAt(input, i, snapshot, base);
    var (before, all) := (SurvivorSeq(input, i - 1, snapshot, base), SurvivorSeq(input, |input|, snapshot, base));
    assert SurvivorSeq(input, i + 1, snapshot, base) == before + [input[i - 1]] + [input[i]];
    SurvivorPrefix(input, i + 1, |input|, snapshot, base);
    assert all[|before|] == input[i - 1] && all[|before| + 1] == input[i];
  }

  lemma OneEachIsGuard(input: seq<Entry>, snapshot: Sequence, base: set<Key>)
    requires Sorted(input)
    ensures OneEach(SurvivorSeq(input, |input|, snapshot, base)) <==> OneVersionKept(input, snapshot, base)
  {
    hide SurvivorSeq, OneEach, Obsolete;
    if OneVersionKept(input, snapshot, base) {
      KeptOnce(input, |input|, snapshot, base);
    } else {
      var i :| 0 < i < |input| && input[i - 1].ik.key == input[i].ik.key && input[i - 1].ik.sequence > snapshot
               && !Obsolete(input[i], snapshot, base);
      KeptTwice(input, i, snapshot, base);
    }
  }

  // ---------------------------------------------------------------- outputs of one entry

  ghost function Singles(es: seq<Entry>): (outputs: seq<seq<Entry>>)
    ensures |outputs| == |es| && [] !in outputs && forall i :: 0 <= i < |es| ==> outputs[i] == [es[i]]
  {
    seq(|es|, i requires 0 <= i < |es| => [es[i]])
  }

  lemma {:induction false} FlattenSingles(es: seq<Entry>)
    ensures Flatten(Singles(es)) == es
  {
    if es != [] {
      var n := |es| - 1;
      assert Singles(es)[..n] == Singles(es[..n]);
      FlattenSingles(es[..n]);
    }
  }

  // Where every entry fills a file, every output has one entry.
  lemma SinglesWellCut(gs: seq<File>, input: seq<Entry>, es: seq<Entry>, fileSize: seq<Entry> -> nat, max: nat)
    requires forall i :: 0 <= i < |es| - 1 ==> fileSize([es[i]]) >= max
    ensures WellCut(gs, input, Singles(es), fileSize, max)
  {
    hide Passed, StopsAt, StopsBetween;
    var outputs := Singles(es);
    forall k | 0 <= k < |outputs|
      ensures GoodOutput(gs, input, outputs[k], fileSize, max)
    {
      var at := Passed(gs, 0, es[k].ik);
      assert outputs[k] == [es[k]];
      NoBytes(gs, at, at);
    }
  }

  // ---------------------------------------------------------------- boundaries

  // Where one output ends and the next begins, the survivors are neighbours.
  lemma {:induction false} Boundary(outputs: seq<seq<Entry>>, i: nat) returns (p: nat)
    requires i + 1 < |outputs| && [] !in outputs && outputs[i] != [] && outputs[i + 1] != []
    ensures p + 1 < |Flatten(outputs)|
    ensures Flatten(outputs)[p] == outputs[i][|outputs[i]| - 1] && Flatten(outputs)[p + 1] == outputs[i + 1][0]
    decreases |outputs|
  {
    var n := |outputs| - 1;
    if i + 1 == n {
      assert outputs[..n][..i] == outputs[..i] && outputs[..n][i] == outputs[i];
      var before := Flatten(outputs[..i]);
      assert Flatten(outputs) == before + outputs[i] + outputs[i + 1];
      p := |before| + |outputs[i]| - 1;
    } else {
      assert [] !in outputs[..n];
      p := Boundary(outputs[..n], i);
    }
  }

  lemma OneEachCuts(outputs: seq<seq<Entry>>)
    requires [] !in outputs && OneEach(Flatten(outputs))
    ensures CutsBetweenKeys(outputs)
  {
    hide Flatten;
    forall i | 0 <= i < |outputs| - 1
      ensures
        assert outputs[i] in outputs && outputs[i + 1] in outputs;
        outputs[i][|outputs[i]| - 1].ik.key != outputs[i + 1][0].ik.key
    {
      assert outputs[i] in outputs && outputs[i + 1] in outputs;
      var p := Boundary(outputs, i);
    }
  }

  // ---------------------------------------------------------------- exactly when the cuts are safe

  // Whatever the sizes of its files, the loop cuts between user keys ...
  ghost predicate AlwaysCutsBetweenKeys(gs: seq<File>, input: seq<Entry>, snapshot: Sequence, base: set<Key>,
                                        max: nat) {
    forall fileSize: seq<Entry> -> nat, outputs ::
      Produced(gs, input, snapshot, base, fileSize, max, outputs) ==> CutsBetweenKeys(outputs)
  }

  // ... exactly when the input keeps one version of each key.
  lemma CutsBetweenKeysIff(gs: seq<File>, input: seq<Entry>, snapshot: Sequence, base: set<Key>, max: nat)
    requires Sorted(input)
    ensures AlwaysCutsBetweenKeys(gs, input, snapshot, base, max) <==> OneVersionKept(input, snapshot, base)
  {
    hide SurvivorSeq, Flatten, WellCut, OneVersionKept, Sorted;
    var es := SurvivorSeq(input, |input|, snapshot, base);
    OneEachIsGuard(input, snapshot, base);
    if OneEach(es) {
      forall fileSize: seq<Entry> -> nat, outputs | Produced(gs, input, snapshot, base, fileSize, max, outputs)
        ensures CutsBetweenKeys(outputs)
      {
        OneEachCuts(outputs);
      }
    } else {
      var full: seq<Entry> -> nat := _ => max;
      FlattenSingles(es);
      SinglesWellCut(gs, input, es, full, max);
      assert Produced(gs, input, snapshot, base, full, max, Singles(es));
      var i :| 0 <= i < |es| - 1 && es[i].ik.key == es[i + 1].ik.key;
      assert Singles(es)[i] == [es[i]] && Singles(es)[i + 1] == [es[i + 1]];
      assert !CutsBetweenKeys(Singles(es));
    }
  }

  // ---------------------------------------------------------------- an input that is cut

  function NewerEntry(a: Value): Entry {
    Entry(IKey(1, 5, Put), a)
  }

  function OlderEntry(b: Value): Entry {
    Entry(IKey(1, 3, Put), b)
  }

  // A reader at snapshot 3 keeps two versions of key 1, and the first fills a
  // file: the loop puts them into two.
  lemma CutInsideKey(a: Value, b: Value, gs: seq<File>, outputs: seq<seq<Entry>>, fileSize: seq<Entry> -> nat, max: nat)
    requires fileSize([NewerEntry(a)]) >= max
    requires Produced(gs, [NewerEntry(a), OlderEntry(b)], 3, {}, fileSize, max, outputs)
    ensures outputs == [[NewerEntry(a)], [OlderEntry(b)]] && !CutsBetweenKeys(outputs)
  {
    hide WellCut, Flatten;
    var input := [NewerEntry(a), OlderEntry(b)];
    var cut := [[NewerEntry(a)], [OlderEntry(b)]];
    assert SurvivorSeq(input, 1, 3, {}) == [input[0]];
    assert SurvivorSeq(input, 2, 3, {}) == input;
    FlattenSingles(input);
    SinglesWellCut(gs, input, input, fileSize, max);
    assert Singles(input) == cut;
    WellCutUnique(gs, input, outputs, cut, fileSize, max);
    assert cut[0][0].ik.key == cut[0 + 1][0].ik.key;
  }
}
