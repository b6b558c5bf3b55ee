/**
  The work of a compaction (db/db_impl.cc, DoCompactionWork; db/version_set.cc,
  class Compaction): which entries survive, and why every read at a live
  snapshot gives the same answer before and after.
 */
module Compaction {
  import opened Basics
  import opened Entries
  import opened Versions
  import opened Inputs
  import opened Outputs

  // ---------------------------------------------------------------- what survives

  // A newer entry of the same key is visible to every snapshot that could see e.
  ghost predicate Hidden(es: set<Entry>, e: Entry, snapshot: Sequence) {
    exists n :: n in es && n.ik.key == e.ik.key && e.ik.sequence < n.ik.sequence <= snapshot
  }

  // A deletion marker that hides nothing below the compaction.
  predicate Obsolete(e: Entry, snapshot: Sequence, base: set<Key>) {
    e.ik.kind.Deletion? && e.ik.sequence <= snapshot && e.ik.key in base
  }

  // base holds the keys of es that no deeper level can contain.
  ghost function Survivors(es: set<Entry>, snapshot: Sequence, base: set<Key>): set<Entry> {
    set e | e in es && !Hidden(es, e, snapshot) && !Obsolete(e, snapshot, base)
  }

  // For the keys of obsolete deletion markers, rest holds newer entries only.
  ghost predicate SafeToDrop(rest: set<Entry>, es: set<Entry>, snapshot: Sequence, base: set<Key>) {
    forall d, x :: d in es && Obsolete(d, snapshot, base) && x in rest && x.ik.key == d.ik.key ==>
      x.ik.sequence > d.ik.sequence
  }

  // Dropping entries changes no read at a sequence that is still of interest.
  // rest holds all entries outside the compaction.
  lemma SurvivorsPreserveReads(rest: set<Entry>, es: set<Entry>, snapshot: Sequence, base: set<Key>, k: Key,
                               s: Sequence)
    requires Distinct(rest + es)
    requires s >= snapshot
    requires SafeToDrop(rest, es, snapshot, base)
    ensures Read(rest + Survivors(es, snapshot, base), k, s) == Read(rest + es, k, s)
  {
    var before := rest + es;
    var after := rest + Survivors(es, snapshot, base);
    if exists x :: x in before && Visible(x, k, s) {
      NewestExists(before, k, s);
      var n :| Newest(before, k, s, n);
      ReadIsNewest(before, k, s, n);
      if n in after {
        assert Newest(after, k, s, n);
        ReadIsNewest(after, k, s, n);
      } else {
        assert !Hidden(es, n, snapshot);
        forall x | x in es && Visible(x, k, s) && x != n ensures Hidden(es, x, snapshot) {
          assert x in before;
        }
        ReadNothing(after, k, s);
      }
    } else {
      ReadNothing(before, k, s);
      ReadNothing(after, k, s);
    }
  }

  // What survives is what some live reader may need: the newest entry of its key
  // at a sequence from the snapshot on, unless it is a marker with nothing to hide.
  lemma SurvivorIff(es: set<Entry>, snapshot: Sequence, base: set<Key>, e: Entry)
    requires Distinct(es) && e in es
    ensures e in Survivors(es, snapshot, base) <==>
      && (exists s: Sequence :: s >= snapshot && Newest(es, e.ik.key, s, e))
      && !(e.ik.kind.Deletion? && e.ik.sequence <= snapshot && e.ik.key in base)
  {
    var s: Sequence := if e.ik.sequence < snapshot then snapshot else e.ik.sequence;
    if !Hidden(es, e, snapshot) {
      assert Newest(es, e.ik.key, s, e);
    }
  }

  // The loop's test on the entry before it, for a sorted input.
  predicate DropAt(es: seq<Entry>, i: nat, snapshot: Sequence, base: set<Key>)
    requires i < |es|
  {
    || (i > 0 && es[i - 1].ik.key == es[i].ik.key && es[i - 1].ik.sequence <= snapshot)
    || Obsolete(es[i], snapshot, base)
  }

  // Comparing neighbours is enough: DropAt decides membership in Survivors.
  lemma DropAtIsSurvivors(es: seq<Entry>, i: nat, snapshot: Sequence, base: set<Key>)
    requires Sorted(es) && Distinct(SetOf(es)) && i < |es|
    ensures DropAt(es, i, snapshot, base) <==> es[i] !in Survivors(SetOf(es), snapshot, base)
  {
    var all := SetOf(es);
    assert es[i] in all;
    if i > 0 && es[i - 1].ik.key == es[i].ik.key && es[i - 1].ik.sequence <= snapshot {
      assert es[i - 1] in all;
      assert ILess(es[i - 1].ik, es[i].ik);
      assert es[i - 1].ik.sequence != es[i].ik.sequence;
      assert Hidden(all, es[i], snapshot);
    }
    if Hidden(all, es[i], snapshot) {
      var n :| n in all && n.ik.key == es[i].ik.key && es[i].ik.sequence < n.ik.sequence <= snapshot;
      var j :| 0 <= j < |es| && es[j] == n;
      assert j < i;
      assert j < i - 1 ==> ILess(es[j].ik, es[i - 1].ik);
      assert ILess(es[i - 1].ik, es[i].ik);
    }
  }

  function SurvivorSeq(es: seq<Entry>, n: nat, snapshot: Sequence, base: set<Key>): seq<Entry>
    requires n <= |es|
  {
    if n == 0 then []
    else SurvivorSeq(es, n - 1, snapshot, base) + (if DropAt(es, n - 1, snapshot, base) then [] else [es[n - 1]])
  }

  lemma {:induction false} SurvivorSeqMembers(es: seq<Entry>, n: nat, snapshot: Sequence, base: set<Key>)
    requires Sorted(es) && n <= |es|
    ensures Sorted(SurvivorSeq(es, n, snapshot, base))
    ensures forall e :: e in SurvivorSeq(es, n, snapshot, base) ==> e in es[..n]
    ensures forall i :: 0 <= i < n ==> (es[i] in SurvivorSeq(es, n, snapshot, base) <==> !DropAt(es, i, snapshot, base))
  {
    hide DropAt, Tag;
    if n > 0 {
      var (before, after) := (SurvivorSeq(es, n - 1, snapshot, base), SurvivorSeq(es, n, snapshot, base));
      SurvivorSeqMembers(es, n - 1, snapshot, base);
      assert es[..n] == es[..n - 1] + [es[n - 1]];
      assert forall e :: e in es[..n - 1] ==> ILess(e.ik, es[n - 1].ik);
      SortedSnoc(before, es[n - 1]);
      forall i | 0 <= i < n ensures es[i] in after <==> !DropAt(es, i, snapshot, base) {
        hide SurvivorSeq, Sorted;
        if i < n - 1 { assert es[i] in es[..n - 1] && es[i] != es[n - 1]; }
      }
    }
  }

  lemma SortedSnoc(es: seq<Entry>, e: Entry)
    requires Sorted(es) && forall x :: x in es ==> ILess(x.ik, e.ik)
    ensures Sorted(es + [e])
  {
    assert forall i :: 0 <= i < |es| ==> es[i] in es;
  }

  // The survivors in order are exactly the sorted sequence of the set Survivors.
  lemma SurvivorSeqIsSurvivors(es: seq<Entry>, snapshot: Sequence, base: set<Key>)
    requires Sorted(es) && Distinct(SetOf(es))
    ensures Sorted(SurvivorSeq(es, |es|, snapshot, base))
    ensures SetOf(SurvivorSeq(es, |es|, snapshot, base)) == Survivors(SetOf(es), snapshot, base)
  {
    SurvivorSeqMembers(es, |es|, snapshot, base);
    var out := SurvivorSeq(es, |es|, snapshot, base);
    forall e ensures e in SetOf(out) <==> e in Survivors(SetOf(es), snapshot, base) {
      if e in SetOf(out) {
        var i :| 0 <= i < |es| && es[i] == e;
        DropAtIsSurvivors(es, i, snapshot, base);
      }
      if e in Survivors(SetOf(es), snapshot, base) {
        var i :| 0 <= i < |es| && es[i] == e;
        DropAtIsSurvivors(es, i, snapshot, base);
      }
    }
  }

  // ---------------------------------------------------------------- the loop

  // No file from level + 2 down can hold the key.
  ghost predicate BaseLevel(v: Version, level: nat, k: Key) {
    forall l, i :: level + 2 <= l < |v| && 0 <= i < |v[l]| ==> !InRange(v[l][i], k)
  }

  ghost function BaseKeys(v: Version, level: nat, es: seq<Entry>): (r: set<Key>)
    ensures forall e :: e in es ==> (e.ik.key in r <==> BaseLevel(v, level, e.ik.key))
  {
    set e | e in es && BaseLevel(v, level, e.ik.key) :: e.ik.key
  }

  class Compaction {
    const level: nat
    const inputVersion: Version
    const grandparents: seq<File>
    const maxOutputFileSize: nat
    var levelPtrs: seq<nat>
    var grandparentIndex: nat
    var seenKey: bool
    var overlappedBytes: nat

    // The level cursors have moved past files that end before key k only.
    ghost predicate Valid(k: Key)
      reads this
    {
      && |levelPtrs| == |inputVersion| == NUM_LEVELS
      && grandparentIndex <= |grandparents|
      && forall l :: 0 <= l < NUM_LEVELS ==> CursorOk(inputVersion[l], levelPtrs[l], k)
    }

    function Overlapped(): Overlap
      reads this
    {
      Overlap(grandparentIndex, seenKey, overlappedBytes)
    }

    lemma ValidMonotone(k: Key, k': Key)
      requires Valid(k) && k <= k'
      ensures Valid(k')
    {
    }

    constructor (level: nat, v: Version, grandparents: seq<File>)
      requires SortedLevels(v)
      ensures forall k :: Valid(k)
      ensures this.level == level && inputVersion == v && this.grandparents == grandparents
      ensures maxOutputFileSize == TARGET_FILE_SIZE && Overlapped() == NO_OVERLAP
    {
      this.level := level;
      inputVersion := v;
      this.grandparents := grandparents;
      maxOutputFileSize := TARGET_FILE_SIZE;
      levelPtrs := seq(NUM_LEVELS, _ => 0);
      grandparentIndex := 0;
      seenKey := false;
      overlappedBytes := 0;
    }

    // Asked with non-decreasing keys, the cursors give the answer of a full scan.
    method IsBaseLevelForKey(k: Key) returns (r: bool)
      requires SortedLevels(inputVersion) && Valid(k)
      modifies `levelPtrs
      ensures Valid(k)
      ensures r <==> BaseLevel(inputVersion, level, k)
    {
      var l := level + 2;
      while l < NUM_LEVELS
        invariant level + 2 <= l
        invariant Valid(k)
        invariant forall m, i :: level + 2 <= m < l && m < NUM_LEVELS && 0 <= i < |inputVersion[m]| ==>
                    !InRange(inputVersion[m][i], k)
      {
        var hit, p := ScanLevel(inputVersion[l], levelPtrs[l], k);
        levelPtrs := levelPtrs[l := p];
        if hit { return false; }
        l := l + 1;
      }
      r := true;
    }

    // The decision of the compaction loop for one entry, given the sequence of
    // the entry before it when that has the same user key.
    method ShouldDrop(e: Entry, lastSequence: Sequence, snapshot: Sequence, ghost base: set<Key>) returns (drop: bool)
      requires SortedLevels(inputVersion) && Valid(e.ik.key)
      requires e.ik.key in base <==> BaseLevel(inputVersion, level, e.ik.key)
      modifies `levelPtrs
      ensures Valid(e.ik.key)
      ensures drop <==> lastSequence <= snapshot || Obsolete(e, snapshot, base)
    {
      if lastSequence <= snapshot {
        drop := true;
      } else if e.ik.kind.Deletion? && e.ik.sequence <= snapshot {
        drop := IsBaseLevelForKey(e.ik.key);
      } else {
        drop := false;
      }
    }

    // Whether the current output overlaps too much of the grandparent level.
    method ShouldStopBefore(ik: IKey) returns (stop: bool)
      requires grandparentIndex <= |grandparents|
      modifies `grandparentIndex, `seenKey, `overlappedBytes
      ensures grandparentIndex <= |grandparents|
      ensures (Overlapped(), stop) == StopBefore(grandparents, old(Overlapped()), ik)
    {
      while grandparentIndex < |grandparents| && ILess(grandparents[grandparentIndex].largest, ik)
        invariant old(grandparentIndex) <= grandparentIndex <= |grandparents|
        invariant Passed(grandparents, grandparentIndex, ik) == Passed(grandparents, old(grandparentIndex), ik)
        invariant overlappedBytes == old(overlappedBytes) +
                    if seenKey then TotalSize(grandparents, old(grandparentIndex), grandparentIndex) else 0
        invariant seenKey == old(seenKey)
      {
        if seenKey {
          overlappedBytes := overlappedBytes + grandparents[grandparentIndex].size;
        }
        grandparentIndex := grandparentIndex + 1;
      }
      seenKey := true;
      if overlappedBytes > MAX_GRANDPARENT_OVERLAP_BYTES {
        overlappedBytes := 0;
        return true;
      } else {
        return false;
      }
    }
  }

  ghost predicate CursorOk(fs: seq<File>, p: nat, k: Key) {
    p <= |fs| && forall i :: 0 <= i < p ==> fs[i].largest.key < k
  }

  method ScanLevel(fs: seq<File>, start: nat, k: Key) returns (hit: bool, p: nat)
    requires AllWf(fs) && CursorOk(fs, start, k)
    requires start < |fs| ==> LevelSorted(fs)
    ensures CursorOk(fs, p, k)
    ensures hit <==> exists i :: 0 <= i < |fs| && InRange(fs[i], k)
  {
    p := start;
    while p < |fs|
      invariant CursorOk(fs, p, k)
    {
      if k <= fs[p].largest.key {
        if k >= fs[p].smallest.key {
          return true, p;
        }
        LargestSorted(fs, p);
        return false, p;
      }
      p := p + 1;
    }
    hit := false;
  }

  // The variables of the compaction loop.  An empty current stands for a NULL
  // builder.
  datatype LoopState = LoopState(
    outputs: seq<seq<Entry>>, current: seq<Entry>, currentKey: Option<Key>, lastSequence: Sequence)

  ghost predicate LoopInvariant(st: LoopState, input: seq<Entry>, i: nat, snapshot: Sequence, base: set<Key>)
    requires i <= |input|
  {
    && Flatten(st.outputs) + st.current == SurvivorSeq(input, i, snapshot, base)
    && [] !in st.outputs
    && st.currentKey == (if i == 0 then None else Some(input[i - 1].ik.key))
    && (i > 0 ==> st.lastSequence == input[i - 1].ik.sequence)
  }

  lemma CurrentWithin(st: LoopState, input: seq<Entry>, i: nat, snapshot: Sequence, base: set<Key>)
    requires Sorted(input) && i <= |input| && LoopInvariant(st, input, i, snapshot, base)
    ensures Within(input, i, st.current)
  {
    SurvivorSeqMembers(input, i, snapshot, base);
    assert forall k :: 0 <= k < |st.current| ==> st.current[k] in Flatten(st.outputs) + st.current;
  }

  // One iteration; fileSize stands for TableBuilder::FileSize after the given entries.
  method CompactEntry(c: Compaction, st: LoopState, input: seq<Entry>, i: nat, snapshot: Sequence,
                      fileSize: seq<Entry> -> nat, ghost base: set<Key>)
    returns (next: LoopState)
    requires i < |input| && snapshot < MAX_SEQUENCE && Sorted(input)
    requires SortedLevels(c.inputVersion) && c.Valid(input[i].ik.key)
    requires input[i].ik.key in base <==> BaseLevel(c.inputVersion, c.level, input[i].ik.key)
    requires LoopInvariant(st, input, i, snapshot, base)
    requires c.Overlapped() == Progress(c.grandparents, input, i)
    requires Cutting(c.grandparents, input, i, st.outputs, st.current, fileSize, c.maxOutputFileSize)
    modifies c
    ensures c.Valid(input[i].ik.key)
    ensures LoopInvariant(next, input, i + 1, snapshot, base)
    ensures c.Overlapped() == Progress(c.grandparents, input, i + 1)
    ensures Cutting(c.grandparents, input, i + 1, next.outputs, next.current, fileSize, c.maxOutputFileSize)
  {
    hide Cutting, Passed, TotalSize, Sorted, BaseLevel;
    var e := input[i];
    CurrentWithin(st, input, i, snapshot, base);
    StopStep(c.grandparents, input, i, st.outputs, st.current, fileSize, c.maxOutputFileSize);
    var stop := c.ShouldStopBefore(e.ik);
    var (closed, open) := Close(st.outputs, st.current, stop);
    var last := if st.currentKey == Some(e.ik.key) then st.lastSequence else MAX_SEQUENCE;
    var drop := c.ShouldDrop(e, last, snapshot, base);
    assert drop == DropAt(input, i, snapshot, base);
    ghost var kept := SurvivorSeq(input, i, snapshot, base);
    if !drop {
      AddStep(c.grandparents, input, i, closed, open, fileSize, c.maxOutputFileSize);
      assert Flatten(closed) + (open + [e]) == kept + [e];
      open := open + [e];
    }
    var (outputs, current) := Close(closed, open, !drop && fileSize(open) >= c.maxOutputFileSize);
    next := LoopState(outputs, current, Some(e.ik.key), e.ik.sequence);
  }

  // The outputs are the survivors, cut where they must be and nowhere else
  // (Outputs.WellCutUnique: there is one such way).
  ghost predicate Produced(gs: seq<File>, input: seq<Entry>, snapshot: Sequence, base: set<Key>,
                           fileSize: seq<Entry> -> nat, max: nat, outputs: seq<seq<Entry>>) {
    && Flatten(outputs) == SurvivorSeq(input, |input|, snapshot, base)
    && [] !in outputs
    && WellCut(gs, input, outputs, fileSize, max)
  }

  lemma LoopStarts(input: seq<Entry>, snapshot: Sequence, base: set<Key>)
    ensures LoopInvariant(LoopState([], [], None, MAX_SEQUENCE), input, 0, snapshot, base)
  {
  }

  lemma LoopEnds(gs: seq<File>, st: LoopState, input: seq<Entry>, snapshot: Sequence, base: set<Key>,
                 fileSize: seq<Entry> -> nat, max: nat)
    requires Sorted(input) && LoopInvariant(st, input, |input|, snapshot, base)
    requires Cutting(gs, input, |input|, st.outputs, st.current, fileSize, max)
    ensures Produced(gs, input, snapshot, base, fileSize, max, Close(st.outputs, st.current, true).0)
  {
    hide Cutting, WellCut, SurvivorSeq, Sorted;
    CurrentWithin(st, input, |input|, snapshot, base);
    EndStep(gs, input, st.outputs, st.current, fileSize, max);
  }

  // DBImpl::DoCompactionWork
  method DoCompactionWork(c: Compaction, input: seq<Entry>, snapshot: Sequence, fileSize: seq<Entry> -> nat)
    returns (outputs: seq<seq<Entry>>)
    requires Sorted(input) && snapshot < MAX_SEQUENCE
    requires SortedLevels(c.inputVersion)
    requires input != [] ==> c.Valid(input[0].ik.key)
    requires c.Overlapped() == NO_OVERLAP
    modifies c
    ensures Produced(c.grandparents, input, snapshot, BaseKeys(c.inputVersion, c.level, input),
                     fileSize, c.maxOutputFileSize, outputs)
  {
    hide BaseKeys, BaseLevel, DropAt, Cutting, WellCut, LoopInvariant, Produced, SurvivorSeq, Flatten;
    ghost var base := BaseKeys(c.inputVersion, c.level, input);
    var st := LoopState([], [], None, MAX_SEQUENCE);
    var i := 0;
    StartCutting(c.grandparents, input, fileSize, c.maxOutputFileSize);
    LoopStarts(input, snapshot, base);
    while i < |input|
      invariant 0 <= i <= |input|
      invariant i < |input| ==> c.Valid(input[i].ik.key)
      invariant LoopInvariant(st, input, i, snapshot, base)
      invariant c.Overlapped() == Progress(c.grandparents, input, i)
      invariant Cutting(c.grandparents, input, i, st.outputs, st.current, fileSize, c.maxOutputFileSize)
    {
      assert input[i] in input;
      st := CompactEntry(c, st, input, i, snapshot, fileSize, base);
      if i + 1 < |input| {
        assert ILess(input[i].ik, input[i + 1].ik);
        c.ValidMonotone(input[i].ik.key, input[i + 1].ik.key);
      }
      i := i + 1;
    }
    LoopEnds(c.grandparents, st, input, snapshot, base, fileSize, c.maxOutputFileSize);
    outputs := Close(st.outputs, st.current, true).0;
  }

  // An entry of the input is written if and only if some reader from the snapshot
  // on may need it and it is not a deletion marker at or below the snapshot whose
  // key lies in no file from level + 2 on.
  lemma WrittenIff(v: Version, level: nat, gs: seq<File>, input: seq<Entry>, snapshot: Sequence,
                   fileSize: seq<Entry> -> nat, max: nat, outputs: seq<seq<Entry>>, e: Entry)
    requires Sorted(input) && Distinct(SetOf(input)) && e in input
    requires Produced(gs, input, snapshot, BaseKeys(v, level, input), fileSize, max, outputs)
    ensures e in Flatten(outputs) <==>
      && (exists s: Sequence :: s >= snapshot && Newest(SetOf(input), e.ik.key, s, e))
      && !(e.ik.kind.Deletion? && e.ik.sequence <= snapshot
           && forall l, i :: level + 2 <= l < |v| && 0 <= i < |v[l]| ==>
                !(v[l][i].smallest.key <= e.ik.key <= v[l][i].largest.key))
  {
    hide WellCut, Sorted, Distinct, Survivors, SurvivorSeq, Newest;
    var base := BaseKeys(v, level, input);
    SurvivorSeqIsSurvivors(input, snapshot, base);
    SurvivorIff(SetOf(input), snapshot, base, e);
    assert e in Flatten(outputs) <==> e in SetOf(SurvivorSeq(input, |input|, snapshot, base));
    assert e.ik.key in base <==> BaseLevel(v, level, e.ik.key);
  }
}
