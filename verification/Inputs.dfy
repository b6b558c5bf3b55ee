/**
  Choosing the files of a compaction (db/version_set.cc): range overlap tests,
  the closure that level zero needs, and the expansion of the input set.
 */
module Inputs {
  import opened Basics
  import opened Entries
  import opened Versions

  const TARGET_FILE_SIZE: nat := 2 * 1048576
  const MAX_GRANDPARENT_OVERLAP_BYTES: nat := 10 * TARGET_FILE_SIZE
  const EXPANDED_COMPACTION_BYTE_SIZE_LIMIT: nat := 25 * TARGET_FILE_SIZE
  const MAX_MEM_COMPACT_LEVEL: nat := 2

  // A user-key range; None leaves a side open.
  datatype Range = Range(lo: Option<Key>, hi: Option<Key>)

  predicate Overlaps(f: File, r: Range) {
    && !(r.lo.Some? && f.largest.key < r.lo.value)
    && !(r.hi.Some? && f.smallest.key > r.hi.value)
  }

  predicate Inside(f: File, r: Range) {
    && (r.lo.Some? ==> r.lo.value <= f.smallest.key)
    && (r.hi.Some? ==> f.largest.key <= r.hi.value)
  }

  predicate Contains(r: Range, q: Range) {
    && (r.lo.Some? ==> q.lo.Some? && r.lo.value <= q.lo.value)
    && (r.hi.Some? ==> q.hi.Some? && q.hi.value <= r.hi.value)
  }

  // No file of fs straddles the boundary of the range.
  ghost predicate Closed(fs: seq<File>, r: Range) {
    forall f :: f in fs && Overlaps(f, r) ==> Inside(f, r)
  }

  function Overlapping(fs: seq<File>, r: Range): (s: seq<File>)
    ensures forall f :: f in s <==> f in fs && Overlaps(f, r)
  {
    if fs == [] then []
    else
      var n := |fs| - 1;
      assert fs == fs[..n] + [fs[n]];
      Overlapping(fs[..n], r) + (if Overlaps(fs[n], r) then [fs[n]] else [])
  }

  predicate RangeDisjoint(f: File, g: File) {
    f.largest.key < g.smallest.key || g.largest.key < f.smallest.key
  }

  // Files of a level above zero share no user key.
  ghost predicate UserDisjoint(fs: seq<File>) {
    forall i, j :: 0 <= i < j < |fs| ==> fs[i].largest.key < fs[j].smallest.key
  }

  // ---------------------------------------------------------------- overlap tests

  predicate AfterFile(k: Option<Key>, f: File) {
    k.Some? && k.value > f.largest.key
  }

  predicate BeforeFile(k: Option<Key>, f: File) {
    k.Some? && k.value < f.smallest.key
  }

  ghost predicate SomeOverlap(fs: seq<File>, r: Range) {
    exists f :: f in fs && Overlaps(f, r)
  }

  // A scan when files may overlap each other, a binary search otherwise.
  method SomeFileOverlapsRange(disjointSorted: bool, fs: seq<File>, r: Range) returns (b: bool)
    requires AllWf(fs) && (disjointSorted ==> LevelSorted(fs))
    ensures b <==> SomeOverlap(fs, r)
  {
    if !disjointSorted {
      var i := 0;
      while i < |fs|
        invariant 0 <= i <= |fs|
        invariant forall j :: 0 <= j < i ==> !Overlaps(fs[j], r)
      {
        if !(AfterFile(r.lo, fs[i]) || BeforeFile(r.hi, fs[i])) {
          assert fs[i] in fs && Overlaps(fs[i], r);
          return true;
        }
        i := i + 1;
      }
      return false;
    }
    var index := 0;
    if r.lo.Some? {
      index := FindFile(fs, IKey(r.lo.value, MAX_SEQUENCE, Put));
    }
    b := index < |fs| && !BeforeFile(r.hi, fs[index]);
    SortedOverlap(fs, r, index);
  }

  lemma SortedOverlap(fs: seq<File>, r: Range, index: nat)
    requires AllWf(fs) && LevelSorted(fs) && index <= |fs|
    requires r.lo.None? ==> index == 0
    requires r.lo.Some? ==> forall i :: 0 <= i < index ==> ILess(fs[i].largest, IKey(r.lo.value, MAX_SEQUENCE, Put))
    requires r.lo.Some? ==> forall i :: index <= i < |fs| ==> !ILess(fs[i].largest, IKey(r.lo.value, MAX_SEQUENCE, Put))
    ensures SomeOverlap(fs, r) <==> index < |fs| && !BeforeFile(r.hi, fs[index])
  {
    forall f | f in fs && Overlaps(f, r) ensures index < |fs| && !BeforeFile(r.hi, fs[index]) {
      var i :| 0 <= i < |fs| && fs[i] == f;
      assert index <= i;
      FileBounds(fs[index]);
    }
    if index < |fs| && !BeforeFile(r.hi, fs[index]) {
      assert fs[index] in fs && Overlaps(fs[index], r);
    }
  }

  function TotalFileSize(fs: seq<File>): nat {
    if fs == [] then 0 else fs[0].size + TotalFileSize(fs[1..])
  }

  // As deep as may be, but no deeper than level 2: never past a level whose files
  // overlap the range, nor where it would meet more than 20 MB two levels down.
  ghost predicate DeepestLevel(v: Version, r: Range, level: nat)
    requires |v| == NUM_LEVELS
  {
    && level <= 2
    && (level > 0 ==> forall l :: 0 <= l <= level ==> !SomeOverlap(v[l], r))
    && (forall l :: 2 <= l < level + 2 ==> TotalFileSize(Overlapping(v[l], r)) <= 20971520)
    && (level < 2 && !SomeOverlap(v[0], r) ==>
          SomeOverlap(v[level + 1], r) || TotalFileSize(Overlapping(v[level + 2], r)) > 20971520)
  }

  // Version::PickLevelForMemTableOutput
  method PickLevelForMemTableOutput(v: Version, smallest: Key, largest: Key) returns (level: nat)
    requires SortedLevels(v)
    ensures DeepestLevel(v, Range(Some(smallest), Some(largest)), level)
  {
    hide SomeOverlap, Overlapping, TotalFileSize;
    var r := Range(Some(smallest), Some(largest));
    level := 0;
    var overlap := SomeFileOverlapsRange(false, v[0], r);
    if !overlap {
      while level < MAX_MEM_COMPACT_LEVEL
        invariant level <= MAX_MEM_COMPACT_LEVEL
        invariant forall l :: 0 <= l <= level ==> !SomeOverlap(v[l], r)
        invariant forall l :: 2 <= l < level + 2 ==> TotalFileSize(Overlapping(v[l], r)) <= 20971520
      {
        overlap := SomeFileOverlapsRange(true, v[level + 1], r);
        if overlap { break; }
        var overlaps, _ := GetOverlappingInputs(level + 2, v[level + 2], r);
        if TotalFileSize(overlaps) > MAX_GRANDPARENT_OVERLAP_BYTES { break; }
        level := level + 1;
      }
    }
  }

  // ---------------------------------------------------------------- closure

  ghost function SticksLeft(fs: seq<File>, r: Range): set<File> {
    set f | f in fs && r.lo.Some? && f.smallest.key < r.lo.value
  }

  ghost function SticksRight(fs: seq<File>, r: Range): set<File> {
    set f | f in fs && r.hi.Some? && f.largest.key > r.hi.value
  }

  // The files that GetOverlappingInputs must return: those that overlap the
  // least range that contains the given one and that no file straddles.
  ghost predicate LeastClosed(fs: seq<File>, given: Range, r: Range) {
    && Contains(r, given)
    && Closed(fs, r)
    && forall q :: Contains(q, given) && Closed(fs, q) ==> Contains(q, r)
  }

  // The files of a level that a compaction of the range must take together.
  ghost predicate CoveredBy(level: nat, fs: seq<File>, given: Range, files: seq<File>) {
    exists q :: (if level == 0 then LeastClosed(fs, given, q) else q == given) && files == Overlapping(fs, q)
  }

  lemma CoveredUnique(level: nat, fs: seq<File>, given: Range, a: seq<File>, b: seq<File>)
    requires CoveredBy(level, fs, given, a) && CoveredBy(level, fs, given, b)
    ensures a == b
  {
    hide Overlapping, Closed;
    var q :| (if level == 0 then LeastClosed(fs, given, q) else q == given) && a == Overlapping(fs, q);
    var r :| (if level == 0 then LeastClosed(fs, given, r) else r == given) && b == Overlapping(fs, r);
    assert level == 0 ==> Contains(q, r) && Contains(r, q);
  }

  // user contains the given range and lies in every closed range that does.
  ghost predicate Reached(fs: seq<File>, given: Range, user: Range) {
    && Contains(user, given)
    && forall q :: Contains(q, given) && Closed(fs, q) ==> Contains(q, user)
  }

  lemma WidensLeft(fs: seq<File>, given: Range, user: Range, f: File)
    requires Reached(fs, given, user) && f in fs && Overlaps(f, user) && f.smallest.key <= f.largest.key
    requires user.lo.Some? && f.smallest.key < user.lo.value
    ensures Reached(fs, given, user.(lo := Some(f.smallest.key)))
    ensures SticksLeft(fs, user.(lo := Some(f.smallest.key))) < SticksLeft(fs, user)
  {
    assert f in SticksLeft(fs, user) && f !in SticksLeft(fs, user.(lo := Some(f.smallest.key)));
  }

  lemma WidensRight(fs: seq<File>, given: Range, user: Range, f: File)
    requires Reached(fs, given, user) && f in fs && Overlaps(f, user) && f.smallest.key <= f.largest.key
    requires user.hi.Some? && f.largest.key > user.hi.value
    ensures Reached(fs, given, user.(hi := Some(f.largest.key)))
    ensures SticksLeft(fs, user.(hi := Some(f.largest.key))) == SticksLeft(fs, user)
    ensures SticksRight(fs, user.(hi := Some(f.largest.key))) < SticksRight(fs, user)
  {
    assert f in SticksRight(fs, user) && f !in SticksRight(fs, user.(hi := Some(f.largest.key)));
  }

  lemma Passes(fs: seq<File>, i: nat, user: Range)
    requires i < |fs|
    ensures Overlapping(fs[..i + 1], user) == Overlapping(fs[..i], user) + if Overlaps(fs[i], user) then [fs[i]] else []
    ensures Closed(fs[..i], user) && (Overlaps(fs[i], user) ==> Inside(fs[i], user)) ==> Closed(fs[..i + 1], user)
  {
    assert fs[..i + 1] == fs[..i] + [fs[i]];
    assert fs[..i + 1][..i] == fs[..i];
  }

  // Level-zero files may overlap each other, so a file that widens the range
  // restarts the scan; each restart leaves fewer files sticking out.
  method GetOverlappingInputs(level: nat, fs: seq<File>, given: Range) returns (inputs: seq<File>, ghost r: Range)
    requires AllWf(fs)
    ensures inputs == Overlapping(fs, r)
    ensures level > 0 ==> r == given
    ensures level == 0 ==> LeastClosed(fs, given, r)
    ensures CoveredBy(level, fs, given, inputs)
  {
    hide SticksLeft, SticksRight, Closed, Contains, Overlapping, WfFile;
    var user := given;
    inputs := [];
    StartsEmpty(fs, given);
    var i := 0;
    while i < |fs|
      invariant 0 <= i <= |fs|
      invariant level > 0 ==> user == given
      invariant Reached(fs, given, user)
      invariant inputs == Overlapping(fs[..i], user)
      invariant level == 0 ==> Closed(fs[..i], user)
      decreases SticksLeft(fs, user), SticksRight(fs, user), |fs| - i
    {
      var f := fs[i];
      assert f in fs;
      FileBounds(f);
      Passes(fs, i, user);
      i := i + 1;
      if Overlaps(f, user) {
        inputs := inputs + [f];
        if level == 0 {
          if user.lo.Some? && f.smallest.key < user.lo.value {
            WidensLeft(fs, given, user, f);
            user := user.(lo := Some(f.smallest.key));
            inputs := [];
            i := 0;
            StartsEmpty(fs, user);
          } else if user.hi.Some? && f.largest.key > user.hi.value {
            WidensRight(fs, given, user, f);
            user := user.(hi := Some(f.largest.key));
            inputs := [];
            i := 0;
            StartsEmpty(fs, user);
          }
        }
      }
    }
    assert fs[..i] == fs;
    r := user;
  }

  lemma StartsEmpty(fs: seq<File>, user: Range)
    ensures Overlapping(fs[..0], user) == [] && Closed(fs[..0], user) && Contains(user, user)
    ensures Reached(fs, user, user)
  {
  }

  // ---------------------------------------------------------------- inputs of a compaction

  // No user key is shared between a chosen file and a file left behind.
  ghost predicate Separated(fs: seq<File>, chosen: seq<File>) {
    forall f, g :: f in fs && f !in chosen && g in chosen ==> RangeDisjoint(f, g)
  }

  // r is the user-key range spanned by fs.
  ghost predicate Spans(fs: seq<File>, r: Range) {
    && r.lo.Some? && r.hi.Some?
    && (forall f :: f in fs ==> Inside(f, r))
    && (exists f :: f in fs && f.smallest.key == r.lo.value)
    && (exists f :: f in fs && f.largest.key == r.hi.value)
  }

  // VersionSet::GetRange, reduced to user keys as its callers use it.
  method GetRange(fs: seq<File>) returns (r: Range)
    requires fs != []
    ensures Spans(fs, r)
  {
    var smallest, largest := fs[0].smallest, fs[0].largest;
    ghost var lo, hi := fs[0], fs[0];
    var i := 1;
    while i < |fs|
      invariant 1 <= i <= |fs|
      invariant lo in fs && lo.smallest == smallest
      invariant hi in fs && hi.largest == largest
      invariant forall j :: 0 <= j < i ==> ILeq(smallest, fs[j].smallest) && ILeq(fs[j].largest, largest)
    {
      if ILess(fs[i].smallest, smallest) {
        smallest := fs[i].smallest;
        lo := fs[i];
      }
      if ILess(largest, fs[i].largest) {
        largest := fs[i].largest;
        hi := fs[i];
      }
      i := i + 1;
    }
    r := Range(Some(smallest.key), Some(largest.key));
  }

  // The file sets that a compaction from level to level + 1 may work on.
  ghost predicate GoodInputs(v: Version, level: nat, in0: seq<File>, in1: seq<File>)
    requires |v| == NUM_LEVELS && level + 1 < NUM_LEVELS
  {
    && in0 != []
    && (forall f :: f in in0 ==> f in v[level])
    && Separated(v[level], in0)
    && exists r :: Spans(in0, r) && in1 == Overlapping(v[level + 1], r)
  }

  ghost predicate UserDisjointLevels(v: Version) {
    forall l :: 1 <= l < |v| ==> UserDisjoint(v[l])
  }

  lemma OverlappingSeparated(fs: seq<File>, r: Range)
    requires AllWf(fs) && (UserDisjoint(fs) || Closed(fs, r))
    ensures Separated(fs, Overlapping(fs, r))
  {
    if UserDisjoint(fs) {
      forall f, g | f in fs && g in fs && f != g ensures RangeDisjoint(f, g) {
        var i :| 0 <= i < |fs| && fs[i] == f;
        var j :| 0 <= j < |fs| && fs[j] == g;
      }
    }
  }

  ghost predicate GrandparentsOf(v: Version, level: nat, in0: seq<File>, in1: seq<File>, grandparents: seq<File>)
    requires |v| == NUM_LEVELS
  {
    if level + 2 < NUM_LEVELS then exists r :: Spans(in0 + in1, r) && grandparents == Overlapping(v[level + 2], r)
    else grandparents == []
  }

  // The larger choice: all files of this level that the range of both levels'
  // inputs covers, if there are more of them, they stay below 50 MB together, and
  // the next level needs no more files for them.
  ghost predicate Expands(fs: seq<File>, next: seq<File>, level: nat, inputs: seq<File>, overlaps: seq<File>,
                          more: seq<File>, next': seq<File>) {
    && (exists all :: Spans(inputs + overlaps, all) && CoveredBy(level, fs, all, more))
    && |more| > |inputs| && TotalFileSize(overlaps) + TotalFileSize(more) < 52428800
    && (exists r :: Spans(more, r) && next' == Overlapping(next, r)) && |next'| == |overlaps|
  }

  // The larger choice is made whenever there is one.
  ghost predicate Chosen(fs: seq<File>, next: seq<File>, level: nat, inputs: seq<File>, overlaps: seq<File>,
                         in0: seq<File>, in1: seq<File>) {
    || Expands(fs, next, level, inputs, overlaps, in0, in1)
    || (in0 == inputs && in1 == overlaps
        && forall more, next' :: !Expands(fs, next, level, inputs, overlaps, more, next'))
  }

  ghost predicate SetUp(v: Version, level: nat, inputs: seq<File>, in0: seq<File>, in1: seq<File>)
    requires |v| == NUM_LEVELS && level + 1 < NUM_LEVELS
  {
    exists span ::
      && Spans(inputs, span)
      && var overlaps := Overlapping(v[level + 1], span);
         if overlaps == [] then in0 == inputs && in1 == []
         else Chosen(v[level], v[level + 1], level, inputs, overlaps, in0, in1)
  }

  lemma NotExpanded(fs: seq<File>, next: seq<File>, level: nat, inputs: seq<File>, overlaps: seq<File>, all: Range,
                    expanded: seq<File>)
    requires Spans(inputs + overlaps, all) && CoveredBy(level, fs, all, expanded)
    requires |expanded| <= |inputs| || TotalFileSize(overlaps) + TotalFileSize(expanded) >= 52428800
    ensures forall more, next' :: !Expands(fs, next, level, inputs, overlaps, more, next')
  {
    hide CoveredBy, Spans, TotalFileSize, Overlapping;
    forall more, next' ensures !Expands(fs, next, level, inputs, overlaps, more, next') {
      if Expands(fs, next, level, inputs, overlaps, more, next') {
        ExpandedIs(fs, next, level, inputs, overlaps, all, expanded, more, next');
        assert false;
      }
    }
  }

  lemma ExpandedIs(fs: seq<File>, next: seq<File>, level: nat, inputs: seq<File>, overlaps: seq<File>, all: Range,
                   expanded: seq<File>, more: seq<File>, next': seq<File>)
    requires Spans(inputs + overlaps, all) && CoveredBy(level, fs, all, expanded)
    requires Expands(fs, next, level, inputs, overlaps, more, next')
    ensures more == expanded
  {
    hide CoveredBy, Spans, TotalFileSize, Overlapping;
    var q :| Spans(inputs + overlaps, q) && CoveredBy(level, fs, q, more);
    SpanUnique(inputs + overlaps, all);
    CoveredUnique(level, fs, all, expanded, more);
  }

  lemma NextGrows(fs: seq<File>, next: seq<File>, level: nat, inputs: seq<File>, overlaps: seq<File>, all: Range,
                  expanded: seq<File>, r: Range, expanded1: seq<File>)
    requires Spans(inputs + overlaps, all) && CoveredBy(level, fs, all, expanded)
    requires Spans(expanded, r) && expanded1 == Overlapping(next, r) && |expanded1| != |overlaps|
    ensures forall more, next' :: !Expands(fs, next, level, inputs, overlaps, more, next')
  {
    hide CoveredBy, Spans, TotalFileSize, Overlapping;
    forall more, next' ensures !Expands(fs, next, level, inputs, overlaps, more, next') {
      if Expands(fs, next, level, inputs, overlaps, more, next') {
        ExpandedIs(fs, next, level, inputs, overlaps, all, expanded, more, next');
        SpanUnique(expanded, r);
        assert false;
      }
    }
  }

  // VersionSet::SetupOtherInputs: the next level's overlapping files, then
  // possibly more files of this level as long as the next level's do not grow.
  method SetupOtherInputs(v: Version, level: nat, inputs: seq<File>)
    returns (in0: seq<File>, in1: seq<File>, grandparents: seq<File>)
    requires SortedLevels(v) && level + 1 < NUM_LEVELS
    requires inputs != [] && (forall f :: f in inputs ==> f in v[level])
    ensures UserDisjointLevels(v) && Separated(v[level], inputs) ==> GoodInputs(v, level, in0, in1)
    ensures forall f :: f in inputs ==> f in in0
    ensures SetUp(v, level, inputs, in0, in1)
    ensures forall r :: Spans(inputs, r) && Overlapping(v[level + 1], r) == [] ==> in0 == inputs && in1 == []
    ensures GrandparentsOf(v, level, in0, in1, grandparents)
  {
    in0 := inputs;
    var r := GetRange(in0);
    ghost var r0;
    in1, r0 := GetOverlappingInputs(level + 1, v[level + 1], r);
    ghost var overlaps := in1;
    assert forall q :: Spans(inputs, q) ==> q == r by { SpanUnique(inputs, r); }
    if in1 != [] {
      in0, in1 := ExpandInputs(v[level], v[level + 1], level, in0, in1, r);
    }
    assert SetUp(v, level, inputs, in0, in1) by { assert Spans(inputs, r) && overlaps == Overlapping(v[level + 1], r); }
    grandparents := [];
    if level + 2 < NUM_LEVELS {
      var all := GetRange(in0 + in1);
      ghost var r2;
      grandparents, r2 := GetOverlappingInputs(level + 2, v[level + 2], all);
    }
  }

  lemma SpanUnique(fs: seq<File>, r: Range)
    requires Spans(fs, r)
    ensures forall q :: Spans(fs, q) ==> q == r
  {
  }

  method ExpandInputs(fs: seq<File>, next: seq<File>, level: nat, inputs: seq<File>, overlaps: seq<File>,
                      ghost span: Range)
    returns (in0: seq<File>, in1: seq<File>)
    requires AllWf(fs) && AllWf(next)
    requires inputs != [] && (forall f :: f in inputs ==> f in fs)
    requires Spans(inputs, span) && overlaps == Overlapping(next, span)
    ensures in0 != [] && (forall f :: f in in0 ==> f in fs)
    ensures Separated(fs, inputs) && (level > 0 ==> UserDisjoint(fs)) ==> Separated(fs, in0)
    ensures exists r :: Spans(in0, r) && in1 == Overlapping(next, r)
    ensures forall f :: f in inputs ==> f in in0
    ensures Chosen(fs, next, level, inputs, overlaps, in0, in1)
  {
    in0, in1 := inputs, overlaps;
    var all := GetRange(in0 + in1);
    var expanded0, e0 := GetOverlappingInputs(level, fs, all);
    if |expanded0| > |in0|
       && TotalFileSize(in1) + TotalFileSize(expanded0) < EXPANDED_COMPACTION_BYTE_SIZE_LIMIT {
      forall f | f in inputs ensures f in expanded0 {
        assert f in in0 + in1;
        WfMember(fs, f);
      }
      if level > 0 ==> UserDisjoint(fs) { OverlappingSeparated(fs, e0); }
      var r := GetRange(expanded0);
      var expanded1, _ := GetOverlappingInputs(level + 1, next, r);
      if |expanded1| == |in1| {
        in0, in1 := expanded0, expanded1;
        assert Expands(fs, next, level, inputs, overlaps, in0, in1);
      } else {
        NextGrows(fs, next, level, inputs, overlaps, all, expanded0, r, expanded1);
      }
    } else {
      NotExpanded(fs, next, level, inputs, overlaps, all, expanded0);
    }
  }

  lemma WfMember(fs: seq<File>, f: File)
    requires AllWf(fs) && f in fs
    ensures WfFile(f) && f.smallest.key <= f.largest.key
  {
    FileBounds(f);
  }

  // In a level of disjoint files any one file stands apart.
  lemma AloneSeparated(fs: seq<File>, picked: File)
    requires UserDisjoint(fs) && AllWf(fs) && picked in fs
    ensures Separated(fs, [picked])
  {
    forall f | f in fs && f !in [picked] ensures RangeDisjoint(f, picked) {
      var i :| 0 <= i < |fs| && fs[i] == f;
      var j :| 0 <= j < |fs| && fs[j] == picked;
    }
  }

  // VersionSet::PickCompaction once a file has been picked: level zero takes
  // every file that transitively overlaps it.  A file of a deeper level that
  // meets nothing in the next level is compacted alone.
  method PickInputs(v: Version, level: nat, picked: File)
    returns (in0: seq<File>, in1: seq<File>, grandparents: seq<File>)
    requires SortedLevels(v) && level + 1 < NUM_LEVELS
    requires picked in v[level]
    ensures UserDisjointLevels(v) ==> GoodInputs(v, level, in0, in1)
    ensures picked in in0
    ensures exists inputs :: SetUp(v, level, inputs, in0, in1) &&
              (if level == 0 then CoveredBy(0, v[0], FileRange(picked), inputs) else inputs == [picked])
    ensures level > 0 && Overlapping(v[level + 1], FileRange(picked)) == [] ==> in0 == [picked] && in1 == []
    ensures GrandparentsOf(v, level, in0, in1, grandparents)
  {
    hide SetUp, GoodInputs, CoveredBy, GrandparentsOf, LevelSorted;
    var inputs := [picked];
    var r := GetRange(inputs);
    WfMember(v[level], picked);
    assert picked in inputs;
    assert Spans([picked], FileRange(picked));
    SpanUnique([picked], r);
    if level == 0 {
      ghost var c;
      inputs, c := GetOverlappingInputs(0, v[0], r);
      OverlappingSeparated(v[0], c);
    } else if UserDisjointLevels(v) {
      AloneSeparated(v[level], picked);
    }
    in0, in1, grandparents := SetupOtherInputs(v, level, inputs);
  }

  function FileRange(f: File): Range {
    Range(Some(f.smallest.key), Some(f.largest.key))
  }

  // Compaction::IsTrivialMove
  predicate IsTrivialMove(in0: seq<File>, in1: seq<File>, grandparents: seq<File>) {
    |in0| == 1 && |in1| == 0 && TotalFileSize(grandparents) <= MAX_GRANDPARENT_OVERLAP_BYTES
  }

  ghost predicate LeftOf(h: File, fs: seq<File>) {
    forall g :: g in fs ==> h.largest.key < g.smallest.key
  }

  ghost predicate RightOf(h: File, fs: seq<File>) {
    forall g :: g in fs ==> g.largest.key < h.smallest.key
  }

  // Every file of the next level that is left behind lies wholly to one side of
  // all files of the compaction.
  lemma LeftBehindOutside(next: seq<File>, in0: seq<File>, in1: seq<File>, r: Range, h: File)
    requires AllWf(next) && UserDisjoint(next)
    requires Spans(in0, r) && in1 == Overlapping(next, r)
    requires h in next && h !in in1
    ensures (LeftOf(h, in0) && LeftOf(h, in1)) || (RightOf(h, in0) && RightOf(h, in1))
  {
    hide AllWf, UserDisjoint, Overlapping;
    forall g | g in in1
      ensures if h.largest.key < r.lo.value then h.largest.key < g.smallest.key else g.largest.key < h.smallest.key
    {
      OtherSide(next, r, g, h);
    }
  }

  lemma OtherSide(next: seq<File>, r: Range, g: File, h: File)
    requires AllWf(next) && UserDisjoint(next) && g in next && h in next
    requires r.lo.Some? && Overlaps(g, r) && !Overlaps(h, r)
    ensures if h.largest.key < r.lo.value then h.largest.key < g.smallest.key else g.largest.key < h.smallest.key
  {
    WfMember(next, g);
    WfMember(next, h);
    hide AllWf;
    var i :| 0 <= i < |next| && next[i] == h;
    var j :| 0 <= j < |next| && next[j] == g;
  }
}
