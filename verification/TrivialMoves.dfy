/**
  Trivial moves (db/version_set.cc, IsTrivialMove; db/db_impl.cc,
  BackgroundCompaction): a file that meets nothing in the next level is moved
  there as it is.  Inputs are chosen by user key within the next level only, so
  the move is right exactly when the file does not share its last user key with
  its right neighbour.
 */
module TrivialMoves {
  import opened Basics
  import opened Entries
  import opened Versions
  import opened Inputs
  import opened Levels
  import opened CutKeys
  import F = Files

  // ---------------------------------------------------------------- the move

  ghost predicate Moves(v: Version, w: Version, level: nat, i: nat) {
    && |v| == |w| == NUM_LEVELS && WfVersion(v) && Distinct(VersionEntries(v))
    && 1 <= level && level + 1 < NUM_LEVELS && i < |v[level]|
    && Overlapping(v[level + 1], FileRange(v[level][i])) == []
    && Replaces(v, w, {v[level][i]}, level + 1, [v[level][i]])
  }

  lemma MoveMembers(v: Version, w: Version, level: nat, i: nat)
    requires Moves(v, w, level, i)
    ensures forall l, g :: 0 <= l < NUM_LEVELS ==>
              (g in w[l] <==> if g == v[level][i] then l == level + 1 else g in v[l])
  {
    hide WfVersion, Distinct, Overlapping, VersionEntries, Replaces;
    forall l, g | 0 <= l < NUM_LEVELS
      ensures g in w[l] <==> if g == v[level][i] then l == level + 1 else g in v[l]
    {
      MoveMember(v, w, level + 1, v[level][i], l, g);
    }
  }

  lemma MoveMember(v: Version, w: Version, t: F.Level, f: File, l: F.Level, g: File)
    requires |v| == |w| == NUM_LEVELS && Replaces(v, w, {f}, t, [f])
    ensures g in w[l] <==> if g == f then l == t else g in v[l]
  {
    hide Replaces;
    ReplacedMember(v, w, {f}, t, [f], l, g);
  }

  lemma ReplacedMember(v: Version, w: Version, removed: set<File>, t: F.Level, outs: seq<File>, l: F.Level, g: File)
    requires |v| == |w| == NUM_LEVELS && Replaces(v, w, removed, t, outs)
    ensures g in w[l] <==> (g in v[l] && g !in removed) || (l == t && g in outs)
  {
    var (gone, added) := (g in removed, g in outs);
    assert g in w[l] <==> (g in v[l] && !gone) || (l == t && added);
  }

  // The guard: the next file of the level begins with another user key.
  predicate EndsItsKey(fs: seq<File>, i: nat)
    requires i < |fs|
  {
    i + 1 < |fs| ==> fs[i + 1].smallest.key != fs[i].largest.key
  }

  lemma LevelEntry(v: Version, l: nat, i: nat, e: Entry)
    requires l < |v| && i < |v[l]| && e in v[l][i].contents
    ensures e in VersionEntries(v)
  {
  }

  // Within a level the entries of a key stand newest first.
  lemma SiblingNewer(v: Version, l: nat, i: nat, j: nat)
    requires |v| == NUM_LEVELS && Distinct(VersionEntries(v)) && 1 <= l < NUM_LEVELS
    requires AllWf(v[l]) && LevelSorted(v[l]) && i < j < |v[l]|
    ensures Newer(v[l][i], v[l][j])
    ensures forall x, y :: x in v[l][i].contents && y in v[l][j].contents ==> ILess(x.ik, y.ik)
  {
    var (f, g) := (v[l][i], v[l][j]);
    FileBounds(f);
    FileBounds(g);
    forall x, y | x in f.contents && y in g.contents
      ensures ILess(x.ik, y.ik) && (x.ik.key == y.ik.key ==> x.ik.sequence > y.ik.sequence)
    {
      assert ILess(f.largest, g.smallest);
      LevelEntry(v, l, i, x);
      LevelEntry(v, l, j, y);
      assert x != y;
    }
  }

  // A file that ends its key shares no key with the files to its right.
  lemma RightApart(fs: seq<File>, i: nat, j: nat)
    requires AllWf(fs) && LevelSorted(fs) && i < j < |fs| && EndsItsKey(fs, i)
    ensures fs[i].largest.key < fs[j].smallest.key && Newer(fs[j], fs[i])
  {
    hide Newer, Tag, Sorted;
    FileBounds(fs[i + 1]);
    assert ILess(fs[i].largest, fs[i + 1].smallest);
    assert i + 1 < j ==> ILess(fs[i + 1].largest, fs[j].smallest);
    FileBounds(fs[i]);
    FileBounds(fs[j]);
    ApartNewer(fs[j], fs[i]);
  }

  lemma ApartNewer(f: File, g: File)
    requires forall x, y :: x in f.contents && y in g.contents ==> x.ik.key != y.ik.key
    ensures Newer(f, g)
  {
  }

  // ---------------------------------------------------------------- the version after the move

  // The order of the levels survives every move.
  lemma MoveKeepsShape(v: Version, w: Version, level: nat, i: nat)
    requires Moves(v, w, level, i)
    ensures SortedLevels(w) && LevelZeroOrdered(w[0])
  {
    hide Overlapping, Distinct, Newer, VersionEntries;
    MoveWf(v, w, level, i);
    forall l | 1 <= l < NUM_LEVELS
      ensures LevelSorted(w[l])
    {
      forall g, h | g in w[l] && h in w[l] && g != h
        ensures Aside(g, h)
      {
        MoveAside(v, w, level, i, l, g, h);
      }
      AsideSorted(w[l]);
    }
    MoveZero(v, w, level, i);
  }

  predicate Aside(g: File, h: File) {
    ILess(g.largest, h.smallest) || ILess(h.largest, g.smallest)
  }

  lemma MoveWf(v: Version, w: Version, level: nat, i: nat)
    requires Moves(v, w, level, i)
    ensures |w| == NUM_LEVELS && forall l :: 0 <= l < |w| ==> AllWf(w[l])
  {
    hide Overlapping, Distinct, Newer, WfFile;
    hide Replaces;
    MoveMembers(v, w, level, i);
    forall l | 0 <= l < NUM_LEVELS
      ensures AllWf(w[l])
    {
      forall a | 0 <= a < |w[l]|
        ensures WfFile(w[l][a])
      {
        assert w[l][a] in w[l];
        if w[l][a] in v[l] { var b :| 0 <= b < |v[l]| && v[l][b] == w[l][a]; }
      }
    }
  }

  lemma MoveZero(v: Version, w: Version, level: nat, i: nat)
    requires Moves(v, w, level, i)
    ensures LevelZeroOrdered(w[0])
  {
    hide Overlapping, Distinct, Newer, WfFile, VersionEntries;
    MoveMembers(v, w, level, i);
    assert forall g :: g in w[0] ==> g in v[0];
    forall a, b | 0 <= a < |w[0]| && 0 <= b < |w[0]|
      ensures a < b ==> w[0][a].number != w[0][b].number
      ensures w[0][a].number > w[0][b].number ==> Newer(w[0][a], w[0][b])
    {
      assert w[0][a] in w[0] && w[0][b] in w[0];
      var c :| 0 <= c < |v[0]| && v[0][c] == w[0][a];
      var d :| 0 <= d < |v[0]| && v[0][d] == w[0][b];
      assert a < b ==> F.Before(w[0][a], w[0][b]);
      assert c != d ==> v[0][c].number != v[0][d].number;
    }
  }

  lemma MoveAside(v: Version, w: Version, level: nat, i: nat, l: nat, g: File, h: File)
    requires Moves(v, w, level, i) && 1 <= l < NUM_LEVELS && |w| == NUM_LEVELS
    requires g in w[l] && h in w[l] && g != h
    ensures Aside(g, h)
  {
    hide Distinct, Newer, VersionEntries, WfFile, LevelZeroOrdered, ShallowNewer;
    hide Replaces;
    MoveMembers(v, w, level, i);
    var f := v[level][i];
    if g in v[l] && h in v[l] {
      var a :| 0 <= a < |v[l]| && v[l][a] == g;
      var b :| 0 <= b < |v[l]| && v[l][b] == h;
    } else {
      assert l == level + 1 && (g == f || h == f);
      assert g in v[l] ==> !Overlaps(g, FileRange(f));
      assert h in v[l] ==> !Overlaps(h, FileRange(f));
    }
  }

  lemma AsideSorted(fs: seq<File>)
    requires F.Ordered(fs) && AllWf(fs)
    requires forall g, h :: g in fs && h in fs && g != h ==> Aside(g, h)
    ensures LevelSorted(fs)
  {
    forall a, b | 0 <= a < b < |fs|
      ensures ILess(fs[a].largest, fs[b].smallest)
    {
      hide WfFile, Tag;
      assert F.Before(fs[a], fs[b]) && fs[a] in fs && fs[b] in fs;
      assert Aside(fs[a], fs[b]);
      FileBounds(fs[a]);
      FileBounds(fs[b]);
    }
  }

  // A file that ends its key leaves every level newer than those below.
  lemma MoveShallow(v: Version, w: Version, level: nat, i: nat)
    requires Moves(v, w, level, i) && EndsItsKey(v[level], i)
    ensures |w| == NUM_LEVELS && ShallowNewer(w)
  {
    hide Newer, Overlapping, Distinct, VersionEntries;
    forall l, m, a, b | 0 <= l < m < |w| && 0 <= a < |w[l]| && 0 <= b < |w[m]|
      ensures Newer(w[l][a], w[m][b])
    {
      assert w[l][a] in w[l] && w[m][b] in w[m];
      MovePair(v, w, level, i, l, m, w[l][a], w[m][b]);
    }
  }

  lemma MovePair(v: Version, w: Version, level: nat, i: nat, l: nat, m: nat, g: File, h: File)
    requires Moves(v, w, level, i) && EndsItsKey(v[level], i)
    requires l < m < NUM_LEVELS == |w| && g in w[l] && h in w[m]
    ensures Newer(g, h)
  {
    hide Newer, Overlapping, Distinct, VersionEntries, WfFile, EndsItsKey, LevelZeroOrdered, LevelSorted;
    hide Replaces;
    MoveMembers(v, w, level, i);
    var f := v[level][i];
    if g in v[l] && h in v[m] {
      var a :| 0 <= a < |v[l]| && v[l][a] == g;
      var b :| 0 <= b < |v[m]| && v[m][b] == h;
    } else if g !in v[l] {
      assert g == f && l == level + 1 && h in v[m];
      var b :| 0 <= b < |v[m]| && v[m][b] == h;
      assert Newer(v[level][i], v[m][b]);
    } else {
      assert h == f && m == level + 1;
      var a :| 0 <= a < |v[l]| && v[l][a] == g;
      if l < level {
        assert Newer(v[l][a], v[level][i]);
      } else if a < i {
        SiblingNewer(v, level, a, i);
      } else {
        assert a != i;
        RightApart(v[level], i, a);
      }
    }
  }

  // ---------------------------------------------------------------- a key shared with the right neighbour

  lemma MoveEntries(v: Version, w: Version, level: nat, i: nat)
    requires Moves(v, w, level, i)
    ensures |w| == NUM_LEVELS && VersionEntries(w) == VersionEntries(v)
  {
    hide Overlapping, Newer, WfFile, Distinct;
    hide Replaces;
    MoveMembers(v, w, level, i);
    var f := v[level][i];
    forall e | e in VersionEntries(v)
      ensures e in VersionEntries(w)
    {
      var l, a :| 0 <= l < |v| && 0 <= a < |v[l]| && e in v[l][a].contents;
      var m := if v[l][a] == f then level + 1 else l;
      assert v[l][a] in w[m];
      var b :| 0 <= b < |w[m]| && w[m][b] == v[l][a];
      LevelEntry(w, m, b, e);
    }
    forall e | e in VersionEntries(w)
      ensures e in VersionEntries(v)
    {
      var l, a :| 0 <= l < |w| && 0 <= a < |w[l]| && e in w[l][a].contents;
      assert w[l][a] in w[l];
      if w[l][a] == f {
        LevelEntry(v, level, i, e);
      } else {
        var b :| 0 <= b < |v[l]| && v[l][b] == w[l][a];
        LevelEntry(v, l, b, e);
      }
    }
  }

  function LastEntry(f: File): Entry
    requires f.contents != []
  {
    f.contents[|f.contents| - 1]
  }

  // Levels above hold newer entries only.
  lemma NoneAbove(v: Version, w: Version, level: nat, i: nat)
    requires Moves(v, w, level, i)
    ensures |w| == NUM_LEVELS && v[level][i].contents != []
    ensures var e := LastEntry(v[level][i]); forall l :: 0 <= l < level ==> NoneVisible(w[l], e.ik.key, e.ik.sequence)
  {
    hide Overlapping, Distinct, VersionEntries, LevelZeroOrdered, LevelSorted;
    hide Replaces;
    MoveMembers(v, w, level, i);
    var f := v[level][i];
    forall l, g, x | 0 <= l < level && g in w[l] && x in g.contents
      ensures !Visible(x, LastEntry(f).ik.key, LastEntry(f).ik.sequence)
    {
      var a :| 0 <= a < |v[l]| && v[l][a] == g;
      assert Newer(v[l][a], v[level][i]) && LastEntry(f) in f.contents;
    }
  }

  // The neighbour's first entry is visible where the moved file's last one is.
  lemma NextVisible(v: Version, w: Version, level: nat, i: nat)
    requires Moves(v, w, level, i) && !EndsItsKey(v[level], i)
    ensures |w| == NUM_LEVELS && v[level][i].contents != []
    ensures var e := LastEntry(v[level][i]);
            exists x :: x in LevelEntries(w[level]) && Visible(x, e.ik.key, e.ik.sequence)
  {
    hide Overlapping, Distinct, VersionEntries, LevelZeroOrdered, ShallowNewer;
    hide Replaces;
    MoveMembers(v, w, level, i);
    var (f, next) := (v[level][i], v[level][i + 1]);
    FileBounds(f);
    assert ILess(f.largest, next.smallest) && next != f;
    assert next in v[level] && next in w[level];
    var a :| 0 <= a < |w[level]| && w[level][a] == next;
    var y := next.contents[0];
    assert y in w[level][a].contents && ILess(LastEntry(f).ik, y.ik);
    assert y in LevelEntries(w[level]) && Visible(y, LastEntry(f).ik.key, LastEntry(f).ik.sequence);
  }

  lemma HitIsOlder(v: Version, w: Version, level: nat, i: nat, hit: Entry)
    requires Moves(v, w, level, i) && |w| == NUM_LEVELS && v[level][i].contents != []
    requires hit in LevelEntries(w[level]) &&
             Visible(hit, LastEntry(v[level][i]).ik.key, LastEntry(v[level][i]).ik.sequence)
    ensures hit.ik.sequence < LastEntry(v[level][i]).ik.sequence
  {
    hide Overlapping, VersionEntries, LevelZeroOrdered, ShallowNewer, LevelSorted, WfFile, Newer;
    hide Replaces;
    MoveMembers(v, w, level, i);
    var last := LastEntry(v[level][i]);
    var a :| 0 <= a < |w[level]| && hit in w[level][a].contents;
    assert w[level][a] in w[level];
    var j :| 0 <= j < |v[level]| && v[level][j] == w[level][a];
    assert j != i;
    LevelEntry(v, level, i, last);
    LevelEntry(v, level, j, hit);
    if j < i { SiblingNewer(v, level, j, i); } else { SiblingNewer(v, level, i, j); }
    assert hit != last;
  }

  // The search stops short of the newest entry of the shared key.
  lemma MoveHides(v: Version, w: Version, level: nat, i: nat) returns (hit: Entry)
    requires Moves(v, w, level, i) && !EndsItsKey(v[level], i)
    ensures v[level][i].contents != []
    ensures var last := LastEntry(v[level][i]);
            && RightHit(w, last.ik.key, last.ik.sequence, Some(last))
            && FirstHit(w, last.ik.key, last.ik.sequence, Some(hit))
            && hit.ik.sequence < last.ik.sequence
  {
    hide WfVersion, Replaces, Overlapping, Distinct;
    NoneAbove(v, w, level, i);
    NextVisible(v, w, level, i);
    MoveEntries(v, w, level, i);
    var last := LastEntry(v[level][i]);
    LevelEntry(v, level, i, last);
    NewestExists(LevelEntries(w[level]), last.ik.key, last.ik.sequence);
    hit :| Newest(LevelEntries(w[level]), last.ik.key, last.ik.sequence, hit);
    HitIsOlder(v, w, level, i, hit);
    assert HitAt(w, level, last.ik.key, last.ik.sequence, hit);
  }

  // ---------------------------------------------------------------- exactly when a move is right

  ghost predicate ReadsRight(v: Version) {
    forall k, s, hit :: FirstHit(v, k, s, hit) ==> RightHit(v, k, s, hit)
  }

  // The move keeps what lookups rely on, and every search finds the newest
  // entry, if and only if the moved file ends its key.
  lemma TrivialMoveIff(v: Version, w: Version, level: nat, i: nat)
    requires Moves(v, w, level, i)
    ensures WfVersion(w) <==> EndsItsKey(v[level], i)
    ensures ReadsRight(w) <==> EndsItsKey(v[level], i)
  {
    hide Replaces, Overlapping, Distinct, EndsItsKey, SortedLevels, LevelZeroOrdered, ShallowNewer, FirstHit, Newest;
    MoveKeepsShape(v, w, level, i);
    if EndsItsKey(v[level], i) {
      MoveShallow(v, w, level, i);
    }
    if WfVersion(w) {
      forall k, s, hit | FirstHit(w, k, s, hit)
        ensures RightHit(w, k, s, hit)
      {
        FirstHitIsRight(w, k, s, hit);
      }
    }
    if !EndsItsKey(v[level], i) {
      var hit := MoveHides(v, w, level, i);
      NotNewest(VersionEntries(w), LastEntry(v[level][i]), hit);
    }
  }

  lemma NotNewest(es: set<Entry>, last: Entry, hit: Entry)
    requires Newest(es, last.ik.key, last.ik.sequence, last) && hit.ik.sequence < last.ik.sequence
    ensures !Newest(es, last.ik.key, last.ik.sequence, hit)
  {
  }

  // ---------------------------------------------------------------- the move is made

  function OneEntryFile(number: nat, e: Entry): File {
    F.File(number, 1, e.ik, e.ik, [e])
  }

  // The outputs of CutKeys.CutInsideKey as files of level 2.
  function CutVersion(a: Value, b: Value): Version {
    [[], [], [OneEntryFile(8, NewerEntry(a)), OneEntryFile(9, OlderEntry(b))], [], [], [], []]
  }

  function MovedVersion(a: Value, b: Value): Version {
    [[], [], [OneEntryFile(9, OlderEntry(b))], [OneEntryFile(8, NewerEntry(a))], [], [], []]
  }

  // The selection code takes the newer file alone and finds the move trivial.
  method PicksCutFile(a: Value, b: Value) returns (in0: seq<File>, in1: seq<File>, grandparents: seq<File>)
    ensures in0 == [CutVersion(a, b)[2][0]] && in1 == [] && IsTrivialMove(in0, in1, grandparents)
  {
    var v: Version := CutVersion(a, b);
    hide LevelSorted, AllWf, GoodInputs, Spans, Newer, LevelZeroOrdered, ShallowNewer;
    CutVersionWf(a, b);
    in0, in1, grandparents := PickInputs(v, 2, v[2][0]);
    assert v[3] == [] && v[4] == [];
  }

  lemma CutVersionWf(a: Value, b: Value)
    ensures WfVersion(CutVersion(a, b)) && Distinct(VersionEntries(CutVersion(a, b)))
  {
    var v: Version := CutVersion(a, b);
    var (f, g) := (OneEntryFile(8, NewerEntry(a)), OneEntryFile(9, OlderEntry(b)));
    assert v[2] == [f, g] && forall l :: 0 <= l < NUM_LEVELS && l != 2 ==> v[l] == [];
    TwoFilesSorted(f, g, a, b);
    hide CutVersion, OneEntryFile, WfFile, Newer, NewerEntry, OlderEntry, ILess;
    forall e | e in VersionEntries(v)
      ensures e == NewerEntry(a) || e == OlderEntry(b)
    {
      var l, i :| 0 <= l < |v| && 0 <= i < |v[l]| && e in v[l][i].contents;
      assert l == 2;
    }
    assert NewerEntry(a).ik.sequence != OlderEntry(b).ik.sequence;
  }

  lemma TwoFilesSorted(f: File, g: File, a: Value, b: Value)
    requires f == OneEntryFile(8, NewerEntry(a)) && g == OneEntryFile(9, OlderEntry(b))
    ensures AllWf([f, g]) && LevelSorted([f, g]) && NewerEntry(a).ik.sequence != OlderEntry(b).ik.sequence
    ensures f.contents == [NewerEntry(a)] && g.contents == [OlderEntry(b)]
  {
  }

  // The move is one that the theorem speaks of, and it is not right.
  lemma CutFileMoves(a: Value, b: Value)
    ensures Moves(CutVersion(a, b), MovedVersion(a, b), 2, 0) && !ReadsRight(MovedVersion(a, b))
  {
    var v: Version, w: Version := CutVersion(a, b), MovedVersion(a, b);
    CutVersionWf(a, b);
    assert v[2] == [OneEntryFile(8, NewerEntry(a)), OneEntryFile(9, OlderEntry(b))];
    assert w[2] == [OneEntryFile(9, OlderEntry(b))] && w[3] == [OneEntryFile(8, NewerEntry(a))];
    assert !EndsItsKey(v[2], 0);
    TrivialMoveIff(v, w, 2, 0);
  }
}
