/**
  Versions of the levelled file set and the lookup that walks them
  (db/version_set.cc): file search, range overlap, Version::Get and the level
  choice for a flushed memtable.
 */
module Versions {
  import opened Basics
  import opened Entries

  import F = Files

  // Metadata together with the entries that the table cache reads under the
  // file's number: a table never changes once it is built.
  type File = F.File<seq<Entry>>
  type Version = F.Version<seq<Entry>>

  const NUM_LEVELS := F.NUM_LEVELS

  ghost predicate WfFile(f: File) {
    && |f.contents| > 0
    && Sorted(f.contents)
    && f.smallest == f.contents[0].ik
    && f.largest == f.contents[|f.contents| - 1].ik
  }

  ghost predicate AllWf(fs: seq<File>) {
    forall i :: 0 <= i < |fs| ==> WfFile(fs[i])
  }

  // The order that the builder asserts in levels above zero.
  ghost predicate LevelSorted(fs: seq<File>) {
    forall i, j :: 0 <= i < j < |fs| ==> ILess(fs[i].largest, fs[j].smallest)
  }

  // Every entry of a is newer than every entry of b for the same user key.
  ghost predicate Newer(a: File, b: File) {
    forall x, y :: x in a.contents && y in b.contents && x.ik.key == y.ik.key ==> x.ik.sequence > y.ik.sequence
  }

  ghost predicate LevelZeroOrdered(fs: seq<File>) {
    && (forall i, j :: 0 <= i < j < |fs| ==> fs[i].number != fs[j].number)
    && (forall i, j :: 0 <= i < |fs| && 0 <= j < |fs| && fs[i].number > fs[j].number ==> Newer(fs[i], fs[j]))
  }

  ghost predicate ShallowNewer(v: Version) {
    forall l, m, i, j :: 0 <= l < m < |v| && 0 <= i < |v[l]| && 0 <= j < |v[m]| ==> Newer(v[l][i], v[m][j])
  }

  ghost predicate SortedLevels(v: Version) {
    && |v| == NUM_LEVELS
    && (forall l :: 0 <= l < |v| ==> AllWf(v[l]))
    && (forall l :: 1 <= l < |v| ==> LevelSorted(v[l]))
  }

  // What every lookup relies on.
  ghost predicate WfVersion(v: Version) {
    && SortedLevels(v)
    && LevelZeroOrdered(v[0])
    && ShallowNewer(v)
  }

  ghost function LevelEntries(fs: seq<File>): set<Entry> {
    set i, e | 0 <= i < |fs| && e in fs[i].contents :: e
  }

  ghost function VersionEntries(v: Version): set<Entry> {
    set l, i, e | 0 <= l < |v| && 0 <= i < |v[l]| && e in v[l][i].contents :: e
  }

  // ---------------------------------------------------------------- tables

  // A table lookup positions at the first entry at or after the target
  // (TableLookup proves that the on-disk format does exactly this).
  function Seek(es: seq<Entry>, t: IKey): (i: nat)
    ensures i <= |es|
    ensures forall j :: 0 <= j < i ==> ILess(es[j].ik, t)
    ensures i < |es| ==> !ILess(es[i].ik, t)
  {
    if |es| == 0 || !ILess(es[0].ik, t) then 0
    else
      var r := Seek(es[1..], t);
      assert forall j :: 0 < j < r + 1 ==> es[j] == es[1..][j - 1];
      r + 1
  }

  // The entry that SaveValue or MemTable::Get accepts, if any.
  function Lookup(es: seq<Entry>, k: Key, s: Sequence): Option<Entry> {
    var i := Seek(es, LookupKey(k, s));
    if i < |es| && es[i].ik.key == k then Some(es[i]) else None
  }

  lemma LookupNewest(es: seq<Entry>, k: Key, s: Sequence)
    requires Sorted(es)
    ensures Lookup(es, k, s).None? ==> forall e :: e in es ==> !Visible(e, k, s)
    ensures Lookup(es, k, s).Some? ==> Newest(SetOf(es), k, s, Lookup(es, k, s).value)
  {
    var i := Seek(es, LookupKey(k, s));
    forall e | e in es && Visible(e, k, s)
      ensures i < |es| && es[i].ik.key == k && e.ik.sequence <= es[i].ik.sequence
    {
      var j :| 0 <= j < |es| && es[j] == e;
      assert !ILess(e.ik, LookupKey(k, s));
      assert i <= j;
    }
  }

  function TableGet(f: File, k: Key, s: Sequence): Option<Entry> {
    Lookup(f.contents, k, s)
  }

  lemma TableGetNewest(f: File, k: Key, s: Sequence)
    requires WfFile(f)
    ensures TableGet(f, k, s).None? ==> forall e :: e in f.contents ==> !Visible(e, k, s)
    ensures TableGet(f, k, s).Some? ==> Newest(SetOf(f.contents), k, s, TableGet(f, k, s).value)
  {
    LookupNewest(f.contents, k, s);
  }

  // ---------------------------------------------------------------- FindFile

  // Binary search for the earliest file whose largest key is at or after target.
  method FindFile(fs: seq<File>, target: IKey) returns (right: nat)
    requires AllWf(fs) && LevelSorted(fs)
    ensures right <= |fs|
    ensures forall i :: 0 <= i < right ==> ILess(fs[i].largest, target)
    ensures forall i :: right <= i < |fs| ==> !ILess(fs[i].largest, target)
  {
    var left := 0;
    right := |fs|;
    while left < right
      invariant left <= right <= |fs|
      invariant forall i :: 0 <= i < left ==> ILess(fs[i].largest, target)
      invariant forall i :: right <= i < |fs| ==> !ILess(fs[i].largest, target)
    {
      var mid := (left + right) / 2;
      FileBounds(fs[mid]);
      if ILess(fs[mid].largest, target) {
        LargestSorted(fs, mid);
        left := mid + 1;
      } else {
        LargestSorted(fs, mid);
        right := mid;
      }
    }
  }

  lemma FileBounds(f: File)
    requires WfFile(f)
    ensures ILeq(f.smallest, f.largest)
    ensures forall e :: e in f.contents ==> ILeq(f.smallest, e.ik) && ILeq(e.ik, f.largest)
  {
  }

  lemma LargestSorted(fs: seq<File>, m: nat)
    requires AllWf(fs) && LevelSorted(fs) && m < |fs|
    ensures forall i :: 0 <= i < m ==> ILess(fs[i].largest, fs[m].largest)
    ensures forall i :: m < i < |fs| ==> ILess(fs[m].largest, fs[i].largest)
  {
    forall i | 0 <= i < |fs| ensures ILeq(fs[i].smallest, fs[i].largest) { FileBounds(fs[i]); }
  }

  // ---------------------------------------------------------------- Version::Get

  predicate InRange(f: File, k: Key) {
    f.smallest.key <= k <= f.largest.key
  }

  function InsertNewest(f: File, fs: seq<File>): (r: seq<File>)
    ensures forall g :: g in r <==> g == f || g in fs
    ensures NewestFirst(fs) ==> NewestFirst(r)
  {
    if fs == [] || fs[0].number <= f.number then
      [f] + fs
    else
      assert forall g :: g in fs <==> g == fs[0] || g in fs[1..];
      var t := InsertNewest(f, fs[1..]);
      assert NewestFirst(fs) ==> forall j :: 0 <= j < |fs[1..]| ==> fs[1..][j].number <= fs[0].number;
      assert NewestFirst(fs) ==> forall g :: g in fs[1..] ==> g.number <= fs[0].number;
      assert NewestFirst(fs) ==> forall g :: g in t ==> g.number <= fs[0].number;
      [fs[0]] + t
  }

  predicate NewestFirst(fs: seq<File>) {
    forall i, j :: 0 <= i < j < |fs| ==> fs[i].number >= fs[j].number
  }

  // Level-zero files whose range covers the key, newest file first.
  function Candidates(fs: seq<File>, k: Key): (r: seq<File>)
    ensures NewestFirst(r)
    ensures forall f :: f in r <==> f in fs && InRange(f, k)
  {
    if fs == [] then []
    else
      var rest := Candidates(fs[1..], k);
      assert forall f :: f in fs <==> f == fs[0] || f in fs[1..];
      if InRange(fs[0], k) then
        InsertNewest(fs[0], rest)
      else rest
  }

  ghost predicate NoneVisible(fs: seq<File>, k: Key, s: Sequence) {
    forall f, e :: f in fs && e in f.contents ==> !Visible(e, k, s)
  }

  lemma OutOfRange(f: File, k: Key)
    requires WfFile(f) && !InRange(f, k)
    ensures forall e :: e in f.contents ==> e.ik.key != k
  {
    FileBounds(f);
  }

  // What a lookup may conclude from one level of files.
  ghost predicate LevelAnswer(fs: seq<File>, k: Key, s: Sequence, r: Option<Entry>) {
    match r
    case None => NoneVisible(fs, k, s)
    case Some(e) => Newest(LevelEntries(fs), k, s, e)
  }

  // The newest-first scan of the level-zero candidates.
  method GetLevelZero(fs: seq<File>, k: Key, s: Sequence) returns (r: Option<Entry>)
    requires AllWf(fs) && LevelZeroOrdered(fs)
    ensures LevelAnswer(fs, k, s, r)
  {
    var files := Candidates(fs, k);
    var i := 0;
    while i < |files|
      invariant 0 <= i <= |files|
      invariant NoneVisible(files[..i], k, s)
    {
      var f := files[i];
      assert f in fs;
      TableGetNewest(f, k, s);
      r := TableGet(f, k, s);
      if r.Some? {
        LevelZeroHit(fs, files, i, k, s);
        return;
      }
      i := i + 1;
    }
    forall f, e | f in fs && e in f.contents ensures !Visible(e, k, s) {
      if !InRange(f, k) { OutOfRange(f, k); } else { assert f in files[..i]; }
    }
    r := None;
  }

  lemma LevelZeroHit(fs: seq<File>, files: seq<File>, n: nat, k: Key, s: Sequence)
    requires AllWf(fs) && LevelZeroOrdered(fs)
    requires files == Candidates(fs, k) && n < |files|
    requires NoneVisible(files[..n], k, s)
    requires TableGet(files[n], k, s).Some?
    ensures Newest(LevelEntries(fs), k, s, TableGet(files[n], k, s).value)
  {
    var f := files[n];
    assert f in fs;
    TableGetNewest(f, k, s);
    var hit := TableGet(f, k, s).value;
    assert hit in SetOf(f.contents);
    forall x | x in LevelEntries(fs) && Visible(x, k, s)
      ensures x.ik.sequence <= hit.ik.sequence
    {
      var i :| 0 <= i < |fs| && x in fs[i].contents;
      if fs[i] == f {
        assert x in SetOf(f.contents);
      } else {
        LaterCandidate(fs, files, n, k, s, i, x);
        assert Newer(f, fs[i]);
      }
    }
  }

  // A level-zero file with a visible entry that is not among the files already
  // searched is older than the file being searched.
  lemma LaterCandidate(fs: seq<File>, files: seq<File>, n: nat, k: Key, s: Sequence, i: nat, x: Entry)
    requires AllWf(fs) && LevelZeroOrdered(fs)
    requires files == Candidates(fs, k) && n < |files|
    requires NoneVisible(files[..n], k, s)
    requires i < |fs| && fs[i] != files[n] && x in fs[i].contents && Visible(x, k, s)
    ensures Newer(files[n], fs[i])
  {
    FileBounds(fs[i]);
    assert fs[i] in files;
    assert forall q :: 0 <= q < n ==> files[q] in files[..n];
    var j :| 0 <= j < |files| && files[j] == fs[i];
    assert files[n] in fs;
    var m :| 0 <= m < |fs| && fs[m] == files[n];
    assert fs[m].number != fs[i].number;
  }

  // One binary search and one table lookup in a sorted level.
  method GetSortedLevel(fs: seq<File>, k: Key, s: Sequence) returns (r: Option<Entry>)
    requires AllWf(fs) && LevelSorted(fs)
    ensures LevelAnswer(fs, k, s, r)
  {
    var index := FindFile(fs, LookupKey(k, s));
    r := None;
    if index < |fs| && fs[index].smallest.key <= k {
      r := TableGet(fs[index], k, s);
    }
    SortedLevelAnswer(fs, index, k, s);
  }

  lemma SortedLevelAnswer(fs: seq<File>, index: nat, k: Key, s: Sequence)
    requires AllWf(fs) && LevelSorted(fs) && index <= |fs|
    requires forall i :: 0 <= i < index ==> ILess(fs[i].largest, LookupKey(k, s))
    requires forall i :: index <= i < |fs| ==> !ILess(fs[i].largest, LookupKey(k, s))
    ensures LevelAnswer(fs, k, s,
                        if index < |fs| && fs[index].smallest.key <= k then TableGet(fs[index], k, s) else None)
  {
    forall i, e | 0 <= i < |fs| && e in fs[i].contents && Visible(e, k, s)
      ensures index <= i < |fs|
      ensures fs[index].smallest.key <= k
      ensures TableGet(fs[index], k, s).Some?
      ensures e.ik.sequence <= TableGet(fs[index], k, s).value.ik.sequence
    {
      FileBounds(fs[i]);
      assert !ILess(e.ik, LookupKey(k, s));
      FileBounds(fs[index]);
      TableGetNewest(fs[index], k, s);
      if i == index {
        assert e in SetOf(fs[i].contents);
      } else {
        assert ILess(fs[index].largest, fs[i].smallest);
        var last := fs[index].contents[|fs[index].contents| - 1];
        assert ILess(last.ik, e.ik) && Visible(last, k, s);
        assert last in SetOf(fs[index].contents);
      }
    }
    if index < |fs| && fs[index].smallest.key <= k {
      TableGetNewest(fs[index], k, s);
      var r := TableGet(fs[index], k, s);
      if r.Some? {
        assert r.value in fs[index].contents;
      }
    }
  }

  // What the search finds: the newest entry of the shallowest level that has a
  // visible one.
  ghost predicate FirstHit(v: Version, k: Key, s: Sequence, hit: Option<Entry>) {
    match hit
    case None => forall l :: 0 <= l < |v| ==> NoneVisible(v[l], k, s)
    case Some(e) => exists level :: 0 <= level < |v| && HitAt(v, level, k, s, e)
  }

  ghost predicate HitAt(v: Version, level: nat, k: Key, s: Sequence, e: Entry)
    requires level < |v|
  {
    (forall l :: 0 <= l < level ==> NoneVisible(v[l], k, s)) && Newest(LevelEntries(v[level]), k, s, e)
  }

  // What it should find: the newest entry of all files.
  ghost predicate RightHit(v: Version, k: Key, s: Sequence, hit: Option<Entry>) {
    match hit
    case None => forall e :: e in VersionEntries(v) ==> !Visible(e, k, s)
    case Some(e) => Newest(VersionEntries(v), k, s, e)
  }

  // Version::Get: level by level, stopping at the first level that answers.
  // Where shallower levels are newer that is the read of the union of all files.
  method Get(v: Version, k: Key, s: Sequence) returns (r: Option<Value>)
    requires SortedLevels(v) && LevelZeroOrdered(v[0])
    ensures exists hit :: FirstHit(v, k, s, hit) && r == (if hit.Some? then Answer(hit.value) else None)
    ensures ShallowNewer(v) && Distinct(VersionEntries(v)) ==> r == Read(VersionEntries(v), k, s)
  {
    var hit := Search(v, k, s);
    r := if hit.Some? then Answer(hit.value) else None;
    if ShallowNewer(v) && Distinct(VersionEntries(v)) {
      FirstHitIsRight(v, k, s, hit);
      if hit.Some? { ReadIsNewest(VersionEntries(v), k, s, hit.value); } else { ReadNothing(VersionEntries(v), k, s); }
    }
  }

  method Search(v: Version, k: Key, s: Sequence) returns (hit: Option<Entry>)
    requires SortedLevels(v) && LevelZeroOrdered(v[0])
    ensures FirstHit(v, k, s, hit)
  {
    var level := 0;
    while level < NUM_LEVELS
      invariant 0 <= level <= NUM_LEVELS
      invariant forall l :: 0 <= l < level ==> NoneVisible(v[l], k, s)
    {
      if level == 0 {
        hit := GetLevelZero(v[0], k, s);
      } else {
        hit := GetSortedLevel(v[level], k, s);
      }
      if hit.Some? {
        assert HitAt(v, level, k, s, hit.value);
        return;
      }
      level := level + 1;
    }
    hit := None;
  }

  lemma FirstHitIsRight(v: Version, k: Key, s: Sequence, hit: Option<Entry>)
    requires WfVersion(v) && FirstHit(v, k, s, hit)
    ensures RightHit(v, k, s, hit)
  {
    if hit.Some? {
      var level :| 0 <= level < |v| && HitAt(v, level, k, s, hit.value);
      VersionHit(v, level, k, s, hit.value);
    }
  }

  lemma VersionHit(v: Version, level: nat, k: Key, s: Sequence, e: Entry)
    requires WfVersion(v) && level < |v|
    requires forall l :: 0 <= l < level ==> NoneVisible(v[l], k, s)
    requires Newest(LevelEntries(v[level]), k, s, e)
    ensures Newest(VersionEntries(v), k, s, e)
  {
    var i :| 0 <= i < |v[level]| && e in v[level][i].contents;
    forall x | x in VersionEntries(v) && Visible(x, k, s)
      ensures x.ik.sequence <= e.ik.sequence
    {
      var m, j :| 0 <= m < |v| && 0 <= j < |v[m]| && x in v[m][j].contents;
      if m > level {
        assert Newer(v[level][i], v[m][j]);
      } else if m == level {
        assert x in LevelEntries(v[level]);
      }
    }
  }
}
