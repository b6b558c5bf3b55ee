/**
  File metadata, versions, version edits, and the builder that applies edits
  (VersionSet::Builder in db/version_set.cc).

  A file carries a payload of type C: () when only metadata matters, as in the
  manifest, and the table's entries where reads are concerned.
 */
module Files {
  import opened Entries

  const NUM_LEVELS: nat := 7

  datatype File<C> = File(number: nat, size: nat, smallest: IKey, largest: IKey, contents: C)

  type Version<C> = seq<seq<File<C>>>

  type Level = l: nat | l < NUM_LEVELS

  // The part of a version edit that changes the file set.
  datatype FileEdit<C> = FileEdit(deleted: seq<(Level, nat)>, added: seq<(Level, File<C>)>)

  // BySmallestKey: smallest internal key, ties broken by file number.
  predicate Before<C>(f: File<C>, g: File<C>) {
    ILess(f.smallest, g.smallest) || (!ILess(g.smallest, f.smallest) && f.number < g.number)
  }

  predicate Ordered<C>(fs: seq<File<C>>) {
    forall i, j :: 0 <= i < j < |fs| ==> Before(fs[i], fs[j])
  }

  // A strictly ordered sequence is determined by its members.
  lemma {:induction false} OrderedUnique<C>(a: seq<File<C>>, b: seq<File<C>>)
    requires Ordered(a) && Ordered(b)
    requires forall f :: f in a <==> f in b
    ensures a == b
  {
    if a == [] {
      assert forall i :: 0 <= i < |b| ==> b[i] in a;
    } else {
      assert a[0] in b;
      assert b[0] in a;
      assert a[0] == b[0];
      forall f ensures f in a[1..] <==> f in b[1..] {
        assert f in a[1..] <==> f in a && f != a[0];
        assert f in b[1..] <==> f in b && f != b[0];
      }
      OrderedUnique(a[1..], b[1..]);
      assert a == [a[0]] + a[1..] && b == [b[0]] + b[1..];
    }
  }

  // ---------------------------------------------------------------- edits

  ghost predicate Adds<C>(e: FileEdit<C>, l: Level, f: File<C>) {
    (l, f) in e.added
  }

  ghost function DeletedNumbers(deleted: seq<(Level, nat)>, l: Level): (r: set<nat>)
    ensures forall n :: n in r <==> (l, n) in deleted
  {
    set p | p in deleted && p.0 == l :: p.1
  }

  ghost function AddedNumbers<C>(added: seq<(Level, File<C>)>, l: Level): set<nat> {
    set p | p in added && p.0 == l :: p.1.number
  }

  ghost function Numbers<C>(fs: seq<File<C>>): set<nat> {
    set f | f in fs :: f.number
  }

  // No edit adds the same number twice to one level.
  ghost predicate AddsOnce<C>(e: FileEdit<C>) {
    forall i, j :: 0 <= i < j < |e.added| && e.added[i].0 == e.added[j].0 ==>
      e.added[i].1.number != e.added[j].1.number
  }

  // w is the version that one edit makes of v.
  ghost predicate Install<C(!new)>(v: Version<C>, e: FileEdit<C>, w: Version<C>) {
    && |v| == |w| == NUM_LEVELS
    && forall l: Level ::
         && Ordered(w[l])
         && forall f :: f in w[l] <==> (f in v[l] && f.number !in DeletedNumbers(e.deleted, l)) || Adds(e, l, f)
  }

  // ---------------------------------------------------------------- builder

  // Insertion into the std::set of added files.
  function InsertOrdered<C(!new)>(f: File<C>, fs: seq<File<C>>): (r: seq<File<C>>)
    requires Ordered(fs)
    requires forall g :: g in fs ==> g.number != f.number
    ensures Ordered(r)
    ensures forall g :: g in r <==> g == f || g in fs
  {
    if fs == [] || Before(f, fs[0]) then
      [f] + fs
    else
      assert forall g :: g in fs <==> g == fs[0] || g in fs[1..];
      var t := InsertOrdered(f, fs[1..]);
      assert forall j :: 0 <= j < |fs[1..]| ==> Before(fs[0], fs[1..][j]);
      assert forall g :: g in t ==> Before(fs[0], g);
      [fs[0]] + t
  }

  class Builder<C(!new)> {
    const base: Version<C>
    var deleted: seq<set<nat>>
    var added: seq<seq<File<C>>>

    ghost predicate Valid()
      reads this
    {
      && |base| == |deleted| == |added| == NUM_LEVELS
      && forall l: Level :: Ordered(base[l]) && Ordered(added[l])
    }

    constructor (base: Version<C>)
      requires |base| == NUM_LEVELS && forall l: Level :: Ordered(base[l])
      ensures Valid() && this.base == base
      ensures forall l: Level :: deleted[l] == {} && added[l] == []
    {
      this.base := base;
      deleted := seq(NUM_LEVELS, _ => {});
      added := seq(NUM_LEVELS, _ => []);
    }

    // Apply one edit: deletions first, then additions, each of which cancels a
    // recorded deletion of the same number.
    method Apply(e: FileEdit<C>)
      requires Valid() && AddsOnce(e)
      requires forall l: Level :: Numbers(added[l]) !! AddedNumbers(e.added, l)
      modifies this
      ensures Valid()
      ensures forall l: Level ::
                deleted[l] == old(deleted[l]) + DeletedNumbers(e.deleted, l) - AddedNumbers(e.added, l)
      ensures forall l: Level, f :: f in added[l] <==> f in old(added[l]) || Adds(e, l, f)
    {
      DeleteFiles(e.deleted);
      AddFiles(e);
    }

    method DeleteFiles(ds: seq<(Level, nat)>)
      requires Valid()
      modifies `deleted
      ensures Valid()
      ensures forall l: Level :: deleted[l] == old(deleted[l]) + DeletedNumbers(ds, l)
    {
      var i := 0;
      while i < |ds|
        invariant 0 <= i <= |ds|
        invariant Valid()
        invariant forall l: Level :: deleted[l] == old(deleted[l]) + DeletedNumbers(ds[..i], l)
      {
        var (level, number) := ds[i];
        deleted := deleted[level := deleted[level] + {number}];
        i := i + 1;
      }
      assert ds[..i] == ds;
    }

    method AddFiles(e: FileEdit<C>)
      requires Valid() && AddsOnce(e)
      requires forall l: Level :: Numbers(added[l]) !! AddedNumbers(e.added, l)
      modifies this
      ensures Valid()
      ensures forall l: Level :: deleted[l] == old(deleted[l]) - AddedNumbers(e.added, l)
      ensures forall l: Level, f :: f in added[l] <==> f in old(added[l]) || Adds(e, l, f)
    {
      hide AddsOnce, AddedNumbers;
      ghost var d0, a0 := deleted, added;
      var i := 0;
      NothingGathered(d0, a0);
      assert e.added[..0] == [];
      while i < |e.added|
        invariant 0 <= i <= |e.added|
        invariant Valid() && Gathered(d0, a0, deleted, added, e.added[..i])
      {
        var (level, f) := e.added[i];
        FreshNumber(d0, a0, deleted, added, e, i);
        ghost var d, a := deleted, added;
        AddFile(level, f);
        assert e.added[..i + 1] == e.added[..i] + [(level, f)];
        GatherOne(d0, a0, d, a, deleted, added, e.added[..i], level, f);
        i := i + 1;
      }
      assert e.added[..i] == e.added;
    }

    method AddFile(level: Level, f: File<C>)
      requires Valid()
      requires forall g :: g in added[level] ==> g.number != f.number
      modifies this
      ensures Valid()
      ensures deleted == old(deleted)[level := old(deleted[level]) - {f.number}]
      ensures forall l: Level, g :: g in added[l] <==> g in old(added[l]) || (l == level && g == f)
    {
      deleted := deleted[level := deleted[level] - {f.number}];
      added := added[level := InsertOrdered(f, added[level])];
    }

    // Merge base and added files, leaving out the deleted ones.
    method SaveTo() returns (v: Version<C>)
      requires Valid()
      requires forall l: Level :: Numbers(base[l]) !! Numbers(added[l])
      ensures |v| == NUM_LEVELS
      ensures forall l: Level :: Saved(v[l], base[l], added[l], deleted[l])
    {
      v := [];
      while |v| < NUM_LEVELS
        invariant |v| <= NUM_LEVELS
        invariant forall l: Level :: l < |v| ==> Saved(v[l], base[l], added[l], deleted[l])
      {
        var out := SaveLevel(base[|v|], added[|v|], deleted[|v|]);
        v := v + [out];
      }
    }
  }

  // What a builder holds after the additions es.
  ghost predicate Gathered<C(!new)>(d0: seq<set<nat>>, a0: seq<seq<File<C>>>, d: seq<set<nat>>, a: seq<seq<File<C>>>,
                                    es: seq<(Level, File<C>)>) {
    && |d0| == |a0| == |d| == |a| == NUM_LEVELS
    && (forall l: Level :: d[l] == d0[l] - AddedNumbers(es, l))
    && (forall l: Level, f :: f in a[l] <==> f in a0[l] || (l, f) in es)
  }

  lemma NothingGathered<C(!new)>(d0: seq<set<nat>>, a0: seq<seq<File<C>>>)
    requires |d0| == |a0| == NUM_LEVELS
    ensures Gathered(d0, a0, d0, a0, [])
  {
  }

  lemma GatherOne<C(!new)>(d0: seq<set<nat>>, a0: seq<seq<File<C>>>, d: seq<set<nat>>, a: seq<seq<File<C>>>,
                           d': seq<set<nat>>, a': seq<seq<File<C>>>, es: seq<(Level, File<C>)>, level: Level,
                           f: File<C>)
    requires Gathered(d0, a0, d, a, es) && |a'| == NUM_LEVELS && d' == d[level := d[level] - {f.number}]
    requires forall l: Level, g :: g in a'[l] <==> g in a[l] || (l == level && g == f)
    ensures Gathered(d0, a0, d', a', es + [(level, f)])
  {
    forall l: Level
      ensures AddedNumbers(es + [(level, f)], l) == AddedNumbers(es, l) + if l == level then {f.number} else {}
    {
      forall p | p in es ensures p in es + [(level, f)] {}
    }
  }

  lemma FreshNumber<C(!new)>(d0: seq<set<nat>>, a0: seq<seq<File<C>>>, d: seq<set<nat>>, a: seq<seq<File<C>>>,
                             e: FileEdit<C>, i: nat)
    requires i < |e.added| && Gathered(d0, a0, d, a, e.added[..i]) && AddsOnce(e)
    requires forall l: Level :: Numbers(a0[l]) !! AddedNumbers(e.added, l)
    ensures forall g :: g in a[e.added[i].0] ==> g.number != e.added[i].1.number
  {
    var (level, f) := e.added[i];
    forall g | g in a[level] ensures g.number != f.number {
      if g in a0[level] {
        assert g.number in Numbers(a0[level]);
        assert f.number in AddedNumbers(e.added, level);
      }
    }
  }

  // The ordered sequence of the files of base and added that are not deleted.
  ghost predicate Saved<C(!new)>(out: seq<File<C>>, base: seq<File<C>>, added: seq<File<C>>, deleted: set<nat>) {
    && Ordered(out)
    && forall f :: f in out <==> (f in base || f in added) && f.number !in deleted
  }

  // MaybeAddFile
  function Keep<C>(f: File<C>, deleted: set<nat>): seq<File<C>> {
    if f.number in deleted then [] else [f]
  }

  // The merge of base[b..] and added[a..].
  function MergeFiles<C>(base: seq<File<C>>, b: nat, added: seq<File<C>>, a: nat, deleted: set<nat>): seq<File<C>>
    requires b <= |base| && a <= |added|
    decreases |base| - b + |added| - a
  {
    if b < |base| && (a == |added| || !Before(added[a], base[b])) then
      Keep(base[b], deleted) + MergeFiles(base, b + 1, added, a, deleted)
    else if a < |added| then
      Keep(added[a], deleted) + MergeFiles(base, b, added, a + 1, deleted)
    else
      []
  }

  lemma {:induction false} MergeFilesSaved<C(!new)>(base: seq<File<C>>, b: nat, added: seq<File<C>>, a: nat,
                                                    deleted: set<nat>)
    requires b <= |base| && a <= |added|
    requires Ordered(base) && Ordered(added)
    requires forall f, g :: f in base && g in added ==> f.number != g.number
    ensures Saved(MergeFiles(base, b, added, a, deleted), base[b..], added[a..], deleted)
    decreases |base| - b + |added| - a
  {
    hide Before, Ordered, Saved;
    if b < |base| && (a == |added| || !Before(added[a], base[b])) {
      MergeFilesSaved(base, b + 1, added, a, deleted);
      BeforeRest(base, b);
      if a < |added| {
        BeforeTotal(added[a], base[b]);
        BeforeAll(base[b], added, a);
      }
      SavedConsBase(base[b], MergeFiles(base, b + 1, added, a, deleted), base[b + 1..], added[a..], deleted);
      assert base[b..] == [base[b]] + base[b + 1..];
    } else if a < |added| {
      MergeFilesSaved(base, b, added, a + 1, deleted);
      BeforeRest(added, a);
      if b < |base| { BeforeAll(added[a], base, b); }
      SavedConsAdded(added[a], MergeFiles(base, b, added, a + 1, deleted), base[b..], added[a + 1..], deleted);
      assert added[a..] == [added[a]] + added[a + 1..];
    } else {
      assert base[b..] == [] && added[a..] == [];
      SavedEmpty<C>(deleted);
    }
  }

  lemma SavedEmpty<C(!new)>(deleted: set<nat>)
    ensures Saved<C>([], [], [], deleted)
  {
  }

  lemma SavedConsBase<C(!new)>(f: File<C>, rest: seq<File<C>>, base: seq<File<C>>, added: seq<File<C>>,
                               deleted: set<nat>)
    requires Saved(rest, base, added, deleted)
    requires (forall g :: g in base ==> Before(f, g)) && (forall g :: g in added ==> Before(f, g))
    ensures Saved(Keep(f, deleted) + rest, [f] + base, added, deleted)
  {
    SavedCons(f, rest, deleted);
  }

  lemma SavedConsAdded<C(!new)>(f: File<C>, rest: seq<File<C>>, base: seq<File<C>>, added: seq<File<C>>,
                                deleted: set<nat>)
    requires Saved(rest, base, added, deleted)
    requires (forall g :: g in base ==> Before(f, g)) && (forall g :: g in added ==> Before(f, g))
    ensures Saved(Keep(f, deleted) + rest, base, [f] + added, deleted)
  {
    SavedCons(f, rest, deleted);
  }

  lemma BeforeTotal<C>(f: File<C>, g: File<C>)
    requires f.number != g.number
    ensures Before(f, g) || Before(g, f)
  {
  }

  lemma BeforeRest<C>(fs: seq<File<C>>, i: nat)
    requires Ordered(fs) && i < |fs|
    ensures forall g :: g in fs[i + 1..] ==> Before(fs[i], g)
  {
  }

  lemma BeforeAll<C>(f: File<C>, fs: seq<File<C>>, i: nat)
    requires Ordered(fs) && i < |fs| && Before(f, fs[i])
    ensures forall g :: g in fs[i..] ==> Before(f, g)
  {
    assert fs[i..] == [fs[i]] + fs[i + 1..];
    BeforeRest(fs, i);
  }

  lemma SavedCons<C>(f: File<C>, rest: seq<File<C>>, deleted: set<nat>)
    requires Ordered(rest)
    requires forall g :: g in rest ==> Before(f, g)
    ensures Ordered(Keep(f, deleted) + rest)
    ensures forall g :: g in Keep(f, deleted) + rest <==> (g == f && f.number !in deleted) || g in rest
  {
    assert forall i :: 0 <= i < |rest| ==> rest[i] in rest;
  }

  lemma Regroup<C>(a: seq<File<C>>, b: seq<File<C>>, c: seq<File<C>>)
    ensures a + (b + c) == (a + b) + c
  {
  }

  method SaveLevel<C(!new)>(base: seq<File<C>>, added: seq<File<C>>, deleted: set<nat>) returns (out: seq<File<C>>)
    requires Ordered(base) && Ordered(added)
    requires Numbers(base) !! Numbers(added)
    ensures Saved(out, base, added, deleted)
  {
    out := MergeLoop(base, added, deleted);
    forall f, g | f in base && g in added ensures f.number != g.number {
      assert f.number in Numbers(base) && g.number in Numbers(added);
    }
    MergeFilesSaved(base, 0, added, 0, deleted);
    assert base[0..] == base && added[0..] == added;
  }

  method MergeLoop<C>(base: seq<File<C>>, added: seq<File<C>>, deleted: set<nat>) returns (out: seq<File<C>>)
    ensures out == MergeFiles(base, 0, added, 0, deleted)
  {
    hide Keep, Before;
    out := [];
    var b := 0;
    var a := 0;
    ghost var all := MergeFiles(base, 0, added, 0, deleted);
    while a < |added|
      invariant 0 <= b <= |base| && 0 <= a <= |added|
      invariant out + MergeFiles(base, b, added, a, deleted) == all
    {
      // upper_bound: first the base files that do not come after added[a]
      while b < |base| && !Before(added[a], base[b])
        invariant 0 <= b <= |base|
        invariant out + MergeFiles(base, b, added, a, deleted) == all
      {
        Regroup(out, Keep(base[b], deleted), MergeFiles(base, b + 1, added, a, deleted));
        out := out + Keep(base[b], deleted);
        b := b + 1;
      }
      Regroup(out, Keep(added[a], deleted), MergeFiles(base, b, added, a + 1, deleted));
      out := out + Keep(added[a], deleted);
      a := a + 1;
    }
    while b < |base|
      invariant 0 <= b <= |base|
      invariant out + MergeFiles(base, b, added, a, deleted) == all
    {
      Regroup(out, Keep(base[b], deleted), MergeFiles(base, b + 1, added, a, deleted));
      out := out + Keep(base[b], deleted);
      b := b + 1;
    }
  }

  // ---------------------------------------------------------------- installing and replaying

  ghost predicate OrderedVersion<C>(v: Version<C>) {
    |v| == NUM_LEVELS && forall l: Level :: Ordered(v[l])
  }

  // LogAndApply: one builder per edit.
  method InstallEdit<C(!new)>(v: Version<C>, e: FileEdit<C>) returns (w: Version<C>)
    requires OrderedVersion(v) && FreshHistory(v, [e])
    ensures Install(v, e, w)
  {
    assert [e][0] == e;
    var builder := new Builder<C>(v);
    builder.Apply(e);
    NewNumbersDisjoint(v, e, builder.added);
    w := builder.SaveTo();
    forall l: Level, f | f in v[l] ensures f.number !in AddedNumbers(e.added, l) {
      assert f.number in Numbers(v[l]);
    }
    forall l: Level, f | Adds(e, l, f) ensures f.number in AddedNumbers(e.added, l) {
      assert (l, f) in e.added;
    }
  }

  lemma NewNumbersDisjoint<C(!new)>(v: Version<C>, e: FileEdit<C>, added: seq<seq<File<C>>>)
    requires OrderedVersion(v) && FreshHistory(v, [e]) && |added| == NUM_LEVELS
    requires forall l: Level, f :: f in added[l] <==> Adds(e, l, f)
    ensures forall l: Level :: Numbers(v[l]) !! Numbers(added[l])
  {
    assert [e][0] == e;
    forall l: Level, f | f in added[l] ensures f.number in AddedNumbers(e.added, l) {
      assert (l, f) in e.added;
    }
  }

  // Each (level, file number) pair is added at most once in a history of edits
  // and is not in the base version.
  ghost predicate FreshHistory<C>(v: Version<C>, es: seq<FileEdit<C>>)
    requires |v| == NUM_LEVELS
  {
    && (forall i :: 0 <= i < |es| ==> AddsOnce(es[i]))
    && (forall i, l: Level :: 0 <= i < |es| ==> Numbers(v[l]) !! AddedNumbers(es[i].added, l))
    && (forall i, j, l: Level :: 0 <= i < j < |es| ==> AddedNumbers(es[i].added, l) !! AddedNumbers(es[j].added, l))
  }

  // vs is the run of versions that installs the edits one at a time.
  ghost predicate Chain<C(!new)>(vs: seq<Version<C>>, v: Version<C>, es: seq<FileEdit<C>>) {
    && |vs| == |es| + 1
    && vs[0] == v
    && forall i :: 0 <= i < |es| ==> Install(vs[i], es[i], vs[i + 1])
  }

  // What a single builder has recorded as deleted after several edits.
  ghost function StillDeleted<C>(es: seq<FileEdit<C>>, l: Level): set<nat> {
    if es == [] then {}
    else
      var e := es[|es| - 1];
      StillDeleted(es[..|es| - 1], l) + DeletedNumbers(e.deleted, l) - AddedNumbers(e.added, l)
  }

  ghost predicate AddedBy<C>(es: seq<FileEdit<C>>, l: Level, f: File<C>) {
    exists i :: 0 <= i < |es| && Adds(es[i], l, f)
  }

  lemma {:induction false} ChainMembers<C(!new)>(vs: seq<Version<C>>, v: Version<C>, es: seq<FileEdit<C>>, l: Level,
                                                 f: File<C>)
    requires OrderedVersion(v) && FreshHistory(v, es) && Chain(vs, v, es)
    ensures |vs[|es|]| == NUM_LEVELS
    ensures f in vs[|es|][l] <==> (f in v[l] || AddedBy(es, l, f)) && f.number !in StillDeleted(es, l)
    decreases |es|
  {
    if es != [] {
      var n := |es| - 1;
      var e := es[n];
      ChainMembers(vs[..n + 1], v, es[..n], l, f);
      assert Install(vs[n], e, vs[n + 1]);
      assert AddedBy(es, l, f) <==> AddedBy(es[..n], l, f) || Adds(e, l, f);
      if Adds(e, l, f) {
        assert (l, f) in e.added && f.number in AddedNumbers(e.added, l);
      } else if f in v[l] {
        assert f.number in Numbers(v[l]);
      } else if AddedBy(es[..n], l, f) {
        var i :| 0 <= i < n && Adds(es[..n][i], l, f);
        assert (l, f) in es[i].added && f.number in AddedNumbers(es[i].added, l);
      }
    }
  }

  // VersionSet::Recover: all edits through one builder and one SaveTo.
  method ReplayAll<C(!new)>(v: Version<C>, es: seq<FileEdit<C>>) returns (w: Version<C>)
    requires OrderedVersion(v) && FreshHistory(v, es)
    ensures Replayed(v, es, w)
  {
    var builder := new Builder<C>(v);
    var i := 0;
    while i < |es|
      invariant 0 <= i <= |es|
      invariant builder.Valid() && builder.base == v
      invariant Recorded(builder.deleted, builder.added, es[..i])
    {
      RecordedDisjoint(builder.deleted, builder.added, v, es, i);
      ghost var deleted, added := builder.deleted, builder.added;
      builder.Apply(es[i]);
      RecordedStep(deleted, added, builder.deleted, builder.added, es, i);
      i := i + 1;
    }
    assert es[..i] == es;
    RecordedDisjointBase(builder.deleted, builder.added, v, es);
    w := builder.SaveTo();
  }

  // What was ever added and is not deleted at the end, in order.
  ghost predicate Replayed<C(!new)>(v: Version<C>, es: seq<FileEdit<C>>, w: Version<C>)
    requires |v| == NUM_LEVELS
  {
    && OrderedVersion(w)
    && forall l: Level, f :: f in w[l] <==> (f in v[l] || AddedBy(es, l, f)) && f.number !in StillDeleted(es, l)
  }

  // It is the version that installing the edits one by one arrives at.
  lemma ReplayedIsInstalled<C(!new)>(v: Version<C>, es: seq<FileEdit<C>>, vs: seq<Version<C>>, w: Version<C>)
    requires OrderedVersion(v) && FreshHistory(v, es) && Chain(vs, v, es) && Replayed(v, es, w)
    ensures w == vs[|es|]
  {
    assert OrderedVersion(vs[|es|]) by {
      if |es| > 0 { assert Install(vs[|es| - 1], es[|es| - 1], vs[|es|]); }
    }
    forall l: Level ensures w[l] == vs[|es|][l] {
      forall f ensures f in w[l] <==> f in vs[|es|][l] { ChainMembers(vs, v, es, l, f); }
      OrderedUnique(w[l], vs[|es|][l]);
    }
  }

  ghost predicate Recorded<C(!new)>(deleted: seq<set<nat>>, added: seq<seq<File<C>>>, es: seq<FileEdit<C>>) {
    && |deleted| == |added| == NUM_LEVELS
    && (forall l: Level :: deleted[l] == StillDeleted(es, l))
    && (forall l: Level, f :: f in added[l] <==> AddedBy(es, l, f))
  }

  lemma RecordedStep<C(!new)>(d: seq<set<nat>>, a: seq<seq<File<C>>>, d': seq<set<nat>>, a': seq<seq<File<C>>>,
                              es: seq<FileEdit<C>>, i: nat)
    requires i < |es| && Recorded(d, a, es[..i]) && |d'| == |a'| == NUM_LEVELS
    requires forall l: Level :: d'[l] == d[l] + DeletedNumbers(es[i].deleted, l) - AddedNumbers(es[i].added, l)
    requires forall l: Level, f :: f in a'[l] <==> f in a[l] || Adds(es[i], l, f)
    ensures Recorded(d', a', es[..i + 1])
  {
    assert es[..i + 1][..i] == es[..i];
    forall l: Level, f ensures AddedBy(es[..i + 1], l, f) <==> AddedBy(es[..i], l, f) || Adds(es[i], l, f) {
      if Adds(es[i], l, f) { assert Adds(es[..i + 1][i], l, f); }
      if AddedBy(es[..i], l, f) {
        var k :| 0 <= k < i && Adds(es[..i][k], l, f);
        assert Adds(es[..i + 1][k], l, f);
      }
    }
  }

  lemma RecordedDisjoint<C(!new)>(d: seq<set<nat>>, a: seq<seq<File<C>>>, v: Version<C>, es: seq<FileEdit<C>>, i: nat)
    requires i < |es| && Recorded(d, a, es[..i])
    requires |v| == NUM_LEVELS && FreshHistory(v, es)
    ensures forall l: Level :: Numbers(a[l]) !! AddedNumbers(es[i].added, l)
  {
    forall l: Level, f | f in a[l] ensures f.number !in AddedNumbers(es[i].added, l) {
      var k :| 0 <= k < i && Adds(es[..i][k], l, f);
      assert (l, f) in es[k].added && f.number in AddedNumbers(es[k].added, l);
    }
  }

  lemma RecordedDisjointBase<C(!new)>(d: seq<set<nat>>, a: seq<seq<File<C>>>, v: Version<C>, es: seq<FileEdit<C>>)
    requires Recorded(d, a, es)
    requires |v| == NUM_LEVELS && FreshHistory(v, es)
    ensures forall l: Level :: Numbers(v[l]) !! Numbers(a[l])
  {
    forall l: Level, f | f in a[l] ensures f.number !in Numbers(v[l]) {
      var k :| 0 <= k < |es| && Adds(es[k], l, f);
      assert (l, f) in es[k].added && f.number in AddedNumbers(es[k].added, l);
    }
  }
}
