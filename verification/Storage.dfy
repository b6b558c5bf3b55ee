/**
  What survives a crash: log files, tables, manifests and the CURRENT pointer,
  and what they mean as a set of entries.
 */
module Storage {
  import opened Basics
  import opened Entries
  import opened Versions
  import opened Levels
  import F = Files

  type Meta = F.File<()>

  // One manifest record: a version edit as LogAndApply and WriteSnapshot fill it.
  datatype Record = Record(edit: F.FileEdit<()>, log: Option<nat>, next: Option<nat>, last: Option<Sequence>)

  // A log holds one group of entries per record.
  type Log = seq<seq<Entry>>

  datatype Disk = Disk(
    logs: map<nat, Log>,
    tables: map<nat, seq<Entry>>,
    manifests: map<nat, seq<Record>>,
    current: nat)

  // ---------------------------------------------------------------- manifest

  // The values that VersionSet::Recover reads: the last one of each kind wins.
  function LastLog(rs: seq<Record>): Option<nat> {
    if rs == [] then None
    else if rs[|rs| - 1].log.Some? then rs[|rs| - 1].log
    else LastLog(rs[..|rs| - 1])
  }

  function LastNext(rs: seq<Record>): Option<nat> {
    if rs == [] then None
    else if rs[|rs| - 1].next.Some? then rs[|rs| - 1].next
    else LastNext(rs[..|rs| - 1])
  }

  function LastSequence(rs: seq<Record>): Option<Sequence> {
    if rs == [] then None
    else if rs[|rs| - 1].last.Some? then rs[|rs| - 1].last
    else LastSequence(rs[..|rs| - 1])
  }

  ghost function AddedMetas(e: F.FileEdit<()>, l: Level): set<Meta> {
    set p | p in e.added && p.0 == l :: p.1
  }

  // The files of a level after replaying the records.
  ghost function FilesAt(rs: seq<Record>, l: Level): set<Meta> {
    if rs == [] then {}
    else
      var e := rs[|rs| - 1].edit;
      (set g | g in FilesAt(rs[..|rs| - 1], l) && g.number !in F.DeletedNumbers(e.deleted, l)) + AddedMetas(e, l)
  }

  function Edits(rs: seq<Record>): seq<F.FileEdit<()>> {
    seq(|rs|, i requires 0 <= i < |rs| => rs[i].edit)
  }

  const EMPTY_VERSION: F.Version<()> := [[], [], [], [], [], [], []]

  // The same changes; the deleted files are a set.
  ghost predicate SameEdit(e: F.FileEdit<()>, f: F.FileEdit<()>) {
    e.added == f.added && forall l: Level, n :: (l, n) in e.deleted <==> (l, n) in f.deleted
  }

  ghost predicate SameEdits(es: seq<F.FileEdit<()>>, rs: seq<Record>) {
    |es| == |rs| && forall i :: 0 <= i < |rs| ==> SameEdit(es[i], rs[i].edit)
  }

  // FilesAt is what VersionSet::Recover rebuilds with a single builder.
  lemma {:induction false} FilesAtIsReplayed(rs: seq<Record>, es: seq<F.FileEdit<()>>, l: Level, g: Meta)
    requires SameEdits(es, rs) && F.FreshHistory(EMPTY_VERSION, es)
    ensures g in FilesAt(rs, l) <==> F.AddedBy(es, l, g) && g.number !in F.StillDeleted(es, l)
    decreases |rs|
  {
    if rs != [] {
      var n := |rs| - 1;
      var e := es[n];
      FilesAtIsReplayed(rs[..n], es[..n], l, g);
      assert SameEdit(e, rs[n].edit);
      assert F.DeletedNumbers(e.deleted, l) == F.DeletedNumbers(rs[n].edit.deleted, l);
      assert F.AddedBy(es, l, g) <==> F.AddedBy(es[..n], l, g) || F.Adds(e, l, g);
      assert F.Adds(e, l, g) <==> g in AddedMetas(rs[n].edit, l);
      if F.Adds(e, l, g) {
        assert (l, g) in e.added && g.number in F.AddedNumbers(e.added, l);
      } else if F.AddedBy(es[..n], l, g) {
        var i :| 0 <= i < n && F.Adds(es[..n][i], l, g);
        assert (l, g) in es[i].added && g.number in F.AddedNumbers(es[i].added, l);
      }
    }
  }

  function Strip(f: File): Meta {
    F.File(f.number, f.size, f.smallest, f.largest, ())
  }

  function StripAll(fs: seq<File>): (r: seq<Meta>)
    ensures |r| == |fs| && forall i :: 0 <= i < |fs| ==> r[i] == Strip(fs[i])
  {
    seq(|fs|, i requires 0 <= i < |fs| => Strip(fs[i]))
  }

  ghost function Metas(fs: seq<File>): set<Meta> {
    set f | f in fs :: Strip(f)
  }

  // The manifest describes version v.
  ghost predicate Persists(rs: seq<Record>, v: Version) {
    |v| == NUM_LEVELS && forall l: Level :: FilesAt(rs, l) == Metas(v[l])
  }

  // Replaying the edits of a manifest gives the files of the version it describes.
  lemma ReplayedIsPersisted(rs: seq<Record>, es: seq<F.FileEdit<()>>, v: Version, w: F.Version<()>)
    requires SameEdits(es, rs) && F.FreshHistory(EMPTY_VERSION, es) && F.Replayed(EMPTY_VERSION, es, w)
    requires Persists(rs, v) && F.OrderedVersion(v)
    ensures |w| == NUM_LEVELS && forall l: Level :: w[l] == StripAll(v[l])
  {
    hide FilesAt, F.AddedBy, F.StillDeleted, F.FreshHistory, SameEdits, F.Before;
    forall l: Level
      ensures w[l] == StripAll(v[l])
    {
      assert EMPTY_VERSION[l] == [];
      forall g
        ensures g in w[l] <==> g in StripAll(v[l])
      {
        FilesAtIsReplayed(rs, es, l, g);
        StripMembers(v[l], g);
      }
      StripOrdered(v[l]);
      F.OrderedUnique(w[l], StripAll(v[l]));
    }
  }

  lemma StripMembers(fs: seq<File>, g: Meta)
    ensures g in StripAll(fs) <==> g in Metas(fs)
  {
    if g in Metas(fs) {
      var f :| f in fs && Strip(f) == g;
      var i :| 0 <= i < |fs| && fs[i] == f;
      assert StripAll(fs)[i] == g;
    }
  }

  lemma StripOrdered(fs: seq<File>)
    requires F.Ordered(fs)
    ensures F.Ordered(StripAll(fs))
  {
    forall i, j | 0 <= i < j < |fs|
      ensures F.Before(StripAll(fs)[i], StripAll(fs)[j])
    {
      assert F.Before(fs[i], fs[j]);
    }
  }

  function StripEdit(e: F.FileEdit<seq<Entry>>): F.FileEdit<()> {
    F.FileEdit(e.deleted, seq(|e.added|, i requires 0 <= i < |e.added| => (e.added[i].0, Strip(e.added[i].1))))
  }

  lemma StripEditAdds(e: F.FileEdit<seq<Entry>>, l: Level)
    ensures AddedMetas(StripEdit(e), l) == set p | p in e.added && p.0 == l :: Strip(p.1)
  {
    var s := StripEdit(e).added;
    forall p | p in e.added && p.0 == l ensures Strip(p.1) in AddedMetas(StripEdit(e), l) {
      var i :| 0 <= i < |e.added| && e.added[i] == p;
      assert s[i] in s && s[i].0 == l;
    }
    forall g | g in AddedMetas(StripEdit(e), l) ensures g in set p | p in e.added && p.0 == l :: Strip(p.1) {
      var p :| p in s && p.0 == l && p.1 == g;
      var i :| 0 <= i < |s| && s[i] == p;
      assert e.added[i] in e.added;
    }
  }

  // Appending the record of an edit keeps the manifest in step with the version
  // that the edit is installed in.
  lemma PersistsAppend(rs: seq<Record>, v: Version, e: F.FileEdit<seq<Entry>>, w: Version, r: Record)
    requires Persists(rs, v) && F.Install(v, e, w) && r.edit == StripEdit(e)
    ensures Persists(rs + [r], w)
  {
    assert (rs + [r])[..|rs|] == rs;
    forall l: Level ensures FilesAt(rs + [r], l) == Metas(w[l]) {
      StripEditAdds(e, l);
      PersistsLevel(v[l], e, w[l], l);
    }
  }

  lemma PersistsLevel(fs: seq<File>, e: F.FileEdit<seq<Entry>>, ws: seq<File>, l: Level)
    requires forall f :: f in ws <==> (f in fs && f.number !in F.DeletedNumbers(e.deleted, l)) || F.Adds(e, l, f)
    ensures Metas(ws) == (set g | g in Metas(fs) && g.number !in F.DeletedNumbers(e.deleted, l)) +
                         (set p | p in e.added && p.0 == l :: Strip(p.1))
  {
    var right := (set g | g in Metas(fs) && g.number !in F.DeletedNumbers(e.deleted, l)) +
                 (set p | p in e.added && p.0 == l :: Strip(p.1));
    forall g | g in Metas(ws) ensures g in right {
      var f :| f in ws && Strip(f) == g;
      if F.Adds(e, l, f) { assert (l, f) in e.added; }
    }
    forall g | g in right ensures g in Metas(ws) {
      if p :| p in e.added && p.0 == l && Strip(p.1) == g {
        assert F.Adds(e, l, p.1) && p.1 in ws;
      } else {
        var f :| f in fs && Strip(f) == g;
        assert f in ws;
      }
    }
  }

  // ---------------------------------------------------------------- logs

  ghost function LogSet(log: Log): set<Entry> {
    set i, e | 0 <= i < |log| && e in log[i] :: e
  }

  // The entries of all logs numbered n or higher: those that recovery replays.
  ghost function LogsFrom(logs: map<nat, Log>, n: nat): set<Entry> {
    set l, e | l in logs && l >= n && e in LogSet(logs[l]) :: e
  }

  lemma LogsAppend(logs: map<nat, Log>, l: nat, batch: seq<Entry>, n: nat)
    requires l in logs && n <= l
    ensures LogsFrom(logs[l := logs[l] + [batch]], n) == LogsFrom(logs, n) + SetOf(batch)
  {
    LogSetAppend(logs[l], batch);
    var logs' := logs[l := logs[l] + [batch]];
    forall e | e in LogsFrom(logs, n) + SetOf(batch) ensures e in LogsFrom(logs', n) {
      if e in LogsFrom(logs, n) {
        var k :| k in logs && k >= n && e in LogSet(logs[k]);
        assert k in logs' && e in LogSet(logs'[k]);
      } else {
        assert e in LogSet(logs'[l]);
      }
    }
  }

  lemma LogSetAppend(log: Log, batch: seq<Entry>)
    ensures LogSet(log + [batch]) == LogSet(log) + SetOf(batch)
  {
    var log' := log + [batch];
    forall e | e in LogSet(log) + SetOf(batch) ensures e in LogSet(log') {
      if e in LogSet(log) {
        var i :| 0 <= i < |log| && e in log[i];
        assert e in log'[i];
      } else {
        assert e in log'[|log|];
      }
    }
  }

  // A new empty log adds nothing.
  lemma LogsCreate(logs: map<nat, Log>, l: nat, n: nat)
    requires l !in logs
    ensures LogsFrom(logs[l := []], n) == LogsFrom(logs, n)
  {
    var logs' := logs[l := []];
    forall e | e in LogsFrom(logs, n) ensures e in LogsFrom(logs', n) {
      var k :| k in logs && k >= n && e in LogSet(logs[k]);
      assert k in logs' && logs'[k] == logs[k];
    }
  }

  // Deleting a log below n takes nothing away.
  lemma LogsDelete(logs: map<nat, Log>, l: nat, n: nat)
    requires l < n
    ensures LogsFrom(logs - {l}, n) == LogsFrom(logs, n)
  {
    forall e | e in LogsFrom(logs, n) ensures e in LogsFrom(logs - {l}, n) {
      var k :| k in logs && k >= n && e in LogSet(logs[k]);
      assert k in logs - {l} && (logs - {l})[k] == logs[k];
    }
  }

  // ---------------------------------------------------------------- tables

  // Every file of v is on disk with its contents.
  ghost predicate TablesHold(tables: map<nat, seq<Entry>>, v: Version)
    requires |v| == NUM_LEVELS
  {
    forall l: Level, f :: f in v[l] ==> f.number in tables && tables[f.number] == f.contents
  }

  ghost predicate NumbersBelow(v: Version, n: nat)
    requires |v| == NUM_LEVELS
  {
    forall l: Level, f :: f in v[l] ==> f.number < n
  }
}
