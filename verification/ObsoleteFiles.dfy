/**
  DBImpl::DeleteObsoleteFiles (db/db_impl.cc): of all files in the directory, which
  ones go.
 */
module ObsoleteFiles {
  import opened Entries
  import opened Versions
  import opened Levels
  import opened Storage
  import opened Database
  import opened DatabaseInstall

  // A name as ParseFileName reads it.
  datatype FileName =
    | LogFile(number: nat)
    | DescriptorFile(number: nat)
    | TableFile(number: nat)
    | TempFile(number: nat)
    | CurrentFile
    | LockFile
    | InfoLogFile

  // ---------------------------------------------------------------- live tables

  // VersionSet::AddLiveFiles
  method AddLiveFiles(versions: seq<Version>, pending: set<nat>) returns (live: set<nat>)
    requires forall i :: 0 <= i < |versions| ==> |versions[i]| == NUM_LEVELS
    ensures forall n :: n in live <==> n in pending || exists v :: v in versions && InVersion(v, n)
  {
    live := pending;
    for i := 0 to |versions|
      invariant forall n :: n in live <==> n in pending || exists v :: v in versions[..i] && InVersion(v, n)
    {
      var numbers := NumbersIn(versions[i]);
      live := live + numbers;
      assert versions[..i + 1] == versions[..i] + [versions[i]];
    }
    assert versions[..|versions|] == versions;
  }

  method NumbersIn(v: Version) returns (numbers: set<nat>)
    requires |v| == NUM_LEVELS
    ensures forall n :: n in numbers <==> InVersion(v, n)
  {
    numbers := {};
    for l := 0 to NUM_LEVELS
      invariant forall n :: n in numbers <==> exists k: Level, f :: k < l && f in v[k] && f.number == n
    {
      ghost var before := numbers;
      var i := 0;
      while i < |v[l]|
        invariant 0 <= i <= |v[l]|
        invariant forall n :: n in numbers <==> n in before || exists j :: 0 <= j < i && v[l][j].number == n
      {
        numbers := numbers + {v[l][i].number};
        i := i + 1;
      }
      forall n
        ensures n in numbers <==> exists k: Level, f :: k < l + 1 && f in v[k] && f.number == n
      {
        LevelNumbers(v, l, n);
      }
    }
  }

  lemma LevelNumbers(v: Version, l: Level, n: nat)
    requires |v| == NUM_LEVELS
    ensures (exists k: Level, f :: k < l + 1 && f in v[k] && f.number == n) <==>
            || (exists k: Level, f :: k < l && f in v[k] && f.number == n)
            || (exists j :: 0 <= j < |v[l]| && v[l][j].number == n)
  {
    if k: Level, f :| k < l + 1 && f in v[k] && f.number == n {
      if k == l {
        var j :| 0 <= j < |v[l]| && v[l][j] == f;
        assert v[l][j].number == n;
      }
    }
    if j :| 0 <= j < |v[l]| && v[l][j].number == n {
      assert v[l][j] in v[l];
    }
  }

  // ---------------------------------------------------------------- deletion

  // What stays: logs from the log number on, the current manifest and newer ones,
  // and the tables of live versions and of outputs in progress.
  ghost predicate Cleaned(d: Disk, d': Disk, logNumber: nat, live: set<nat>) {
    && d'.current == d.current
    && d'.logs == (map l | l in d.logs && l >= logNumber :: d.logs[l])
    && d'.manifests == (map n | n in d.manifests && n >= d.current :: d.manifests[n])
    && d'.tables == (map n | n in d.tables && n in live :: d.tables[n])
  }

  // The files still there after the first names have been seen.
  ghost predicate CleanedUpTo(d: Disk, d': Disk, logNumber: nat, live: set<nat>, seen: seq<FileName>) {
    && d'.current == d.current
    && LogsLeft(d, d'.logs, logNumber, seen) && ManifestsLeft(d, d'.manifests, seen)
    && TablesLeft(d, d'.tables, live, seen)
  }

  ghost predicate LogsLeft(d: Disk, logs: map<nat, Log>, logNumber: nat, seen: seq<FileName>) {
    && (forall l :: l in logs <==> l in d.logs && (l >= logNumber || LogFile(l) !in seen))
    && (forall l :: l in logs ==> logs[l] == d.logs[l])
  }

  ghost predicate ManifestsLeft(d: Disk, manifests: map<nat, seq<Record>>, seen: seq<FileName>) {
    && (forall n :: n in manifests <==> n in d.manifests && (n >= d.current || DescriptorFile(n) !in seen))
    && (forall n :: n in manifests ==> manifests[n] == d.manifests[n])
  }

  ghost predicate TablesLeft(d: Disk, tables: map<nat, seq<Entry>>, live: set<nat>, seen: seq<FileName>) {
    && (forall n :: n in tables <==> n in d.tables && (n in live || TableFile(n) !in seen))
    && (forall n :: n in tables ==> tables[n] == d.tables[n])
  }

  lemma SeeLog(d: Disk, logs: map<nat, Log>, logNumber: nat, seen: seq<FileName>, name: FileName)
    requires LogsLeft(d, logs, logNumber, seen)
    ensures LogsLeft(d, if name.LogFile? && name.number < logNumber then logs - {name.number} else logs, logNumber,
                     seen + [name])
  {
  }

  lemma SeeManifest(d: Disk, manifests: map<nat, seq<Record>>, seen: seq<FileName>, name: FileName)
    requires ManifestsLeft(d, manifests, seen)
    ensures ManifestsLeft(d, if name.DescriptorFile? && name.number < d.current then manifests - {name.number}
                             else manifests, seen + [name])
  {
  }

  lemma SeeTable(d: Disk, tables: map<nat, seq<Entry>>, live: set<nat>, seen: seq<FileName>, name: FileName)
    requires TablesLeft(d, tables, live, seen)
    ensures TablesLeft(d, if name.TableFile? && name.number !in live then tables - {name.number} else tables, live,
                       seen + [name])
  {
  }

  // The directory lists every file.
  ghost predicate Lists(names: seq<FileName>, d: Disk) {
    && (forall l :: l in d.logs ==> LogFile(l) in names)
    && (forall n :: n in d.manifests ==> DescriptorFile(n) in names)
    && (forall n :: n in d.tables ==> TableFile(n) in names)
  }

  lemma AllSeen(d: Disk, d': Disk, logNumber: nat, live: set<nat>, names: seq<FileName>)
    requires CleanedUpTo(d, d', logNumber, live, names) && Lists(names, d)
    ensures Cleaned(d, d', logNumber, live)
  {
  }

  // versions are the referenced versions, pending the outputs in progress.  Every
  // obsolete file is deleted, no other is, and the invariant survives.
  method DeleteObsoleteFiles(s: State, names: seq<FileName>, versions: seq<Version>, pending: set<nat>)
    returns (s': State)
    requires s.memory.Some? && MayDelete(s.memory.value) && Lists(names, s.disk)
    requires forall i :: 0 <= i < |versions| ==> |versions[i]| == NUM_LEVELS
    requires forall n ::
               (n in pending || exists v :: v in versions && InVersion(v, n)) <==> IsLive(s.memory.value, n)
    ensures s' == s.(disk := s'.disk)
    ensures exists live :: (forall n :: n in live <==> IsLive(s.memory.value, n)) &&
              Cleaned(s.disk, s'.disk, s.memory.value.logNumber, live)
    ensures Inv(s) ==> Inv(s')
  {
    hide Inv, IsLive, InVersion;
    var m := s.memory.value;
    var live := AddLiveFiles(versions, pending);
    s' := s;
    for i := 0 to |names|
      invariant s' == s.(disk := s'.disk) && (Inv(s) ==> Inv(s'))
      invariant CleanedUpTo(s.disk, s'.disk, m.logNumber, live, names[..i])
    {
      assert names[..i + 1] == names[..i] + [names[i]];
      s' := Visit(s, s', names[..i], names[i], live);
    }
    assert names[..|names|] == names;
    AllSeen(s.disk, s'.disk, m.logNumber, live, names);
  }

  method Visit(ghost s: State, t: State, ghost seen: seq<FileName>, name: FileName, live: set<nat>) returns (t': State)
    requires t.memory.Some? && MayDelete(t.memory.value) && t == s.(disk := t.disk)
    requires forall n :: n in live <==> IsLive(t.memory.value, n)
    requires CleanedUpTo(s.disk, t.disk, t.memory.value.logNumber, live, seen)
    ensures t' == t.(disk := t'.disk) && (Inv(t) ==> Inv(t'))
    ensures CleanedUpTo(s.disk, t'.disk, t.memory.value.logNumber, live, seen + [name])
  {
    hide Inv, IsLive, LogsLeft, ManifestsLeft, TablesLeft;
    var m := t.memory.value;
    SeeLog(s.disk, t.disk.logs, m.logNumber, seen, name);
    SeeManifest(s.disk, t.disk.manifests, seen, name);
    SeeTable(s.disk, t.disk.tables, live, seen, name);
    t' := t;
    match name {
      case LogFile(n) =>
        if n < m.logNumber {
          t' := t.(disk := t.disk.(logs := t.disk.logs - {n}));
          if Inv(t) { DeleteLogKeepsInv(t, n, t'); }
        }
      case DescriptorFile(n) =>
        if n < t.disk.current {
          t' := t.(disk := t.disk.(manifests := t.disk.manifests - {n}));
          if Inv(t) { DeleteManifestKeepsInv(t, n, t'); }
        }
      case TableFile(n) =>
        if n !in live {
          t' := t.(disk := t.disk.(tables := t.disk.tables - {n}));
          if Inv(t) { DeleteTableKeepsInv(t, n, t'); }
        }
      case _ =>
    }
  }
}
