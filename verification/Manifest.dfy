/**
  The manifest (VersionSet::Recover in db/version_set.cc): a log file whose
  records are version edits.  What is recovered from its bytes is the version
  that installing the edits one at a time had arrived at.
 */
module Manifest {
  import opened Basics
  import opened Entries
  import opened Coding
  import opened VersionEdits
  import L = LogReader
  import W = LogFormat
  import R = LogRoundTrip
  import F = Files
  import Storage

  // Internal keys as the comparator reads them.
  type KeyReader = Bytes -> IKey

  function EncodedAll(edits: seq<Edit>): (r: seq<Bytes>)
    ensures |r| == |edits| && forall i :: 0 <= i < |r| ==> r[i] == Encoded(edits[i])
  {
    seq(|edits|, i requires 0 <= i < |edits| => Encoded(edits[i]))
  }

  // An edit may name the comparator it was made with.
  predicate SameComparator(e: Edit, name: Bytes) {
    e.comparator.Some? ==> e.comparator.value == name
  }

  // The edits of the records, or nothing if one is malformed or made with another
  // comparator.
  function DecodedAll(records: seq<Bytes>, name: Bytes): Option<seq<Edit>> {
    if records == [] then Some([])
    else
      var (es, e) := (DecodedAll(records[..|records| - 1], name), Decoded(records[|records| - 1]));
      if es.Some? && e.Some? && SameComparator(e.value, name) then Some(es.value + [e.value]) else None
  }

  lemma {:induction false} DecodesAll(edits: seq<Edit>, name: Bytes)
    requires forall e :: e in edits ==> WellFormed(e) && SameComparator(e, name)
    ensures DecodedAll(EncodedAll(edits), name) == Some(edits)
  {
    hide Encoded, Decoded, WellFormed;
    if edits != [] {
      var n := |edits| - 1;
      assert EncodedAll(edits)[..n] == EncodedAll(edits[..n]);
      DecodesAll(edits[..n], name);
      EditRoundTrip(edits[n]);
      assert edits == edits[..n] + [edits[n]];
    }
  }

  // One bad record spoils the manifest.
  lemma {:induction false} BadPrefix(a: seq<Bytes>, b: seq<Bytes>, name: Bytes)
    requires DecodedAll(a, name).None?
    ensures DecodedAll(a + b, name).None?
  {
    hide Decoded, SameComparator;
    if b == [] {
      assert a + b == a;
    } else {
      BadPrefix(a, b[..|b| - 1], name);
      assert (a + b)[..|a + b| - 1] == a + b[..|b| - 1];
    }
  }

  // From any byte prefix of a manifest the edits that lie wholly inside it are
  // recovered.
  lemma ReadsEdits(edits: seq<Edit>, name: Bytes, n: nat, whole: nat, checksum: bool)
    requires forall e :: e in edits ==> WellFormed(e) && SameComparator(e, name)
    requires n <= |W.Written(EncodedAll(edits))| && whole <= |edits|
    requires |W.Written(EncodedAll(edits)[..whole])| <= n
    requires whole < |edits| ==> n < |W.Written(EncodedAll(edits)[..whole + 1])|
    ensures DecodedAll(L.AllRecords(L.Opened(W.Written(EncodedAll(edits))[..n]), checksum), name) ==
            Some(edits[..whole])
  {
    hide W.Written, L.AllRecords, WellFormed, Encoded, DecodedAll, SameComparator;
    R.ReadsLongestPrefix(EncodedAll(edits), n, whole, checksum);
    assert EncodedAll(edits)[..whole] == EncodedAll(edits[..whole]);
    DecodesAll(edits[..whole], name);
  }

  // ---------------------------------------------------------------- numbers

  datatype Numbers = Numbers(log: Option<uint64>, prevLog: Option<uint64>, next: Option<uint64>, last: Option<uint64>)

  const NO_NUMBERS := Numbers(None, None, None, None)

  function Later(a: Option<uint64>, b: Option<uint64>): Option<uint64> {
    if b.Some? then b else a
  }

  // The last value of each kind counts.
  function NumbersOf(edits: seq<Edit>): Numbers {
    if edits == [] then NO_NUMBERS else Updated(NumbersOf(edits[..|edits| - 1]), edits[|edits| - 1])
  }

  function Updated(n: Numbers, e: Edit): Numbers {
    Numbers(Later(n.log, e.logNumber), Later(n.prevLog, e.prevLogNumber),
            Later(n.next, e.nextFileNumber), Later(n.last, e.lastSequence))
  }

  // ---------------------------------------------------------------- recovery

  // The file changes of an edit.
  function FileEditOf(e: Edit, keys: KeyReader): F.FileEdit<()> {
    F.FileEdit(
      seq(|e.deleted|, i requires 0 <= i < |e.deleted| => (e.deleted[i].0 as F.Level, e.deleted[i].1)),
      seq(|e.added|, i requires 0 <= i < |e.added| =>
        var f := e.added[i].1;
        (e.added[i].0 as F.Level, F.File(f.number, f.size, keys(f.smallest), keys(f.largest), ()))))
  }

  function FileEdits(edits: seq<Edit>, keys: KeyReader): seq<F.FileEdit<()>> {
    seq(|edits|, i requires 0 <= i < |edits| => FileEditOf(edits[i], keys))
  }

  // Read every record and decode it, up to the first bad one.
  method ReadManifest(file: Bytes, name: Bytes) returns (edits: Option<seq<Edit>>, numbers: Numbers)
    ensures edits == DecodedAll(L.AllRecords(L.Opened(file), true), name)
    ensures edits.Some? ==> numbers == NumbersOf(edits.value)
  {
    hide L.Record, Decoded, Updated, SameComparator;
    var reader := new L.Reader(file, true);
    var es: seq<Edit> := [];
    ghost var read: seq<Bytes> := [];
    numbers := NO_NUMBERS;
    while true
      invariant reader.Valid() && reader.checksum && reader.file == file
      invariant DecodedAll(read, name) == Some(es) && numbers == NumbersOf(es)
      invariant read + L.AllRecords(reader.State(), true) == L.AllRecords(L.Opened(file), true)
      decreases L.Left(reader.State())
    {
      ghost var before := reader.State();
      var record := reader.ReadRecord();
      if record.None? {
        assert read + [] == read;
        return Some(es), numbers;
      }
      var e := DecodeFrom(record.value);
      assert (read + [record.value])[..|read|] == read;
      assert read + [record.value] + L.AllRecords(reader.State(), true) == read + L.AllRecords(before, true);
      read := read + [record.value];
      if e.None? || !SameComparator(e.value, name) {
        BadPrefix(read, L.AllRecords(reader.State(), true), name);
        return None, numbers;
      }
      assert (es + [e.value])[..|es|] == es;
      es := es + [e.value];
      numbers := Updated(numbers, e.value);
    }
  }

  // What VersionSet keeps after Recover; the manifest gets the next file number.
  datatype Recovered = Recovered(version: F.Version<()>, logNumber: nat, prevLogNumber: nat,
                                 manifestNumber: nat, nextFileNumber: nat, lastSequence: nat)

  ghost predicate RecoveredFrom(r: Recovered, es: seq<F.FileEdit<()>>, n: Numbers) {
    && F.Replayed(Storage.EMPTY_VERSION, es, r.version)
    && n.log == Some(r.logNumber) && n.next == Some(r.manifestNumber) && n.last == Some(r.lastSequence)
    && r.nextFileNumber == r.manifestNumber + 1
    && r.prevLogNumber == if n.prevLog.Some? then n.prevLog.value else 0
  }

  // VersionSet::Recover on the bytes of an intact manifest: it succeeds exactly if
  // the three numbers are there.
  method Recover(file: Bytes, name: Bytes, keys: KeyReader, ghost edits: seq<Edit>) returns (r: Option<Recovered>)
    requires forall e :: e in edits ==> WellFormed(e) && SameComparator(e, name)
    requires file == W.Written(EncodedAll(edits))
    requires F.FreshHistory(Storage.EMPTY_VERSION, FileEdits(edits, keys))
    ensures var n := NumbersOf(edits);
            r.Some? <==> n.next.Some? && n.log.Some? && n.last.Some?
    ensures r.Some? ==> RecoveredFrom(r.value, FileEdits(edits, keys), NumbersOf(edits))
  {
    hide W.Written, L.AllRecords, WellFormed, DecodedAll, F.FreshHistory, FileEditOf, SameComparator, F.Replayed;
    assert file[..|file|] == file && edits[..|edits|] == edits && EncodedAll(edits)[..|edits|] == EncodedAll(edits);
    ReadsEdits(edits, name, |file|, |edits|, true);
    var es, n := ReadManifest(file, name);
    if n.next.None? || n.log.None? || n.last.None? {
      return None;
    }
    var prevLog := if n.prevLog.Some? then n.prevLog.value else 0;
    assert F.OrderedVersion(Storage.EMPTY_VERSION) by { EmptyOrdered(); }
    var version := F.ReplayAll(Storage.EMPTY_VERSION, FileEdits(es.value, keys));
    r := Some(Recovered(version, n.log.value, prevLog, n.next.value, n.next.value + 1, n.last.value));
  }

  lemma EmptyOrdered()
    ensures F.OrderedVersion(Storage.EMPTY_VERSION)
  {
    assert forall l: F.Level :: Storage.EMPTY_VERSION[l] == [];
  }

  // ... and its version is the one that installing the edits one at a time had
  // arrived at.
  lemma RecoveredIsInstalled(r: Recovered, edits: seq<Edit>, keys: KeyReader, vs: seq<F.Version<()>>)
    requires F.FreshHistory(Storage.EMPTY_VERSION, FileEdits(edits, keys))
    requires F.Chain(vs, Storage.EMPTY_VERSION, FileEdits(edits, keys))
    requires RecoveredFrom(r, FileEdits(edits, keys), NumbersOf(edits))
    ensures r.version == vs[|edits|]
  {
    hide F.FreshHistory, F.Replayed, F.Install, F.OrderedVersion, FileEditOf, NumbersOf;
    EmptyOrdered();
    F.ReplayedIsInstalled(Storage.EMPTY_VERSION, FileEdits(edits, keys), vs, r.version);
  }
}
