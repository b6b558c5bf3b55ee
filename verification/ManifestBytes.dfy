/**
  From the bytes of the current manifest, in any state of any run, recovery
  rebuilds the persisted version and the numbers that the store goes on with.
 */
module ManifestBytes {
  import opened Basics
  import opened Coding
  import opened Entries
  import opened Versions
  import opened Storage
  import opened Database
  import opened DatabaseRecovery
  import opened ManifestHistory
  import V = VersionEdits
  import M = Manifest
  import W = LogFormat
  import F = Files

  ghost predicate SameNumber(a: Option<uint64>, b: Option<nat>) {
    a.Some? == b.Some? && (a.Some? ==> a.value == b.value)
  }

  // The edit that LogAndApply or WriteSnapshot encodes for a record.
  ghost predicate Describes(e: V.Edit, r: Record, keys: M.KeyReader) {
    && SameEdit(M.FileEditOf(e, keys), r.edit)
    && SameNumber(e.logNumber, r.log) && SameNumber(e.nextFileNumber, r.next) && SameNumber(e.lastSequence, r.last)
  }

  ghost predicate DescribesAll(es: seq<V.Edit>, rs: seq<Record>, keys: M.KeyReader) {
    |es| == |rs| && forall i :: 0 <= i < |rs| ==> Describes(es[i], rs[i], keys)
  }

  lemma {:induction false} NumbersMatch(es: seq<V.Edit>, rs: seq<Record>, keys: M.KeyReader)
    requires DescribesAll(es, rs, keys)
    ensures var n := M.NumbersOf(es);
            SameNumber(n.log, LastLog(rs)) && SameNumber(n.next, LastNext(rs)) && SameNumber(n.last, LastSequence(rs))
  {
    hide SameEdit;
    if rs != [] {
      NumbersMatch(es[..|es| - 1], rs[..|rs| - 1], keys);
    }
  }

  lemma EditsMatch(es: seq<V.Edit>, rs: seq<Record>, keys: M.KeyReader)
    requires DescribesAll(es, rs, keys) && F.FreshHistory(EMPTY_VERSION, Edits(rs))
    ensures SameEdits(M.FileEdits(es, keys), rs) && F.FreshHistory(EMPTY_VERSION, M.FileEdits(es, keys))
  {
    hide M.FileEditOf, F.AddedNumbers, SameNumber;
    var fs := M.FileEdits(es, keys);
    assert forall i :: 0 <= i < |fs| ==> fs[i] == M.FileEditOf(es[i], keys) && Edits(rs)[i] == rs[i].edit;
    assert forall i :: 0 <= i < |fs| ==> fs[i].added == Edits(rs)[i].added;
  }

  lemma ManifestInRun(states: seq<State>, actions: seq<Action>, i: nat)
    requires Run(states, actions) && i < |states|
    ensures var (s, rs) := (states[i], RecordsOf(states[i].disk));
            && |s.persisted| == NUM_LEVELS && F.OrderedVersion(s.persisted) && Persists(rs, s.persisted)
            && F.FreshHistory(EMPTY_VERSION, Edits(rs))
            && LastLog(rs).Some? && LastNext(rs).Some? && LastSequence(rs).Some?
  {
    hide Run, F.FreshHistory, Faithful, LogsOrdered, MemInv, VersionOnDisk, EverAdded;
    RunKeepsInv(states, actions, i);
    RunKeepsFresh(states, actions, i);
  }

  // VersionSet::Recover in any state of any run.
  method RecoverInRun(ghost states: seq<State>, ghost actions: seq<Action>, ghost i: nat,
                      file: Bytes, name: Bytes, keys: M.KeyReader, ghost es: seq<V.Edit>)
    returns (r: Option<M.Recovered>)
    requires Run(states, actions) && i < |states| && DescribesAll(es, RecordsOf(states[i].disk), keys)
    requires forall e :: e in es ==> V.WellFormed(e) && M.SameComparator(e, name)
    requires file == W.Written(M.EncodedAll(es))
    ensures r.Some? && |r.value.version| == |states[i].persisted| == NUM_LEVELS
    ensures forall l: F.Level :: r.value.version[l] == StripAll(states[i].persisted[l])
    ensures var rs := RecordsOf(states[i].disk);
            && r.value.logNumber == LogOf(rs) && r.value.manifestNumber == NextOf(rs)
            && r.value.nextFileNumber == NextOf(rs) + 1 && r.value.lastSequence == LastOf(rs)
  {
    hide Run, V.WellFormed, W.Written, M.SameComparator, F.FreshHistory, F.Replayed, Persists, F.OrderedVersion,
         DescribesAll, M.FileEdits, SameEdits;
    ghost var rs := RecordsOf(states[i].disk);
    ManifestInRun(states, actions, i);
    NumbersMatch(es, rs, keys);
    EditsMatch(es, rs, keys);
    r := M.Recover(file, name, keys, es);
    ReplayedIsPersisted(rs, M.FileEdits(es, keys), states[i].persisted, r.value.version);
  }
}
