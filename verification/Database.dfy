/**
  The database as a state machine (db/db_impl.cc): group writes to the log and
  the memtable, memtable switches, flushes, compactions, installation of new
  versions, deletion of obsolete files, crashes and recovery.

  Every step is what one thread does while it holds the mutex, or one durable
  write that it makes while it does not.  The invariant holds in every state of
  every run, so reads and recovery are right at any moment.
 */
module Database {
  import opened Basics
  import opened Entries
  import opened Versions
  import opened Levels
  import opened CompactionReads
  import opened Storage
  import F = Files

  // ---------------------------------------------------------------- state

  // The front writer's group: appended to the log, then inserted in the
  // memtable, then published by advancing LastSequence.
  datatype Write = NoWrite | Logged(batch: seq<Entry>) | Applied(batch: seq<Entry>)

  // A version change in the hands of LogAndApply.
  datatype Task = Task(w: Version, edit: F.FileEdit<seq<Entry>>, record: Record,
                       snapshot: Sequence, dropped: set<Entry>, flush: bool)

  // The background thread.
  datatype Job =
    | Idle
    | Working(level: nat, in0: seq<File>, in1: seq<File>, snapshot: Sequence)
    | Ready(task: Task)
    | Appended(task: Task)

  // An open iterator: the memtables and the version that it references, and the
  // sequence number that it reads at.
  datatype Pin = Pin(held: set<Entry>, version: Version, sequence: Sequence)

  datatype Memory = Memory(
    mem: set<Entry>, imm: Option<set<Entry>>,
    logFile: nat, logNumber: nat, next: nat, last: Sequence,
    version: Version, pinned: multiset<Pin>, snapshots: multiset<Sequence>,
    write: Write, job: Job)

  // persisted is the version that the current manifest describes; history holds
  // every entry ever committed to a log, dropped those that compactions removed,
  // and no read below floor is promised any more.
  datatype State = State(
    disk: Disk, memory: Option<Memory>,
    persisted: Version, history: set<Entry>, dropped: set<Entry>, floor: Sequence)

  ghost function RecordsOf(d: Disk): seq<Record> {
    if d.current in d.manifests then d.manifests[d.current] else []
  }

  function LogOf(rs: seq<Record>): nat {
    if LastLog(rs).Some? then LastLog(rs).value else 0
  }

  function NextOf(rs: seq<Record>): nat {
    if LastNext(rs).Some? then LastNext(rs).value else 0
  }

  function LastOf(rs: seq<Record>): Sequence {
    if LastSequence(rs).Some? then LastSequence(rs).value else 0
  }

  // The entries of a version and of the logs numbered n or higher.
  ghost function Contents(v: Version, logs: map<nat, Log>, n: nat): set<Entry> {
    VersionEntries(v) + LogsFrom(logs, n)
  }

  // What recovery would find: the tables of the persisted version and the logs
  // from the persisted log number on.
  ghost function Persisted(s: State): set<Entry> {
    Contents(s.persisted, s.disk.logs, LogOf(RecordsOf(s.disk)))
  }

  // What the running database holds, including a group that is still being written.
  ghost function Live(s: State, m: Memory): set<Entry> {
    Contents(m.version, s.disk.logs, m.logNumber)
  }

  function ImmSet(imm: Option<set<Entry>>): set<Entry> {
    if imm.Some? then imm.value else {}
  }

  ghost function WriteSet(w: Write): set<Entry> {
    if w.NoWrite? then {} else SetOf(w.batch)
  }

  // What a reader finds in the memtables and the current version.
  ghost function Held(m: Memory): set<Entry> {
    m.mem + ImmSet(m.imm) + VersionEntries(m.version)
  }

  // ---------------------------------------------------------------- invariant

  ghost predicate SeqsAtMost(es: set<Entry>, n: Sequence) {
    forall e :: e in es ==> e.ik.sequence <= n
  }

  ghost predicate AllNewer(a: set<Entry>, b: set<Entry>) {
    forall x, y :: x in a && y in b ==> x.ik.sequence > y.ik.sequence
  }

  ghost predicate ReadsSame(a: set<Entry>, b: set<Entry>, floor: Sequence) {
    forall k, s: Sequence :: s >= floor ==> Read(a, k, s) == Read(b, k, s)
  }

  // es is the committed history up to entries that compactions dropped, and no
  // read at or above floor can tell the difference.
  ghost predicate Faithful(es: set<Entry>, history: set<Entry>, dropped: set<Entry>, floor: Sequence) {
    es <= history && history <= es + dropped && ReadsSame(es, history, floor)
  }

  // The sequence numbers of a batch grow by one from entry to entry.
  ghost predicate BatchOrdered(batch: seq<Entry>) {
    forall i, j :: 0 <= i < j < |batch| ==> batch[i].ik.sequence < batch[j].ik.sequence
  }

  ghost predicate LogOrdered(log: Log) {
    && (forall i :: 0 <= i < |log| ==> BatchOrdered(log[i]))
    && forall i, j, x, y :: 0 <= i < j < |log| && x in log[i] && y in log[j] ==> x.ik.sequence < y.ik.sequence
  }

  ghost predicate LogsOrdered(logs: map<nat, Log>, n: nat) {
    && (forall l :: l in logs && l >= n ==> LogOrdered(logs[l]))
    && (forall l, m :: l in logs && m in logs && n <= l < m ==> AllNewer(LogSet(logs[m]), LogSet(logs[l])))
  }

  ghost predicate VersionOnDisk(tables: map<nat, seq<Entry>>, v: Version, next: nat) {
    |v| == NUM_LEVELS && TablesHold(tables, v) && NumbersBelow(v, next)
  }

  ghost predicate ManifestOk(rs: seq<Record>, current: nat, v: Version) {
    && LastLog(rs).Some? && LastNext(rs).Some? && LastSequence(rs).Some?
    && current < NextOf(rs) && LogOf(rs) < NextOf(rs)
    && Persists(rs, v)
  }

  // A version with the logs that complete it.
  ghost predicate VersionBesideLogs(v: Version, logs: map<nat, Log>, n: nat) {
    GoodVersion(v) && AllNewer(LogsFrom(logs, n), VersionEntries(v))
  }

  // Holds in every state, also while the process is down.
  ghost predicate DiskInv(s: State) {
    var rs := RecordsOf(s.disk);
    && s.disk.current in s.disk.manifests
    && ManifestOk(rs, s.disk.current, s.persisted)
    && VersionOnDisk(s.disk.tables, s.persisted, NextOf(rs))
    && SeqsAtMost(VersionEntries(s.persisted), LastOf(rs)) && SeqsAtMost(s.dropped, LastOf(rs)) && s.floor <= LastOf(rs)
    && VersionBesideLogs(s.persisted, s.disk.logs, LogOf(rs))
    && LogsOrdered(s.disk.logs, LogOf(rs))
    && Distinct(s.history)
    && Faithful(Contents(s.persisted, s.disk.logs, LogOf(rs)), s.history, s.dropped, s.floor)
  }

  ghost predicate PreservesReads(v: Version, w: Version, snapshot: Sequence) {
    forall mem: set<Entry>, k, s: Sequence ::
      MemNewer(mem, VersionEntries(v)) && Distinct(VersionEntries(v) + mem) && s >= snapshot ==>
        Read(VersionEntries(w) + mem, k, s) == Read(VersionEntries(v) + mem, k, s)
  }

  // A task is fit to be written to the manifest.
  ghost predicate TaskOk(tables: map<nat, seq<Entry>>, current: nat, v: Version, t: Task) {
    && F.Install(v, t.edit, t.w)
    && t.record.edit == StripEdit(t.edit)
    && t.record.log.Some? && t.record.next.Some? && t.record.last.Some?
    && t.record.log.value < t.record.next.value && current < t.record.next.value
    && GoodVersion(t.w)
    && VersionOnDisk(tables, t.w, t.record.next.value)
    && SeqsAtMost(VersionEntries(t.w), t.record.last.value)
    && SeqsAtMost(t.dropped, t.record.last.value) && t.snapshot <= t.record.last.value
  }

  ghost predicate TaskEffect(v: Version, imm: Option<set<Entry>>, logFile: nat, logNumber: nat, t: Task) {
    if t.flush then
      && imm.Some? && t.record.log == Some(logFile) && t.dropped == {}
      && VersionEntries(t.w) == VersionEntries(v) + ImmSet(imm)
    else
      && t.record.log == Some(logNumber)
      && VersionEntries(t.w) + t.dropped == VersionEntries(v)
      && PreservesReads(v, t.w, t.snapshot)
  }

  ghost predicate SnapshotOk(snapshots: multiset<Sequence>, last: Sequence, snapshot: Sequence) {
    snapshot <= last && forall x :: x in snapshots ==> snapshot <= x
  }

  ghost predicate JobOk(s: State, m: Memory) {
    var n := LogOf(RecordsOf(s.disk));
    match m.job
    case Idle => s.persisted == m.version && n == m.logNumber
    case Working(level, in0, in1, snapshot) =>
      && s.persisted == m.version && n == m.logNumber
      && Compacting(m.version, level, in0, in1)
      && SnapshotOk(m.snapshots, m.last, snapshot)
    case Ready(t) =>
      && s.persisted == m.version && n == m.logNumber
      && TaskOk(s.disk.tables, s.disk.current, m.version, t)
      && TaskEffect(m.version, m.imm, m.logFile, m.logNumber, t)
      && SnapshotOk(m.snapshots, m.last, t.snapshot)
      && t.record.next.value <= m.next && LastOf(RecordsOf(s.disk)) <= t.record.last.value <= m.last
    case Appended(t) =>
      && s.persisted == t.w && t.record.log == Some(n)
      && (if t.flush then m.imm.Some? && n == m.logFile else n == m.logNumber)
  }

  // The memtables hold what the logs hold.
  ghost predicate MemContents(logs: map<nat, Log>, logFile: nat, logNumber: nat,
                              mem: set<Entry>, imm: Option<set<Entry>>, w: Write) {
    && LogsFrom(logs, logFile) == mem + (if w.Logged? then SetOf(w.batch) else {})
    && (w.Applied? ==> SetOf(w.batch) <= mem)
    && LogsFrom(logs, logNumber) == LogsFrom(logs, logFile) + ImmSet(imm)
    && AllNewer(LogsFrom(logs, logFile), ImmSet(imm))
    && (imm.None? ==> logNumber == logFile)
  }

  ghost predicate PinnedOk(tables: map<nat, seq<Entry>>, pinned: multiset<Pin>, next: nat) {
    forall p :: p in pinned ==> VersionOnDisk(tables, p.version, next)
  }

  ghost predicate NumbersOk(d: Disk, m: Memory) {
    && m.logFile in d.logs && m.logFile < m.next
    && (forall l :: l in d.logs ==> l <= m.logFile)
    && m.logNumber <= m.logFile && LogOf(RecordsOf(d)) <= m.logFile
    && NextOf(RecordsOf(d)) <= m.next
    && VersionOnDisk(d.tables, m.version, m.next)
    && PinnedOk(d.tables, m.pinned, m.next)
  }

  // A batch that takes the sequence numbers right after last.
  ghost predicate Follows(batch: seq<Entry>, last: Sequence) {
    && last + |batch| <= MAX_SEQUENCE
    && forall i :: 0 <= i < |batch| ==> batch[i].ik.sequence == last + 1 + i
  }

  // Sequence numbers up to last are published; the group being written follows.
  ghost predicate SequencesOk(history: set<Entry>, w: Write, last: Sequence) {
    && (forall e :: e in history ==> e.ik.sequence <= last || e in WriteSet(w))
    && (!w.NoWrite? ==> Follows(w.batch, last))
  }

  ghost predicate SnapshotsOk(floor: Sequence, snapshots: multiset<Sequence>, last: Sequence) {
    && floor <= last
    && (forall x :: x in snapshots ==> floor <= x <= last)
  }

  ghost predicate MemInv(s: State, m: Memory) {
    && NumbersOk(s.disk, m)
    && MemContents(s.disk.logs, m.logFile, m.logNumber, m.mem, m.imm, m.write)
    && SequencesOk(s.history, m.write, m.last)
    && SnapshotsOk(s.floor, m.snapshots, m.last)
    && LastOf(RecordsOf(s.disk)) <= m.last
    && VersionBesideLogs(m.version, s.disk.logs, m.logNumber)
    && Faithful(Contents(m.version, s.disk.logs, m.logNumber), s.history, s.dropped, s.floor)
    && JobOk(s, m)
  }

  ghost predicate Inv(s: State) {
    DiskInv(s) && (s.memory.Some? ==> MemInv(s, s.memory.value))
  }

  // ---------------------------------------------------------------- reads

  // A reader at a published sequence number sees the committed history, never a
  // part of a group that is still being written.
  lemma ReadsAreHistory(s: State, m: Memory, k: Key, n: Sequence)
    requires Inv(s) && s.memory == Some(m)
    requires s.floor <= n <= m.last
    ensures Read(Held(m), k, n) == Read(s.history, k, n)
  {
    ReadsOfPublished(Live(s, m), s.history, Held(m), m.write, m.last, k, n);
  }

  lemma ReadsOfPublished(live: set<Entry>, history: set<Entry>, held: set<Entry>, w: Write, last: Sequence,
                         k: Key, n: Sequence)
    requires Distinct(history) && live <= history && held <= live && live <= held + WriteSet(w)
    requires SequencesOk(history, w, last) && n <= last
    ensures Read(held, k, n) == Read(live, k, n)
  {
    DistinctSubset(history, live);
    DistinctSubset(history, held);
    forall e | e in WriteSet(w) ensures !Visible(e, k, n) {
      var i :| 0 <= i < |w.batch| && w.batch[i] == e;
    }
    ReadEqual(held, live, k, n);
  }

  lemma DistinctSubset(a: set<Entry>, b: set<Entry>)
    requires Distinct(a) && b <= a
    ensures Distinct(b)
  {
  }

  // Down or running, recovery would find the committed history.
  lemma PersistedIsHistory(s: State, k: Key, n: Sequence)
    requires Inv(s) && n >= s.floor
    ensures Persisted(s) <= s.history <= Persisted(s) + s.dropped
    ensures Read(Persisted(s), k, n) == Read(s.history, k, n)
  {
  }
}
