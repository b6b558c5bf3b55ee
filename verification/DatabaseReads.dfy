/**
  DBImpl::Get: the memtable, then the immutable memtable, then the files; and
  what snapshots promise over a run.
 */
module DatabaseReads {
  import opened Basics
  import opened Entries
  import opened Versions
  import opened Levels
  import opened Storage
  import opened Database
  import opened DatabaseVersions
  import opened DatabaseWrites
  import opened DatabaseInstall
  import opened DatabaseRecovery
  import opened CompactionReads
  import F = Files

  // A hit in a newer part is the newest entry of the whole.
  lemma HitInNewer(a: set<Entry>, b: set<Entry>, k: Key, s: Sequence, e: Entry)
    requires AllNewer(a, b) && Newest(a, k, s, e)
    ensures Newest(a + b, k, s, e)
  {
  }

  function ImmSeq(imm: Option<seq<Entry>>): seq<Entry> {
    if imm.Some? then imm.value else []
  }

  // The three places in order, stopping at the first hit; a deletion marker is a
  // hit too.  The answer is the read of the union.
  method Get(mem: seq<Entry>, imm: Option<seq<Entry>>, v: Version, k: Key, s: Sequence) returns (r: Option<Value>)
    requires Sorted(mem) && Sorted(ImmSeq(imm)) && WfVersion(v)
    requires Distinct(SetOf(mem) + SetOf(ImmSeq(imm)) + VersionEntries(v))
    requires AllNewer(SetOf(mem), SetOf(ImmSeq(imm)) + VersionEntries(v))
    requires AllNewer(SetOf(ImmSeq(imm)), VersionEntries(v))
    ensures r == Read(SetOf(mem) + SetOf(ImmSeq(imm)) + VersionEntries(v), k, s)
  {
    hide SortedLevels, LevelZeroOrdered, ShallowNewer, VersionEntries, Distinct, Lookup, AllNewer;
    ghost var all := SetOf(mem) + SetOf(ImmSeq(imm)) + VersionEntries(v);
    var hit := Lookup(mem, k, s);
    LookupNewest(mem, k, s);
    if hit.Some? {
      HitInNewer(SetOf(mem), SetOf(ImmSeq(imm)) + VersionEntries(v), k, s, hit.value);
      assert all == SetOf(mem) + (SetOf(ImmSeq(imm)) + VersionEntries(v));
      ReadIsNewest(all, k, s, hit.value);
      return Answer(hit.value);
    }
    if imm.Some? {
      hit := Lookup(imm.value, k, s);
      LookupNewest(imm.value, k, s);
      if hit.Some? {
        HitInNewer(SetOf(imm.value), VersionEntries(v), k, s, hit.value);
        assert all == SetOf(mem) + (SetOf(imm.value) + VersionEntries(v));
        SkipInvisible(SetOf(mem), SetOf(imm.value) + VersionEntries(v), k, s);
        DistinctSubset(all, SetOf(imm.value) + VersionEntries(v));
        ReadIsNewest(SetOf(imm.value) + VersionEntries(v), k, s, hit.value);
        return Answer(hit.value);
      }
    }
    SkipInvisible(SetOf(mem) + SetOf(ImmSeq(imm)), VersionEntries(v), k, s);
    DistinctSubset(all, VersionEntries(v));
    r := Versions.Get(v, k, s);
  }

  lemma SkipInvisible(a: set<Entry>, b: set<Entry>, k: Key, s: Sequence)
    requires Distinct(a + b) && forall e :: e in a ==> !Visible(e, k, s)
    ensures Read(a + b, k, s) == Read(b, k, s)
  {
    DistinctSubset(a + b, b);
    ReadEqual(a + b, b, k, s);
  }

  // The contents that the invariant gives to Get's three places.
  lemma HeldInOrder(s: State, m: Memory)
    requires Inv(s) && s.memory == Some(m)
    ensures Distinct(m.mem + ImmSet(m.imm) + VersionEntries(m.version))
    ensures AllNewer(m.mem, ImmSet(m.imm) + VersionEntries(m.version))
    ensures AllNewer(ImmSet(m.imm), VersionEntries(m.version))
    ensures WfVersion(m.version)
  {
    hide Persists, LogsFrom, VersionEntries, ManifestOk, VersionOnDisk, JobOk, LogsOrdered;
    hide WfVersion, Distinct, LevelsDisjoint, ZeroNewer, ShallowerNewer, NumbersUnique, FilesWf;
    GoodIsWf(m.version);
    var held := m.mem + ImmSet(m.imm) + VersionEntries(m.version);
    assert held <= Live(s, m);
    DistinctSubset(s.history, held);
  }

  // Every Get of every run, at LastSequence or at a live snapshot, answers from
  // the committed history.
  method GetInRun(ghost states: seq<State>, ghost actions: seq<Action>, ghost i: nat, ghost m: Memory,
                  mem: seq<Entry>, imm: Option<seq<Entry>>, v: Version, k: Key, n: Sequence)
    returns (r: Option<Value>)
    requires Run(states, actions) && i < |states| && states[i].memory == Some(m)
    requires Sorted(mem) && SetOf(mem) == m.mem && v == m.version
    requires Sorted(ImmSeq(imm)) && SetOf(ImmSeq(imm)) == ImmSet(m.imm)
    requires n == m.last || n in m.snapshots
    ensures r == Read(states[i].history, k, n)
  {
    hide Inv, Run, VersionEntries, Distinct, AllNewer, Read, WfVersion;
    RunKeepsInv(states, actions, i);
    HeldInOrder(states[i], m);
    r := Get(mem, imm, v, k, n);
    RunReads(states, actions, i, m, k, n);
  }

  // ---------------------------------------------------------------- snapshots

  // A step of a running database adds entries above LastSequence only, and
  // LastSequence never goes back.
  lemma StepAddsAbove(s: State, a: Action, s': State, m: Memory, m': Memory)
    requires Next(s, a, s') && s.memory == Some(m) && s'.memory == Some(m')
    ensures m.last <= m'.last
    ensures s.history <= s'.history
    ensures forall e :: e in s'.history && e !in s.history ==> e.ik.sequence > m.last
  {
    hide F.Install, SetOf, Compacted, Compacting, LevelPicked, IsLive, OldestSnapshot;
    if a.DoLogGroup? {
      FollowsAbove(a.batch, m.last);
    }
  }

  lemma FollowsAbove(batch: seq<Entry>, last: Sequence)
    requires Follows(batch, last)
    ensures forall e :: e in SetOf(batch) ==> e.ik.sequence > last
  {
  }

  // While the database keeps running, what a snapshot reads never changes,
  // whatever is written, flushed, compacted or deleted meanwhile.
  lemma {:induction false} SnapshotIsStable(states: seq<State>, actions: seq<Action>, i: nat, j: nat, m: Memory,
                                            k: Key, n: Sequence)
    requires Run(states, actions) && i <= j < |states|
    requires forall x :: i <= x <= j ==> states[x].memory.Some?
    requires states[i].memory == Some(m) && n <= m.last
    ensures n <= states[j].memory.value.last
    ensures Read(states[j].history, k, n) == Read(states[i].history, k, n)
    decreases j - i
  {
    hide Inv, Next, Init, Distinct, Read;
    if i < j {
      SnapshotIsStable(states, actions, i, j - 1, m, k, n);
      var s, s' := states[j - 1], states[j];
      assert Next(s, actions[j - 1], s');
      StepAddsAbove(s, actions[j - 1], s', s.memory.value, s'.memory.value);
      RunKeepsInv(states, actions, j - 1);
      RunKeepsInv(states, actions, j);
      HistoryDistinct(s);
      HistoryDistinct(s');
      SameVisible(s.history, s'.history, k, n);
    }
  }

  // So a read at a snapshot that is live in both states finds the same in both.
  lemma SnapshotReads(states: seq<State>, actions: seq<Action>, i: nat, j: nat, m: Memory, m': Memory,
                      k: Key, n: Sequence)
    requires Run(states, actions) && i <= j < |states|
    requires forall x :: i <= x <= j ==> states[x].memory.Some?
    requires states[i].memory == Some(m) && states[j].memory == Some(m')
    requires n in m.snapshots && n in m'.snapshots
    ensures Read(Held(m'), k, n) == Read(Held(m), k, n)
  {
    hide Inv, Run, Held, Read;
    SnapshotPublished(states, actions, i, m, n);
    SnapshotIsStable(states, actions, i, j, m, k, n);
    RunReads(states, actions, i, m, k, n);
    RunReads(states, actions, j, m', k, n);
  }

  lemma SnapshotPublished(states: seq<State>, actions: seq<Action>, i: nat, m: Memory, n: Sequence)
    requires Run(states, actions) && i < |states| && states[i].memory == Some(m) && n in m.snapshots
    ensures n <= m.last
  {
    hide Run;
    RunKeepsInv(states, actions, i);
  }

  lemma HistoryDistinct(s: State)
    requires Inv(s)
    ensures Distinct(s.history)
  {
  }

  lemma SameVisible(a: set<Entry>, b: set<Entry>, k: Key, n: Sequence)
    requires Distinct(a) && Distinct(b) && a <= b && forall e :: e in b && e !in a ==> e.ik.sequence > n
    ensures Read(b, k, n) == Read(a, k, n)
  {
    ReadEqual(a, b, k, n);
  }

  // ---------------------------------------------------------------- open iterators

  ghost function PinHeld(p: Pin): set<Entry> {
    p.held + VersionEntries(p.version)
  }

  // The iterator reads the history of its sequence number.
  ghost predicate PinReads(history: set<Entry>, last: Sequence, p: Pin) {
    && p.sequence <= last && PinHeld(p) <= history
    && forall k :: Read(PinHeld(p), k, p.sequence) == Read(history, k, p.sequence)
  }

  lemma OpenedReads(s: State, m: Memory, n: Sequence)
    requires Inv(s) && s.memory == Some(m) && (n == m.last || n in m.snapshots)
    ensures PinReads(s.history, m.last, PinNow(m, n))
  {
    hide Read, VersionEntries, Distinct;
    var p := PinNow(m, n);
    assert PinHeld(p) == Held(m) <= Live(s, m);
    forall k ensures Read(PinHeld(p), k, n) == Read(s.history, k, n) {
      ReadsAreHistory(s, m, k, n);
    }
  }

  lemma StillReads(s: State, s': State, m: Memory, m': Memory, p: Pin)
    requires PinReads(s.history, m.last, p) && m.last <= m'.last && s.history <= s'.history
    requires Distinct(s.history) && Distinct(s'.history)
    requires forall e :: e in s'.history && e !in s.history ==> e.ik.sequence > m.last
    ensures PinReads(s'.history, m'.last, p)
  {
    hide Read, Distinct;
    forall k ensures Read(PinHeld(p), k, p.sequence) == Read(s'.history, k, p.sequence) {
      SameVisible(s.history, s'.history, k, p.sequence);
    }
  }

  // Iterators are opened on the current state only.
  lemma StepPins(s: State, a: Action, s': State, m': Memory, p: Pin)
    requires Next(s, a, s') && s'.memory == Some(m') && p in m'.pinned
    ensures s.memory.Some?
    ensures p in s.memory.value.pinned ||
            (a.DoOpenIterator? && OpenIterator(s, a.x, s') && p == PinNow(s.memory.value, a.x))
  {
    hide F.Install, SetOf, Compacted, Compacting, LevelPicked, IsLive, OldestSnapshot, Recovered, SnapshotRecord,
         LastSequenceRecovered, TablesExtended, PinNow;
  }

  lemma {:induction false} PinsRead(states: seq<State>, actions: seq<Action>, i: nat, m: Memory, p: Pin)
    requires Run(states, actions) && i < |states| && states[i].memory == Some(m) && p in m.pinned
    ensures PinReads(states[i].history, m.last, p)
  {
    hide Inv, Next, Init, PinReads, Distinct;
    InitDown(states[0]);
    var s, s', a := states[i - 1], states[i], actions[i - 1];
    assert Next(s, a, s');
    StepPins(s, a, s', m, p);
    var before := s.memory.value;
    RunKeepsInv(states, actions, i - 1);
    RunKeepsInv(states, actions, i);
    HistoryDistinct(s);
    HistoryDistinct(s');
    StepAddsAbove(s, a, s', before, m);
    if p in before.pinned {
      PinsRead(states, actions, i - 1, before, p);
    } else {
      OpenedReads(s, before, a.x);
    }
    StillReads(s, s', before, m, p);
  }

  lemma InitDown(s: State)
    requires Init(s)
    ensures s.memory.None?
  {
  }

  // However the database moves on under an open iterator, and whatever newer
  // entries reach the memtables that it shares, it reads the history of its
  // sequence number, and its tables stay on disk.
  lemma IteratorIsStable(states: seq<State>, actions: seq<Action>, i: nat, m: Memory, p: Pin, more: set<Entry>, k: Key)
    requires Run(states, actions) && i < |states| && states[i].memory == Some(m) && p in m.pinned
    requires more <= states[i].history && forall e :: e in more ==> e.ik.sequence > p.sequence
    ensures Read(PinHeld(p) + more, k, p.sequence) == Read(states[i].history, k, p.sequence)
    ensures |p.version| == NUM_LEVELS && TablesHold(states[i].disk.tables, p.version)
  {
    hide Inv, Run, Read, Distinct;
    RunKeepsInv(states, actions, i);
    HistoryDistinct(states[i]);
    PinsRead(states, actions, i, m, p);
    DistinctSubset(states[i].history, PinHeld(p) + more);
    DistinctSubset(states[i].history, PinHeld(p));
    SameVisible(PinHeld(p), PinHeld(p) + more, k, p.sequence);
    RunReads(states, actions, i, m, k, m.last);
  }
}
