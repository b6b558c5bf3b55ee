/**
  The database as its users see it: a map from keys to values.  The map is computed
  from the actions of a run alone, by applying the groups that were published, and
  every read of the state machine is shown to answer from it.
 */
module KeyValueSpec {
  import opened Basics
  import opened Entries
  import opened Versions
  import opened Database
  import opened DatabaseWrites
  import opened DatabaseVersions
  import opened DatabaseInstall
  import opened DatabaseRecovery
  import opened DatabaseReads
  import F = Files

  // ---------------------------------------------------------------- the map

  type Store = map<Key, Value>

  function Find(store: Store, k: Key): Option<Value> {
    if k in store then Some(store[k]) else None
  }

  function Update(store: Store, e: Entry): Store {
    if e.ik.kind.Put? then store[e.ik.key := e.value] else store - {e.ik.key}
  }

  function Updated(store: Store, batch: seq<Entry>): Store {
    if batch == [] then store else Update(Updated(store, batch[..|batch| - 1]), batch[|batch| - 1])
  }

  // pending has reached the log and is not yet visible.
  datatype Spec = Spec(store: Store, pending: seq<Entry>)

  // A group becomes visible when it is published, or when recovery finds it in
  // the log.
  function SpecOf(actions: seq<Action>): Spec {
    if actions == [] then Spec(map[], [])
    else
      var (s, a) := (SpecOf(actions[..|actions| - 1]), actions[|actions| - 1]);
      if a.DoLogGroup? then Spec(s.store, a.batch)
      else if a.DoPublishGroup? || a.DoOpen? then Spec(Updated(s.store, s.pending), [])
      else s
  }

  ghost function PublishedOf(actions: seq<Action>): set<Entry> {
    if actions == [] then {}
    else
      var (before, a) := (actions[..|actions| - 1], actions[|actions| - 1]);
      PublishedOf(before) + if a.DoPublishGroup? || a.DoOpen? then SetOf(SpecOf(before).pending) else {}
  }

  // Everything that was ever handed to the log.
  ghost function CommittedBy(actions: seq<Action>): set<Entry> {
    set i, e | 0 <= i < |actions| && actions[i].DoLogGroup? && e in actions[i].batch :: e
  }

  // ---------------------------------------------------------------- what steps do to writes

  ghost predicate WriteIs(w: Write, pending: seq<Entry>) {
    if w.NoWrite? then pending == [] else w.batch == pending
  }

  // A group enters the current log, the history and the write in progress ...
  lemma LogStep(s: State, a: Action, s': State)
    requires Next(s, a, s') && a.DoLogGroup?
    ensures s.memory.Some? && s'.memory.Some? && s.memory.value.logFile in s.disk.logs
    ensures var (m, m') := (s.memory.value, s'.memory.value);
            && s'.history == s.history + SetOf(a.batch) && Follows(a.batch, m.last)
            && m.write.NoWrite? && WriteIs(m'.write, a.batch) && !m'.write.NoWrite? && m'.last == m.last
            && s'.disk.logs == s.disk.logs[m.logFile := s.disk.logs[m.logFile] + [a.batch]]
  {
  }

  // ... leaves it when it is published, which advances LastSequence by its size ...
  lemma PublishStep(s: State, a: Action, s': State)
    requires Next(s, a, s') && a.DoPublishGroup?
    ensures s.memory.Some? && s'.memory.Some? && s'.history == s.history
    ensures var (m, m') := (s.memory.value, s'.memory.value);
            !m.write.NoWrite? && m'.write.NoWrite? && m'.last == m.last + |m.write.batch|
  {
  }

  lemma OpenStep(s: State, a: Action, s': State)
    requires Next(s, a, s') && a.DoOpen?
    ensures s'.history == s.history && s.memory.None? && s'.memory.Some? && s'.memory.value.write.NoWrite?
  {
    hide F.Install, Recovered, SnapshotRecord, LastSequenceRecovered;
  }

  // ... and no other step touches it, the history or LastSequence.
  lemma OtherStep(s: State, a: Action, s': State, pending: seq<Entry>)
    requires Next(s, a, s') && !a.DoLogGroup? && !a.DoPublishGroup? && !a.DoOpen?
    ensures s'.history == s.history && (s'.memory.Some? ==> s.memory.Some?)
    ensures s'.memory.Some? ==>
              var (m, m') := (s.memory.value, s'.memory.value);
              m'.last == m.last && (WriteIs(m.write, pending) ==> WriteIs(m'.write, pending))
  {
    hide F.Install, SetOf, Compacted, LevelPicked, IsLive, OldestSnapshot, TablesExtended;
  }

  // ---------------------------------------------------------------- reads of sets

  lemma ReadsAlike(a: set<Entry>, s: Sequence, b: set<Entry>, t: Sequence, k: Key)
    requires Distinct(a) && Distinct(b)
    requires forall e :: (e in a && Visible(e, k, s)) <==> (e in b && Visible(e, k, t))
    ensures Read(a, k, s) == Read(b, k, t)
  {
    if exists x :: x in a && Visible(x, k, s) {
      NewestExists(a, k, s);
      var e :| Newest(a, k, s, e);
      assert Newest(b, k, t, e);
      ReadIsNewest(a, k, s, e);
      ReadIsNewest(b, k, t, e);
    } else {
      ReadNothing(a, k, s);
      ReadNothing(b, k, t);
    }
  }

  // One more entry, newer than all others.
  lemma ReadAddOne(es: set<Entry>, e: Entry, k: Key)
    requires Distinct(es) && forall x :: x in es ==> x.ik.sequence < e.ik.sequence
    ensures Read(es + {e}, k, MAX_SEQUENCE) ==
            if e.ik.key == k then Answer(e) else Read(es, k, MAX_SEQUENCE)
  {
    var more := es + {e};
    if e.ik.key == k {
      assert Newest(more, k, MAX_SEQUENCE, e);
      ReadIsNewest(more, k, MAX_SEQUENCE, e);
    } else {
      ReadsAlike(more, MAX_SEQUENCE, es, MAX_SEQUENCE, k);
    }
  }

  // A batch of newer entries updates what is read as it updates the map.
  lemma {:induction false} ReadUpdated(es: set<Entry>, store: Store, batch: seq<Entry>, k: Key)
    requires Distinct(es + SetOf(batch)) && AllNewer(SetOf(batch), es) && BatchOrdered(batch)
    requires Read(es, k, MAX_SEQUENCE) == Find(store, k)
    ensures Read(es + SetOf(batch), k, MAX_SEQUENCE) == Find(Updated(store, batch), k)
  {
    hide Read, Distinct, AllNewer, BatchOrdered, SetOf;
    if batch == [] {
      NothingAdded(es);
    } else {
      var n := |batch| - 1;
      LastOfBatch(es, batch);
      ReadUpdated(es, store, batch[..n], k);
      ReadAddOne(es + SetOf(batch[..n]), batch[n], k);
    }
  }

  lemma NothingAdded(es: set<Entry>)
    ensures es + SetOf([]) == es
  {
  }

  lemma LastOfBatch(es: set<Entry>, batch: seq<Entry>)
    requires batch != [] && Distinct(es + SetOf(batch)) && AllNewer(SetOf(batch), es) && BatchOrdered(batch)
    ensures var (front, e) := (batch[..|batch| - 1], batch[|batch| - 1]);
            && es + SetOf(batch) == es + SetOf(front) + {e}
            && Distinct(es + SetOf(front)) && AllNewer(SetOf(front), es) && BatchOrdered(front)
            && forall x :: x in es + SetOf(front) ==> x.ik.sequence < e.ik.sequence
  {
    var (front, e) := (batch[..|batch| - 1], batch[|batch| - 1]);
    assert batch == front + [e];
    assert SetOf(batch) == SetOf(front) + {e};
    DistinctSubset(es + SetOf(batch), es + SetOf(front));
  }

  // ---------------------------------------------------------------- the invariant

  ghost predicate SpecInv(s: State, spec: Spec, published: set<Entry>) {
    && s.history == published + SetOf(spec.pending)
    && AllNewer(SetOf(spec.pending), published) && BatchOrdered(spec.pending)
    && (forall k :: Read(published, k, MAX_SEQUENCE) == Find(spec.store, k))
    && (s.memory.Some? ==> WriteIs(s.memory.value.write, spec.pending))
  }

  lemma LogKeepsSpec(s: State, a: Action, s': State, spec: Spec, published: set<Entry>)
    requires Inv(s) && SpecInv(s, spec, published) && Next(s, a, s') && a.DoLogGroup?
    ensures SpecInv(s', Spec(spec.store, a.batch), published)
  {
    hide Next, Read, Inv, SequencesOk;
    LogStep(s, a, s');
    InvSequences(s);
    assert SetOf(spec.pending) == {};
    FollowsNewer(s, s.memory.value, a.batch);
  }

  lemma InvSequences(s: State)
    requires Inv(s) && s.memory.Some?
    ensures SequencesOk(s.history, s.memory.value.write, s.memory.value.last)
  {
  }

  lemma ShowKeepsSpec(s: State, a: Action, s': State, spec: Spec, published: set<Entry>)
    requires Inv(s) && SpecInv(s, spec, published) && Next(s, a, s') && (a.DoPublishGroup? || a.DoOpen?)
    ensures SpecInv(s', Spec(Updated(spec.store, spec.pending), []), published + SetOf(spec.pending))
  {
    hide Next, Inv, Read, Updated, Distinct;
    if a.DoOpen? { OpenStep(s, a, s'); } else { PublishStep(s, a, s'); }
    HistoryDistinct(s);
    forall k
      ensures Read(published + SetOf(spec.pending), k, MAX_SEQUENCE) == Find(Updated(spec.store, spec.pending), k)
    {
      ReadUpdated(published, spec.store, spec.pending, k);
    }
    assert s.history + SetOf([]) == s.history;
  }

  lemma {:induction false} RunKeepsSpec(states: seq<State>, actions: seq<Action>, i: nat)
    requires Run(states, actions) && i < |states|
    ensures SpecInv(states[i], SpecOf(actions[..i]), PublishedOf(actions[..i]))
  {
    hide Inv, Next, SpecInv;
    if i == 0 {
      InitSpec(states[0]);
    } else {
      var (before, a) := (actions[..i - 1], actions[i - 1]);
      assert actions[..i][..i - 1] == before && actions[..i][i - 1] == a;
      RunKeepsSpec(states, actions, i - 1);
      RunKeepsInv(states, actions, i - 1);
      assert Next(states[i - 1], a, states[i]);
      var (spec, published) := (SpecOf(before), PublishedOf(before));
      if a.DoLogGroup? {
        LogKeepsSpec(states[i - 1], a, states[i], spec, published);
      } else if a.DoPublishGroup? || a.DoOpen? {
        ShowKeepsSpec(states[i - 1], a, states[i], spec, published);
      } else {
        OtherKeepsSpec(states[i - 1], a, states[i], spec, published);
      }
      assert published + {} == published;
    }
  }

  lemma OtherKeepsSpec(s: State, a: Action, s': State, spec: Spec, published: set<Entry>)
    requires SpecInv(s, spec, published) && Next(s, a, s') && !a.DoLogGroup? && !a.DoPublishGroup? && !a.DoOpen?
    ensures SpecInv(s', spec, published)
  {
    hide Next, Read;
    OtherStep(s, a, s', spec.pending);
  }

  lemma InitSpec(s: State)
    requires Init(s)
    ensures SpecInv(s, Spec(map[], []), {})
  {
    forall k ensures Read({}, k, MAX_SEQUENCE) == None {
      ReadNothing({}, k, MAX_SEQUENCE);
    }
  }

  // ---------------------------------------------------------------- theorems over runs

  // The history is what the actions handed to the log, no more and no less.
  lemma {:induction false} HistoryIsCommitted(states: seq<State>, actions: seq<Action>, i: nat)
    requires Run(states, actions) && i < |states|
    ensures states[i].history == CommittedBy(actions[..i])
  {
    hide Next;
    if i > 0 {
      HistoryIsCommitted(states, actions, i - 1);
      var a := actions[i - 1];
      assert Next(states[i - 1], a, states[i]);
      CommittedMore(actions, i - 1);
      if a.DoLogGroup? {
        LogStep(states[i - 1], a, states[i]);
      } else if a.DoPublishGroup? {
        PublishStep(states[i - 1], a, states[i]);
      } else if a.DoOpen? {
        OpenStep(states[i - 1], a, states[i]);
      } else {
        OtherStep(states[i - 1], a, states[i], []);
      }
    }
  }

  lemma CommittedMore(actions: seq<Action>, i: nat)
    requires i < |actions|
    ensures CommittedBy(actions[..i + 1]) ==
            CommittedBy(actions[..i]) + if actions[i].DoLogGroup? then SetOf(actions[i].batch) else {}
  {
    var (a, b) := (actions[..i], actions[..i + 1]);
    assert forall j :: 0 <= j < i ==> b[j] == a[j];
    forall e | e in CommittedBy(a) ensures e in CommittedBy(b) {
      var j :| 0 <= j < |a| && a[j].DoLogGroup? && e in a[j].batch;
      assert b[j].DoLogGroup? && e in b[j].batch;
    }
    if actions[i].DoLogGroup? {
      forall e | e in SetOf(actions[i].batch) ensures e in CommittedBy(b) {
        assert b[i].DoLogGroup? && e in b[i].batch;
      }
    }
  }

  // Each logging action appends its group to the current log and to no other.
  lemma GroupIsLogged(states: seq<State>, actions: seq<Action>, i: nat)
    requires Run(states, actions) && i < |actions| && actions[i].DoLogGroup?
    ensures states[i].memory.Some? && states[i].memory.value.logFile in states[i].disk.logs
    ensures var (logs, l) := (states[i].disk.logs, states[i].memory.value.logFile);
            states[i + 1].disk.logs == logs[l := logs[l] + [actions[i].batch]]
  {
    hide Next;
    assert Next(states[i], actions[i], states[i + 1]);
    LogStep(states[i], actions[i], states[i + 1]);
  }

  // Each publication advances LastSequence by the size of the group that was
  // logged last, and by nothing else does it advance.
  lemma PublicationAdvances(states: seq<State>, actions: seq<Action>, i: nat)
    requires Run(states, actions) && i < |actions| && states[i].memory.Some? && states[i + 1].memory.Some?
    ensures var (m, m') := (states[i].memory.value, states[i + 1].memory.value);
            m'.last == m.last + if actions[i].DoPublishGroup? then |SpecOf(actions[..i]).pending| else 0
  {
    hide Next, Read;
    var a := actions[i];
    assert Next(states[i], a, states[i + 1]);
    RunKeepsSpec(states, actions, i);
    if a.DoLogGroup? {
      LogStep(states[i], a, states[i + 1]);
    } else if a.DoPublishGroup? {
      PublishStep(states[i], a, states[i + 1]);
    } else if a.DoOpen? {
      OpenStep(states[i], a, states[i + 1]);
    } else {
      OtherStep(states[i], a, states[i + 1], []);
    }
  }

  // In a running state LastSequence separates what is visible from the rest.
  lemma LastSeparates(states: seq<State>, actions: seq<Action>, i: nat, m: Memory)
    requires Run(states, actions) && i < |states| && states[i].memory == Some(m)
    ensures forall e :: e in PublishedOf(actions[..i]) ==> e.ik.sequence <= m.last
    ensures forall e :: e in SpecOf(actions[..i]).pending ==> e.ik.sequence > m.last
  {
    hide Next, Init, Read, Inv, SpecInv, SpecOf, PublishedOf;
    RunKeepsInv(states, actions, i);
    RunKeepsSpec(states, actions, i);
    SeparatedBy(states[i], m, SpecOf(actions[..i]), PublishedOf(actions[..i]));
  }

  lemma SeparatedBy(s: State, m: Memory, spec: Spec, published: set<Entry>)
    requires Inv(s) && s.memory == Some(m) && SpecInv(s, spec, published)
    ensures forall e :: e in published ==> e.ik.sequence <= m.last
    ensures forall e :: e in spec.pending ==> e.ik.sequence > m.last
  {
    hide Inv, Read;
    InvSequences(s);
    forall e | e in published ensures e.ik.sequence <= m.last {
      assert e in s.history;
    }
    forall e | e in spec.pending ensures e.ik.sequence > m.last {
      assert e in SetOf(spec.pending);
    }
  }

  lemma HistoryIsMap(states: seq<State>, actions: seq<Action>, i: nat, m: Memory, k: Key)
    requires Run(states, actions) && i < |states| && states[i].memory == Some(m)
    ensures Read(states[i].history, k, m.last) == Find(SpecOf(actions[..i]).store, k)
  {
    hide Next, Init, Read, Inv, Distinct, SpecOf, PublishedOf;
    LastSeparates(states, actions, i, m);
    RunKeepsSpec(states, actions, i);
    RunKeepsInv(states, actions, i);
    HistoryDistinct(states[i]);
    var published := PublishedOf(actions[..i]);
    DistinctSubset(states[i].history, published);
    ReadsAlike(states[i].history, m.last, published, MAX_SEQUENCE, k);
  }

  // The main theorem: in every state of every run, a Get at LastSequence answers
  // from the map that the published groups make of the empty one.
  method GetLatest(ghost states: seq<State>, ghost actions: seq<Action>, ghost i: nat, ghost m: Memory,
                   mem: seq<Entry>, imm: Option<seq<Entry>>, v: Version, k: Key, last: Sequence)
    returns (r: Option<Value>)
    requires Run(states, actions) && i < |states| && states[i].memory == Some(m) && last == m.last
    requires Sorted(mem) && SetOf(mem) == m.mem && v == m.version
    requires Sorted(ImmSeq(imm)) && SetOf(ImmSeq(imm)) == ImmSet(m.imm)
    ensures r == Find(SpecOf(actions[..i]).store, k)
  {
    hide Run, Read, SpecOf, SetOf;
    HistoryIsMap(states, actions, i, m, k);
    r := GetInRun(states, actions, i, m, mem, imm, v, k, last);
  }

  lemma SnapshotStep(s: State, a: Action, s': State)
    requires Next(s, a, s') && a.DoTakeSnapshot?
    ensures s.memory.Some? && s'.memory.Some? && s'.history == s.history
    ensures var (m, m') := (s.memory.value, s'.memory.value);
            m'.snapshots == m.snapshots + multiset{m.last} && m'.last == m.last
  {
  }

  // A snapshot is one sequence number, and for as long as it is held reads at it
  // answer from the map of the moment when it was taken.
  lemma SnapshotIsMap(states: seq<State>, actions: seq<Action>, i: nat, j: nat, m': Memory, k: Key)
    returns (n: Sequence)
    requires Run(states, actions) && i < j < |states| && actions[i].DoTakeSnapshot?
    requires (forall x :: i < x <= j ==> states[x].memory.Some?) && states[j].memory == Some(m')
    ensures states[i].memory.Some? && states[i + 1].memory.Some?
    ensures states[i + 1].memory.value.snapshots == states[i].memory.value.snapshots + multiset{n}
    ensures forall e :: e in PublishedOf(actions[..i]) ==> e.ik.sequence <= n
    ensures forall e :: e in SpecOf(actions[..i]).pending ==> e.ik.sequence > n
    ensures n in m'.snapshots ==> Read(Held(m'), k, n) == Find(SpecOf(actions[..i]).store, k)
  {
    hide Next, Read, SpecOf, PublishedOf, Held, Init;
    assert Next(states[i], actions[i], states[i + 1]);
    SnapshotStep(states[i], actions[i], states[i + 1]);
    var m := states[i].memory.value;
    n := m.last;
    LastSeparates(states, actions, i, m);
    HistoryIsMap(states, actions, i, m, k);
    SnapshotIsStable(states, actions, i, j, m, k, n);
    if n in m'.snapshots { RunReads(states, actions, j, m', k, n); }
  }

  lemma IteratorStep(s: State, a: Action, s': State)
    requires Next(s, a, s') && a.DoOpenIterator?
    ensures s.memory.Some? && s'.memory.Some? && s'.history == s.history
    ensures var (m, m') := (s.memory.value, s'.memory.value);
            (a.x == m.last || a.x in m.snapshots) && m'.pinned == m.pinned + multiset{PinNow(m, a.x)}
  {
  }

  // An iterator at LastSequence shows the map of the moment when it was opened,
  // for as long as it is open, whatever newer entries its memtables receive.
  lemma IteratorIsMap(states: seq<State>, actions: seq<Action>, i: nat, j: nat, m': Memory, more: set<Entry>, k: Key)
    returns (p: Pin)
    requires Run(states, actions) && i < j < |states| && actions[i].DoOpenIterator? && states[i].memory.Some?
    requires (forall x :: i < x <= j ==> states[x].memory.Some?) && states[j].memory == Some(m')
    requires actions[i].x == states[i].memory.value.last
    requires more <= states[j].history && forall e :: e in more ==> e.ik.sequence > actions[i].x
    ensures states[i + 1].memory.value.pinned == states[i].memory.value.pinned + multiset{p}
    ensures p in m'.pinned ==> Read(PinHeld(p) + more, k, actions[i].x) == Find(SpecOf(actions[..i]).store, k)
  {
    hide Next, Read, SpecOf, PinHeld, Init;
    assert Next(states[i], actions[i], states[i + 1]);
    IteratorStep(states[i], actions[i], states[i + 1]);
    var m := states[i].memory.value;
    p := PinNow(m, m.last);
    HistoryIsMap(states, actions, i, m, k);
    SnapshotIsStable(states, actions, i, j, m, k, m.last);
    if p in m'.pinned { IteratorIsStable(states, actions, j, m', p, more, k); }
  }
}
