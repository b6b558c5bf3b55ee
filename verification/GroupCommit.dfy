/**
  Group commit (DBImpl::Write and BuildBatchGroup in db/db_impl.cc): writers
  queue up, the front one logs and applies a whole group on behalf of those
  behind it, and then completes them all.

  A step is what one thread does while it holds the mutex, or one effect of the
  front writer while it does not: the append to the log, the sync, or the
  insertion of a single entry.  Any writer may arrive between any two steps.
 */
module GroupCommit {
  import opened Basics
  import opened Coding
  import opened WriteBatches

  // A queued write.  The batch is absent for a forced memtable switch.
  datatype Writer = Writer(batch: Option<Bytes>, sync: bool)

  const MAX_GROUP: nat := 0x10_0000
  const SMALL: nat := 0x2_0000

  function OpsOf(w: Writer): seq<Op> {
    if w.batch.None? then [] else Iterated(w.batch.value).0
  }

  // Batches are built by Put and Delete.
  ghost predicate WellFormed(w: Writer) {
    w.batch.Some? ==>
      && |w.batch.value| >= HEADER_SIZE && AllFit(OpsOf(w))
      && w.batch.value == Rep(Sequence(w.batch.value), OpsOf(w))
  }

  function Flat(writers: seq<Writer>): seq<Op> {
    if writers == [] then [] else Flat(writers[..|writers| - 1]) + OpsOf(writers[|writers| - 1])
  }

  // ---------------------------------------------------------------- building a group

  // A small first write keeps its group small.
  function SizeLimit(first: nat): nat {
    if first <= SMALL then first + SMALL else MAX_GROUP
  }

  // The end of the group, given that it reaches i and its batches size bytes.
  function GroupEnd(writers: seq<Writer>, i: nat, size: nat, limit: nat): (end: nat)
    requires 1 <= i <= |writers|
    ensures i <= end <= |writers|
    decreases |writers| - i
  {
    if i == |writers| || (writers[i].sync && !writers[0].sync) then i
    else if writers[i].batch.None? then GroupEnd(writers, i + 1, size, limit)
    else
      var larger := size + |writers[i].batch.value|;
      if larger > limit then i else GroupEnd(writers, i + 1, larger, limit)
  }

  function GroupOf(writers: seq<Writer>): (end: nat)
    requires writers != [] && writers[0].batch.Some?
    ensures 1 <= end <= |writers|
  {
    var first := |writers[0].batch.value|;
    GroupEnd(writers, 1, first, SizeLimit(first))
  }

  // A group led by a write without sync holds none with it.
  lemma {:induction false} GroupSync(writers: seq<Writer>, i: nat, size: nat, limit: nat)
    requires 1 <= i <= |writers|
    requires forall j :: 0 <= j < i && writers[j].sync ==> writers[0].sync
    ensures forall j :: 0 <= j < GroupEnd(writers, i, size, limit) && writers[j].sync ==> writers[0].sync
    decreases |writers| - i
  {
    if i < |writers| && !(writers[i].sync && !writers[0].sync) {
      if writers[i].batch.None? {
        GroupSync(writers, i + 1, size, limit);
      } else if size + |writers[i].batch.value| <= limit {
        GroupSync(writers, i + 1, size + |writers[i].batch.value|, limit);
      }
    }
  }

  // The bytes of the batches of the first n writers.
  function TotalBytes(writers: seq<Writer>, n: nat): nat
    requires n <= |writers|
  {
    if n == 0 then 0
    else TotalBytes(writers, n - 1) + if writers[n - 1].batch.Some? then |writers[n - 1].batch.value| else 0
  }

  // A group that takes as many writers as it may: none that asks for sync unless
  // the first does, and no second batch beyond the limit; and the next writer
  // would break one of the two.
  ghost predicate LargestGroup(writers: seq<Writer>, end: nat) {
    && 1 <= end <= |writers| && writers[0].batch.Some?
    && var first := |writers[0].batch.value|;
       var limit := if first <= 131072 then first + 131072 else 1048576;
       && (forall j :: 0 <= j < end && writers[j].sync ==> writers[0].sync)
       && (TotalBytes(writers, end) <= limit || TotalBytes(writers, end) == first)
       && (end < |writers| ==>
             || (writers[end].sync && !writers[0].sync)
             || (writers[end].batch.Some? && TotalBytes(writers, end + 1) > limit))
  }

  lemma GroupIsLargest(writers: seq<Writer>)
    requires writers != [] && writers[0].batch.Some?
    ensures LargestGroup(writers, GroupOf(writers))
  {
    var first := |writers[0].batch.value|;
    assert TotalBytes(writers, 0) == 0 && TotalBytes(writers, 1) == first;
    GroupSync(writers, 1, first, SizeLimit(first));
    GroupStops(writers, 1, first, SizeLimit(first));
  }

  lemma {:induction false} GroupStops(writers: seq<Writer>, i: nat, size: nat, limit: nat)
    requires 1 <= i <= |writers| && size == TotalBytes(writers, i)
    ensures var end := GroupEnd(writers, i, size, limit);
            && (TotalBytes(writers, end) <= limit || TotalBytes(writers, end) == size)
            && (end < |writers| ==>
                  || (writers[end].sync && !writers[0].sync)
                  || (writers[end].batch.Some? && TotalBytes(writers, end + 1) > limit))
    decreases |writers| - i
  {
    if i < |writers| && !(writers[i].sync && !writers[0].sync) {
      if writers[i].batch.None? {
        GroupStops(writers, i + 1, size, limit);
      } else if size + |writers[i].batch.value| <= limit {
        GroupStops(writers, i + 1, size + |writers[i].batch.value|, limit);
      }
    }
  }

  // There is one such group.
  lemma LargestGroupUnique(writers: seq<Writer>, a: nat, b: nat)
    requires LargestGroup(writers, a) && LargestGroup(writers, b)
    requires forall i :: 0 <= i < |writers| ==> WellFormed(writers[i])
    ensures a == b
  {
    if a < b {
      NotLarger(writers, a, b);
    } else if b < a {
      NotLarger(writers, b, a);
    }
  }

  lemma NotLarger(writers: seq<Writer>, a: nat, b: nat)
    requires LargestGroup(writers, a) && 1 <= a < b <= |writers|
    requires forall i :: 0 <= i < |writers| ==> WellFormed(writers[i])
    ensures !LargestGroup(writers, b)
  {
    hide AllFit, OpsOf, Rep, Sequence;
    assert WellFormed(writers[a]);
    TotalBytesGrow(writers, 1, a);
    TotalBytesGrow(writers, a + 1, b);
    assert TotalBytes(writers, 0) == 0 && TotalBytes(writers, 1) == |writers[0].batch.value|;
  }

  lemma {:induction false} TotalBytesGrow(writers: seq<Writer>, a: nat, b: nat)
    requires a <= b <= |writers|
    ensures TotalBytes(writers, a) <= TotalBytes(writers, b)
    decreases b
  {
    if a < b { TotalBytesGrow(writers, a, b - 1); }
  }

  lemma {:induction false} BodyCounts(ops: seq<Op>)
    ensures |ops| <= |Body(ops)|
  {
    hide OpBytes;
    if ops != [] {
      BodyCounts(ops[1..]);
    }
  }

  lemma FlatMore(writers: seq<Writer>, i: nat)
    requires i < |writers|
    ensures Flat(writers[..i + 1]) == Flat(writers[..i]) + OpsOf(writers[i])
  {
    assert writers[..i + 1][..i] == writers[..i];
  }

  // updates is the representation of the first i batches.
  ghost predicate Joins(updates: Bytes, writers: seq<Writer>, i: nat) {
    && i <= |writers| && |updates| >= HEADER_SIZE && |Flat(writers[..i])| < TWO_32
    && updates == Rep(Sequence(updates), Flat(writers[..i]))
  }

  lemma JoinsBounded(updates: Bytes, writers: seq<Writer>, i: nat)
    requires Joins(updates, writers, i)
    ensures |Flat(writers[..i])| + HEADER_SIZE <= |updates|
  {
    hide Fixed64, Fixed32, Body, Sequence, Flat;
    BodyCounts(Flat(writers[..i]));
  }

  // A batch that does not make the group too large is appended to it.
  method AppendBatch(updates: Bytes, writers: seq<Writer>, i: nat) returns (r: Bytes)
    requires i < |writers| && writers[i].batch.Some? && WellFormed(writers[i]) && Joins(updates, writers, i)
    requires |updates| + |writers[i].batch.value| <= MAX_GROUP + SMALL
    ensures Joins(r, writers, i + 1) && |r| + HEADER_SIZE == |updates| + |writers[i].batch.value|
  {
    ghost var (a, b) := (Flat(writers[..i]), OpsOf(writers[i]));
    var src := writers[i].batch.value;
    JoinsBounded(updates, writers, i);
    FlatMore(writers, i);
    BodyCounts(b);
    RepLength(Sequence(updates), a);
    RepLength(Sequence(src), b);
    hide Rep, Flat, OpsOf, Sequence;
    r := AppendBytes(updates, src, Sequence(updates), a, Sequence(src), b);
    BodyConcat(a, b);
    RepLength(Sequence(updates), a + b);
    RepFields(Sequence(updates), a + b);
  }

  lemma RepLength(sequence: uint64, ops: seq<Op>)
    requires |ops| < TWO_32
    ensures |Rep(sequence, ops)| == HEADER_SIZE + |Body(ops)|
  {
    hide Fixed64, Fixed32;
  }

  method BuildBatchGroup(writers: seq<Writer>) returns (updates: Bytes, last: nat)
    requires writers != [] && writers[0].batch.Some?
    requires forall w :: w in writers ==> WellFormed(w)
    ensures last + 1 == GroupOf(writers) && LargestGroup(writers, last + 1)
    ensures Joins(updates, writers, last + 1)
  {
    hide Joins, WellFormed, LargestGroup;
    GroupIsLargest(writers);
    updates := writers[0].batch.value;
    JoinsFirst(writers);
    var size: nat := |updates|;
    var limit: nat := MAX_GROUP;
    if size <= SMALL {
      limit := size + SMALL;
    }
    last := 0;
    var i := 1;
    while i < |writers|
      invariant 1 <= i == last + 1 <= |writers|
      invariant GroupEnd(writers, i, size, limit) == GroupOf(writers)
      invariant Joins(updates, writers, i) && |updates| <= size && limit <= MAX_GROUP
    {
      if writers[i].sync && !writers[0].sync {
        break;
      }
      if writers[i].batch.Some? {
        size := size + |writers[i].batch.value|;
        if size > limit {
          break;
        }
        assert writers[i] in writers;
        updates := AppendBatch(updates, writers, i);
      } else {
        JoinsNothing(updates, writers, i);
      }
      last := i;
      i := i + 1;
    }
  }

  lemma JoinsFirst(writers: seq<Writer>)
    requires writers != [] && writers[0].batch.Some? && WellFormed(writers[0])
    ensures Joins(writers[0].batch.value, writers, 1)
  {
    FlatMore(writers, 0);
    assert Flat(writers[..0]) == [];
    hide Flat;
    assert [] + OpsOf(writers[0]) == OpsOf(writers[0]);
  }

  lemma JoinsNothing(updates: Bytes, writers: seq<Writer>, i: nat)
    requires i < |writers| && writers[i].batch.None? && Joins(updates, writers, i)
    ensures Joins(updates, writers, i + 1)
  {
    FlatMore(writers, i);
    assert Flat(writers[..i]) + [] == Flat(writers[..i]);
    hide Flat;
  }

  // ---------------------------------------------------------------- the queue at work

  // How a write came back: applied; part of a group whose log write failed; or
  // turned away before anything was written.
  datatype Outcome = Committed | Failed | Refused

  // durable: the write's record had been synced when it came back.
  datatype Done = Done(writer: Writer, outcome: Outcome, durable: bool)

  // The front writer at work for the first count writers.
  datatype Phase =
    | Resting
    | Writing(count: nat, ops: seq<Op>, logged: bool, synced: bool, applied: nat, failed: bool)

  datatype State = State(
    queue: seq<Writer>, done: seq<Done>, phase: Phase,
    log: seq<(nat, seq<Op>)>, mem: seq<(nat, Op)>, last: nat)

  datatype Action =
    | Arrive(writer: Writer)
    | Refuse
    | PassThrough
    | Build
    | AppendToLog
    | AppendFails(kept: bool)
    | SyncLog
    | SyncFails
    | Apply
    | Finish

  function Completed(writers: seq<Writer>, outcome: Outcome, durable: bool): seq<Done> {
    seq(|writers|, i requires 0 <= i < |writers| => Done(writers[i], outcome, durable))
  }

  predicate Enabled(s: State, a: Action) {
    var p := s.phase;
    match a
    case Arrive(w) => true
    case Refuse => p.Resting? && s.queue != []
    case PassThrough => p.Resting? && s.queue != [] && s.queue[0].batch.None?
    case Build => p.Resting? && s.queue != [] && s.queue[0].batch.Some?
    case AppendToLog => p.Writing? && !p.logged && !p.failed
    case AppendFails(_) => p.Writing? && !p.logged && !p.failed
    case SyncLog => p.Writing? && p.logged && !p.synced && !p.failed && s.queue != [] && s.queue[0].sync
    case SyncFails => p.Writing? && p.logged && !p.synced && !p.failed && s.queue != [] && s.queue[0].sync
    case Apply =>
      p.Writing? && p.logged && !p.failed && s.queue != [] && (s.queue[0].sync ==> p.synced) && p.applied < |p.ops|
    case Finish =>
      && p.Writing? && 0 < p.count <= |s.queue|
      && (p.failed || (p.logged && (s.queue[0].sync ==> p.synced) && p.applied == |p.ops|))
  }

  function Step(s: State, a: Action): State
    requires Enabled(s, a)
  {
    var p := s.phase;
    match a
    case Arrive(w) => s.(queue := s.queue + [w])
    // MakeRoomForWrite fails, or a forced switch has nothing to write.
    case Refuse => s.(queue := s.queue[1..], done := s.done + [Done(s.queue[0], Refused, false)])
    case PassThrough => s.(queue := s.queue[1..], done := s.done + [Done(s.queue[0], Committed, false)])
    case Build =>
      var n := GroupOf(s.queue);
      s.(phase := Writing(n, Flat(s.queue[..n]), false, false, 0, false))
    case AppendToLog => s.(log := s.log + [(s.last + 1, p.ops)], phase := p.(logged := true))
    case AppendFails(kept) =>
      s.(log := if kept then s.log + [(s.last + 1, p.ops)] else s.log, phase := p.(failed := true))
    case SyncLog => s.(phase := p.(synced := true))
    case SyncFails => s.(phase := p.(failed := true))
    case Apply =>
      s.(mem := s.mem + [(s.last + 1 + p.applied, p.ops[p.applied])], phase := p.(applied := p.applied + 1))
    // LastSequence advances by the whole group even when the log write failed.
    case Finish =>
      State(s.queue[p.count..],
        s.done + Completed(s.queue[..p.count], if p.failed then Failed else Committed, p.synced),
            Resting, s.log, s.mem, s.last + |p.ops|)
  }

  // ---------------------------------------------------------------- one at a time

  // Carrying out operations together.
  function Carried(r: (seq<(nat, Op)>, nat), ops: seq<Op>, outcome: Outcome): (seq<(nat, Op)>, nat) {
    match outcome
    case Committed => (r.0 + Numbered(r.1 + 1, ops), r.1 + |ops|)
    case Failed => (r.0, r.1 + |ops|)
    case Refused => r
  }

  // The same writes carried out one after the other, in the order they came.
  function Serial(done: seq<Done>): (seq<(nat, Op)>, nat) {
    if done == [] then ([], 0)
    else
      var d := done[|done| - 1];
      Carried(Serial(done[..|done| - 1]), OpsOf(d.writer), d.outcome)
  }

  lemma SerialMore(done: seq<Done>, d: Done)
    ensures Serial(done + [d]) == Carried(Serial(done), OpsOf(d.writer), d.outcome)
  {
    assert (done + [d])[..|done|] == done;
  }

  lemma CarriedTwice(r: (seq<(nat, Op)>, nat), a: seq<Op>, b: seq<Op>, outcome: Outcome)
    requires outcome != Refused
    ensures Carried(Carried(r, a, outcome), b, outcome) == Carried(r, a + b, outcome)
  {
    var (x, y) := (Numbered(r.1 + 1, a), Numbered(r.1 + 1 + |a|, b));
    assert Numbered(r.1 + 1, a + b) == x + y;
    assert r.0 + x + y == r.0 + (x + y);
  }

  lemma CarriedNone(r: (seq<(nat, Op)>, nat), outcome: Outcome)
    ensures Carried(r, [], outcome) == r
  {
    NumberedNone(r.1 + 1);
    assert r.0 + [] == r.0;
  }

  // A group that completes together is its members completing one by one.
  lemma {:induction false} SerialGroup(done: seq<Done>, writers: seq<Writer>, outcome: Outcome, durable: bool)
    requires outcome != Refused
    ensures Serial(done + Completed(writers, outcome, durable)) == Carried(Serial(done), Flat(writers), outcome)
  {
    hide OpsOf, Carried, Serial;
    var group := Completed(writers, outcome, durable);
    if writers == [] {
      assert done + group == done;
      CarriedNone(Serial(done), outcome);
    } else {
      var n := |writers| - 1;
      var rest := Completed(writers[..n], outcome, durable);
      assert done + group == done + rest + [group[n]];
      SerialGroup(done, writers[..n], outcome, durable);
      SerialMore(done + rest, group[n]);
      CarriedTwice(Serial(done), Flat(writers[..n]), OpsOf(writers[n]), outcome);
    }
  }

  // Its sequence numbers ascend and stay at or below its last one.
  lemma {:induction false} SerialAscends(done: seq<Done>)
    ensures forall i, j :: 0 <= i < j < |Serial(done).0| ==> Serial(done).0[i].0 < Serial(done).0[j].0
    ensures forall i :: 0 <= i < |Serial(done).0| ==> Serial(done).0[i].0 <= Serial(done).1
  {
    if done != [] {
      SerialAscends(done[..|done| - 1]);
    }
  }

  // ---------------------------------------------------------------- invariant

  // Every entry is in the log before it is in the memtable.
  ghost predicate Logged(log: seq<(nat, seq<Op>)>, mem: seq<(nat, Op)>) {
    forall e :: e in mem ==> InLog(log, e)
  }

  ghost predicate InLog(log: seq<(nat, seq<Op>)>, e: (nat, Op)) {
    exists i :: 0 <= i < |log| && e in Numbered(log[i].0, log[i].1)
  }

  ghost predicate PhaseOk(s: State) {
    var p := s.phase;
    p.Writing? ==>
      && 0 < p.count <= |s.queue| && p.ops == Flat(s.queue[..p.count])
      && (forall i :: 0 <= i < p.count && s.queue[i].sync ==> s.queue[0].sync)
      && p.applied <= |p.ops| && (p.failed ==> p.applied == 0)
      && (p.logged ==> (s.last + 1, p.ops) in s.log)
      && (p.applied > 0 ==> p.logged && (s.queue[0].sync ==> p.synced))
  }

  // A write that asked for sync and came back well had been synced.
  ghost predicate SyncKept(done: seq<Done>) {
    forall i :: 0 <= i < |done| && done[i].outcome == Committed && done[i].writer.sync && done[i].writer.batch.Some?
      ==> done[i].durable
  }

  ghost predicate MemIs(s: State) {
    var (mem, last) := Serial(s.done);
    && s.last == last
    && s.mem == mem + if s.phase.Writing? && s.phase.applied <= |s.phase.ops|
                      then Numbered(last + 1, s.phase.ops[..s.phase.applied]) else []
  }

  ghost predicate Inv(s: State) {
    MemIs(s) && PhaseOk(s) && SyncKept(s.done) && Logged(s.log, s.mem)
  }

  lemma NumberedPrefix(first: nat, ops: seq<Op>, i: nat)
    requires i < |ops|
    ensures Numbered(first, ops[..i + 1]) == Numbered(first, ops[..i]) + [(first + i, ops[i])]
    ensures (first + i, ops[i]) in Numbered(first, ops)
  {
    assert Numbered(first, ops)[i] == (first + i, ops[i]);
  }

  lemma LoggedMore(log: seq<(nat, seq<Op>)>, r: (nat, seq<Op>), mem: seq<(nat, Op)>)
    requires Logged(log, mem)
    ensures Logged(log + [r], mem)
  {
    forall e | e in mem ensures InLog(log + [r], e) {
      var i :| 0 <= i < |log| && e in Numbered(log[i].0, log[i].1);
      assert (log + [r])[i] == log[i];
    }
  }

  lemma ArriveKeeps(s: State, w: Writer)
    requires Inv(s)
    ensures Inv(Step(s, Arrive(w)))
  {
    hide Serial, Logged, SyncKept, Flat, Numbered;
    var t := Step(s, Arrive(w));
    if s.phase.Writing? {
      var n := s.phase.count;
      assert t.queue[..n] == s.queue[..n] && t.queue[0] == s.queue[0];
      assert forall i :: 0 <= i < n ==> t.queue[i] == s.queue[i];
    }
  }

  // Coming back alone, without a write.
  lemma AloneKeeps(s: State, a: Action)
    requires Inv(s) && (a.Refuse? || a.PassThrough?) && Enabled(s, a)
    ensures Inv(Step(s, a))
  {
    hide Serial, Logged, Numbered, Carried;
    var w := s.queue[0];
    var outcome := if a.Refuse? then Refused else Committed;
    SerialMore(s.done, Done(w, outcome, false));
    if a.PassThrough? {
      CarriedNone(Serial(s.done), Committed);
    } else {
      assert Carried(Serial(s.done), OpsOf(w), Refused) == Serial(s.done) by {
        CarriedRefused(Serial(s.done), OpsOf(w));
      }
    }
  }

  lemma CarriedRefused(r: (seq<(nat, Op)>, nat), ops: seq<Op>)
    ensures Carried(r, ops, Refused) == r
  {
  }

  lemma BuildKeeps(s: State)
    requires Inv(s) && Enabled(s, Build)
    ensures Inv(Step(s, Build))
  {
    hide Serial, Logged, SyncKept, Flat;
    var first := |s.queue[0].batch.value|;
    GroupSync(s.queue, 1, first, SizeLimit(first));
    var t := Step(s, Build);
    assert Numbered(s.last + 1, t.phase.ops[..0]) == [];
  }

  lemma LogKeeps(s: State, a: Action)
    requires Inv(s) && (a.AppendToLog? || a.AppendFails? || a.SyncLog? || a.SyncFails?) && Enabled(s, a)
    ensures Inv(Step(s, a))
  {
    hide Serial, Logged, SyncKept, Flat, Numbered;
    var r := (s.last + 1, s.phase.ops);
    LoggedMore(s.log, r, s.mem);
    assert r in s.log + [r];
  }

  lemma ApplyKeeps(s: State)
    requires Inv(s) && Enabled(s, Apply)
    ensures Inv(Step(s, Apply))
  {
    hide Serial, SyncKept, Flat, Numbered;
    var p := s.phase;
    NumberedPrefix(s.last + 1, p.ops, p.applied);
    var e := (s.last + 1 + p.applied, p.ops[p.applied]);
    assert InLog(s.log, e) by {
      var i :| 0 <= i < |s.log| && s.log[i] == (s.last + 1, p.ops);
      assert e in Numbered(s.log[i].0, s.log[i].1);
    }
  }

  lemma FinishKeeps(s: State)
    requires Inv(s) && Enabled(s, Finish)
    ensures Inv(Step(s, Finish))
  {
    hide Serial, Logged, Flat, Numbered;
    var p := s.phase;
    var outcome := if p.failed then Failed else Committed;
    SerialGroup(s.done, s.queue[..p.count], outcome, p.synced);
    assert p.ops[..|p.ops|] == p.ops && p.ops[..0] == [];
    NumberedNone(s.last + 1);
    assert s.mem + [] == s.mem;
  }

  lemma StepKeepsInv(s: State, a: Action)
    requires Inv(s) && Enabled(s, a)
    ensures Inv(Step(s, a))
  {
    hide MemIs, Logged, SyncKept;
    match a
    case Arrive(w) => ArriveKeeps(s, w);
    case Refuse => AloneKeeps(s, a);
    case PassThrough => AloneKeeps(s, a);
    case Build => BuildKeeps(s);
    case AppendToLog => LogKeeps(s, a);
    case AppendFails(_) => LogKeeps(s, a);
    case SyncLog => LogKeeps(s, a);
    case SyncFails => LogKeeps(s, a);
    case Apply => ApplyKeeps(s);
    case Finish => FinishKeeps(s);
  }

  // ---------------------------------------------------------------- whole runs

  ghost predicate Run(states: seq<State>, actions: seq<Action>) {
    && |states| == |actions| + 1 && states[0] == State([], [], Resting, [], [], 0)
    && forall i :: 0 <= i < |actions| ==> Enabled(states[i], actions[i]) && states[i + 1] == Step(states[i], actions[i])
  }

  lemma {:induction false} RunKeepsInv(states: seq<State>, actions: seq<Action>)
    requires Run(states, actions)
    ensures Inv(states[|actions|])
  {
    hide Enabled, Step;
    if actions != [] {
      var n := |actions| - 1;
      var (ss, aa) := (states[..n + 1], actions[..n]);
      assert forall i :: 0 <= i <= n ==> ss[i] == states[i];
      RunKeepsInv(ss, aa);
      StepKeepsInv(states[n], actions[n]);
    }
  }

  // Writes come back in the order in which they arrived, each exactly once.
  function Arrivals(actions: seq<Action>): seq<Writer> {
    if actions == [] then []
    else
      var a := actions[|actions| - 1];
      Arrivals(actions[..|actions| - 1]) + if a.Arrive? then [a.writer] else []
  }

  function WritersOf(done: seq<Done>): seq<Writer> {
    seq(|done|, i requires 0 <= i < |done| => done[i].writer)
  }

  lemma StepOrder(s: State, a: Action)
    requires Enabled(s, a)
    ensures WritersOf(Step(s, a).done) + Step(s, a).queue
         == WritersOf(s.done) + s.queue + if a.Arrive? then [a.writer] else []
  {
    hide GroupOf, Flat;
    var t := Step(s, a);
    if a.Finish? {
      var n := s.phase.count;
      assert WritersOf(t.done) == WritersOf(s.done) + s.queue[..n];
      assert s.queue == s.queue[..n] + s.queue[n..];
    } else if a.Refuse? || a.PassThrough? {
      assert WritersOf(t.done) == WritersOf(s.done) + [s.queue[0]];
      assert s.queue == [s.queue[0]] + s.queue[1..];
    }
  }

  lemma {:induction false} RunKeepsOrder(states: seq<State>, actions: seq<Action>)
    requires Run(states, actions)
    ensures WritersOf(states[|actions|].done) + states[|actions|].queue == Arrivals(actions)
  {
    hide Enabled, Step;
    if actions != [] {
      var n := |actions| - 1;
      var (ss, aa) := (states[..n + 1], actions[..n]);
      assert forall i :: 0 <= i <= n ==> ss[i] == states[i];
      RunKeepsOrder(ss, aa);
      StepOrder(states[n], actions[n]);
    }
  }

  // What a reader that takes LastSequence finds.
  function Visible(mem: seq<(nat, Op)>, last: nat): seq<(nat, Op)> {
    if mem == [] then []
    else
      var e := mem[|mem| - 1];
      Visible(mem[..|mem| - 1], last) + if e.0 <= last then [e] else []
  }

  lemma {:induction false} VisibleAll(a: seq<(nat, Op)>, last: nat)
    requires forall i :: 0 <= i < |a| ==> a[i].0 <= last
    ensures Visible(a, last) == a
  {
    if a != [] {
      VisibleAll(a[..|a| - 1], last);
    }
  }

  lemma {:induction false} VisibleSplit(a: seq<(nat, Op)>, b: seq<(nat, Op)>, last: nat)
    requires forall i :: 0 <= i < |a| ==> a[i].0 <= last
    requires forall i :: 0 <= i < |b| ==> b[i].0 > last
    ensures Visible(a + b, last) == a
  {
    if b == [] {
      assert a + b == a;
      VisibleAll(a, last);
    } else {
      var (n, rest) := (|a + b| - 1, b[..|b| - 1]);
      assert (a + b)[..n] == a + rest && (a + b)[n] == b[|b| - 1];
      VisibleSplit(a, rest, last);
      assert a + [] == a;
    }
  }

  // At every moment of every run a reader sees the writes that have come back,
  // each of them whole and once, as if they had been carried out one by one in
  // the order of arrival; and nothing of the group in progress.
  lemma ReadersSeeWholeWrites(states: seq<State>, actions: seq<Action>)
    requires Run(states, actions)
    ensures var s := states[|actions|];
      && Visible(s.mem, s.last) == Serial(s.done).0
      && WritersOf(s.done) <= Arrivals(actions)
      && SyncKept(s.done) && Logged(s.log, s.mem)
  {
    RunKeepsInv(states, actions);
    RunKeepsOrder(states, actions);
    hide Run, Logged, SyncKept, Serial, Visible;
    var s := states[|actions|];
    var (mem, last) := Serial(s.done);
    SerialAscends(s.done);
    VisibleSplit(mem, s.mem[|mem|..], last);
    assert s.mem == mem + s.mem[|mem|..];
  }

  // A write that came back well sits in the memtable as one block of fresh,
  // consecutive sequence numbers.
  lemma {:induction false} CommittedIsApplied(done: seq<Done>, i: nat) returns (at: nat, first: nat)
    requires i < |done| && done[i].outcome == Committed
    ensures var (mem, ops) := (Serial(done).0, OpsOf(done[i].writer));
      at + |ops| <= |mem| && mem[at..at + |ops|] == Numbered(first, ops)
    ensures first == Serial(done[..i]).1 + 1 && at == |Serial(done[..i]).0|
  {
    hide OpsOf;
    var n := |done| - 1;
    if i == n {
      at, first := |Serial(done[..i]).0|, Serial(done[..i]).1 + 1;
    } else {
      assert done[..n][..i] == done[..i];
      at, first := CommittedIsApplied(done[..n], i);
      var (mem, ops) := (Serial(done[..n]).0, OpsOf(done[i].writer));
      assert Serial(done).0[..|mem|] == mem;
      assert Serial(done).0[at..at + |ops|] == mem[at..at + |ops|];
    }
  }

  // Where nothing fails and nobody is turned away, every write comes back well.
  ghost predicate Healthy(actions: seq<Action>) {
    forall i :: 0 <= i < |actions| ==> !actions[i].Refuse? && !actions[i].AppendFails? && !actions[i].SyncFails?
  }

  lemma {:induction false} HealthyRunCommits(states: seq<State>, actions: seq<Action>)
    requires Run(states, actions) && Healthy(actions)
    ensures var s := states[|actions|];
      && (forall i :: 0 <= i < |s.done| ==> s.done[i].outcome == Committed)
      && (s.phase.Writing? ==> !s.phase.failed)
  {
    hide GroupOf;
    if actions != [] {
      var n := |actions| - 1;
      var (ss, aa) := (states[..n + 1], actions[..n]);
      assert forall i :: 0 <= i <= n ==> ss[i] == states[i];
      HealthyRunCommits(ss, aa);
      assert states[n + 1] == Step(states[n], actions[n]);
    }
  }

  // From the actions alone: whether the group at work has been appended to the
  // log, whether it has been synced, and how many records the log holds.
  function Effects(actions: seq<Action>): (bool, bool, nat) {
    if actions == [] then (false, false, 0)
    else
      var ((logged, synced, records), a) := (Effects(actions[..|actions| - 1]), actions[|actions| - 1]);
      match a
      case Build => (false, false, records)
      case AppendToLog => (true, synced, records + 1)
      case AppendFails(kept) => (logged, synced, if kept then records + 1 else records)
      case SyncLog => (logged, true, records)
      case _ => (logged, synced, records)
  }

  // Nothing counts as logged or synced without the append or the sync of its own group.
  lemma {:induction false} SyncIsEarned(states: seq<State>, actions: seq<Action>)
    requires Run(states, actions)
    ensures var (s, (logged, synced, records)) := (states[|actions|], Effects(actions));
      |s.log| == records && (s.phase.Writing? ==> s.phase.logged == logged && s.phase.synced == synced)
  {
    hide GroupOf, Flat;
    if actions != [] {
      var n := |actions| - 1;
      var (ss, aa) := (states[..n + 1], actions[..n]);
      assert forall i :: 0 <= i <= n ==> ss[i] == states[i];
      SyncIsEarned(ss, aa);
      assert states[n + 1] == Step(states[n], actions[n]);
    }
  }

  // A group comes back durable exactly when its own sync came between its
  // building and its end.
  lemma DurableIsEarned(states: seq<State>, actions: seq<Action>, i: nat)
    requires Run(states, actions) && i < |actions| && actions[i].Finish?
    ensures var (before, after) := (states[i].done, states[i + 1].done);
            && |before| < |after| && before == after[..|before|]
            && forall j :: |before| <= j < |after| ==> after[j].durable == Effects(actions[..i]).1
  {
    var (ss, aa) := (states[..i + 1], actions[..i]);
    assert forall j :: 0 <= j <= i ==> ss[j] == states[j];
    SyncIsEarned(ss, aa);
    assert Enabled(states[i], actions[i]) && states[i + 1] == Step(states[i], actions[i]);
  }
}
