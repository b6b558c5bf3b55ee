/**
  The log files over a whole run: every group was numbered consecutively, so any
  byte prefix of any log on disk replays to a prefix of its groups.
 */
module LogBytes {
  import opened Entries
  import opened Versions
  import opened Storage
  import opened Database
  import opened DatabaseWrites
  import opened DatabaseVersions
  import opened DatabaseInstall
  import opened DatabaseRecovery
  import opened EntryBytes
  import WriteAheadLog
  import L = LogReader
  import W = LogFormat
  import F = Files

  ghost predicate LogsConsecutive(logs: map<nat, Log>) {
    forall l :: l in logs ==> AllConsecutive(logs[l])
  }

  // Every step leaves the logs alone, removes one, starts an empty one or appends
  // a group.
  lemma StepLogs(s: State, a: Action, s': State, l: nat)
    requires Next(s, a, s') && l in s'.disk.logs
    ensures || s'.disk.logs[l] == []
            || (l in s.disk.logs && s'.disk.logs[l] == s.disk.logs[l])
            || (l in s.disk.logs && a.DoLogGroup? && s'.disk.logs[l] == s.disk.logs[l] + [a.batch]
                && s.memory.Some? && Follows(a.batch, s.memory.value.last))
  {
    hide F.Install, SetOf, Compacted, LevelPicked, IsLive, OldestSnapshot, Recovered, SnapshotRecord, Follows,
         LastSequenceRecovered, TablesExtended;
  }

  lemma ConsecutiveMore(log: Log, batch: seq<Entry>, last: Sequence)
    requires AllConsecutive(log) && Follows(batch, last)
    ensures AllConsecutive(log + [batch])
  {
  }

  lemma {:induction false} RunKeepsConsecutive(states: seq<State>, actions: seq<Action>, i: nat)
    requires Run(states, actions) && i < |states|
    ensures LogsConsecutive(states[i].disk.logs)
  {
    hide Next, AllConsecutive;
    if i > 0 {
      RunKeepsConsecutive(states, actions, i - 1);
      var (s, s', a) := (states[i - 1], states[i], actions[i - 1]);
      assert Next(s, a, s');
      forall l | l in s'.disk.logs
        ensures AllConsecutive(s'.disk.logs[l])
      {
        StepLogs(s, a, s', l);
        NoneConsecutive();
        if l in s.disk.logs && a.DoLogGroup? && s.memory.Some? && Follows(a.batch, s.memory.value.last) {
          ConsecutiveMore(s.disk.logs[l], a.batch, s.memory.value.last);
        }
      }
    }
  }

  lemma NoneConsecutive()
    ensures AllConsecutive([])
  {
  }

  // In any state of any run, cut the file of any log at any byte: RecoverLogFile
  // replays the groups that lie wholly inside.
  lemma LogFileInRun(states: seq<State>, actions: seq<Action>, i: nat, l: nat, user: Naming, n: nat, whole: nat)
    requires Run(states, actions) && i < |states| && l in states[i].disk.logs
    requires WriteAheadLog.WellFormed(BatchesOf(user, states[i].disk.logs[l]))
    requires var (log, reps) := (states[i].disk.logs[l], WriteAheadLog.Reps(BatchesOf(user, states[i].disk.logs[l])));
             && n <= |W.Written(reps)| && whole <= |log| && |W.Written(reps[..whole])| <= n
             && (whole < |log| ==> n < |W.Written(reps[..whole + 1])|)
    ensures var log := states[i].disk.logs[l];
            var file := W.Written(WriteAheadLog.Reps(BatchesOf(user, log)));
            var r := WriteAheadLog.Replayed(L.AllRecords(L.Opened(file[..n]), true));
            r.0 == LogOps(user, log[..whole]) && IsLast(log[..whole], r.1)
  {
    hide Run, W.Written, L.AllRecords, WriteAheadLog.Replayed, WriteAheadLog.WellFormed, LogOps, IsLast, AllConsecutive;
    RunKeepsConsecutive(states, actions, i);
    LogFileReplays(user, states[i].disk.logs[l], n, whole);
  }
}
