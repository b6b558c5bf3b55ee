/**
  Where a compaction cuts its output (db/version_set.cc, ShouldStopBefore;
  db/db_impl.cc, DoCompactionWork): an output ends when it is full, or when the
  input has passed too much of the grandparent level since the last such stop.
 */
module Outputs {
  import opened Entries
  import opened Versions
  import opened Inputs

  // ---------------------------------------------------------------- outputs

  function Flatten(outputs: seq<seq<Entry>>): seq<Entry> {
    if outputs == [] then [] else Flatten(outputs[..|outputs| - 1]) + outputs[|outputs| - 1]
  }

  lemma FlattenSnoc(outputs: seq<seq<Entry>>, out: seq<Entry>)
    ensures Flatten(outputs + [out]) == Flatten(outputs) + out
  {
    assert (outputs + [out])[..|outputs|] == outputs;
  }

  // Close the current output, if there is one and it is time to.
  function Close(outputs: seq<seq<Entry>>, current: seq<Entry>, close: bool): (r: (seq<seq<Entry>>, seq<Entry>))
    ensures Flatten(r.0) + r.1 == Flatten(outputs) + current
    ensures [] !in outputs ==> [] !in r.0
    ensures close ==> r.1 == []
  {
    FlattenSnoc(outputs, current);
    if close && current != [] then (outputs + [current], []) else (outputs, current)
  }

  // ---------------------------------------------------------------- grandparents

  // The progress of a compaction through the files of level + 2.
  datatype Overlap = Overlap(index: nat, seen: bool, bytes: nat)

  const NO_OVERLAP := Overlap(0, false, 0)

  // The first file from index on that does not end before the key.
  function Passed(gs: seq<File>, index: nat, ik: IKey): (i: nat)
    requires index <= |gs|
    ensures index <= i <= |gs|
    ensures forall j :: index <= j < i ==> ILess(gs[j].largest, ik)
    ensures i < |gs| ==> !ILess(gs[i].largest, ik)
    decreases |gs| - index
  {
    if index < |gs| && ILess(gs[index].largest, ik) then Passed(gs, index + 1, ik) else index
  }

  function TotalSize(gs: seq<File>, i: nat, j: nat): nat
    requires j <= |gs|
  {
    if j <= i then 0 else TotalSize(gs, i, j - 1) + gs[j - 1].size
  }

  lemma {:induction false} TotalSizeAdd(gs: seq<File>, i: nat, j: nat, k: nat)
    requires i <= j <= k <= |gs|
    ensures TotalSize(gs, i, k) == TotalSize(gs, i, j) + TotalSize(gs, j, k)
    decreases k
  {
    if j < k { TotalSizeAdd(gs, i, j, k - 1); }
  }

  lemma PassedOn(gs: seq<File>, a: IKey, b: IKey)
    requires a == b || ILess(a, b)
    ensures Passed(gs, 0, a) <= Passed(gs, 0, b) && Passed(gs, Passed(gs, 0, a), b) == Passed(gs, 0, b)
  {
    var (i, j) := (Passed(gs, 0, a), Passed(gs, 0, b));
    hide Passed;
    var k := Passed(gs, i, b);
    assert i <= j && k == j;
  }

  // What one key of the input does to the progress, and whether to stop before it.
  function StopBefore(gs: seq<File>, o: Overlap, ik: IKey): (Overlap, bool)
    requires o.index <= |gs|
  {
    var index := Passed(gs, o.index, ik);
    var bytes := o.bytes + if o.seen then TotalSize(gs, o.index, index) else 0;
    if bytes > MAX_GRANDPARENT_OVERLAP_BYTES then (Overlap(index, true, 0), true)
    else (Overlap(index, true, bytes), false)
  }

  // The progress after n entries of the input.
  function Progress(gs: seq<File>, input: seq<Entry>, n: nat): (o: Overlap)
    requires n <= |input|
    ensures o.index <= |gs| && o.bytes <= MAX_GRANDPARENT_OVERLAP_BYTES
  {
    if n == 0 then NO_OVERLAP else StopBefore(gs, Progress(gs, input, n - 1), input[n - 1].ik).0
  }

  predicate StopsAt(gs: seq<File>, input: seq<Entry>, i: nat)
    requires i < |input|
  {
    StopBefore(gs, Progress(gs, input, i), input[i].ik).1
  }

  lemma {:induction false} ProgressIndex(gs: seq<File>, input: seq<Entry>, n: nat)
    requires Sorted(input) && 0 < n <= |input|
    ensures Progress(gs, input, n).seen && Progress(gs, input, n).index == Passed(gs, 0, input[n - 1].ik)
  {
    if n > 1 {
      ProgressIndex(gs, input, n - 1);
      PassedOn(gs, input[n - 2].ik, input[n - 1].ik);
    }
  }

  // Where the input stops: a key stops it if and only if the grandparents passed
  // since the last stop, or since the first key, are too large together.
  lemma StopsIff(gs: seq<File>, input: seq<Entry>, j: nat, i: nat)
    requires Sorted(input) && j < i < |input| && (j == 0 || StopsAt(gs, input, j))
    requires forall x :: j < x < i ==> !StopsAt(gs, input, x)
    ensures StopsAt(gs, input, i) <==>
            TotalSize(gs, Passed(gs, 0, input[j].ik), Passed(gs, 0, input[i].ik)) > 20971520
  {
    hide Passed, TotalSize, Sorted;
    BytesSince(gs, input, j, i);
    ProgressIndex(gs, input, i);
    PassedOn(gs, input[j].ik, input[i - 1].ik) by { InputAscends(input, j, i - 1); }
    PassedOn(gs, input[i - 1].ik, input[i].ik) by { InputAscends(input, i - 1, i); }
    TotalSizeAdd(gs, Passed(gs, 0, input[j].ik), Passed(gs, 0, input[i - 1].ik), Passed(gs, 0, input[i].ik));
  }

  lemma FirstNeverStops(gs: seq<File>, input: seq<Entry>)
    requires input != []
    ensures !StopsAt(gs, input, 0)
  {
  }

  lemma InputAscends(input: seq<Entry>, i: nat, j: nat)
    requires Sorted(input) && i <= j < |input|
    ensures input[i].ik == input[j].ik || ILess(input[i].ik, input[j].ik)
  {
  }

  lemma {:induction false} BytesSince(gs: seq<File>, input: seq<Entry>, j: nat, n: nat)
    requires Sorted(input) && j < n <= |input| && (j == 0 || StopsAt(gs, input, j))
    requires forall x :: j < x < n ==> !StopsAt(gs, input, x)
    ensures Progress(gs, input, n).bytes == TotalSize(gs, Passed(gs, 0, input[j].ik), Passed(gs, 0, input[n - 1].ik))
    decreases n
  {
    hide Passed, TotalSize, Sorted;
    ProgressIndex(gs, input, n);
    if n == j + 1 {
      NoBytes(gs, Passed(gs, 0, input[j].ik), Passed(gs, 0, input[j].ik));
    } else {
      BytesSince(gs, input, j, n - 1);
      ProgressIndex(gs, input, n - 1);
      assert !StopsAt(gs, input, n - 1);
      PassedOn(gs, input[j].ik, input[n - 2].ik) by { InputAscends(input, j, n - 2); }
      PassedOn(gs, input[n - 2].ik, input[n - 1].ik) by { InputAscends(input, n - 2, n - 1); }
      TotalSizeAdd(gs, Passed(gs, 0, input[j].ik), Passed(gs, 0, input[n - 2].ik), Passed(gs, 0, input[n - 1].ik));
    }
  }

  // ---------------------------------------------------------------- cuts

  // No output goes on after it is full.
  ghost predicate NotFullBefore(out: seq<Entry>, n: nat, fileSize: seq<Entry> -> nat, max: nat) {
    forall k :: 0 < k < n && k <= |out| ==> fileSize(out[..k]) < max
  }

  // From its first to its last entry an output passes no more of the
  // grandparent level than allowed.
  ghost predicate OverlapsLittle(gs: seq<File>, out: seq<Entry>) {
    out != [] ==>
      TotalSize(gs, Passed(gs, 0, out[0].ik), Passed(gs, 0, out[|out| - 1].ik)) <= MAX_GRANDPARENT_OVERLAP_BYTES
  }

  // The input stops after the last entry of out, and not after the first of next.
  ghost predicate StopsBetween(gs: seq<File>, input: seq<Entry>, n: nat, out: seq<Entry>, next: seq<Entry>)
    requires n <= |input|
  {
    exists j :: 0 <= j < n && StopsAt(gs, input, j)
                && (forall e :: e in out ==> ILess(e.ik, input[j].ik))
                && (forall e :: e in next ==> !ILess(e.ik, input[j].ik))
  }

  // What follows output k, when current is still open.
  ghost function After(outputs: seq<seq<Entry>>, current: seq<Entry>, k: nat): seq<Entry>
    requires k < |outputs|
  {
    if k + 1 < |outputs| then outputs[k + 1] else current
  }

  // No output goes on over a stop.
  ghost predicate NoStopInside(gs: seq<File>, input: seq<Entry>, out: seq<Entry>) {
    forall j, x, y :: 0 <= j < |input| && StopsAt(gs, input, j) && x in out && y in out && ILess(x.ik, input[j].ik) ==>
      ILess(y.ik, input[j].ik)
  }

  // All of the current output comes after the stops so far.
  ghost predicate Unstopped(gs: seq<File>, input: seq<Entry>, n: nat, current: seq<Entry>)
    requires n <= |input|
  {
    forall j, x :: 0 <= j < n && StopsAt(gs, input, j) && x in current ==> !ILess(x.ik, input[j].ik)
  }

  ghost predicate GoodOutput(gs: seq<File>, input: seq<Entry>, out: seq<Entry>, fileSize: seq<Entry> -> nat, max: nat) {
    NotFullBefore(out, |out|, fileSize, max) && OverlapsLittle(gs, out) && NoStopInside(gs, input, out)
  }

  ghost predicate CutFor(gs: seq<File>, input: seq<Entry>, n: nat, out: seq<Entry>, next: seq<Entry>,
                         fileSize: seq<Entry> -> nat, max: nat)
    requires n <= |input|
  {
    fileSize(out) >= max || StopsBetween(gs, input, n, out, next)
  }

  // Every output is as long as it may be, and ends for one of the two reasons.
  ghost predicate WellCut(gs: seq<File>, input: seq<Entry>, outputs: seq<seq<Entry>>, fileSize: seq<Entry> -> nat,
                          max: nat) {
    && (forall k :: 0 <= k < |outputs| ==> GoodOutput(gs, input, outputs[k], fileSize, max))
    && (forall k :: 0 <= k < |outputs| - 1 ==> CutFor(gs, input, |input|, outputs[k], outputs[k + 1], fileSize, max))
  }

  // The same in the middle of the loop.
  ghost predicate Cutting(gs: seq<File>, input: seq<Entry>, n: nat, outputs: seq<seq<Entry>>, current: seq<Entry>,
                          fileSize: seq<Entry> -> nat, max: nat)
    requires n <= |input|
  {
    && (forall k :: 0 <= k < |outputs| ==> GoodOutput(gs, input, outputs[k], fileSize, max))
    && (forall k :: 0 <= k < |outputs| ==> CutFor(gs, input, n, outputs[k], After(outputs, current, k), fileSize, max))
    && NotFullBefore(current, |current| + 1, fileSize, max)
    && Unstopped(gs, input, n, current)
    && Tracks(gs, current, Progress(gs, input, n))
  }

  // The progress counts all that the current output has passed.
  ghost predicate Tracks(gs: seq<File>, current: seq<Entry>, o: Overlap) {
    current != [] ==> o.index <= |gs| && TotalSize(gs, Passed(gs, 0, current[0].ik), o.index) <= o.bytes
  }

  lemma StartCutting(gs: seq<File>, input: seq<Entry>, fileSize: seq<Entry> -> nat, max: nat)
    ensures Cutting(gs, input, 0, [], [], fileSize, max)
  {
  }

  // The current output holds entries of the input that have been passed.
  ghost predicate Within(input: seq<Entry>, n: nat, current: seq<Entry>)
    requires n <= |input|
  {
    forall k :: 0 <= k < |current| ==> current[k] in input[..n]
  }

  lemma WithinIndex(input: seq<Entry>, n: nat, current: seq<Entry>, k: nat)
    requires Sorted(input) && n <= |input| && Within(input, n, current) && k < |current|
    ensures n > 0 && (current[k].ik == input[n - 1].ik || ILess(current[k].ik, input[n - 1].ik))
  {
    assert current[k] in input[..n];
  }

  // The current output may be closed at any time.
  lemma MayClose(gs: seq<File>, input: seq<Entry>, n: nat, current: seq<Entry>)
    requires Sorted(input) && n <= |input| && Within(input, n, current)
    requires Tracks(gs, current, Progress(gs, input, n)) && Unstopped(gs, input, n, current)
    ensures OverlapsLittle(gs, current) && NoStopInside(gs, input, current)
  {
    hide Progress, Passed, TotalSize, Sorted, StopsAt;
    StopsOutside(gs, input, n, current);
    if current != [] {
      var last := current[|current| - 1].ik;
      WithinIndex(input, n, current, |current| - 1);
      ProgressIndex(gs, input, n);
      PassedOn(gs, last, input[n - 1].ik);
      var (i, j, k) := (Passed(gs, 0, current[0].ik), Passed(gs, 0, last), Passed(gs, 0, input[n - 1].ik));
      if i <= j {
        TotalSizeAdd(gs, i, j, k);
      } else {
        NoBytes(gs, i, j);
      }
    }
  }

  lemma StopsOutside(gs: seq<File>, input: seq<Entry>, n: nat, current: seq<Entry>)
    requires Sorted(input) && n <= |input| && Within(input, n, current) && Unstopped(gs, input, n, current)
    ensures NoStopInside(gs, input, current)
  {
    hide StopsAt;
    forall j, y | n <= j < |input| && y in current
      ensures ILess(y.ik, input[j].ik)
    {
      var k :| 0 <= k < |current| && current[k] == y;
      assert current[k] in input[..n];
    }
  }

  lemma NoBytes(gs: seq<File>, i: nat, j: nat)
    requires j <= i && j <= |gs|
    ensures TotalSize(gs, i, j) == 0
  {
  }

  // The next key of the input, before it is added.
  lemma StopStep(gs: seq<File>, input: seq<Entry>, n: nat, outputs: seq<seq<Entry>>, current: seq<Entry>,
                 fileSize: seq<Entry> -> nat, max: nat)
    requires Sorted(input) && n < |input| && Within(input, n, current)
    requires Cutting(gs, input, n, outputs, current, fileSize, max)
    ensures var c := Close(outputs, current, StopsAt(gs, input, n));
            Cutting(gs, input, n + 1, c.0, c.1, fileSize, max)
  {
    hide Progress, Passed, TotalSize, Sorted, Tracks, OverlapsLittle, NoStopInside, StopsAt, StopsBetween, Flatten;
    var (closed, open) := Close(outputs, current, StopsAt(gs, input, n));
    MayClose(gs, input, n, current);
    NothingTracked(gs, Progress(gs, input, n + 1));
    if !StopsAt(gs, input, n) { StopTracks(gs, input, n, current); }
    forall k | 0 <= k < |closed|
      ensures CutFor(gs, input, n + 1, closed[k], After(closed, open, k), fileSize, max)
    {
      if k < |outputs| {
        assert closed[k] == outputs[k] && After(closed, open, k) == After(outputs, current, k);
        if StopsBetween(gs, input, n, outputs[k], After(outputs, current, k)) {
          StillStops(gs, input, n, outputs[k], After(outputs, current, k));
        }
      } else {
        StopsHere(gs, input, n, current);
      }
    }
  }

  lemma NothingTracked(gs: seq<File>, o: Overlap)
    ensures Tracks(gs, [], o)
  {
  }

  lemma StillStops(gs: seq<File>, input: seq<Entry>, n: nat, out: seq<Entry>, next: seq<Entry>)
    requires n < |input| && StopsBetween(gs, input, n, out, next)
    ensures StopsBetween(gs, input, n + 1, out, next)
  {
  }

  lemma StopsHere(gs: seq<File>, input: seq<Entry>, n: nat, current: seq<Entry>)
    requires Sorted(input) && n < |input| && Within(input, n, current) && StopsAt(gs, input, n)
    ensures StopsBetween(gs, input, n + 1, current, [])
  {
    hide StopsAt;
    forall e | e in current
      ensures ILess(e.ik, input[n].ik)
    {
      var k :| 0 <= k < |current| && current[k] == e;
      assert current[k] in input[..n];
    }
  }

  lemma StopTracks(gs: seq<File>, input: seq<Entry>, n: nat, current: seq<Entry>)
    requires Sorted(input) && n < |input| && Within(input, n, current)
    requires Tracks(gs, current, Progress(gs, input, n)) && !StopsAt(gs, input, n)
    ensures Tracks(gs, current, Progress(gs, input, n + 1))
  {
    hide Passed, TotalSize, Sorted;
    if current != [] {
      WithinIndex(input, n, current, 0);
      ProgressIndex(gs, input, n);
      PassedOn(gs, current[0].ik, input[n - 1].ik);
      TotalSizeAdd(gs, Passed(gs, 0, current[0].ik), Progress(gs, input, n).index, Progress(gs, input, n + 1).index);
    }
  }

  // The entry is added, and the output closed if it is full.
  lemma AddStep(gs: seq<File>, input: seq<Entry>, n: nat, outputs: seq<seq<Entry>>, current: seq<Entry>,
                fileSize: seq<Entry> -> nat, max: nat)
    requires Sorted(input) && n < |input| && Within(input, n, current)
    requires Cutting(gs, input, n + 1, outputs, current, fileSize, max)
    ensures var more := current + [input[n]];
            var c := Close(outputs, more, fileSize(more) >= max);
            Cutting(gs, input, n + 1, c.0, c.1, fileSize, max)
  {
    hide Progress, Passed, TotalSize, Sorted, Tracks, OverlapsLittle, NoStopInside, StopsAt, StopsBetween, Flatten;
    hide NotFullBefore;
    var more := current + [input[n]];
    var (closed, open) := Close(outputs, more, fileSize(more) >= max);
    AddTracks(gs, input, n, current);
    AddUnstopped(gs, input, n, current);
    AddWithin(input, n, current);
    MayClose(gs, input, n + 1, more);
    AddNotFull(current, input[n], fileSize, max);
    NothingTracked(gs, Progress(gs, input, n + 1));
    forall k | 0 <= k < |closed|
      ensures CutFor(gs, input, n + 1, closed[k], After(closed, open, k), fileSize, max)
    {
      if k < |outputs| {
        assert closed[k] == outputs[k];
        if StopsBetween(gs, input, n + 1, outputs[k], After(outputs, current, k)) && k == |outputs| - 1 {
          StopsBeforeAdded(gs, input, n, outputs[k], current);
        }
      }
    }
  }

  lemma AddWithin(input: seq<Entry>, n: nat, current: seq<Entry>)
    requires n < |input| && Within(input, n, current)
    ensures Within(input, n + 1, current + [input[n]])
  {
    assert input[..n + 1] == input[..n] + [input[n]];
  }

  lemma AddNotFull(current: seq<Entry>, e: Entry, fileSize: seq<Entry> -> nat, max: nat)
    requires NotFullBefore(current, |current| + 1, fileSize, max)
    ensures NotFullBefore(current + [e], |current| + 1, fileSize, max)
    ensures fileSize(current + [e]) < max ==> NotFullBefore(current + [e], |current| + 2, fileSize, max)
    ensures NotFullBefore([], 1, fileSize, max)
  {
    assert forall k :: 0 < k <= |current| ==> (current + [e])[..k] == current[..k];
    assert (current + [e])[..|current| + 1] == current + [e];
  }

  lemma AddTracks(gs: seq<File>, input: seq<Entry>, n: nat, current: seq<Entry>)
    requires Sorted(input) && n < |input| && Tracks(gs, current, Progress(gs, input, n + 1))
    ensures Tracks(gs, current + [input[n]], Progress(gs, input, n + 1))
  {
    hide Progress, Passed, Sorted;
    ProgressIndex(gs, input, n + 1);
  }

  lemma StopsBeforeAdded(gs: seq<File>, input: seq<Entry>, n: nat, out: seq<Entry>, next: seq<Entry>)
    requires Sorted(input) && n < |input| && StopsBetween(gs, input, n + 1, out, next)
    ensures StopsBetween(gs, input, n + 1, out, next + [input[n]])
  {
    hide StopsAt;
    var j :| 0 <= j < n + 1 && StopsAt(gs, input, j)
             && (forall e :: e in out ==> ILess(e.ik, input[j].ik))
             && (forall e :: e in next ==> !ILess(e.ik, input[j].ik));
    assert !ILess(input[n].ik, input[j].ik);
  }

  lemma AddUnstopped(gs: seq<File>, input: seq<Entry>, n: nat, current: seq<Entry>)
    requires Sorted(input) && n < |input| && Unstopped(gs, input, n + 1, current)
    ensures Unstopped(gs, input, n + 1, current + [input[n]])
  {
    hide StopsAt;
    assert forall j :: 0 <= j <= n ==> !ILess(input[n].ik, input[j].ik);
  }

  // The last output is closed at the end of the input.
  lemma EndStep(gs: seq<File>, input: seq<Entry>, outputs: seq<seq<Entry>>, current: seq<Entry>,
                fileSize: seq<Entry> -> nat, max: nat)
    requires Sorted(input) && Within(input, |input|, current)
    requires Cutting(gs, input, |input|, outputs, current, fileSize, max)
    ensures WellCut(gs, input, Close(outputs, current, true).0, fileSize, max)
  {
    hide Progress, Passed, TotalSize, Sorted, Tracks, OverlapsLittle, NoStopInside, StopsAt, StopsBetween, Flatten;
    MayClose(gs, input, |input|, current);
    var closed := Close(outputs, current, true).0;
    forall k | 0 <= k < |closed| - 1
      ensures CutFor(gs, input, |input|, closed[k], closed[k + 1], fileSize, max)
    {
      assert closed[k] == outputs[k] && closed[k + 1] == After(outputs, current, k);
    }
  }

  // ---------------------------------------------------------------- the cuts are determined

  lemma {:induction false} FlattenCons(outputs: seq<seq<Entry>>)
    requires outputs != []
    ensures Flatten(outputs) == outputs[0] + Flatten(outputs[1..])
  {
    var n := |outputs| - 1;
    if n == 0 {
      assert outputs[..0] == [] && outputs[1..] == [];
    } else {
      FlattenCons(outputs[..n]);
      var (rest, last) := (outputs[1..], outputs[n]);
      assert outputs[..n][1..] == rest[..n - 1] && rest[n - 1] == last;
      assert Flatten(outputs) == outputs[0] + Flatten(rest[..n - 1]) + last;
      assert Flatten(rest) == Flatten(rest[..n - 1]) + last;
    }
  }

  lemma WellCutRest(gs: seq<File>, input: seq<Entry>, outputs: seq<seq<Entry>>, fileSize: seq<Entry> -> nat, max: nat)
    requires WellCut(gs, input, outputs, fileSize, max) && outputs != []
    ensures WellCut(gs, input, outputs[1..], fileSize, max)
  {
    hide GoodOutput, CutFor;
    var rest := outputs[1..];
    assert forall k :: 0 <= k < |rest| ==> rest[k] == outputs[k + 1];
    forall k | 0 <= k < |rest| - 1
      ensures CutFor(gs, input, |input|, rest[k], rest[k + 1], fileSize, max)
    {
      assert rest[k] == outputs[k + 1] && rest[k + 1] == outputs[k + 1 + 1];
    }
  }

  // An output that was cut cannot be the beginning of a longer one.
  lemma CutHere(gs: seq<File>, input: seq<Entry>, a: seq<Entry>, next: seq<Entry>, b: seq<Entry>,
                fileSize: seq<Entry> -> nat, max: nat)
    requires 0 < |a| < |b| && a == b[..|a|] && next != [] && next[0] == b[|a|]
    requires CutFor(gs, input, |input|, a, next, fileSize, max)
    ensures !GoodOutput(gs, input, b, fileSize, max)
  {
    hide OverlapsLittle, StopsAt, ILess;
    if fileSize(a) < max {
      var j :| 0 <= j < |input| && StopsAt(gs, input, j)
               && (forall e :: e in a ==> ILess(e.ik, input[j].ik))
               && (forall e :: e in next ==> !ILess(e.ik, input[j].ik));
      assert a[0] in a && b[0] == a[0] && next[0] in next && b[0] in b && b[|a|] in b;
    }
  }

  // Survivors, sizes and grandparents leave one way to cut.
  lemma {:induction false} WellCutUnique(gs: seq<File>, input: seq<Entry>, a: seq<seq<Entry>>, b: seq<seq<Entry>>,
                                         fileSize: seq<Entry> -> nat, max: nat)
    requires WellCut(gs, input, a, fileSize, max) && WellCut(gs, input, b, fileSize, max)
    requires [] !in a && [] !in b && Flatten(a) == Flatten(b)
    ensures a == b
    decreases |a|
  {
    hide WellCut, Flatten;
    if a == [] || b == [] {
      EmptyFlatten(a);
      EmptyFlatten(b);
    } else {
      FlattenCons(a);
      FlattenCons(b);
      SameHead(gs, input, a, b, fileSize, max);
      SameHead(gs, input, b, a, fileSize, max);
      assert a[0] == Flatten(a)[..|a[0]|] && b[0] == Flatten(b)[..|b[0]|];
      assert Flatten(a[1..]) == Flatten(a)[|a[0]|..] && Flatten(b[1..]) == Flatten(b)[|b[0]|..];
      WellCutRest(gs, input, a, fileSize, max);
      WellCutRest(gs, input, b, fileSize, max);
      WellCutUnique(gs, input, a[1..], b[1..], fileSize, max);
      assert a == [a[0]] + a[1..] && b == [b[0]] + b[1..];
    }
  }

  lemma EmptyFlatten(outputs: seq<seq<Entry>>)
    requires [] !in outputs
    ensures Flatten(outputs) == [] <==> outputs == []
  {
    if outputs != [] {
      assert outputs[|outputs| - 1] in outputs;
    }
  }

  lemma SameHead(gs: seq<File>, input: seq<Entry>, a: seq<seq<Entry>>, b: seq<seq<Entry>>,
                 fileSize: seq<Entry> -> nat, max: nat)
    requires WellCut(gs, input, a, fileSize, max) && WellCut(gs, input, b, fileSize, max)
    requires a != [] && b != [] && [] !in a && [] !in b
    requires a[0] + Flatten(a[1..]) == b[0] + Flatten(b[1..])
    ensures |a[0]| >= |b[0]|
  {
    hide GoodOutput, CutFor;
    if |a[0]| < |b[0]| {
      var all := b[0] + Flatten(b[1..]);
      assert a[0] == all[..|a[0]|] == b[0][..|a[0]|];
      assert Flatten(a[1..]) == all[|a[0]|..] && all[|a[0]|] == b[0][|a[0]|];
      assert a[1..] != [] && a[0] in a && a[1] in a;
      FlattenCons(a[1..]);
      assert a[1..][0] == a[1];
      CutHere(gs, input, a[0], a[1], b[0], fileSize, max);
      assert false;
    }
  }
}
