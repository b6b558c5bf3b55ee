/** Building a block in place (table/block_builder.cc). */
module BlockBuilder {
  import opened Basics
  import opened Coding
  import opened Arithmetic
  import opened Blocks

  // How many entries follow the last restart point, that one included.
  function Counter(n: nat, interval: nat): nat
    requires interval >= 1
  {
    if n == 0 then 0 else (n - 1) % interval + 1
  }

  lemma CounterMore(n: nat, interval: nat)
    requires interval >= 1
    ensures Counter(n, interval) == interval <==> n > 0 && n % interval == 0
    ensures Counter(n + 1, interval) == (if Counter(n, interval) == interval then 1 else Counter(n, interval) + 1)
    ensures RestartCount(n + 1, interval) ==
            RestartCount(n, interval) + (if Counter(n, interval) == interval then 1 else 0)
    ensures Counter(n, interval) == interval ==> RestartCount(n, interval) * interval == n
  {
    if n > 0 {
      var (q, r) := ((n - 1) / interval, (n - 1) % interval);
      assert n - 1 == q * interval + r;
      if r == interval - 1 {
        assert n == (q + 1) * interval + 0;
        DivMod(n, interval, q + 1, 0);
      } else {
        assert n == q * interval + (r + 1);
        DivMod(n, interval, q, r + 1);
      }
    }
  }

  lemma CounterRange(n: nat, interval: nat)
    requires interval >= 1
    ensures Counter(n, interval) <= interval && (n == 0 ==> Counter(n, interval) == 0)
  {
  }

  // A new entry keeps the offsets of the old ones.
  lemma OffsetKept(es: seq<Pair>, e: Pair, interval: nat, i: nat)
    requires interval >= 1 && i <= |es|
    ensures Offset(es + [e], interval, i) == Offset(es, interval, i)
  {
    assert (es + [e])[..i] == es[..i];
  }

  lemma RestartsMore(es: seq<Pair>, e: Pair, interval: nat)
    requires interval >= 1
    ensures Restarts(es + [e], interval) ==
      Restarts(es, interval) + if Counter(|es|, interval) == interval then [|Data(es, interval)|] else []
  {
    hide Data, Offset, RestartCount, Counter;
    CounterMore(|es|, interval);
    var (a, b) := (Restarts(es, interval), Restarts(es + [e], interval));
    forall r | 0 <= r < |a| ensures b[r] == a[r] {
      RestartKept(es, e, interval, r);
    }
    if Counter(|es|, interval) == interval {
      NewRestart(es, e, interval);
    }
  }

  lemma RestartKept(es: seq<Pair>, e: Pair, interval: nat, r: nat)
    requires interval >= 1 && r < RestartCount(|es|, interval) <= RestartCount(|es| + 1, interval)
    ensures Restarts(es + [e], interval)[r] == Restarts(es, interval)[r]
  {
    hide Data, Offset;
    RestartEntry(|es|, interval, r);
    OffsetKept(es, e, interval, r * interval);
  }

  lemma NewRestart(es: seq<Pair>, e: Pair, interval: nat)
    requires interval >= 1 && RestartCount(|es| + 1, interval) == RestartCount(|es|, interval) + 1
    requires RestartCount(|es|, interval) * interval == |es|
    ensures Restarts(es + [e], interval)[RestartCount(|es|, interval)] == |Data(es, interval)|
  {
    hide Data, RestartCount;
    OffsetKept(es, e, interval, |es|);
    assert es[..|es|] == es;
  }

  lemma DataMore(es: seq<Pair>, e: Pair, interval: nat)
    requires interval >= 1
    ensures Data(es + [e], interval) == Data(es, interval) + EntryBytes(Shared(es + [e], interval, |es|), e)
  {
    hide EntryBytes;
    assert (es + [e])[..|es|] == es;
  }

  function Estimate(es: seq<Pair>, interval: nat): nat
    requires interval >= 1
  {
    |Data(es, interval)| + 4 * RestartCount(|es|, interval) + 4
  }

  // The estimate is exact.
  lemma EstimateIsSize(es: seq<Pair>, interval: nat)
    requires interval >= 1 && Small(es, interval)
    ensures |Block(es, interval)| == Estimate(es, interval)
  {
    hide Data, RestartCount;
    RestartsSmall(es, interval);
  }

  // The builder's fields, for the entries added so far.
  ghost predicate Tracks(es: seq<Pair>, interval: nat, buffer: Bytes, restarts: seq<nat>, counter: nat, lastKey: Bytes)
    requires interval >= 1
  {
    && buffer == Data(es, interval) && restarts == Restarts(es, interval) && counter == Counter(|es|, interval)
    && lastKey == (if es == [] then [] else es[|es| - 1].key)
  }

  lemma Tracked(es: seq<Pair>, e: Pair, interval: nat, buffer: Bytes, restarts: seq<nat>, counter: nat, lastKey: Bytes)
    requires interval >= 1 && Tracks(es, interval, buffer, restarts, counter, lastKey)
    ensures counter < interval ==>
      var n := CommonPrefix(lastKey, e.key);
      Tracks(es + [e], interval, buffer + EntryBytes(n, e), restarts, counter + 1, lastKey[..n] + e.key[n..])
    ensures counter >= interval ==>
      Tracks(es + [e], interval, buffer + EntryBytes(0, e), restarts + [|buffer|], 1, lastKey[..0] + e.key[0..])
  {
    hide Data, Restarts, EntryBytes, Shared, Counter, CommonPrefix;
    RestartsMore(es, e, interval);
    DataMore(es, e, interval);
    CounterMore(|es|, interval);
    CounterRange(|es|, interval);
    SharedIs(es, e, interval);
    assert CommonPrefix([], e.key) == 0;
    var n := if counter < interval then CommonPrefix(lastKey, e.key) else 0;
    assert lastKey[..n] == e.key[..n];
    assert lastKey[..n] + e.key[n..] == e.key;
  }

  class Builder {
    const interval: nat
    var buffer: Bytes
    var restarts: seq<nat>
    var counter: nat
    var lastKey: Bytes
    var finished: bool
    ghost var es: seq<Pair>

    ghost predicate Valid()
      reads this
    {
      interval >= 1 && !finished && Tracks(es, interval, buffer, restarts, counter, lastKey)
    }

    constructor (interval: nat)
      requires interval >= 1
      ensures Valid() && this.interval == interval && es == []
    {
      this.interval := interval;
      buffer, restarts, counter, lastKey, finished, es := [], [0], 0, [], false, [];
    }

    method Reset()
      requires interval >= 1
      modifies this
      ensures Valid() && es == []
    {
      buffer, restarts, counter, lastKey, finished, es := [], [0], 0, [], false, [];
    }

    method CurrentSizeEstimate() returns (n: nat)
      requires Valid()
      ensures n == Estimate(es, interval)
    {
      n := |buffer| + 4 * |restarts| + 4;
    }

    method Add(key: Bytes, value: Bytes)
      requires Valid()
      modifies this
      ensures Valid() && es == old(es) + [Pair(key, value)]
    {
      hide Tracks, EntryBytes;
      var e := Pair(key, value);
      Tracked(es, e, interval, buffer, restarts, counter, lastKey);
      var shared := 0;
      if counter < interval {
        shared := SharedLength(lastKey, key);
      } else {
        restarts := restarts + [|buffer|];
        counter := 0;
      }
      buffer := buffer + EntryBytes(shared, e);
      lastKey := lastKey[..shared] + key[shared..];
      counter := counter + 1;
      es := es + [e];
    }

    // Restart offsets and their number are cut to 32 bits.
    method Finish() returns (block: Bytes)
      requires Valid()
      modifies this`buffer, this`finished
      ensures Small(es, interval) ==> block == Block(es, interval)
      ensures finished && buffer == block
    {
      hide Data, Restarts, Fixed32, Words, Small;
      if Small(es, interval) { FinishIs(es, interval); }
      buffer := PutWords(buffer, restarts);
      buffer := buffer + Fixed32(|restarts| % TWO_32);
      finished := true;
      block := buffer;
    }
  }

  lemma FinishIs(es: seq<Pair>, interval: nat)
    requires interval >= 1 && Small(es, interval)
    ensures var rs := Restarts(es, interval);
      Data(es, interval) + Words(Truncated(rs)) + Fixed32(|rs| % TWO_32) == Block(es, interval)
  {
    hide Data, Restarts, Fixed32, Words;
    RestartsSmall(es, interval);
    TruncatedSmall(Restarts(es, interval));
  }

  lemma SharedIs(es: seq<Pair>, e: Pair, interval: nat)
    requires interval >= 1
    ensures Shared(es + [e], interval, |es|) ==
      if Counter(|es|, interval) < interval && es != [] then CommonPrefix(es[|es| - 1].key, e.key) else 0
  {
    CounterMore(|es|, interval);
    if es != [] {
      assert (es + [e])[|es| - 1] == es[|es| - 1];
    }
  }

  method SharedLength(last: Bytes, key: Bytes) returns (shared: nat)
    ensures shared == CommonPrefix(last, key)
  {
    var min := if |last| < |key| then |last| else |key|;
    shared := 0;
    while shared < min && last[shared] == key[shared]
      invariant 0 <= shared <= min
      invariant last[..shared] == key[..shared]
    {
      assert last[..shared + 1] == last[..shared] + [last[shared]];
      shared := shared + 1;
    }
    CommonPrefixIs(last, key, shared);
  }
}
