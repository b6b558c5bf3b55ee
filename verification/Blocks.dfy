/**
  The block format (table/block_builder.cc): entries whose keys drop the prefix
  they share with the key before, restart points where nothing is dropped, and
  the array of restart offsets at the end.
 */
module Blocks {
  import opened Basics
  import opened Coding

  datatype Pair = Pair(key: Bytes, value: Bytes)

  // ---------------------------------------------------------------- entries

  function CommonPrefix(a: Bytes, b: Bytes): (n: nat)
    ensures n <= |a| && n <= |b| && a[..n] == b[..n]
    ensures n < |a| && n < |b| ==> a[n] != b[n]
  {
    if a != [] && b != [] && a[0] == b[0] then
      var n := CommonPrefix(a[1..], b[1..]);
      assert a[..n + 1] == [a[0]] + a[1..][..n] && b[..n + 1] == [b[0]] + b[1..][..n];
      n + 1
    else 0
  }

  // The common prefix is the one that ends at the first difference.
  lemma {:induction false} CommonPrefixIs(a: Bytes, b: Bytes, n: nat)
    requires n <= |a| && n <= |b| && a[..n] == b[..n]
    requires n == |a| || n == |b| || a[n] != b[n]
    ensures CommonPrefix(a, b) == n
  {
    var m := CommonPrefix(a, b);
    assert forall k :: 0 <= k < n ==> a[..n][k] == b[..n][k];
    assert forall k :: 0 <= k < m ==> a[..m][k] == b[..m][k];
  }

  // How much of its key entry i leaves out: nothing at a restart point.
  function Shared(es: seq<Pair>, interval: nat, i: nat): (n: nat)
    requires i < |es| && interval >= 1
    ensures n <= |es[i].key|
    ensures i % interval != 0 ==>
              && i > 0 && n <= |es[i - 1].key| && es[i].key[..n] == es[i - 1].key[..n]
              && (n < |es[i].key| && n < |es[i - 1].key| ==> es[i].key[n] != es[i - 1].key[n])
  {
    if i % interval == 0 then 0 else CommonPrefix(es[i - 1].key, es[i].key)
  }

  function EntryBytes(shared: nat, e: Pair): (r: Bytes)
    requires shared <= |e.key|
    ensures |r| >= 3
  {
    Varint(shared) + Varint(|e.key| - shared) + Varint(|e.value|) + e.key[shared..] + e.value
  }

  function Data(es: seq<Pair>, interval: nat): Bytes
    requires interval >= 1
  {
    if es == [] then []
    else
      var n := |es| - 1;
      Data(es[..n], interval) + EntryBytes(Shared(es, interval, n), es[n])
  }

  function Offset(es: seq<Pair>, interval: nat, i: nat): nat
    requires interval >= 1 && i <= |es|
  {
    |Data(es[..i], interval)|
  }

  lemma SharedPrefix(es: seq<Pair>, interval: nat, i: nat, n: nat)
    requires interval >= 1 && i < n <= |es|
    ensures Shared(es[..n], interval, i) == Shared(es, interval, i)
  {
  }

  // Entry i lies between its offset and the next one.
  lemma {:induction false} EntryInData(es: seq<Pair>, interval: nat, i: nat)
    requires interval >= 1 && i < |es|
    ensures Offset(es, interval, i) + |EntryBytes(Shared(es, interval, i), es[i])| == Offset(es, interval, i + 1)
    ensures Offset(es, interval, i + 1) <= |Data(es, interval)|
    ensures Data(es, interval)[Offset(es, interval, i)..Offset(es, interval, i + 1)] ==
            EntryBytes(Shared(es, interval, i), es[i])
  {
    hide EntryBytes, Shared;
    var n := |es| - 1;
    assert es[..i + 1][..i] == es[..i];
    SharedPrefix(es, interval, i, i + 1);
    if i < n {
      var shorter := es[..n];
      EntryInData(shorter, interval, i);
      SharedPrefix(es, interval, i, n);
      assert shorter[..i] == es[..i] && shorter[..i + 1] == es[..i + 1];
    } else {
      assert es[..i + 1] == es;
    }
  }

  lemma {:induction false} OffsetsAscend(es: seq<Pair>, interval: nat, i: nat, j: nat)
    requires interval >= 1 && i <= j <= |es|
    ensures Offset(es, interval, i) <= Offset(es, interval, j) <= |Data(es, interval)|
    ensures i < j ==> Offset(es, interval, i) < Offset(es, interval, j)
  {
    hide EntryBytes, Shared, Data;
    if i < j {
      EntryInData(es, interval, j - 1);
      OffsetsAscend(es, interval, i, j - 1);
    } else if j < |es| {
      EntryInData(es, interval, j);
    } else {
      assert es[..j] == es;
    }
  }

  // ---------------------------------------------------------------- restart points

  // There is always a first one.
  function RestartCount(n: nat, interval: nat): (r: nat)
    requires interval >= 1
    ensures r >= 1
  {
    if n == 0 then 1 else (n - 1) / interval + 1
  }

  // Restart r is at entry r * interval.
  lemma RestartEntry(n: nat, interval: nat, r: nat)
    requires interval >= 1 && r < RestartCount(n, interval)
    ensures r * interval <= n && (n > 0 ==> r * interval < n)
  {
    if n > 0 {
      assert r <= (n - 1) / interval;
      assert r * interval <= (n - 1) / interval * interval <= n - 1;
    }
  }

  function Restarts(es: seq<Pair>, interval: nat): (r: seq<nat>)
    requires interval >= 1
    ensures |r| == RestartCount(|es|, interval)
  {
    seq(RestartCount(|es|, interval), r requires 0 <= r < RestartCount(|es|, interval) =>
      RestartEntry(|es|, interval, r);
      Offset(es, interval, r * interval))
  }

  // A finished block; the data must be small enough for 32-bit offsets.
  ghost predicate Small(es: seq<Pair>, interval: nat)
    requires interval >= 1
  {
    && |Data(es, interval)| < TWO_32 && RestartCount(|es|, interval) < TWO_32
    && forall i :: 0 <= i < |es| ==> |es[i].key| < TWO_32 && |es[i].value| < TWO_32
  }

  lemma RestartsSmall(es: seq<Pair>, interval: nat)
    requires interval >= 1 && |Data(es, interval)| < TWO_32
    ensures forall i :: 0 <= i < |Restarts(es, interval)| ==> Restarts(es, interval)[i] < TWO_32
  {
    hide Data;
    forall i | 0 <= i < |Restarts(es, interval)| ensures Restarts(es, interval)[i] < TWO_32 {
      RestartEntry(|es|, interval, i);
      OffsetsAscend(es, interval, i * interval, |es|);
    }
  }

  ghost function Block(es: seq<Pair>, interval: nat): Bytes
    requires interval >= 1 && Small(es, interval)
  {
    RestartsSmall(es, interval);
    Data(es, interval) + Words(Restarts(es, interval)) + Fixed32(RestartCount(|es|, interval))
  }
}
