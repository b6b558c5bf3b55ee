/**
  Block::Iter (table/block.cc) as a class.  On a finished block, Seek, Next, Prev
  and the two ends move exactly as they would on the list of entries.
 */
module BlockCursor {
  import opened Basics
  import Arithmetic
  import opened Blocks
  import opened BlockIter

  // Linear search: the first entry that is not before the target.
  function LowerBound(es: seq<Pair>, less: Order, target: Bytes): (i: nat)
    ensures i <= |es| && (i < |es| ==> !less(es[i].key, target))
    ensures forall j :: 0 <= j < i ==> less(es[j].key, target)
  {
    if es == [] || !less(es[0].key, target) then 0
    else
      var i := LowerBound(es[1..], less, target);
      assert forall j :: 0 < j <= i ==> es[j] == es[1..][j - 1];
      i + 1
  }

  // All entries before a restart point whose key is before the target.
  lemma BeforeRestart(es: seq<Pair>, less: Order, target: Bytes, k: nat)
    requires StrictOrder(less) && Sorted(es, less) && k < |es| && less(es[k].key, target)
    ensures forall j :: 0 <= j <= k ==> less(es[j].key, target)
  {
  }

  // The key at a restart point, as the binary search reads it.
  lemma RestartKey(v: View, es: seq<Pair>, interval: nat, r: nat, k: nat)
    requires ViewOk(v) && Built(v, es, interval) && 0 < r < v.count && k == r * interval
    ensures k < |es| && KeyAt(v, RestartPoint(v, r), es[k].key)
  {
    hide DecodeEntry, RestartPoint, Data, Block;
    RestartEntry(|es|, interval, r);
    BuiltRestart(v, es, interval, r);
    RestartShares(es, interval, r);
    DecodeBuilt(v, es, interval, k);
    assert es[k].key[0..] == es[k].key;
  }

  // The entry at offset p shares nothing and has this key.
  ghost predicate KeyAt(v: View, p: nat, key: Bytes) {
    v.restarts <= |v.data| &&
    var h := DecodeEntry(v.data, p, v.restarts);
    h.Some? && h.value.shared == 0 && v.data[h.value.at..h.value.at + h.value.nonShared] == key
  }

  lemma RestartShares(es: seq<Pair>, interval: nat, r: nat)
    requires interval >= 1 && r * interval < |es|
    ensures Shared(es, interval, r * interval) == 0
  {
    Arithmetic.MultipleMod(r, interval);
  }

  class Iter {
    const less: Order
    const view: View
    ghost const es: seq<Pair>
    ghost const interval: nat
    var current: nat
    var restartIndex: nat
    var key: Bytes
    var valueStart: nat
    var valueLength: nat
    var corrupt: bool

    function State(): Cursor
      reads this
    {
      Cursor(current, restartIndex, key, valueStart, valueLength, corrupt)
    }

    // The block was finished by the builder over these entries.
    ghost predicate Sound() {
      Built(view, es, interval) && StrictOrder(less) && Sorted(es, less)
    }

    ghost predicate Shaped()
      reads this
    {
      ViewOk(view) && (current < view.restarts ==>
        restartIndex < view.count && valueStart + valueLength <= view.restarts)
    }

    predicate Valid()
      reads this
    {
      current < view.restarts
    }

    function Value(): Bytes
      requires Shaped() && Valid()
      reads this
    {
      view.data[valueStart..valueStart + valueLength]
    }

    // The iterator is on entry i; past the end it is not valid.
    ghost predicate At(i: nat)
      reads this
    {
      if i < |es| then Valid() && AtEntry(view, State(), es, interval, i) else !Valid()
    }

    constructor (less: Order, view: View, ghost es: seq<Pair>, ghost interval: nat)
      requires ViewOk(view)
      ensures Shaped() && !Valid()
      ensures this.less == less && this.view == view && this.es == es && this.interval == interval
    {
      this.less, this.view, this.es, this.interval := less, view, es, interval;
      current, restartIndex, key, valueStart, valueLength, corrupt := view.restarts, view.count, [], 0, 0, false;
    }

    method CorruptionError()
      modifies this
      ensures State() == Corrupted(view)
    {
      current, restartIndex, key, valueStart, valueLength, corrupt := view.restarts, view.count, [], 0, 0, true;
    }

    method SeekToRestartPoint(i: nat)
      requires ViewOk(view) && i < view.count
      modifies this
      ensures State() == AtRestart(view, old(State()), i)
    {
      key := [];
      restartIndex := i;
      valueStart, valueLength := RestartPoint(view, i), 0;
    }

    method ParseNextKey() returns (ok: bool)
      requires ViewOk(view) && restartIndex < view.count
      modifies this
      ensures Shaped() && (ok, State()) == ParseNext(view, old(State()))
    {
      hide DecodeEntry, RestartPoint;
      var p := valueStart + valueLength;
      current := p;
      if p >= view.restarts {
        current := view.restarts;
        restartIndex := view.count;
        return false;
      }
      var h := DecodeEntry(view.data, p, view.restarts);
      if h == None || |key| < h.value.shared {
        CorruptionError();
        return false;
      }
      key := key[..h.value.shared] + view.data[h.value.at..h.value.at + h.value.nonShared];
      valueStart, valueLength := h.value.at + h.value.nonShared, h.value.valueLength;
      while restartIndex + 1 < view.count && RestartPoint(view, restartIndex + 1) < current
        invariant restartIndex < view.count
        invariant CatchUp(view, restartIndex, current) == CatchUp(view, old(restartIndex), current)
        decreases view.count - restartIndex
        modifies this`restartIndex
      {
        restartIndex := restartIndex + 1;
      }
      return true;
    }

    // One parse on a finished block.
    method ParseEntry(ghost i: nat) returns (ok: bool)
      requires ViewOk(view) && restartIndex < view.count
      modifies this
      ensures Shaped() && (ok ==> Valid() && NextEntryOffset(State()) > old(NextEntryOffset(State())))
      ensures ok ==> NextEntryOffset(State()) <= view.restarts
      ensures !ok ==> !Valid()
      ensures Sound() && old(BeforeEntry(State(), es, interval, i)) ==> ok == (i < |es|) && At(i)
    {
      ghost var c := State();
      if Sound() && BeforeEntry(c, es, interval, i) {
        ParseBuilt(view, c, es, interval, i);
      }
      hide ParseNext, AtEntry, BeforeEntry;
      ok := ParseNextKey();
    }

    method SeekToFirst()
      requires Shaped()
      modifies this
      ensures Shaped() && (Sound() ==> At(0))
    {
      if Sound() { RestartIsBefore(view, State(), es, interval, 0); }
      hide AtEntry, BeforeEntry, AtRestart;
      SeekToRestartPoint(0);
      RestartIndexOf(view, old(State()), 0);
      var ok := ParseEntry(0);
    }

    method SeekToLast()
      requires Shaped()
      modifies this
      ensures Shaped() && (Sound() ==> At(if es == [] then 0 else |es| - 1))
    {
      hide AtEntry, Bounded, AtRestart, Built;
      ghost var k: nat := (view.count - 1) * interval;
      if Sound() { LastIsBefore(view, State(), es, interval, k); }
      SeekToRestartPoint(view.count - 1);
      RestartIndexOf(view, old(State()), view.count - 1);
      ghost var last := ScanTo(view.restarts, k, |es|);
    }

    // Parse until the current entry ends at original, the start of entry n.
    method ScanTo(original: nat, ghost from: nat, ghost n: nat) returns (ghost last: nat)
      requires ViewOk(view) && restartIndex < view.count
      modifies this
      ensures Shaped()
      ensures Sound() && old(Bounded(State(), es, interval, from, n, original)) ==>
        At(last) && last == if from < n then n - 1 else from
    {
      hide AtEntry, Offset, Built, BeforeEntry;
      ghost var good := Sound() && Bounded(State(), es, interval, from, n, original);
      last := from;
      var ok := ParseEntry(from);
      while ok && NextEntryOffset(State()) < original
        invariant Shaped() && (ok ==> Valid() && NextEntryOffset(State()) <= view.restarts)
        invariant good ==> (ok == (last < |es|)) && At(last) && from <= last
        invariant good ==> (from < n ==> last < n) && (from == n ==> last == from)
        decreases ok, view.restarts - NextEntryOffset(State())
      {
        if good { ScanStep(view, State(), es, interval, last, n); }
        ok := ParseEntry(last + 1);
        last := last + 1;
      }
      if good && ok { ScanStep(view, State(), es, interval, last, n); }
    }

    method Next(ghost i: nat)
      requires Shaped() && Valid()
      modifies this
      ensures Shaped() && (Sound() && i < |es| && old(At(i)) ==> At(i + 1))
    {
      if Sound() && i < |es| && At(i) { AtIsBefore(view, State(), es, interval, i); }
      hide AtEntry, BeforeEntry;
      var ok := ParseEntry(i + 1);
    }

    // Back to a restart point before the current entry, then forward again.
    method Prev(ghost i: nat)
      requires Shaped() && Valid()
      modifies this
      ensures Shaped()
      ensures Sound() && i < |es| && old(At(i)) ==> if i == 0 then !Valid() else At(i - 1)
    {
      hide AtEntry, Bounded, AtRestart, Built, RestartPoint;
      ghost var c := State();
      ghost var good := Sound() && i < |es| && At(i);
      var original := current;
      while RestartPoint(view, restartIndex) >= original
        invariant restartIndex < view.count && restartIndex <= c.restartIndex
        invariant State() == c.(restartIndex := restartIndex)
        decreases restartIndex
      {
        if good { PrevRestart(view, es, interval, c, restartIndex, i); }
        if restartIndex == 0 {
          current := view.restarts;
          restartIndex := view.count;
          return;
        }
        restartIndex := restartIndex - 1;
      }
      ghost var k: nat := restartIndex * interval;
      if good {
        PrevRestart(view, es, interval, c, restartIndex, i);
        PrevBounded(view, es, interval, c, restartIndex, i, k);
      }
      RestartIndexOf(view, c, restartIndex);
      SeekToRestartPoint(restartIndex);
      ghost var last := ScanTo(original, k, i);
    }

    // Binary search for the last restart point with a key before the target.
    method FindRestart(target: Bytes) returns (found: Option<nat>)
      requires ViewOk(view)
      ensures found.Some? ==> found.value < view.count
      ensures Sound() ==> found.Some? && Brackets(es, less, target, view.count, interval, found.value, found.value)
    {
      hide DecodeEntry, RestartPoint, Built, Brackets;
      var left: nat, right: nat := 0, view.count - 1;
      if Sound() { BracketsAll(es, less, target, view, interval); }
      while left < right
        invariant left <= right < view.count
        invariant Sound() ==> Brackets(es, less, target, view.count, interval, left, right)
      {
        var mid: nat := (left + right + 1) / 2;
        var h := DecodeEntry(view.data, RestartPoint(view, mid), view.restarts);
        ghost var k: nat := mid * interval;
        if Sound() { RestartKey(view, es, interval, mid, k); }
        if h == None || h.value.shared != 0 {
          return None;
        }
        var midKey := view.data[h.value.at..h.value.at + h.value.nonShared];
        if Sound() { BracketsHalf(es, less, target, view.count, interval, left, right, mid); }
        if less(midKey, target) {
          left := mid;
        } else {
          right := mid - 1;
        }
      }
      return Some(left);
    }

    method Seek(target: Bytes)
      requires Shaped()
      modifies this
      ensures Shaped() && (Sound() ==> At(LowerBound(es, less, target)))
    {
      hide AtEntry, BeforeEntry, AtRestart, Built, Brackets;
      var found := FindRestart(target);
      if found == None {
        CorruptionError();
        return;
      }
      var left := found.value;
      ghost var i: nat := left * interval;
      if Sound() {
        RestartIsBefore(view, State(), es, interval, left);
        BracketsScan(es, less, target, view.count, interval, left, i);
      }
      RestartIndexOf(view, State(), left);
      SeekToRestartPoint(left);
      while true
        invariant ViewOk(view) && restartIndex < view.count
        invariant Sound() ==> BeforeEntry(State(), es, interval, i) && i <= LowerBound(es, less, target)
        decreases if NextEntryOffset(State()) <= view.restarts then view.restarts - NextEntryOffset(State()) + 1 else 0
      {
        var ok := ParseEntry(i);
        if !ok {
          return;
        }
        if !less(key, target) {
          if Sound() { AtKey(view, State(), es, interval, i); }
          return;
        }
        if Sound() {
          AtKey(view, State(), es, interval, i);
          AtIsBefore(view, State(), es, interval, i);
        }
        i := i + 1;
      }
    }
  }

  lemma AtKey(v: View, c: Cursor, es: seq<Pair>, interval: nat, i: nat)
    requires AtEntry(v, c, es, interval, i)
    ensures i < |es| && c.key == es[i].key
  {
  }

  // The search: keys at restart points up to left are before the target, those
  // after right are not.
  ghost predicate Brackets(es: seq<Pair>, less: Order, target: Bytes, count: nat, interval: nat, left: nat,
                           right: nat) {
    && left <= right < count
    && (left > 0 ==> left * interval < |es| && less(es[left * interval].key, target))
    && (right + 1 < count ==> (right + 1) * interval < |es| && !less(es[(right + 1) * interval].key, target))
  }

  lemma BracketsAll(es: seq<Pair>, less: Order, target: Bytes, v: View, interval: nat)
    requires v.count > 0
    ensures Brackets(es, less, target, v.count, interval, 0, v.count - 1)
  {
  }

  lemma BracketsHalf(es: seq<Pair>, less: Order, target: Bytes, count: nat, interval: nat, left: nat, right: nat,
                     mid: nat)
    requires Brackets(es, less, target, count, interval, left, right) && left < mid <= right && mid * interval < |es|
    ensures less(es[mid * interval].key, target) ==> Brackets(es, less, target, count, interval, mid, right)
    ensures !less(es[mid * interval].key, target) ==> Brackets(es, less, target, count, interval, left, mid - 1)
  {
  }

  // The scan starts at or before the answer, and the answer is no further than
  // the next restart point.
  lemma BracketsScan(es: seq<Pair>, less: Order, target: Bytes, count: nat, interval: nat, left: nat, k: nat)
    requires StrictOrder(less) && Sorted(es, less) && Brackets(es, less, target, count, interval, left, left)
    requires k == left * interval
    ensures k <= LowerBound(es, less, target)
    ensures left + 1 < count ==> LowerBound(es, less, target) <= (left + 1) * interval
  {
    if left > 0 {
      BeforeRestart(es, less, target, k);
    }
  }

  // Going back over restart points from entry i's own.
  lemma PrevRestart(v: View, es: seq<Pair>, interval: nat, c: Cursor, r: nat, i: nat)
    requires ViewOk(v) && Built(v, es, interval) && AtEntry(v, c, es, interval, i) && r <= c.restartIndex
    ensures r < v.count && r * interval <= |es|
    ensures RestartPoint(v, r) >= c.current <==> r * interval >= i
  {
    hide Data, Block, RestartPoint;
    BuiltRestart(v, es, interval, r);
    if r * interval >= i {
      OffsetsAscend(es, interval, i, r * interval);
    } else {
      OffsetsAscend(es, interval, r * interval, i);
    }
  }

  lemma PrevBounded(v: View, es: seq<Pair>, interval: nat, c: Cursor, r: nat, i: nat, k: nat)
    requires ViewOk(v) && Built(v, es, interval) && AtEntry(v, c, es, interval, i) && r < v.count &&
             k == r * interval < i
    ensures Bounded(AtRestart(v, c.(restartIndex := r), r), es, interval, k, i, c.current)
  {
    hide Data, Block, AtRestart, BeforeEntry;
    RestartIsBefore(v, c.(restartIndex := r), es, interval, r);
  }

  // Entry from is next, and original is where entry n starts.
  ghost predicate Bounded(c: Cursor, es: seq<Pair>, interval: nat, from: nat, n: nat, original: nat) {
    BeforeEntry(c, es, interval, from) && interval >= 1 && from <= n <= |es| && original == Offset(es, interval, n)
  }

  lemma LastIsBefore(v: View, c: Cursor, es: seq<Pair>, interval: nat, k: nat)
    requires ViewOk(v) && Built(v, es, interval) && k == (v.count - 1) * interval
    ensures Bounded(AtRestart(v, c, v.count - 1), es, interval, k, |es|, v.restarts) &&
            (k < |es| || (es == [] && k == 0))
  {
    hide BeforeEntry, Data, Block, AtRestart;
    RestartIsBefore(v, c, es, interval, v.count - 1);
    RestartEntry(|es|, interval, v.count - 1);
    assert es[..|es|] == es;
  }

  lemma RestartIndexOf(v: View, c: Cursor, i: nat)
    requires ViewOk(v) && i < v.count
    ensures AtRestart(v, c, i).restartIndex == i && AtRestart(v, c.(restartIndex := i), i).restartIndex == i
  {
  }

  // On entry i, whether the next one starts before entry n.
  lemma ScanStep(v: View, c: Cursor, es: seq<Pair>, interval: nat, i: nat, n: nat)
    requires AtEntry(v, c, es, interval, i) && n <= |es|
    ensures NextEntryOffset(c) < Offset(es, interval, n) <==> i + 1 < n
    ensures BeforeEntry(c, es, interval, i + 1)
  {
    hide Data;
    AtIsBefore(v, c, es, interval, i);
    if i + 1 < n {
      OffsetsAscend(es, interval, i + 1, n);
    } else {
      OffsetsAscend(es, interval, n, i + 1);
    }
  }
}
