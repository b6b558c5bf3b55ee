/**
  The iterator users see (db/db_iter.cc): over the internal entries of a database
  it walks the keys and values that are visible at one sequence number, forward
  and back.
 */
module DbIter {
  import opened Basics
  import opened Entries
  import C = Cursors

  // ---------------------------------------------------------------- what is shown

  predicate InSight(es: seq<Entry>, s: Sequence, i: int) {
    0 <= i < |es| && es[i].ik.sequence <= s
  }

  // A newer entry of the same key is in sight before i.
  ghost predicate Overridden(es: seq<Entry>, s: Sequence, i: int)
    requires 0 <= i < |es|
  {
    exists j :: j < i && InSight(es, s, j) && es[j].ik.key == es[i].ik.key
  }

  // Entry i is what its key reads as.
  ghost predicate Shown(es: seq<Entry>, s: Sequence, i: int) {
    InSight(es, s, i) && es[i].ik.kind.Put? && !Overridden(es, s, i)
  }

  // The visible map is made of the shown entries.
  lemma ShownIsRead(es: seq<Entry>, s: Sequence, i: int)
    requires Sorted(es) && Distinct(SetOf(es)) && Shown(es, s, i)
    ensures Read(SetOf(es), es[i].ik.key, s) == Some(es[i].value)
  {
    assert Newest(SetOf(es), es[i].ik.key, s, es[i]) by {
      forall x | x in SetOf(es) && Visible(x, es[i].ik.key, s) ensures x.ik.sequence <= es[i].ik.sequence {
        var j :| 0 <= j < |es| && es[j] == x;
        assert InSight(es, s, j);
      }
    }
    ReadIsNewest(SetOf(es), es[i].ik.key, s, es[i]);
  }

  lemma ReadIsShown(es: seq<Entry>, s: Sequence, k: Key) returns (i: int)
    requires Sorted(es) && Distinct(SetOf(es)) && Read(SetOf(es), k, s).Some?
    ensures Shown(es, s, i) && es[i].ik.key == k
  {
    var e :| Newest(SetOf(es), k, s, e) && e.ik.kind.Put?;
    i :| 0 <= i < |es| && es[i] == e;
    forall j | 0 <= j < i && InSight(es, s, j) ensures es[j].ik.key != k {
      assert es[j] in SetOf(es) && ILess(es[j].ik, es[i].ik) && es[j] != es[i];
    }
  }

  // One shown entry per key, in the order of the keys.
  lemma KeysAscend(es: seq<Entry>, i: int, j: int)
    requires Sorted(es) && 0 <= i <= j < |es|
    ensures es[i].ik.key <= es[j].ik.key
  {
  }

  lemma ShownOnce(es: seq<Entry>, s: Sequence, i: int, j: int)
    requires Sorted(es) && Shown(es, s, i) && Shown(es, s, j) && i < j
    ensures es[i].ik.key < es[j].ik.key
  {
    KeysAscend(es, i, j);
  }

  // ---------------------------------------------------------------- forward

  // q is the first shown entry from p on that is not of key base.
  ghost predicate IsNextShown(es: seq<Entry>, s: Sequence, p: int, base: Option<Key>, q: int) {
    && p <= q <= |es|
    && (forall i :: p <= i < q && Shown(es, s, i) ==> base == Some(es[i].ik.key))
    && (q < |es| ==> Shown(es, s, q) && base != Some(es[q].ik.key))
  }

  // Skipping keys up to skip hides exactly what is overridden by entries before
  // p, and the key base.
  ghost predicate Frontier(es: seq<Entry>, s: Sequence, p: int, skip: Option<Key>, base: Option<Key>)
    requires p >= 0
  {
    && (base.Some? ==> forall q :: p <= q < |es| ==> base.value <= es[q].ik.key)
    && forall q :: p <= q && InSight(es, s, q) ==>
      ((skip.Some? && es[q].ik.key <= skip.value) <==>
       (base == Some(es[q].ik.key) || exists j :: j < p && InSight(es, s, j) && es[j].ik.key == es[q].ik.key))
  }

  // One turn of the loop of FindNextUserEntry.
  lemma FrontierStep(es: seq<Entry>, s: Sequence, p: int, skip: Option<Key>, base: Option<Key>)
    requires Sorted(es) && 0 <= p < |es| && Frontier(es, s, p, skip, base)
    ensures var e := es[p];
      if !InSight(es, s, p) then Frontier(es, s, p + 1, skip, base) && !Shown(es, s, p)
      else if e.ik.kind.Deletion? then Frontier(es, s, p + 1, Some(e.ik.key), base) && !Shown(es, s, p)
      else if skip.Some? && e.ik.key <= skip.value then
        Frontier(es, s, p + 1, skip, base) && (Shown(es, s, p) ==> base == Some(e.ik.key))
      else Shown(es, s, p) && base != Some(e.ik.key)
  {
    hide Tag;
    var e := es[p];
    var next := if InSight(es, s, p) && e.ik.kind.Deletion? then Some(e.ik.key) else skip;
    if !InSight(es, s, p) || e.ik.kind.Deletion? || (skip.Some? && e.ik.key <= skip.value) {
      forall q | p + 1 <= q && InSight(es, s, q)
        ensures (next.Some? && es[q].ik.key <= next.value) <==>
                (base == Some(es[q].ik.key) ||
                 exists j :: j < p + 1 && InSight(es, s, j) && es[j].ik.key == es[q].ik.key)
      {
        FrontierAt(es, s, p, skip, base, q);
      }
    }
  }

  lemma FrontierAt(es: seq<Entry>, s: Sequence, p: int, skip: Option<Key>, base: Option<Key>, q: int)
    requires Sorted(es) && 0 <= p < q && InSight(es, s, q) && Frontier(es, s, p, skip, base)
    ensures var e := es[p];
      var hidden := base == Some(es[q].ik.key) ||
                    exists j :: j < p + 1 && InSight(es, s, j) && es[j].ik.key == es[q].ik.key;
      && (!InSight(es, s, p) ==> ((skip.Some? && es[q].ik.key <= skip.value) <==> hidden))
      && (InSight(es, s, p) ==> (es[q].ik.key <= e.ik.key <==> hidden))
      && (InSight(es, s, p) && skip.Some? && e.ik.key <= skip.value ==> ((es[q].ik.key <= skip.value) <==> hidden))
  {
    hide ILess;
    KeysAscend(es, p, q);
    if exists j :: j < p && InSight(es, s, j) && es[j].ik.key == es[q].ik.key {
      var j :| j < p && InSight(es, s, j) && es[j].ik.key == es[q].ik.key;
      KeysAscend(es, j, p);
    }
  }

  // ---------------------------------------------------------------- back

  // c is the last shown entry up to hi; -1 if there is none.
  ghost predicate IsPrevShown(es: seq<Entry>, s: Sequence, hi: int, c: int) {
    && -1 <= c <= hi
    && (forall i :: c < i <= hi ==> !Shown(es, s, i))
    && (c >= 0 ==> Shown(es, s, c))
  }

  // Entries after p, up to hi, have been scanned.  A value that has been saved
  // is entry c, the only one among them that can be shown.
  ghost predicate Scanned(es: seq<Entry>, s: Sequence, p: int, hi: int, saved: bool, c: int) {
    && -1 <= p <= hi < |es|
    && (saved ==>
          && p < c <= hi && InSight(es, s, c) && es[c].ik.kind.Put?
          && (forall j :: p < j < c ==> !InSight(es, s, j)))
    && forall i :: p < i <= hi && Shown(es, s, i) ==> saved && i == c
  }

  // One turn of the loop of FindPrevUserEntry.
  lemma ScanStep(es: seq<Entry>, s: Sequence, p: int, hi: int, saved: bool, c: int)
    requires Sorted(es) && 0 <= p && Scanned(es, s, p, hi, saved, c)
    ensures if !InSight(es, s, p) then Scanned(es, s, p - 1, hi, saved, c)
      else if saved && es[p].ik.key < es[c].ik.key then IsPrevShown(es, s, hi, c)
      else Scanned(es, s, p - 1, hi, es[p].ik.kind.Put?, p)
  {
    hide Tag;
    if InSight(es, s, p) && saved {
      KeysAscend(es, p, c);
      if es[p].ik.key < es[c].ik.key {
        forall j | j < c && InSight(es, s, j) ensures es[j].ik.key != es[c].ik.key {
          if j <= p { KeysAscend(es, j, p); }
        }
      }
    }
  }

  lemma ScanEnds(es: seq<Entry>, s: Sequence, hi: int, saved: bool, c: int)
    requires Scanned(es, s, -1, hi, saved, c)
    ensures IsPrevShown(es, s, hi, if saved then c else -1)
  {
  }

  // ---------------------------------------------------------------- the iterator

  class DbIterator {
    const sequence: Sequence
    var iter: C.Cursor
    var savedKey: Option<Key>
    var savedValue: Value
    var forward: bool
    var valid: bool

    ghost predicate Shaped()
      reads this
    {
      Sorted(iter.es) && (valid ==> if forward then C.Valid(iter) else savedKey.Some?)
    }

    function CurrentKey(): Key
      requires Shaped() && valid
      reads this
    {
      if forward then C.Current(iter).ik.key else savedKey.value
    }

    function CurrentValue(): Value
      requires Shaped() && valid
      reads this
    {
      if forward then C.Current(iter).value else savedValue
    }

    // Where the inner iterator stands; -1 when it is not valid.
    function Inner(): int
      reads this
    {
      if C.Valid(iter) then iter.pos else -1
    }

    // The iterator shows entry i: moving forward the inner iterator is on it;
    // moving back it is on the last entry in sight of an earlier key.
    ghost predicate At(i: int)
      reads this
    {
      && valid && Shown(iter.es, sequence, i)
      && if forward then iter.pos == i
         else
           && savedKey == Some(iter.es[i].ik.key) && savedValue == iter.es[i].value && Inner() < i
           && (forall j :: Inner() < j < i ==> !InSight(iter.es, sequence, j))
           && (Inner() >= 0 ==> InSight(iter.es, sequence, Inner()) && iter.es[Inner()].ik.key < iter.es[i].ik.key)
    }

    lemma AtShows(i: int)
      requires Shaped() && At(i)
      ensures CurrentKey() == iter.es[i].ik.key && CurrentValue() == iter.es[i].value
    {
    }

    // The iterator shows entry q, or is not valid when q is past the end.
    ghost predicate Lands(q: int)
      reads this
    {
      if 0 <= q < |iter.es| then At(q) && forward else !valid
    }

    constructor (iter: C.Cursor, sequence: Sequence)
      requires Sorted(iter.es)
      ensures Shaped() && !valid && this.iter == iter && this.sequence == sequence
    {
      this.iter, this.sequence := iter, sequence;
      savedKey, savedValue, forward, valid := None, [], true, false;
    }

    method FindNextUserEntry(skipping: Option<Key>, ghost base: Option<Key>) returns (ghost q: int)
      requires Sorted(iter.es) && C.Valid(iter) && forward
      modifies this
      ensures Shaped() && iter.es == old(iter.es) && forward
      ensures old(Frontier(iter.es, sequence, iter.pos, skipping, base)) ==>
        IsNextShown(iter.es, sequence, old(iter.pos), base, q) && Lands(q)
    {
      hide Shown, Frontier;
      ghost var es := iter.es;
      ghost var good := Frontier(es, sequence, iter.pos, skipping, base);
      var skip := skipping;
      ghost var start := iter.pos;
      while C.Valid(iter)
        invariant iter.es == es && start <= iter.pos <= |es| && forward
        invariant good ==> Frontier(es, sequence, iter.pos, skip, base)
        invariant good ==> forall i :: start <= i < iter.pos && Shown(es, sequence, i) ==> base == Some(es[i].ik.key)
        decreases |es| - iter.pos
      {
        if good { FrontierStep(es, sequence, iter.pos, skip, base); }
        var e := C.Current(iter);
        if e.ik.sequence <= sequence {
          if e.ik.kind.Deletion? {
            skip := Some(e.ik.key);
          } else if skip.Some? && e.ik.key <= skip.value {
          } else {
            valid := true;
            savedKey := None;
            return iter.pos;
          }
        }
        iter := C.Next(iter);
      }
      savedKey := None;
      valid := false;
      return iter.pos;
    }

    method FindPrevUserEntry() returns (ghost c: int)
      requires Sorted(iter.es) && !forward
      modifies this
      ensures Shaped() && iter.es == old(iter.es)
      ensures IsPrevShown(iter.es, sequence, old(Inner()), c) && (if c >= 0 then At(c) && !forward else !valid)
    {
      hide Shown, InSight, Scanned;
      ghost var es := iter.es;
      ghost var hi := Inner();
      var saved := false;
      c := -1;
      ScanStarts(es, sequence, hi);
      while C.Valid(iter)
        invariant iter.es == es && !forward
        invariant Scanned(es, sequence, Inner(), hi, saved, c)
        invariant saved ==> Keeps(es, c, savedKey, savedValue)
        decreases Inner() + 1
      {
        ScanStep(es, sequence, Inner(), hi, saved, c);
        var e := C.Current(iter);
        assert InSight(es, sequence, iter.pos) <==> e.ik.sequence <= sequence by { InSightIs(es, sequence, iter.pos); }
        if e.ik.sequence <= sequence {
          if saved && e.ik.key < savedKey.value {
            BreakIs(es, sequence, iter.pos, hi, c);
            break;
          }
          saved := e.ik.kind.Put?;
          if !saved {
            savedKey := None;
            savedValue := [];
          } else {
            savedKey := Some(e.ik.key);
            savedValue := e.value;
          }
          c := iter.pos;
        }
        iter := C.Prev(iter);
      }
      if !C.Valid(iter) {
        ScanEnds(es, sequence, hi, saved, c);
        EndIs(es, sequence, hi, saved, c);
      }
      if !saved {
        valid := false;
        savedKey := None;
        savedValue := [];
        forward := true;
        c := -1;
      } else {
        valid := true;
      }
    }

    method SeekToFirst() returns (ghost q: int)
      requires Sorted(iter.es)
      modifies this
      ensures Shaped() && iter.es == old(iter.es) && IsNextShown(iter.es, sequence, 0, None, q) && Lands(q)
    {
      forward := true;
      savedValue := [];
      iter := C.SeekToFirst(iter);
      if C.Valid(iter) {
        q := FindNextUserEntry(None, None);
      } else {
        valid := false;
        q := 0;
      }
    }

    // The first key from target on.
    method Seek(target: Key) returns (ghost q: int)
      requires Sorted(iter.es)
      modifies this
      ensures Shaped() && iter.es == old(iter.es) && Lands(q) && 0 <= q <= |iter.es|
      ensures forall i :: Shown(iter.es, sequence, i) ==> (i < q <==> iter.es[i].ik.key < target)
    {
      hide C.LowerBound;
      forward := true;
      savedValue := [];
      savedKey := None;
      var k := LookupKey(target, sequence);
      iter := C.Seek(iter, k);
      SeekFrontier(iter.es, sequence, target, iter.pos);
      if C.Valid(iter) {
        q := FindNextUserEntry(None, None);
      } else {
        valid := false;
        q := |iter.es|;
      }
    }

    method SeekToLast() returns (ghost c: int)
      requires Sorted(iter.es)
      modifies this
      ensures Shaped() && iter.es == old(iter.es) && IsPrevShown(iter.es, sequence, |iter.es| - 1, c)
      ensures if c >= 0 then At(c) else !valid
    {
      forward := false;
      savedValue := [];
      iter := C.SeekToLast(iter);
      c := FindPrevUserEntry();
    }

    // The greatest shown key before entry i.
    method Prev(ghost i: int) returns (ghost c: int)
      requires Shaped() && At(i)
      modifies this
      ensures Shaped() && iter.es == old(iter.es) && IsPrevShown(iter.es, sequence, i - 1, c)
      ensures if c >= 0 then At(c) else !valid
    {
      hide Tag;
      ghost var es := iter.es;
      if forward {
        savedKey := Some(C.Current(iter).ik.key);
        while true
          invariant iter.es == es && C.Valid(iter) && iter.pos <= i && forward && savedKey == Some(es[i].ik.key)
          invariant forall j :: iter.pos <= j <= i ==> es[j].ik.key == es[i].ik.key
          decreases iter.pos
        {
          iter := C.Prev(iter);
          if !C.Valid(iter) {
            valid := false;
            savedKey := None;
            savedValue := [];
            SameKeyHidden(es, sequence, -1, i, -1);
            return -1;
          }
          KeysAscend(es, iter.pos, i);
          if C.Current(iter).ik.key < savedKey.value {
            break;
          }
        }
        forward := false;
        ghost var hi := Inner();
        c := FindPrevUserEntry();
        SameKeyHidden(es, sequence, hi, i, c);
      } else {
        ghost var hi := Inner();
        c := FindPrevUserEntry();
        OutOfSightHidden(es, sequence, hi, i, c);
      }
    }

    // Forward, this is the next shown key.  Straight after a backward move it is
    // so exactly if the entry before those of the current key is in sight;
    // otherwise the current key is shown again.
    method Next(ghost i: int) returns (ghost q: int)
      requires Shaped() && valid
      modifies this
      ensures Shaped() && iter.es == old(iter.es)
      ensures old(At(i)) && (old(forward) || Adjacent(iter.es, sequence, i)) ==>
        IsNextShown(iter.es, sequence, i + 1, None, q) && Lands(q)
      ensures old(At(i)) && !old(forward) && !Adjacent(iter.es, sequence, i) ==> q == i && Lands(q)
    {
      hide Shown, InSight, Adjacent, Frontier, Tag, IsNextShown;
      ghost var es := iter.es;
      ghost var good, wasForward := At(i), forward;
      ghost var h := Inner();
      if !forward {
        forward := true;
        if !C.Valid(iter) {
          iter := C.SeekToFirst(iter);
        } else {
          iter := C.Next(iter);
        }
        if good { TurnFrontier(es, sequence, h, i); }
        if !C.Valid(iter) {
          valid := false;
          savedKey := None;
          return 0;
        }
      }
      var skip := C.Current(iter).ik.key;
      savedKey := Some(skip);
      if good && wasForward { ForwardFrontier(es, sequence, i); }
      q := FindNextUserEntry(Some(skip), Some(skip));
      if good && wasForward { ForwardNext(es, sequence, i, q); }
      if good && !wasForward { TurnNext(es, sequence, h, i, q); }
    }
  }

  // The entry just before those of entry i's key is in sight, or there is none.
  ghost predicate Adjacent(es: seq<Entry>, s: Sequence, i: int)
    requires 0 <= i < |es|
  {
    forall g :: 0 < g <= i && es[g - 1].ik.key < es[i].ik.key && es[g].ik.key == es[i].ik.key ==> InSight(es, s, g - 1)
  }

  lemma SameKeyHidden(es: seq<Entry>, s: Sequence, hi: int, i: int, c: int)
    requires Sorted(es) && Shown(es, s, i) && -1 <= hi < i && IsPrevShown(es, s, hi, c)
    requires forall j :: hi < j <= i ==> es[j].ik.key == es[i].ik.key
    ensures IsPrevShown(es, s, i - 1, c)
  {
  }

  lemma OutOfSightHidden(es: seq<Entry>, s: Sequence, hi: int, i: int, c: int)
    requires hi < i && IsPrevShown(es, s, hi, c) && forall j :: hi < j < i ==> !InSight(es, s, j)
    ensures IsPrevShown(es, s, i - 1, c)
  {
  }

  lemma ForwardFrontier(es: seq<Entry>, s: Sequence, i: nat)
    requires Sorted(es) && Shown(es, s, i)
    ensures Frontier(es, s, i, Some(es[i].ik.key), Some(es[i].ik.key))
  {
    forall q | i <= q < |es| ensures es[i].ik.key <= es[q].ik.key { KeysAscend(es, i, q); }
    forall j | j < i && InSight(es, s, j) ensures es[j].ik.key < es[i].ik.key { KeysAscend(es, j, i); }
  }

  lemma ForwardNext(es: seq<Entry>, s: Sequence, i: int, q: int)
    requires Sorted(es) && Shown(es, s, i) && IsNextShown(es, s, i, Some(es[i].ik.key), q)
    ensures IsNextShown(es, s, i + 1, None, q)
  {
  }

  // The state after a backward move, with the inner iterator at h.
  ghost predicate Turning(es: seq<Entry>, s: Sequence, h: int, i: int) {
    && Sorted(es) && Shown(es, s, i) && -1 <= h < i && (forall j :: h < j < i ==> !InSight(es, s, j))
    && (h >= 0 ==> InSight(es, s, h) && es[h].ik.key < es[i].ik.key)
  }

  // The inner iterator moves on to the entries of the key, or to entries of
  // smaller keys that are out of sight.
  lemma TurnFrontier(es: seq<Entry>, s: Sequence, h: int, i: int)
    requires Turning(es, s, h, i)
    ensures h + 1 < |es| && Frontier(es, s, h + 1, Some(es[h + 1].ik.key), Some(es[h + 1].ik.key))
  {
    var start := es[h + 1].ik.key;
    forall q | h + 1 <= q < |es| ensures start <= es[q].ik.key { KeysAscend(es, h + 1, q); }
    forall q | h + 1 <= q && InSight(es, s, q) ensures es[i].ik.key <= es[q].ik.key { KeysAscend(es, i, q); }
    forall j | 0 <= j <= h && InSight(es, s, j) ensures es[j].ik.key < es[i].ik.key { KeysAscend(es, j, h); }
  }

  lemma {:induction false} FirstOfKey(es: seq<Entry>, a: nat, i: nat) returns (g: nat)
    requires Sorted(es) && a < i < |es| && es[a].ik.key < es[i].ik.key
    ensures a < g <= i && es[g - 1].ik.key < es[i].ik.key && es[g].ik.key == es[i].ik.key
    decreases i - a
  {
    KeysAscend(es, a + 1, i);
    if es[a + 1].ik.key == es[i].ik.key {
      g := a + 1;
    } else {
      g := FirstOfKey(es, a + 1, i);
    }
  }

  lemma TurnAdjacent(es: seq<Entry>, s: Sequence, h: int, i: int)
    requires Turning(es, s, h, i)
    ensures es[h + 1].ik.key == es[i].ik.key <==> Adjacent(es, s, i)
  {
    hide ILess;
    KeysAscend(es, h + 1, i);
    if es[h + 1].ik.key < es[i].ik.key {
      var g := FirstOfKey(es, h + 1, i);
      assert !InSight(es, s, g - 1);
    } else {
      forall g | 0 < g <= i && es[g - 1].ik.key < es[i].ik.key && es[g].ik.key == es[i].ik.key
        ensures InSight(es, s, g - 1)
      {
        if g - 1 >= h + 1 { KeysAscend(es, h + 1, g - 1); }
        if g <= h { KeysAscend(es, g, h); }
      }
    }
  }

  lemma TurnNext(es: seq<Entry>, s: Sequence, h: int, i: int, q: int)
    requires Turning(es, s, h, i) && IsNextShown(es, s, h + 1, Some(es[h + 1].ik.key), q)
    ensures Adjacent(es, s, i) ==> IsNextShown(es, s, i + 1, None, q)
    ensures !Adjacent(es, s, i) ==> q == i
  {
    hide ILess;
    TurnAdjacent(es, s, h, i);
    hide Adjacent;
    if es[h + 1].ik.key == es[i].ik.key {
      forall j | i < j && Shown(es, s, j) ensures es[j].ik.key != es[i].ik.key { ShownOnce(es, s, i, j); }
    }
  }

  // The iterator can get stuck: with a newer entry of a smaller key out of
  // sight, Next after SeekToLast shows the last key again.
  const STUCK: seq<Entry> := [Entry(IKey(1, 5, Put), []), Entry(IKey(2, 1, Put), [])]

  lemma NextAfterPrevGetsStuck()
    ensures Sorted(STUCK) && IsPrevShown(STUCK, 3, 1, 1) && Turning(STUCK, 3, -1, 1)
    ensures IsNextShown(STUCK, 3, 2, None, 2) && !Adjacent(STUCK, 3, 1)
  {
    assert STUCK[1 - 1].ik.key < STUCK[1].ik.key && !InSight(STUCK, 3, 0);
  }

  // A saved value is that of entry c.
  ghost predicate Keeps(es: seq<Entry>, c: int, key: Option<Key>, value: Value) {
    0 <= c < |es| && key == Some(es[c].ik.key) && value == es[c].value
  }

  lemma InSightIs(es: seq<Entry>, s: Sequence, i: nat)
    requires i < |es|
    ensures InSight(es, s, i) <==> es[i].ik.sequence <= s
  {
  }

  lemma ScanStarts(es: seq<Entry>, s: Sequence, hi: int)
    requires -1 <= hi < |es|
    ensures Scanned(es, s, hi, hi, false, -1)
  {
  }

  // Where the scan stops, the saved entry is shown and nothing in sight lies
  // between.
  ghost predicate Stops(es: seq<Entry>, s: Sequence, p: int, c: int) {
    && p < c && Shown(es, s, c) && (forall j :: p < j < c ==> !InSight(es, s, j))
    && (p >= 0 ==> InSight(es, s, p) && es[p].ik.key < es[c].ik.key)
  }

  lemma BreakIs(es: seq<Entry>, s: Sequence, p: int, hi: int, c: int)
    requires Scanned(es, s, p, hi, true, c) && IsPrevShown(es, s, hi, c) && InSight(es, s, p) &&
             es[p].ik.key < es[c].ik.key
    ensures Stops(es, s, p, c)
  {
  }

  lemma EndIs(es: seq<Entry>, s: Sequence, hi: int, saved: bool, c: int)
    requires Scanned(es, s, -1, hi, saved, c) && IsPrevShown(es, s, hi, if saved then c else -1)
    ensures saved ==> Stops(es, s, -1, c)
  {
  }

  // Entries before the lookup key's place are of smaller keys or out of sight.
  lemma SeekFrontier(es: seq<Entry>, s: Sequence, target: Key, p: nat)
    requires Sorted(es) && p == C.LowerBound(es, LookupKey(target, s))
    ensures Frontier(es, s, p, None, None)
    ensures forall i :: Shown(es, s, i) ==> (i < p <==> es[i].ik.key < target)
  {
    forall j | 0 <= j < p && InSight(es, s, j) ensures es[j].ik.key < target {
      assert ILess(es[j].ik, LookupKey(target, s));
    }
    forall q | p <= q < |es| ensures target <= es[q].ik.key {
      if q > p { KeysAscend(es, p, q); }
    }
  }

  // ---------------------------------------------------------------- whole walks

  // The visible map in key order, from the first n entries.
  ghost function Listing(es: seq<Entry>, s: Sequence, n: int): seq<(Key, Value)>
    requires n <= |es|
    decreases if n < 0 then 0 else n
  {
    if n <= 0 then []
    else Listing(es, s, n - 1) + if Shown(es, s, n - 1) then [(es[n - 1].ik.key, es[n - 1].value)] else []
  }

  lemma {:induction false} ListingSkips(es: seq<Entry>, s: Sequence, p: int, q: int)
    requires 0 <= p <= q <= |es| && forall i :: p <= i < q ==> !Shown(es, s, i)
    ensures Listing(es, s, q) == Listing(es, s, p)
    decreases q - p
  {
    if p < q { ListingSkips(es, s, p, q - 1); }
  }

  function Reversed(xs: seq<(Key, Value)>): seq<(Key, Value)> {
    if xs == [] then [] else [xs[|xs| - 1]] + Reversed(xs[..|xs| - 1])
  }

  // SeekToFirst and Next until the end visit the whole map in order.
  method WalkForward(it: DbIterator) returns (seen: seq<(Key, Value)>)
    requires Sorted(it.iter.es)
    modifies it
    ensures it.iter.es == old(it.iter.es) && seen == Listing(it.iter.es, it.sequence, |it.iter.es|)
  {
    hide Shown;
    ghost var es := it.iter.es;
    ghost var q := it.SeekToFirst();
    seen := [];
    ListingSkips(es, it.sequence, 0, q);
    while it.valid
      invariant it.iter.es == es && it.Shaped() && 0 <= q <= |es| && it.Lands(q)
      invariant seen == Listing(es, it.sequence, q)
      decreases |es| - q
    {
      it.AtShows(q);
      seen := seen + [(it.CurrentKey(), it.CurrentValue())];
      ghost var p := q + 1;
      assert seen == Listing(es, it.sequence, p);
      q := it.Next(q);
      ListingSkips(es, it.sequence, p, q);
    }
  }

  // SeekToLast and Prev until the end visit it in reverse.
  method WalkBack(it: DbIterator) returns (seen: seq<(Key, Value)>)
    requires Sorted(it.iter.es)
    modifies it
    ensures it.iter.es == old(it.iter.es) && seen == Reversed(Listing(it.iter.es, it.sequence, |it.iter.es|))
  {
    hide Shown;
    ghost var es := it.iter.es;
    ghost var c := it.SeekToLast();
    seen := [];
    ListingSkips(es, it.sequence, c + 1, |es|);
    while it.valid
      invariant it.iter.es == es && it.Shaped() && -1 <= c < |es| && (if c >= 0 then it.At(c) else !it.valid)
      invariant seen + Reversed(Listing(es, it.sequence, c + 1)) == Reversed(Listing(es, it.sequence, |es|))
      decreases c
    {
      it.AtShows(c);
      ghost var before, p := Listing(es, it.sequence, c), c;
      ghost var x := (it.CurrentKey(), it.CurrentValue());
      assert Listing(es, it.sequence, c + 1) == before + [x];
      assert (before + [x])[..|before|] == before;
      assert Reversed(before + [x]) == [x] + Reversed(before);
      assert seen + ([x] + Reversed(before)) == seen + [x] + Reversed(before);
      seen := seen + [(it.CurrentKey(), it.CurrentValue())];
      c := it.Prev(c);
      ListingSkips(es, it.sequence, c + 1, p);
    }
    assert seen + [] == seen;
  }
}
