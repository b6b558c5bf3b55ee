/**
  The merging iterator (table/merger.cc): over sorted children with distinct
  keys it is a cursor on the merged list, in both directions and across every
  change of direction.
 */
module Merging {
  import opened Basics
  import opened Entries
  import opened Cursors

  // ---------------------------------------------------------------- the merged list

  // How many entries of a child come before entry m of the merged list.
  ghost function Ahead(es: seq<Entry>, merged: seq<Entry>, m: nat): (n: nat)
    requires m <= |merged|
    ensures n <= |es|
  {
    if m == |merged| then |es| else LowerBound(es, merged[m].ik)
  }

  ghost predicate Part(es: seq<Entry>, merged: seq<Entry>) {
    Sorted(es) && Sorted(merged) && forall e :: e in es ==> e in merged
  }

  // An entry of a child is ahead of m exactly if it is so in the merged list.
  lemma Place(es: seq<Entry>, merged: seq<Entry>, m: nat, i: nat) returns (p: nat)
    requires Part(es, merged) && m <= |merged| && i < |es|
    ensures p < |merged| && merged[p] == es[i] && (i < Ahead(es, merged, m) <==> p < m)
  {
    assert es[i] in es;
    p :| 0 <= p < |merged| && merged[p] == es[i];
    if m < |merged| {
      var n := Ahead(es, merged, m);
      if i >= n { assert !ILess(es[n].ik, merged[m].ik) && (i == n || ILess(es[n].ik, es[i].ik)); }
    }
  }

  // Entry m is the child's next one if the child has it.
  lemma AheadOwn(es: seq<Entry>, merged: seq<Entry>, m: nat)
    requires Part(es, merged) && m < |merged|
    ensures Ahead(es, merged, m) < |es| && es[Ahead(es, merged, m)] == merged[m] <==> merged[m] in es
  {
    var n := Ahead(es, merged, m);
    if merged[m] in es {
      var i :| 0 <= i < |es| && es[i] == merged[m];
      assert i == n;
    }
  }

  // Passing entry m of the merged list passes it in the child that has it.
  lemma AheadStep(es: seq<Entry>, merged: seq<Entry>, m: nat)
    requires Part(es, merged) && m < |merged|
    ensures Ahead(es, merged, m + 1) == Ahead(es, merged, m) + if merged[m] in es then 1 else 0
  {
    hide Ahead;
    AheadOwn(es, merged, m);
    var (n, n') := (Ahead(es, merged, m), Ahead(es, merged, m + 1));
    if n' < |es| {
      var p := Place(es, merged, m, n');
      var q := Place(es, merged, m + 1, n');
      assert p == q;
    }
    if n' > 0 {
      var p := Place(es, merged, m, n' - 1);
      var q := Place(es, merged, m + 1, n' - 1);
      assert p == q;
      if n' - 1 > n {
        var r := Place(es, merged, m, n);
      }
    }
  }

  // The child's last entry before entry m, or past the end if there is none.
  ghost function Behind(es: seq<Entry>, merged: seq<Entry>, m: nat): nat
    requires m <= |merged|
  {
    var n := Ahead(es, merged, m);
    if n == 0 then |es| else n - 1
  }

  // ---------------------------------------------------------------- positions of the children

  // merged holds exactly the entries of the children, which share none.
  ghost predicate Parts(children: seq<Cursor>, merged: seq<Entry>) {
    && (forall i :: 0 <= i < |children| ==> Part(children[i].es, merged))
    && (forall e :: e in merged ==> exists i :: 0 <= i < |children| && e in children[i].es)
    && (forall i, j, e :: 0 <= i < j < |children| && e in children[i].es ==> e !in children[j].es)
  }

  // Every list of sorted children without equal keys has a merged list.
  ghost predicate Apart(a: seq<Entry>, b: seq<Entry>) {
    forall e, f :: e in a && f in b ==> ILess(e.ik, f.ik) || ILess(f.ik, e.ik)
  }

  ghost predicate Mergeable(children: seq<Cursor>) {
    && (forall i :: 0 <= i < |children| ==> Sorted(children[i].es))
    && (forall i, j :: 0 <= i < j < |children| ==> Apart(children[i].es, children[j].es))
  }

  lemma {:induction false} MergeTwo(a: seq<Entry>, b: seq<Entry>) returns (m: seq<Entry>)
    requires Sorted(a) && Sorted(b) && Apart(a, b)
    ensures Sorted(m) && forall e :: e in m <==> e in a || e in b
    decreases |a| + |b|
  {
    if a == [] {
      m := b;
    } else if b == [] {
      m := a;
    } else if ILess(a[0].ik, b[0].ik) {
      var rest := MergeTwo(a[1..], b);
      m := [a[0]] + rest;
      MergeHead(a, b, rest);
    } else {
      assert b[0] in b && a[0] in a;
      assert Apart(b, a);
      var rest := MergeTwo(b[1..], a);
      m := [b[0]] + rest;
      MergeHead(b, a, rest);
    }
  }

  lemma MergeHead(a: seq<Entry>, b: seq<Entry>, rest: seq<Entry>)
    requires Sorted(a) && Sorted(b) && a != [] && (b != [] ==> ILess(a[0].ik, b[0].ik))
    requires Sorted(rest) && forall e :: e in rest <==> e in a[1..] || e in b
    ensures Sorted([a[0]] + rest) && forall e :: e in [a[0]] + rest <==> e in a || e in b
  {
    assert a == [a[0]] + a[1..];
    forall j | 0 <= j < |rest|
      ensures ILess(a[0].ik, rest[j].ik)
    {
      assert rest[j] in rest;
      if rest[j] in a[1..] {
        var i :| 0 <= i < |a[1..]| && a[1..][i] == rest[j];
        assert a[i + 1] == rest[j];
      }
    }
  }

  lemma {:induction false} MergeExists(children: seq<Cursor>) returns (merged: seq<Entry>)
    requires Mergeable(children)
    ensures Sorted(merged) && Parts(children, merged)
  {
    merged := [];
    if children != [] {
      var (front, last) := (children[..|children| - 1], children[|children| - 1]);
      var rest := MergeExists(front);
      merged := MergeTwo(rest, last.es);
      assert forall i :: 0 <= i < |children| ==> children[i] == if i < |front| then front[i] else last;
      forall i, j, e | 0 <= i < j < |children| && e in children[i].es
        ensures e !in children[j].es
      {
        assert Apart(children[i].es, children[j].es);
      }
    }
  }

  // Every child is at its first entry from m on.
  ghost predicate AllAhead(children: seq<Cursor>, merged: seq<Entry>, m: nat) {
    m <= |merged| && forall i :: 0 <= i < |children| ==> children[i].pos == Ahead(children[i].es, merged, m)
  }

  // Every child is at its last entry before m.
  ghost predicate AllBehind(children: seq<Cursor>, merged: seq<Entry>, m: nat) {
    m <= |merged| && forall i :: 0 <= i < |children| ==> children[i].pos == Behind(children[i].es, merged, m)
  }

  // What the iterator keeps at entry m: moving forward, every child is at its
  // first entry from m on; moving back, all but the current are before m.
  ghost predicate Standing(children: seq<Cursor>, merged: seq<Entry>, m: nat, current: nat, forward: bool) {
    && m < |merged| && current < |children| && Valid(children[current]) && Current(children[current]) == merged[m]
    && forall i :: 0 <= i < |children| ==>
         children[i].pos ==
           if forward || i == current then Ahead(children[i].es, merged, m) else Behind(children[i].es, merged, m)
  }

  ghost predicate IsSmallest(children: seq<Cursor>, current: Option<nat>) {
    match current
    case None => forall i :: 0 <= i < |children| ==> !Valid(children[i])
    case Some(c) =>
      && c < |children| && Valid(children[c])
      && forall i :: 0 <= i < |children| && Valid(children[i]) ==>
        !ILess(Current(children[i]).ik, Current(children[c]).ik)
  }

  ghost predicate IsLargest(children: seq<Cursor>, current: Option<nat>) {
    match current
    case None => forall i :: 0 <= i < |children| ==> !Valid(children[i])
    case Some(c) =>
      && c < |children| && Valid(children[c])
      && forall i :: 0 <= i < |children| && Valid(children[i]) ==>
        !ILess(Current(children[c]).ik, Current(children[i]).ik)
  }

  lemma SameEntry(merged: seq<Entry>, a: Entry, b: Entry)
    requires Sorted(merged) && a in merged && b in merged && !ILess(a.ik, b.ik) && !ILess(b.ik, a.ik)
    ensures a == b
  {
    var i :| 0 <= i < |merged| && merged[i] == a;
    var j :| 0 <= j < |merged| && merged[j] == b;
  }

  // The smallest of the children is entry m.
  lemma SmallestIs(children: seq<Cursor>, merged: seq<Entry>, m: nat, current: Option<nat>)
    requires Parts(children, merged) && AllAhead(children, merged, m) && IsSmallest(children, current)
    ensures current.Some? <==> m < |merged|
    ensures m < |merged| ==> Standing(children, merged, m, current.value, true)
  {
    hide Ahead;
    if m < |merged| {
      assert merged[m] in merged;
      var j :| 0 <= j < |children| && merged[m] in children[j].es;
      AheadOwn(children[j].es, merged, m);
      assert Valid(children[j]) && Current(children[j]) == merged[m];
      var c := current.value;
      var p := Place(children[c].es, merged, m, children[c].pos);
      SameEntry(merged, Current(children[c]), merged[m]);
    } else if current.Some? {
      var c := current.value;
      var p := Place(children[c].es, merged, m, children[c].pos);
      assert false;
    }
  }

  // Going back from m lands on entry m - 1.
  lemma LargestIs(children: seq<Cursor>, merged: seq<Entry>, m: nat, current: Option<nat>)
    requires Parts(children, merged) && AllBehind(children, merged, m) && IsLargest(children, current)
    ensures current.Some? <==> m > 0
    ensures m > 0 ==> Standing(children, merged, m - 1, current.value, false)
  {
    hide Ahead, Parts;
    if current.Some? {
      BehindPlace(children, merged, m, current.value);
    }
    if m > 0 {
      var e := merged[m - 1];
      var j := Holder(children, merged, m - 1);
      var c := current.value;
      BehindPlace(children, merged, m, c);
      LargestCurrent(children, merged, m, c, j);
      forall i | 0 <= i < |children|
        ensures children[i].pos ==
                if i == c then Ahead(children[i].es, merged, m - 1) else Behind(children[i].es, merged, m - 1)
      {
        PartsOf(children, merged, i);
        AheadStep(children[i].es, merged, m - 1);
        AheadOwn(children[i].es, merged, m - 1);
        OnlyOne(children, merged, m - 1, i, c);
      }
    }
  }

  lemma PartsOf(children: seq<Cursor>, merged: seq<Entry>, i: nat)
    requires Parts(children, merged) && i < |children|
    ensures Part(children[i].es, merged)
  {
  }

  // The child that has entry m, when it is behind m + 1.
  lemma Holder(children: seq<Cursor>, merged: seq<Entry>, m: nat) returns (j: nat)
    requires Parts(children, merged) && m < |merged| && AllBehind(children, merged, m + 1)
    ensures j < |children| && Valid(children[j]) && Current(children[j]) == merged[m]
  {
    hide Ahead;
    assert merged[m] in merged;
    j :| 0 <= j < |children| && merged[m] in children[j].es;
    AheadOwn(children[j].es, merged, m);
    AheadStep(children[j].es, merged, m);
  }

  lemma OnlyOne(children: seq<Cursor>, merged: seq<Entry>, m: nat, i: nat, c: nat)
    requires Parts(children, merged) && m < |merged| && i < |children| && c < |children| && merged[m] in children[c].es
    ensures merged[m] in children[i].es <==> i == c
  {
  }

  lemma BehindPlace(children: seq<Cursor>, merged: seq<Entry>, m: nat, c: nat)
    requires Parts(children, merged) && AllBehind(children, merged, m) && c < |children| && Valid(children[c])
    ensures m > 0 && Current(children[c]) in merged && Current(children[c]) in children[c].es
    ensures !ILess(merged[m - 1].ik, Current(children[c]).ik)
  {
    hide Ahead;
    var p := Place(children[c].es, merged, m, children[c].pos);
    assert p < m;
  }

  lemma LargestCurrent(children: seq<Cursor>, merged: seq<Entry>, m: nat, c: nat, j: nat)
    requires Parts(children, merged) && 0 < m <= |merged| && IsLargest(children, Some(c))
    requires j < |children| && Valid(children[j]) && Current(children[j]) == merged[m - 1]
    requires !ILess(merged[m - 1].ik, Current(children[c]).ik) && Current(children[c]) in merged
    ensures Current(children[c]) == merged[m - 1]
  {
    assert Sorted(merged) by { PartsOf(children, merged, c); }
    hide Parts;
    SameEntry(merged, Current(children[c]), merged[m - 1]);
  }

  // ---------------------------------------------------------------- moves

  // Past the current entry all children are ahead.
  lemma NextAhead(children: seq<Cursor>, merged: seq<Entry>, m: nat, c: nat)
    requires Parts(children, merged) && Standing(children, merged, m, c, true)
    ensures AllAhead(children[c := Next(children[c])], merged, m + 1)
  {
    hide Ahead, Parts;
    forall i | 0 <= i < |children|
      ensures children[c := Next(children[c])][i].pos == Ahead(children[i].es, merged, m + 1)
    {
      PartsOf(children, merged, i);
      AheadStep(children[i].es, merged, m);
      OnlyOne(children, merged, m, i, c);
    }
  }

  // Before the current entry all children are behind.
  lemma PrevBehind(children: seq<Cursor>, merged: seq<Entry>, m: nat, c: nat)
    requires Parts(children, merged) && Standing(children, merged, m, c, false)
    ensures AllBehind(children[c := Prev(children[c])], merged, m)
  {
    hide Ahead, Parts;
  }

  // Next and Prev start by putting the other children on the right side.
  function AfterKey(c: Cursor, k: IKey): Cursor {
    var d := Seek(c, k);
    if Valid(d) && !ILess(k, Current(d).ik) then Next(d) else d
  }

  function BeforeKey(c: Cursor, k: IKey): Cursor {
    var d := Seek(c, k);
    if Valid(d) then Prev(d) else SeekToLast(d)
  }

  lemma AfterKeyIs(c: Cursor, merged: seq<Entry>, m: nat)
    requires Part(c.es, merged) && m < |merged| && merged[m] !in c.es
    ensures AfterKey(c, merged[m].ik) == c.(pos := Ahead(c.es, merged, m))
  {
    hide LowerBound;
    var d := Seek(c, merged[m].ik);
    if Valid(d) {
      OtherEntry(merged, Current(d), merged[m]);
    }
  }

  lemma OtherEntry(merged: seq<Entry>, a: Entry, b: Entry)
    requires Sorted(merged) && a in merged && b in merged && a != b
    ensures ILess(a.ik, b.ik) || ILess(b.ik, a.ik)
  {
    var i :| 0 <= i < |merged| && merged[i] == a;
    var j :| 0 <= j < |merged| && merged[j] == b;
  }

  lemma BeforeKeyIs(c: Cursor, merged: seq<Entry>, m: nat)
    requires Part(c.es, merged) && m < |merged|
    ensures BeforeKey(c, merged[m].ik) == c.(pos := Behind(c.es, merged, m))
  {
    hide LowerBound;
  }

  lemma SeekAhead(es: seq<Entry>, merged: seq<Entry>, k: IKey)
    requires Part(es, merged)
    ensures LowerBound(es, k) == Ahead(es, merged, LowerBound(merged, k))
  {
    var (m, n) := (LowerBound(merged, k), LowerBound(es, k));
    hide LowerBound, Ahead;
    var a := Ahead(es, merged, m);
    if n < |es| { var p := Place(es, merged, m, n); }
    if a < |es| { var p := Place(es, merged, m, a); }
  }

  // ---------------------------------------------------------------- the iterator

  // The loops that move the children, all or all but one.
  method ForEach(children: seq<Cursor>, except: Option<nat>, move: Cursor -> Cursor) returns (r: seq<Cursor>)
    ensures |r| == |children|
    ensures forall i :: 0 <= i < |children| ==> r[i] == if except == Some(i) then children[i] else move(children[i])
  {
    r := children;
    for i := 0 to |children|
      invariant |r| == |children|
      invariant forall j :: 0 <= j < i ==> r[j] == if except == Some(j) then children[j] else move(children[j])
      invariant forall j :: i <= j < |children| ==> r[j] == children[j]
    {
      if except != Some(i) {
        r := r[i := move(r[i])];
      }
    }
  }

  class MergingIterator {
    ghost const merged: seq<Entry>
    var children: seq<Cursor>
    var current: Option<nat>
    var forward: bool

    // The children are what they were made from.
    ghost predicate Sound()
      reads this
    {
      Parts(children, merged)
    }

    ghost predicate Shaped()
      reads this
    {
      current.Some? ==> current.value < |children| && Valid(children[current.value])
    }

    predicate IsValid()
      reads this
    {
      current.Some?
    }

    function Entry(): Entry
      requires Shaped() && IsValid()
      reads this
    {
      Current(children[current.value])
    }

    // The iterator is a cursor on the merged list at m, or not valid.
    ghost predicate At(m: nat)
      reads this
    {
      if m < |merged| then current.Some? && Standing(children, merged, m, current.value, forward)
      else current.None?
    }

    constructor (children: seq<Cursor>, ghost merged: seq<Entry>)
      ensures Shaped() && this.children == children && this.merged == merged && !IsValid()
    {
      this.children, this.merged := children, merged;
      current, forward := None, true;
    }

    method FindSmallest()
      modifies this`current
      ensures Shaped() && IsSmallest(children, current)
    {
      var smallest: Option<nat> := None;
      for i := 0 to |children|
        invariant IsSmallest(children[..i], smallest)
      {
        var child := children[i];
        if Valid(child) {
          if smallest.None? {
            smallest := Some(i);
          } else if ILess(Current(child).ik, Current(children[smallest.value]).ik) {
            smallest := Some(i);
          }
        }
      }
      assert children[..|children|] == children;
      current := smallest;
    }

    method FindLargest()
      modifies this`current
      ensures Shaped() && IsLargest(children, current)
    {
      var largest: Option<nat> := None;
      var i := |children|;
      while i > 0
        invariant 0 <= i <= |children|
        invariant largest.Some? ==> i <= largest.value < |children| && Valid(children[largest.value])
        invariant largest.None? ==> forall j :: i <= j < |children| ==> !Valid(children[j])
        invariant largest.Some? ==> forall j :: i <= j < |children| && Valid(children[j]) ==>
                    !ILess(Current(children[largest.value]).ik, Current(children[j]).ik)
      {
        i := i - 1;
        var child := children[i];
        if Valid(child) {
          if largest.None? {
            largest := Some(i);
          } else if ILess(Current(children[largest.value]).ik, Current(child).ik) {
            largest := Some(i);
          }
        }
      }
      current := largest;
    }

    method SeekToFirst()
      modifies this
      ensures Shaped() && (old(Sound()) ==> Sound() && At(0))
    {
      hide Parts, Ahead;
      ghost var before := children;
      children := ForEach(children, None, c => Cursors.SeekToFirst(c));
      FindSmallest();
      forward := true;
      if old(Sound()) {
        PartsMoved(before, children, merged);
        FirstAhead(children, merged);
        SmallestIs(children, merged, 0, current);
      }
    }

    method SeekToLast()
      modifies this
      ensures Shaped() && (old(Sound()) ==> Sound() && At(if merged == [] then 0 else |merged| - 1))
    {
      hide Parts, Ahead;
      ghost var before := children;
      children := ForEach(children, None, c => Cursors.SeekToLast(c));
      FindLargest();
      forward := false;
      if old(Sound()) {
        PartsMoved(before, children, merged);
        LastBehind(children, merged);
        LargestIs(children, merged, |merged|, current);
      }
    }

    method Seek(k: IKey)
      modifies this
      ensures Shaped() && (old(Sound()) ==> Sound() && At(LowerBound(merged, k)))
    {
      hide Parts, Ahead, LowerBound;
      ghost var before := children;
      children := ForEach(children, None, c => Cursors.Seek(c, k));
      FindSmallest();
      forward := true;
      if old(Sound()) {
        PartsMoved(before, children, merged);
        forall i | 0 <= i < |children| ensures children[i].pos == Ahead(children[i].es, merged, LowerBound(merged, k)) {
          PartsOf(children, merged, i);
          SeekAhead(children[i].es, merged, k);
        }
        SmallestIs(children, merged, LowerBound(merged, k), current);
      }
    }

    method Next(ghost m: nat)
      requires Shaped() && IsValid()
      modifies this
      ensures Shaped() && (old(Sound() && At(m)) && m < |merged| ==> Sound() && At(m + 1))
    {
      hide Parts, Ahead;
      ghost var good := Sound() && At(m) && m < |merged|;
      ghost var before := children;
      var c := current.value;
      if !forward {
        var k := Current(children[c]).ik;
        children := ForEach(children, Some(c), d => AfterKey(d, k));
        if good { TurnsForward(before, children, merged, m, c, k); }
        forward := true;
      }
      if good {
        PartsMoved(before, children, merged);
        NextAhead(children, merged, m, c);
      }
      ghost var turned := children;
      children := children[c := Cursors.Next(children[c])];
      FindSmallest();
      if good {
        PartsMoved(turned, children, merged);
        SmallestIs(children, merged, m + 1, current);
      }
    }

    method Prev(ghost m: nat)
      requires Shaped() && IsValid()
      modifies this
      ensures Shaped() && (old(Sound() && At(m)) && m < |merged| ==>
        Sound() && (if m == 0 then !IsValid() else At(m - 1)))
    {
      hide Parts, Ahead;
      ghost var good := Sound() && At(m) && m < |merged|;
      ghost var before := children;
      var c := current.value;
      if forward {
        var k := Current(children[c]).ik;
        children := ForEach(children, Some(c), d => BeforeKey(d, k));
        if good { TurnsBack(before, children, merged, m, c, k); }
        forward := false;
      }
      if good {
        PartsMoved(before, children, merged);
        PrevBehind(children, merged, m, c);
      }
      ghost var turned := children;
      children := children[c := Cursors.Prev(children[c])];
      FindLargest();
      if good {
        PartsMoved(turned, children, merged);
        LargestIs(children, merged, m, current);
      }
    }
  }

  // Moving children does not change what they hold.
  lemma PartsMoved(a: seq<Cursor>, b: seq<Cursor>, merged: seq<Entry>)
    requires Parts(a, merged) && |a| == |b| && forall i :: 0 <= i < |a| ==> b[i].es == a[i].es
    ensures Parts(b, merged)
  {
    forall e | e in merged ensures exists i :: 0 <= i < |b| && e in b[i].es {
      var i :| 0 <= i < |a| && e in a[i].es;
      assert e in b[i].es;
    }
  }

  lemma FirstAhead(children: seq<Cursor>, merged: seq<Entry>)
    requires Parts(children, merged) && forall i :: 0 <= i < |children| ==> children[i].pos == 0
    ensures AllAhead(children, merged, 0)
  {
    hide Parts, Ahead;
    forall i | 0 <= i < |children| ensures Ahead(children[i].es, merged, 0) == 0 {
      PartsOf(children, merged, i);
      if |children[i].es| > 0 { var p := Place(children[i].es, merged, 0, 0); }
    }
  }

  lemma LastBehind(children: seq<Cursor>, merged: seq<Entry>)
    requires forall i :: 0 <= i < |children| ==> children[i] == Cursors.SeekToLast(children[i])
    ensures AllBehind(children, merged, |merged|)
  {
  }

  lemma TurnsForward(children: seq<Cursor>, turned: seq<Cursor>, merged: seq<Entry>, m: nat, c: nat, k: IKey)
    requires Parts(children, merged) && Standing(children, merged, m, c, false) && k == merged[m].ik
    requires |turned| == |children| && forall i :: 0 <= i < |children| ==>
      turned[i] == if i == c then children[i] else AfterKey(children[i], k)
    ensures Standing(turned, merged, m, c, true)
  {
    hide Parts, Ahead;
    forall i | 0 <= i < |children| && i != c
      ensures AfterKey(children[i], merged[m].ik).pos == Ahead(children[i].es, merged, m) &&
              AfterKey(children[i], merged[m].ik).es == children[i].es
    {
      PartsOf(children, merged, i);
      OnlyOne(children, merged, m, i, c);
      AfterKeyIs(children[i], merged, m);
    }
  }

  lemma TurnsBack(children: seq<Cursor>, turned: seq<Cursor>, merged: seq<Entry>, m: nat, c: nat, k: IKey)
    requires Parts(children, merged) && Standing(children, merged, m, c, true) && k == merged[m].ik
    requires |turned| == |children| && forall i :: 0 <= i < |children| ==>
      turned[i] == if i == c then children[i] else BeforeKey(children[i], k)
    ensures Standing(turned, merged, m, c, false)
  {
    hide Parts, Ahead;
    forall i | 0 <= i < |children| && i != c
      ensures BeforeKey(children[i], merged[m].ik).pos == Behind(children[i].es, merged, m) &&
              BeforeKey(children[i], merged[m].ik).es == children[i].es
    {
      PartsOf(children, merged, i);
      BeforeKeyIs(children[i], merged, m);
    }
  }
}
