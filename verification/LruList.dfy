/**
  The circular doubly linked list of util/cache.cc.  Node 0 is the dummy head;
  its next is the oldest entry and its prev the newest.
 */
module LruList {
  type Id = nat

  const HEAD: Id := 0

  datatype Links = Links(next: map<Id, Id>, prev: map<Id, Id>)

  ghost predicate NoDuplicates(ids: seq<Id>) {
    forall i, j :: 0 <= i < j < |ids| ==> ids[i] != ids[j]
  }

  // Once around: the head, oldest to newest, and the head again.
  function Around(order: seq<Id>): seq<Id> {
    [HEAD] + order + [HEAD]
  }

  ghost predicate Linked(l: Links, a: Id, b: Id) {
    a in l.next && b in l.prev && l.next[a] == b && l.prev[b] == a
  }

  ghost predicate IsRing(l: Links, order: seq<Id>) {
    && NoDuplicates(order) && HEAD !in order
    && forall i :: 0 <= i <= |order| ==> Linked(l, Around(order)[i], Around(order)[i + 1])
  }

  function Empty(): Links {
    Links(map[HEAD := HEAD], map[HEAD := HEAD])
  }

  // LRU_Remove: two stores.
  function Remove(l: Links, e: Id): Links
    requires e in l.next && e in l.prev
  {
    Links(l.next[l.prev[e] := l.next[e]], l.prev[l.next[e] := l.prev[e]])
  }

  // LRU_Append: four stores.
  function Append(l: Links, e: Id): Links
    requires HEAD in l.prev
  {
    var last := l.prev[HEAD];
    Links(l.next[e := HEAD][last := e], l.prev[e := last][HEAD := e])
  }

  function Without(order: seq<Id>, e: Id): seq<Id> {
    if order == [] then [] else if order[0] == e then order[1..] else [order[0]] + Without(order[1..], e)
  }

  lemma {:induction false} WithoutIs(order: seq<Id>, i: nat)
    requires NoDuplicates(order) && i < |order|
    ensures Without(order, order[i]) == order[..i] + order[i + 1..]
  {
    if i > 0 {
      WithoutIs(order[1..], i - 1);
      assert order[..i] == [order[0]] + order[1..][..i - 1] && order[1..][i..] == order[i + 1..];
    }
  }

  lemma {:induction false} WithoutAbsent(order: seq<Id>, e: Id)
    requires e !in order
    ensures Without(order, e) == order
  {
    if order != [] { WithoutAbsent(order[1..], e); }
  }

  lemma WithoutMembers(order: seq<Id>, e: Id)
    requires NoDuplicates(order)
    ensures NoDuplicates(Without(order, e)) && forall x :: x in Without(order, e) <==> x in order && x != e
  {
    if e in order {
      var i :| 0 <= i < |order| && order[i] == e;
      WithoutIs(order, i);
      hide Without;
      forall x ensures x in order[..i] + order[i + 1..] <==> x in order && x != e {
        if x in order && x != e {
          var j :| 0 <= j < |order| && order[j] == x;
          assert (order[..i] + order[i + 1..])[if j < i then j else j - 1] == x;
        }
      }
    } else {
      WithoutAbsent(order, e);
    }
  }

  lemma EmptyIsRing()
    ensures IsRing(Empty(), [])
  {
  }

  // No node is left or reached twice on the way around.
  lemma AroundDistinct(order: seq<Id>, i: nat, j: nat)
    requires NoDuplicates(order) && HEAD !in order && i <= |order| && j <= |order| && i != j
    ensures Around(order)[i] != Around(order)[j] && Around(order)[i + 1] != Around(order)[j + 1]
  {
    assert forall k :: 0 <= k < |order| ==> order[k] in order;
  }

  lemma InRing(l: Links, order: seq<Id>, e: Id)
    requires IsRing(l, order) && (e == HEAD || e in order)
    ensures e in l.next && e in l.prev
  {
    var around := Around(order);
    if e == HEAD {
      assert Linked(l, around[0], around[1]) && Linked(l, around[|order|], around[|order| + 1]);
    } else {
      var k :| 0 <= k < |order| && order[k] == e;
      assert around[k + 1] == e;
      assert Linked(l, around[k], around[k + 1]) && Linked(l, around[k + 1], around[k + 2]);
    }
  }

  // A link away from e survives its removal.
  lemma OtherLink(l: Links, a: Id, e: Id, b: Id, x: Id, y: Id)
    requires Linked(l, a, e) && Linked(l, e, b) && Linked(l, x, y) && x != a && y != b && e in l.next && e in l.prev
    ensures Linked(Remove(l, e), x, y)
  {
  }

  lemma RemoveLink(l: Links, order: seq<Id>, k: nat, i: nat)
    requires IsRing(l, order) && k < |order| && i < |order| && order[k] in l.next && order[k] in l.prev
    ensures var r := Remove(l, order[k]);
      if i < k then Linked(r, Around(order)[i], Around(order)[i + 1])
      else if i == k then Linked(r, Around(order)[k], Around(order)[k + 2])
      else Linked(r, Around(order)[i + 1], Around(order)[i + 2])
  {
    var around := Around(order);
    assert around[k + 1] == order[k];
    assert Linked(l, around[k], around[k + 1]) && Linked(l, around[k + 1], around[k + 2]);
    if i != k {
      var j := if i < k then i else i + 1;
      AroundDistinct(order, j, k);
      AroundDistinct(order, j, k + 1);
      assert Linked(l, around[j], around[j + 1]);
      hide Around, IsRing;
      OtherLink(l, around[k], around[k + 1], around[k + 2], around[j], around[j + 1]);
    }
  }

  lemma RemoveKeeps(l: Links, order: seq<Id>, e: Id)
    requires IsRing(l, order) && e in order && e in l.next && e in l.prev
    ensures IsRing(Remove(l, e), Without(order, e))
  {
    var k :| 0 <= k < |order| && order[k] == e;
    var rest := Without(order, e);
    WithoutMembers(order, e);
    WithoutIs(order, k);
    AroundWithout(order, k, e);
    hide Linked, Remove, Without;
    forall i | 0 <= i <= |rest| ensures Linked(Remove(l, e), Around(rest)[i], Around(rest)[i + 1]) {
      LinkAfterRemoval(l, order, k, e, i);
    }
  }

  lemma LinkAfterRemoval(l: Links, order: seq<Id>, k: nat, e: Id, i: nat)
    requires IsRing(l, order) && k < |order| && order[k] == e && e in l.next && e in l.prev
    requires i < |order| && Without(order, e) == order[..k] + order[k + 1..]
    ensures Linked(Remove(l, e), Around(Without(order, e))[i], Around(Without(order, e))[i + 1])
  {
    hide IsRing, Linked, Remove, Without;
    RemoveLink(l, order, k, i);
    AroundWithout(order, k, e);
  }

  lemma AroundWithout(order: seq<Id>, k: nat, e: Id)
    requires k < |order| && order[k] == e && Without(order, e) == order[..k] + order[k + 1..]
    ensures Around(Without(order, e)) == Around(order)[..k + 1] + Around(order)[k + 2..]
    ensures Around(order)[k + 1] == e && |Around(order)| == |order| + 2
  {
  }

  lemma AppendKeeps(l: Links, order: seq<Id>, e: Id)
    requires IsRing(l, order) && e != HEAD && e !in order && HEAD in l.prev
    ensures IsRing(Append(l, e), order + [e])
  {
    var (n, around, more) := (|order|, Around(order), Around(order + [e]));
    assert around[n + 1] == HEAD && Linked(l, around[n], around[n + 1]);
    assert forall i :: 0 <= i <= n ==> more[i] == around[i];
    assert more[n + 1] == e && more[n + 2] == HEAD;
    forall i | 0 <= i <= n + 1 ensures Linked(Append(l, e), more[i], more[i + 1]) {
      if i < n {
        assert Linked(l, around[i], around[i + 1]);
        AroundDistinct(order, i, n);
        assert around[i] != e && around[i + 1] != e by { NotAround(order, e, i); NotAround(order, e, i + 1); }
      }
    }
  }

  lemma NotAround(order: seq<Id>, e: Id, i: nat)
    requires e != HEAD && e !in order && i < |order| + 2
    ensures Around(order)[i] != e
  {
  }

  // The head's next is the oldest entry, if there is any.
  lemma OldestIs(l: Links, order: seq<Id>)
    requires IsRing(l, order)
    ensures HEAD in l.next && l.next[HEAD] == (if order == [] then HEAD else order[0]) &&
            (order != [] ==> order[0] != HEAD)
  {
    assert Linked(l, Around(order)[0], Around(order)[1]);
    if order != [] { assert order[0] in order; }
  }
}
