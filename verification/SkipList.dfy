/**
  The concurrent skip list (db/skiplist.h): one writer, any number of lock-free
  readers, correct after every single pointer store.

  Nodes live in an arena that only grows; a pointer is an index into it, and
  node 0 is the head.  Paths record, level by level, the nodes that a walk from
  the head visits; PathIsUnique shows that the links determine them.
 */
module SkipList {
  import opened Basics

  type Id = nat
  type Key = int
  type Path = seq<Id>

  const MAX_HEIGHT: nat := 12
  const HEAD: Id := 0

  // One link per level the node takes part in.
  datatype Node = Node(key: Key, next: seq<Option<Id>>)

  datatype List = List(nodes: seq<Node>, maxHeight: nat)

  // What a search looks for: a key, or the end of the list.
  datatype Target = At(key: Key) | End

  // ---------------------------------------------------------------- levels

  ghost predicate InArena(nodes: seq<Node>, l: nat, path: Path) {
    forall i :: 0 <= i < |path| ==> path[i] < |nodes| && l < |nodes[path[i]].next|
  }

  ghost predicate LinkAt(nodes: seq<Node>, l: nat, path: Path, i: nat)
    requires i < |path| && path[i] < |nodes| && l < |nodes[path[i]].next|
  {
    nodes[path[i]].next[l] == if i + 1 < |path| then Some(path[i + 1]) else None
  }

  ghost predicate Links(nodes: seq<Node>, l: nat, path: Path)
    requires InArena(nodes, l, path)
  {
    forall i :: 0 <= i < |path| ==> LinkAt(nodes, l, path, i)
  }

  ghost predicate Ascending(nodes: seq<Node>, path: Path)
    requires InArena(nodes, 0, path)
  {
    && (forall i :: 0 < i < |path| ==> path[i] != HEAD)
    && (forall i, j :: 0 < i < j < |path| ==> nodes[path[i]].key < nodes[path[j]].key)
  }

  // path is the list of level l: from the head, strictly ascending, to the end.
  ghost predicate Chain(nodes: seq<Node>, l: nat, path: Path) {
    && |path| > 0 && path[0] == HEAD
    && InArena(nodes, l, path)
    && Links(nodes, l, path)
    && Ascending(nodes, path)
  }

  ghost predicate Contained(upper: Path, lower: Path) {
    forall x :: x in upper ==> x in lower
  }

  // Every level is a sorted list and is contained in the level below it.
  ghost predicate Valid(s: List, paths: seq<Path>) {
    && |paths| == MAX_HEIGHT && 1 <= s.maxHeight <= MAX_HEIGHT
    && (forall l :: 0 <= l < MAX_HEIGHT ==> Chain(s.nodes, l, paths[l]))
    && (forall l :: 0 < l < MAX_HEIGHT ==> Contained(paths[l], paths[l - 1]))
    && (forall l :: s.maxHeight <= l < MAX_HEIGHT ==> paths[l] == [HEAD])
  }

  // The keys held by a level.
  ghost function Keys(nodes: seq<Node>, path: Path): set<Key>
    requires InArena(nodes, 0, path)
  {
    set x | x in path && x != HEAD :: nodes[x].key
  }

  lemma {:induction false} PathIsUniqueFrom(nodes: seq<Node>, l: nat, a: Path, b: Path, i: nat)
    requires Chain(nodes, l, a) && Chain(nodes, l, b)
    requires i < |a| && i < |b| && a[..i + 1] == b[..i + 1]
    ensures a == b
    decreases |a| - i
  {
    assert a[i] == a[..i + 1][i] == b[i];
    assert LinkAt(nodes, l, a, i) && LinkAt(nodes, l, b, i);
    if i + 1 < |a| {
      assert a[..i + 2] == a[..i + 1] + [a[i + 1]] == b[..i + 2];
      PathIsUniqueFrom(nodes, l, a, b, i + 1);
    } else {
      assert a == a[..i + 1] && b == b[..i + 1];
    }
  }

  // The links determine what a walk visits.
  lemma PathIsUnique(nodes: seq<Node>, l: nat, a: Path, b: Path)
    requires Chain(nodes, l, a) && Chain(nodes, l, b)
    ensures a == b
  {
    assert a[..1] == [HEAD] == b[..1];
    PathIsUniqueFrom(nodes, l, a, b, 0);
  }

  // ---------------------------------------------------------------- positions

  predicate Before(nodes: seq<Node>, x: Id, t: Target)
    requires x < |nodes|
  {
    x == HEAD || t.End? || nodes[x].key < t.key
  }

  // r is the first node of the level that is not before the target.
  ghost predicate IsFirstFrom(nodes: seq<Node>, path: Path, t: Target, r: Option<Id>)
    requires InArena(nodes, 0, path)
  {
    match r
    case None => forall y :: y in path ==> Before(nodes, y, t)
    case Some(x) =>
      && x in path && !Before(nodes, x, t)
      && forall y :: y in path && !Before(nodes, y, t) ==> nodes[x].key <= nodes[y].key
  }

  // x is the last node of the level before the target, or the head.
  ghost predicate IsLastBefore(nodes: seq<Node>, path: Path, t: Target, x: Id)
    requires InArena(nodes, 0, path)
  {
    && x in path && Before(nodes, x, t)
    && forall y :: y in path && Before(nodes, y, t) && y != HEAD ==> x != HEAD && nodes[y].key <= nodes[x].key
  }

  // A link leads to the least node beyond the one it leaves.
  lemma Successor(nodes: seq<Node>, l: nat, path: Path, x: Id)
    requires Chain(nodes, l, path) && x in path
    ensures var n := nodes[x].next[l];
      && (n.Some? ==> n.value in path && n.value != HEAD && (x == HEAD || nodes[x].key < nodes[n.value].key))
      && forall y :: y in path && y != HEAD && (x == HEAD || nodes[x].key < nodes[y].key)
           ==> n.Some? && nodes[n.value].key <= nodes[y].key
  {
    var p :| 0 <= p < |path| && path[p] == x;
    assert LinkAt(nodes, l, path, p);
    forall y | y in path && y != HEAD && (x == HEAD || nodes[x].key < nodes[y].key)
      ensures nodes[x].next[l].Some? && nodes[nodes[x].next[l].value].key <= nodes[y].key
    {
      var q :| 0 <= q < |path| && path[q] == y;
      assert p < q;
    }
  }

  // A node before the target whose successor is not pins down both neighbours.
  lemma Neighbours(nodes: seq<Node>, l: nat, path: Path, x: Id, t: Target)
    requires Chain(nodes, l, path) && x in path && Before(nodes, x, t)
    requires nodes[x].next[l].Some? ==> nodes[x].next[l].value < |nodes| && !Before(nodes, nodes[x].next[l].value, t)
    ensures IsFirstFrom(nodes, path, t, nodes[x].next[l])
    ensures IsLastBefore(nodes, path, t, x)
  {
    Successor(nodes, l, path, x);
  }

  // ---------------------------------------------------------------- searching

  // NULL is considered infinite.
  predicate KeyIsAfterNode(nodes: seq<Node>, key: Key, n: Option<Id>)
    requires n.Some? ==> n.value < |nodes|
  {
    n.Some? && nodes[n.value].key < key
  }

  method FindGreaterOrEqual(s: List, key: Key, ghost paths: seq<Path>) returns (r: Option<Id>, prev: seq<Id>)
    requires Valid(s, paths)
    ensures IsFirstFrom(s.nodes, paths[0], At(key), r)
    ensures |prev| == s.maxHeight
    ensures forall l :: 0 <= l < s.maxHeight ==> IsLastBefore(s.nodes, paths[l], At(key), prev[l])
  {
    hide Chain, IsFirstFrom, IsLastBefore;
    prev := seq(s.maxHeight, _ => HEAD);
    var x := HEAD;
    var level := s.maxHeight - 1;
    HeadIsIn(s.nodes, level, paths[level]);
    while true
      invariant 0 <= level < s.maxHeight && |prev| == s.maxHeight
      invariant x in paths[level] && x < |s.nodes| && Before(s.nodes, x, At(key))
      invariant forall l :: level < l < s.maxHeight ==>
        InArena(s.nodes, 0, paths[l]) && IsLastBefore(s.nodes, paths[l], At(key), prev[l])
      decreases level, x == HEAD, key - s.nodes[x].key
    {
      assert InArena(s.nodes, level, paths[level]) by { HeadIsIn(s.nodes, level, paths[level]); }
      Successor(s.nodes, level, paths[level], x);
      var next := s.nodes[x].next[level];
      if KeyIsAfterNode(s.nodes, key, next) {
        x := next.value;
      } else {
        Neighbours(s.nodes, level, paths[level], x, At(key));
        prev := prev[level := x];
        if level == 0 {
          return next, prev;
        }
        assert Contained(paths[level], paths[level - 1]);
        level := level - 1;
      }
    }
  }

  lemma HeadIsIn(nodes: seq<Node>, l: nat, path: Path)
    requires Chain(nodes, l, path)
    ensures HEAD in path && InArena(nodes, l, path) && HEAD < |nodes|
  {
  }

  method FindLessThan(s: List, key: Key, ghost paths: seq<Path>) returns (x: Id)
    requires Valid(s, paths)
    ensures IsLastBefore(s.nodes, paths[0], At(key), x)
  {
    hide Chain, IsFirstFrom, IsLastBefore;
    x := HEAD;
    var level := s.maxHeight - 1;
    HeadIsIn(s.nodes, level, paths[level]);
    while true
      invariant 0 <= level < s.maxHeight
      invariant x in paths[level] && x < |s.nodes| && Before(s.nodes, x, At(key))
      decreases level, x == HEAD, key - s.nodes[x].key
    {
      HeadIsIn(s.nodes, level, paths[level]);
      Successor(s.nodes, level, paths[level], x);
      var next := s.nodes[x].next[level];
      if next == None || s.nodes[next.value].key >= key {
        if level == 0 {
          Neighbours(s.nodes, 0, paths[0], x, At(key));
          return;
        }
        assert Contained(paths[level], paths[level - 1]);
        level := level - 1;
      } else {
        x := next.value;
      }
    }
  }

  // The head if the list is empty.
  method FindLast(s: List, ghost paths: seq<Path>) returns (x: Id)
    requires Valid(s, paths)
    ensures IsLastBefore(s.nodes, paths[0], End, x)
  {
    hide Chain, IsFirstFrom, IsLastBefore;
    x := HEAD;
    var level := s.maxHeight - 1;
    HeadIsIn(s.nodes, level, paths[level]);
    ghost var last := MaxKey(s.nodes);
    while true
      invariant 0 <= level < s.maxHeight
      invariant x in paths[level] && x < |s.nodes|
      decreases level, x == HEAD, last - s.nodes[x].key
    {
      HeadIsIn(s.nodes, level, paths[level]);
      Successor(s.nodes, level, paths[level], x);
      var next := s.nodes[x].next[level];
      if next == None {
        if level == 0 {
          Neighbours(s.nodes, 0, paths[0], x, End);
          return;
        }
        assert Contained(paths[level], paths[level - 1]);
        level := level - 1;
      } else {
        x := next.value;
      }
    }
  }

  ghost function MaxKey(nodes: seq<Node>): (m: Key)
    ensures forall x :: 0 <= x < |nodes| ==> nodes[x].key <= m
  {
    if nodes == [] then 0
    else
      var m := MaxKey(nodes[..|nodes| - 1]);
      var k := nodes[|nodes| - 1].key;
      if m < k then k else m
  }
}
