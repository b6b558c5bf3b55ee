/**
  Insert and the searches of db/skiplist.h, interleaved load by load and store
  by store.  A step is one pointer store of the writer or one pointer load of a
  reader.
 */
module SkipListSteps {
  import opened Basics
  import opened SkipList

  // Insert between its stores.  Linking: levels below `level` are linked; ready
  // says that the new node's own link of that level has been set.
  datatype Writer =
    | Resting
    | Found(key: Key, height: nat, prev: seq<Id>)
    | Linking(x: Id, prev: seq<Id>, level: nat, ready: bool)

  // A search between its loads.  present holds the keys of the list when the
  // search began.  A finished search keeps the last node it stood on and the
  // link it read there: the results of FindLessThan and of FindGreaterOrEqual.
  datatype Reader =
    | Walking(target: Target, present: set<Key>, x: Id, level: nat)
    | Finished(target: Target, present: set<Key>, before: Id, from: Option<Id>)

  datatype State = State(list: List, writer: Writer, readers: map<nat, Reader>)

  datatype Action =
    | Find(key: Key, height: nat, prev: seq<Id>)
    | NewNode
    | SetOwnLink
    | Publish
    | Start(reader: nat, target: Target, height: nat, present: set<Key>)
    | Load(reader: nat)

  // ---------------------------------------------------------------- stores

  function Store(nodes: seq<Node>, x: Id, l: nat, link: Option<Id>): seq<Node>
    requires x < |nodes| && l < |nodes[x].next|
  {
    nodes[x := nodes[x].(next := nodes[x].next[l := link])]
  }

  ghost function Linked(path: Path, p: nat, x: Id): Path
    requires p < |path|
  {
    path[..p + 1] + [x] + path[p + 1..]
  }

  // A store to another level, or to a node that is not on the path, is unseen.
  lemma StoreElsewhere(nodes: seq<Node>, x: Id, l: nat, link: Option<Id>, m: nat, path: Path)
    requires x < |nodes| && l < |nodes[x].next|
    requires Chain(nodes, m, path) && (l != m || x !in path)
    ensures Chain(Store(nodes, x, l, link), m, path)
  {
    var after := Store(nodes, x, l, link);
    forall i | 0 <= i < |path| ensures path[i] < |after| && |after[path[i]].next| == |nodes[path[i]].next|
                            && LinkAt(after, m, path, i) && after[path[i]].key == nodes[path[i]].key {
      assert LinkAt(nodes, m, path, i);
    }
  }

  // Growing the arena is unseen.
  lemma Allocate(nodes: seq<Node>, n: Node, m: nat, path: Path)
    requires Chain(nodes, m, path)
    ensures Chain(nodes + [n], m, path)
  {
    forall i | 0 <= i < |path| ensures LinkAt(nodes + [n], m, path, i) {
      assert LinkAt(nodes, m, path, i);
    }
  }

  lemma LinkedAt(path: Path, p: nat, x: Id)
    requires p < |path|
    ensures |Linked(path, p, x)| == |path| + 1
    ensures forall i :: 0 <= i <= |path| ==>
      Linked(path, p, x)[i] == if i <= p then path[i] else if i == p + 1 then x else path[i - 1]
    ensures forall y :: y in Linked(path, p, x) <==> y == x || y in path
  {
    var linked := Linked(path, p, x);
    assert linked[p + 1] == x;
    forall y | y in path ensures y in linked {
      var i :| 0 <= i < |path| && path[i] == y;
      assert linked[if i <= p then i else i + 1] == y;
    }
  }

  lemma LinkedLinks(nodes: seq<Node>, l: nat, path: Path, p: nat, x: Id)
    requires InArena(nodes, l, path) && Links(nodes, l, path) && p < |path| && x < |nodes| && x !in path &&
             l < |nodes[x].next|
    requires forall i, j :: 0 <= i < j < |path| ==> path[i] != path[j]
    requires nodes[x].next[l] == nodes[path[p]].next[l]
    ensures InArena(Store(nodes, path[p], l, Some(x)), l, Linked(path, p, x))
    ensures Links(Store(nodes, path[p], l, Some(x)), l, Linked(path, p, x))
  {
    LinkedAt(path, p, x);
    var after := Store(nodes, path[p], l, Some(x));
    var linked := Linked(path, p, x);
    forall i | 0 <= i < |linked| ensures LinkAt(after, l, linked, i) {
      if i < p {
        assert LinkAt(nodes, l, path, i);
        assert linked[i] == path[i] && linked[i + 1] == path[i + 1] && path[i] != path[p];
      } else if i == p {
        assert linked[i] == path[p] && linked[i + 1] == x;
      } else if i == p + 1 {
        assert LinkAt(nodes, l, path, p);
        assert linked[i] == x && nodes[x].next[l] == nodes[path[p]].next[l];
        assert i + 1 < |linked| ==> linked[i + 1] == path[p + 1];
      } else {
        assert LinkAt(nodes, l, path, i - 1);
        assert linked[i] == path[i - 1] && path[i - 1] != path[p];
        assert i + 1 < |linked| ==> linked[i + 1] == path[i];
      }
    }
  }

  lemma LinkedAscending(nodes: seq<Node>, path: Path, p: nat, x: Id)
    requires InArena(nodes, 0, path) && Ascending(nodes, path) && p < |path| && x < |nodes| && x != HEAD &&
             |nodes[x].next| > 0
    requires p == 0 || nodes[path[p]].key < nodes[x].key
    requires forall i :: p < i < |path| ==> nodes[x].key < nodes[path[i]].key
    ensures InArena(nodes, 0, Linked(path, p, x))
    ensures Ascending(nodes, Linked(path, p, x))
  {
    LinkedAt(path, p, x);
  }

  // The publishing store inserts the node into its level.
  lemma PublishLevel(nodes: seq<Node>, l: nat, path: Path, p: nat, x: Id)
    requires x != HEAD && p < |path| && Unlinked(nodes, l, path, x, path[p]) && l < |nodes[x].next|
    requires nodes[x].next[l] == nodes[path[p]].next[l]
    ensures Chain(Store(nodes, path[p], l, Some(x)), l, Linked(path, p, x))
  {
    forall i | p < i < |path| ensures nodes[x].key < nodes[path[i]].key {
      assert !Before(nodes, path[i], At(nodes[x].key));
    }
    LinkedAscending(nodes, path, p, x);
    LinkedLinks(nodes, l, path, p, x);
    LinkedAt(path, p, x);
  }

  // ---------------------------------------------------------------- invariant

  // What the writer relies on at a level it has not linked yet.
  ghost predicate Unlinked(nodes: seq<Node>, l: nat, path: Path, x: Id, prev: Id) {
    && Chain(nodes, l, path) && x < |nodes| && x !in path
    && IsLastBefore(nodes, path, At(nodes[x].key), prev)
    && (forall y :: y in path && y != HEAD ==> nodes[y].key != nodes[x].key)
  }

  ghost predicate WriterOk(s: List, w: Writer, paths: seq<Path>)
    requires Valid(s, paths)
  {
    match w
    case Resting => true
    case Found(key, height, prev) =>
      && 0 < height <= MAX_HEIGHT && |prev| == height
      && forall l :: 0 <= l < height ==>
           IsLastBefore(s.nodes, paths[l], At(key), prev[l]) && key !in Keys(s.nodes, paths[l])
    case Linking(x, prev, level, ready) =>
      && x != HEAD && x < |s.nodes| && level < |prev| == |s.nodes[x].next| <= s.maxHeight
      && (forall l :: 0 <= l < level ==> x in paths[l])
      && (forall l :: level <= l < |prev| ==> Unlinked(s.nodes, l, paths[l], x, prev[l]))
      && (forall l :: |prev| <= l < MAX_HEIGHT ==> x !in paths[l])
      && (ready ==> s.nodes[x].next[level] == s.nodes[prev[level]].next[level])
  }

  ghost predicate ReaderOk(s: List, r: Reader, paths: seq<Path>)
    requires Valid(s, paths)
  {
    && r.present <= Keys(s.nodes, paths[0])
    && match r
       case Walking(target, _, x, level) =>
         level < s.maxHeight && x in paths[level] && Before(s.nodes, x, target)
       case Finished(target, present, before, from) =>
         && before in paths[0] && Before(s.nodes, before, target)
         && (from.Some? ==> from.value in paths[0] && !Before(s.nodes, from.value, target))
         && (forall k :: k in present && target.At? && target.key <= k ==>
               from.Some? && s.nodes[from.value].key <= k)
         && (forall k :: k in present && (target.End? || k < target.key) ==>
               before != HEAD && k <= s.nodes[before].key)
  }

  ghost predicate Inv(s: State, paths: seq<Path>) {
    && Valid(s.list, paths)
    && WriterOk(s.list, s.writer, paths)
    && forall r :: r in s.readers ==> ReaderOk(s.list, s.readers[r], paths)
  }

  // ---------------------------------------------------------------- steps

  // What FindGreaterOrEqual and the loop after it leave in prev: the last node
  // before the key on every level in use and the head on every new one.
  ghost predicate Searched(s: List, key: Key, height: nat, prev: seq<Id>, paths: seq<Path>) {
    && Valid(s, paths) && 0 < height <= MAX_HEIGHT && |prev| == height
    && (forall l :: 0 <= l < height && l < s.maxHeight ==> IsLastBefore(s.nodes, paths[l], At(key), prev[l]))
    && (forall l :: s.maxHeight <= l < height ==> prev[l] == HEAD)
    && key !in Keys(s.nodes, paths[0])
  }

  ghost predicate HoldsKeys(nodes: seq<Node>, path: Path, keys: set<Key>) {
    Chain(nodes, 0, path) && Keys(nodes, path) == keys
  }

  // A search moves on to a node that is before its target; NULL is infinite.
  predicate MovesTo(nodes: seq<Node>, t: Target, n: Option<Id>)
    requires n.Some? ==> n.value < |nodes|
  {
    n.Some? && (t.End? || KeyIsAfterNode(nodes, t.key, n))
  }

  predicate LinkExists(nodes: seq<Node>, x: Id, l: nat) {
    x < |nodes| && l < |nodes[x].next| && (nodes[x].next[l].Some? ==> nodes[x].next[l].value < |nodes|)
  }

  ghost predicate Enabled(s: State, a: Action) {
    match a
    case Find(key, height, prev) => s.writer.Resting? && exists paths :: Searched(s.list, key, height, prev, paths)
    case NewNode => s.writer.Found?
    case SetOwnLink =>
      var w := s.writer;
      && w.Linking? && !w.ready && w.level < |w.prev| && LinkExists(s.list.nodes, w.prev[w.level], w.level)
      && w.x < |s.list.nodes| && w.level < |s.list.nodes[w.x].next|
    case Publish =>
      var w := s.writer;
      w.Linking? && w.ready && w.level < |w.prev| && LinkExists(s.list.nodes, w.prev[w.level], w.level)
    case Start(_, _, height, present) =>
      0 < height <= s.list.maxHeight && exists path :: HoldsKeys(s.list.nodes, path, present)
    case Load(r) =>
      r in s.readers && s.readers[r].Walking? && LinkExists(s.list.nodes, s.readers[r].x, s.readers[r].level)
  }

  function LoadLink(nodes: seq<Node>, r: Reader): Reader
    requires r.Walking? && LinkExists(nodes, r.x, r.level)
  {
    var next := nodes[r.x].next[r.level];
    if MovesTo(nodes, r.target, next) then r.(x := next.value)
    else if r.level == 0 then Finished(r.target, r.present, r.x, next)
    else r.(level := r.level - 1)
  }

  function Step(s: State, a: Action): State
    requires Enabled(s, a)
  {
    var (nodes, w) := (s.list.nodes, s.writer);
    match a
    case Find(key, height, prev) => s.(writer := Found(key, height, prev))
    case NewNode =>
      var height := if s.list.maxHeight < w.height then w.height else s.list.maxHeight;
      State(List(nodes + [Node(w.key, seq(w.height, _ => None))], height), Linking(|nodes|, w.prev, 0, false),
        s.readers)
    case SetOwnLink =>
      var link := nodes[w.prev[w.level]].next[w.level];
      State(s.list.(nodes := Store(nodes, w.x, w.level, link)), w.(ready := true), s.readers)
    case Publish =>
      var after := s.list.(nodes := Store(nodes, w.prev[w.level], w.level, Some(w.x)));
      State(after, if w.level + 1 == |w.prev| then Resting else w.(level := w.level + 1, ready := false), s.readers)
    case Start(r, target, height, present) =>
      s.(readers := s.readers[r := Walking(target, present, HEAD, height - 1)])
    case Load(r) => s.(readers := s.readers[r := LoadLink(nodes, s.readers[r])])
  }

  // ---------------------------------------------------------------- preservation

  // Nothing that was linked is unlinked and no key changes.
  ghost predicate Grows(s: List, paths: seq<Path>, t: List, after: seq<Path>) {
    && |s.nodes| <= |t.nodes| && s.maxHeight <= t.maxHeight && |paths| == |after|
    && (forall x :: 0 <= x < |s.nodes| ==> t.nodes[x].key == s.nodes[x].key)
    && (forall l :: 0 <= l < |paths| ==> Contained(paths[l], after[l]))
  }

  lemma ReaderKept(s: List, paths: seq<Path>, t: List, after: seq<Path>, r: Reader)
    requires Valid(s, paths) && Valid(t, after) && Grows(s, paths, t, after) && ReaderOk(s, r, paths)
    ensures ReaderOk(t, r, after)
  {
    hide Links, Ascending;
    assert Chain(s.nodes, 0, paths[0]) && Contained(paths[0], after[0]);
    forall k | k in Keys(s.nodes, paths[0]) ensures k in Keys(t.nodes, after[0]) {
      var x :| x in paths[0] && x != HEAD && s.nodes[x].key == k;
      assert x in after[0] && t.nodes[x].key == k;
    }
    if r.Walking? {
      assert Chain(s.nodes, r.level, paths[r.level]) && Contained(paths[r.level], after[r.level]);
    }
  }

  lemma NewNodeKeeps(s: State, paths: seq<Path>)
    requires Inv(s, paths) && Enabled(s, NewNode)
    ensures Valid(Step(s, NewNode).list, paths)
    ensures WriterOk(Step(s, NewNode).list, Step(s, NewNode).writer, paths)
  {
    hide Links, Ascending;
    var t := Step(s, NewNode);
    var w := s.writer;
    var n := t.list.nodes[|s.list.nodes|];
    forall l | 0 <= l < MAX_HEIGHT ensures Chain(t.list.nodes, l, paths[l]) {
      Allocate(s.list.nodes, n, l, paths[l]);
    }
    assert HEAD in paths[0];
    forall l | 0 <= l < |w.prev| ensures Unlinked(t.list.nodes, l, paths[l], |s.list.nodes|, w.prev[l]) {
      assert Chain(s.list.nodes, l, paths[l]);
      forall y | y in paths[l] && y != HEAD ensures t.list.nodes[y].key != n.key {
        assert s.list.nodes[y].key in Keys(s.list.nodes, paths[l]);
      }
    }
    forall l | 0 <= l < MAX_HEIGHT ensures |s.list.nodes| !in paths[l] {
      assert Chain(s.list.nodes, l, paths[l]);
    }
  }

  lemma StoredUnlinked(nodes: seq<Node>, y: Id, l: nat, link: Option<Id>, m: nat, path: Path, x: Id, prev: Id)
    requires y < |nodes| && l < |nodes[y].next|
    requires Unlinked(nodes, m, path, x, prev) && (l != m || y !in path)
    ensures Unlinked(Store(nodes, y, l, link), m, path, x, prev)
  {
    StoreElsewhere(nodes, y, l, link, m, path);
    hide Links, Ascending;
  }

  lemma SetOwnLinkKeeps(s: State, paths: seq<Path>)
    requires Inv(s, paths) && Enabled(s, SetOwnLink)
    ensures Valid(Step(s, SetOwnLink).list, paths)
    ensures WriterOk(Step(s, SetOwnLink).list, Step(s, SetOwnLink).writer, paths)
  {
    hide Links, Ascending, Unlinked, Chain;
    var t := Step(s, SetOwnLink);
    var w := s.writer;
    var link := s.list.nodes[w.prev[w.level]].next[w.level];
    forall l | w.level <= l < |w.prev| ensures w.x !in paths[l] && Unlinked(t.list.nodes, l, paths[l], w.x, w.prev[l]) {
      UnlinkedAbsent(s.list.nodes, l, paths[l], w.x, w.prev[l]);
      StoredUnlinked(s.list.nodes, w.x, w.level, link, l, paths[l], w.x, w.prev[l]);
    }
    forall l | 0 <= l < MAX_HEIGHT ensures Chain(t.list.nodes, l, paths[l]) {
      StoreElsewhere(s.list.nodes, w.x, w.level, link, l, paths[l]);
    }
    UnlinkedAbsent(s.list.nodes, w.level, paths[w.level], w.x, w.prev[w.level]);
  }

  lemma UnlinkedAbsent(nodes: seq<Node>, l: nat, path: Path, x: Id, prev: Id)
    requires Unlinked(nodes, l, path, x, prev)
    ensures x !in path && prev in path && prev != x
  {
  }

  ghost function Published(paths: seq<Path>, w: Writer): (after: seq<Path>)
    requires w.Linking? && w.level < |w.prev| && w.level < |paths| && w.prev[w.level] in paths[w.level]
    ensures |after| == |paths|
    ensures forall l :: 0 <= l < |paths| && l != w.level ==> after[l] == paths[l]
    ensures forall y :: y in after[w.level] <==> y == w.x || y in paths[w.level]
  {
    var p :| 0 <= p < |paths[w.level]| && paths[w.level][p] == w.prev[w.level];
    LinkedAt(paths[w.level], p, w.x);
    paths[w.level := Linked(paths[w.level], p, w.x)]
  }

  lemma PublishChains(s: State, paths: seq<Path>)
    requires Inv(s, paths) && Enabled(s, Publish)
    ensures var w := s.writer;
      && w.level < |paths| && w.prev[w.level] in paths[w.level]
      && forall l :: 0 <= l < MAX_HEIGHT ==> Chain(Step(s, Publish).list.nodes, l, Published(paths, w)[l])
  {
    hide Links, Ascending;
    var t := Step(s, Publish);
    var w := s.writer;
    assert Unlinked(s.list.nodes, w.level, paths[w.level], w.x, w.prev[w.level]);
    var after := Published(paths, w);
    forall l | 0 <= l < MAX_HEIGHT ensures Chain(t.list.nodes, l, after[l]) {
      hide Chain;
      if l == w.level {
        var p :| 0 <= p < |paths[l]| && paths[l][p] == w.prev[l] && after[l] == Linked(paths[l], p, w.x);
        PublishLevel(s.list.nodes, l, paths[l], p, w.x);
      } else {
        StoreElsewhere(s.list.nodes, w.prev[w.level], w.level, Some(w.x), l, paths[l]);
      }
    }
  }

  lemma PublishKeeps(s: State, paths: seq<Path>)
    requires Inv(s, paths) && Enabled(s, Publish)
    ensures var w := s.writer;
      && w.level < |paths| && w.prev[w.level] in paths[w.level]
      && Valid(Step(s, Publish).list, Published(paths, w))
      && WriterOk(Step(s, Publish).list, Step(s, Publish).writer, Published(paths, w))
  {
    hide Chain, Unlinked;
    PublishChains(s, paths);
    var t := Step(s, Publish);
    var w := s.writer;
    var after := Published(paths, w);
    assert Valid(t.list, after);
    forall l | w.level < l < |w.prev| ensures Unlinked(t.list.nodes, l, after[l], w.x, w.prev[l]) {
      StoredUnlinked(s.list.nodes, w.prev[w.level], w.level, Some(w.x), l, paths[l], w.x, w.prev[l]);
    }
  }

  lemma SamePaths(s: List, a: seq<Path>, b: seq<Path>)
    requires Valid(s, a) && Valid(s, b)
    ensures a == b
  {
    hide Chain;
    forall l | 0 <= l < MAX_HEIGHT ensures a[l] == b[l] {
      PathIsUnique(s.nodes, l, a[l], b[l]);
    }
  }

  lemma FewerAbove(s: List, paths: seq<Path>, l: nat)
    requires Valid(s, paths) && l < MAX_HEIGHT
    ensures Contained(paths[l], paths[0])
  {
    if l > 0 {
      FewerAbove(s, paths, l - 1);
      assert Contained(paths[l], paths[l - 1]);
    }
  }

  lemma FindKeeps(s: State, paths: seq<Path>, key: Key, height: nat, prev: seq<Id>)
    requires Inv(s, paths) && Enabled(s, Find(key, height, prev))
    ensures WriterOk(s.list, Found(key, height, prev), paths)
  {
    hide Links, Ascending;
    var found :| Searched(s.list, key, height, prev, found);
    SamePaths(s.list, found, paths);
    forall l | 0 <= l < height
      ensures IsLastBefore(s.list.nodes, paths[l], At(key), prev[l]) && key !in Keys(s.list.nodes, paths[l])
    {
      FewerAbove(s.list, paths, l);
      assert Chain(s.list.nodes, l, paths[l]);
    }
  }

  // A search that starts is in order, and one load keeps it so.
  lemma StartKeeps(s: State, paths: seq<Path>, r: nat, target: Target, height: nat, present: set<Key>)
    requires Inv(s, paths) && Enabled(s, Start(r, target, height, present))
    ensures ReaderOk(s.list, Walking(target, present, HEAD, height - 1), paths)
  {
    var path :| HoldsKeys(s.list.nodes, path, present);
    PathIsUnique(s.list.nodes, 0, path, paths[0]);
    HeadIsIn(s.list.nodes, height - 1, paths[height - 1]);
  }

  // The last load of a search fixes its answer: at that moment it is exactly
  // where the target belongs in the list.
  lemma LoadFinishes(s: List, paths: seq<Path>, r: Reader)
    requires Valid(s, paths) && ReaderOk(s, r, paths) && r.Walking? && LinkExists(s.nodes, r.x, r.level)
    requires LoadLink(s.nodes, r).Finished?
    ensures IsFirstFrom(s.nodes, paths[0], r.target, LoadLink(s.nodes, r).from)
    ensures IsLastBefore(s.nodes, paths[0], r.target, LoadLink(s.nodes, r).before)
  {
    hide Links, Ascending;
    assert Chain(s.nodes, 0, paths[0]);
    Successor(s.nodes, 0, paths[0], r.x);
    Neighbours(s.nodes, 0, paths[0], r.x, r.target);
  }

  lemma LoadKeeps(s: List, paths: seq<Path>, r: Reader)
    requires Valid(s, paths) && ReaderOk(s, r, paths) && r.Walking? && LinkExists(s.nodes, r.x, r.level)
    ensures ReaderOk(s, LoadLink(s.nodes, r), paths)
  {
    hide Links, Ascending;
    assert Chain(s.nodes, r.level, paths[r.level]);
    Successor(s.nodes, r.level, paths[r.level], r.x);
    var t := LoadLink(s.nodes, r);
    if t.Finished? {
      LoadFinishes(s, paths, r);
    } else if t.level < r.level {
      assert Contained(paths[r.level], paths[t.level]);
    }
  }

  // No step ever meets a dangling link: a started insertion and a started
  // search can always go on.
  lemma NeverStuck(s: State, paths: seq<Path>)
    requires Inv(s, paths)
    ensures s.writer.Linking? ==> Enabled(s, if s.writer.ready then Publish else SetOwnLink)
    ensures forall r :: r in s.readers && s.readers[r].Walking? ==> Enabled(s, Load(r))
  {
    hide Links, Ascending;
    var w := s.writer;
    if w.Linking? {
      assert Unlinked(s.list.nodes, w.level, paths[w.level], w.x, w.prev[w.level]);
      Successor(s.list.nodes, w.level, paths[w.level], w.prev[w.level]);
    }
    forall r | r in s.readers && s.readers[r].Walking? ensures Enabled(s, Load(r)) {
      assert ReaderOk(s.list, s.readers[r], paths);
      var level := s.readers[r].level;
      assert Chain(s.list.nodes, level, paths[level]);
      Successor(s.list.nodes, level, paths[level], s.readers[r].x);
    }
  }

  ghost function PathsAfter(s: State, a: Action, paths: seq<Path>): seq<Path>
    requires Inv(s, paths) && Enabled(s, a)
  {
    if a.Publish? then PublishKeeps(s, paths); Published(paths, s.writer) else paths
  }

  lemma StepKeepsInv(s: State, a: Action, paths: seq<Path>)
    requires Inv(s, paths) && Enabled(s, a)
    ensures Inv(Step(s, a), PathsAfter(s, a, paths))
    ensures Grows(s.list, paths, Step(s, a).list, PathsAfter(s, a, paths))
  {
    hide Chain, ReaderOk, WriterOk;
    var t := Step(s, a);
    var after := PathsAfter(s, a, paths);
    match a {
      case Find(key, height, prev) => FindKeeps(s, paths, key, height, prev);
      case NewNode => NewNodeKeeps(s, paths);
      case SetOwnLink => SetOwnLinkKeeps(s, paths);
      case Publish => PublishKeeps(s, paths);
      case Start(r, target, height, present) => StartKeeps(s, paths, r, target, height, present);
      case Load(r) => LoadKeeps(s.list, paths, s.readers[r]);
    }
    assert Valid(t.list, after) && Grows(s.list, paths, t.list, after);
    forall r | r in t.readers ensures ReaderOk(t.list, t.readers[r], after) {
      if r in s.readers && s.readers[r] == t.readers[r] {
        ReaderKept(s.list, paths, t.list, after, s.readers[r]);
      }
    }
  }

  // ---------------------------------------------------------------- whole runs

  function Empty(): List {
    List([Node(0, seq(MAX_HEIGHT, _ => None))], 1)
  }

  ghost predicate Run(states: seq<State>, actions: seq<Action>) {
    && |states| == |actions| + 1 && states[0] == State(Empty(), Resting, map[])
    && forall i :: 0 <= i < |actions| ==> Enabled(states[i], actions[i]) && states[i + 1] == Step(states[i], actions[i])
  }

  // After any interleaving of single loads and stores, every level is sorted
  // and contained in the one below, and every reader is in order.
  lemma {:induction false} RunKeepsInv(states: seq<State>, actions: seq<Action>) returns (paths: seq<Path>)
    requires Run(states, actions)
    ensures Inv(states[|actions|], paths)
  {
    if actions == [] {
      paths := seq(MAX_HEIGHT, _ => [HEAD]);
    } else {
      var n := |actions| - 1;
      var (ss, aa) := (states[..n + 1], actions[..n]);
      assert forall i :: 0 <= i <= n ==> ss[i] == states[i];
      var before := RunKeepsInv(ss, aa);
      StepKeepsInv(states[n], actions[n], before);
      paths := PathsAfter(states[n], actions[n], before);
    }
  }

  // A search overtaken by any number of insertions never misses a key that was
  // there when it began, and what it reports is in the list.
  lemma SearchesNeverMiss(states: seq<State>, actions: seq<Action>, r: nat) returns (path: Path)
    requires Run(states, actions)
    requires r in states[|actions|].readers && states[|actions|].readers[r].Finished?
    ensures var (nodes, f) := (states[|actions|].list.nodes, states[|actions|].readers[r]);
      && Chain(nodes, 0, path) && f.before in path && Before(nodes, f.before, f.target)
      && (f.from.Some? ==> f.from.value in path && !Before(nodes, f.from.value, f.target))
      && (forall k :: k in f.present && f.target.At? && f.target.key <= k ==>
            f.from.Some? && nodes[f.from.value].key <= k)
      && (forall k :: k in f.present && (f.target.End? || k < f.target.key) ==>
            f.before != HEAD && k <= nodes[f.before].key)
  {
    var paths := RunKeepsInv(states, actions);
    path := paths[0];
    assert ReaderOk(states[|actions|].list, states[|actions|].readers[r], paths);
  }

  // ---------------------------------------------------------------- what was inserted

  // From the actions alone: a key is in the list from the first publication of its
  // insertion on, the one at level zero.
  function InsertedBy(actions: seq<Action>): (set<Key>, Option<Key>) {
    if actions == [] then ({}, None)
    else
      var ((keys, pending), a) := (InsertedBy(actions[..|actions| - 1]), actions[|actions| - 1]);
      if a.Find? then (keys, Some(a.key))
      else if a.Publish? && pending.Some? then (keys + {pending.value}, None)
      else (keys, pending)
  }

  ghost predicate PendingIs(nodes: seq<Node>, w: Writer, pending: Option<Key>) {
    match w
    case Resting => pending.None?
    case Found(key, _, _) => pending == Some(key)
    case Linking(x, _, level, _) =>
      if level == 0 then x < |nodes| && pending == Some(nodes[x].key) else pending.None?
  }

  lemma SameKeys(nodes: seq<Node>, after: seq<Node>, path: Path)
    requires InArena(nodes, 0, path) && InArena(after, 0, path) && |nodes| <= |after|
    requires forall x :: 0 <= x < |nodes| ==> after[x].key == nodes[x].key
    ensures Keys(after, path) == Keys(nodes, path)
  {
    assert forall x :: x in path ==> x < |nodes|;
  }

  lemma StepInserts(s: State, a: Action, paths: seq<Path>, keys: set<Key>, pending: Option<Key>)
    requires Inv(s, paths) && Enabled(s, a) && Keys(s.list.nodes, paths[0]) == keys
    requires PendingIs(s.list.nodes, s.writer, pending)
    ensures var (t, after) := (Step(s, a), PathsAfter(s, a, paths));
            && InArena(t.list.nodes, 0, after[0])
            && Keys(t.list.nodes, after[0]) ==
               (if a.Publish? && pending.Some? then keys + {pending.value} else keys)
            && PendingIs(t.list.nodes, t.writer,
                         if a.Find? then Some(a.key) else if a.Publish? then None else pending)
  {
    hide Ascending, Links, WriterOk, ReaderOk, Published;
    StepKeepsInv(s, a, paths);
    var (t, after) := (Step(s, a), PathsAfter(s, a, paths));
    assert Chain(s.list.nodes, 0, paths[0]) && Chain(t.list.nodes, 0, after[0]);
    if a.Publish? {
      PublishKeeps(s, paths);
      if s.writer.level == 0 {
        assert s.writer.x != HEAD by { LinkingNode(s, paths); }
        KeysMore(s.list.nodes, t.list.nodes, paths[0], after[0], s.writer.x);
      } else {
        SameKeys(s.list.nodes, t.list.nodes, paths[0]);
      }
    } else {
      SameKeys(s.list.nodes, t.list.nodes, paths[0]);
    }
  }

  lemma LinkingNode(s: State, paths: seq<Path>)
    requires Inv(s, paths) && s.writer.Linking?
    ensures s.writer.x != HEAD && s.writer.x < |s.list.nodes|
  {
  }

  lemma KeysMore(nodes: seq<Node>, after: seq<Node>, path: Path, longer: Path, x: Id)
    requires InArena(nodes, 0, path) && InArena(after, 0, longer) && |nodes| <= |after| && x != HEAD && x < |nodes|
    requires forall y :: 0 <= y < |nodes| ==> after[y].key == nodes[y].key
    requires forall y :: y in longer <==> y == x || y in path
    ensures Keys(after, longer) == Keys(nodes, path) + {nodes[x].key}
  {
    assert forall y :: y in path ==> y < |nodes|;
    assert x in longer;
  }

  // At every moment the list holds exactly the keys whose insertion got as far as
  // level zero.
  lemma {:induction false} KeysAreInserted(states: seq<State>, actions: seq<Action>) returns (paths: seq<Path>)
    requires Run(states, actions)
    ensures Inv(states[|actions|], paths)
    ensures Keys(states[|actions|].list.nodes, paths[0]) == InsertedBy(actions).0
    ensures PendingIs(states[|actions|].list.nodes, states[|actions|].writer, InsertedBy(actions).1)
  {
    hide Enabled, Step, WriterOk, ReaderOk, Keys;
    if actions == [] {
      paths := RunKeepsInv(states, actions);
      EmptyKeys(states[0], paths);
    } else {
      var n := |actions| - 1;
      var (ss, aa) := (states[..n + 1], actions[..n]);
      assert forall i :: 0 <= i <= n ==> ss[i] == states[i];
      var before := KeysAreInserted(ss, aa);
      StepKeepsInv(states[n], actions[n], before);
      StepInserts(states[n], actions[n], before, InsertedBy(aa).0, InsertedBy(aa).1);
      paths := PathsAfter(states[n], actions[n], before);
    }
  }

  lemma EmptyKeys(s: State, paths: seq<Path>)
    requires s == State(Empty(), Resting, map[]) && Inv(s, paths)
    ensures Keys(s.list.nodes, paths[0]) == {}
  {
    var path := paths[0];
    assert Chain(s.list.nodes, 0, path);
    assert forall x :: x in path ==> x == HEAD;
  }

  // A search for a key that was in the list when the search began ends at it,
  // whatever was inserted meanwhile.
  lemma SearchFindsKey(states: seq<State>, actions: seq<Action>, i: nat, r: nat, k: Key)
    requires Run(states, actions) && i < |actions| && actions[i].Start? && actions[i].reader == r
    requires actions[i].target == At(k) && k in InsertedBy(actions[..i]).0
    requires forall j :: i < j < |actions| && actions[j].Start? ==> actions[j].reader != r
    requires r in states[|actions|].readers && states[|actions|].readers[r].Finished?
    ensures var (nodes, f) := (states[|actions|].list.nodes, states[|actions|].readers[r]);
            f.from.Some? && f.from.value < |nodes| && nodes[f.from.value].key == k
  {
    hide Enabled, Step, Chain, Keys, Inv;
    StartSees(states, actions, i);
    ReaderKeeps(states, actions, i, |actions|);
    var path := SearchesNeverMiss(states, actions, r);
    FromInArena(states[|actions|].list.nodes, path, states[|actions|].readers[r]);
  }

  lemma FromInArena(nodes: seq<Node>, path: Path, f: Reader)
    requires f.Finished? && Chain(nodes, 0, path) && (f.from.Some? ==> f.from.value in path)
    ensures f.from.Some? ==> f.from.value < |nodes|
  {
  }

  // A search takes note of exactly the keys in the list when it begins.
  lemma StartSees(states: seq<State>, actions: seq<Action>, i: nat)
    requires Run(states, actions) && i < |actions| && actions[i].Start?
    ensures actions[i].present == InsertedBy(actions[..i]).0
  {
    var (ss, aa) := (states[..i + 1], actions[..i]);
    assert forall j :: 0 <= j <= i ==> ss[j] == states[j];
    assert Enabled(states[i], actions[i]);
    hide Step, WriterOk, ReaderOk, Links, Ascending;
    var paths := KeysAreInserted(ss, aa);
    var path :| HoldsKeys(states[i].list.nodes, path, actions[i].present);
    PathIsUnique(states[i].list.nodes, 0, path, paths[0]);
  }

  // It keeps its target and its note.
  lemma {:induction false} ReaderKeeps(states: seq<State>, actions: seq<Action>, i: nat, n: nat)
    requires Run(states, actions) && i < n <= |actions| && actions[i].Start?
    requires forall j :: i < j < n && actions[j].Start? ==> actions[j].reader != actions[i].reader
    ensures actions[i].reader in states[n].readers
    ensures var (f, a) := (states[n].readers[actions[i].reader], actions[i]);
            f.target == a.target && f.present == a.present
    decreases n
  {
    hide LinkExists, MovesTo, Searched, HoldsKeys;
    assert states[n] == Step(states[n - 1], actions[n - 1]);
    if i < n - 1 { ReaderKeeps(states, actions, i, n - 1); }
  }

  // ---------------------------------------------------------------- Insert

  ghost predicate Adds(paths: seq<Path>, after: seq<Path>, x: Id, from: nat, to: nat) {
    && |paths| == |after| == MAX_HEIGHT
    && forall l :: 0 <= l < MAX_HEIGHT ==> forall y :: y in after[l] <==> y in paths[l] || (y == x && from <= l < to)
  }

  // The two stores that link the new node into one level.
  method LinkLevel(s: List, x: Id, prev: seq<Id>, i: nat, ghost paths: seq<Path>)
    returns (t: List, ghost after: seq<Path>)
    requires Inv(State(s, Linking(x, prev, i, false), map[]), paths)
    ensures Inv(State(t, if i + 1 == |prev| then Resting else Linking(x, prev, i + 1, false), map[]), after)
    ensures |t.nodes| == |s.nodes| && Grows(s, paths, t, after) && Adds(paths, after, x, i, i + 1)
  {
    hide Chain, IsLastBefore, Unlinked;
    ghost var st := State(s, Linking(x, prev, i, false), map[]);
    NeverStuck(st, paths);
    SetOwnLinkKeeps(st, paths);
    st := Step(st, SetOwnLink);
    t := s.(nodes := Store(s.nodes, x, i, s.nodes[prev[i]].next[i]));
    assert Inv(st, paths);
    NeverStuck(st, paths);
    PublishKeeps(st, paths);
    after := Published(paths, st.writer);
    t := t.(nodes := Store(t.nodes, prev[i], i, Some(x)));
  }

  lemma InsertedKeys(s: List, paths: seq<Path>, t: List, after: seq<Path>, height: nat)
    requires Valid(s, paths) && Valid(t, after) && Grows(s, paths, t, after) && |t.nodes| == |s.nodes| + 1
    requires height > 0 && Adds(paths, after, |s.nodes|, 0, height)
    ensures Keys(t.nodes, after[0]) == Keys(s.nodes, paths[0]) + {t.nodes[|s.nodes|].key}
  {
    hide Links, Ascending;
    var x := |s.nodes|;
    assert x in after[0];
    assert Chain(s.nodes, 0, paths[0]);
    forall y | y in paths[0] && y != HEAD ensures y in after[0] && s.nodes[y].key in Keys(t.nodes, after[0]) {
      assert t.nodes[y].key == s.nodes[y].key;
    }
    forall y | y in after[0] && y != HEAD && y != x ensures t.nodes[y].key in Keys(s.nodes, paths[0]) {
      assert y in paths[0];
      assert t.nodes[y].key == s.nodes[y].key;
    }
  }

  // Insert run to its end.  The key is new, as its caller promises; the height
  // is the random number the source draws.
  method Insert(s: List, key: Key, height: nat, ghost paths: seq<Path>) returns (t: List, ghost after: seq<Path>)
    requires Valid(s, paths) && key !in Keys(s.nodes, paths[0]) && 0 < height <= MAX_HEIGHT
    ensures Valid(t, after) && Grows(s, paths, t, after)
    ensures Keys(t.nodes, after[0]) == Keys(s.nodes, paths[0]) + {key}
    ensures Adds(paths, after, |s.nodes|, 0, height)
  {
    hide Chain, IsLastBefore, Links, Ascending, Unlinked, Keys;
    var found, prev := FindGreaterOrEqual(s, key, paths);
    if height <= s.maxHeight {
      prev := prev[..height];
    } else {
      prev := prev + seq(height - s.maxHeight, _ => HEAD);
    }
    ghost var st := State(s, Resting, map[]);
    assert Searched(s, key, height, prev, paths);
    assert Enabled(st, Find(key, height, prev));
    FindKeeps(st, paths, key, height, prev);
    st := st.(writer := Found(key, height, prev));
    NewNodeKeeps(st, paths);
    var x := |s.nodes|;
    t := List(s.nodes + [Node(key, seq(height, _ => None))], if s.maxHeight < height then height else s.maxHeight);
    assert t == Step(st, NewNode).list;
    after := paths;
    var i := 0;
    while i < height
      invariant 0 <= i <= height && |t.nodes| == x + 1 && t.nodes[x].key == key
      invariant Inv(State(t, if i == height then Resting else Linking(x, prev, i, false), map[]), after)
      invariant Grows(s, paths, t, after)
      invariant Adds(paths, after, x, 0, i)
    {
      t, after := LinkLevel(t, x, prev, i, after);
      i := i + 1;
    }
    InsertedKeys(s, paths, t, after, height);
  }
}
