/**
  The hash table of util/cache.cc: buckets of linked handles, found by key and
  hash, and rebuilt with more buckets as it fills.
 */
module HandleTable {
  import opened Basics
  import opened Coding

  type Id = nat

  // What a handle is found by.
  datatype Name = Name(key: Bytes, hash: uint32)

  // The place that points to a handle: a bucket's head or another handle's link.
  datatype Slot = Bucket(b: nat) | Link(id: Id)

  type Links = map<Id, Option<Id>>

  // ---------------------------------------------------------------- chains

  ghost predicate LinkOk(next: Links, chain: seq<Id>, i: nat)
    requires i < |chain|
  {
    chain[i] in next && next[chain[i]] == if i + 1 < |chain| then Some(chain[i + 1]) else None
  }

  // Walking from head visits the chain.
  ghost predicate Follows(next: Links, head: Option<Id>, chain: seq<Id>) {
    && head == (if chain == [] then None else Some(chain[0]))
    && forall i :: 0 <= i < |chain| ==> LinkOk(next, chain, i)
  }

  // No two handles of a bucket have the same name, and all belong there.
  ghost predicate Belong(names: map<Id, Name>, n: nat, b: nat, chain: seq<Id>) {
    && n > 0
    && (forall i :: 0 <= i < |chain| ==> chain[i] in names && names[chain[i]].hash % n == b)
    && (forall i, j :: 0 <= i < j < |chain| ==> names[chain[i]] != names[chain[j]])
  }

  ghost predicate Buckets(list: seq<Option<Id>>, next: Links, names: map<Id, Name>, chains: seq<seq<Id>>) {
    && |list| == |chains| > 0
    && (forall b :: 0 <= b < |list| ==> Follows(next, list[b], chains[b]))
    && (forall b :: 0 <= b < |list| ==> Belong(names, |list|, b, chains[b]))
  }

  ghost function Members(chains: seq<seq<Id>>): (r: set<Id>)
    ensures forall x :: x in r <==> exists b :: 0 <= b < |chains| && x in chains[b]
  {
    if chains == [] then {}
    else
      var n := |chains| - 1;
      var r := Members(chains[..n]) + set x | x in chains[n];
      assert forall b :: 0 <= b < n ==> chains[..n][b] == chains[b];
      assert forall x :: x in chains[n] ==> x in chains[n] && 0 <= n < |chains|;
      r
  }

  ghost function Count(chains: seq<seq<Id>>): nat {
    if chains == [] then 0 else Count(chains[..|chains| - 1]) + |chains[|chains| - 1]|
  }

  lemma {:induction false} CountChanged(chains: seq<seq<Id>>, b: nat, chain: seq<Id>)
    requires b < |chains|
    ensures Count(chains[b := chain]) == Count(chains) - |chains[b]| + |chain|
  {
    var n := |chains| - 1;
    if b < n {
      assert chains[b := chain][..n] == chains[..n][b := chain];
      CountChanged(chains[..n], b, chain);
    } else {
      assert chains[b := chain][..n] == chains[..n];
    }
  }

  lemma MembersChanged(chains: seq<seq<Id>>, b: nat, chain: seq<Id>, x: Id)
    requires b < |chains|
    ensures x in Members(chains[b := chain]) <==>
      x in chain || exists c :: 0 <= c < |chains| && c != b && x in chains[c]
  {
    hide Members;
    var changed := chains[b := chain];
    if x in chain { assert x in changed[b]; }
    if exists c :: 0 <= c < |chains| && c != b && x in chains[c] {
      var c :| 0 <= c < |chains| && c != b && x in chains[c];
      assert x in changed[c];
    }
  }

  // A handle is in the bucket of its hash and in no other.
  lemma OneBucket(names: map<Id, Name>, chains: seq<seq<Id>>, b: nat, c: nat, x: Id)
    requires b < |chains| && c < |chains| && b != c
    requires Belong(names, |chains|, b, chains[b]) && Belong(names, |chains|, c, chains[c]) && x in chains[b]
    ensures x !in chains[c]
  {
  }

  // ---------------------------------------------------------------- slots

  function LinkOf(next: Links, id: Id): Option<Id> {
    if id in next then next[id] else None
  }

  function Load(list: seq<Option<Id>>, next: Links, slot: Slot): Option<Id> {
    match slot
    case Bucket(b) => if b < |list| then list[b] else None
    case Link(id) => LinkOf(next, id)
  }

  // The slot that points to position j of a bucket's chain.
  function SlotAt(b: nat, chain: seq<Id>, j: nat): Slot
    requires j <= |chain|
  {
    if j == 0 then Bucket(b) else Link(chain[j - 1])
  }

  function StoreList(list: seq<Option<Id>>, slot: Slot, v: Option<Id>): seq<Option<Id>> {
    match slot
    case Bucket(b) => if b < |list| then list[b := v] else list
    case Link(_) => list
  }

  function StoreNext(next: Links, slot: Slot, v: Option<Id>): Links {
    match slot
    case Bucket(_) => next
    case Link(id) => next[id := v]
  }

  lemma LoadIs(list: seq<Option<Id>>, next: Links, b: nat, chain: seq<Id>, j: nat)
    requires b < |list| && Follows(next, list[b], chain) && j <= |chain|
    ensures Load(list, next, SlotAt(b, chain, j)) == if j < |chain| then Some(chain[j]) else None
  {
    if j > 0 { assert LinkOk(next, chain, j - 1); }
  }

  ghost predicate Distinct(chain: seq<Id>) {
    forall i, j :: 0 <= i < j < |chain| ==> chain[i] != chain[j]
  }

  // Replacing the end of a chain from position j on by another chain.
  lemma Respliced(list: seq<Option<Id>>, next: Links, b: nat, chain: seq<Id>, j: nat, tail: seq<Id>)
    requires b < |list| && Follows(next, list[b], chain) && j <= |chain| && Distinct(chain)
    requires Follows(next, if tail == [] then None else Some(tail[0]), tail)
    requires forall i :: 0 <= i < j ==> chain[i] !in tail
    ensures var (slot, v) := (SlotAt(b, chain, j), if tail == [] then None else Some(tail[0]));
      Follows(StoreNext(next, slot, v), StoreList(list, slot, v)[b], chain[..j] + tail)
  {
    var (slot, v) := (SlotAt(b, chain, j), if tail == [] then None else Some(tail[0]));
    var (after, all) := (StoreNext(next, slot, v), chain[..j] + tail);
    forall i | 0 <= i < |all| ensures LinkOk(after, all, i) {
      if i < j {
        assert all[i] == chain[i] && LinkOk(next, chain, i);
        if i + 1 < j { assert all[i + 1] == chain[i + 1]; }
      } else {
        assert all[i] == tail[i - j] && LinkOk(next, tail, i - j);
        if i + 1 < |all| { assert all[i + 1] == tail[i - j + 1]; }
      }
    }
  }

  // A store outside a chain leaves it alone.
  lemma Untouched(next: Links, head: Option<Id>, chain: seq<Id>, id: Id, v: Option<Id>)
    requires Follows(next, head, chain) && id !in chain
    ensures Follows(next[id := v], head, chain)
  {
    var after := next[id := v];
    forall i | 0 <= i < |chain| ensures LinkOk(after, chain, i) {
      assert LinkOk(next, chain, i);
    }
  }

  // ---------------------------------------------------------------- insertion and removal

  lemma BelongDistinct(names: map<Id, Name>, n: nat, b: nat, chain: seq<Id>)
    requires Belong(names, n, b, chain)
    ensures Distinct(chain)
  {
  }

  // Position j is where the name is, or the end of its bucket.
  ghost predicate Found(names: map<Id, Name>, chain: seq<Id>, name: Name, j: nat) {
    && j <= |chain| && (forall i :: 0 <= i < |chain| ==> chain[i] in names)
    && (forall i :: 0 <= i < j ==> names[chain[i]] != name)
    && (j < |chain| ==> names[chain[j]] == name)
  }

  // The chain once h stands for the name found at j.
  function Placed(chain: seq<Id>, j: nat, h: Id): seq<Id>
    requires j <= |chain|
  {
    chain[..j] + ([h] + if j < |chain| then chain[j + 1..] else [])
  }

  lemma PlacedBelongs(names: map<Id, Name>, n: nat, b: nat, chain: seq<Id>, j: nat, h: Id, name: Name)
    requires Belong(names, n, b, chain) && Found(names, chain, name, j) && h !in chain && name.hash % n == b
    ensures Belong(names[h := name], n, b, Placed(chain, j, h))
  {
    var (placed, more) := (Placed(chain, j, h), names[h := name]);
    assert placed[j] == h;
    forall i | 0 <= i < |placed| && i != j
      ensures i < |chain| && placed[i] == chain[i] && more[placed[i]] == names[chain[i]]
    {
    }
  }

  lemma DroppedBelongs(names: map<Id, Name>, n: nat, b: nat, chain: seq<Id>, j: nat)
    requires Belong(names, n, b, chain) && j < |chain|
    ensures Belong(names, n, b, chain[..j] + chain[j + 1..])
  {
    var dropped := chain[..j] + chain[j + 1..];
    forall i | 0 <= i < |dropped| ensures dropped[i] == chain[if i < j then i else i + 1] {
    }
  }

  // The tail of a chain is a chain.
  lemma TailFollows(next: Links, head: Option<Id>, chain: seq<Id>, k: nat)
    requires Follows(next, head, chain) && k <= |chain|
    ensures Follows(next, if k < |chain| then Some(chain[k]) else None, chain[k..])
  {
    forall i | 0 <= i < |chain| - k ensures LinkOk(next, chain[k..], i) {
      assert LinkOk(next, chain, k + i);
    }
  }

  lemma ConsFollows(next: Links, h: Id, tail: seq<Id>, head: Option<Id>)
    requires Follows(next, head, tail) && h !in tail
    ensures Follows(next[h := head], Some(h), [h] + tail)
  {
    Untouched(next, head, tail, h, head);
    var after := next[h := head];
    forall i | 0 <= i <= |tail| ensures LinkOk(after, [h] + tail, i) {
      if i > 0 { assert LinkOk(after, tail, i - 1); }
    }
  }

  // One bucket changed, the others did not.
  lemma BucketsChanged(list: seq<Option<Id>>, next: Links, names: map<Id, Name>, chains: seq<seq<Id>>, b: nat,
                       list': seq<Option<Id>>, next': Links, names': map<Id, Name>, chain: seq<Id>)
    requires Buckets(list, next, names, chains) && b < |list| == |list'|
    requires Follows(next', list'[b], chain) && Belong(names', |list|, b, chain)
    requires forall c :: 0 <= c < |list| && c != b ==> list'[c] == list[c] && Follows(next', list[c], chains[c])
    requires forall c, x :: 0 <= c < |list| && c != b && x in chains[c] ==>
      x in names' && x in names && names'[x] == names[x]
    ensures Buckets(list', next', names', chains[b := chain])
  {
    forall c | 0 <= c < |list| && c != b ensures Belong(names', |list|, c, chains[c]) {
      assert Belong(names, |list|, c, chains[c]);
      assert forall i :: 0 <= i < |chains[c]| ==> chains[c][i] in chains[c];
    }
  }

  lemma InsertBuckets(list: seq<Option<Id>>, next: Links, names: map<Id, Name>, chains: seq<seq<Id>>, name: Name,
                      j: nat, h: Id, rest: Option<Id>)
    requires Buckets(list, next, names, chains) && h !in Members(chains)
    requires var chain := chains[name.hash % |list|];
      Found(names, chain, name, j) && rest == if j < |chain| then LinkOf(next, chain[j]) else None
    ensures var b := name.hash % |list|;
      var slot := SlotAt(b, chains[b], j);
      Buckets(StoreList(list, slot, Some(h)), StoreNext(next[h := rest], slot, Some(h)), names[h := name],
        chains[b := Placed(chains[b], j, h)])
  {
    hide Follows, Belong, Members;
    var b := name.hash % |list|;
    var chain := chains[b];
    var slot := SlotAt(b, chain, j);
    var next1 := next[h := rest];
    var (list', next') := (StoreList(list, slot, Some(h)), StoreNext(next1, slot, Some(h)));
    assert h !in chain;
    PlacedBelongs(names, |list|, b, chain, j, h, name);
    InsertInBucket(list, next, names, b, chain, j, h, rest);
    forall c | 0 <= c < |list| && c != b ensures list'[c] == list[c] && Follows(next', list[c], chains[c]) {
      assert h !in chains[c];
      Untouched(next, list[c], chains[c], h, rest);
      if j > 0 {
        OneBucket(names, chains, b, c, chain[j - 1]);
        Untouched(next1, list[c], chains[c], chain[j - 1], Some(h));
      }
    }
    forall c, x | 0 <= c < |list| && c != b && x in chains[c] ensures x in names && x != h {
      InNames(names, |list|, c, chains[c], x);
    }
    BucketsChanged(list, next, names, chains, b, list', next', names[h := name], Placed(chain, j, h));
  }

  lemma InNames(names: map<Id, Name>, n: nat, c: nat, chain: seq<Id>, x: Id)
    requires Belong(names, n, c, chain) && x in chain
    ensures x in names && names[x].hash % n == c
  {
  }

  lemma InsertInBucket(list: seq<Option<Id>>, next: Links, names: map<Id, Name>, b: nat, chain: seq<Id>, j: nat, h: Id,
                       rest: Option<Id>)
    requires b < |list| && Follows(next, list[b], chain) && Belong(names, |list|, b, chain) && j <= |chain| &&
             h !in chain
    requires rest == if j < |chain| then LinkOf(next, chain[j]) else None
    ensures var slot := SlotAt(b, chain, j);
      Follows(StoreNext(next[h := rest], slot, Some(h)), StoreList(list, slot, Some(h))[b], Placed(chain, j, h))
  {
    BelongDistinct(names, |list|, b, chain);
    var tail := if j < |chain| then chain[j + 1..] else [];
    if j < |chain| {
      assert LinkOk(next, chain, j);
      TailFollows(next, list[b], chain, j + 1);
    }
    assert forall x :: x in tail ==> x in chain;
    ConsFollows(next, h, tail, rest);
    Untouched(next, list[b], chain, h, rest);
    Respliced(list, next[h := rest], b, chain, j, [h] + tail);
  }

  lemma RemoveBuckets(list: seq<Option<Id>>, next: Links, names: map<Id, Name>, chains: seq<seq<Id>>, b: nat, j: nat)
    requires Buckets(list, next, names, chains) && b < |list| && j < |chains[b]| && chains[b][j] in next
    ensures var slot := SlotAt(b, chains[b], j);
      var v := next[chains[b][j]];
      Buckets(StoreList(list, slot, v), StoreNext(next, slot, v), names,
        chains[b := chains[b][..j] + chains[b][j + 1..]])
  {
    hide Belong;
    var chain := chains[b];
    var (slot, v) := (SlotAt(b, chain, j), next[chain[j]]);
    var (list', next') := (StoreList(list, slot, v), StoreNext(next, slot, v));
    assert LinkOk(next, chain, j);
    BelongDistinct(names, |list|, b, chain);
    TailFollows(next, list[b], chain, j + 1);
    Respliced(list, next, b, chain, j, chain[j + 1..]);
    DroppedBelongs(names, |list|, b, chain, j);
    hide Follows;
    forall c | 0 <= c < |list| && c != b ensures list'[c] == list[c] && Follows(next', list[c], chains[c]) {
      if j > 0 {
        OneBucket(names, chains, b, c, chain[j - 1]);
        Untouched(next, list[c], chains[c], chain[j - 1], v);
      }
    }
    forall c, x | 0 <= c < |list| && c != b && x in chains[c] ensures x in names {
      InNames(names, |list|, c, chains[c], x);
    }
    BucketsChanged(list, next, names, chains, b, list', next', names, chain[..j] + chain[j + 1..]);
  }

  // A handle whose name is new goes to the front of its bucket.
  lemma MoveStep(list: seq<Option<Id>>, next: Links, names: map<Id, Name>, chains: seq<seq<Id>>, h: Id)
    requires Buckets(list, next, names, chains) && h in names && h !in Members(chains)
    requires forall x :: x in Members(chains) && x in names ==> names[x] != names[h]
    ensures var b := names[h].hash % |list|;
      Buckets(list[b := Some(h)], next[h := list[b]], names, chains[b := [h] + chains[b]])
  {
    hide Follows, Belong, Members;
    var b := names[h].hash % |list|;
    assert h !in chains[b];
    ConsFollows(next, h, chains[b], list[b]);
    FrontBelongs(names, |list|, b, chains[b], h) by {
      forall x | x in chains[b] ensures x in names && names[x] != names[h] {
        InNames(names, |list|, b, chains[b], x);
        assert x in Members(chains);
      }
    }
    forall c | 0 <= c < |list| && c != b ensures Follows(next[h := list[b]], list[c], chains[c]) {
      assert h !in chains[c];
      Untouched(next, list[c], chains[c], h, list[b]);
    }
    forall c, x | 0 <= c < |list| && c != b && x in chains[c] ensures x in names {
      InNames(names, |list|, c, chains[c], x);
    }
    BucketsChanged(list, next, names, chains, b, list[b := Some(h)], next[h := list[b]], names, [h] + chains[b]);
  }

  lemma FrontBelongs(names: map<Id, Name>, n: nat, b: nat, chain: seq<Id>, h: Id)
    requires Belong(names, n, b, chain) && h in names && names[h].hash % n == b
    requires forall x :: x in chain ==> x in names && names[x] != names[h]
    ensures Belong(names, n, b, [h] + chain)
  {
  }

  // A name has at most one handle.
  lemma SameName(list: seq<Option<Id>>, next: Links, names: map<Id, Name>, chains: seq<seq<Id>>, x: Id, y: Id)
    requires Buckets(list, next, names, chains) && x in Members(chains) && y in Members(chains)
    requires x in names && y in names && names[x] == names[y]
    ensures x == y
  {
    hide Members, Follows;
    var b :| 0 <= b < |chains| && x in chains[b];
    var c :| 0 <= c < |chains| && y in chains[c];
    InNames(names, |list|, b, chains[b], x);
    InNames(names, |list|, c, chains[c], y);
    var i :| 0 <= i < |chains[b]| && chains[b][i] == x;
    var j :| 0 <= j < |chains[c]| && chains[c][j] == y;
  }

  lemma OnlyHandle(list: seq<Option<Id>>, next: Links, names: map<Id, Name>, chains: seq<seq<Id>>, x: Id)
    requires Buckets(list, next, names, chains) && x in Members(chains) && x in names
    ensures forall y :: y in Members(chains) && y in names && names[y] == names[x] ==> y == x
  {
    hide Members, Buckets;
    forall y | y in Members(chains) && y in names && names[y] == names[x] ensures y == x {
      SameName(list, next, names, chains, x, y);
    }
  }

  lemma MembersNamed(list: seq<Option<Id>>, next: Links, names: map<Id, Name>, chains: seq<seq<Id>>)
    requires Buckets(list, next, names, chains)
    ensures forall x :: x in Members(chains) ==> x in names
  {
    hide Members, Follows;
    forall x | x in Members(chains) ensures x in names {
      var b :| 0 <= b < |chains| && x in chains[b];
      InNames(names, |list|, b, chains[b], x);
    }
  }

  // ---------------------------------------------------------------- the table

  // The handle of that name, if the table has one.
  ghost predicate Answers(names: map<Id, Name>, chains: seq<seq<Id>>, name: Name, r: Option<Id>) {
    match r
    case Some(id) => id in Members(chains) && id in names && names[id] == name
    case None => forall id :: id in Members(chains) && id in names ==> names[id] != name
  }

  lemma FoundAnswers(list: seq<Option<Id>>, next: Links, names: map<Id, Name>, chains: seq<seq<Id>>, name: Name, j: nat)
    requires Buckets(list, next, names, chains) && Found(names, chains[name.hash % |list|], name, j)
    ensures var (b, n) := (name.hash % |list|, |list|);
      && n == |chains| && j <= |chains[b]|
      && Load(list, next, SlotAt(b, chains[b], j)) == (if j < |chains[b]| then Some(chains[b][j]) else None)
      && (j < |chains[b]| ==> chains[b][j] in next)
      && Answers(names, chains, name, Load(list, next, SlotAt(b, chains[b], j)))
  {
    hide Members;
    var b := name.hash % |list|;
    var chain := chains[b];
    LoadIs(list, next, b, chain, j);
    if j < |chain| {
      assert chain[j] in chains[b] && LinkOk(next, chain, j);
    } else {
      forall id | id in Members(chains) && id in names ensures names[id] != name {
        var c :| 0 <= c < |chains| && id in chains[c];
        InNames(names, |list|, c, chains[c], id);
        if c == b { var i :| 0 <= i < |chain| && chain[i] == id; }
      }
    }
  }

  lemma ChangedMembers(list: seq<Option<Id>>, next: Links, names: map<Id, Name>, chains: seq<seq<Id>>, b: nat,
                       chain: seq<Id>, gone: set<Id>, come: set<Id>)
    requires Buckets(list, next, names, chains) && b < |chains|
    requires (forall x :: x in gone ==> x in chains[b]) && (forall x :: x in come ==> x !in Members(chains))
    requires forall x :: x in chain <==> (x in chains[b] && x !in gone) || x in come
    ensures Members(chains[b := chain]) == Members(chains) - gone + come
  {
    hide Members, Belong, Follows;
    forall x ensures x in Members(chains[b := chain]) <==> x in Members(chains) - gone + come {
      MembersChanged(chains, b, chain, x);
      if exists c :: 0 <= c < |chains| && c != b && x in chains[c] {
        var c :| 0 <= c < |chains| && c != b && x in chains[c];
        if x in gone { OneBucket(names, chains, c, b, x); }
      }
    }
  }

  lemma PlacedMembers(list: seq<Option<Id>>, next: Links, names: map<Id, Name>, chains: seq<seq<Id>>, b: nat, j: nat,
                      h: Id)
    requires Buckets(list, next, names, chains) && b < |chains| && j <= |chains[b]| && h !in Members(chains)
    ensures Members(chains[b := Placed(chains[b], j, h)])
         == Members(chains) - (if j < |chains[b]| then {chains[b][j]} else {}) + {h}
    ensures |Placed(chains[b], j, h)| == |chains[b]| + if j < |chains[b]| then 0 else 1
  {
    hide Members;
    var (chain, placed) := (chains[b], Placed(chains[b], j, h));
    var gone := if j < |chain| then {chain[j]} else {};
    BelongDistinct(names, |list|, b, chain);
    hide Buckets, Belong, Follows;
    forall x ensures x in placed <==> (x in chain && x !in gone) || x in {h} {
      assert placed[j] == h;
      if x in chain && x !in gone {
        var i :| 0 <= i < |chain| && chain[i] == x;
        assert placed[i] == x;
      }
    }
    ChangedMembers(list, next, names, chains, b, placed, gone, {h});
  }

  lemma DroppedMembers(list: seq<Option<Id>>, next: Links, names: map<Id, Name>, chains: seq<seq<Id>>, b: nat, j: nat)
    requires Buckets(list, next, names, chains) && b < |chains| && j < |chains[b]|
    ensures Members(chains[b := chains[b][..j] + chains[b][j + 1..]]) == Members(chains) - {chains[b][j]}
  {
    hide Members;
    var chain := chains[b];
    var dropped := chain[..j] + chain[j + 1..];
    BelongDistinct(names, |list|, b, chain);
    hide Buckets, Belong, Follows;
    forall x ensures x in dropped <==> (x in chain && x !in {chain[j]}) || x in {} {
      if x in chain && x != chain[j] {
        var i :| 0 <= i < |chain| && chain[i] == x;
        assert dropped[if i < j then i else i - 1] == x;
      }
    }
    ChangedMembers(list, next, names, chains, b, dropped, {chain[j]}, {});
  }

  // Four, doubled any number of times.
  predicate IsDoubled(n: nat) {
    n == 4 || (n > 4 && n % 2 == 0 && IsDoubled(n / 2))
  }

  lemma SameLength(list: seq<Option<Id>>, next: Links, names: map<Id, Name>, chains: seq<seq<Id>>)
    requires Buckets(list, next, names, chains)
    ensures |list| == |chains|
  {
  }

  class HandleTable {
    var elems: nat
    var list: seq<Option<Id>>
    var next: Links
    var names: map<Id, Name>
    ghost var chains: seq<seq<Id>>

    ghost predicate Sound()
      reads this
    {
      Buckets(list, next, names, chains) && elems == Count(chains) && IsDoubled(|list|)
    }

    // There are never more handles than buckets.
    ghost predicate Valid()
      reads this
    {
      Sound() && elems <= |list|
    }

    constructor ()
      ensures Valid() && Members(chains) == {} && names == map[]
    {
      elems, next, names := 0, map[], map[];
      list := [None, None, None, None];
      chains := [[], [], [], []];
      new;
      NoMembers();
    }

    // The slot of the matching handle, or the trailing one of its bucket.  The
    // number of buckets is a power of two, so the source masks the hash.
    method FindPointer(name: Name) returns (slot: Slot, ghost j: nat)
      requires Valid()
      ensures Found(names, chains[name.hash % |list|], name, j)
      ensures slot == SlotAt(name.hash % |list|, chains[name.hash % |list|], j)
    {
      var b := name.hash % |list|;
      ghost var chain := chains[b];
      assert Follows(next, list[b], chain) && Belong(names, |list|, b, chain);
      hide Buckets;
      slot := Bucket(b);
      j := 0;
      LoadIs(list, next, b, chain, j);
      var h := Load(list, next, slot);
      while h.Some? && names[h.value] != name
        invariant j <= |chain| && slot == SlotAt(b, chain, j) && h == if j < |chain| then Some(chain[j]) else None
        invariant forall i :: 0 <= i < j ==> names[chain[i]] != name
        decreases |chain| - j
      {
        slot := Link(h.value);
        j := j + 1;
        LoadIs(list, next, b, chain, j);
        h := Load(list, next, slot);
      }
    }

    method Lookup(name: Name) returns (r: Option<Id>)
      requires Valid()
      ensures Answers(names, chains, name, r)
    {
      var slot;
      ghost var j;
      slot, j := FindPointer(name);
      r := Load(list, next, slot);
      FoundAnswers(list, next, names, chains, name, j);
    }

    // Put h in the table; the handle it replaces, if any, is returned.
    method Insert(h: Id, name: Name) returns (old': Option<Id>)
      requires Valid() && h !in names
      modifies this
      ensures Valid() && names == old(names)[h := name] && Answers(old(names), old(chains), name, old')
      ensures Members(chains) == old(Members(chains)) - (if old'.Some? then {old'.value} else {}) + {h}
    {
      hide Members, Buckets, Count, Placed, Answers, Found, Load, StoreNext, StoreList, IsDoubled;
      BucketHeads(list, next, names, chains);
      MembersNamed(list, next, names, chains);
      var slot;
      ghost var j;
      slot, j := FindPointer(name);
      ghost var b := name.hash % |list|;
      old' := Load(list, next, slot);
      FoundAnswers(list, next, names, chains, name, j);
      var rest := if old'.None? then None else LinkOf(next, old'.value);
      InsertBuckets(list, next, names, chains, name, j, h, rest);
      PlacedMembers(list, next, names, chains, b, j, h);
      CountChanged(chains, b, Placed(chains[b], j, h));
      SameLength(list, next, names, chains);
      next := next[h := rest];
      next := StoreNext(next, slot, Some(h));
      list := StoreList(list, slot, Some(h));
      names := names[h := name];
      chains := chains[b := Placed(chains[b], j, h)];
      SameLength(list, next, names, chains);
      if old'.None? {
        elems := elems + 1;
        if elems > |list| {
          Resize();
        }
      }
    }

    method Remove(name: Name) returns (result: Option<Id>)
      requires Valid()
      modifies this
      ensures Valid() && names == old(names) && Answers(old(names), old(chains), name, result)
      ensures Members(chains) == old(Members(chains)) - (if result.Some? then {result.value} else {})
    {
      hide Members, Buckets, Count, Answers, Found, Load, StoreNext, StoreList, IsDoubled;
      BucketHeads(list, next, names, chains);
      var slot;
      ghost var j;
      slot, j := FindPointer(name);
      ghost var b := name.hash % |list|;
      result := Load(list, next, slot);
      FoundAnswers(list, next, names, chains, name, j);
      if result.Some? {
        RemoveBuckets(list, next, names, chains, b, j);
        DroppedMembers(list, next, names, chains, b, j);
        CountChanged(chains, b, chains[b][..j] + chains[b][j + 1..]);
        var v := LinkOf(next, result.value);
        SameLength(list, next, names, chains);
        next := StoreNext(next, slot, v);
        list := StoreList(list, slot, v);
        chains := chains[b := chains[b][..j] + chains[b][j + 1..]];
        SameLength(list, next, names, chains);
        elems := elems - 1;
      }
    }

    // Twice as many buckets until there are at least as many as handles.
    method Resize()
      requires Sound()
      modifies this
      ensures Valid() && names == old(names) && elems == old(elems) && Members(chains) == old(Members(chains))
      ensures |list| > 4 ==> |list| / 2 < elems
    {
      hide Members, Buckets, Rebuilding, Count;
      var newLength := 4;
      while newLength < elems
        invariant newLength >= 4 && IsDoubled(newLength) && (newLength > 4 ==> newLength / 2 < elems)
        decreases elems - newLength
      {
        newLength := newLength * 2;
      }
      BucketHeads(list, next, names, chains);
      ghost var newChains;
      list, next, newChains := MoveAll(list, next, names, newLength, chains);
      chains := newChains;
    }
  }

  method MoveAll(list: seq<Option<Id>>, links: Links, names: map<Id, Name>, newLength: nat, ghost chains: seq<seq<Id>>)
    returns (newList: seq<Option<Id>>, next: Links, ghost newChains: seq<seq<Id>>)
    requires newLength > 0 && Buckets(list, links, names, chains) && Heads(list, chains)
    ensures Buckets(newList, next, names, newChains) && |newList| == newLength
    ensures Members(newChains) == Members(chains) && Count(newChains) == Count(chains)
  {
    hide Members, Buckets, Rebuilding, Count;
    newList := seq(newLength, _ => None);
    newChains := seq(newLength, _ => []);
    next := links;
    NothingYet(list, next, names, chains, newList, newChains);
    var i := 0;
    while i < |list|
      invariant 0 <= i <= |list| == |chains| && |newList| == newLength
      invariant Rebuilding(list, next, names, chains, i, 0, newList, newChains)
    {
      newList, next, newChains := MoveChain(list, next, names, newList, i, chains, newChains);
      i := i + 1;
    }
    Rebuilt(list, next, names, chains, newList, newChains);
  }

  lemma NoMembers()
    ensures Members([[], [], [], []]) == {} && Count([[], [], [], []]) == 0
  {
    NoneIn([[], [], [], []]);
  }

  // ---------------------------------------------------------------- rebuilding

  ghost predicate Heads(list: seq<Option<Id>>, chains: seq<seq<Id>>) {
    && |list| == |chains|
    && forall b :: 0 <= b < |chains| ==> list[b] == if |chains[b]| > 0 then Some(chains[b][0]) else None
  }

  lemma BucketHeads(list: seq<Option<Id>>, next: Links, names: map<Id, Name>, chains: seq<seq<Id>>)
    requires Buckets(list, next, names, chains)
    ensures Heads(list, chains) && |list| > 0
  {
    forall b | 0 <= b < |chains| ensures list[b] == if |chains[b]| > 0 then Some(chains[b][0]) else None {
      assert Follows(next, list[b], chains[b]);
    }
  }

  // Buckets below i, and k handles of bucket i, have been moved over.
  ghost predicate Rebuilding(list: seq<Option<Id>>, next: Links, names: map<Id, Name>, chains: seq<seq<Id>>, i: nat,
                             k: nat,
                             newList: seq<Option<Id>>, newChains: seq<seq<Id>>) {
    && |list| == |chains| && i <= |chains| && (i < |chains| ==> k <= |chains[i]|) && (i == |chains| ==> k == 0)
    && (forall b :: 0 <= b < |chains| ==> Belong(names, |chains|, b, chains[b]))
    && (forall b :: i < b < |chains| ==> Follows(next, list[b], chains[b]))
    && (i < |chains| ==> Follows(next, if k < |chains[i]| then Some(chains[i][k]) else None, chains[i][k..]))
    && Buckets(newList, next, names, newChains)
    && Members(newChains) == Members(Moved(chains, i, k)) && Count(newChains) == Count(Moved(chains, i, k))
  }

  function Moved(chains: seq<seq<Id>>, i: nat, k: nat): seq<seq<Id>>
    requires i <= |chains| && (i < |chains| ==> k <= |chains[i]|)
  {
    chains[..i] + if i < |chains| then [chains[i][..k]] else []
  }

  lemma {:induction false} NoneIn(chains: seq<seq<Id>>)
    requires forall b :: 0 <= b < |chains| ==> chains[b] == []
    ensures Members(chains) == {} && Count(chains) == 0
  {
    if chains != [] { NoneIn(chains[..|chains| - 1]); }
  }

  lemma NothingYet(list: seq<Option<Id>>, next: Links, names: map<Id, Name>, chains: seq<seq<Id>>,
                   newList: seq<Option<Id>>, newChains: seq<seq<Id>>)
    requires Buckets(list, next, names, chains) && |newList| == |newChains| > 0
    requires forall b :: 0 <= b < |newList| ==> newList[b] == None && newChains[b] == []
    ensures Rebuilding(list, next, names, chains, 0, 0, newList, newChains)
  {
    hide Members, Count;
    assert chains[0][0..] == chains[0];
    NoneIn(newChains);
    NoneIn(Moved(chains, 0, 0));
  }

  // Different handles of a table have different names.
  lemma OtherName(names: map<Id, Name>, chains: seq<seq<Id>>, b: nat, i: nat, c: nat, j: nat)
    requires b < |chains| && c < |chains| && i < |chains[b]| && j < |chains[c]| && (b != c || i != j)
    requires Belong(names, |chains|, b, chains[b]) && Belong(names, |chains|, c, chains[c])
    ensures chains[b][i] in names && chains[c][j] in names && names[chains[b][i]] != names[chains[c][j]]
  {
  }

  lemma MovedHas(chains: seq<seq<Id>>, i: nat, k: nat, x: Id) returns (c: nat, j: nat)
    requires i < |chains| && k <= |chains[i]| && x in Members(Moved(chains, i, k))
    ensures c <= i && j < |chains[c]| && chains[c][j] == x && (c == i ==> j < k)
  {
    hide Members;
    var moved := Moved(chains, i, k);
    c :| 0 <= c < |moved| && x in moved[c];
    j :| 0 <= j < |moved[c]| && moved[c][j] == x;
  }

  lemma MovedMore(chains: seq<seq<Id>>, i: nat, k: nat)
    requires i < |chains| && k < |chains[i]|
    ensures Members(Moved(chains, i, k + 1)) == Members(Moved(chains, i, k)) + {chains[i][k]}
    ensures Count(Moved(chains, i, k + 1)) == Count(Moved(chains, i, k)) + 1
  {
    var (a, b) := (Moved(chains, i, k), Moved(chains, i, k + 1));
    assert b == a[i := chains[i][..k + 1]];
    CountChanged(a, i, chains[i][..k + 1]);
    hide Members;
    assert chains[i][..k + 1] == chains[i][..k] + [chains[i][k]];
    forall x ensures x in Members(b) <==> x in Members(a) + {chains[i][k]} {
      MembersChanged(a, i, chains[i][..k + 1], x);
      MembersChanged(a, i, chains[i][..k], x);
      assert a[i := chains[i][..k]] == a;
    }
  }

  lemma NotMovedYet(names: map<Id, Name>, chains: seq<seq<Id>>, i: nat, k: nat, x: Id)
    requires i < |chains| && k < |chains[i]| && x in Members(Moved(chains, i, k))
    requires forall b :: 0 <= b < |chains| ==> Belong(names, |chains|, b, chains[b])
    ensures chains[i][k] in names && x in names && names[x] != names[chains[i][k]]
  {
    hide Members;
    var c, j := MovedHas(chains, i, k, x);
    OtherName(names, chains, c, j, i, k);
  }

  lemma RebuildStep(list: seq<Option<Id>>, next: Links, names: map<Id, Name>, chains: seq<seq<Id>>, i: nat, k: nat,
                    newList: seq<Option<Id>>, newChains: seq<seq<Id>>)
    requires Rebuilding(list, next, names, chains, i, k, newList, newChains) && i < |chains| && k < |chains[i]|
    ensures var h := chains[i][k];
      h in names && |newList| == |newChains| > 0 &&
      var b := names[h].hash % |newList|;
      Rebuilding(list, next[h := newList[b]], names, chains, i, k + 1, newList[b := Some(h)],
        newChains[b := [h] + newChains[b]])
  {
    hide Members, Count, Belong, Follows;
    var (chain, h) := (chains[i], chains[i][k]);
    InNames(names, |chains|, i, chain, h);
    BelongDistinct(names, |chains|, i, chain);
    var b := names[h].hash % |newList|;
    forall x | x in Members(newChains) && x in names
      ensures names[x] != names[h]
    {
      NotMovedYet(names, chains, i, k, x);
    }
    if h in Members(newChains) { NotMovedYet(names, chains, i, k, h); }
    MoveStep(newList, next, names, newChains, h);
    MovedMore(chains, i, k);
    CountChanged(newChains, b, [h] + newChains[b]);
    FrontMembers(newChains, b, h);
    RestFollows(next, chain, k, newList[b]);
    forall c | i < c < |chains| ensures Follows(next[h := newList[b]], list[c], chains[c]) {
      OneBucket(names, chains, i, c, h);
      Untouched(next, list[c], chains[c], h, newList[b]);
    }
  }

  lemma FrontMembers(chains: seq<seq<Id>>, b: nat, h: Id)
    requires b < |chains|
    ensures Members(chains[b := [h] + chains[b]]) == Members(chains) + {h}
  {
    hide Members;
    forall x ensures x in Members(chains[b := [h] + chains[b]]) <==> x in Members(chains) + {h} {
      MembersChanged(chains, b, [h] + chains[b], x);
      MembersChanged(chains, b, chains[b], x);
      assert chains[b := chains[b]] == chains;
    }
  }

  lemma RestFollows(next: Links, chain: seq<Id>, k: nat, v: Option<Id>)
    requires k < |chain| && Distinct(chain) && Follows(next, Some(chain[k]), chain[k..])
    ensures Follows(next[chain[k] := v], if k + 1 < |chain| then Some(chain[k + 1]) else None, chain[k + 1..])
  {
    TailFollows(next, Some(chain[k]), chain[k..], 1);
    assert chain[k..][1..] == chain[k + 1..];
    Untouched(next, if k + 1 < |chain| then Some(chain[k + 1]) else None, chain[k + 1..], chain[k], v);
  }

  lemma NextBucket(list: seq<Option<Id>>, next: Links, names: map<Id, Name>, chains: seq<seq<Id>>, i: nat,
                   newList: seq<Option<Id>>, newChains: seq<seq<Id>>)
    requires i < |chains| && Rebuilding(list, next, names, chains, i, |chains[i]|, newList, newChains)
    ensures Rebuilding(list, next, names, chains, i + 1, 0, newList, newChains)
  {
    assert chains[i][..|chains[i]|] == chains[i];
    var a := Moved(chains, i, |chains[i]|);
    assert a == chains[..i + 1];
    if i + 1 < |chains| {
      assert chains[i + 1][0..] == chains[i + 1];
      assert Moved(chains, i + 1, 0) == a + [[]];
      assert (a + [[]])[..i + 1] == a;
      assert Members(a + [[]]) == Members(a);
    } else {
      assert Moved(chains, i + 1, 0) == a;
    }
  }

  lemma Rebuilt(list: seq<Option<Id>>, next: Links, names: map<Id, Name>, chains: seq<seq<Id>>,
                newList: seq<Option<Id>>, newChains: seq<seq<Id>>)
    requires Rebuilding(list, next, names, chains, |chains|, 0, newList, newChains)
    ensures Buckets(newList, next, names, newChains) && Members(newChains) == Members(chains) &&
            Count(newChains) == Count(chains)
  {
    assert Moved(chains, |chains|, 0) == chains;
  }

  // The inner loop of Resize: relink the handles of one bucket.
  method MoveChain(list: seq<Option<Id>>, links: Links, names: map<Id, Name>, buckets: seq<Option<Id>>, i: nat,
                   ghost chains: seq<seq<Id>>, ghost before: seq<seq<Id>>)
    returns (newList: seq<Option<Id>>, next: Links, ghost newChains: seq<seq<Id>>)
    requires i < |chains| == |list| && Rebuilding(list, links, names, chains, i, 0, buckets, before)
    requires list[i] == if |chains[i]| > 0 then Some(chains[i][0]) else None
    ensures Rebuilding(list, next, names, chains, i + 1, 0, newList, newChains) && |newList| == |buckets|
  {
    hide Rebuilding;
    newList, next, newChains := buckets, links, before;
    var h := list[i];
    ghost var k := 0;
    while h.Some?
      invariant k <= |chains[i]| && h == (if k < |chains[i]| then Some(chains[i][k]) else None) &&
                |newList| == |buckets|
      invariant Rebuilding(list, next, names, chains, i, k, newList, newChains)
      decreases |chains[i]| - k
    {
      RebuildStep(list, next, names, chains, i, k, newList, newChains);
      NextLink(list, next, names, chains, i, k, newList, newChains);
      var following := LinkOf(next, h.value);
      var b := names[h.value].hash % |newList|;
      next := next[h.value := newList[b]];
      newList := newList[b := h];
      newChains := newChains[b := [h.value] + newChains[b]];
      h := following;
      k := k + 1;
    }
    NextBucket(list, next, names, chains, i, newList, newChains);
  }

  lemma NextLink(list: seq<Option<Id>>, next: Links, names: map<Id, Name>, chains: seq<seq<Id>>, i: nat, k: nat,
                 newList: seq<Option<Id>>, newChains: seq<seq<Id>>)
    requires Rebuilding(list, next, names, chains, i, k, newList, newChains) && i < |chains| && k < |chains[i]|
    ensures LinkOf(next, chains[i][k]) == if k + 1 < |chains[i]| then Some(chains[i][k + 1]) else None
  {
    assert LinkOk(next, chains[i][k..], 0);
  }
}
