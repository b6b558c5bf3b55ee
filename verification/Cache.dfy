/**
  The LRU cache (LRUCache in util/cache.cc): handles counted by reference, a hash
  table that finds them and a list that orders them by use.
 */
module Cache {
  import opened Basics
  import opened LruList
  import T = HandleTable

  // A live allocation.  Ids are never reused.
  datatype Handle = Handle(name: T.Name, value: Bytes, charge: nat, refs: nat)

  // ---------------------------------------------------------------- accounts

  ghost function Total(handles: map<Id, Handle>): nat {
    if handles == map[] then 0
    else
      var id :| id in handles;
      handles[id].charge + Total(handles - {id})
  }

  lemma {:induction false} TotalWithout(handles: map<Id, Handle>, id: Id)
    requires id in handles
    ensures Total(handles) == handles[id].charge + Total(handles - {id})
    decreases |handles|
  {
    var x :| x in handles && Total(handles) == handles[x].charge + Total(handles - {x});
    if x != id {
      TotalWithout(handles - {x}, id);
      TotalWithout(handles - {id}, x);
      assert handles - {x} - {id} == handles - {id} - {x};
    }
  }

  lemma TotalWith(handles: map<Id, Handle>, id: Id, h: Handle)
    ensures id !in handles ==> Total(handles[id := h]) == Total(handles) + h.charge
    ensures id in handles && handles[id].charge == h.charge ==> Total(handles[id := h]) == Total(handles)
  {
    TotalWithout(handles[id := h], id);
    if id in handles {
      TotalWithout(handles, id);
      assert handles[id := h] - {id} == handles - {id};
    } else {
      assert handles[id := h] - {id} == handles;
    }
  }

  // References: one for being in the cache, one for each handle given out.  The
  // id `extra` has one reference more, about to be dropped.
  ghost predicate Counted(handles: map<Id, Handle>, order: seq<Id>, held: multiset<Id>, extra: Option<Id>) {
    && (forall id :: id in handles ==>
          handles[id].refs == (if id in order then 1 else 0) + held[id] + (if extra == Some(id) then 1 else 0)
          && handles[id].refs > 0)
    && (forall id :: id in order || id in held || extra == Some(id) ==> id in handles)
  }

  // Every id given out so far is live or was deleted exactly once.
  ghost predicate Accounted(handles: map<Id, Handle>, deleted: seq<Id>, nextId: Id) {
    && NoDuplicates(deleted)
    && (forall id :: id in handles ==> 0 < id < nextId && id !in deleted)
    && (forall id :: id in deleted ==> 0 < id < nextId)
    && (forall id :: 0 < id < nextId ==> id in handles || id in deleted)
  }

  // The list and the table hold the same handles.
  ghost predicate Indexed(handles: map<Id, Handle>, order: seq<Id>, names: map<T.Id, T.Name>, members: set<T.Id>,
                          nextId: Id) {
    && (forall id :: id in order <==> id in members)
    && (forall id :: id in order ==> id in handles && id in names && names[id] == handles[id].name)
    && (forall id :: id in names ==> id < nextId)
  }

  // Unref, as values: the handles and the deletions afterwards.
  function Dropped(handles: map<Id, Handle>, id: Id): map<Id, Handle>
    requires id in handles
  {
    var h := handles[id];
    if h.refs <= 1 then handles - {id} else handles[id := h.(refs := h.refs - 1)]
  }

  // What dropping an entry from the cache gives back: nothing while it is held.
  function Freed(handles: map<Id, Handle>, held: multiset<Id>, id: Id): nat {
    if id in held || id !in handles then 0 else handles[id].charge
  }

  lemma FreedByDrop(handles: map<Id, Handle>, order: seq<Id>, held: multiset<Id>, id: Id)
    requires Counted(handles, order, held, None) && id in order
    ensures id in handles && Total(handles) == Total(Dropped(handles, id)) + Freed(handles, held, id)
  {
    hide Total;
    DropTotal(handles, id);
  }

  lemma DropCounts(handles: map<Id, Handle>, order: seq<Id>, held: multiset<Id>, id: Id)
    requires Counted(handles, order, held, Some(id))
    ensures id in handles && Counted(Dropped(handles, id), order, held, None)
    ensures handles[id].refs <= 1 <==> id !in order && id !in held
  {
    assert id in handles;
  }

  lemma DropAccounts(handles: map<Id, Handle>, id: Id, deleted: seq<Id>, nextId: Id)
    requires id in handles && handles[id].refs > 0 && Accounted(handles, deleted, nextId)
    ensures Accounted(Dropped(handles, id), if handles[id].refs <= 1 then deleted + [id] else deleted, nextId)
  {
  }

  lemma DropTotal(handles: map<Id, Handle>, id: Id)
    requires id in handles && handles[id].refs > 0
    ensures Total(handles) == Total(Dropped(handles, id)) + if handles[id].refs <= 1 then handles[id].charge else 0
  {
    TotalWithout(handles, id);
    TotalWith(handles, id, handles[id].(refs := handles[id].refs - 1));
  }

  lemma HeldLess(handles: map<Id, Handle>, order: seq<Id>, held: multiset<Id>, id: Id)
    requires Counted(handles, order, held, None) && id in held
    ensures Counted(handles, order, held - multiset{id}, Some(id)) && id in handles && handles[id].refs > 0
  {
  }

  lemma HeldMore(handles: map<Id, Handle>, order: seq<Id>, held: multiset<Id>, id: Id, order': seq<Id>)
    requires Counted(handles, order, held, None) && id in order && (forall x :: x in order' <==> x in order)
    ensures id in handles &&
            Counted(handles[id := handles[id].(refs := handles[id].refs + 1)], order', held + multiset{id}, None)
  {
  }

  // Leaving the list turns the cache's reference into one to drop.
  lemma OrderLess(handles: map<Id, Handle>, order: seq<Id>, held: multiset<Id>, id: Id, order': seq<Id>)
    requires Counted(handles, order, held, None) && id in order && (forall x :: x in order' <==> x in order && x != id)
    ensures Counted(handles, order', held, Some(id)) && id in handles && handles[id].refs > 0
  {
  }

  lemma DropIndexed(handles: map<Id, Handle>, order: seq<Id>, names: map<T.Id, T.Name>, members: set<T.Id>, nextId: Id,
                    id: Id)
    requires Indexed(handles, order, names, members, nextId) && id in handles && (id in order ==> handles[id].refs > 1)
    ensures Indexed(Dropped(handles, id), order, names, members, nextId)
  {
  }

  lemma LeaveIndexed(handles: map<Id, Handle>, order: seq<Id>, names: map<T.Id, T.Name>, members: set<T.Id>,
                     nextId: Id, id: Id, order': seq<Id>)
    requires Indexed(handles, order, names, members, nextId) && (forall x :: x in order' <==> x in order && x != id)
    ensures Indexed(handles, order', names, members - {id}, nextId)
  {
  }

  // id is the cached entry of that name.
  ghost predicate CachedAs(handles: map<Id, Handle>, order: seq<Id>, name: T.Name, id: Id) {
    id in order && id in handles && handles[id].name == name
  }

  // ---------------------------------------------------------------- the cache

  class LRUCache {
    var capacity: nat
    var usage: nat
    var links: Links
    const table: T.HandleTable
    var handles: map<Id, Handle>
    var nextId: Id
    ghost var order: seq<Id>
    ghost var held: multiset<Id>
    ghost var deleted: seq<Id>

    // All but the agreement of list and table; extra is about to lose a reference.
    ghost predicate Sound(extra: Option<Id>)
      reads this, table
    {
      && table.Valid() && IsRing(links, order) && nextId > 0
      && Counted(handles, order, held, extra) && Accounted(handles, deleted, nextId)
      && usage == Total(handles)
    }

    ghost predicate Valid()
      reads this, table
    {
      Sound(None) && Indexed(handles, order, table.names, T.Members(table.chains), nextId)
    }

    constructor (capacity: nat)
      ensures Valid() && this.capacity == capacity && order == [] && held == multiset{} && deleted == [] && fresh(table)
    {
      this.capacity := capacity;
      usage, links, handles, nextId := 0, Empty(), map[], 1;
      table := new T.HandleTable();
      order, held, deleted := [], multiset{}, [];
      new;
      EmptyIsRing();
    }

    // The entry cached under a name.
    ghost predicate Caches(name: T.Name, id: Id)
      reads this
    {
      CachedAs(handles, order, name, id)
    }

    // Drop one reference; the last one deletes the entry.
    method Unref(id: Id)
      requires Sound(Some(id))
      modifies this`handles, this`usage, this`deleted
      ensures Sound(None)
      ensures handles == Dropped(old(handles), id)
      ensures deleted == old(deleted) + if id !in order && id !in held then [id] else []
    {
      hide T.Buckets, T.Members, T.Count, Total, IsRing;
      DropCounts(handles, order, held, id);
      DropAccounts(handles, id, deleted, nextId);
      DropTotal(handles, id);
      hide Counted, Accounted;
      var h := handles[id];
      if h.refs <= 1 {
        usage := usage - h.charge;
        deleted := deleted + [id];
        handles := handles - {id};
      } else {
        handles := handles[id := h.(refs := h.refs - 1)];
      }
    }

    // A handle that the caller gives back.
    method Release(id: Id)
      requires Valid() && id in held
      modifies this
      ensures Valid() && held == old(held) - multiset{id} && order == old(order)
      ensures deleted == old(deleted) + if id !in order && id !in held then [id] else []
      ensures usage <= old(usage)
    {
      hide T.Buckets, T.Members, T.Count, Total, IsRing, Accounted, Counted, Indexed, Dropped;
      HeldLess(handles, order, held, id);
      held := held - multiset{id};
      DropCounts(handles, order, held, id);
      DropIndexed(handles, order, table.names, T.Members(table.chains), nextId, id);
      DropTotal(handles, id);
      Unref(id);
    }

    // Finding an entry makes it the newest and gives out a handle.
    method Lookup(name: T.Name) returns (r: Option<Id>)
      requires Valid()
      modifies this
      ensures Valid() && deleted == old(deleted) && usage == old(usage)
      ensures r.None? ==> order == old(order) && held == old(held) && forall id :: !old(Caches(name, id))
      ensures r.Some? ==>
        old(Caches(name, r.value)) && order == Without(old(order), r.value) + [r.value] &&
          held == old(held) + multiset{r.value}
    {
      hide T.Buckets, T.Members, T.Count, T.Answers, Total, IsRing, Accounted, Counted, Indexed, CachedAs, Without;
      r := table.Lookup(name);
      AnswerIs(handles, order, table.list, table.next, table.names, table.chains, nextId, name, r);
      if r.Some? {
        var id := r.value;
        ghost var moved := Without(order, id) + [id];
        RefsIndexed(handles, order, table.names, T.Members(table.chains), nextId, id, handles[id].refs + 1, moved) by {
          MoveToEnd(links, order, id);
        }
        MoveToEnd(links, order, id);
        HeldMore(handles, order, held, id, moved);
        var h := handles[id];
        RefsOnly(handles, id, deleted, nextId, h.refs + 1);
        handles := handles[id := h.(refs := h.refs + 1)];
        links := LruList.Remove(links, id);
        links := LruList.Append(links, id);
        order := moved;
        held := held + multiset{id};
      }
    }

    // The table has let go of id: take it off the list and drop the cache's
    // reference.
    method Forget(id: Id)
      requires Sound(None) && id in order
      requires Indexed(handles, order, table.names, T.Members(table.chains) + {id}, nextId) &&
               id !in T.Members(table.chains)
      modifies this`links, this`order, this`handles, this`usage, this`deleted
      ensures Valid() && order == Without(old(order), id) && usage <= old(usage)
      ensures handles == Dropped(old(handles), id)
      ensures deleted == old(deleted) + if id !in held then [id] else []
    {
      hide T.Buckets, T.Members, T.Count, Total, Accounted, Counted, Indexed, Dropped, Without;
      InRing(links, order, id);
      RemoveKeeps(links, order, id);
      WithoutMembers(order, id);
      ghost var rest := Without(order, id);
      OrderLess(handles, order, held, id, rest);
      LeaveIndexed(handles, order, table.names, T.Members(table.chains) + {id}, nextId, id, rest);
      DropCounts(handles, rest, held, id);
      DropIndexed(handles, rest, table.names, T.Members(table.chains), nextId, id) by {
        assert T.Members(table.chains) + {id} - {id} == T.Members(table.chains);
      }
      DropTotal(handles, id);
      links := LruList.Remove(links, id);
      order := rest;
      Unref(id);
    }

    method Erase(name: T.Name)
      requires Valid()
      modifies this, table
      ensures Valid() && held == old(held) && usage <= old(usage)
      ensures forall id :: old(Caches(name, id)) ==> order == Without(old(order), id)
      ensures (forall id :: !old(Caches(name, id))) ==> order == old(order)
    {
      hide T.Buckets, T.Members, T.Count, Total, IsRing, Accounted, Counted, Without, Dropped;
      ghost var members := T.Members(table.chains);
      if x :| x in members && x in table.names && table.names[x] == name {
        T.OnlyHandle(table.list, table.next, table.names, table.chains, x);
      }
      var r := table.Remove(name);
      if r.Some? {
        assert members == T.Members(table.chains) + {r.value};
        assert old(Caches(name, r.value));
        Forget(r.value);
      }
    }

    // Evict the oldest entries until the cache is within its capacity or empty.
    method Evict() returns (ghost victims: seq<Id>)
      requires Valid()
      modifies this, table
      ensures Valid() && held == old(held) && nextId == old(nextId) && capacity == old(capacity)
      ensures usage <= capacity || order == []
      ensures victims + order == old(order) && (old(usage) <= capacity ==> victims == [])
      ensures victims != [] ==> usage + Freed(old(handles), held, victims[|victims| - 1]) > capacity
      ensures HeldSurvive(old(handles), handles, held)
    {
      hide T.Buckets, T.Members, T.Count, Total, Accounted, Counted, Indexed, Dropped, Without, IsRing, HeldSurvive,
           Freed;
      victims := [];
      OldestIs(links, order);
      Survives(handles, handles, handles, held);
      while usage > capacity && links.next[HEAD] != HEAD
        invariant Valid() && held == old(held) && nextId == old(nextId) && capacity == old(capacity)
        invariant HEAD in links.next && links.next[HEAD] == (if order == [] then HEAD else order[0]) &&
                  (order != [] ==> order[0] != HEAD)
        invariant victims + order == old(order) && (old(usage) <= capacity ==> victims == [] && usage == old(usage))
        invariant HeldSurvive(old(handles), handles, held)
        invariant forall x :: x in order ==> Freed(handles, held, x) == Freed(old(handles), held, x)
        invariant victims != [] ==> usage + Freed(old(handles), held, victims[|victims| - 1]) > capacity
        decreases |order|
      {
        var id := links.next[HEAD];
        WithoutFirst(order);
        ghost var before := handles;
        assert victims + [order[0]] + order[1..] == victims + order;
        assert NoDuplicates(order) by { RingDistinct(links, order); }
        FreedByDrop(handles, order, held, id);
        FreedOthers(handles, held, order);
        EvictOldest(id);
        Survives(old(handles), before, handles, held);
        victims := victims + [id];
        OldestIs(links, order);
      }
    }

    method EvictOldest(id: Id)
      requires Valid() && id in order
      modifies this, table
      ensures Valid() && order == Without(old(order), id) && held == old(held) && nextId == old(nextId) &&
              capacity == old(capacity)
      ensures id in old(handles) && handles == Dropped(old(handles), id)
      ensures HeldSurvive(old(handles), handles, held)
      ensures usage + Freed(old(handles), held, id) == old(usage)
    {
      hide T.Buckets, T.Members, T.Count, Total, Accounted, IsRing, Without;
      FreedByDrop(handles, order, held, id);
      ghost var members := T.Members(table.chains);
      T.OnlyHandle(table.list, table.next, table.names, table.chains, id);
      var r := table.Remove(handles[id].name);
      assert r == Some(id);
      assert members == T.Members(table.chains) + {id};
      Forget(id);
    }

    // A new entry, newest of all, in place of one of the same name.
    method Insert(name: T.Name, value: Bytes, charge: nat)
      returns (e: Id, ghost replaced: Option<Id>, ghost victims: seq<Id>)
      requires Valid()
      modifies this, table
      ensures Valid() && e == old(nextId) && held == old(held) + multiset{e} && capacity == old(capacity)
      ensures e in handles && handles[e].name == name && handles[e].value == value && handles[e].charge == charge
      ensures usage <= capacity || order == []
      ensures forall id: Id :: old(Caches(name, id)) <==> replaced == Some(id)
      ensures victims + order == (if replaced.Some? then Without(old(order), replaced.value) else old(order)) + [e]
      ensures victims != [] ==> usage + Freed(old(handles), held, victims[|victims| - 1]) > capacity
    {
      hide T.Buckets, T.Members, T.Count, T.Answers, Total, Accounted, Counted, Dropped, Without, IsRing, HeldSurvive,
           Indexed, CachedAs, Freed;
      assert nextId !in handles by { NotYet(handles, deleted, nextId); }
      assert NoDuplicates(order) by { RingDistinct(links, order); }
      e := nextId;
      ghost var members, names, chains := T.Members(table.chains), table.names, table.chains;
      ghost var (list, next) := (table.list, table.next);
      FreshName(handles, order, names, members, e);
      AddEntry(name, value, charge);
      var old' := table.Insert(e, name);
      AnswerIs(old(handles), old(order), list, next, names, chains, e, name, old');
      NewIndexed(old(handles), old(order), names, members, e, handles[e], old');
      replaced := old';
      ghost var added := handles;
      if old'.Some? {
        AppendedWithout(old(order), e, old'.value);
        assert members - {old'.value} + {e} + {old'.value} == T.Members(table.chains) + {old'.value};
        Forget(old'.value);
        DroppedHeld(added, old'.value, e);
      } else {
        assert members - {} + {e} + {} == T.Members(table.chains);
      }
      ghost var (before, now) := (handles, order);
      victims := Evict();
      SurvivesOne(before, handles, held, e);
      if victims != [] {
        ghost var v := victims[|victims| - 1];
        assert v == now[|victims| - 1] && v in now;
        if old'.Some? { WithoutMembers(old(order), old'.value); }
        FreedBefore(old(handles), e, added[e], old', before, held, v);
      }
    }

    // Allocate the handle and put it at the end of the list: one reference for
    // the cache, one for the caller.
    method AddEntry(name: T.Name, value: Bytes, charge: nat)
      requires Sound(None)
      modifies this`handles, this`nextId, this`links, this`order, this`usage, this`held
      ensures Sound(None) && nextId == old(nextId) + 1 && order == old(order) + [old(nextId)] &&
              held == old(held) + multiset{old(nextId)}
      ensures handles == old(handles)[old(nextId) := Handle(name, value, charge, 2)]
    {
      hide T.Buckets, T.Members, T.Count, Total, IsRing, Counted, Accounted, Append;
      var e := nextId;
      var h := Handle(name, value, charge, 2);
      NewEntry(handles, order, held, deleted, nextId, h);
      InRing(links, order, HEAD);
      AppendKeeps(links, order, e);
      handles := handles[e := h];
      nextId := nextId + 1;
      links := LruList.Append(links, e);
      order := order + [e];
      usage := usage + charge;
      held := held + multiset{e};
    }
  }

  lemma NotYet(handles: map<Id, Handle>, deleted: seq<Id>, nextId: Id)
    requires Accounted(handles, deleted, nextId)
    ensures nextId !in handles
  {
  }

  lemma RingDistinct(l: Links, order: seq<Id>)
    requires IsRing(l, order)
    ensures NoDuplicates(order)
  {
  }

  // A new entry and the one it replaces do not matter to what another gives back.
  lemma FreedBefore(handles: map<Id, Handle>, e: Id, h: Handle, replaced: Option<Id>, before: map<Id, Handle>,
                    held: multiset<Id>, v: Id)
    requires e in held && e !in handles && (replaced.Some? ==> replaced.value in handles && v != replaced.value)
    requires before == if replaced.Some? then Dropped(handles[e := h], replaced.value) else handles[e := h]
    ensures Freed(before, held, v) == Freed(handles, held, v)
  {
  }

  // Dropping the oldest changes no other entry of the list.
  lemma FreedOthers(handles: map<Id, Handle>, held: multiset<Id>, order: seq<Id>)
    requires order != [] && order[0] in handles && NoDuplicates(order)
    ensures forall x :: x in order[1..] ==> Freed(Dropped(handles, order[0]), held, x) == Freed(handles, held, x)
  {
    forall x | x in order[1..] ensures x != order[0] {
      var i :| 0 <= i < |order[1..]| && order[1..][i] == x;
      assert order[i + 1] == x;
    }
  }

  lemma FreshName(handles: map<Id, Handle>, order: seq<Id>, names: map<T.Id, T.Name>, members: set<T.Id>, nextId: Id)
    requires Indexed(handles, order, names, members, nextId)
    ensures nextId !in names
  {
  }

  // The handle that the table answers with is the one cached under the name.
  lemma AnswerIs(handles: map<Id, Handle>, order: seq<Id>, list: seq<Option<T.Id>>, next: T.Links,
                 names: map<T.Id, T.Name>, chains: seq<seq<T.Id>>,
                   nextId: Id, name: T.Name, old': Option<Id>)
    requires T.Buckets(list, next, names, chains) && Indexed(handles, order, names, T.Members(chains), nextId)
    requires T.Answers(names, chains, name, old')
    ensures forall id: Id :: CachedAs(handles, order, name, id) <==> old' == Some(id)
    ensures old'.Some? ==> old'.value in order && old'.value in handles
  {
    hide T.Buckets, T.Members;
    if old'.Some? { T.OnlyHandle(list, next, names, chains, old'.value); }
  }

  lemma NewIndexed(handles: map<Id, Handle>, order: seq<Id>, names: map<T.Id, T.Name>, members: set<T.Id>, e: Id,
                   h: Handle, old': Option<Id>)
    requires Indexed(handles, order, names, members, e) && (old'.Some? ==> old'.value in order)
    ensures var gone := if old'.Some? then {old'.value} else {};
      Indexed(handles[e := h], order + [e], names[e := h.name], members - gone + {e} + gone, e + 1)
      && (old'.Some? ==> old'.value != e && old'.value !in members - gone + {e})
  {
  }

  lemma NewEntry(handles: map<Id, Handle>, order: seq<Id>, held: multiset<Id>, deleted: seq<Id>, e: Id, h: Handle)
    requires Counted(handles, order, held, None) && Accounted(handles, deleted, e) && e > 0 && h.refs == 2
    ensures e !in handles && e !in order
    ensures Counted(handles[e := h], order + [e], held + multiset{e}, None)
    ensures Accounted(handles[e := h], deleted, e + 1)
    ensures Total(handles[e := h]) == Total(handles) + h.charge
  {
    TotalWith(handles, e, h);
    assert e !in handles && e !in order && e !in held;
  }

  lemma AppendedWithout(order: seq<Id>, e: Id, x: Id)
    requires x != e
    ensures Without(order + [e], x) == Without(order, x) + [e]
  {
    if order != [] {
      assert (order + [e])[1..] == order[1..] + [e];
      if order[0] != x { AppendedWithout(order[1..], e, x); }
    }
  }

  lemma DroppedHeld(handles: map<Id, Handle>, id: Id, e: Id)
    requires id in handles && e in handles && e != id
    ensures e in Dropped(handles, id) && Dropped(handles, id)[e] == handles[e]
  {
  }

  lemma SurvivesOne(before: map<Id, Handle>, after: map<Id, Handle>, held: multiset<Id>, e: Id)
    requires HeldSurvive(before, after, held) && e in before && e in held
    ensures e in after && Same(after[e], before[e])
  {
  }

  // Equal but for the references.
  ghost predicate Same(a: Handle, b: Handle) {
    a.name == b.name && a.value == b.value && a.charge == b.charge
  }

  // Entries that callers hold stay alive and unchanged.
  ghost predicate HeldSurvive(before: map<Id, Handle>, after: map<Id, Handle>, held: multiset<Id>) {
    forall id :: id in held && id in before ==> id in after && Same(after[id], before[id])
  }

  lemma Survives(a: map<Id, Handle>, b: map<Id, Handle>, c: map<Id, Handle>, held: multiset<Id>)
    ensures HeldSurvive(a, a, held)
    ensures HeldSurvive(a, b, held) && HeldSurvive(b, c, held) ==> HeldSurvive(a, c, held)
  {
  }

  lemma WithoutFirst(order: seq<Id>)
    ensures order != [] ==> Without(order, order[0]) == order[1..]
  {
  }

  lemma RefsIndexed(handles: map<Id, Handle>, order: seq<Id>, names: map<T.Id, T.Name>, members: set<T.Id>, nextId: Id,
                    id: Id, refs: nat, order': seq<Id>)
    requires Indexed(handles, order, names, members, nextId) && id in handles && forall x :: x in order' <==> x in order
    ensures Indexed(handles[id := handles[id].(refs := refs)], order', names, members, nextId)
  {
  }

  lemma MoveToEnd(l: Links, order: seq<Id>, id: Id)
    requires IsRing(l, order) && id in order
    ensures id in l.next && id in l.prev && HEAD in LruList.Remove(l, id).prev
    ensures IsRing(LruList.Append(LruList.Remove(l, id), id), Without(order, id) + [id])
    ensures forall x :: x in Without(order, id) + [id] <==> x in order
  {
    InRing(l, order, id);
    RemoveKeeps(l, order, id);
    WithoutMembers(order, id);
    assert id != HEAD;
    hide IsRing, Without;
    InRing(LruList.Remove(l, id), Without(order, id), HEAD);
    AppendKeeps(LruList.Remove(l, id), Without(order, id), id);
  }

  lemma RefsOnly(handles: map<Id, Handle>, id: Id, deleted: seq<Id>, nextId: Id, refs: nat)
    requires id in handles && Accounted(handles, deleted, nextId)
    ensures Accounted(handles[id := handles[id].(refs := refs)], deleted, nextId)
    ensures Total(handles[id := handles[id].(refs := refs)]) == Total(handles)
  {
    TotalWith(handles, id, handles[id].(refs := refs));
  }
}
