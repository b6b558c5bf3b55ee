/**
  Internal keys, entries, and the abstract meaning of a read.

  A user key is represented by an integer: its rank in the total order that the
  user comparator defines (Comparators.RankPreservesOrder shows that ranks order
  exactly as the keys they stand for).  The abstract state of a store is a set
  of entries, and a read at sequence s answers from the newest entry of the key
  whose sequence number is at most s.
 */
module Entries {
  import opened Basics

  type Key = int
  type Value = Bytes

  const MAX_SEQUENCE: nat := 0xff_ffff_ffff_ffff

  // 56 bits, so that a type fits below the sequence number in 64 bits.
  type Sequence = n: nat | n <= MAX_SEQUENCE

  datatype Kind = Deletion | Put

  datatype IKey = IKey(key: Key, sequence: Sequence, kind: Kind)

  datatype Entry = Entry(ik: IKey, value: Value)

  // Sequence number and type packed into one number, type in the low byte.
  function Tag(ik: IKey): nat {
    ik.sequence * 256 + (if ik.kind.Put? then 1 else 0)
  }

  // InternalKeyComparator: increasing user key, then decreasing tag.
  predicate ILess(a: IKey, b: IKey) {
    a.key < b.key || (a.key == b.key && Tag(a) > Tag(b))
  }

  predicate ILeq(a: IKey, b: IKey) {
    !ILess(b, a)
  }

  function LookupKey(k: Key, s: Sequence): IKey {
    IKey(k, s, Put)
  }

  predicate Sorted(es: seq<Entry>) {
    forall i, j :: 0 <= i < j < |es| ==> ILess(es[i].ik, es[j].ik)
  }

  ghost function SetOf(es: seq<Entry>): set<Entry> {
    set e | e in es
  }

  predicate Visible(e: Entry, k: Key, s: Sequence) {
    e.ik.key == k && e.ik.sequence <= s
  }

  // No two entries carry the same user key and sequence number.
  ghost predicate Distinct(es: set<Entry>) {
    forall a, b :: a in es && b in es && a.ik.key == b.ik.key && a.ik.sequence == b.ik.sequence ==> a == b
  }

  ghost predicate Newest(es: set<Entry>, k: Key, s: Sequence, e: Entry) {
    && e in es
    && Visible(e, k, s)
    && forall x :: x in es && Visible(x, k, s) ==> x.ik.sequence <= e.ik.sequence
  }

  // The specification of every read path: the value of the newest visible
  // entry, or None when there is none or it is a deletion marker.
  ghost function Read(es: set<Entry>, k: Key, s: Sequence): Option<Value> {
    if exists e :: Newest(es, k, s, e) && e.ik.kind.Put? then
      var e :| Newest(es, k, s, e) && e.ik.kind.Put?;
      Some(e.value)
    else
      None
  }

  // What a search that stops at entry e answers.
  function Answer(e: Entry): Option<Value> {
    if e.ik.kind.Put? then Some(e.value) else None
  }

  lemma ReadIsNewest(es: set<Entry>, k: Key, s: Sequence, e: Entry)
    requires Distinct(es)
    requires Newest(es, k, s, e)
    ensures Read(es, k, s) == Answer(e)
  {
    forall x | Newest(es, k, s, x) ensures x == e {
      assert x.ik.sequence <= e.ik.sequence && e.ik.sequence <= x.ik.sequence;
    }
  }

  lemma ReadNothing(es: set<Entry>, k: Key, s: Sequence)
    requires forall e :: e in es ==> !Visible(e, k, s)
    ensures Read(es, k, s) == None
  {
  }

  // Either nothing is visible or there is a newest visible entry.
  lemma {:induction false} NewestExists(es: set<Entry>, k: Key, s: Sequence)
    requires exists x :: x in es && Visible(x, k, s)
    ensures exists e :: Newest(es, k, s, e)
    decreases es
  {
    var x :| x in es && Visible(x, k, s);
    var rest := es - {x};
    if exists y :: y in rest && Visible(y, k, s) {
      NewestExists(rest, k, s);
      var m :| Newest(rest, k, s, m);
      assert Newest(es, k, s, if x.ik.sequence <= m.ik.sequence then m else x);
    } else {
      assert Newest(es, k, s, x);
    }
  }

  // Reads depend only on the entries of the key: two sets that offer the same
  // newest visible entry, or none, read alike.
  lemma ReadEqual(a: set<Entry>, b: set<Entry>, k: Key, s: Sequence)
    requires forall e :: Visible(e, k, s) ==> (e in a <==> e in b)
    requires Distinct(a) && Distinct(b)
    ensures Read(a, k, s) == Read(b, k, s)
  {
    if exists x :: x in a && Visible(x, k, s) {
      NewestExists(a, k, s);
      var e :| Newest(a, k, s, e);
      assert Newest(b, k, s, e);
      ReadIsNewest(a, k, s, e);
      ReadIsNewest(b, k, s, e);
    }
  }
}
