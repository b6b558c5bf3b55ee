/**
  The contract of every iterator over internal keys (include/leveldb/iterator.h):
  a cursor on a sorted list of entries.  The position past the end stands for an
  iterator that is not valid.
 */
module Cursors {
  import opened Entries

  datatype Cursor = Cursor(es: seq<Entry>, pos: nat)

  // The first entry that is not before the key.
  function LowerBound(es: seq<Entry>, k: IKey): (i: nat)
    ensures i <= |es| && (i < |es| ==> !ILess(es[i].ik, k))
    ensures forall j :: 0 <= j < i ==> ILess(es[j].ik, k)
  {
    if es == [] || !ILess(es[0].ik, k) then 0
    else
      var i := LowerBound(es[1..], k);
      assert forall j :: 0 < j <= i ==> es[j] == es[1..][j - 1];
      i + 1
  }

  lemma LowerBoundIs(es: seq<Entry>, k: IKey, i: nat)
    requires Sorted(es) && i <= |es| && (i > 0 ==> ILess(es[i - 1].ik, k)) && (i < |es| ==> !ILess(es[i].ik, k))
    ensures LowerBound(es, k) == i
  {
    assert forall j :: 0 <= j < i - 1 ==> ILess(es[j].ik, es[i - 1].ik);
  }

  predicate Valid(c: Cursor) {
    c.pos < |c.es|
  }

  function Current(c: Cursor): Entry
    requires Valid(c)
  {
    c.es[c.pos]
  }

  function Seek(c: Cursor, k: IKey): Cursor {
    c.(pos := LowerBound(c.es, k))
  }

  function SeekToFirst(c: Cursor): Cursor {
    c.(pos := 0)
  }

  function SeekToLast(c: Cursor): Cursor {
    c.(pos := if c.es == [] then 0 else |c.es| - 1)
  }

  function Next(c: Cursor): Cursor
    requires Valid(c)
  {
    c.(pos := c.pos + 1)
  }

  function Prev(c: Cursor): Cursor
    requires Valid(c)
  {
    c.(pos := if c.pos == 0 then |c.es| else c.pos - 1)
  }
}
