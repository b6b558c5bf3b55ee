/**
  The iterator over a block (table/block.cc).  Every method is total on arbitrary
  bytes; on a block that the builder finished, the iterator is a cursor on the
  list of entries.
 */
module BlockIter {
  import opened Basics
  import opened Coding
  import opened Arithmetic
  import opened Blocks

  type Order = (Bytes, Bytes) -> bool

  ghost predicate StrictOrder(less: Order) {
    && (forall a :: !less(a, a))
    && (forall a, b, c :: less(a, b) && less(b, c) ==> less(a, c))
    && (forall a, b :: a != b ==> less(a, b) || less(b, a))
  }

  ghost predicate Sorted(es: seq<Pair>, less: Order) {
    forall i, j :: 0 <= i < j < |es| ==> less(es[i].key, es[j].key)
  }

  // ---------------------------------------------------------------- decoding

  // The lengths of an entry and where its key bytes start.
  datatype Header = Header(shared: nat, nonShared: nat, valueLength: nat, at: nat)

  // Three varints at the head of input.  The short form reads three single bytes.
  function Lengths(input: Bytes): (r: Option<(nat, nat, nat, Bytes)>)
    ensures r.Some? ==> |r.value.3| < |input|
  {
    if |input| < 3 then None
    else if input[0] < 128 && input[1] < 128 && input[2] < 128 then
      Some((input[0], input[1], input[2], input[3..]))
    else LongLengths(input)
  }

  function LongLengths(input: Bytes): (r: Option<(nat, nat, nat, Bytes)>)
    ensures r.Some? ==> |r.value.3| < |input|
  {
    match GetVarint32(input)
    case None => None
    case Some((x, rest)) =>
      match GetVarint32(rest)
      case None => None
      case Some((y, rest')) =>
        match GetVarint32(rest')
        case None => None
        case Some((z, rest'')) => Some((x, y, z, rest''))
  }

  function DecodeEntry(data: Bytes, p: nat, limit: nat): (r: Option<Header>)
    requires limit <= |data|
    ensures r.Some? ==> p < r.value.at && r.value.at + r.value.nonShared + r.value.valueLength <= limit
  {
    if limit < p then None
    else
      match Lengths(data[p..limit])
      case None => None
      case Some((shared, nonShared, valueLength, rest)) =>
        if |rest| < nonShared + valueLength then None
        else Some(Header(shared, nonShared, valueLength, limit - |rest|))
  }

  lemma OneByteVarint(v: nat)
    ensures v < 128 <==> Varint(v)[0] < 128
    ensures v < 128 ==> Varint(v) == [v]
  {
  }

  lemma LongLengthsEncoded(x: uint32, y: uint32, z: uint32, tail: Bytes)
    ensures LongLengths(Varint(x) + (Varint(y) + (Varint(z) + tail))) == Some((x, y, z, tail))
  {
    hide Varint, GetVarint32;
    Varint32RoundTrip(x, Varint(y) + (Varint(z) + tail));
    Varint32RoundTrip(y, Varint(z) + tail);
    Varint32RoundTrip(z, tail);
  }

  // Both forms read back what was written.
  lemma LengthsEncoded(x: uint32, y: uint32, z: uint32, tail: Bytes)
    ensures Lengths(Varint(x) + (Varint(y) + (Varint(z) + tail))) == Some((x, y, z, tail))
  {
    LongLengthsEncoded(x, y, z, tail);
    OneByteVarint(x);
    OneByteVarint(y);
    OneByteVarint(z);
    hide Varint, LongLengths;
    var input := Varint(x) + (Varint(y) + (Varint(z) + tail));
    assert input[0] == Varint(x)[0];
    if x < 128 {
      assert input[1..] == Varint(y) + (Varint(z) + tail);
      assert input[1] == input[1..][0] == Varint(y)[0];
      if y < 128 {
        assert input[2..] == Varint(z) + tail;
        assert input[2] == input[2..][0] == Varint(z)[0];
        if z < 128 {
          assert input[3..] == tail;
        }
      }
    }
  }

  function LengthsSize(shared: nat, e: Pair): nat
    requires shared <= |e.key|
  {
    |Varint(shared)| + |Varint(|e.key| - shared)| + |Varint(|e.value|)|
  }

  // An entry is decoded as it was encoded.
  lemma DecodeEncoded(data: Bytes, p: nat, limit: nat, shared: nat, e: Pair, rest: Bytes)
    requires p <= limit <= |data| && shared <= |e.key| && |e.key| < TWO_32 && |e.value| < TWO_32
    requires data[p..limit] == EntryBytes(shared, e) + rest
    ensures DecodeEntry(data, p, limit) == Some(Header(shared, |e.key| - shared, |e.value|, p + LengthsSize(shared, e)))
  {
    hide Varint, Lengths;
    var (a, b, c) := (Varint(shared), Varint(|e.key| - shared), Varint(|e.value|));
    var tail := e.key[shared..] + e.value + rest;
    assert data[p..limit] == a + (b + (c + tail));
    LengthsEncoded(shared, |e.key| - shared, |e.value|, tail);
  }

  function LengthsBytes(shared: nat, e: Pair): (r: Bytes)
    requires shared <= |e.key|
    ensures |r| == LengthsSize(shared, e)
  {
    Varint(shared) + Varint(|e.key| - shared) + Varint(|e.value|)
  }

  lemma EntryShape(shared: nat, e: Pair, rest: Bytes)
    requires shared <= |e.key|
    ensures var (head, delta) := (LengthsBytes(shared, e), e.key[shared..]);
      && |EntryBytes(shared, e)| == |head| + |delta| + |e.value|
      && EntryBytes(shared, e) + rest == head + (delta + (e.value + rest)) == (head + delta) + (e.value + rest)
  {
    hide Varint;
  }

  // at + bytes: the key delta and the value of an entry that ends at end.
  ghost predicate Holds(data: Bytes, at: nat, delta: Bytes, value: Bytes, end: nat) {
    && at + |delta| + |value| == end <= |data|
    && data[at..at + |delta|] == delta && data[at + |delta|..end] == value
  }

  lemma SlicesHold(data: Bytes, p: nat, limit: nat, head: Bytes, delta: Bytes, value: Bytes, rest: Bytes)
    requires p <= limit <= |data|
    requires data[p..limit] == head + (delta + (value + rest)) == (head + delta) + (value + rest)
    ensures Holds(data, p + |head|, delta, value, p + |head| + |delta| + |value|)
  {
    var (n, k, m) := (|head|, |delta|, |value|);
    MiddleSlice(head, delta, value + rest);
    MiddleSlice(head + delta, value, rest);
    assert |data[p..limit]| == n + k + m + |rest|;
    SliceOfSlice(data, p, limit, n, n + k);
    SliceOfSlice(data, p, limit, n + k, n + k + m);
  }

  // Its key and value bytes follow the lengths.
  lemma EncodedBytes(data: Bytes, p: nat, limit: nat, shared: nat, e: Pair, rest: Bytes)
    requires p <= limit <= |data| && shared <= |e.key|
    requires data[p..limit] == EntryBytes(shared, e) + rest
    ensures Holds(data, p + LengthsSize(shared, e), e.key[shared..], e.value, p + |EntryBytes(shared, e)|)
  {
    hide EntryBytes, LengthsBytes, LengthsSize, Holds;
    EntryShape(shared, e, rest);
    SlicesHold(data, p, limit, LengthsBytes(shared, e), e.key[shared..], e.value, rest);
  }

  // ---------------------------------------------------------------- state

  // The block, cut into entries and restart array.
  datatype View = View(data: Bytes, restarts: nat, count: nat)

  ghost predicate ViewOk(v: View) {
    v.count > 0 && v.restarts + 4 * v.count <= |v.data|
  }

  // value is a slice of the block; the next entry starts where it ends.
  datatype Cursor = Cursor(current: nat, restartIndex: nat, key: Bytes, valueStart: nat, valueLength: nat,
                           corrupt: bool)

  function NextEntryOffset(c: Cursor): nat {
    c.valueStart + c.valueLength
  }

  function RestartPoint(v: View, i: nat): nat
    requires ViewOk(v) && i < v.count
  {
    DecodeFixed32(v.data[v.restarts + 4 * i..])
  }

  function Off(v: View, c: Cursor): Cursor {
    c.(current := v.restarts, restartIndex := v.count)
  }

  function Corrupted(v: View): Cursor {
    Cursor(v.restarts, v.count, [], 0, 0, true)
  }

  function AtRestart(v: View, c: Cursor, i: nat): Cursor
    requires ViewOk(v) && i < v.count
  {
    c.(key := [], restartIndex := i, valueStart := RestartPoint(v, i), valueLength := 0)
  }

  // The last restart point before offset, from i on.
  function CatchUp(v: View, i: nat, offset: nat): (r: nat)
    requires ViewOk(v) && i < v.count
    ensures i <= r < v.count
    decreases v.count - i
  {
    if i + 1 < v.count && RestartPoint(v, i + 1) < offset then CatchUp(v, i + 1, offset) else i
  }

  // What ParseNextKey does.
  function ParseNext(v: View, c: Cursor): (r: (bool, Cursor))
    requires ViewOk(v) && c.restartIndex < v.count
    ensures r.0 ==> r.1.current == NextEntryOffset(c) < NextEntryOffset(r.1) <= v.restarts && r.1.restartIndex < v.count
    ensures !r.0 ==> r.1.current == v.restarts
  {
    var p := NextEntryOffset(c);
    if p >= v.restarts then (false, Off(v, c))
    else
      match DecodeEntry(v.data, p, v.restarts)
      case None => (false, Corrupted(v))
      case Some(h) =>
        if |c.key| < h.shared then (false, Corrupted(v))
        else
          var key := c.key[..h.shared] + v.data[h.at..h.at + h.nonShared];
          (true, Cursor(p, CatchUp(v, c.restartIndex, p), key, h.at + h.nonShared, h.valueLength, c.corrupt))
  }

  // ---------------------------------------------------------------- built blocks

  // The iterator's view of a block that holds es.
  ghost predicate Built(v: View, es: seq<Pair>, interval: nat) {
    && interval >= 1 && Small(es, interval) && v.data == Block(es, interval)
    && v.restarts == |Data(es, interval)| && v.count == RestartCount(|es|, interval)
  }

  lemma BuiltOk(v: View, es: seq<Pair>, interval: nat)
    requires Built(v, es, interval)
    ensures ViewOk(v)
  {
  }

  // Block::Block: find the restart array from the end of the contents.
  function OpenBlock(contents: Bytes): (v: Option<View>)
    ensures v.Some? && v.value.count > 0 ==> ViewOk(v.value)
  {
    var size := |contents|;
    if size < 4 then None
    else
      var count := DecodeFixed32(contents[size - 4..]);
      if count > (size - 4) / 4 then None else Some(View(contents, size - (1 + count) * 4, count))
  }

  // A finished block opens as what was built.
  lemma OpensBuilt(es: seq<Pair>, interval: nat)
    requires interval >= 1 && Small(es, interval)
    ensures OpenBlock(Block(es, interval)).Some? && Built(OpenBlock(Block(es, interval)).value, es, interval)
  {
    hide Data, Fixed32, DecodeFixed32, Words;
    RestartsSmall(es, interval);
    var count := RestartCount(|es|, interval);
    var (d, rs, n) := (Data(es, interval), Words(Restarts(es, interval)), Fixed32(count));
    var block := Block(es, interval);
    assert block[|block| - 4..] == n + [];
    Fixed32RoundTrip(count, []);
    assert |block| == |d| + 4 * count + 4;
  }

  lemma BuiltRestart(v: View, es: seq<Pair>, interval: nat, i: nat)
    requires ViewOk(v) && Built(v, es, interval) && i < v.count
    ensures i * interval <= |es| && RestartPoint(v, i) == Offset(es, interval, i * interval)
  {
    hide Fixed32, DecodeFixed32, Data, Words, Offset;
    RestartEntry(|es|, interval, i);
    RestartsSmall(es, interval);
    var (d, rs, n) := (Data(es, interval), Restarts(es, interval), Fixed32(v.count));
    assert v.data == d + (Words(rs) + n);
    assert v.data[|d| + 4 * i..] == (Words(rs) + n)[4 * i..];
    WordAt(rs, i, n);
  }

  lemma BuiltEntry(v: View, es: seq<Pair>, interval: nat, i: nat)
    requires Built(v, es, interval) && i < |es|
    ensures var p := Offset(es, interval, i);
      && p < Offset(es, interval, i + 1) <= v.restarts <= |v.data|
      && v.data[p..v.restarts] ==
        EntryBytes(Shared(es, interval, i), es[i]) + v.data[Offset(es, interval, i + 1)..v.restarts]
  {
    hide EntryBytes, Shared, Words, Restarts, Fixed32;
    EntryInData(es, interval, i);
    OffsetsAscend(es, interval, i, i + 1);
    var (p, q) := (Offset(es, interval, i), Offset(es, interval, i + 1));
    hide Data, Offset;
    assert v.data[..v.restarts] == Data(es, interval);
    assert v.data[p..q] == Data(es, interval)[p..q];
    assert v.data[p..v.restarts] == v.data[p..q] + v.data[q..v.restarts];
  }

  // The restart index may lag by one behind an entry at a restart point.
  ghost predicate IndexOk(es: seq<Pair>, interval: nat, index: nat, i: nat)
    requires interval >= 1
  {
    index < RestartCount(|es|, interval) && index * interval <= i <= (index + 1) * interval
  }

  // The cursor is on entry i.
  ghost predicate AtEntry(v: View, c: Cursor, es: seq<Pair>, interval: nat, i: nat) {
    && interval >= 1 && i < |es| && IndexOk(es, interval, c.restartIndex, i)
    && c.current == Offset(es, interval, i) && c.key == es[i].key
    && NextEntryOffset(c) == Offset(es, interval, i + 1) <= |v.data|
    && v.data[c.valueStart..NextEntryOffset(c)] == es[i].value
  }

  // The next entry to be parsed is i.
  ghost predicate BeforeEntry(c: Cursor, es: seq<Pair>, interval: nat, i: nat) {
    && interval >= 1 && i <= |es| && NextEntryOffset(c) == Offset(es, interval, i)
    && (i % interval == 0 || c.key == es[i - 1].key)
    && c.restartIndex < RestartCount(|es|, interval) && c.restartIndex * interval <= i
  }

  lemma AtIsBefore(v: View, c: Cursor, es: seq<Pair>, interval: nat, i: nat)
    requires AtEntry(v, c, es, interval, i)
    ensures BeforeEntry(c, es, interval, i + 1)
  {
  }

  lemma RestartIsBefore(v: View, c: Cursor, es: seq<Pair>, interval: nat, r: nat)
    requires ViewOk(v) && Built(v, es, interval) && r < v.count
    ensures r * interval <= |es| && BeforeEntry(AtRestart(v, c, r), es, interval, r * interval)
  {
    hide RestartPoint;
    BuiltRestart(v, es, interval, r);
    MultipleMod(r, interval);
  }

  lemma {:induction false} CatchUpIs(v: View, es: seq<Pair>, interval: nat, index: nat, i: nat)
    requires ViewOk(v) && Built(v, es, interval) && index < v.count && i < |es| && index * interval <= i
    ensures IndexOk(es, interval, CatchUp(v, index, Offset(es, interval, i)), i)
    decreases v.count - index
  {
    hide Data, Small, Block;
    if index + 1 < v.count {
      BuiltRestart(v, es, interval, index + 1);
      var next := (index + 1) * interval;
      if next < i {
        OffsetsAscend(es, interval, next, i);
        CatchUpIs(v, es, interval, index + 1, i);
      } else {
        OffsetsAscend(es, interval, i, next);
      }
    } else {
      LastRestart(|es|, interval, i);
    }
  }

  lemma LastRestart(n: nat, interval: nat, i: nat)
    requires interval >= 1 && i < n
    ensures i < RestartCount(n, interval) * interval
  {
    var q := (n - 1) / interval;
    assert n - 1 < q * interval + interval;
  }

  // The header and the bytes of an entry that ends at end.
  ghost predicate Decodes(v: View, h: Header, shared: nat, e: Pair, end: nat) {
    && shared <= |e.key| && h.shared == shared && h.nonShared == |e.key| - shared && h.valueLength == |e.value|
    && Holds(v.data, h.at, e.key[shared..], e.value, end)
  }

  lemma DecodeBuilt(v: View, es: seq<Pair>, interval: nat, i: nat)
    requires Built(v, es, interval) && i < |es| && v.restarts <= |v.data|
    ensures var r := DecodeEntry(v.data, Offset(es, interval, i), v.restarts);
      r.Some? && Decodes(v, r.value, Shared(es, interval, i), es[i], Offset(es, interval, i + 1))
  {
    hide EntryBytes, DecodeEntry, Data, Block, LengthsSize, Offset, Shared;
    var shared := Shared(es, interval, i);
    var (p, q) := (Offset(es, interval, i), Offset(es, interval, i + 1));
    BuiltEntry(v, es, interval, i);
    assert |es[i].key| < TWO_32 && |es[i].value| < TWO_32;
    DecodeEncoded(v.data, p, v.restarts, shared, es[i], v.data[q..v.restarts]);
    EncodedBytes(v.data, p, v.restarts, shared, es[i], v.data[q..v.restarts]);
    OffsetMore(es, interval, i);
  }

  lemma OffsetMore(es: seq<Pair>, interval: nat, i: nat)
    requires interval >= 1 && i < |es|
    ensures Offset(es, interval, i) + |EntryBytes(Shared(es, interval, i), es[i])| == Offset(es, interval, i + 1)
  {
    EntryInData(es, interval, i);
  }

  lemma SharedKnown(c: Cursor, es: seq<Pair>, interval: nat, i: nat)
    requires BeforeEntry(c, es, interval, i) && i < |es|
    ensures var n := Shared(es, interval, i);
      n <= |c.key| && n <= |es[i].key| && c.key[..n] + es[i].key[n..] == es[i].key
  {
    hide Data;
    var n := Shared(es, interval, i);
    assert c.key[..n] == es[i].key[..n];
    assert es[i].key[..n] + es[i].key[n..] == es[i].key;
  }

  lemma BeforeEnd(c: Cursor, v: View, es: seq<Pair>, interval: nat, i: nat)
    requires Built(v, es, interval) && BeforeEntry(c, es, interval, i)
    ensures NextEntryOffset(c) < v.restarts <==> i < |es|
  {
    hide Data, Block;
    assert es[..|es|] == es;
    OffsetsAscend(es, interval, i, |es|);
  }

  // Decoding gives the entry's key and value.
  lemma ParseEntry(v: View, c: Cursor, shared: nat, e: Pair, end: nat)
    requires ViewOk(v) && c.restartIndex < v.count && NextEntryOffset(c) < v.restarts
    requires var r := DecodeEntry(v.data, NextEntryOffset(c), v.restarts);
             r.Some? && Decodes(v, r.value, shared, e, end)
    requires shared <= |c.key| && c.key[..shared] + e.key[shared..] == e.key
    ensures EntryIs(v, NextEntryOffset(c), e, end, CatchUp(v, c.restartIndex, NextEntryOffset(c)), ParseNext(v, c))
  {
    hide DecodeEntry, CatchUp;
  }

  ghost predicate EntryIs(v: View, start: nat, e: Pair, end: nat, index: nat, outcome: (bool, Cursor)) {
    var d := outcome.1;
    && outcome.0 && d.current == start && d.restartIndex == index && d.key == e.key
    && NextEntryOffset(d) == end <= |v.data| && v.data[d.valueStart..end] == e.value
  }

  // ParseNextKey moves on by exactly one entry.
  lemma ParseBuilt(v: View, c: Cursor, es: seq<Pair>, interval: nat, i: nat)
    requires ViewOk(v) && Built(v, es, interval) && c.restartIndex < v.count && BeforeEntry(c, es, interval, i)
    ensures Parsed(v, c, es, interval, i, ParseNext(v, c))
  {
    hide Built, DecodeEntry, CatchUp, Offset, Shared, IndexOk, Decodes;
    BeforeEnd(c, v, es, interval, i);
    if i < |es| {
      CatchUpIs(v, es, interval, c.restartIndex, i);
      DecodeBuilt(v, es, interval, i);
      SharedKnown(c, es, interval, i);
      hide BeforeEntry, ParseNext;
      ParseEntry(v, c, Shared(es, interval, i), es[i], Offset(es, interval, i + 1));
    }
  }

  ghost predicate Parsed(v: View, c: Cursor, es: seq<Pair>, interval: nat, i: nat, outcome: (bool, Cursor)) {
    if i < |es| then outcome.0 && AtEntry(v, outcome.1, es, interval, i) else !outcome.0 && outcome.1 == Off(v, c)
  }
}
