/**
  The log file (db/log_format.h, db/log_writer.cc): records cut into fragments so
  that none crosses a 32 KB block, each fragment with a seven-byte header.
 */
module LogFormat {
  import opened Basics
  import opened Coding
  import Crc32c

  const BLOCK_SIZE: nat := 32768
  const HEADER_SIZE: nat := 7

  const ZERO_TYPE: byte := 0
  const FULL: byte := 1
  const FIRST: byte := 2
  const MIDDLE: byte := 3
  const LAST: byte := 4

  // ---------------------------------------------------------------- layout

  function Zeros(n: nat): (r: Bytes)
    ensures |r| == n
  {
    seq(n, _ => 0)
  }

  // The trailer that ends a block with too little room for a header.
  function Padding(position: nat): (n: nat)
    ensures n < HEADER_SIZE && (position + n) % BLOCK_SIZE + HEADER_SIZE <= BLOCK_SIZE
  {
    var leftover := BLOCK_SIZE - position % BLOCK_SIZE;
    if leftover < HEADER_SIZE then leftover else 0
  }

  // The payload bytes that still fit in the block of a header at position.
  function Available(position: nat): (n: nat)
    requires position % BLOCK_SIZE + HEADER_SIZE <= BLOCK_SIZE
    ensures n <= BLOCK_SIZE - HEADER_SIZE
  {
    BLOCK_SIZE - position % BLOCK_SIZE - HEADER_SIZE
  }

  function TypeOf(begin: bool, end: bool): byte {
    if begin && end then FULL else if begin then FIRST else if end then LAST else MIDDLE
  }

  function Checksum(kind: byte, payload: Bytes): uint32 {
    Crc32c.Mask(Crc32c.Extended(Crc32c.Value([kind]), payload)) as int
  }

  // Checksum, length, type.
  function Header(crc: uint32, length: nat, kind: byte): (r: Bytes)
    requires length < 65536
    ensures |r| == HEADER_SIZE
  {
    var (low: byte, high: byte) := (length % 256, length / 256);
    Fixed32(crc) + [low, high, kind]
  }

  function Physical(kind: byte, payload: Bytes): (r: Bytes)
    requires |payload| < 65536
    ensures |r| == HEADER_SIZE + |payload|
  {
    Header(Checksum(kind, payload), |payload|, kind) + payload
  }

  // How much of data the next fragment takes.
  function Taken(position: nat, data: Bytes): (n: nat)
    ensures n <= |data| && n < 65536
  {
    var avail := Available(position + Padding(position));
    if |data| < avail then |data| else avail
  }

  // Where the next fragment ends.
  function FragmentEnd(position: nat, data: Bytes): nat {
    position + Padding(position) + HEADER_SIZE + Taken(position, data)
  }

  // An empty fragment only ever fills a block's last seven bytes, so the next
  // one makes progress.
  lemma Progress(position: nat, data: Bytes)
    requires Taken(position, data) == 0 && data != []
    ensures Taken(FragmentEnd(position, data), data) > 0
  {
    var q := position + Padding(position);
    assert q % BLOCK_SIZE == BLOCK_SIZE - HEADER_SIZE;
    assert (q + HEADER_SIZE) % BLOCK_SIZE == 0;
  }

  // A fragment never crosses a block, takes all of the data or fills the block, and
  // a trailer only ever ends one.
  lemma FragmentFills(position: nat, data: Bytes)
    ensures var (start, end) := (position + Padding(position), FragmentEnd(position, data));
            && start / 32768 == (end - 1) / 32768
            && (Taken(position, data) == |data| || end % 32768 == 0)
            && Padding(position) < 7 && (Padding(position) > 0 ==> start % 32768 == 0)
  {
    var (start, end) := (position + Padding(position), FragmentEnd(position, data));
    var q := start / 32768;
    assert start == 32768 * q + start % 32768 && end <= 32768 * (q + 1);
    assert Taken(position, data) < |data| ==> end == 32768 * (q + 1);
  }

  // The next fragment, after the trailer that may precede it.
  function Fragment(position: nat, data: Bytes, begin: bool): (r: Bytes)
    ensures position + |r| == FragmentEnd(position, data)
  {
    var n := Taken(position, data);
    Zeros(Padding(position)) + Physical(TypeOf(begin, n == |data|), data[..n])
  }

  // What AddRecord appends to a file of length position.
  function Emitted(position: nat, data: Bytes, begin: bool): Bytes
    decreases |data|, if Taken(position, data) == 0 then 1 else 0, 1
  {
    Fragment(position, data, begin) + EmittedRest(position, data)
  }

  function EmittedRest(position: nat, data: Bytes): Bytes
    decreases |data|, if Taken(position, data) == 0 then 1 else 0, 0
  {
    var n := Taken(position, data);
    var next := FragmentEnd(position, data);
    if n == |data| then []
    else
      assert n == 0 ==> Taken(next, data[n..]) > 0 by {
        if n == 0 { assert data[n..] == data; Progress(position, data); }
      }
      Emitted(next, data[n..], false)
  }

  // A log file holding the records, one after the other.
  function Written(records: seq<Bytes>): Bytes {
    if records == [] then []
    else
      var before := Written(records[..|records| - 1]);
      before + Emitted(|before|, records[|records| - 1], true)
  }

  lemma EmittedStep(before: Bytes, data: Bytes, begin: bool)
    ensures before + Emitted(|before|, data, begin)
         == before + Fragment(|before|, data, begin) + EmittedRest(|before|, data)
  {
  }

  lemma SameRest(a: nat, b: nat, n: nat)
    requires a % BLOCK_SIZE == b % BLOCK_SIZE
    ensures (a + n) % BLOCK_SIZE == (b + n) % BLOCK_SIZE
  {
  }

  // ---------------------------------------------------------------- writer

  // db/log_writer.cc.  Appends are assumed to succeed.
  class Writer {
    var dest: Bytes
    var blockOffset: nat

    // The offset within the block; a block just filled is offset BLOCK_SIZE.
    ghost predicate Valid()
      reads this
    {
      blockOffset <= BLOCK_SIZE && blockOffset % BLOCK_SIZE == |dest| % BLOCK_SIZE
    }

    constructor ()
      ensures Valid() && dest == []
    {
      dest := [];
      blockOffset := 0;
    }

    method AddRecord(record: Bytes)
      requires Valid()
      modifies this
      ensures Valid()
      ensures dest == old(dest) + Emitted(|old(dest)|, record, true)
    {
      hide Fragment, Taken, Emitted;
      var left := record;
      var begin := true;
      var done := false;
      while !done
        invariant Valid()
        invariant dest + (if done then [] else Emitted(|dest|, left, begin))
               == old(dest) + Emitted(|old(dest)|, record, true)
        decreases !done, |left|, if Taken(|dest|, left) == 0 then 1 else 0
      {
        ghost var before := dest;
        var n := AddFragment(left, begin);
        EmittedStep(before, left, begin);
        if n == 0 {
          assert left[n..] == left;
          if left != [] { Progress(|before|, left); }
        }
        left := left[n..];
        begin := false;
        done := |left| == 0;
      }
    }

    // One turn of the loop: the trailer if the block is full, then a fragment.
    method AddFragment(left: Bytes, begin: bool) returns (n: nat)
      requires Valid()
      modifies this
      ensures Valid() && n == Taken(|old(dest)|, left)
      ensures dest == old(dest) + Fragment(|old(dest)|, left, begin)
    {
      hide Checksum, Physical;
      ghost var position := |dest|;
      var leftover := BLOCK_SIZE - blockOffset;
      if leftover < HEADER_SIZE {
        dest := dest + Zeros(leftover);
        blockOffset := 0;
      }
      assert dest == old(dest) + Zeros(Padding(position));
      var avail := BLOCK_SIZE - blockOffset - HEADER_SIZE;
      n := if |left| < avail then |left| else avail;
      var end := |left| == n;
      EmitPhysicalRecord(TypeOf(begin, end), left[..n]);
    }

    // The checksum continues from that of the type byte.
    method EmitPhysicalRecord(kind: byte, payload: Bytes)
      requires Valid() && blockOffset + HEADER_SIZE + |payload| <= BLOCK_SIZE
      modifies this
      ensures Valid() && blockOffset == old(blockOffset) + HEADER_SIZE + |payload|
      ensures dest == old(dest) + Physical(kind, payload)
    {
      hide Checksum, Header;
      var crc := Checksum(kind, payload);
      SameRest(blockOffset, |dest|, HEADER_SIZE + |payload|);
      dest := dest + Header(crc, |payload|, kind);
      dest := dest + payload;
      assert dest == old(dest) + (Header(crc, |payload|, kind) + payload);
      blockOffset := blockOffset + HEADER_SIZE + |payload|;
    }
  }
}
