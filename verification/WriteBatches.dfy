/**
  Write batches (db/write_batch.cc): an eight-byte sequence number, a four-byte
  count and the operations, one after the other.
 */
module WriteBatches {
  import opened Basics
  import opened Coding

  datatype Op = Put(key: Bytes, value: Bytes) | Delete(key: Bytes)

  const HEADER_SIZE: nat := 12
  const DELETION_TAG: byte := 0
  const VALUE_TAG: byte := 1

  // Lengths are stored as 32-bit numbers.
  predicate Fits(op: Op) {
    |op.key| < TWO_32 && (op.Put? ==> |op.value| < TWO_32)
  }

  ghost predicate AllFit(ops: seq<Op>) {
    && |ops| < TWO_32
    && forall i :: 0 <= i < |ops| ==> Fits(ops[i])
  }

  // ---------------------------------------------------------------- encoding

  function OpBytes(op: Op): (r: Bytes)
    ensures |r| > 0
  {
    match op
    case Put(key, value) => [VALUE_TAG] + LengthPrefixed(key) + LengthPrefixed(value)
    case Delete(key) => [DELETION_TAG] + LengthPrefixed(key)
  }

  function Body(ops: seq<Op>): Bytes {
    if ops == [] then [] else OpBytes(ops[0]) + Body(ops[1..])
  }

  // The representation of a batch.
  function Rep(sequence: uint64, ops: seq<Op>): (r: Bytes)
    requires |ops| < TWO_32
    ensures |r| >= HEADER_SIZE
  {
    Fixed64(sequence) + Fixed32(|ops|) + Body(ops)
  }

  function Sequence(rep: Bytes): uint64
    requires |rep| >= HEADER_SIZE
  {
    DecodeFixed64(rep)
  }

  function Count(rep: Bytes): uint32
    requires |rep| >= HEADER_SIZE
  {
    DecodeFixed32(rep[8..])
  }

  lemma {:induction false} BodyConcat(a: seq<Op>, b: seq<Op>)
    ensures Body(a + b) == Body(a) + Body(b)
  {
    if a == [] {
      assert a + b == b;
    } else {
      assert (a + b)[1..] == a[1..] + b;
      BodyConcat(a[1..], b);
    }
  }

  // The three parts of a representation.
  lemma Parts(a: Bytes, b: Bytes, c: Bytes)
    requires |a| == 8 && |b| == 4
    ensures (a + b + c)[..8] == a && (a + b + c)[8..] == b + c && (a + b + c)[HEADER_SIZE..] == c
    ensures a + b + c == a + (b + c)
  {
  }

  lemma RepFields(sequence: uint64, ops: seq<Op>)
    requires |ops| < TWO_32
    ensures Sequence(Rep(sequence, ops)) == sequence && Count(Rep(sequence, ops)) == |ops|
    ensures Rep(sequence, ops)[HEADER_SIZE..] == Body(ops)
  {
    hide Fixed64, DecodeFixed64, Fixed32, DecodeFixed32, Body;
    Parts(Fixed64(sequence), Fixed32(|ops|), Body(ops));
    Fixed64RoundTrip(sequence, Fixed32(|ops|) + Body(ops));
    Fixed32RoundTrip(|ops|, Body(ops));
  }

  // ---------------------------------------------------------------- decoding

  // The operation at the head of input, if it is well formed.
  function ParseOp(input: Bytes): (r: Option<(Op, Bytes)>)
    requires input != []
    ensures r.Some? ==> |r.value.1| < |input|
  {
    var tag := input[0];
    if tag != VALUE_TAG && tag != DELETION_TAG then None
    else
      match GetLengthPrefixed(input[1..])
      case None => None
      case Some((key, rest)) =>
        if tag == DELETION_TAG then Some((Delete(key), rest))
        else
          match GetLengthPrefixed(rest)
          case None => None
          case Some((value, rest')) => Some((Put(key, value), rest'))
  }

  // The operations handed to the handler, and whether all of input was sound.
  function ParseBody(input: Bytes): (seq<Op>, bool)
    decreases |input|
  {
    if input == [] then ([], true)
    else
      match ParseOp(input)
      case None => ([], false)
      case Some((op, rest)) =>
        var (ops, ok) := ParseBody(rest);
        ([op] + ops, ok)
  }

  // Iterate: the operations applied and the status.
  function Iterated(rep: Bytes): (seq<Op>, bool) {
    if |rep| < HEADER_SIZE then ([], false)
    else
      var (ops, ok) := ParseBody(rep[HEADER_SIZE..]);
      (ops, ok && |ops| == Count(rep))
  }

  lemma ParseOpBytes(op: Op, rest: Bytes)
    requires Fits(op)
    ensures ParseOp(OpBytes(op) + rest) == Some((op, rest))
  {
    hide LengthPrefixed, GetLengthPrefixed;
    var input := OpBytes(op) + rest;
    assert input[0] == OpBytes(op)[0];
    match op
    case Put(key, value) =>
      assert input[1..] == LengthPrefixed(key) + (LengthPrefixed(value) + rest);
      LengthPrefixedRoundTrip(key, LengthPrefixed(value) + rest);
      LengthPrefixedRoundTrip(value, rest);
    case Delete(key) =>
      assert input[1..] == LengthPrefixed(key) + rest;
      LengthPrefixedRoundTrip(key, rest);
  }

  lemma {:induction false} ParseBodyBytes(ops: seq<Op>)
    requires forall i :: 0 <= i < |ops| ==> Fits(ops[i])
    ensures ParseBody(Body(ops)) == (ops, true)
  {
    hide OpBytes, ParseOp;
    if ops != [] {
      ParseOpBytes(ops[0], Body(ops[1..]));
      ParseBodyBytes(ops[1..]);
      assert ops == [ops[0]] + ops[1..];
    }
  }

  // A batch iterates over exactly the operations put into it.
  lemma IterateRep(sequence: uint64, ops: seq<Op>)
    requires AllFit(ops)
    ensures Iterated(Rep(sequence, ops)) == (ops, true)
  {
    hide Rep, Body, ParseBody;
    RepFields(sequence, ops);
    ParseBodyBytes(ops);
  }

  // ---------------------------------------------------------------- batches

  // Setting fields of the header in place.
  function WithCount(rep: Bytes, n: uint32): Bytes
    requires |rep| >= HEADER_SIZE
  {
    rep[..8] + Fixed32(n) + rep[HEADER_SIZE..]
  }

  function WithSequence(rep: Bytes, sequence: uint64): Bytes
    requires |rep| >= HEADER_SIZE
  {
    Fixed64(sequence) + rep[8..]
  }

  lemma SetFields(old': uint64, sequence: uint64, ops: seq<Op>, n: uint32)
    requires |ops| < TWO_32
    ensures WithCount(Rep(old', ops), n) == Fixed64(old') + Fixed32(n) + Body(ops)
    ensures WithSequence(Rep(old', ops), sequence) == Rep(sequence, ops)
  {
    hide Fixed64, Fixed32, Body;
    Parts(Fixed64(old'), Fixed32(|ops|), Body(ops));
    Parts(Fixed64(sequence), Fixed32(|ops|), Body(ops));
  }

  // Counting more operations and appending their bytes.
  lemma Extended(sequence: uint64, a: seq<Op>, b: seq<Op>)
    requires |a| + |b| < TWO_32
    ensures Count(Rep(sequence, a)) == |a|
    ensures WithCount(Rep(sequence, a), |a| + |b|) + Body(b) == Rep(sequence, a + b)
  {
    hide *;
    RepFields(sequence, a);
    SetFields(sequence, sequence, a, |a| + |b|);
    BodyConcat(a, b);
    RepIs(sequence, a + b);
    Regroup(Fixed64(sequence) + Fixed32(|a| + |b|), Body(a), Body(b));
  }

  lemma Regroup(x: Bytes, y: Bytes, z: Bytes)
    ensures x + y + z == x + (y + z)
  {
  }

  lemma RepIs(sequence: uint64, ops: seq<Op>)
    requires |ops| < TWO_32
    ensures Rep(sequence, ops) == Fixed64(sequence) + Fixed32(|ops|) + Body(ops)
  {
  }

  class WriteBatch {
    var rep: Bytes
    ghost var sequence: uint64
    ghost var ops: seq<Op>

    ghost predicate Valid()
      reads this
    {
      AllFit(ops) && rep == Rep(sequence, ops)
    }

    constructor ()
      ensures Valid() && sequence == 0 && ops == []
    {
      rep := seq(HEADER_SIZE, _ => 0);
      sequence, ops := 0, [];
    }

    method SetSequence(n: uint64)
      requires Valid()
      modifies this
      ensures Valid() && sequence == n && ops == old(ops)
    {
      SetFields(sequence, n, ops, 0);
      rep := WithSequence(rep, n);
      sequence := n;
    }

    method Add(op: Op)
      requires Valid() && Fits(op) && |ops| + 1 < TWO_32
      modifies this
      ensures Valid() && sequence == old(sequence) && ops == old(ops) + [op]
    {
      hide Rep;
      rep := AddBytes(rep, op, sequence, ops);
      ops := ops + [op];
    }

    method Append(src: WriteBatch)
      requires Valid() && src.Valid() && src != this && |ops| + |src.ops| < TWO_32
      modifies this
      ensures Valid() && sequence == old(sequence) && ops == old(ops) + src.ops
    {
      hide Rep;
      rep := AppendBytes(rep, src.rep, sequence, ops, src.sequence, src.ops);
      ops := ops + src.ops;
    }

    // Iterate, and the sequence numbers that MemTableInserter gives out.
    method InsertInto() returns (handled: seq<(nat, Op)>, ok: bool)
      requires Valid()
      ensures ok && handled == Numbered(sequence, ops)
    {
      RepFields(sequence, ops);
      IterateRep(sequence, ops);
      handled, ok := InsertBytes(rep);
    }
  }

  method AddBytes(rep: Bytes, op: Op, ghost sequence: uint64, ghost ops: seq<Op>) returns (r: Bytes)
    requires |ops| + 1 < TWO_32 && rep == Rep(sequence, ops)
    ensures r == Rep(sequence, ops + [op])
  {
    assert Body([op]) == OpBytes(op) by { assert OpBytes(op) + [] == OpBytes(op); }
    hide *;
    Extended(sequence, ops, [op]);
    r := WithCount(rep, Count(rep) + 1);
    r := AppendOp(r, op);
  }

  method AppendBytes(rep: Bytes, src: Bytes, ghost n: uint64, ghost a: seq<Op>, ghost m: uint64, ghost b: seq<Op>)
    returns (r: Bytes)
    requires |a| + |b| < TWO_32 && rep == Rep(n, a) && src == Rep(m, b)
    ensures r == Rep(n, a + b)
  {
    hide *;
    RepFields(m, b);
    Extended(n, a, b);
    r := WithCount(rep, Count(rep) + Count(src)) + src[HEADER_SIZE..];
  }

  method AppendOp(rep: Bytes, op: Op) returns (r: Bytes)
    ensures r == rep + OpBytes(op)
  {
    hide LengthPrefixed;
    match op {
      case Put(key, value) =>
        r := rep + [VALUE_TAG];
        r := r + LengthPrefixed(key);
        r := r + LengthPrefixed(value);
      case Delete(key) =>
        r := rep + [DELETION_TAG];
        r := r + LengthPrefixed(key);
    }
  }

  // Operations with consecutive sequence numbers.
  function Numbered(first: nat, ops: seq<Op>): seq<(nat, Op)> {
    seq(|ops|, i requires 0 <= i < |ops| => (first + i, ops[i]))
  }

  // What an inserter receives from Iterate, and the status.
  function Inserted(rep: Bytes): (seq<(nat, Op)>, bool) {
    if |rep| < HEADER_SIZE then ([], false)
    else (Numbered(Sequence(rep), Iterated(rep).0), Iterated(rep).1)
  }

  // The loop of Iterate on arbitrary bytes, sound or not.
  method InsertBytes(rep: Bytes) returns (handled: seq<(nat, Op)>, ok: bool)
    ensures (handled, ok) == Inserted(rep)
  {
    hide Sequence, Count, ParseOp, ParseBody, Numbered;
    handled := [];
    if |rep| < HEADER_SIZE {
      return [], false;
    }
    var sequence := Sequence(rep);
    var input := rep[HEADER_SIZE..];
    ghost var ops: seq<Op> := [];
    assert handled == Numbered(sequence, ops) by { NumberedNone(sequence); }
    PrefixedNone(ParseBody(input));
    while |input| > 0
      invariant handled == Numbered(sequence, ops)
      invariant ParseBody(rep[HEADER_SIZE..]) == Prefixed(ops, ParseBody(input))
      decreases |input|
    {
      ParseStep(ops, input);
      match ParseOp(input) {
        case None =>
          return handled, false;
        case Some((op, rest)) =>
          NumberedMore(sequence, ops, op);
          handled := handled + [(sequence + |handled|, op)];
          ops := ops + [op];
          input := rest;
      }
    }
    ParseEnd(ops);
    NumberedMore(sequence, ops, Delete([]));
    assert input == [];
    ok := |handled| == Count(rep);
  }

  function Prefixed(ops: seq<Op>, tail: (seq<Op>, bool)): (seq<Op>, bool) {
    (ops + tail.0, tail.1)
  }

  lemma PrefixedNone(tail: (seq<Op>, bool))
    ensures Prefixed([], tail) == tail
  {
    assert [] + tail.0 == tail.0;
  }

  lemma NumberedNone(first: nat)
    ensures Numbered(first, []) == []
  {
  }

  lemma NumberedMore(first: nat, ops: seq<Op>, op: Op)
    ensures |Numbered(first, ops)| == |ops|
    ensures Numbered(first, ops + [op]) == Numbered(first, ops) + [(first + |ops|, op)]
  {
  }

  lemma ParseStep(ops: seq<Op>, input: Bytes)
    requires input != []
    ensures Prefixed(ops, ParseBody(input)) ==
      match ParseOp(input)
      case None => (ops, false)
      case Some((op, rest)) => Prefixed(ops + [op], ParseBody(rest))
  {
    hide ParseOp;
    match ParseOp(input)
    case None => assert ops + [] == ops;
    case Some((op, rest)) => assert ops + ([op] + ParseBody(rest).0) == (ops + [op]) + ParseBody(rest).0;
  }

  lemma ParseEnd(ops: seq<Op>)
    ensures Prefixed(ops, ParseBody([])) == (ops, true)
  {
    assert ops + [] == ops;
  }
}
