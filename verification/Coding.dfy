/**
  Integers and strings as bytes (util/coding.cc): fixed-width little-endian
  numbers, varints and length-prefixed strings.
 */
module Coding {
  import opened Basics

  const TWO_32: nat := 0x1_0000_0000
  const TWO_64: nat := 0x1_0000_0000_0000_0000

  type uint32 = x: int | 0 <= x < TWO_32
  type uint64 = x: int | 0 <= x < TWO_64

  // ---------------------------------------------------------------- fixed width

  function Fixed32(v: uint32): (r: Bytes)
    ensures |r| == 4
  {
    [v % 256, v / 256 % 256, v / 65536 % 256, v / 0x100_0000]
  }

  function DecodeFixed32(b: Bytes): uint32
    requires |b| >= 4
  {
    (b[0] as int) + 256 * (b[1] as int) + 65536 * (b[2] as int) + 0x100_0000 * (b[3] as int)
  }

  lemma Fixed32RoundTrip(v: uint32, rest: Bytes)
    ensures DecodeFixed32(Fixed32(v) + rest) == v
  {
    var b := Fixed32(v) + rest;
    assert b[0] == v % 256 && b[1] == v / 256 % 256 && b[2] == v / 65536 % 256 && b[3] == v / 0x100_0000;
    assert v / 65536 == (v / 256) / 256 && v / 0x100_0000 == (v / 65536) / 256;
  }

  // Low byte first.
  lemma Fixed32LowFirst(v: uint32)
    ensures var r := Fixed32(v);
            r[0] as int + 0x100 * r[1] as int + 0x1_0000 * r[2] as int + 0x100_0000 * r[3] as int == v
  {
  }

  function Fixed64(v: uint64): (r: Bytes)
    ensures |r| == 8
  {
    Fixed32(v % TWO_32) + Fixed32(v / TWO_32)
  }

  function DecodeFixed64(b: Bytes): uint64
    requires |b| >= 8
  {
    DecodeFixed32(b) + TWO_32 * DecodeFixed32(b[4..])
  }

  lemma Fixed64RoundTrip(v: uint64, rest: Bytes)
    ensures DecodeFixed64(Fixed64(v) + rest) == v
  {
    var (lo, hi) := (Fixed32(v % TWO_32), Fixed32(v / TWO_32));
    assert Fixed64(v) + rest == lo + (hi + rest);
    assert (lo + (hi + rest))[4..] == hi + rest;
    Fixed32RoundTrip(v % TWO_32, hi + rest);
    Fixed32RoundTrip(v / TWO_32, rest);
  }

  // A run of 32-bit words.
  function Words(rs: seq<nat>): (r: Bytes)
    requires forall i :: 0 <= i < |rs| ==> rs[i] < TWO_32
    ensures |r| == 4 * |rs|
  {
    if rs == [] then [] else Words(rs[..|rs| - 1]) + Fixed32(rs[|rs| - 1])
  }

  lemma {:induction false} WordAt(rs: seq<nat>, i: nat, rest: Bytes)
    requires (forall j :: 0 <= j < |rs| ==> rs[j] < TWO_32) && i < |rs|
    ensures DecodeFixed32((Words(rs) + rest)[4 * i..]) == rs[i]
  {
    hide Fixed32, DecodeFixed32;
    var n := |rs| - 1;
    var (before, last) := (Words(rs[..n]), Fixed32(rs[n]));
    assert Words(rs) + rest == before + (last + rest);
    if i == n {
      assert (before + (last + rest))[4 * n..] == last + rest;
      Fixed32RoundTrip(rs[n], rest);
    } else {
      WordAt(rs[..n], i, last + rest);
    }
  }

  // Numbers cut to 32 bits.
  function Truncated(rs: seq<nat>): (r: seq<nat>)
    ensures |r| == |rs| && forall i :: 0 <= i < |r| ==> r[i] == rs[i] % TWO_32
  {
    seq(|rs|, i requires 0 <= i < |rs| => rs[i] % TWO_32)
  }

  lemma TruncatedSmall(rs: seq<nat>)
    requires forall i :: 0 <= i < |rs| ==> rs[i] < TWO_32
    ensures Truncated(rs) == rs
  {
  }

  lemma WordsMore(rs: seq<nat>, i: nat)
    requires (forall j :: 0 <= j < |rs| ==> rs[j] < TWO_32) && i < |rs|
    ensures Words(rs[..i + 1]) == Words(rs[..i]) + Fixed32(rs[i])
  {
    hide Fixed32;
    assert rs[..i + 1][..i] == rs[..i];
  }

  // A loop of PutFixed32.
  method PutWords(dst: Bytes, rs: seq<nat>) returns (r: Bytes)
    ensures r == dst + Words(Truncated(rs))
  {
    hide Fixed32, Words;
    ghost var words := Truncated(rs);
    r := dst;
    assert words[..0] == [];
    NoWords();
    var i := 0;
    while i < |rs|
      invariant 0 <= i <= |rs| && r == dst + Words(words[..i])
    {
      WordsMore(words, i);
      r := r + Fixed32(rs[i] % TWO_32);
      i := i + 1;
    }
    assert words[..i] == words;
  }

  lemma NoWords()
    ensures Words([]) == []
  {
  }

  // ---------------------------------------------------------------- varints

  // Seven bits a byte, low bits first; the high bit says that more follow.
  function Varint(v: nat): (r: Bytes)
    ensures |r| > 0
  {
    if v < 128 then [v] else [v % 128 + 128] + Varint(v / 128)
  }

  // A varint of at most n bytes at the head of input, and what follows it.
  function ParseVarint(input: Bytes, n: nat): (r: Option<(nat, Bytes)>)
    ensures r.Some? ==> |r.value.1| < |input|
    decreases n
  {
    if n == 0 || input == [] then None
    else if input[0] < 128 then Some((input[0], input[1..]))
    else
      match ParseVarint(input[1..], n - 1)
      case None => None
      case Some((v, rest)) => Some((input[0] - 128 + 128 * v, rest))
  }

  function Power128(n: nat): nat {
    if n == 0 then 1 else 128 * Power128(n - 1)
  }

  function Digits(r: Bytes): nat {
    if r == [] then 0 else r[0] as int % 128 + 128 * Digits(r[1..])
  }

  // The bytes are the digits to base 128, low ones first, as few as there can be;
  // all but the last have the high bit.
  lemma {:induction false} VarintDigits(v: nat)
    ensures var r := Varint(v);
            && Digits(r) == v && (forall i :: 0 <= i < |r| - 1 ==> r[i] >= 128) && r[|r| - 1] < 128
            && (|r| > 1 ==> r[|r| - 1] > 0)
  {
    var r := Varint(v);
    if v >= 128 {
      VarintDigits(v / 128);
      assert r[1..] == Varint(v / 128);
    } else {
      assert r[1..] == [];
    }
  }

  lemma {:induction false} VarintRoundTrip(v: nat, n: nat, rest: Bytes)
    requires n > 0 && v < Power128(n)
    ensures ParseVarint(Varint(v) + rest, n) == Some((v, rest))
    decreases n
  {
    var input := Varint(v) + rest;
    if v < 128 {
      assert input[1..] == rest;
    } else {
      assert v / 128 < Power128(n - 1);
      assert input[1..] == Varint(v / 128) + rest;
      VarintRoundTrip(v / 128, n - 1, rest);
    }
  }

  // Bits shifted beyond the width of the result are lost.
  function GetVarint32(input: Bytes): (r: Option<(uint32, Bytes)>)
    ensures r.Some? ==> |r.value.1| < |input|
  {
    match ParseVarint(input, 5)
    case None => None
    case Some((v, rest)) => Some((v % TWO_32, rest))
  }

  function GetVarint64(input: Bytes): (r: Option<(uint64, Bytes)>)
    ensures r.Some? ==> |r.value.1| < |input|
  {
    match ParseVarint(input, 10)
    case None => None
    case Some((v, rest)) => Some((v % TWO_64, rest))
  }

  lemma Varint32RoundTrip(v: uint32, rest: Bytes)
    ensures GetVarint32(Varint(v) + rest) == Some((v, rest))
  {
    assert Power128(1) == 128 && Power128(3) == 128 * 128 * 128;
    assert Power128(5) == 128 * (128 * Power128(3));
    VarintRoundTrip(v, 5, rest);
  }

  lemma Varint64RoundTrip(v: uint64, rest: Bytes)
    ensures GetVarint64(Varint(v) + rest) == Some((v, rest))
  {
    assert Power128(1) == 128 && Power128(3) == 128 * 128 * 128;
    assert Power128(5) == 128 * (128 * Power128(3));
    assert Power128(7) == 128 * (128 * Power128(5));
    assert Power128(9) == 128 * (128 * Power128(7));
    VarintRoundTrip(v, 10, rest);
  }

  // EncodeVarint32 spells out the five lengths.
  method EncodeVarint32(v: uint32) returns (r: Bytes)
    ensures r == Varint(v)
  {
    if v < 128 {
      r := [v];
    } else if v < 16384 {
      r := [v % 128 + 128, v / 128];
    } else if v < 0x20_0000 {
      r := [v % 128 + 128, v / 128 % 128 + 128, v / 16384];
      Varint3(v);
    } else if v < 0x1000_0000 {
      r := [v % 128 + 128, v / 128 % 128 + 128, v / 16384 % 128 + 128, v / 0x20_0000];
      Varint4(v);
    } else {
      r := [v % 128 + 128, v / 128 % 128 + 128, v / 16384 % 128 + 128, v / 0x20_0000 % 128 + 128, v / 0x1000_0000];
      Varint5(v);
    }
  }

  lemma Varint3(v: uint32)
    requires 16384 <= v < 0x20_0000
    ensures Varint(v) == [v % 128 + 128, v / 128 % 128 + 128, v / 16384]
  {
    assert (v / 128) / 128 == v / 16384;
    assert Varint(v / 128) == [v / 128 % 128 + 128, v / 16384];
  }

  lemma Varint4(v: uint32)
    requires 0x20_0000 <= v < 0x1000_0000
    ensures Varint(v) == [v % 128 + 128, v / 128 % 128 + 128, v / 16384 % 128 + 128, v / 0x20_0000]
  {
    var w := v / 128;
    assert w / 128 == v / 16384 && w / 16384 == v / 0x20_0000;
    Varint3(w);
  }

  lemma Varint5(v: uint32)
    requires 0x1000_0000 <= v
    ensures Varint(v) == [v % 128 + 128, v / 128 % 128 + 128, v / 16384 % 128 + 128, v / 0x20_0000 % 128 + 128,
            v / 0x1000_0000]
  {
    var w := v / 128;
    assert w / 128 == v / 16384 && w / 16384 == v / 0x20_0000 && w / 0x20_0000 == v / 0x1000_0000;
    Varint4(w);
  }

  method EncodeVarint64(value: uint64) returns (r: Bytes)
    ensures r == Varint(value)
  {
    var v := value;
    r := [];
    while v >= 128
      invariant v >= 0 && r + Varint(v) == Varint(value)
    {
      ghost var tail := Varint(v / 128);
      assert Varint(v) == [v % 128 + 128] + tail;
      assert r + ([v % 128 + 128] + tail) == (r + [v % 128 + 128]) + tail;
      r := r + [v % 128 + 128];
      v := v / 128;
    }
    r := r + [v];
  }

  // What a varint adds once result has been read, at a scale of seven bits more
  // for every byte so far.
  function Scaled(result: nat, scale: nat, tail: Option<(nat, Bytes)>): Option<(nat, Bytes)> {
    match tail
    case None => None
    case Some((v, rest)) => Some((result + scale * v, rest))
  }

  lemma ScaledStep(result: nat, scale: nat, input: Bytes, n: nat)
    requires n > 0 && input != [] && input[0] >= 128
    ensures Scaled(result, scale, ParseVarint(input, n))
         == Scaled(result + scale * (input[0] - 128), scale * 128, ParseVarint(input[1..], n - 1))
  {
    match ParseVarint(input[1..], n - 1)
    case None =>
    case Some((v, rest)) =>
      assert scale * (input[0] - 128 + 128 * v) == scale * (input[0] - 128) + scale * 128 * v;
  }

  // The decoding loop of GetVarint32PtrFallback (n = 5) and GetVarint64Ptr
  // (n = 10), before the result is cut to its width.
  method DecodeVarint(input: Bytes, n: nat) returns (r: Option<(nat, Bytes)>)
    ensures r == ParseVarint(input, n)
  {
    var result: nat, scale: nat, p := 0, 1, 0;
    while p < n && p < |input|
      invariant 0 <= p <= n && p <= |input|
      invariant ParseVarint(input, n) == Scaled(result, scale, ParseVarint(input[p..], n - p))
    {
      var b := input[p];
      ghost var tail := input[p..];
      assert tail[1..] == input[p + 1..];
      p := p + 1;
      if b >= 128 {
        ScaledStep(result, scale, tail, n - p + 1);
        result := result + scale * (b - 128);
        scale := scale * 128;
      } else {
        return Some((result + scale * b, input[p..]));
      }
    }
    return None;
  }

  // ---------------------------------------------------------------- strings

  function LengthPrefixed(s: Bytes): Bytes {
    Varint(|s|) + s
  }

  function GetLengthPrefixed(input: Bytes): (r: Option<(Bytes, Bytes)>)
    ensures r.Some? ==> |r.value.1| < |input|
  {
    match GetVarint32(input)
    case None => None
    case Some((len, rest)) => if len <= |rest| then Some((rest[..len], rest[len..])) else None
  }

  lemma LengthPrefixedRoundTrip(s: Bytes, rest: Bytes)
    requires |s| < TWO_32
    ensures GetLengthPrefixed(LengthPrefixed(s) + rest) == Some((s, rest))
  {
    assert LengthPrefixed(s) + rest == Varint(|s|) + (s + rest);
    Varint32RoundTrip(|s|, s + rest);
    assert (s + rest)[..|s|] == s && (s + rest)[|s|..] == rest;
  }
}
