/**
  Bloom filters (util/bloom.cc).  The hash function is a parameter: nothing here
  depends on which one it is.
 */
module Bloom {
  import opened Basics
  import opened Coding

  type HashFunction = Bytes -> uint32

  // ---------------------------------------------------------------- bits

  function BitMask(i: nat): bv8
    requires i < 8
  {
    (1 as bv8) << i
  }

  function Union(a: bv8, b: bv8): bv8 {
    a | b
  }

  predicate Meets(a: bv8, b: bv8) {
    a & b != 0
  }

  function SetBit(b: byte, i: nat): byte
    requires i < 8
  {
    Union(b as bv8, BitMask(i)) as int
  }

  predicate HasBit(b: byte, i: nat)
    requires i < 8
  {
    Meets(b as bv8, BitMask(i))
  }

  lemma MaskNonZero(i: nat)
    requires i < 8
    ensures BitMask(i) != 0
  {
    if i == 0 {
    } else if i == 1 {
    } else if i == 2 {
    } else if i == 3 {
    } else if i == 4 {
    } else if i == 5 {
    } else if i == 6 {
    }
  }

  lemma IntAndBack(b: bv8)
    ensures (b as int) as bv8 == b
  {
  }

  lemma SetBitSets(b: byte, i: nat, j: nat)
    requires i < 8 && j < 8
    ensures HasBit(SetBit(b, i), i)
    ensures HasBit(b, j) ==> HasBit(SetBit(b, i), j)
  {
    assert Meets(BitMask(i), BitMask(i)) by { MaskNonZero(i); }
    hide SetBit, BitMask, Union, Meets;
    SetBitIs(b, i);
    UnionMeets(b as bv8, BitMask(i), BitMask(i));
    UnionMeets(b as bv8, BitMask(i), BitMask(j));
  }

  // The other bits stay.
  lemma SetBitKeeps(b: byte, i: nat, j: nat)
    requires i < 8 && j < 8 && i != j
    ensures HasBit(SetBit(b, i), j) <==> HasBit(b, j)
  {
    hide SetBit, BitMask, Union, Meets;
    MasksApart(i, j);
    SetBitIs(b, i);
    UnionMeets(b as bv8, BitMask(i), BitMask(j));
  }

  lemma SetBitIs(b: byte, i: nat)
    requires i < 8
    ensures SetBit(b, i) as bv8 == Union(b as bv8, BitMask(i))
  {
    hide BitMask, Union;
    IntAndBack(Union(b as bv8, BitMask(i)));
  }

  lemma UnionMeets(b: bv8, m: bv8, n: bv8)
    ensures Meets(Union(b, m), n) <==> Meets(b, n) || Meets(m, n)
  {
  }

  lemma MasksApart(i: nat, j: nat)
    requires i < 8 && j < 8 && i != j
    ensures !Meets(BitMask(i), BitMask(j))
  {
    MaskIs(i);
    MaskIs(j);
  }

  lemma MaskIs(i: nat)
    requires i < 8
    ensures BitMask(i) == [1, 2, 4, 8, 16, 32, 64, 128][i]
  {
    if i == 0 {
    } else if i == 1 {
    } else if i == 2 {
    } else if i == 3 {
    } else if i == 4 {
    } else if i == 5 {
    } else if i == 6 {
    }
  }

  // ---------------------------------------------------------------- arrays of bits

  function SetAt(bits: Bytes, pos: nat): (r: Bytes)
    requires pos < 8 * |bits|
    ensures |r| == |bits|
  {
    bits[pos / 8 := SetBit(bits[pos / 8], pos % 8)]
  }

  predicate HasAt(bits: Bytes, pos: nat)
    requires pos < 8 * |bits|
  {
    HasBit(bits[pos / 8], pos % 8)
  }

  // Nothing is ever cleared.
  ghost predicate Covers(a: Bytes, b: Bytes) {
    |a| == |b| && forall pos :: 0 <= pos < 8 * |a| && HasAt(a, pos) ==> HasAt(b, pos)
  }

  lemma SetAtSets(bits: Bytes, pos: nat)
    requires pos < 8 * |bits|
    ensures HasAt(SetAt(bits, pos), pos) && Covers(bits, SetAt(bits, pos))
  {
    hide SetBit, HasBit;
    forall p | 0 <= p < 8 * |bits| && (p == pos || HasAt(bits, p)) ensures HasAt(SetAt(bits, pos), p) {
      SetBitSets(bits[pos / 8], pos % 8, p % 8);
    }
  }

  lemma SetAtIs(bits: Bytes, pos: nat, p: nat)
    requires pos < 8 * |bits| && p < 8 * |bits|
    ensures HasAt(SetAt(bits, pos), p) <==> p == pos || HasAt(bits, p)
  {
    hide SetBit, HasBit;
    SetBitSets(bits[pos / 8], pos % 8, p % 8);
    if p / 8 == pos / 8 && p % 8 != pos % 8 {
      SetBitKeeps(bits[pos / 8], pos % 8, p % 8);
    }
  }

  // ---------------------------------------------------------------- probes

  // Rotate right by 17 bits.
  function Delta(h: uint32): uint32 {
    h / 0x2_0000 + h % 0x2_0000 * 0x8000
  }

  function Advance(h: uint32, delta: uint32): uint32 {
    (h + delta) % TWO_32
  }

  // Set the bits of k probes, by double hashing.
  function SetProbes(bits: Bytes, h: uint32, delta: uint32, k: nat): (r: Bytes)
    requires |bits| > 0
    ensures |r| == |bits|
    decreases k
  {
    if k == 0 then bits else SetProbes(SetAt(bits, h % (8 * |bits|)), Advance(h, delta), delta, k - 1)
  }

  predicate HasProbes(bits: Bytes, h: uint32, delta: uint32, k: nat)
    requires |bits| > 0
    decreases k
  {
    k == 0 || (HasAt(bits, h % (8 * |bits|)) && HasProbes(bits, Advance(h, delta), delta, k - 1))
  }

  lemma {:induction false} SetProbesCovers(bits: Bytes, h: uint32, delta: uint32, k: nat)
    requires |bits| > 0
    ensures Covers(bits, SetProbes(bits, h, delta, k))
    decreases k
  {
    hide SetAt, HasAt;
    if k > 0 {
      var pos := h % (8 * |bits|);
      SetAtSets(bits, pos);
      SetProbesCovers(SetAt(bits, pos), Advance(h, delta), delta, k - 1);
    }
  }

  lemma {:induction false} CoverHasProbes(a: Bytes, b: Bytes, h: uint32, delta: uint32, k: nat)
    requires |a| > 0 && Covers(a, b) && HasProbes(a, h, delta, k)
    ensures HasProbes(b, h, delta, k)
    decreases k
  {
    hide HasAt;
    if k > 0 {
      CoverHasProbes(a, b, Advance(h, delta), delta, k - 1);
    }
  }

  lemma {:induction false} SetProbesSets(bits: Bytes, h: uint32, delta: uint32, k: nat)
    requires |bits| > 0
    ensures HasProbes(SetProbes(bits, h, delta, k), h, delta, k)
    decreases k
  {
    hide SetAt, HasAt;
    if k > 0 {
      var pos := h % (8 * |bits|);
      var once := SetAt(bits, pos);
      SetAtSets(bits, pos);
      SetProbesSets(once, Advance(h, delta), delta, k - 1);
      SetProbesCovers(once, Advance(h, delta), delta, k - 1);
    }
  }

  // ---------------------------------------------------------------- filters

  // 0.69 approximates ln 2.
  function ProbeCount(bitsPerKey: nat): (k: nat)
    ensures 1 <= k <= 30
  {
    var k := (bitsPerKey as real * 0.69).Floor;
    if k < 1 then 1 else if k > 30 then 30 else k
  }

  function FilterSize(n: nat, bitsPerKey: nat): (bytes: nat)
    ensures bytes > 0
  {
    var bits := n * bitsPerKey;
    ((if bits < 64 then 64 else bits) + 7) / 8
  }

  function AddKeys(bits: Bytes, keys: seq<Bytes>, k: nat, hash: HashFunction): (r: Bytes)
    requires |bits| > 0
    ensures |r| == |bits|
  {
    if keys == [] then bits
    else
      var n := |keys| - 1;
      var h := hash(keys[n]);
      SetProbes(AddKeys(bits, keys[..n], k, hash), h, Delta(h), k)
  }

  function Filter(keys: seq<Bytes>, bitsPerKey: nat, hash: HashFunction): Bytes {
    var k := ProbeCount(bitsPerKey);
    AddKeys(seq(FilterSize(|keys|, bitsPerKey), _ => 0), keys, k, hash) + [k]
  }

  predicate MayMatch(key: Bytes, filter: Bytes, hash: HashFunction) {
    var len := |filter|;
    if len < 2 then false
    else
      var k := filter[len - 1];
      // More probes are reserved for other encodings.
      k > 30 || (var h := hash(key); HasProbes(filter[..len - 1], h, Delta(h), k))
  }

  lemma {:induction false} AddKeysHas(bits: Bytes, keys: seq<Bytes>, k: nat, hash: HashFunction, i: nat)
    requires |bits| > 0 && i < |keys|
    ensures HasProbes(AddKeys(bits, keys, k, hash), hash(keys[i]), Delta(hash(keys[i])), k)
  {
    hide Delta, SetProbes, HasProbes;
    var n := |keys| - 1;
    var h := hash(keys[n]);
    var before := AddKeys(bits, keys[..n], k, hash);
    SetProbesSets(before, h, Delta(h), k);
    if i < n {
      AddKeysHas(bits, keys[..n], k, hash, i);
      SetProbesCovers(before, h, Delta(h), k);
      CoverHasProbes(before, AddKeys(bits, keys, k, hash), hash(keys[i]), Delta(hash(keys[i])), k);
    }
  }

  // No false negatives.
  lemma FilterMatches(keys: seq<Bytes>, bitsPerKey: nat, hash: HashFunction, i: nat)
    requires i < |keys|
    ensures MayMatch(keys[i], Filter(keys, bitsPerKey, hash), hash)
  {
    hide AddKeys, HasProbes, FilterSize, ProbeCount, Delta;
    var k := ProbeCount(bitsPerKey);
    var bits := AddKeys(seq(FilterSize(|keys|, bitsPerKey), _ => 0), keys, k, hash);
    assert (bits + [k])[..|bits|] == bits;
    AddKeysHas(seq(FilterSize(|keys|, bitsPerKey), _ => 0), keys, k, hash, i);
  }

  // ---------------------------------------------------------------- exactly the probed bits

  // The j-th value of the double hashing sequence, with 32-bit wrap-around.
  function Probe(h: uint32, delta: uint32, j: nat): uint32 {
    (h + j * delta) % TWO_32
  }

  lemma ProbeNext(h: uint32, delta: uint32, j: nat)
    ensures Probe(Advance(h, delta), delta, j) == Probe(h, delta, j + 1)
    ensures Probe(h, delta, 0) == h
  {
    var a := h + delta;
    var q := a / TWO_32;
    assert a == TWO_32 * q + a % TWO_32;
    assert h + (j + 1) * delta == TWO_32 * q + (a % TWO_32 + j * delta);
    WrapsAway(q, a % TWO_32 + j * delta);
  }

  lemma WrapsAway(q: nat, x: nat)
    ensures (TWO_32 * q + x) % TWO_32 == x % TWO_32
  {
  }

  ghost predicate Probed(p: nat, h: uint32, delta: uint32, k: nat, bits: nat)
    requires bits > 0
  {
    exists j :: 0 <= j < k && p == Probe(h, delta, j) % bits
  }

  lemma ProbedFirst(p: nat, h: uint32, delta: uint32, k: nat, bits: nat)
    requires bits > 0 && k > 0
    ensures Probed(p, h, delta, k, bits) <==> p == h % bits || Probed(p, Advance(h, delta), delta, k - 1, bits)
  {
    hide Probe;
    ProbeNext(h, delta, 0);
    if Probed(p, h, delta, k, bits) {
      var j :| 0 <= j < k && p == Probe(h, delta, j) % bits;
      if j > 0 { ProbeNext(h, delta, j - 1); }
    }
    if Probed(p, Advance(h, delta), delta, k - 1, bits) {
      var j :| 0 <= j < k - 1 && p == Probe(Advance(h, delta), delta, j) % bits;
      ProbeNext(h, delta, j);
    }
  }

  lemma {:induction false} SetProbesIs(bits: Bytes, h: uint32, delta: uint32, k: nat, p: nat)
    requires |bits| > 0 && p < 8 * |bits|
    ensures HasAt(SetProbes(bits, h, delta, k), p) <==> HasAt(bits, p) || Probed(p, h, delta, k, 8 * |bits|)
    decreases k
  {
    hide SetAt, HasAt, Probed;
    if k > 0 {
      var pos := h % (8 * |bits|);
      SetAtIs(bits, pos, p);
      SetProbesIs(SetAt(bits, pos), Advance(h, delta), delta, k - 1, p);
      ProbedFirst(p, h, delta, k, 8 * |bits|);
    } else {
      NotProbed(p, h, delta, 8 * |bits|);
    }
  }

  lemma NotProbed(p: nat, h: uint32, delta: uint32, bits: nat)
    requires bits > 0
    ensures !Probed(p, h, delta, 0, bits)
  {
  }

  lemma {:induction false} HasProbesIs(bits: Bytes, h: uint32, delta: uint32, k: nat)
    requires |bits| > 0
    ensures HasProbes(bits, h, delta, k) <==> forall j :: 0 <= j < k ==> HasAt(bits, Probe(h, delta, j) % (8 * |bits|))
    decreases k
  {
    hide HasAt, Probe;
    if k > 0 {
      var next := Advance(h, delta);
      ProbeNext(h, delta, 0);
      HasProbesIs(bits, next, delta, k - 1);
      forall j | 0 <= j < k - 1
        ensures Probe(next, delta, j) == Probe(h, delta, j + 1)
      {
        ProbeNext(h, delta, j);
      }
      if HasProbes(bits, h, delta, k) {
        forall j | 0 <= j < k
          ensures HasAt(bits, Probe(h, delta, j) % (8 * |bits|))
        {
          if j > 0 { assert Probe(next, delta, j - 1) == Probe(h, delta, j); }
        }
      }
    }
  }

  // The key rotated right by 17 bits is the step of its sequence.
  function Position(hash: HashFunction, key: Bytes, j: nat, bits: nat): nat
    requires bits > 0
  {
    Probe(hash(key), hash(key) / 131072 + hash(key) % 131072 * 32768, j) % bits
  }

  ghost predicate SetBySome(p: nat, keys: seq<Bytes>, k: nat, hash: HashFunction, bits: nat)
    requires bits > 0
  {
    exists i, j :: 0 <= i < |keys| && 0 <= j < k && p == Position(hash, keys[i], j, bits)
  }

  lemma {:induction false} AddKeysIs(bits: Bytes, keys: seq<Bytes>, k: nat, hash: HashFunction, p: nat)
    requires |bits| > 0 && p < 8 * |bits|
    ensures HasAt(AddKeys(bits, keys, k, hash), p) <==> HasAt(bits, p) || SetBySome(p, keys, k, hash, 8 * |bits|)
  {
    hide HasAt, SetProbes, Probe;
    if keys != [] {
      var n := |keys| - 1;
      var h := hash(keys[n]);
      AddKeysIs(bits, keys[..n], k, hash, p);
      SetProbesIs(AddKeys(bits, keys[..n], k, hash), h, Delta(h), k, p);
      if SetBySome(p, keys[..n], k, hash, 8 * |bits|) {
        var i, j :| 0 <= i < n && 0 <= j < k && p == Position(hash, keys[..n][i], j, 8 * |bits|);
        assert p == Position(hash, keys[i], j, 8 * |bits|);
      }
      if Probed(p, h, Delta(h), k, 8 * |bits|) {
        var j :| 0 <= j < k && p == Probe(h, Delta(h), j) % (8 * |bits|);
        assert p == Position(hash, keys[n], j, 8 * |bits|);
      }
      if SetBySome(p, keys, k, hash, 8 * |bits|) {
        var i, j :| 0 <= i < |keys| && 0 <= j < k && p == Position(hash, keys[i], j, 8 * |bits|);
        if i < n {
          assert p == Position(hash, keys[..n][i], j, 8 * |bits|);
        } else {
          assert p == Probe(h, Delta(h), j) % (8 * |bits|);
        }
      }
    }
  }

  ghost predicate HoldsExactly(bits: Bytes, keys: seq<Bytes>, k: nat, hash: HashFunction) {
    forall p :: 0 <= p < 8 * |bits| ==> (HasAt(bits, p) <==> SetBySome(p, keys, k, hash, 8 * |bits|))
  }

  ghost predicate HasAll(bits: Bytes, key: Bytes, k: nat, hash: HashFunction) {
    |bits| > 0 && forall j :: 0 <= j < k ==> HasAt(bits, Position(hash, key, j, 8 * |bits|))
  }

  // What CreateFilter leaves: the number of probes in the last byte, and before
  // it exactly the probed bits of the keys.
  ghost predicate IsFilter(filter: Bytes, keys: seq<Bytes>, bitsPerKey: nat, hash: HashFunction) {
    var bits := if |keys| * bitsPerKey < 64 then 64 else |keys| * bitsPerKey;
    && |filter| == (bits + 7) / 8 + 1
    && var k := filter[|filter| - 1];
       && 1 <= k <= 30
       && (k > 1 ==> 100 * k <= 69 * bitsPerKey) && (k < 30 ==> 69 * bitsPerKey < 100 * (k + 1))
       && HoldsExactly(filter[..|filter| - 1], keys, k, hash)
  }

  lemma FilterIs(keys: seq<Bytes>, bitsPerKey: nat, hash: HashFunction)
    ensures IsFilter(Filter(keys, bitsPerKey, hash), keys, bitsPerKey, hash)
  {
    hide AddKeys, HasAt, SetBySome;
    var k := ProbeCount(bitsPerKey);
    ProbeCountIs(bitsPerKey);
    hide ProbeCount;
    var zeros: Bytes := seq(FilterSize(|keys|, bitsPerKey), _ => 0);
    var bits := AddKeys(zeros, keys, k, hash);
    assert (bits + [k])[..|bits|] == bits;
    forall p | 0 <= p < 8 * |bits|
      ensures HasAt(bits, p) <==> SetBySome(p, keys, k, hash, 8 * |bits|)
    {
      AddKeysIs(zeros, keys, k, hash, p);
      NoBit(zeros, p);
    }
  }

  lemma NoBit(bits: Bytes, p: nat)
    requires p < 8 * |bits| && forall i :: 0 <= i < |bits| ==> bits[i] == 0
    ensures !HasAt(bits, p)
  {
    hide BitMask;
    ZeroMasked(BitMask(p % 8));
  }

  lemma ZeroMasked(m: bv8)
    ensures 0 as bv8 & m == 0
  {
  }

  lemma ProbeCountIs(bitsPerKey: nat)
    ensures var k := ProbeCount(bitsPerKey);
            (k > 1 ==> 100 * k <= 69 * bitsPerKey) && (k < 30 ==> 69 * bitsPerKey < 100 * (k + 1))
  {
    var x := bitsPerKey as real * 0.69;
    assert x.Floor as real <= x < (x.Floor + 1) as real;
    assert x * 100.0 == (69 * bitsPerKey) as real;
  }

  // A key matches if and only if all its probed bits are set; filters that are
  // too short match nothing, and reserved ones everything.
  lemma MayMatchIs(key: Bytes, filter: Bytes, hash: HashFunction)
    ensures MayMatch(key, filter, hash) <==>
      && |filter| >= 2
      && (filter[|filter| - 1] > 30 || HasAll(filter[..|filter| - 1], key, filter[|filter| - 1], hash))
  {
    hide HasAt, Probe;
    if |filter| >= 2 {
      var bits := filter[..|filter| - 1];
      HasProbesIs(bits, hash(key), Delta(hash(key)), filter[|filter| - 1]);
      var (h, m) := (hash(key), 8 * |bits|);
      assert forall j: nat :: Position(hash, key, j, m) == Probe(h, Delta(h), j) % m;
    }
  }

  // The filter of no keys matches no key.
  lemma EmptyMatchesNothing(key: Bytes, bitsPerKey: nat, hash: HashFunction)
    ensures !MayMatch(key, Filter([], bitsPerKey, hash), hash)
  {
    var filter := Filter([], bitsPerKey, hash);
    FilterIs([], bitsPerKey, hash);
    MayMatchIs(key, filter, hash);
    hide HasAt, Filter, MayMatch, Position;
    var bits := filter[..|filter| - 1];
    PositionInside(hash, key, 0, 8 * |bits|);
    assert !HasAt(bits, Position(hash, key, 0, 8 * |bits|));
  }

  lemma PositionInside(hash: HashFunction, key: Bytes, j: nat, bits: nat)
    requires bits > 0
    ensures 0 <= Position(hash, key, j, bits) < bits
  {
  }

  // ---------------------------------------------------------------- loops

  method CreateFilter(keys: seq<Bytes>, bitsPerKey: nat, hash: HashFunction, dst: Bytes) returns (r: Bytes)
    ensures r == dst + Filter(keys, bitsPerKey, hash)
    ensures r[..|dst|] == dst && IsFilter(r[|dst|..], keys, bitsPerKey, hash)
  {
    hide AddKeys, SetProbes, Delta, IsFilter;
    FilterIs(keys, bitsPerKey, hash);
    var k := ProbeCount(bitsPerKey);
    var bytes := FilterSize(|keys|, bitsPerKey);
    var bits := new byte[bytes](_ => 0);
    ghost var zeros := bits[..];
    assert zeros == seq(bytes, _ => 0);
    var i := 0;
    AddNone(zeros, k, hash);
    while i < |keys|
      invariant 0 <= i <= |keys|
      invariant bits[..] == AddKeys(zeros, keys[..i], k, hash)
    {
      var h := hash(keys[i]);
      AddOne(zeros, keys, i, k, hash);
      SetKey(bits, h, Delta(h), k);
      i := i + 1;
    }
    assert keys[..i] == keys;
    r := dst + (bits[..] + [k]);
    assert r[|dst|..] == bits[..] + [k];
  }

  lemma AddNone(bits: Bytes, k: nat, hash: HashFunction)
    requires |bits| > 0
    ensures AddKeys(bits, [], k, hash) == bits
  {
  }

  lemma AddOne(bits: Bytes, keys: seq<Bytes>, i: nat, k: nat, hash: HashFunction)
    requires |bits| > 0 && i < |keys|
    ensures AddKeys(bits, keys[..i + 1], k, hash)
         == SetProbes(AddKeys(bits, keys[..i], k, hash), hash(keys[i]), Delta(hash(keys[i])), k)
  {
    assert keys[..i + 1][..i] == keys[..i];
  }

  // The inner loop: set the bits of one key in place.
  method SetKey(bits: array<byte>, hash: uint32, delta: uint32, k: nat)
    requires bits.Length > 0
    modifies bits
    ensures bits[..] == SetProbes(old(bits[..]), hash, delta, k)
  {
    hide SetBit;
    var h: uint32 := hash;
    var j := 0;
    while j < k
      invariant 0 <= j <= k
      invariant SetProbes(bits[..], h, delta, k - j) == SetProbes(old(bits[..]), hash, delta, k)
    {
      var pos := h % (8 * bits.Length);
      ghost var before := bits[..];
      bits[pos / 8] := SetBit(bits[pos / 8], pos % 8);
      assert bits[..] == SetAt(before, pos);
      h := Advance(h, delta);
      j := j + 1;
    }
  }

  method KeyMayMatch(key: Bytes, filter: Bytes, hash: HashFunction) returns (matches: bool)
    ensures matches == MayMatch(key, filter, hash)
  {
    hide Delta, HasAt;
    var len := |filter|;
    if len < 2 {
      return false;
    }
    var bits := filter[..len - 1];
    var k := filter[len - 1];
    if k > 30 {
      return true;
    }
    var h: uint32 := hash(key);
    var delta := Delta(h);
    var j := 0;
    while j < k
      invariant 0 <= j <= k
      invariant HasProbes(bits, h, delta, k - j) == HasProbes(bits, hash(key), delta, k)
    {
      if !HasAt(bits, h % (8 * |bits|)) {
        return false;
      }
      h := Advance(h, delta);
      j := j + 1;
    }
    return true;
  }
}
