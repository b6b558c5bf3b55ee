/** Shared vocabulary: bytes and optional results. */
module Basics {
  type byte = x: int | 0 <= x < 256
  type Bytes = seq<byte>

  datatype Option<+T> = None | Some(value: T)

  lemma SliceOfSlice(data: Bytes, p: nat, limit: nat, a: nat, b: nat)
    requires p <= limit <= |data| && a <= b <= limit - p
    ensures data[p..limit][a..b] == data[p + a..p + b]
  {
    assert forall i :: 0 <= i < b - a ==> data[p..limit][a..b][i] == data[p + a..p + b][i];
  }

  lemma MiddleSlice(a: Bytes, b: Bytes, c: Bytes)
    ensures (a + (b + c))[|a|..|a| + |b|] == b
  {
  }
}
