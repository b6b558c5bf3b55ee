/** Lists cut into blocks: where each block lies in the whole. */
module Concatenation {
  function Flat<T>(blocks: seq<seq<T>>): seq<T> {
    if blocks == [] then [] else Flat(blocks[..|blocks| - 1]) + blocks[|blocks| - 1]
  }

  // Where block i starts.
  function Before<T>(blocks: seq<seq<T>>, i: nat): nat
    requires i <= |blocks|
  {
    |Flat(blocks[..i])|
  }

  lemma {:induction false} BlockInFlat<T>(blocks: seq<seq<T>>, i: nat)
    requires i < |blocks|
    ensures Before(blocks, i + 1) == Before(blocks, i) + |blocks[i]| <= |Flat(blocks)|
    ensures Flat(blocks)[Before(blocks, i)..Before(blocks, i + 1)] == blocks[i]
  {
    var n := |blocks| - 1;
    assert blocks[..i + 1][..i] == blocks[..i];
    if i == n {
      assert blocks[..i + 1] == blocks;
    } else {
      var shorter := blocks[..n];
      BlockInFlat(shorter, i);
      assert shorter[..i] == blocks[..i] && shorter[..i + 1] == blocks[..i + 1];
    }
  }

  lemma EntryInFlat<T>(blocks: seq<seq<T>>, i: nat, j: nat)
    requires i < |blocks| && j < |blocks[i]|
    ensures Before(blocks, i) + j < |Flat(blocks)| && Flat(blocks)[Before(blocks, i) + j] == blocks[i][j]
  {
    hide Flat;
    BlockInFlat(blocks, i);
    assert blocks[i][j] == Flat(blocks)[Before(blocks, i)..Before(blocks, i + 1)][j];
  }

  lemma {:induction false} BeforeAscends<T>(blocks: seq<seq<T>>, i: nat, j: nat)
    requires i <= j <= |blocks|
    ensures Before(blocks, i) <= Before(blocks, j) <= |Flat(blocks)|
  {
    hide Flat;
    if i < j {
      BlockInFlat(blocks, j - 1);
      BeforeAscends(blocks, i, j - 1);
    } else if j < |blocks| {
      BlockInFlat(blocks, j);
    } else {
      assert blocks[..j] == blocks;
    }
  }

  lemma Ends<T>(blocks: seq<seq<T>>)
    ensures Before(blocks, |blocks|) == |Flat(blocks)| && Before(blocks, 0) == 0
  {
    assert blocks[..|blocks|] == blocks && blocks[..0] == [];
  }

  // Every entry lies in some block.
  lemma {:induction false} BlockOf<T>(blocks: seq<seq<T>>, q: nat) returns (i: nat)
    requires q < |Flat(blocks)|
    ensures i < |blocks| && Before(blocks, i) <= q < Before(blocks, i + 1)
  {
    var n := |blocks| - 1;
    if q < |Flat(blocks[..n])| {
      i := BlockOf(blocks[..n], q);
      assert blocks[..n][..i] == blocks[..i] && blocks[..n][..i + 1] == blocks[..i + 1];
    } else {
      i := n;
      assert blocks[..n + 1] == blocks;
    }
  }
}
