/**
  Filter blocks (table/filter_block.cc): one filter for every 2 KB of table data,
  found again by the offset of a data block.
 */
module FilterBlock {
  import opened Basics
  import opened Coding
  import Bloom

  // ---------------------------------------------------------------- policies

  datatype Policy = Policy(create: seq<Bytes> -> Bytes, matches: (Bytes, Bytes) -> bool)

  ghost predicate NoFalseNegatives(p: Policy) {
    forall keys: seq<Bytes>, k :: k in keys ==> p.matches(k, p.create(keys))
  }

  function BloomPolicy(bitsPerKey: nat, hash: Bloom.HashFunction): Policy {
    Policy(keys => Bloom.Filter(keys, bitsPerKey, hash), (k, f) => Bloom.MayMatch(k, f, hash))
  }

  lemma BloomIsSound(bitsPerKey: nat, hash: Bloom.HashFunction)
    ensures NoFalseNegatives(BloomPolicy(bitsPerKey, hash))
  {
    hide Bloom.Filter, Bloom.MayMatch;
    forall keys: seq<Bytes>, k | k in keys ensures Bloom.MayMatch(k, Bloom.Filter(keys, bitsPerKey, hash), hash) {
      var i :| 0 <= i < |keys| && keys[i] == k;
      Bloom.FilterMatches(keys, bitsPerKey, hash, i);
    }
  }

  function UserPart(k: Bytes): Bytes {
    if |k| < 8 then [] else k[..|k| - 8]
  }

  function UserParts(keys: seq<Bytes>): (r: seq<Bytes>)
    ensures |r| == |keys| && forall i :: 0 <= i < |keys| ==> r[i] == UserPart(keys[i])
  {
    seq(|keys|, i requires 0 <= i < |keys| => UserPart(keys[i]))
  }

  // InternalFilterPolicy: only user keys enter the filter.
  function UserKeyPolicy(p: Policy): Policy {
    Policy(keys => p.create(UserParts(keys)), (k, f) => p.matches(UserPart(k), f))
  }

  lemma UserKeyIsSound(p: Policy)
    requires NoFalseNegatives(p)
    ensures NoFalseNegatives(UserKeyPolicy(p))
  {
    forall keys: seq<Bytes>, k | k in keys ensures p.matches(UserPart(k), p.create(UserParts(keys))) {
      var i :| 0 <= i < |keys| && keys[i] == k;
      assert UserParts(keys)[i] == UserPart(k);
    }
  }

  // Whether a key may match depends on its user key alone.
  ghost predicate ByUserKey(p: Policy) {
    forall a, b, f :: UserPart(a) == UserPart(b) ==> p.matches(a, f) == p.matches(b, f)
  }

  lemma UserKeyIsByUserKey(p: Policy)
    ensures ByUserKey(UserKeyPolicy(p))
  {
  }

  // ---------------------------------------------------------------- format

  const BASE_LG: byte := 11
  const BASE: nat := 2048

  function GroupBytes(p: Policy, keys: seq<Bytes>): Bytes {
    if keys == [] then [] else p.create(keys)
  }

  function Filters(p: Policy, groups: seq<seq<Bytes>>): Bytes {
    if groups == [] then []
    else Filters(p, groups[..|groups| - 1]) + GroupBytes(p, groups[|groups| - 1])
  }

  function Starts(p: Policy, groups: seq<seq<Bytes>>): (r: seq<nat>)
    ensures |r| == |groups|
  {
    seq(|groups|, i requires 0 <= i < |groups| => |Filters(p, groups[..i])|)
  }

  ghost predicate Small(p: Policy, groups: seq<seq<Bytes>>) {
    |Filters(p, groups)| < TWO_32
  }

  // The offsets of the filters, and that of the array itself as their end.
  function Marks(p: Policy, groups: seq<seq<Bytes>>): (r: seq<nat>)
    ensures |r| == |groups| + 1
  {
    Starts(p, groups) + [|Filters(p, groups)|]
  }

  lemma {:induction false} GroupInFilters(p: Policy, groups: seq<seq<Bytes>>, i: nat)
    requires i < |groups|
    ensures var (a, b) := (Marks(p, groups)[i], Marks(p, groups)[i + 1]);
      a <= b <= |Filters(p, groups)| && Filters(p, groups)[a..b] == GroupBytes(p, groups[i])
  {
    hide GroupBytes;
    var n := |groups| - 1;
    if i == n {
      assert Marks(p, groups)[i] == |Filters(p, groups[..n])|;
    } else {
      var shorter := groups[..n];
      GroupInFilters(p, shorter, i);
      assert forall j :: 0 <= j <= n ==> shorter[..j] == groups[..j];
      assert forall j :: 0 <= j <= n ==> Marks(p, shorter)[j] == Marks(p, groups)[j];
    }
  }

  lemma {:induction false} MarksSmall(p: Policy, groups: seq<seq<Bytes>>)
    requires Small(p, groups)
    ensures forall i :: 0 <= i < |Marks(p, groups)| ==> Marks(p, groups)[i] < TWO_32
  {
    hide Filters, GroupBytes;
    forall i | 0 <= i < |Marks(p, groups)| ensures Marks(p, groups)[i] < TWO_32 {
      if i < |groups| { GroupInFilters(p, groups, i); }
    }
  }

  ghost function Contents(p: Policy, groups: seq<seq<Bytes>>): Bytes
    requires Small(p, groups)
  {
    MarksSmall(p, groups);
    Filters(p, groups) + Words(Marks(p, groups)) + [BASE_LG]
  }

  // ---------------------------------------------------------------- reader

  // The offset array: where it starts and how many filters it describes.
  function OffsetArray(contents: Bytes): (r: (nat, nat))
    ensures r.0 + 4 * r.1 + 5 <= |contents| || r.1 == 0
  {
    var n := |contents|;
    if n < 5 then (0, 0)
    else
      var lastWord := DecodeFixed32(contents[n - 5..]);
      if lastWord > n - 5 then (0, 0) else (lastWord, (n - 5 - lastWord) / 4)
  }

  function ShiftRight(n: nat, lg: nat): nat
    decreases lg
  {
    if lg == 0 then n else ShiftRight(n / 2, lg - 1)
  }

  // Filter index of the array at base, if its bounds make sense.
  predicate MatchAt(p: Policy, contents: Bytes, base: nat, index: nat, key: Bytes)
    requires base + 4 * index + 8 <= |contents|
  {
    var start := DecodeFixed32(contents[base + 4 * index..]);
    var limit := DecodeFixed32(contents[base + 4 * index + 4..]);
    if start <= limit && limit <= base then p.matches(key, contents[start..limit])
    else start != limit
  }

  // Errors are treated as potential matches.
  predicate KeyMayMatch(p: Policy, contents: Bytes, blockOffset: nat, key: Bytes) {
    var (base, num) := OffsetArray(contents);
    if num == 0 then true
    else
      var index := ShiftRight(blockOffset, contents[|contents| - 1]);
      index >= num || MatchAt(p, contents, base, index, key)
  }

  lemma ArrayOfContents(p: Policy, groups: seq<seq<Bytes>>)
    requires Small(p, groups)
    ensures OffsetArray(Contents(p, groups)) == (|Filters(p, groups)|, |groups|)
    ensures |Contents(p, groups)| >= 5 && Contents(p, groups)[|Contents(p, groups)| - 1] == BASE_LG
  {
    hide Filters, DecodeFixed32, Fixed32, Words;
    MarksSmall(p, groups);
    var (f, m, c) := (Filters(p, groups), Marks(p, groups), Contents(p, groups));
    var n := |groups|;
    WordAt(m, n, [BASE_LG]);
    assert c == f + (Words(m) + [BASE_LG]);
    assert c[|c| - 5..] == (Words(m) + [BASE_LG])[4 * n..];
  }

  lemma MarkInContents(p: Policy, groups: seq<seq<Bytes>>, i: nat)
    requires Small(p, groups) && i <= |groups|
    ensures |Filters(p, groups)| + 4 * i + 4 <= |Contents(p, groups)|
    ensures DecodeFixed32(Contents(p, groups)[|Filters(p, groups)| + 4 * i..]) == Marks(p, groups)[i]
  {
    hide Filters, DecodeFixed32, Fixed32, Words;
    MarksSmall(p, groups);
    var (f, m, c) := (Filters(p, groups), Marks(p, groups), Contents(p, groups));
    WordAt(m, i, [BASE_LG]);
    assert c == f + (Words(m) + [BASE_LG]);
    assert c[|f| + 4 * i..] == (Words(m) + [BASE_LG])[4 * i..];
  }

  lemma ShiftThree(n: nat, lg: nat)
    ensures ShiftRight(n, lg + 3) == ShiftRight(n / 8, lg)
  {
    assert ShiftRight(n, lg + 3) == ShiftRight(n / 2, lg + 2);
    assert ShiftRight(n / 2, lg + 2) == ShiftRight(n / 2 / 2, lg + 1);
    assert n / 2 / 2 / 2 == n / 8;
  }

  lemma ShiftTwo(n: nat)
    ensures ShiftRight(n, 2) == n / 4
  {
    assert n / 2 / 2 == n / 4;
  }

  lemma ShiftIsDivision(n: nat)
    ensures ShiftRight(n, BASE_LG) == n / BASE
  {
    hide ShiftRight;
    ShiftThree(n, 8);
    ShiftThree(n / 8, 5);
    ShiftThree(n / 8 / 8, 2);
    ShiftTwo(n / 8 / 8 / 8);
    assert n / 8 / 8 == n / 64;
    assert n / 64 / 8 == n / 512;
    assert n / 512 / 4 == n / BASE;
  }

  // What the reader answers: anything may match beyond the last filter; elsewhere
  // the policy decides, on an empty filter where no key was added.
  lemma ContentsAnswer(p: Policy, groups: seq<seq<Bytes>>, blockOffset: nat, key: Bytes)
    requires Small(p, groups)
    ensures KeyMayMatch(p, Contents(p, groups), blockOffset, key) <==>
      || blockOffset / 2048 >= |groups|
      || var keys := groups[blockOffset / 2048]; p.matches(key, if keys == [] then [] else p.create(keys))
  {
    hide Filters, DecodeFixed32, Contents, Marks, ShiftRight, OffsetArray;
    ArrayOfContents(p, groups);
    ShiftIsDivision(blockOffset);
    var index := blockOffset / BASE;
    if index < |groups| {
      MarkInContents(p, groups, index);
      MarkInContents(p, groups, index + 1);
      GroupInFilters(p, groups, index);
      var (a, b) := (Marks(p, groups)[index], Marks(p, groups)[index + 1]);
      ContentsPrefix(p, groups, a, b);
    }
  }

  // A key in the filter of a block's range may match at that block; so may
  // anything at a block beyond the last filter.
  lemma ContentsMatch(p: Policy, groups: seq<seq<Bytes>>, blockOffset: nat, key: Bytes)
    requires NoFalseNegatives(p) && Small(p, groups)
    requires blockOffset / BASE < |groups| ==> key in groups[blockOffset / BASE]
    ensures KeyMayMatch(p, Contents(p, groups), blockOffset, key)
  {
    hide Filters, DecodeFixed32, Contents, Marks, ShiftRight, OffsetArray, GroupBytes;
    ArrayOfContents(p, groups);
    ShiftIsDivision(blockOffset);
    var index := blockOffset / BASE;
    if index < |groups| {
      MarkInContents(p, groups, index);
      MarkInContents(p, groups, index + 1);
      GroupInFilters(p, groups, index);
      var (a, b) := (Marks(p, groups)[index], Marks(p, groups)[index + 1]);
      ContentsPrefix(p, groups, a, b);
      GroupMatches(p, groups[index], key);
    }
  }

  // With the bloom policy a range without keys matches nothing.
  lemma BloomRejectsEmpty(bitsPerKey: nat, hash: Bloom.HashFunction, key: Bytes)
    ensures !BloomPolicy(bitsPerKey, hash).matches(key, [])
  {
  }

  lemma SameUserKeyMatches(p: Policy, contents: Bytes, blockOffset: nat, a: Bytes, b: Bytes)
    requires ByUserKey(p) && UserPart(a) == UserPart(b)
    ensures KeyMayMatch(p, contents, blockOffset, a) == KeyMayMatch(p, contents, blockOffset, b)
  {
    hide DecodeFixed32, UserPart, ShiftRight, OffsetArray;
  }

  lemma ContentsPrefix(p: Policy, groups: seq<seq<Bytes>>, a: nat, b: nat)
    requires Small(p, groups) && a <= b <= |Filters(p, groups)|
    ensures |Filters(p, groups)| <= |Contents(p, groups)| && Contents(p, groups)[a..b] == Filters(p, groups)[a..b]
  {
    hide Filters;
  }

  lemma GroupMatches(p: Policy, keys: seq<Bytes>, key: Bytes)
    requires NoFalseNegatives(p) && key in keys
    ensures p.matches(key, GroupBytes(p, keys))
  {
  }

  // ---------------------------------------------------------------- builder

  // keys holds the pending keys back to back; start says where each begins.
  function Joined(keys: seq<Bytes>): Bytes {
    if keys == [] then [] else Joined(keys[..|keys| - 1]) + keys[|keys| - 1]
  }

  function KeyStarts(keys: seq<Bytes>): (r: seq<nat>)
    ensures |r| == |keys|
  {
    seq(|keys|, i requires 0 <= i < |keys| => |Joined(keys[..i])|)
  }

  lemma {:induction false} KeyInJoined(keys: seq<Bytes>, i: nat)
    requires i < |keys|
    ensures var (a, b) := (|Joined(keys[..i])|, |Joined(keys[..i + 1])|);
      a <= b <= |Joined(keys)| && Joined(keys)[a..b] == keys[i]
  {
    var n := |keys| - 1;
    assert keys[..i + 1][..i] == keys[..i];
    if i == n {
      assert keys[..i + 1] == keys;
    } else {
      var shorter := keys[..n];
      KeyInJoined(shorter, i);
      assert shorter[..i] == keys[..i] && shorter[..i + 1] == keys[..i + 1];
    }
  }

  lemma JoinedMore(keys: seq<Bytes>, k: Bytes)
    ensures Joined(keys + [k]) == Joined(keys) + k
    ensures KeyStarts(keys + [k]) == KeyStarts(keys) + [|Joined(keys)|]
  {
    assert (keys + [k])[..|keys|] == keys;
    assert forall i :: 0 <= i < |keys| ==> (keys + [k])[..i] == keys[..i];
  }

  lemma GroupsMore(p: Policy, groups: seq<seq<Bytes>>, keys: seq<Bytes>)
    ensures Filters(p, groups + [keys]) == Filters(p, groups) + GroupBytes(p, keys)
    ensures Starts(p, groups + [keys]) == Starts(p, groups) + [|Filters(p, groups)|]
  {
    assert (groups + [keys])[..|groups|] == groups;
    assert forall i :: 0 <= i < |groups| ==> (groups + [keys])[..i] == groups[..i];
  }

  // Every key added for a block is where a reader will look for it.
  ghost predicate Placed(added: set<(nat, Bytes)>, groups: seq<seq<Bytes>>, pending: seq<Bytes>) {
    forall x :: x in added ==>
      var index := x.0 / BASE;
      index <= |groups| && (if index < |groups| then x.1 in groups[index] else x.1 in pending)
  }

  lemma PlacedMore(added: set<(nat, Bytes)>, groups: seq<seq<Bytes>>, pending: seq<Bytes>)
    requires Placed(added, groups, pending)
    ensures Placed(added, groups + [pending], [])
  {
  }

  // The keys cut out of the flat buffer again.
  method SplitKeys(keys: Bytes, start: seq<nat>, ghost pending: seq<Bytes>) returns (list: seq<Bytes>)
    requires keys == Joined(pending) && start == KeyStarts(pending)
    ensures list == pending
  {
    hide Joined;
    var bounds := start + [|keys|];
    list := [];
    var i := 0;
    while i < |start|
      invariant 0 <= i <= |start| && list == pending[..i]
    {
      KeyInJoined(pending, i);
      assert i + 1 == |pending| ==> pending[..i + 1] == pending;
      assert bounds[i] == |Joined(pending[..i])| && bounds[i + 1] == |Joined(pending[..i + 1])|;
      list := list + [keys[bounds[i]..bounds[i + 1]]];
      i := i + 1;
    }
    assert pending[..i] == pending;
  }

  // Filters are generated until there is one for every range before index.
  function Started(groups: seq<seq<Bytes>>, pending: seq<Bytes>, index: nat): (seq<seq<Bytes>>, seq<Bytes>)
    decreases index - |groups|
  {
    if |groups| >= index then (groups, pending) else Started(groups + [pending], [], index)
  }

  function Finished(groups: seq<seq<Bytes>>, pending: seq<Bytes>): seq<seq<Bytes>> {
    if pending == [] then groups else groups + [pending]
  }

  class Builder {
    const policy: Policy
    var keys: Bytes
    var start: seq<nat>
    var result: Bytes
    var filterOffsets: seq<nat>
    ghost var groups: seq<seq<Bytes>>
    ghost var pending: seq<Bytes>
    ghost var block: nat
    ghost var added: set<(nat, Bytes)>

    ghost predicate Tracks()
      reads this
    {
      && keys == Joined(pending) && start == KeyStarts(pending)
      && result == Filters(policy, groups) && filterOffsets == Starts(policy, groups)
      && Placed(added, groups, pending)
    }

    // The pending keys belong to the filter of the block in hand.
    ghost predicate Valid()
      reads this
    {
      Tracks() && block / BASE == |groups|
    }

    constructor (policy: Policy)
      ensures Valid() && this.policy == policy && block == 0 && added == {}
      ensures groups == [] && pending == []
    {
      this.policy := policy;
      keys, start, result, filterOffsets := [], [], [], [];
      groups, pending, block, added := [], [], 0, {};
    }

    // Keys that follow belong to the data block at this offset.
    method StartBlock(blockOffset: nat)
      requires Valid() && block <= blockOffset
      modifies this
      ensures Valid() && block == blockOffset && added == old(added)
      ensures (groups, pending) == Started(old(groups), old(pending), blockOffset / BASE)
    {
      hide Joined, KeyStarts, Filters, Starts;
      var index := blockOffset / BASE;
      assert block / BASE <= index;
      while index > |filterOffsets|
        invariant Tracks() && |groups| <= index && added == old(added)
        invariant Started(groups, pending, index) == Started(old(groups), old(pending), index)
        decreases index - |filterOffsets|
      {
        GenerateFilter();
      }
      block := blockOffset;
    }

    method AddKey(key: Bytes)
      requires Valid()
      modifies this
      ensures Valid() && block == old(block) && added == old(added) + {(block, key)}
      ensures groups == old(groups) && pending == old(pending) + [key]
    {
      JoinedMore(pending, key);
      hide Joined, KeyStarts, Filters, Starts;
      start := start + [|keys|];
      keys := keys + key;
      pending := pending + [key];
      added := added + {(block, key)};
    }

    // The pending keys become the next filter.
    method GenerateFilter()
      requires Tracks()
      modifies this
      ensures Tracks() && groups == old(groups) + [old(pending)] && pending == [] && added == old(added)
    {
      GroupsMore(policy, groups, pending);
      assert Placed(added, groups + [pending], []) by { PlacedMore(added, groups, pending); }
      hide Filters, Starts, Placed;
      filterOffsets := filterOffsets + [|result|];
      if |start| > 0 {
        var list := SplitKeys(keys, start, pending);
        result := result + policy.create(list);
      }
      keys, start := [], [];
      groups, pending := groups + [pending], [];
    }

    // Offsets are cut to 32 bits.
    method Finish() returns (contents: Bytes)
      requires Valid()
      modifies this
      ensures Small(policy, groups) ==> contents == Contents(policy, groups)
      ensures Placed(added, groups, []) && added == old(added)
      ensures groups == Finished(old(groups), old(pending))
    {
      hide Joined, KeyStarts, Filters, Starts, Placed, Words, Fixed32, Small;
      if |start| > 0 {
        GenerateFilter();
      }
      if Small(policy, groups) { FinishIs(policy, groups); }
      MarksWords(policy, groups);
      var base := |result|;
      result := PutWords(result, filterOffsets);
      result := result + Fixed32(base % TWO_32);
      result := result + [BASE_LG];
      return result;
    }
  }

  lemma MarksWords(p: Policy, groups: seq<seq<Bytes>>)
    ensures Words(Truncated(Marks(p, groups))) ==
            Words(Truncated(Starts(p, groups))) + Fixed32(|Filters(p, groups)| % TWO_32)
  {
    hide Filters, Starts, Fixed32, Words;
    var (words, n) := (Truncated(Marks(p, groups)), |groups|);
    WordsMore(words, n);
    assert words[..n + 1] == words && words[..n] == Truncated(Starts(p, groups));
  }

  lemma FinishIs(p: Policy, groups: seq<seq<Bytes>>)
    requires Small(p, groups)
    ensures Filters(p, groups) + Words(Truncated(Marks(p, groups))) + [BASE_LG] == Contents(p, groups)
  {
    hide Filters, Marks, Words;
    MarksSmall(p, groups);
    TruncatedSmall(Marks(p, groups));
  }
}
