/**
  Key orders (util/comparator.cc, db/dbformat.cc): the bytewise order, the order
  of internal keys, and the shortened keys that separate neighbours in an index.
 */
module Comparators {
  import opened Basics
  import opened Coding
  import Arithmetic
  import opened Blocks
  import opened BlockIter

  // ---------------------------------------------------------------- bytewise

  predicate Less(a: Bytes, b: Bytes) {
    if b == [] then false
    else if a == [] then true
    else a[0] < b[0] || (a[0] == b[0] && Less(a[1..], b[1..]))
  }

  lemma {:induction false} LessIrreflexive(a: Bytes)
    ensures !Less(a, a)
  {
    if a != [] { LessIrreflexive(a[1..]); }
  }

  lemma {:induction false} LessTransitive(a: Bytes, b: Bytes, c: Bytes)
    requires Less(a, b) && Less(b, c)
    ensures Less(a, c)
  {
    if a != [] && a[0] == b[0] == c[0] { LessTransitive(a[1..], b[1..], c[1..]); }
  }

  lemma {:induction false} LessTotal(a: Bytes, b: Bytes)
    requires a != b
    ensures Less(a, b) || Less(b, a)
  {
    if a != [] && b != [] && a[0] == b[0] {
      assert a == [a[0]] + a[1..] && b == [b[0]] + b[1..];
      LessTotal(a[1..], b[1..]);
    }
  }

  lemma BytewiseOrder()
    ensures StrictOrder(Less)
  {
    forall a ensures !Less(a, a) { LessIrreflexive(a); }
    forall a, b, c | Less(a, b) && Less(b, c) ensures Less(a, c) { LessTransitive(a, b, c); }
    forall a, b | a != b ensures Less(a, b) || Less(b, a) { LessTotal(a, b); }
  }

  predicate LessEq(a: Bytes, b: Bytes) {
    a == b || Less(a, b)
  }

  // Strings that first differ at n are ordered by the bytes there.
  lemma {:induction false} LessAt(a: Bytes, b: Bytes, n: nat)
    requires n < |a| && n < |b| && a[..n] == b[..n] && a[n] != b[n]
    ensures Less(a, b) <==> a[n] < b[n]
  {
    if n > 0 {
      assert a[0] == a[..n][0] == b[..n][0] == b[0];
      assert a[1..][..n - 1] == a[..n][1..] == b[..n][1..] == b[1..][..n - 1];
      LessAt(a[1..], b[1..], n - 1);
    }
  }

  // ---------------------------------------------------------------- separators

  // A short key from start up to, but not including, limit.
  function Separator(start: Bytes, limit: Bytes): Bytes {
    var n := CommonPrefix(start, limit);
    if n >= |start| || n >= |limit| then start
    else if start[n] < 255 && start[n] + 1 < limit[n] then start[..n] + [start[n] + 1]
    else start
  }

  lemma SeparatorSeparates(start: Bytes, limit: Bytes)
    ensures LessEq(start, Separator(start, limit)) && |Separator(start, limit)| <= |start|
    ensures Less(start, limit) ==> Less(Separator(start, limit), limit)
  {
    var n := CommonPrefix(start, limit);
    var r := Separator(start, limit);
    if r != start {
      assert r[..n] == start[..n];
      LessAt(start, r, n);
      LessAt(r, limit, n);
    }
  }

  // Nothing between two keys is shorter than what they share.
  lemma {:induction false} NoneShorter(start: Bytes, limit: Bytes, n: nat, x: Bytes)
    requires n <= |start| && n <= |limit| && start[..n] == limit[..n] && |x| <= n && |x| < |start|
    ensures !(LessEq(start, x) && Less(x, limit))
  {
    if x != [] && LessEq(start, x) && Less(x, limit) {
      assert start[0] == start[..n][0] == limit[..n][0] == limit[0];
      assert start[1..][..n - 1] == start[..n][1..] == limit[..n][1..] == limit[1..][..n - 1];
      assert start == x ==> |start| == |x|;
      NoneShorter(start[1..], limit[1..], n - 1, x[1..]);
      assert false;
    }
  }

  // Where the first differing bytes leave room for one between them, the separator
  // is the shortest key there is from start up to limit; elsewhere it is start.
  lemma SeparatorShortest(start: Bytes, limit: Bytes, n: nat)
    requires n < |start| && n < |limit| && start[..n] == limit[..n] && start[n] != limit[n]
    ensures start[n] as int + 1 < limit[n] ==> |Separator(start, limit)| == n + 1
    ensures start[n] as int + 1 < limit[n] ==>
              forall x :: LessEq(start, x) && Less(x, limit) ==> |x| >= |Separator(start, limit)|
    ensures start[n] as int + 1 >= limit[n] ==> Separator(start, limit) == start
  {
    CommonPrefixIs(start, limit, n);
    forall x | LessEq(start, x) && Less(x, limit)
      ensures |x| >= n + 1
    {
      if |x| <= n { NoneShorter(start, limit, n, x); }
    }
  }

  method FindShortestSeparator(start: Bytes, limit: Bytes) returns (r: Bytes)
    ensures r == Separator(start, limit)
  {
    var min := if |start| < |limit| then |start| else |limit|;
    var i := 0;
    while i < min && start[i] == limit[i]
      invariant 0 <= i <= min && start[..i] == limit[..i]
    {
      assert start[..i + 1] == start[..i] + [start[i]];
      i := i + 1;
    }
    CommonPrefixIs(start, limit, i);
    r := start;
    if i < min {
      if start[i] < 255 && start[i] + 1 < limit[i] {
        r := start[i := start[i] + 1][..i + 1];
      }
    }
  }

  // A short key at or after key: the first byte that can be incremented is.
  function Successor(key: Bytes, i: nat): Bytes
    requires i <= |key|
    decreases |key| - i
  {
    if i == |key| then key
    else if key[i] != 255 then key[..i] + [key[i] + 1]
    else Successor(key, i + 1)
  }

  lemma {:induction false} SuccessorFollows(key: Bytes, i: nat)
    requires i <= |key|
    ensures LessEq(key, Successor(key, i)) && |Successor(key, i)| <= |key|
    decreases |key| - i
  {
    if i < |key| {
      if key[i] != 255 {
        var r := Successor(key, i);
        assert r[..i] == key[..i];
        LessAt(key, r, i);
      } else {
        SuccessorFollows(key, i + 1);
      }
    }
  }

  // Nothing at or after a key that starts with a run of 0xff is as short as the run.
  lemma {:induction false} NoneShorterAfter(key: Bytes, n: nat, x: Bytes)
    requires n <= |key| && (forall i :: 0 <= i < n ==> key[i] == 255) && |x| <= n && |x| < |key|
    ensures !LessEq(key, x)
  {
    if x != [] && LessEq(key, x) {
      assert key == x ==> |key| == |x|;
      NoneShorterAfter(key[1..], n - 1, x[1..]);
      assert false;
    }
  }

  // The successor is the shortest key at or after the key.
  lemma {:induction false} SuccessorShortest(key: Bytes, i: nat)
    requires i <= |key| && forall j :: 0 <= j < i ==> key[j] == 255
    ensures forall x :: LessEq(key, x) ==> |x| >= |Successor(key, i)|
    decreases |key| - i
  {
    if i < |key| && key[i] == 255 {
      SuccessorShortest(key, i + 1);
    } else {
      forall x | LessEq(key, x)
        ensures |x| >= |Successor(key, i)|
      {
        if |x| < |Successor(key, i)| { NoneShorterAfter(key, i, x); }
      }
    }
  }

  method FindShortSuccessor(key: Bytes) returns (r: Bytes)
    ensures r == Successor(key, 0)
  {
    var i := 0;
    while i < |key|
      invariant 0 <= i <= |key| && Successor(key, i) == Successor(key, 0)
    {
      if key[i] != 255 {
        return key[i := key[i] + 1][..i + 1];
      }
      i := i + 1;
    }
    return key;
  }

  // ---------------------------------------------------------------- internal keys

  const MAX_TAG: uint64 := 0xffff_ffff_ffff_ff01

  // A user key followed by its sequence number and type, packed in eight bytes.
  predicate IsInternal(k: Bytes) {
    |k| >= 8
  }

  function UserKey(k: Bytes): Bytes
    requires IsInternal(k)
  {
    k[..|k| - 8]
  }

  function TagOf(k: Bytes): uint64
    requires IsInternal(k)
  {
    DecodeFixed64(k[|k| - 8..])
  }

  // By user key, then newest first.  Keys too short to be internal, which the
  // source never compares, come before all others.
  predicate InternalLess(a: Bytes, b: Bytes) {
    if IsInternal(a) && IsInternal(b) then
      Less(UserKey(a), UserKey(b)) || (UserKey(a) == UserKey(b) && TagOf(a) > TagOf(b))
    else if !IsInternal(a) && !IsInternal(b) then Less(a, b)
    else !IsInternal(a)
  }

  lemma SameDigits(x: nat, y: nat, x': nat, y': nat, base: nat)
    requires x < base && x' < base && x + base * y == x' + base * y'
    ensures x == x' && y == y'
  {
    assert base * (y - y') == x' - x;
    Arithmetic.NoMultiple(y - y', base, x' - x);
  }

  lemma Fixed32Injective(a: Bytes, b: Bytes)
    requires |a| == |b| == 4 && DecodeFixed32(a) == DecodeFixed32(b)
    ensures a == b
  {
    var (p: nat, q: nat) := ((a[2] as int) + 256 * (a[3] as int), (b[2] as int) + 256 * (b[3] as int));
    var (r: nat, s: nat) := ((a[1] as int) + 256 * p, (b[1] as int) + 256 * q);
    SameDigits(a[0], r, b[0], s, 256);
    SameDigits(a[1], p, b[1], q, 256);
    SameDigits(a[2], a[3], b[2], b[3], 256);
    assert a == [a[0], a[1], a[2], a[3]] && b == [b[0], b[1], b[2], b[3]];
  }

  lemma Fixed64Injective(a: Bytes, b: Bytes)
    requires |a| == |b| == 8 && DecodeFixed64(a) == DecodeFixed64(b)
    ensures a == b
  {
    DecodeHalves(a);
    DecodeHalves(b);
    hide DecodeFixed32, DecodeFixed64;
    SameDigits(DecodeFixed32(a[..4]), DecodeFixed32(a[4..]), DecodeFixed32(b[..4]), DecodeFixed32(b[4..]), TWO_32);
    Fixed32Injective(a[..4], b[..4]);
    Fixed32Injective(a[4..], b[4..]);
    assert a == a[..4] + a[4..] && b == b[..4] + b[4..];
  }

  lemma DecodeHalves(a: Bytes)
    requires |a| == 8
    ensures DecodeFixed32(a) == DecodeFixed32(a[..4])
    ensures DecodeFixed64(a) == DecodeFixed32(a[..4]) + TWO_32 * DecodeFixed32(a[4..])
  {
  }

  lemma InternalTransitive(a: Bytes, b: Bytes, c: Bytes)
    requires InternalLess(a, b) && InternalLess(b, c)
    ensures InternalLess(a, c)
  {
    hide DecodeFixed64, Less;
    if IsInternal(a) && IsInternal(b) && IsInternal(c) {
      if Less(UserKey(a), UserKey(b)) && Less(UserKey(b), UserKey(c)) {
        LessTransitive(UserKey(a), UserKey(b), UserKey(c));
      }
    } else if !IsInternal(a) && !IsInternal(b) && !IsInternal(c) {
      LessTransitive(a, b, c);
    }
  }

  lemma InternalTotal(a: Bytes, b: Bytes)
    requires a != b
    ensures InternalLess(a, b) || InternalLess(b, a)
  {
    hide DecodeFixed64, Less;
    if IsInternal(a) && IsInternal(b) {
      if UserKey(a) == UserKey(b) {
        assert a == UserKey(a) + a[|a| - 8..] && b == UserKey(b) + b[|b| - 8..];
        if TagOf(a) == TagOf(b) { Fixed64Injective(a[|a| - 8..], b[|b| - 8..]); }
      } else {
        LessTotal(UserKey(a), UserKey(b));
      }
    } else if !IsInternal(a) && !IsInternal(b) {
      LessTotal(a, b);
    }
  }

  lemma InternalIrreflexive(a: Bytes)
    ensures !InternalLess(a, a)
  {
    hide DecodeFixed64, Less;
    LessIrreflexive(a);
    if IsInternal(a) { LessIrreflexive(UserKey(a)); }
  }

  lemma InternalOrder()
    ensures StrictOrder(InternalLess)
  {
    hide InternalLess;
    forall a ensures !InternalLess(a, a) { InternalIrreflexive(a); }
    forall a, b, c | InternalLess(a, b) && InternalLess(b, c)
      ensures InternalLess(a, c)
    {
      InternalTransitive(a, b, c);
    }
    forall a, b | a != b ensures InternalLess(a, b) || InternalLess(b, a) { InternalTotal(a, b); }
  }

  // ---------------------------------------------------------------- internal separators

  function WithMaxTag(user: Bytes): (k: Bytes)
    ensures IsInternal(k)
  {
    user + Fixed64(MAX_TAG)
  }

  // InternalKeyComparator: shorten the user key, and give it the tag that comes
  // first; but only if the user key became shorter and larger.
  function Shortened(k: Bytes, user: Bytes): Bytes
    requires IsInternal(k)
  {
    if |user| < |UserKey(k)| && Less(UserKey(k), user) then WithMaxTag(user) else k
  }

  function InternalSeparator(start: Bytes, limit: Bytes): Bytes
    requires IsInternal(start) && IsInternal(limit)
  {
    Shortened(start, Separator(UserKey(start), UserKey(limit)))
  }

  function InternalSuccessor(k: Bytes): Bytes
    requires IsInternal(k)
  {
    Shortened(k, Successor(UserKey(k), 0))
  }

  ghost predicate NotAfter(a: Bytes, b: Bytes) {
    a == b || InternalLess(a, b)
  }

  lemma MaxTagUser(user: Bytes)
    ensures UserKey(WithMaxTag(user)) == user && TagOf(WithMaxTag(user)) == MAX_TAG
  {
    hide Fixed64, DecodeFixed64;
    var k := user + Fixed64(MAX_TAG);
    assert k[..|user|] == user && k[|user|..] == Fixed64(MAX_TAG) + [];
    Fixed64RoundTrip(MAX_TAG, []);
  }

  lemma InternalSeparatorSeparates(start: Bytes, limit: Bytes)
    requires IsInternal(start) && IsInternal(limit)
    ensures IsInternal(InternalSeparator(start, limit)) && NotAfter(start, InternalSeparator(start, limit))
    ensures InternalLess(start, limit) ==> InternalLess(InternalSeparator(start, limit), limit)
  {
    hide DecodeFixed64, WithMaxTag, Separator, Less;
    var user := Separator(UserKey(start), UserKey(limit));
    SeparatorSeparates(UserKey(start), UserKey(limit));
    MaxTagUser(user);
    if UserKey(start) == UserKey(limit) { SeparatorSelf(UserKey(start)); }
    LessIrreflexive(UserKey(start));
  }

  // Internal keys are shortened whenever their user keys can be.
  lemma InternalSeparatorShort(start: Bytes, limit: Bytes)
    requires IsInternal(start) && IsInternal(limit)
    ensures var user := Separator(UserKey(start), UserKey(limit));
            if |user| < |UserKey(start)|
            then UserKey(InternalSeparator(start, limit)) == user && TagOf(InternalSeparator(start, limit)) == MAX_TAG
            else InternalSeparator(start, limit) == start
  {
    hide Separator, Less;
    SeparatorSeparates(UserKey(start), UserKey(limit));
    MaxTagUser(Separator(UserKey(start), UserKey(limit)));
  }

  lemma InternalSuccessorShort(k: Bytes)
    requires IsInternal(k)
    ensures var user := Successor(UserKey(k), 0);
            if |user| < |UserKey(k)|
            then UserKey(InternalSuccessor(k)) == user && TagOf(InternalSuccessor(k)) == MAX_TAG
            else InternalSuccessor(k) == k
  {
    hide Successor, Less;
    SuccessorFollows(UserKey(k), 0);
    MaxTagUser(Successor(UserKey(k), 0));
  }

  lemma SeparatorSelf(a: Bytes)
    ensures Separator(a, a) == a
  {
    CommonPrefixIs(a, a, |a|);
  }

  lemma InternalSuccessorFollows(k: Bytes)
    requires IsInternal(k)
    ensures IsInternal(InternalSuccessor(k)) && NotAfter(k, InternalSuccessor(k))
  {
    hide DecodeFixed64, WithMaxTag, Less;
    MaxTagUser(Successor(UserKey(k), 0));
  }

  // ---------------------------------------------------------------- ranks

  // How many keys of a finite set come before k.
  ghost function Rank(keys: set<Bytes>, less: Order, k: Bytes): nat {
    |set x | x in keys && less(x, k)|
  }

  // Numbering the keys of a database by rank keeps their order, so a model whose
  // user keys are integers speaks about any comparator.
  lemma RankPreservesOrder(keys: set<Bytes>, less: Order, a: Bytes, b: Bytes)
    requires StrictOrder(less) && a in keys && b in keys
    ensures less(a, b) <==> Rank(keys, less, a) < Rank(keys, less, b)
    ensures a == b <==> Rank(keys, less, a) == Rank(keys, less, b)
  {
    if less(a, b) {
      RankGrows(keys, less, a, b);
    } else if less(b, a) {
      RankGrows(keys, less, b, a);
    }
  }

  lemma RankGrows(keys: set<Bytes>, less: Order, a: Bytes, b: Bytes)
    requires StrictOrder(less) && a in keys && less(a, b)
    ensures Rank(keys, less, a) < Rank(keys, less, b)
  {
    var (lower, upper) := (set x | x in keys && less(x, a), set x | x in keys && less(x, b));
    assert lower <= upper && a in upper && a !in lower;
    assert lower <= upper - {a};
    SubsetSmaller(lower, upper - {a});
  }

  lemma {:induction false} SubsetSmaller(a: set<Bytes>, b: set<Bytes>)
    requires a <= b
    ensures |a| <= |b|
  {
    if a != {} {
      var x :| x in a;
      SubsetSmaller(a - {x}, b - {x});
    }
  }
}
