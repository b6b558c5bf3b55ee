/**
  Version edits as bytes (db/version_edit.cc): a sequence of tagged fields.
 */
module VersionEdits {
  import opened Basics
  import opened Coding

  const NUM_LEVELS: nat := 7

  type Level = l: nat | l < NUM_LEVELS

  datatype FileMeta = FileMeta(number: uint64, size: uint64, smallest: Bytes, largest: Bytes)

  // deleted is a std::set: its pairs in ascending order.
  datatype Edit = Edit(
    comparator: Option<Bytes>, logNumber: Option<uint64>, prevLogNumber: Option<uint64>,
    nextFileNumber: Option<uint64>, lastSequence: Option<uint64>,
    compactPointers: seq<(Level, Bytes)>, deleted: seq<(Level, uint64)>, added: seq<(Level, FileMeta)>)

  datatype Field =
    | Comparator(name: Bytes)
    | LogNumber(n: uint64)
    | PrevLogNumber(n: uint64)
    | NextFileNumber(n: uint64)
    | LastSequence(n: uint64)
    | CompactPointer(level: Level, key: Bytes)
    | DeletedFile(level: Level, n: uint64)
    | NewFile(level: Level, file: FileMeta)

  const EMPTY: Edit := Edit(None, None, None, None, None, [], [], [])

  // ---------------------------------------------------------------- fields

  function TagOf(f: Field): (t: nat)
    ensures t < 10
  {
    match f
    case Comparator(_) => 1
    case LogNumber(_) => 2
    case NextFileNumber(_) => 3
    case LastSequence(_) => 4
    case CompactPointer(_, _) => 5
    case DeletedFile(_, _) => 6
    case NewFile(_, _) => 7
    case PrevLogNumber(_) => 9
  }

  function FileBytes(f: FileMeta): Bytes {
    Varint(f.number) + (Varint(f.size) + (LengthPrefixed(f.smallest) + LengthPrefixed(f.largest)))
  }

  function Payload(f: Field): Bytes {
    match f
    case Comparator(name) => LengthPrefixed(name)
    case LogNumber(n) => Varint(n)
    case NextFileNumber(n) => Varint(n)
    case LastSequence(n) => Varint(n)
    case CompactPointer(level, key) => Varint(level) + LengthPrefixed(key)
    case DeletedFile(level, n) => Varint(level) + Varint(n)
    case NewFile(level, file) => Varint(level) + FileBytes(file)
    case PrevLogNumber(n) => Varint(n)
  }

  function FieldBytes(f: Field): Bytes {
    Varint(TagOf(f)) + Payload(f)
  }

  // Strings have 32-bit lengths.
  predicate Fits(f: Field) {
    match f
    case Comparator(name) => |name| < TWO_32
    case CompactPointer(_, key) => |key| < TWO_32
    case NewFile(_, file) => |file.smallest| < TWO_32 && |file.largest| < TWO_32
    case _ => true
  }

  // ---------------------------------------------------------------- parsing

  function GetLevel(input: Bytes): (r: Option<(Level, Bytes)>)
    ensures r.Some? ==> |r.value.1| < |input|
  {
    match GetVarint32(input)
    case None => None
    case Some((v, rest)) => if v < NUM_LEVELS then Some((v, rest)) else None
  }

  function GetFile(input: Bytes): (r: Option<(FileMeta, Bytes)>)
    ensures r.Some? ==> |r.value.1| < |input|
  {
    match GetVarint64(input)
    case None => None
    case Some((number, rest)) =>
      match GetVarint64(rest)
      case None => None
      case Some((size, rest)) =>
        match GetLengthPrefixed(rest)
        case None => None
        case Some((smallest, rest)) =>
          match GetLengthPrefixed(rest)
          case None => None
          case Some((largest, rest)) => Some((FileMeta(number, size, smallest, largest), rest))
  }

  // The field after its tag.
  function GetPayload(tag: nat, input: Bytes): (r: Option<(Field, Bytes)>)
    ensures r.Some? ==> |r.value.1| < |input|
  {
    if tag == 1 then
      match GetLengthPrefixed(input)
      case None => None
      case Some((name, rest)) => Some((Comparator(name), rest))
    else if tag == 2 || tag == 3 || tag == 4 || tag == 9 then
      match GetVarint64(input)
      case None => None
      case Some((n, rest)) =>
        Some((if tag == 2 then LogNumber(n) else if tag == 3 then NextFileNumber(n)
              else if tag == 4 then LastSequence(n) else PrevLogNumber(n), rest))
    else if tag == 5 || tag == 6 || tag == 7 then
      match GetLevel(input)
      case None => None
      case Some((level, rest)) => GetLeveled(tag, level, rest)
    else None
  }

  function GetLeveled(tag: nat, level: Level, input: Bytes): (r: Option<(Field, Bytes)>)
    ensures r.Some? ==> |r.value.1| < |input|
  {
    if tag == 5 then
      match GetLengthPrefixed(input)
      case None => None
      case Some((key, rest)) => Some((CompactPointer(level, key), rest))
    else if tag == 6 then
      match GetVarint64(input)
      case None => None
      case Some((n, rest)) => Some((DeletedFile(level, n), rest))
    else
      match GetFile(input)
      case None => None
      case Some((file, rest)) => Some((NewFile(level, file), rest))
  }

  lemma LevelRoundTrip(level: Level, rest: Bytes)
    ensures GetLevel(Varint(level) + rest) == Some((level, rest))
  {
    hide Varint, GetVarint32;
    Varint32RoundTrip(level, rest);
  }

  lemma FileRoundTrip(f: FileMeta, rest: Bytes)
    requires |f.smallest| < TWO_32 && |f.largest| < TWO_32
    ensures GetFile(FileBytes(f) + rest) == Some((f, rest))
  {
    hide Varint, GetVarint64, LengthPrefixed, GetLengthPrefixed;
    var (a, b, c, d) := (Varint(f.number), Varint(f.size), LengthPrefixed(f.smallest), LengthPrefixed(f.largest));
    assert FileBytes(f) + rest == a + (b + (c + (d + rest)));
    Varint64RoundTrip(f.number, b + (c + (d + rest)));
    Varint64RoundTrip(f.size, c + (d + rest));
    LengthPrefixedRoundTrip(f.smallest, d + rest);
    LengthPrefixedRoundTrip(f.largest, rest);
  }

  lemma PayloadRoundTrip(f: Field, rest: Bytes)
    requires Fits(f)
    ensures GetPayload(TagOf(f), Payload(f) + rest) == Some((f, rest))
  {
    hide Varint, GetVarint64, LengthPrefixed, GetLengthPrefixed, GetLevel, GetFile, FileBytes;
    match f
    case Comparator(name) => LengthPrefixedRoundTrip(name, rest);
    case LogNumber(n) => Varint64RoundTrip(n, rest);
    case NextFileNumber(n) => Varint64RoundTrip(n, rest);
    case LastSequence(n) => Varint64RoundTrip(n, rest);
    case PrevLogNumber(n) => Varint64RoundTrip(n, rest);
    case CompactPointer(level, key) =>
      assert Payload(f) + rest == Varint(level) + (LengthPrefixed(key) + rest);
      LevelRoundTrip(level, LengthPrefixed(key) + rest);
      LengthPrefixedRoundTrip(key, rest);
    case DeletedFile(level, n) =>
      assert Payload(f) + rest == Varint(level) + (Varint(n) + rest);
      LevelRoundTrip(level, Varint(n) + rest);
      Varint64RoundTrip(n, rest);
    case NewFile(level, file) =>
      assert Payload(f) + rest == Varint(level) + (FileBytes(file) + rest);
      LevelRoundTrip(level, FileBytes(file) + rest);
      FileRoundTrip(file, rest);
  }

  // The fields of src and whether all of it was sound.
  function ParseFields(src: Bytes): (seq<Field>, bool)
    decreases |src|
  {
    match GetVarint32(src)
    case None => ([], src == [])
    case Some((tag, rest)) =>
      match GetPayload(tag, rest)
      case None => ([], false)
      case Some((f, rest)) =>
        var (fs, ok) := ParseFields(rest);
        ([f] + fs, ok)
  }

  function AllBytes(fs: seq<Field>): Bytes {
    if fs == [] then [] else FieldBytes(fs[0]) + AllBytes(fs[1..])
  }

  lemma NoVarint()
    ensures GetVarint32([]) == None
  {
  }

  lemma {:induction false} FieldsRoundTrip(fs: seq<Field>)
    requires forall f :: f in fs ==> Fits(f)
    ensures ParseFields(AllBytes(fs)) == (fs, true)
  {
    hide Varint, GetVarint32, Payload, GetPayload;
    if fs == [] {
      NoVarint();
    } else {
      var (f, rest) := (fs[0], AllBytes(fs[1..]));
      assert AllBytes(fs) == Varint(TagOf(f)) + (Payload(f) + rest);
      Varint32RoundTrip(TagOf(f), Payload(f) + rest);
      PayloadRoundTrip(f, rest);
      FieldsRoundTrip(fs[1..]);
      assert fs == [f] + fs[1..];
    }
  }

  // ---------------------------------------------------------------- edits

  function Numbers(e: Edit): seq<Field> {
    (if e.comparator.Some? then [Comparator(e.comparator.value)] else [])
    + (if e.logNumber.Some? then [LogNumber(e.logNumber.value)] else [])
    + (if e.prevLogNumber.Some? then [PrevLogNumber(e.prevLogNumber.value)] else [])
    + (if e.nextFileNumber.Some? then [NextFileNumber(e.nextFileNumber.value)] else [])
    + (if e.lastSequence.Some? then [LastSequence(e.lastSequence.value)] else [])
  }

  // In the order in which EncodeTo writes them.
  function FieldsOf(e: Edit): seq<Field> {
    Numbers(e) + Pointers(e.compactPointers) + Deletions(e.deleted) + Additions(e.added)
  }

  function Pointers(ps: seq<(Level, Bytes)>): seq<Field> {
    seq(|ps|, i requires 0 <= i < |ps| => CompactPointer(ps[i].0, ps[i].1))
  }

  function Deletions(ds: seq<(Level, uint64)>): seq<Field> {
    seq(|ds|, i requires 0 <= i < |ds| => DeletedFile(ds[i].0, ds[i].1))
  }

  function Additions(fs: seq<(Level, FileMeta)>): seq<Field> {
    seq(|fs|, i requires 0 <= i < |fs| => NewFile(fs[i].0, fs[i].1))
  }

  // Insertion into the set of deleted files.
  predicate PairLess(a: (Level, uint64), b: (Level, uint64)) {
    a.0 < b.0 || (a.0 == b.0 && a.1 < b.1)
  }

  predicate Ascending(ds: seq<(Level, uint64)>) {
    forall i, j :: 0 <= i < j < |ds| ==> PairLess(ds[i], ds[j])
  }

  function Inserted(ds: seq<(Level, uint64)>, d: (Level, uint64)): seq<(Level, uint64)> {
    if ds == [] || PairLess(d, ds[0]) then [d] + ds
    else if d == ds[0] then ds
    else [ds[0]] + Inserted(ds[1..], d)
  }

  lemma {:induction false} InsertedLast(ds: seq<(Level, uint64)>, d: (Level, uint64))
    requires Ascending(ds + [d])
    ensures Inserted(ds, d) == ds + [d]
  {
    if ds != [] {
      assert PairLess((ds + [d])[0], (ds + [d])[|ds|]);
      assert (ds + [d])[1..] == ds[1..] + [d];
      InsertedLast(ds[1..], d);
    }
  }

  function WithField(e: Edit, f: Field): Edit {
    match f
    case Comparator(name) => e.(comparator := Some(name))
    case LogNumber(n) => e.(logNumber := Some(n))
    case PrevLogNumber(n) => e.(prevLogNumber := Some(n))
    case NextFileNumber(n) => e.(nextFileNumber := Some(n))
    case LastSequence(n) => e.(lastSequence := Some(n))
    case CompactPointer(level, key) => e.(compactPointers := e.compactPointers + [(level, key)])
    case DeletedFile(level, n) => e.(deleted := Inserted(e.deleted, (level, n)))
    case NewFile(level, file) => e.(added := e.added + [(level, file)])
  }

  function WithFields(e: Edit, fs: seq<Field>): Edit
    decreases |fs|
  {
    if fs == [] then e else WithFields(WithField(e, fs[0]), fs[1..])
  }

  lemma {:induction false} WithFieldsConcat(e: Edit, a: seq<Field>, b: seq<Field>)
    ensures WithFields(e, a + b) == WithFields(WithFields(e, a), b)
    decreases |a|
  {
    hide WithField;
    if a == [] {
      assert a + b == b;
    } else {
      assert (a + b)[1..] == a[1..] + b;
      WithFieldsConcat(WithField(e, a[0]), a[1..], b);
    }
  }

  lemma {:induction false} WithPointers(e: Edit, ps: seq<(Level, Bytes)>)
    ensures WithFields(e, Pointers(ps)) == e.(compactPointers := e.compactPointers + ps)
    decreases |ps|
  {
    if ps == [] {
      assert e.compactPointers + ps == e.compactPointers;
    } else {
      assert Pointers(ps)[1..] == Pointers(ps[1..]);
      WithPointers(WithField(e, Pointers(ps)[0]), ps[1..]);
      assert e.compactPointers + [ps[0]] + ps[1..] == e.compactPointers + ps;
    }
  }

  lemma {:induction false} WithDeletions(e: Edit, ds: seq<(Level, uint64)>)
    requires Ascending(e.deleted + ds)
    ensures WithFields(e, Deletions(ds)) == e.(deleted := e.deleted + ds)
    decreases |ds|
  {
    if ds == [] {
      assert e.deleted + ds == e.deleted;
    } else {
      assert Deletions(ds)[1..] == Deletions(ds[1..]);
      var more := e.deleted + [ds[0]];
      assert more + ds[1..] == e.deleted + ds;
      assert Ascending(more) by { assert forall i :: 0 <= i < |more| ==> more[i] == (e.deleted + ds)[i]; }
      InsertedLast(e.deleted, ds[0]);
      WithDeletions(WithField(e, Deletions(ds)[0]), ds[1..]);
    }
  }

  lemma {:induction false} WithAdditions(e: Edit, fs: seq<(Level, FileMeta)>)
    ensures WithFields(e, Additions(fs)) == e.(added := e.added + fs)
    decreases |fs|
  {
    if fs == [] {
      assert e.added + fs == e.added;
    } else {
      assert Additions(fs)[1..] == Additions(fs[1..]);
      WithAdditions(WithField(e, Additions(fs)[0]), fs[1..]);
      assert e.added + [fs[0]] + fs[1..] == e.added + fs;
    }
  }

  function Encoded(e: Edit): Bytes {
    AllBytes(FieldsOf(e))
  }

  // DecodeFrom: the edit, or nothing if any field is malformed.
  function Decoded(src: Bytes): Option<Edit> {
    var (fs, ok) := ParseFields(src);
    if ok then Some(WithFields(EMPTY, fs)) else None
  }

  ghost predicate WellFormed(e: Edit) {
    && Ascending(e.deleted)
    && (forall f :: f in FieldsOf(e) ==> Fits(f))
  }

  lemma WithOne(e: Edit, f: Field)
    ensures WithFields(e, [f]) == WithField(e, f) && WithFields(e, []) == e
  {
    hide WithField;
    assert [f][1..] == [];
  }

  lemma WithNumbers(e: Edit)
    ensures WithFields(EMPTY, Numbers(e)) == e.(compactPointers := [], deleted := [], added := [])
  {
    hide WithFields;
    var a := if e.comparator.Some? then [Comparator(e.comparator.value)] else [];
    var b := if e.logNumber.Some? then [LogNumber(e.logNumber.value)] else [];
    var c := if e.prevLogNumber.Some? then [PrevLogNumber(e.prevLogNumber.value)] else [];
    var d := if e.nextFileNumber.Some? then [NextFileNumber(e.nextFileNumber.value)] else [];
    var f := if e.lastSequence.Some? then [LastSequence(e.lastSequence.value)] else [];
    WithFieldsConcat(EMPTY, a + b + c + d, f);
    WithFieldsConcat(EMPTY, a + b + c, d);
    WithFieldsConcat(EMPTY, a + b, c);
    WithFieldsConcat(EMPTY, a, b);
    var e1 := EMPTY.(comparator := e.comparator);
    var e2 := e1.(logNumber := e.logNumber);
    var e3 := e2.(prevLogNumber := e.prevLogNumber);
    var e4 := e3.(nextFileNumber := e.nextFileNumber);
    WithOne(EMPTY, if a == [] then Comparator([]) else a[0]);
    WithOne(e1, if b == [] then Comparator([]) else b[0]);
    WithOne(e2, if c == [] then Comparator([]) else c[0]);
    WithOne(e3, if d == [] then Comparator([]) else d[0]);
    WithOne(e4, if f == [] then Comparator([]) else f[0]);
  }

  lemma CollectsEdit(e: Edit)
    requires Ascending(e.deleted)
    ensures WithFields(EMPTY, FieldsOf(e)) == e
  {
    hide WithFields, Pointers, Deletions, Additions;
    var (p, d, a) := (Pointers(e.compactPointers), Deletions(e.deleted), Additions(e.added));
    WithFieldsConcat(EMPTY, Numbers(e) + p + d, a);
    WithFieldsConcat(EMPTY, Numbers(e) + p, d);
    WithFieldsConcat(EMPTY, Numbers(e), p);
    WithNumbers(e);
    var e1 := e.(compactPointers := [], deleted := [], added := []);
    assert [] + e.compactPointers == e.compactPointers && [] + e.deleted == e.deleted && [] + e.added == e.added;
    WithPointers(e1, e.compactPointers);
    var e2 := e1.(compactPointers := e.compactPointers);
    WithDeletions(e2, e.deleted);
    WithAdditions(e2.(deleted := e.deleted), e.added);
  }

  // An edit is decoded exactly as it was encoded.
  lemma EditRoundTrip(e: Edit)
    requires WellFormed(e)
    ensures Decoded(Encoded(e)) == Some(e)
  {
    hide WithFields, FieldsOf, ParseFields, AllBytes;
    FieldsRoundTrip(FieldsOf(e));
    CollectsEdit(e);
  }

  // ---------------------------------------------------------------- loops

  lemma {:induction false} AllBytesConcat(a: seq<Field>, b: seq<Field>)
    ensures AllBytes(a + b) == AllBytes(a) + AllBytes(b)
  {
    hide FieldBytes;
    if a == [] {
      assert a + b == b;
    } else {
      assert (a + b)[1..] == a[1..] + b;
      AllBytesConcat(a[1..], b);
    }
  }

  // Append fields one after the other, as the loops of EncodeTo do.
  method PutFields(dst: Bytes, fs: seq<Field>) returns (r: Bytes)
    ensures r == dst + AllBytes(fs)
  {
    hide FieldBytes;
    r := dst;
    var i := 0;
    while i < |fs|
      invariant 0 <= i <= |fs| && r == dst + AllBytes(fs[..i])
    {
      assert fs[..i + 1] == fs[..i] + [fs[i]];
      AllBytesConcat(fs[..i], [fs[i]]);
      assert AllBytes([fs[i]]) == FieldBytes(fs[i]) by { assert FieldBytes(fs[i]) + [] == FieldBytes(fs[i]); }
      r := r + FieldBytes(fs[i]);
      i := i + 1;
    }
    assert fs[..i] == fs;
  }

  method EncodeTo(e: Edit) returns (dst: Bytes)
    ensures dst == Encoded(e)
  {
    hide AllBytes, Numbers, Pointers, Deletions, Additions;
    var (n, p, d, a) := (Numbers(e), Pointers(e.compactPointers), Deletions(e.deleted), Additions(e.added));
    AllBytesConcat(n + p + d, a);
    AllBytesConcat(n + p, d);
    AllBytesConcat(n, p);
    dst := PutFields([], n);
    dst := PutFields(dst, p);
    dst := PutFields(dst, d);
    dst := PutFields(dst, a);
  }

  method DecodeFrom(src: Bytes) returns (r: Option<Edit>)
    ensures r == Decoded(src)
  {
    hide GetVarint32, GetPayload, WithField;
    var input := src;
    var e := EMPTY;
    ghost var fs: seq<Field> := [];
    assert fs + ParseFields(input).0 == ParseFields(input).0;
    while true
      invariant e == WithFields(EMPTY, fs)
      invariant ParseFields(src) == (fs + ParseFields(input).0, ParseFields(input).1)
      decreases |input|
    {
      match GetVarint32(input) {
        case None =>
          assert fs + [] == fs;
          return if input == [] then Some(e) else None;
        case Some((tag, rest)) =>
          match GetPayload(tag, rest) {
            case None =>
              return None;
            case Some((f, rest')) =>
              assert fs + ParseFields(input).0 == fs + [f] + ParseFields(rest').0;
              WithFieldsConcat(EMPTY, fs, [f]);
              WithOne(e, f);
              e := WithField(e, f);
              fs := fs + [f];
              input := rest';
          }
      }
    }
  }
}
