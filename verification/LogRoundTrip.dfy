/**
  What the log writer wrote the log reader reads back, from any byte prefix of
  the file: exactly the records that lie wholly inside it.
 */
module LogRoundTrip {
  import opened Basics
  import opened Coding
  import Crc32c
  import opened LogFormat
  import opened LogReader

  // ---------------------------------------------------------------- one header

  lemma IntRoundTrip(c: bv32)
    ensures (c as int) as bv32 == c
  {
  }

  // The writer's checksum, continued from the type byte, is the reader's, taken
  // over type and payload at once.
  lemma ChecksumsAgree(kind: byte, payload: Bytes)
    ensures Crc32c.Unmask(Checksum(kind, payload) as bv32) == Crc32c.Value([kind] + payload)
  {
    hide Crc32c.Mask, Crc32c.Unmask, Crc32c.Extended;
    var crc := Crc32c.Extended(Crc32c.Value([kind]), payload);
    IntRoundTrip(Crc32c.Mask(crc));
    Crc32c.UnmaskMask(crc);
    Crc32c.ExtendedConcat(0, [kind], payload);
  }

  lemma HeaderFields(kind: byte, payload: Bytes, rest: Bytes)
    requires |payload| < 65536
    ensures var b := Physical(kind, payload) + rest;
      && Length(b) == |payload| && b[6] == kind && DecodeFixed32(b) == Checksum(kind, payload)
      && b[6..HEADER_SIZE + |payload|] == [kind] + payload
      && b[HEADER_SIZE..HEADER_SIZE + |payload|] == payload
      && b[HEADER_SIZE + |payload|..] == rest
  {
    hide Checksum;
    var crc := Checksum(kind, payload);
    var (low: byte, high: byte) := (|payload| % 256, |payload| / 256);
    var b := Physical(kind, payload) + rest;
    assert b == Fixed32(crc) + ([low, high, kind] + payload + rest);
    Fixed32RoundTrip(crc, [low, high, kind] + payload + rest);
    hide Fixed32, DecodeFixed32;
    assert b[4] == low && b[5] == high && b[6] == kind;
    assert b[6..] == [kind] + payload + rest;
    assert b[6..HEADER_SIZE + |payload|] == [kind] + payload;
  }

  // A whole physical record at the head of the buffer is taken as written.
  lemma ParsesWhole(s: Input, kind: byte, payload: Bytes, rest: Bytes, checksum: bool)
    requires s.position <= |s.file| && |payload| < 65536 && kind != ZERO_TYPE
    requires s.buffer == Physical(kind, payload) + rest
    ensures Parsed(s, checksum) == (kind, payload, s.(buffer := rest))
  {
    hide Checksum, DecodeFixed32, Physical, Length, Crc32c.Value, Crc32c.Unmask;
    HeaderFields(kind, payload, rest);
    ChecksumsAgree(kind, payload);
    assert ChecksumMatches(s.buffer, |payload|);
  }

  // One that is cut short is dropped with the rest of the buffer.
  lemma ParsesCut(s: Input, kind: byte, payload: Bytes, checksum: bool)
    requires s.position <= |s.file| && |payload| < 65536
    requires HEADER_SIZE <= |s.buffer| < HEADER_SIZE + |payload|
    requires s.buffer == Physical(kind, payload)[..|s.buffer|]
    ensures Parsed(s, checksum) == (BAD_RECORD, [], Drop(s))
  {
    HeaderFields(kind, payload, []);
    hide Checksum;
    assert Physical(kind, payload) + [] == Physical(kind, payload);
    assert s.buffer[4] == Physical(kind, payload)[4] && s.buffer[5] == Physical(kind, payload)[5];
  }

  // ---------------------------------------------------------------- positions

  function BlockEnd(p: nat): (e: nat)
    ensures p < e && e % BLOCK_SIZE == 0
  {
    (p / BLOCK_SIZE + 1) * BLOCK_SIZE
  }

  // The reader has consumed p bytes and holds the rest of p's block, or nothing.
  ghost predicate Standing(s: Input, p: nat) {
    && s.position <= |s.file| && p + |s.buffer| == s.position && s.buffer == s.file[p..s.position]
    && (s.eof ==> s.position == |s.file|)
    && (!s.eof ==> s.position % BLOCK_SIZE == 0)
    && (s.buffer != [] ==> s.position == Min(BlockEnd(p), |s.file|))
  }

  // Nothing is left to read.
  ghost predicate Exhausted(s: Input) {
    s.position == |s.file| && s.buffer == []
  }

  lemma ExhaustedStays(s: Input, checksum: bool)
    requires Exhausted(s)
    ensures PhysicalRecord(s, checksum).0 == END_OF_FILE && Exhausted(PhysicalRecord(s, checksum).2)
  {
    if !s.eof {
      assert LoadBlock(s).eof;
    }
  }

  // ---------------------------------------------------------------- one fragment

  // The file is a prefix of what was written, and the fragment is at p.
  ghost predicate FragmentAt(file: Bytes, written: Bytes, p: nat, kind: byte, payload: Bytes) {
    var q := p + Padding(p);
    && file <= written
    && q % BLOCK_SIZE + HEADER_SIZE + |payload| <= BLOCK_SIZE
    && q + HEADER_SIZE + |payload| <= |written|
    && written[q..q + HEADER_SIZE + |payload|] == Physical(kind, payload)
  }

  lemma Room(p: nat)
    ensures BlockEnd(p) == p + (BLOCK_SIZE - p % BLOCK_SIZE)
    ensures Padding(p) == if BlockEnd(p) - p < HEADER_SIZE then BlockEnd(p) - p else 0
  {
  }

  lemma SameBlock(p: nat, q: nat)
    requires p <= q < BlockEnd(p)
    ensures BlockEnd(q) == BlockEnd(p)
  {
    assert q / BLOCK_SIZE == p / BLOCK_SIZE;
  }

  // The fragment starts at the head of a loaded buffer.
  lemma ReadsFragmentHere(s: Input, written: Bytes, p: nat, kind: byte, payload: Bytes, checksum: bool)
    requires Standing(s, p) && |s.buffer| >= HEADER_SIZE && ZERO_TYPE < kind
    requires FragmentAt(s.file, written, p, kind, payload)
    ensures Padding(p) == 0
    ensures var (t, f, u) := Parsed(s, checksum);
      var end := p + HEADER_SIZE + |payload|;
      if end <= |s.file| then t == kind && f == payload && Standing(u, end)
      else t == BAD_RECORD && Exhausted(u)
  {
    hide Physical, Parsed, Padding, BlockEnd;
    Room(p);
    var end := p + HEADER_SIZE + |payload|;
    assert s.file == written[..|s.file|];
    if end <= s.position {
      var rest := s.file[end..s.position];
      assert s.file[p..end] == written[p..end];
      assert s.buffer == s.file[p..end] + rest;
      ParsesWhole(s, kind, payload, rest, checksum);
      if end < BlockEnd(p) { SameBlock(p, end); }
    } else {
      assert s.buffer == written[p..s.position] == written[p..end][..|s.buffer|];
      ParsesCut(s, kind, payload, checksum);
    }
  }

  // With less than a header in hand the next block starts the fragment.
  lemma NextBlock(s: Input, p: nat)
    requires Standing(s, p) && |s.buffer| < HEADER_SIZE && !s.eof
    ensures s.position == p + Padding(p) && Standing(LoadBlock(s), s.position) && Padding(s.position) == 0
  {
    Room(p);
    Room(s.position);
    if s.buffer != [] {
      assert s.position > p;
      assert s.position == BlockEnd(p);
    }
  }

  lemma ReadsFragment(s: Input, written: Bytes, p: nat, kind: byte, payload: Bytes, checksum: bool)
    requires Standing(s, p) && ZERO_TYPE < kind
    requires FragmentAt(s.file, written, p, kind, payload)
    ensures var (t, f, u) := PhysicalRecord(s, checksum);
      var end := p + Padding(p) + HEADER_SIZE + |payload|;
      if end <= |s.file| then t == kind && f == payload && Standing(u, end)
      else (t == BAD_RECORD || t == END_OF_FILE) && Exhausted(u)
  {
    hide Physical, Parsed, Padding, BlockEnd;
    if |s.buffer| >= HEADER_SIZE {
      ReadsFragmentHere(s, written, p, kind, payload, checksum);
    } else if !s.eof {
      NextBlock(s, p);
      var t := LoadBlock(s);
      if |t.buffer| >= HEADER_SIZE {
        ReadsFragmentHere(t, written, s.position, kind, payload, checksum);
      }
    }
  }

  // ---------------------------------------------------------------- one record

  lemma FragmentIsAt(file: Bytes, written: Bytes, p: nat, data: Bytes, begin: bool)
    requires file <= written && p <= |written| && Emitted(p, data, begin) <= written[p..]
    ensures var n := Taken(p, data);
      && FragmentAt(file, written, p, TypeOf(begin, n == |data|), data[..n])
      && EmittedRest(p, data) <= written[FragmentEnd(p, data)..]
  {
    hide Physical;
    var n := Taken(p, data);
    var (q, end) := (p + Padding(p), FragmentEnd(p, data));
    var f := Fragment(p, data, begin);
    var e := Emitted(p, data, begin);
    assert e == f + EmittedRest(p, data);
    assert written[p..][..|e|] == e;
    assert written[p..end] == e[..|f|] == f;
    assert written[q..end] == f[Padding(p)..];
    assert written[end..][..|e| - |f|] == e[|f|..];
  }

  function Joined(pending: Option<Bytes>, fragment: Bytes): Bytes {
    if pending == None then fragment else pending.value + fragment
  }

  lemma TakesFragment(s: Input, pending: Option<Bytes>, end: bool, checksum: bool)
    requires s.position <= |s.file| && PhysicalRecord(s, checksum).0 == TypeOf(pending == None, end)
    ensures var (_, f, u) := PhysicalRecord(s, checksum);
      Record(s, pending, checksum) ==
        if end then (Some(Joined(pending, f)), u) else Record(u, Some(Joined(pending, f)), checksum)
  {
    hide PhysicalRecord;
  }

  lemma FindsNothing(s: Input, pending: Option<Bytes>, checksum: bool)
    requires s.position <= |s.file| && Exhausted(PhysicalRecord(s, checksum).2)
    requires PhysicalRecord(s, checksum).0 == BAD_RECORD || PhysicalRecord(s, checksum).0 == END_OF_FILE
    ensures Record(s, pending, checksum).0 == None && Exhausted(Record(s, pending, checksum).1)
  {
    ExhaustedStays(PhysicalRecord(s, checksum).2, checksum);
    hide PhysicalRecord;
    var u := PhysicalRecord(s, checksum).2;
    assert Record(u, None, checksum).0 == None;
  }

  // The bytes of data, as part of the record, are what the file goes on with.
  ghost predicate DataAt(s: Input, written: Bytes, p: nat, data: Bytes, begin: bool) {
    && Standing(s, p) && s.file <= written && p <= |written|
    && Emitted(p, data, begin) <= written[p..]
  }

  // The outcome of reading the fragment that data starts with.
  ghost predicate Took(written: Bytes, p: nat, data: Bytes, begin: bool, outcome: (byte, Bytes, Input)) {
    var (n, end) := (Taken(p, data), FragmentEnd(p, data));
    && outcome.0 == TypeOf(begin, n == |data|) && outcome.1 == data[..n] && Standing(outcome.2, end)
    && (n < |data| ==> DataAt(outcome.2, written, end, data[n..], false))
  }

  lemma TakesOne(s: Input, written: Bytes, p: nat, data: Bytes, begin: bool, checksum: bool)
    requires DataAt(s, written, p, data, begin) && FragmentEnd(p, data) <= |s.file|
    requires s.position <= |s.file|
    ensures Took(written, p, data, begin, PhysicalRecord(s, checksum))
  {
    hide Standing, FragmentAt, Taken, FragmentEnd, Padding, Emitted, EmittedRest, PhysicalRecord, Physical, TypeOf;
    var n := Taken(p, data);
    FragmentIsAt(s.file, written, p, data, begin);
    EmittedLength(p, data, begin);
    KindIsNonZero(begin, n == |data|);
    ReadsFragment(s, written, p, TypeOf(begin, n == |data|), data[..n], checksum);
  }

  lemma CannotTakeOne(s: Input, written: Bytes, p: nat, data: Bytes, pending: Option<Bytes>, checksum: bool)
    requires DataAt(s, written, p, data, pending == None)
    requires s.position <= |s.file| && FragmentEnd(p, data) > |s.file|
    ensures Record(s, pending, checksum).0 == None && Exhausted(Record(s, pending, checksum).1)
  {
    hide Standing, FragmentAt, Taken, FragmentEnd, Padding, Emitted, EmittedRest, PhysicalRecord, Physical, Record,
         TypeOf;
    var n := Taken(p, data);
    FragmentIsAt(s.file, written, p, data, pending == None);
    EmittedLength(p, data, pending == None);
    KindIsNonZero(pending == None, n == |data|);
    ReadsFragment(s, written, p, TypeOf(pending == None, n == |data|), data[..n], checksum);
    FindsNothing(s, pending, checksum);
  }

  // A record wholly in the file is returned; one that is not is never returned.
  lemma {:induction false} ReadsRecord(s: Input, written: Bytes, p: nat, data: Bytes, pending: Option<Bytes>,
                                       checksum: bool)
    requires s.position <= |s.file| && DataAt(s, written, p, data, pending == None)
    ensures Reads(s, p + |Emitted(p, data, pending == None)|, Joined(pending, data), Record(s, pending, checksum))
    decreases |data|, if Taken(p, data) == 0 then 1 else 0
  {
    hide PhysicalRecord, Record, Standing, DataAt, Taken, FragmentEnd, Padding, Emitted, EmittedRest, Exhausted;
    var n := Taken(p, data);
    var end := FragmentEnd(p, data);
    EmittedLength(p, data, pending == None);
    if end > |s.file| {
      CannotTakeOne(s, written, p, data, pending, checksum);
    } else {
      TakesOne(s, written, p, data, pending == None, checksum);
      TakesFragment(s, pending, n == |data|, checksum);
      if n == |data| {
        assert data[..n] == data;
      } else {
        if n == 0 {
          assert data[n..] == data;
          Progress(p, data);
        }
        ReadsRecord(PhysicalRecord(s, checksum).2, written, end, data[n..], Some(Joined(pending, data[..n])), checksum);
        JoinedTwice(pending, data, n);
      }
    }
  }

  // The outcome of ReadRecord for a record that ends at end.
  ghost predicate Reads(s: Input, end: nat, record: Bytes, outcome: (Option<Bytes>, Input)) {
    if end <= |s.file| then outcome.0 == Some(record) && Standing(outcome.1, end)
    else outcome.0 == None && Exhausted(outcome.1)
  }

  lemma KindIsNonZero(begin: bool, end: bool)
    ensures ZERO_TYPE < TypeOf(begin, end)
  {
  }

  lemma JoinedTwice(pending: Option<Bytes>, data: Bytes, n: nat)
    requires n <= |data|
    ensures Joined(Some(Joined(pending, data[..n])), data[n..]) == Joined(pending, data)
  {
    assert data[..n] + data[n..] == data;
  }

  lemma EmittedLength(p: nat, data: Bytes, begin: bool)
    ensures var (n, end) := (Taken(p, data), FragmentEnd(p, data));
      && n <= |data| && end == p + Padding(p) + HEADER_SIZE + n
      && p + |Emitted(p, data, begin)| == end + |EmittedRest(p, data)|
      && EmittedRest(p, data) == if n == |data| then [] else Emitted(end, data[n..], false)
  {
  }

  // ---------------------------------------------------------------- whole files

  lemma {:induction false} WrittenPrefix(records: seq<Bytes>, k: nat)
    requires k <= |records|
    ensures Written(records[..k]) <= Written(records)
    ensures k < |records| ==> var p := |Written(records[..k])|;
      && p <= |Written(records)| && Emitted(p, records[k], true) <= Written(records)[p..]
      && |Written(records[..k + 1])| == p + |Emitted(p, records[k], true)|
  {
    hide Emitted;
    if k == |records| {
      assert records[..k] == records;
    } else {
      var n := |records| - 1;
      var shorter := records[..n];
      assert shorter[..k] == records[..k];
      WrittenPrefix(shorter, k);
      assert records[..k + 1][..k] == records[..k];
      if k == n {
        assert records[..k + 1] == records;
      } else {
        assert shorter[..k + 1] == records[..k + 1];
      }
    }
  }

  // From the k-th record on, the reader returns the records up to the last one
  // that lies wholly in the file.
  lemma {:induction false} ReadsFrom(s: Input, records: seq<Bytes>, k: nat, whole: nat, checksum: bool)
    requires k <= whole <= |records| && s.file <= Written(records) && s.position <= |s.file|
    requires Standing(s, |Written(records[..k])|)
    requires |Written(records[..whole])| <= |s.file|
    requires whole < |records| ==> |Written(records[..whole + 1])| > |s.file|
    ensures AllRecords(s, checksum) == records[k..whole]
    decreases whole - k
  {
    hide Emitted, Record, Written, Standing;
    if k < |records| {
      ReadsNext(s, records, k, checksum);
      if k < whole {
        WrittenPrefix(records[..whole], k + 1);
        assert records[..whole][..k + 1] == records[..k + 1];
        ReadsFrom(Record(s, None, checksum).1, records, k + 1, whole, checksum);
        assert records[k..whole] == [records[k]] + records[k + 1..whole];
      }
    } else {
      WrittenPrefix(records, k);
      assert records[..k] == records;
      ReadsEnd(s, checksum);
    }
  }

  lemma ReadsNext(s: Input, records: seq<Bytes>, k: nat, checksum: bool)
    requires k < |records| && s.file <= Written(records) && s.position <= |s.file|
    requires Standing(s, |Written(records[..k])|)
    ensures Reads(s, |Written(records[..k + 1])|, records[k], Record(s, None, checksum))
  {
    hide Emitted, Record, Written, Standing, Reads;
    WrittenPrefix(records, k);
    ReadsRecord(s, Written(records), |Written(records[..k])|, records[k], None, checksum);
  }

  lemma ReadsEnd(s: Input, checksum: bool)
    requires Standing(s, |s.file|)
    ensures Record(s, None, checksum).0 == None
  {
    assert Exhausted(s);
    ExhaustedStays(s, checksum);
  }

  // The main theorem.  Cut the file of any records at any byte: the reader
  // returns the longest prefix of the records that is wholly contained.
  lemma ReadsLongestPrefix(records: seq<Bytes>, n: nat, whole: nat, checksum: bool)
    requires n <= |Written(records)| && whole <= |records|
    requires |Written(records[..whole])| <= n
    requires whole < |records| ==> n < |Written(records[..whole + 1])|
    ensures AllRecords(Opened(Written(records)[..n]), checksum) == records[..whole]
  {
    var s := Opened(Written(records)[..n]);
    assert records[..0] == [];
    assert Written(records[..0]) == [];
    assert Standing(s, 0);
    ReadsFrom(s, records, 0, whole, checksum);
    assert records[0..whole] == records[..whole];
  }

  // There is always such a prefix.
  lemma {:induction false} SomePrefixIsWhole(records: seq<Bytes>, n: nat, k: nat) returns (whole: nat)
    requires k <= |records| && |Written(records[..k])| <= n
    ensures whole <= |records| && |Written(records[..whole])| <= n
    ensures whole < |records| ==> n < |Written(records[..whole + 1])|
    decreases |records| - k
  {
    hide *;
    if k < |records| && |Written(records[..k + 1])| <= n {
      whole := SomePrefixIsWhole(records, n, k + 1);
    } else {
      whole := k;
    }
  }

  // An intact file gives back every record.
  lemma ReadsEverything(records: seq<Bytes>, checksum: bool)
    ensures AllRecords(Opened(Written(records)), checksum) == records
  {
    var w := Written(records);
    assert w[..|w|] == w && records[..|records|] == records;
    ReadsLongestPrefix(records, |w|, |records|, checksum);
  }
}
