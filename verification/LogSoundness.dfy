/**
  What the log reader can return from an arbitrary file, damaged or not: only
  records whose every fragment lies in the file under a checksum that matches it.
 */
module LogSoundness {
  import opened Basics
  import opened Coding
  import Crc32c
  import opened LogFormat
  import opened LogReader

  // ---------------------------------------------------------------- fragments

  // A fragment found at a position of the file.
  datatype Piece = Piece(at: nat, kind: byte, payload: Bytes)

  function End(p: Piece): nat {
    p.at + 7 + |p.payload|
  }

  // Length, type and payload are those of the bytes there, and the stored checksum
  // is that of type and payload.
  ghost predicate Genuine(file: Bytes, p: Piece) {
    && End(p) <= |file|
    && file[p.at + 4] as int + 256 * file[p.at + 5] as int == |p.payload| && file[p.at + 6] == p.kind
    && file[p.at + 7..End(p)] == p.payload
    && Crc32c.Value(file[p.at + 6..End(p)]) == Crc32c.Unmask(DecodeFixed32(file[p.at..]) as bv32)
  }

  // The buffer is the end of what has been read.
  ghost predicate Aligned(s: Input) {
    && |s.buffer| <= s.position <= |s.file|
    && s.buffer == s.file[s.position - |s.buffer|..s.position]
  }

  function Start(s: Input): int {
    s.position - |s.buffer|
  }

  // What one physical record may be.
  ghost predicate Sound(s: Input, r: (byte, Bytes, Input)) {
    && r.2.file == s.file && Aligned(r.2) && Start(s) <= Start(r.2)
    && (1 <= r.0 <= 4 ==>
          exists at: nat ::
            Start(s) <= at && Genuine(s.file, Piece(at, r.0, r.1)) && End(Piece(at, r.0, r.1)) == Start(r.2))
  }

  lemma ParsedSound(s: Input)
    requires Aligned(s) && |s.buffer| >= HEADER_SIZE
    ensures Sound(s, Parsed(s, true))
  {
    hide ChecksumMatches, Genuine, Length;
    var (length, at: nat) := (Length(s.buffer), Start(s));
    if HEADER_SIZE + length <= |s.buffer| {
      var p := Piece(at, s.buffer[6], s.buffer[HEADER_SIZE..HEADER_SIZE + length]);
      BufferSlices(s, length);
      if ChecksumMatches(s.buffer, length) { HeadGenuine(s, p); }
    }
  }

  lemma HeadGenuine(s: Input, p: Piece)
    requires Aligned(s) && |s.buffer| >= HEADER_SIZE && HEADER_SIZE + Length(s.buffer) <= |s.buffer|
    requires ChecksumMatches(s.buffer, Length(s.buffer))
    requires p == Piece(Start(s), s.buffer[6], s.buffer[HEADER_SIZE..HEADER_SIZE + Length(s.buffer)])
    ensures Genuine(s.file, p)
  {
    hide Crc32c.Value, Crc32c.Unmask, DecodeFixed32;
    BufferSlices(s, Length(s.buffer));
    HeadDecodes(s);
  }

  lemma BufferSlices(s: Input, length: nat)
    requires Aligned(s) && HEADER_SIZE + length <= |s.buffer|
    ensures var at := Start(s);
            && at + HEADER_SIZE + length <= |s.file|
            && (forall i :: 0 <= i < |s.buffer| ==> s.buffer[i] == s.file[at + i])
            && s.buffer[6..HEADER_SIZE + length] == s.file[at + 6..at + HEADER_SIZE + length]
            && s.buffer[HEADER_SIZE..HEADER_SIZE + length] == s.file[at + HEADER_SIZE..at + HEADER_SIZE + length]
            && s.buffer[HEADER_SIZE + length..] == s.file[at + HEADER_SIZE + length..s.position]
  {
    var at := Start(s);
    assert forall i :: 0 <= i < |s.buffer| ==> s.buffer[i] == s.file[at..s.position][i];
  }

  // A number at the head of the buffer is read from its first four bytes.
  lemma HeadDecodes(s: Input)
    requires Aligned(s) && |s.buffer| >= 4
    ensures DecodeFixed32(s.buffer) == DecodeFixed32(s.file[Start(s)..])
  {
    var tail := s.file[Start(s)..];
    assert forall i :: 0 <= i < 4 ==> s.buffer[i] == s.file[Start(s)..s.position][i] == tail[i];
  }

  lemma {:induction false} PhysicalSound(s: Input)
    requires Aligned(s)
    ensures Sound(s, PhysicalRecord(s, true))
    decreases |s.file| - s.position, !s.eof
  {
    if |s.buffer| >= HEADER_SIZE {
      ParsedSound(s);
    } else if !s.eof {
      assert Aligned(LoadBlock(s));
      PhysicalSound(LoadBlock(s));
    }
  }

  // ---------------------------------------------------------------- records

  function Joined(ps: seq<Piece>): Bytes {
    if ps == [] then [] else Joined(ps[..|ps| - 1]) + ps[|ps| - 1].payload
  }

  // Genuine fragments, one after the other.
  ghost predicate InOrder(file: Bytes, ps: seq<Piece>) {
    && (forall i :: 0 <= i < |ps| ==> Genuine(file, ps[i]))
    && (forall i, j :: 0 <= i < j < |ps| ==> End(ps[i]) <= ps[j].at)
  }

  // The beginning of a record: a first fragment and middle ones.
  ghost predicate Begun(file: Bytes, ps: seq<Piece>) {
    && ps != [] && InOrder(file, ps) && ps[0].kind == 2
    && forall i :: 0 < i < |ps| ==> ps[i].kind == 3
  }

  // A whole record: one full fragment, or a first, middle ones and a last.
  ghost predicate Whole(file: Bytes, ps: seq<Piece>) {
    || (|ps| == 1 && InOrder(file, ps) && ps[0].kind == 1)
    || (|ps| > 1 && InOrder(file, ps) && Begun(file, ps[..|ps| - 1]) && ps[|ps| - 1].kind == 4)
  }

  ghost predicate InFile(file: Bytes, data: Bytes) {
    exists ps :: Whole(file, ps) && Joined(ps) == data
  }

  // The fragments gathered so far.
  ghost predicate Gathered(s: Input, pending: Option<Bytes>, ps: seq<Piece>) {
    pending.Some? ==> Begun(s.file, ps) && Joined(ps) == pending.value && End(ps[|ps| - 1]) <= Start(s)
  }

  lemma OnePiece(file: Bytes, p: Piece)
    requires Genuine(file, p)
    ensures InOrder(file, [p]) && Joined([p]) == p.payload
  {
    hide Genuine;
    assert [p][..0] == [];
    assert [] + p.payload == p.payload;
  }

  lemma MorePieces(file: Bytes, ps: seq<Piece>, p: Piece)
    requires ps != [] && InOrder(file, ps) && Genuine(file, p) && End(ps[|ps| - 1]) <= p.at
    ensures InOrder(file, ps + [p]) && Joined(ps + [p]) == Joined(ps) + p.payload && (ps + [p])[..|ps|] == ps
  {
    hide Genuine;
    forall i | 0 <= i < |ps| ensures End(ps[i]) <= p.at {
      if i < |ps| - 1 { assert End(ps[i]) <= ps[|ps| - 1].at; }
    }
  }

  // Every record that comes out is in the file.
  lemma {:induction false} RecordSound(s: Input, pending: Option<Bytes>, ps: seq<Piece>)
    requires Aligned(s) && Gathered(s, pending, ps)
    ensures var (r, t) := Record(s, pending, true);
            t.file == s.file && Aligned(t) && (r.Some? ==> InFile(s.file, r.value))
    decreases Left(s)
  {
    hide PhysicalRecord, Genuine, Aligned, Joined, InOrder;
    AlignedInside(s);
    PhysicalSound(s);
    var (kind, fragment, t) := PhysicalRecord(s, true);
    if 1 <= kind <= 4 {
      var at: nat :| Start(s) <= at && Genuine(s.file, Piece(at, kind, fragment))
                     && End(Piece(at, kind, fragment)) == Start(t);
      var p := Piece(at, kind, fragment);
      OnePiece(s.file, p);
      if kind == FULL {
        assert Whole(s.file, [p]) && Joined([p]) == fragment;
      } else if kind == FIRST {
        RecordSound(t, Some(fragment), [p]);
      } else if pending.Some? {
        MorePieces(s.file, ps, p);
        if kind == LAST {
          assert Whole(s.file, ps + [p]) && Joined(ps + [p]) == pending.value + fragment;
        } else {
          RecordSound(t, Some(pending.value + fragment), ps + [p]);
        }
      } else {
        RecordSound(t, None, []);
      }
    } else if kind != END_OF_FILE {
      RecordSound(t, None, []);
    }
  }

  lemma AlignedInside(s: Input)
    requires Aligned(s)
    ensures s.position <= |s.file|
  {
  }

  // From any file whatever, with checksums on, the reader returns only records
  // whose fragments are in the file under matching checksums.
  lemma {:induction false} ReadsOnlyGenuine(s: Input)
    requires Aligned(s)
    ensures forall r :: r in AllRecords(s, true) ==> InFile(s.file, r)
    decreases Left(s)
  {
    hide Record, InFile;
    AlignedInside(s);
    RecordSound(s, None, []);
    var (r, t) := Record(s, None, true);
    if r.Some? {
      ReadsOnlyGenuine(t);
    }
  }

  lemma FileSound(file: Bytes)
    ensures forall r :: r in AllRecords(Opened(file), true) ==> InFile(file, r)
  {
    ReadsOnlyGenuine(Opened(file));
  }
}
