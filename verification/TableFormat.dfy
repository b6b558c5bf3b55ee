/**
  The table file (table/format.cc): checksummed blocks, handles that point at
  them, and the footer.  Blocks are stored uncompressed.
 */
module TableFormat {
  import opened Basics
  import opened Coding
  import Crc32c

  const TRAILER_SIZE: nat := 5
  const NO_COMPRESSION: byte := 0
  const HANDLE_ROOM: nat := 20
  const FOOTER_SIZE: nat := 48
  const MAGIC: uint64 := 0xdb4775248b80fb57

  // ---------------------------------------------------------------- handles

  datatype Handle = Handle(offset: uint64, size: uint64)

  function HandleBytes(h: Handle): Bytes {
    Varint(h.offset) + Varint(h.size)
  }

  function DecodeHandle(input: Bytes): Option<(Handle, Bytes)> {
    match GetVarint64(input)
    case None => None
    case Some((offset, rest)) =>
      match GetVarint64(rest)
      case None => None
      case Some((size, rest')) => Some((Handle(offset, size), rest'))
  }

  lemma HandleRoundTrip(h: Handle, rest: Bytes)
    ensures DecodeHandle(HandleBytes(h) + rest) == Some((h, rest))
  {
    hide Varint, GetVarint64;
    assert HandleBytes(h) + rest == Varint(h.offset) + (Varint(h.size) + rest);
    Varint64RoundTrip(h.offset, Varint(h.size) + rest);
    Varint64RoundTrip(h.size, rest);
  }

  lemma {:induction false} VarintShort(v: nat, n: nat)
    requires n > 0 && v < Power128(n)
    ensures |Varint(v)| <= n
  {
    if v >= 128 {
      assert v / 128 < Power128(n - 1);
      VarintShort(v / 128, n - 1);
    }
  }

  lemma HandleShort(h: Handle)
    ensures |HandleBytes(h)| <= HANDLE_ROOM
  {
    assert Power128(1) == 128 && Power128(3) == 128 * 128 * 128;
    assert Power128(5) == 128 * (128 * Power128(3));
    assert Power128(7) == 128 * (128 * Power128(5));
    assert Power128(9) == 128 * (128 * Power128(7));
    hide Varint;
    VarintShort(h.offset, 10);
    VarintShort(h.size, 10);
  }

  // ---------------------------------------------------------------- blocks

  function Stored(crc: bv32): uint32 {
    Crc32c.Mask(crc) as int
  }

  // The checksum covers the contents and the compression type.
  function BlockChecksum(contents: Bytes, kind: byte): uint32 {
    Stored(Crc32c.Extended(Crc32c.Value(contents), [kind]))
  }

  function RawBlock(contents: Bytes): (r: Bytes)
    ensures |r| == |contents| + TRAILER_SIZE
  {
    contents + ([NO_COMPRESSION] + Fixed32(BlockChecksum(contents, NO_COMPRESSION)))
  }

  predicate ChecksumMatches(data: Bytes, n: nat)
    requires n + TRAILER_SIZE <= |data|
  {
    Crc32c.Unmask(DecodeFixed32(data[n + 1..]) as bv32) == Crc32c.Value(data[..n + 1])
  }

  // The block behind a handle.  Only the uncompressed form is modelled.
  function ReadBlock(file: Bytes, h: Handle, verify: bool): Option<Bytes> {
    var (n, end) := (h.size, h.offset + h.size + TRAILER_SIZE);
    if end > |file| then None
    else
      var data := file[h.offset..end];
      if verify && !ChecksumMatches(data, n) then None
      else if data[n] == NO_COMPRESSION then Some(data[..n])
      else None
  }

  lemma StoredMatches(crc: bv32)
    ensures Crc32c.Unmask(Stored(crc) as bv32) == crc
  {
    hide Crc32c.Mask, Crc32c.Unmask;
    IntAndBack(Crc32c.Mask(crc));
    Crc32c.UnmaskMask(crc);
  }

  lemma IntAndBack(c: bv32)
    ensures (c as int) as bv32 == c
  {
  }

  lemma RawBlockMatches(contents: Bytes)
    ensures ChecksumMatches(RawBlock(contents), |contents|)
    ensures RawBlock(contents)[|contents|] == NO_COMPRESSION && RawBlock(contents)[..|contents|] == contents
  {
    hide Fixed32, DecodeFixed32, Stored, Crc32c.Extended, Crc32c.Unmask;
    var crc := BlockChecksum(contents, NO_COMPRESSION);
    var data := RawBlock(contents);
    assert data[|contents| + 1..] == Fixed32(crc) + [];
    Fixed32RoundTrip(crc, []);
    assert data[..|contents| + 1] == contents + [NO_COMPRESSION];
    Crc32c.ExtendedConcat(0, contents, [NO_COMPRESSION]);
    StoredMatches(Crc32c.Value(contents + [NO_COMPRESSION]));
  }

  // A block is read back from wherever it was written.
  lemma ReadsRawBlock(file: Bytes, h: Handle, contents: Bytes, verify: bool)
    requires h.size == |contents| && h.offset + |RawBlock(contents)| <= |file|
    requires file[h.offset..h.offset + |RawBlock(contents)|] == RawBlock(contents)
    ensures ReadBlock(file, h, verify) == Some(contents)
  {
    hide RawBlock, ChecksumMatches;
    RawBlockMatches(contents);
  }

  // With checksums on, only contents that match the stored checksum come out, and
  // they are the bytes behind the handle.
  lemma ReadsOnlyMatching(file: Bytes, h: Handle)
    requires ReadBlock(file, h, true).Some?
    ensures h.offset + h.size + 5 <= |file| && ReadBlock(file, h, true).value == file[h.offset..h.offset + h.size]
    ensures file[h.offset + h.size] == 0
    ensures Crc32c.Value(file[h.offset..h.offset + h.size + 1]) ==
            Crc32c.Unmask(DecodeFixed32(file[h.offset + h.size + 1..h.offset + h.size + 5]) as bv32)
  {
    hide Crc32c.Value, Crc32c.Unmask, DecodeFixed32;
    var (n, end) := (h.size, h.offset + h.size + TRAILER_SIZE);
    var data := file[h.offset..end];
    assert data[..n] == file[h.offset..h.offset + n] && data[n] == file[h.offset + n];
    assert data[..n + 1] == file[h.offset..h.offset + n + 1] && data[n + 1..] == file[h.offset + n + 1..end];
  }

  // ---------------------------------------------------------------- footer

  function Padded(handles: Bytes): Bytes {
    if |handles| <= 2 * HANDLE_ROOM then handles + seq(2 * HANDLE_ROOM - |handles|, _ => 0) else handles
  }

  function Footer(meta: Handle, index: Handle): Bytes {
    Padded(HandleBytes(meta) + HandleBytes(index)) + Fixed64(MAGIC)
  }

  function DecodeFooter(input: Bytes): Option<(Handle, Handle)>
    requires |input| == FOOTER_SIZE
  {
    if DecodeFixed64(input[FOOTER_SIZE - 8..]) != MAGIC then None
    else
      match DecodeHandle(input)
      case None => None
      case Some((meta, rest)) =>
        match DecodeHandle(rest)
        case None => None
        case Some((index, _)) => Some((meta, index))
  }

  lemma FooterSize(meta: Handle, index: Handle)
    ensures |Footer(meta, index)| == FOOTER_SIZE
    ensures Padded(HandleBytes(meta) + HandleBytes(index))
         == HandleBytes(meta) +
           (HandleBytes(index) + seq(2 * HANDLE_ROOM - |HandleBytes(meta)| - |HandleBytes(index)|, _ => 0))
  {
    HandleShort(meta);
    HandleShort(index);
    hide HandleBytes, Fixed64;
  }

  lemma FooterRoundTrip(meta: Handle, index: Handle)
    ensures |Footer(meta, index)| == FOOTER_SIZE && DecodeFooter(Footer(meta, index)) == Some((meta, index))
  {
    FooterSize(meta, index);
    HandleShort(meta);
    HandleShort(index);
    hide HandleBytes, DecodeHandle, Fixed64, DecodeFixed64, Padded;
    var (m, i) := (HandleBytes(meta), HandleBytes(index));
    var zeros: Bytes := seq(2 * HANDLE_ROOM - |m| - |i|, _ => 0);
    var f := Footer(meta, index);
    assert f[FOOTER_SIZE - 8..] == Fixed64(MAGIC) + [];
    Fixed64RoundTrip(MAGIC, []);
    assert f == m + (i + (zeros + Fixed64(MAGIC)));
    HandleRoundTrip(meta, i + (zeros + Fixed64(MAGIC)));
    HandleRoundTrip(index, zeros + Fixed64(MAGIC));
  }
}
