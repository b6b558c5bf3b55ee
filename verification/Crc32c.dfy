/**
  CRC32C (util/crc32c.cc): the four-table form that consumes a word at a time,
  against the bit-by-bit division it stands for (section 12.1 of RFC 3720, bits
  reflected).
 */
module Crc32c {
  import opened Basics

  const POLYNOMIAL: bv32 := 0x82f63b78
  const ONES: bv32 := 0xffffffff
  const MASK_DELTA: bv32 := 0xa282ead8

  function Xor(x: bv32, y: bv32): bv32 {
    x ^ y
  }

  function Shifted(x: bv32): bv32 {
    x >> 8
  }

  function Word(b: byte): (w: bv32)
    ensures w < 256
  {
    (b as bv8) as bv32
  }

  // ---------------------------------------------------------------- reference

  function Half(x: bv32): bv32 {
    x >> 1
  }

  function Feedback(x: bv32): bv32 {
    if x & 1 == 1 then POLYNOMIAL else 0
  }

  // Divide one more bit out of the register.
  function Bit(x: bv32): bv32 {
    Xor(Half(x), Feedback(x))
  }

  function Bits(x: bv32, n: nat): bv32
    decreases n
  {
    if n == 0 then x else Bits(Bit(x), n - 1)
  }

  // The register after feeding data byte by byte, eight divisions each.
  function Fold(register: bv32, data: Bytes): bv32
    decreases |data|
  {
    if data == [] then register
    else Fold(Bits(Xor(register, Word(data[0])), 8), data[1..])
  }

  // The checksum of a string with checksum crc followed by data.
  function Extended(crc: bv32, data: Bytes): bv32 {
    Xor(Fold(Xor(crc, ONES), data), ONES)
  }

  function Value(data: Bytes): bv32 {
    Extended(0, data)
  }

  // ---------------------------------------------------------------- division

  lemma XorHalf(x: bv32, y: bv32)
    ensures Half(Xor(x, y)) == Xor(Half(x), Half(y))
  {
  }

  lemma XorOdd(x: bv32, y: bv32)
    ensures ((x ^ y) & 1 == 1) <==> ((x & 1 == 1) != (y & 1 == 1))
  {
  }

  lemma XorFeedback(x: bv32, y: bv32)
    ensures Feedback(Xor(x, y)) == Xor(Feedback(x), Feedback(y))
  {
    XorOdd(x, y);
  }

  lemma XorComm(x: bv32, y: bv32)
    ensures Xor(x, y) == Xor(y, x)
  {
  }

  lemma XorAssoc(x: bv32, y: bv32, z: bv32)
    ensures Xor(Xor(x, y), z) == Xor(x, Xor(y, z))
  {
  }

  lemma XorSwap(a: bv32, b: bv32, c: bv32, d: bv32)
    ensures Xor(Xor(a, c), Xor(b, d)) == Xor(Xor(a, b), Xor(c, d))
  {
    hide Xor;
    XorAssoc(a, c, Xor(b, d));
    XorAssoc(c, b, d);
    XorComm(c, b);
    XorAssoc(b, c, d);
    XorAssoc(a, b, Xor(c, d));
  }

  // Division is linear.
  lemma BitXor(x: bv32, y: bv32)
    ensures Bit(Xor(x, y)) == Xor(Bit(x), Bit(y))
  {
    hide Xor, Half, Feedback;
    XorHalf(x, y);
    XorFeedback(x, y);
    XorSwap(Half(x), Feedback(x), Half(y), Feedback(y));
  }

  lemma {:induction false} BitsXor(x: bv32, y: bv32, n: nat)
    ensures Bits(Xor(x, y), n) == Xor(Bits(x, n), Bits(y, n))
    decreases n
  {
    hide Bit, Xor;
    if n > 0 {
      BitXor(x, y);
      BitsXor(Bit(x), Bit(y), n - 1);
    }
  }

  lemma {:induction false} BitsAdd(x: bv32, m: nat, n: nat)
    ensures Bits(x, m + n) == Bits(Bits(x, m), n)
    decreases m
  {
    hide Bit;
    if m > 0 {
      BitsAdd(Bit(x), m - 1, n);
    }
  }

  lemma ShiftOne(x: bv32)
    requires x & 1 == 0
    ensures Bits(x, 1) == x >> 1
  {
    assert Bits(x, 1) == Bit(x);
  }

  lemma ShiftTwo(x: bv32)
    requires x & 3 == 0
    ensures Bits(x, 2) == x >> 2
  {
    assert x & 1 == 0 && (x >> 1) & 1 == 0 && (x >> 1) >> 1 == x >> 2;
    ShiftOne(x);
    ShiftOne(x >> 1);
    BitsAdd(x, 1, 1);
  }

  lemma ShiftFour(x: bv32)
    requires x & 15 == 0
    ensures Bits(x, 4) == x >> 4
  {
    assert x & 3 == 0 && (x >> 2) & 3 == 0 && (x >> 2) >> 2 == x >> 4;
    ShiftTwo(x);
    ShiftTwo(x >> 2);
    BitsAdd(x, 2, 2);
  }

  // A zero low byte is only shifted out.
  lemma ShiftByte(x: bv32)
    requires x & 255 == 0
    ensures Bits(x, 8) == Shifted(x)
  {
    assert x & 15 == 0 && (x >> 4) & 15 == 0 && (x >> 4) >> 4 == x >> 8;
    ShiftFour(x);
    ShiftFour(x >> 4);
    BitsAdd(x, 4, 4);
  }

  // ---------------------------------------------------------------- tables

  // Entry c of table k: the effect of byte c after k further zero bytes.
  function Table(k: nat, c: bv32): bv32
    requires k < 4 && c < 256
  {
    Bits(c, 8 * (k + 1))
  }

  function Low(x: bv32): (r: bv32)
    ensures r < 256
  {
    x & 0xff
  }

  function High(x: bv32): bv32 {
    x & 0xffffff00
  }

  lemma XorSmall(x: bv32, y: bv32)
    requires x < 256 && y < 256
    ensures Xor(x, y) < 256
  {
  }

  function Step1(l: bv32, b: byte): bv32 {
    XorSmall(Low(l), Word(b));
    Xor(Table(0, Xor(Low(l), Word(b))), Shifted(l))
  }

  // Byte k of a word, counted from the low end, and its way back up.
  function ByteOf(c: bv32, k: nat): (b: bv32)
    ensures b < 256
  {
    if k == 0 then c & 0xff else if k == 1 then (c >> 8) & 0xff else if k == 2 then (c >> 16) & 0xff else c >> 24
  }

  function Up(b: bv32, k: nat): bv32 {
    if k == 0 then b else if k == 1 then b << 8 else if k == 2 then b << 16 else b << 24
  }

  function Or(x: bv32, y: bv32): bv32 {
    x | y
  }

  // A little-endian word.
  function Load32(a: byte, b: byte, c: byte, d: byte): bv32 {
    Or(Or(Or(Word(a), Up(Word(b), 1)), Up(Word(c), 2)), Up(Word(d), 3))
  }

  function Step4(l: bv32, word: bv32): bv32 {
    var c := Xor(l, word);
    Xor(Xor(Xor(Table(3, ByteOf(c, 0)), Table(2, ByteOf(c, 1))), Table(1, ByteOf(c, 2))), Table(0, ByteOf(c, 3)))
  }

  lemma LowHigh(x: bv32)
    ensures Xor(Low(x), High(x)) == x
  {
  }

  lemma HighShift(x: bv32)
    ensures High(x) & 255 == 0 && Shifted(High(x)) == Shifted(x)
  {
  }

  // One table lookup and a shift divide out a whole byte.
  lemma Step1IsByte(l: bv32, b: byte)
    ensures Step1(l, b) == Bits(Xor(l, Word(b)), 8)
  {
    hide Bits, Xor, Word, Low, High, Shifted;
    var w := Word(b);
    LowHigh(l);
    HighShift(l);
    XorAssoc(Low(l), High(l), w);
    XorComm(High(l), w);
    XorAssoc(Low(l), w, High(l));
    BitsXor(Xor(Low(l), w), High(l), 8);
    ShiftByte(High(l));
  }

  // ---------------------------------------------------------------- four bytes

  lemma UpBits(b: bv32)
    requires b < 256
    ensures (b << 8) & 255 == 0 && (b << 8) >> 8 == b
    ensures (b << 16) & 255 == 0 && (b << 16) >> 8 == b << 8
    ensures (b << 24) & 255 == 0 && (b << 24) >> 8 == b << 16
  {
  }

  lemma DescendsOne(b: bv32, k: nat)
    requires b < 256 && 0 < k <= 3
    ensures Bits(Up(b, k), 8) == Up(b, k - 1)
  {
    hide Bits;
    UpBits(b);
    if k == 1 {
      ShiftByte(b << 8);
    } else if k == 2 {
      ShiftByte(b << 16);
    } else {
      ShiftByte(b << 24);
    }
  }

  // A byte placed higher in the register reaches the bottom unchanged.
  lemma {:induction false} Descends(b: bv32, k: nat)
    requires b < 256 && k <= 3
    ensures Bits(Up(b, k), 8 * k) == b
  {
    hide Bit;
    if k > 0 {
      hide Up, Bits;
      DescendsOne(b, k);
      Descends(b, k - 1);
      BitsAdd(Up(b, k), 8, 8 * (k - 1));
    }
  }

  // So feeding a byte later is feeding it higher up at the start.
  lemma FeedAhead(x: bv32, up: bv32, b: bv32, n: nat, m: nat)
    requires Bits(up, n) == b
    ensures Bits(Xor(Bits(x, n), b), m) == Bits(Xor(x, up), n + m)
  {
    hide Bits, Xor;
    BitsXor(x, up, n);
    BitsAdd(Xor(x, up), n, m);
  }

  lemma FourBytes(l: bv32, a: bv32, b: bv32, c: bv32, d: bv32)
    requires a < 256 && b < 256 && c < 256 && d < 256
    ensures Bits(Xor(Bits(Xor(Bits(Xor(Bits(Xor(l, a), 8), b), 8), c), 8), d), 8)
         == Bits(Xor(Xor(Xor(Xor(l, a), Up(b, 1)), Up(c, 2)), Up(d, 3)), 32)
  {
    hide Bits, Xor, Up;
    Descends(b, 1);
    Descends(c, 2);
    Descends(d, 3);
    var x := Xor(l, a);
    FeedAhead(x, Up(b, 1), b, 8, 8);
    FeedAhead(Xor(x, Up(b, 1)), Up(c, 2), c, 16, 8);
    FeedAhead(Xor(Xor(x, Up(b, 1)), Up(c, 2)), Up(d, 3), d, 24, 8);
  }

  lemma XorIsOrBits(x: bv32, y: bv32)
    requires x & y == 0
    ensures x ^ y == x | y
  {
  }

  lemma XorIsOr(x: bv32, y: bv32)
    requires x & y == 0
    ensures Xor(x, y) == Or(x, y)
  {
    XorIsOrBits(x, y);
  }

  lemma Apart(x: bv32, b: bv32, k: nat)
    requires b < 256 && 0 < k <= 3 && (if k == 1 then x < 0x100 else if k == 2 then x < 0x1_0000 else x < 0x100_0000)
    ensures x & Up(b, k) == 0
    ensures k == 1 ==> Or(x, Up(b, k)) < 0x1_0000
    ensures k == 2 ==> Or(x, Up(b, k)) < 0x100_0000
  {
  }

  function Joined(a: bv32, b: bv32, c: bv32, d: bv32): bv32 {
    Xor(Xor(Xor(a, Up(b, 1)), Up(c, 2)), Up(d, 3))
  }

  lemma OrJoins(a: bv32, b: bv32, c: bv32, d: bv32)
    requires a < 256 && b < 256 && c < 256 && d < 256
    ensures Or(Or(Or(a, Up(b, 1)), Up(c, 2)), Up(d, 3)) == Joined(a, b, c, d)
  {
    hide Xor, Or, Up;
    var x := Or(a, Up(b, 1));
    var y := Or(x, Up(c, 2));
    Apart(a, b, 1);
    Apart(x, c, 2);
    Apart(y, d, 3);
    XorIsOr(a, Up(b, 1));
    XorIsOr(x, Up(c, 2));
    XorIsOr(y, Up(d, 3));
  }

  lemma XorJoined(l: bv32, a: bv32, b: bv32, c: bv32, d: bv32)
    ensures Xor(l, Joined(a, b, c, d)) == Xor(Xor(Xor(Xor(l, a), Up(b, 1)), Up(c, 2)), Up(d, 3))
  {
    hide Xor, Up;
    XorAssoc(l, a, Up(b, 1));
    XorAssoc(l, Xor(a, Up(b, 1)), Up(c, 2));
    XorAssoc(l, Xor(Xor(a, Up(b, 1)), Up(c, 2)), Up(d, 3));
  }

  lemma SplitLowHalf(c: bv32)
    ensures c & 0xffff == Or(ByteOf(c, 0), Up(ByteOf(c, 1), 1))
  {
  }

  lemma SplitThird(c: bv32)
    ensures c & 0xffffff == Or(c & 0xffff, Up(ByteOf(c, 2), 2))
  {
  }

  lemma SplitFourth(c: bv32)
    ensures c == Or(c & 0xffffff, Up(ByteOf(c, 3), 3))
  {
  }

  lemma SplitWord(c: bv32)
    ensures c == Joined(ByteOf(c, 0), ByteOf(c, 1), ByteOf(c, 2), ByteOf(c, 3))
  {
    hide Or, Up, ByteOf, Joined;
    SplitLowHalf(c);
    SplitThird(c);
    SplitFourth(c);
    OrJoins(ByteOf(c, 0), ByteOf(c, 1), ByteOf(c, 2), ByteOf(c, 3));
  }

  lemma TableRow(b: bv32, k: nat)
    requires b < 256 && k <= 3
    ensures Bits(Up(b, k), 32) == Table(3 - k, b)
  {
    hide Bits, Up;
    Descends(b, k);
    BitsAdd(Up(b, k), 8 * k, 32 - 8 * k);
  }

  // Four table lookups divide out a whole word.
  lemma Step4IsWord(l: bv32, word: bv32)
    ensures Step4(l, word) == Bits(Xor(l, word), 32)
  {
    hide Xor, Bits, Table, ByteOf;
    var c := Xor(l, word);
    var (p, q, r, s) := (ByteOf(c, 0), ByteOf(c, 1), ByteOf(c, 2), ByteOf(c, 3));
    SplitWord(c);
    TableRow(p, 0);
    assert Up(p, 0) == p;
    hide Up;
    TableRow(q, 1);
    TableRow(r, 2);
    TableRow(s, 3);
    BitsXor(Xor(Xor(p, Up(q, 1)), Up(r, 2)), Up(s, 3), 32);
    BitsXor(Xor(p, Up(q, 1)), Up(r, 2), 32);
    BitsXor(p, Up(q, 1), 32);
  }

  // One word step is four byte steps.
  lemma Step4IsFourBytes(l: bv32, a: byte, b: byte, c: byte, d: byte)
    ensures Step4(l, Load32(a, b, c, d)) == Step1(Step1(Step1(Step1(l, a), b), c), d)
  {
    hide Xor, Or, Bits, Step1, Step4, Up, Joined;
    Step4IsWord(l, Load32(a, b, c, d));
    OrJoins(Word(a), Word(b), Word(c), Word(d));
    XorJoined(l, Word(a), Word(b), Word(c), Word(d));
    FourBytes(l, Word(a), Word(b), Word(c), Word(d));
    Step1IsByte(l, a);
    Step1IsByte(Step1(l, a), b);
    Step1IsByte(Step1(Step1(l, a), b), c);
    Step1IsByte(Step1(Step1(Step1(l, a), b), c), d);
  }

  // ---------------------------------------------------------------- Extend

  lemma {:induction false} FoldConcat(l: bv32, a: Bytes, b: Bytes)
    ensures Fold(l, a + b) == Fold(Fold(l, a), b)
    decreases |a|
  {
    hide Bits, Xor, Word;
    if a == [] {
      assert a + b == b;
    } else {
      assert (a + b)[1..] == a[1..] + b;
      FoldConcat(Bits(Xor(l, Word(a[0])), 8), a[1..], b);
    }
  }

  lemma XorTwice(x: bv32)
    ensures Xor(Xor(x, ONES), ONES) == x
  {
  }

  // The checksum of a concatenation can be computed piece by piece.
  lemma ExtendedConcat(crc: bv32, a: Bytes, b: Bytes)
    ensures Extended(crc, a + b) == Extended(Extended(crc, a), b)
  {
    hide Bits, Xor;
    FoldConcat(Xor(crc, ONES), a, b);
    XorTwice(Fold(Xor(crc, ONES), a));
  }

  lemma FoldStep(l: bv32, data: Bytes, i: nat)
    requires i < |data|
    ensures Fold(l, data[..i + 1]) == Step1(Fold(l, data[..i]), data[i])
  {
    hide Bits, Xor, Word, Step1;
    assert data[..i + 1] == data[..i] + [data[i]];
    FoldConcat(l, data[..i], [data[i]]);
    Step1IsByte(Fold(l, data[..i]), data[i]);
    assert Fold(Fold(l, data[..i]), [data[i]]) == Bits(Xor(Fold(l, data[..i]), Word(data[i])), 8);
  }

  lemma FoldStep4(l: bv32, data: Bytes, i: nat)
    requires i + 4 <= |data|
    ensures Fold(l, data[..i + 4]) == Step4(Fold(l, data[..i]), Load32(data[i], data[i + 1], data[i + 2], data[i + 3]))
  {
    hide Fold, Step1, Step4, Load32;
    FoldStep(l, data, i);
    FoldStep(l, data, i + 1);
    FoldStep(l, data, i + 2);
    FoldStep(l, data, i + 3);
    Step4IsFourBytes(Fold(l, data[..i]), data[i], data[i + 1], data[i + 2], data[i + 3]);
  }

  // The buffer starts at an arbitrary address: bytes up to the first word
  // boundary, then four words at a time, then single words, then single bytes.
  method Extend(crc: bv32, data: Bytes, address: nat) returns (r: bv32)
    ensures r == Extended(crc, data)
  {
    hide Fold, Step1, Step4, Load32, Xor;
    ghost var start := Xor(crc, ONES);
    var l := Xor(crc, ONES);
    assert data[..0] == [];
    assert l == Fold(start, data[..0]) by { FoldEmpty(start); }
    var p, e := 0, |data|;
    var x := (address + 3) / 4 * 4 - address;
    if x <= e {
      while p != x
        invariant 0 <= p <= x && l == Fold(start, data[..p])
      {
        FoldStep(start, data, p);
        l := Step1(l, data[p]);
        p := p + 1;
      }
    }
    while e - p >= 16
      invariant 0 <= p <= e && l == Fold(start, data[..p])
    {
      l := FourWords(start, l, data, p);
      p := p + 16;
    }
    while e - p >= 4
      invariant 0 <= p <= e && l == Fold(start, data[..p])
    {
      FoldStep4(start, data, p);
      l := Step4(l, Load32(data[p], data[p + 1], data[p + 2], data[p + 3]));
      p := p + 4;
    }
    while p != e
      invariant 0 <= p <= e && l == Fold(start, data[..p])
    {
      FoldStep(start, data, p);
      l := Step1(l, data[p]);
      p := p + 1;
    }
    assert data[..p] == data;
    return Xor(l, ONES);
  }

  lemma FoldEmpty(l: bv32)
    ensures Fold(l, []) == l
  {
  }

  method FourWords(ghost start: bv32, register: bv32, data: Bytes, p: nat) returns (l: bv32)
    requires p + 16 <= |data| && register == Fold(start, data[..p])
    ensures l == Fold(start, data[..p + 16])
  {
    hide Fold, Step4, Load32;
    FoldStep4(start, data, p);
    l := Step4(register, Load32(data[p], data[p + 1], data[p + 2], data[p + 3]));
    FoldStep4(start, data, p + 4);
    l := Step4(l, Load32(data[p + 4], data[p + 5], data[p + 6], data[p + 7]));
    FoldStep4(start, data, p + 8);
    l := Step4(l, Load32(data[p + 8], data[p + 9], data[p + 10], data[p + 11]));
    FoldStep4(start, data, p + 12);
    l := Step4(l, Load32(data[p + 12], data[p + 13], data[p + 14], data[p + 15]));
  }

  // ---------------------------------------------------------------- masking

  function Rotated(x: bv32): bv32 {
    (x >> 15) | (x << 17)
  }

  function RotatedBack(x: bv32): bv32 {
    (x >> 17) | (x << 15)
  }

  // Rotate right by 15 bits and add a constant.
  function Mask(crc: bv32): bv32 {
    Rotated(crc) + MASK_DELTA
  }

  function Unmask(masked: bv32): bv32 {
    RotatedBack(masked - MASK_DELTA)
  }

  lemma RotateBack(x: bv32)
    ensures RotatedBack(Rotated(x)) == x
  {
  }

  lemma AddSubtract(x: bv32)
    ensures (x + MASK_DELTA) - MASK_DELTA == x
  {
  }

  lemma UnmaskMask(crc: bv32)
    ensures Unmask(Mask(crc)) == crc
  {
    hide Rotated, RotatedBack;
    AddSubtract(Rotated(crc));
    RotateBack(crc);
  }
}
