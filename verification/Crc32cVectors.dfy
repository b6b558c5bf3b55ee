/**
  A published check value of CRC32C (appendix B.4 of RFC 3720): 32 incrementing
  bytes.  It pins the polynomial, the bit order and the two complements.
 */
module Crc32cVectors {
  import opened Basics
  import opened Crc32c

  const INCREMENTING: Bytes := [
    0, 1, 2, 3, 4, 5, 6, 7, 8, 9, 10, 11, 12, 13, 14, 15,
    16, 17, 18, 19, 20, 21, 22, 23, 24, 25, 26, 27, 28, 29, 30, 31]

  // One byte into the register.
  lemma FeedByte(register: bv32, b: byte, data: Bytes, i: nat)
    requires i < |data| && data[i] == b
    ensures Fold(register, data[i..]) == Fold(Bits(Xor(register, Word(b)), 8), data[i + 1..])
  {
    hide Bits, Xor, Word;
    assert data[i..][1..] == data[i + 1..];
  }

  lemma EightBits(x: bv32)
    ensures Bits(x, 8) == Bit(Bit(Bit(Bit(Bit(Bit(Bit(Bit(x))))))))
  {
    hide Bit;
    var y := Bit(Bit(Bit(Bit(x))));
    assert Bits(x, 8) == Bits(y, 4);
    assert Bits(y, 4) == Bit(Bit(Bit(Bit(y))));
  }

  function Eighth(x: bv32): bv32 {
    Bit(Bit(Bit(Bit(Bit(Bit(Bit(Bit(x))))))))
  }

  // What a byte makes of the register.
  function Fed(register: bv32, b: byte): bv32 {
    Eighth(Xor(register, Word(b)))
  }

  lemma FeedTo(register: bv32, i: nat)
    requires i < 32
    ensures Fold(register, INCREMENTING[i..]) == Fold(Fed(register, i), INCREMENTING[i + 1..])
  {
    hide Bits, Xor, Word, Bit, Fold;
    IncrementingAt(i);
    FeedByte(register, i, INCREMENTING, i);
    EightBits(Xor(register, Word(i)));
  }

  lemma IncrementingAt(i: nat)
    requires i < 32
    ensures INCREMENTING[i] == i
  {
  }

  lemma Byte0()
    ensures Fed(0xffffffff, 0) == 0xad82acae
  {
  }

  lemma Byte1()
    ensures Fed(0xad82acae, 1) == 0xfcf50b2e
  {
  }

  lemma Byte2()
    ensures Fed(0xfcf50b2e, 2) == 0x6d02b405
  {
  }

  lemma Byte3()
    ensures Fed(0x6d02b405, 3) == 0x26cce55c
  {
  }

  lemma Byte4()
    ensures Fed(0x26cce55c, 4) == 0xdbda4ef9
  {
  }

  lemma Byte5()
    ensures Fed(0xdbda4ef9, 5) == 0xbef67aeb
  {
  }

  lemma Byte6()
    ensures Fed(0xbef67aeb, 6) == 0x5ca612b3
  {
  }

  lemma Byte7()
    ensures Fed(0x5ca612b3, 7) == 0x75d343c4
  {
  }

  lemma Byte8()
    ensures Fed(0x75d343c4, 8) == 0x8ebb3a57
  {
  }

  lemma Byte9()
    ensures Fed(0x8ebb3a57, 9) == 0xfdd3dece
  {
  }

  lemma Byte10()
    ensures Fed(0xfdd3dece, 10) == 0x04ea6205
  {
  }

  lemma Byte11()
    ensures Fed(0x04ea6205, 11) == 0xac7c5545
  {
  }

  lemma Byte12()
    ensures Fed(0xac7c5545, 12) == 0x3965ba25
  {
  }

  lemma Byte13()
    ensures Fed(0x3965ba25, 13) == 0xaa5db3ab
  {
  }

  lemma Byte14()
    ensures Fed(0xaa5db3ab, 14) == 0x9710fc09
  {
  }

  lemma Byte15()
    ensures Fed(0x9710fc09, 15) == 0x2636f714
  {
  }

  lemma Byte16()
    ensures Fed(0x2636f714, 16) == 0xc7bca1e8
  {
  }

  lemma Byte17()
    ensures Fed(0xc7bca1e8, 17) == 0x8b1b0818
  {
  }

  lemma Byte18()
    ensures Fed(0x8b1b0818, 18) == 0x6b693330
  {
  }

  lemma Byte19()
    ensures Fed(0x6b693330, 19) == 0x33861419
  {
  }

  lemma Byte20()
    ensures Fed(0x33861419, 20) == 0xbf1bcac7
  {
  }

  lemma Byte21()
    ensures Fed(0xbf1bcac7, 21) == 0x32578a96
  {
  }

  lemma Byte22()
    ensures Fed(0x32578a96, 22) == 0x82c46cf2
  {
  }

  lemma Byte23()
    ensures Fed(0x82c46cf2, 23) == 0xd643786a
  {
  }

  lemma Byte24()
    ensures Fed(0xd643786a, 24) == 0x90756782
  {
  }

  lemma Byte25()
    ensures Fed(0x90756782, 25) == 0x0bb1224b
  {
  }

  lemma Byte26()
    ensures Fed(0x0bb1224b, 26) == 0xa345e8f2
  {
  }

  lemma Byte27()
    ensures Fed(0xa345e8f2, 27) == 0x9b21363e
  {
  }

  lemma Byte28()
    ensures Fed(0x9b21363e, 28) == 0xc11ddf1f
  {
  }

  lemma Byte29()
    ensures Fed(0xc11ddf1f, 29) == 0xe1fa6d28
  {
  }

  lemma Byte30()
    ensures Fed(0xe1fa6d28, 30) == 0x16a35434
  {
  }

  lemma Byte31()
    ensures Fed(0x16a35434, 31) == 0xb92286b1
  {
  }

  lemma Group0()
    ensures Fold(0xffffffff, INCREMENTING[0..]) == Fold(0x26cce55c, INCREMENTING[4..])
  {
    hide Fed, Fold;
    Byte0();
    FeedTo(0xffffffff, 0);
    Byte1();
    FeedTo(0xad82acae, 1);
    Byte2();
    FeedTo(0xfcf50b2e, 2);
    Byte3();
    FeedTo(0x6d02b405, 3);
  }

  lemma Group1()
    ensures Fold(0x26cce55c, INCREMENTING[4..]) == Fold(0x75d343c4, INCREMENTING[8..])
  {
    hide Fed, Fold;
    Byte4();
    FeedTo(0x26cce55c, 4);
    Byte5();
    FeedTo(0xdbda4ef9, 5);
    Byte6();
    FeedTo(0xbef67aeb, 6);
    Byte7();
    FeedTo(0x5ca612b3, 7);
  }

  lemma Group2()
    ensures Fold(0x75d343c4, INCREMENTING[8..]) == Fold(0xac7c5545, INCREMENTING[12..])
  {
    hide Fed, Fold;
    Byte8();
    FeedTo(0x75d343c4, 8);
    Byte9();
    FeedTo(0x8ebb3a57, 9);
    Byte10();
    FeedTo(0xfdd3dece, 10);
    Byte11();
    FeedTo(0x04ea6205, 11);
  }

  lemma Group3()
    ensures Fold(0xac7c5545, INCREMENTING[12..]) == Fold(0x2636f714, INCREMENTING[16..])
  {
    hide Fed, Fold;
    Byte12();
    FeedTo(0xac7c5545, 12);
    Byte13();
    FeedTo(0x3965ba25, 13);
    Byte14();
    FeedTo(0xaa5db3ab, 14);
    Byte15();
    FeedTo(0x9710fc09, 15);
  }

  lemma Group4()
    ensures Fold(0x2636f714, INCREMENTING[16..]) == Fold(0x33861419, INCREMENTING[20..])
  {
    hide Fed, Fold;
    Byte16();
    FeedTo(0x2636f714, 16);
    Byte17();
    FeedTo(0xc7bca1e8, 17);
    Byte18();
    FeedTo(0x8b1b0818, 18);
    Byte19();
    FeedTo(0x6b693330, 19);
  }

  lemma Group5()
    ensures Fold(0x33861419, INCREMENTING[20..]) == Fold(0xd643786a, INCREMENTING[24..])
  {
    hide Fed, Fold;
    Byte20();
    FeedTo(0x33861419, 20);
    Byte21();
    FeedTo(0xbf1bcac7, 21);
    Byte22();
    FeedTo(0x32578a96, 22);
    Byte23();
    FeedTo(0x82c46cf2, 23);
  }

  lemma Group6()
    ensures Fold(0xd643786a, INCREMENTING[24..]) == Fold(0x9b21363e, INCREMENTING[28..])
  {
    hide Fed, Fold;
    Byte24();
    FeedTo(0xd643786a, 24);
    Byte25();
    FeedTo(0x90756782, 25);
    Byte26();
    FeedTo(0x0bb1224b, 26);
    Byte27();
    FeedTo(0xa345e8f2, 27);
  }

  lemma Group7()
    ensures Fold(0x9b21363e, INCREMENTING[28..]) == Fold(0xb92286b1, INCREMENTING[32..])
  {
    hide Fed, Fold;
    Byte28();
    FeedTo(0x9b21363e, 28);
    Byte29();
    FeedTo(0xc11ddf1f, 29);
    Byte30();
    FeedTo(0xe1fa6d28, 30);
    Byte31();
    FeedTo(0x16a35434, 31);
  }

  lemma CheckValue()
    ensures Value(INCREMENTING) == 0x46dd794e
  {
    hide Bits, Word, Fold;
    assert INCREMENTING[0..] == INCREMENTING && INCREMENTING[32..] == [];
    Group0();
    Group1();
    Group2();
    Group3();
    Group4();
    Group5();
    Group6();
    Group7();
    FoldEmpty(0xb92286b1);
    assert Xor(0, ONES) == 0xffffffff && Xor(0xb92286b1, ONES) == 0x46dd794e;
  }

  // The masked form of that checksum.
  lemma MaskedCheckValue()
    ensures Mask(0x46dd794e) == 0x951f7892
  {
  }
}
