/** The values that RFC 1321 gives for MD5: the operations of section 3.4, one by
    one, and the digest of the empty message (section A.5), step by step. */
module Md5Vectors {
  import opened DigestStream
  import opened Lz77
  import opened Bytes
  import opened Md5

  // ---- [k s] and the constant of every operation ----

  /** Operation i takes word k of the block, the constant t, and rotates by s bits. */
  predicate Operation(i: nat, k: nat, s: nat, t: Word) {
    i < 64 && Index(i) == k && Rotation(i) == s && T[i] == t
  }

  lemma Operations1A()
    ensures Operation(0, 0, 7, 0xd76aa478) && Operation(1, 1, 12, 0xe8c7b756)
    ensures Operation(2, 2, 17, 0x242070db) && Operation(3, 3, 22, 0xc1bdceee)
    ensures Operation(4, 4, 7, 0xf57c0faf) && Operation(5, 5, 12, 0x4787c62a)
    ensures Operation(6, 6, 17, 0xa8304613) && Operation(7, 7, 22, 0xfd469501)
  {
  }

  lemma Operations1B()
    ensures Operation(8, 8, 7, 0x698098d8) && Operation(9, 9, 12, 0x8b44f7af)
    ensures Operation(10, 10, 17, 0xffff5bb1) && Operation(11, 11, 22, 0x895cd7be)
    ensures Operation(12, 12, 7, 0x6b901122) && Operation(13, 13, 12, 0xfd987193)
    ensures Operation(14, 14, 17, 0xa679438e) && Operation(15, 15, 22, 0x49b40821)
  {
  }

  lemma Operations2A()
    ensures Operation(16, 1, 5, 0xf61e2562) && Operation(17, 6, 9, 0xc040b340)
    ensures Operation(18, 11, 14, 0x265e5a51) && Operation(19, 0, 20, 0xe9b6c7aa)
    ensures Operation(20, 5, 5, 0xd62f105d) && Operation(21, 10, 9, 0x02441453)
    ensures Operation(22, 15, 14, 0xd8a1e681) && Operation(23, 4, 20, 0xe7d3fbc8)
  {
  }

  lemma Operations2B()
    ensures Operation(24, 9, 5, 0x21e1cde6) && Operation(25, 14, 9, 0xc33707d6)
    ensures Operation(26, 3, 14, 0xf4d50d87) && Operation(27, 8, 20, 0x455a14ed)
    ensures Operation(28, 13, 5, 0xa9e3e905) && Operation(29, 2, 9, 0xfcefa3f8)
    ensures Operation(30, 7, 14, 0x676f02d9) && Operation(31, 12, 20, 0x8d2a4c8a)
  {
  }

  lemma Operations3A()
    ensures Operation(32, 5, 4, 0xfffa3942) && Operation(33, 8, 11, 0x8771f681)
    ensures Operation(34, 11, 16, 0x6d9d6122) && Operation(35, 14, 23, 0xfde5380c)
    ensures Operation(36, 1, 4, 0xa4beea44) && Operation(37, 4, 11, 0x4bdecfa9)
    ensures Operation(38, 7, 16, 0xf6bb4b60) && Operation(39, 10, 23, 0xbebfbc70)
  {
  }

  lemma Operations3B()
    ensures Operation(40, 13, 4, 0x289b7ec6) && Operation(41, 0, 11, 0xeaa127fa)
    ensures Operation(42, 3, 16, 0xd4ef3085) && Operation(43, 6, 23, 0x04881d05)
    ensures Operation(44, 9, 4, 0xd9d4d039) && Operation(45, 12, 11, 0xe6db99e5)
    ensures Operation(46, 15, 16, 0x1fa27cf8) && Operation(47, 2, 23, 0xc4ac5665)
  {
  }

  lemma Operations4A()
    ensures Operation(48, 0, 6, 0xf4292244) && Operation(49, 7, 10, 0x432aff97)
    ensures Operation(50, 14, 15, 0xab9423a7) && Operation(51, 5, 21, 0xfc93a039)
    ensures Operation(52, 12, 6, 0x655b59c3) && Operation(53, 3, 10, 0x8f0ccc92)
    ensures Operation(54, 10, 15, 0xffeff47d) && Operation(55, 1, 21, 0x85845dd1)
  {
  }

  lemma Operations4B()
    ensures Operation(56, 8, 6, 0x6fa87e4f) && Operation(57, 15, 10, 0xfe2ce6e0)
    ensures Operation(58, 6, 15, 0xa3014314) && Operation(59, 13, 21, 0x4e0811a1)
    ensures Operation(60, 4, 6, 0xf7537e82) && Operation(61, 11, 10, 0xbd3af235)
    ensures Operation(62, 2, 15, 0x2ad7d2bb) && Operation(63, 9, 21, 0xeb86d391)
  {
  }

  // ---- the empty message ----

  const START := Regs(0x67452301, 0xefcdab89, 0x98badcfe, 0x10325476)

  /** The only block: 0x80 and zeros, the length being zero. */
  const WORDS: seq<Word> := [0x80, 0, 0, 0, 0, 0, 0, 0, 0, 0, 0, 0, 0, 0, 0, 0]

  /** One operation, from registers to registers. */
  lemma Turn(i: nat, k: nat, s: nat, t: Word, a: Word, b: Word, c: Word, d: Word, n: Word)
    requires Operation(i, k, s, t) && k < 16 && s <= 32 && Steps(i, START, WORDS) == Regs(a, b, c, d)
    requires n == Add(RotateLeft(Sum(a, Mix(i, b, c, d), if k == 0 then 0x80 else 0, t), s), b)
    ensures Steps(i + 1, START, WORDS) == Regs(d, n, b, c)
  {
    hide Sum, Mix, RotateLeft, Add, Rotation, Index;
    assert WORDS[k] == if k == 0 then 0x80 else 0;
  }

  lemma Round1()
    ensures Steps(16, START, WORDS) == Regs(0xf56c7cf1, 0xd6819c6a, 0x5aa53f75, 0x374943a7)
  {
    hide Steps, Operation;
    Operations1A();
    Operations1B();
    NoSteps();
    Turn(0, 0, 7, 0xd76aa478, 0x67452301, 0xefcdab89, 0x98badcfe, 0x10325476, 0xa5202774);
    Turn(1, 1, 12, 0xe8c7b756, 0x10325476, 0xa5202774, 0xefcdab89, 0x98badcfe, 0xf59592dd);
    Turn(2, 2, 17, 0x242070db, 0x98badcfe, 0xf59592dd, 0xa5202774, 0xefcdab89, 0xe7f06b23);
    Turn(3, 3, 22, 0xc1bdceee, 0xefcdab89, 0xe7f06b23, 0xf59592dd, 0xa5202774, 0x1b163203);
    Turn(4, 4, 7, 0xf57c0faf, 0xa5202774, 0x1b163203, 0xe7f06b23, 0xf59592dd, 0x32033344);
    Turn(5, 5, 12, 0x4787c62a, 0xf59592dd, 0x32033344, 0x1b163203, 0xe7f06b23, 0x2f35d494);
    Turn(6, 6, 17, 0xa8304613, 0xe7f06b23, 0x2f35d494, 0x32033344, 0x1b163203, 0xf5b158db);
    Turn(7, 7, 22, 0xfd469501, 0x1b163203, 0xf5b158db, 0x2f35d494, 0x32033344, 0x9bc13ce9);
    Turn(8, 8, 7, 0x698098d8, 0x32033344, 0x9bc13ce9, 0xf5b158db, 0x2f35d494, 0x3893b991);
    Turn(9, 9, 12, 0x8b44f7af, 0x2f35d494, 0x3893b991, 0x9bc13ce9, 0xf5b158db, 0xfce4a312);
    Turn(10, 10, 17, 0xffff5bb1, 0xf5b158db, 0xfce4a312, 0x3893b991, 0x9bc13ce9, 0xe1ef0576);
    Turn(11, 11, 22, 0x895cd7be, 0x9bc13ce9, 0xe1ef0576, 0xfce4a312, 0x3893b991, 0x70768a29);
    Turn(12, 12, 7, 0x6b901122, 0x3893b991, 0x70768a29, 0xe1ef0576, 0xfce4a312, 0xf56c7cf1);
    Turn(13, 13, 12, 0xfd987193, 0xfce4a312, 0xf56c7cf1, 0x70768a29, 0xe1ef0576, 0x374943a7);
    Turn(14, 14, 17, 0xa679438e, 0xe1ef0576, 0x374943a7, 0xf56c7cf1, 0x70768a29, 0x5aa53f75);
    Turn(15, 15, 22, 0x49b40821, 0x70768a29, 0x5aa53f75, 0x374943a7, 0xf56c7cf1, 0xd6819c6a);
  }

  lemma Round2()
    requires Steps(16, START, WORDS) == Regs(0xf56c7cf1, 0xd6819c6a, 0x5aa53f75, 0x374943a7)
    ensures Steps(32, START, WORDS) == Regs(0x13707036, 0xa2205f1f, 0x1c31c384, 0xae7813db)
  {
    hide Steps, Operation;
    Operations2A();
    Operations2B();
    Turn(16, 1, 5, 0xf61e2562, 0xf56c7cf1, 0xd6819c6a, 0x5aa53f75, 0x374943a7, 0x1c7d7513);
    Turn(17, 6, 9, 0xc040b340, 0x374943a7, 0x1c7d7513, 0xd6819c6a, 0x5aa53f75, 0x7bd57a3a);
    Turn(18, 11, 14, 0x265e5a51, 0x5aa53f75, 0x7bd57a3a, 0x1c7d7513, 0xd6819c6a, 0xc095f13a);
    Turn(19, 0, 20, 0xe9b6c7aa, 0xd6819c6a, 0xc095f13a, 0x7bd57a3a, 0x1c7d7513, 0xbd782e17);
    Turn(20, 5, 5, 0xd62f105d, 0x1c7d7513, 0xbd782e17, 0xc095f13a, 0x7bd57a3a, 0x3d1e3e6c);
    Turn(21, 10, 9, 0x02441453, 0x7bd57a3a, 0x3d1e3e6c, 0xbd782e17, 0xc095f13a, 0x68b7b3e3);
    Turn(22, 15, 14, 0xd8a1e681, 0xc095f13a, 0x68b7b3e3, 0x3d1e3e6c, 0xbd782e17, 0xeb41643e);
    Turn(23, 4, 20, 0xe7d3fbc8, 0xbd782e17, 0xeb41643e, 0x68b7b3e3, 0x3d1e3e6c, 0xe422531a);
    Turn(24, 9, 5, 0x21e1cde6, 0x3d1e3e6c, 0xe422531a, 0xeb41643e, 0x68b7b3e3, 0x306ec122);
    Turn(25, 14, 9, 0xc33707d6, 0x68b7b3e3, 0x306ec122, 0xe422531a, 0xeb41643e, 0xd28c77c2);
    Turn(26, 3, 14, 0xf4d50d87, 0xeb41643e, 0xd28c77c2, 0x306ec122, 0xe422531a, 0xa3c663da);
    Turn(27, 8, 20, 0x455a14ed, 0xe422531a, 0xa3c663da, 0xd28c77c2, 0x306ec122, 0xa0572807);
    Turn(28, 13, 5, 0xa9e3e905, 0x306ec122, 0xa0572807, 0xa3c663da, 0xd28c77c2, 0x13707036);
    Turn(29, 2, 9, 0xfcefa3f8, 0xd28c77c2, 0x13707036, 0xa0572807, 0xa3c663da, 0xae7813db);
    Turn(30, 7, 14, 0x676f02d9, 0xa3c663da, 0xae7813db, 0x13707036, 0xa0572807, 0x1c31c384);
    Turn(31, 12, 20, 0x8d2a4c8a, 0xa0572807, 0x1c31c384, 0xae7813db, 0x13707036, 0xa2205f1f);
  }

  lemma Round3()
    requires Steps(32, START, WORDS) == Regs(0x13707036, 0xa2205f1f, 0x1c31c384, 0xae7813db)
    ensures Steps(48, START, WORDS) == Regs(0x3f55edfd, 0xca7d2dbd, 0x68d84ea2, 0x22a31f54)
  {
    hide Steps, Operation;
    Operations3A();
    Operations3B();
    Turn(32, 5, 4, 0xfffa3942, 0x13707036, 0xa2205f1f, 0x1c31c384, 0xae7813db, 0xdf63eaa1);
    Turn(33, 8, 11, 0x8771f681, 0xae7813db, 0xdf63eaa1, 0xa2205f1f, 0x1c31c384, 0xc3689f5b);
    Turn(34, 11, 16, 0x6d9d6122, 0x1c31c384, 0xc3689f5b, 0xdf63eaa1, 0xa2205f1f, 0x12f3e755);
    Turn(35, 14, 23, 0xfde5380c, 0xa2205f1f, 0x12f3e755, 0xc3689f5b, 0xdf63eaa1, 0x004b6669);
    Turn(36, 1, 4, 0xa4beea44, 0xdf63eaa1, 0x004b6669, 0x12f3e755, 0xc3689f5b, 0x5f7a9b2e);
    Turn(37, 4, 11, 0x4bdecfa9, 0xc3689f5b, 0x5f7a9b2e, 0x004b6669, 0x12f3e755, 0xabc34e16);
    Turn(38, 7, 16, 0xf6bb4b60, 0x12f3e755, 0xabc34e16, 0x5f7a9b2e, 0x004b6669, 0x91ca4cb7);
    Turn(39, 10, 23, 0xbebfbc70, 0x004b6669, 0x91ca4cb7, 0xabc34e16, 0x5f7a9b2e, 0xc5dc8c15);
    Turn(40, 13, 4, 0x289b7ec6, 0x5f7a9b2e, 0xc5dc8c15, 0x91ca4cb7, 0xabc34e16, 0x4497169d);
    Turn(41, 0, 11, 0xeaa127fa, 0xabc34e16, 0x4497169d, 0xc5dc8c15, 0x91ca4cb7, 0x76fd93d4);
    Turn(42, 3, 16, 0xd4ef3085, 0x91ca4cb7, 0x76fd93d4, 0x4497169d, 0xc5dc8c15, 0xfd95f243);
    Turn(43, 6, 23, 0x04881d05, 0xc5dc8c15, 0xfd95f243, 0x76fd93d4, 0x4497169d, 0x0fe32453);
    Turn(44, 9, 4, 0xd9d4d039, 0x4497169d, 0x0fe32453, 0xfd95f243, 0x76fd93d4, 0x3f55edfd);
    Turn(45, 12, 11, 0xe6db99e5, 0x76fd93d4, 0x3f55edfd, 0x0fe32453, 0xfd95f243, 0x22a31f54);
    Turn(46, 15, 16, 0x1fa27cf8, 0xfd95f243, 0x22a31f54, 0x3f55edfd, 0x0fe32453, 0x68d84ea2);
    Turn(47, 2, 23, 0xc4ac5665, 0x0fe32453, 0x68d84ea2, 0x22a31f54, 0x3f55edfd, 0xca7d2dbd);
  }

  lemma Round4()
    requires Steps(48, START, WORDS) == Regs(0x3f55edfd, 0xca7d2dbd, 0x68d84ea2, 0x22a31f54)
    ensures Steps(64, START, WORDS) == Regs(0x7246fad3, 0x14e45506, 0xff4ea3eb, 0x6e10a476)
  {
    hide Steps, Operation;
    Operations4A();
    Operations4B();
    Turn(48, 0, 6, 0xf4292244, 0x3f55edfd, 0xca7d2dbd, 0x68d84ea2, 0x22a31f54, 0x93aa2577);
    Turn(49, 7, 10, 0x432aff97, 0x22a31f54, 0x93aa2577, 0xca7d2dbd, 0x68d84ea2, 0x1688dc85);
    Turn(50, 14, 15, 0xab9423a7, 0x68d84ea2, 0x1688dc85, 0x93aa2577, 0xca7d2dbd, 0xcd85b8cb);
    Turn(51, 5, 21, 0xfc93a039, 0xca7d2dbd, 0xcd85b8cb, 0x1688dc85, 0x93aa2577, 0x561e0689);
    Turn(52, 12, 6, 0x655b59c3, 0x93aa2577, 0x561e0689, 0xcd85b8cb, 0x1688dc85, 0x5625a114);
    Turn(53, 3, 10, 0x8f0ccc92, 0x1688dc85, 0x5625a114, 0x561e0689, 0xcd85b8cb, 0x3450f42b);
    Turn(54, 10, 15, 0xffeff47d, 0xcd85b8cb, 0x3450f42b, 0x5625a114, 0x561e0689, 0x392ad0d0);
    Turn(55, 1, 21, 0x85845dd1, 0x561e0689, 0x392ad0d0, 0x3450f42b, 0x5625a114, 0x1e77fa61);
    Turn(56, 8, 6, 0x6fa87e4f, 0x5625a114, 0x1e77fa61, 0x392ad0d0, 0x3450f42b, 0x474a9c8c);
    Turn(57, 15, 10, 0xfe2ce6e0, 0x3450f42b, 0x474a9c8c, 0x1e77fa61, 0x392ad0d0, 0xdfce00bc);
    Turn(58, 6, 15, 0xa3014314, 0x392ad0d0, 0xdfce00bc, 0x474a9c8c, 0x1e77fa61, 0x36594b14);
    Turn(59, 13, 21, 0x4e0811a1, 0x1e77fa61, 0x36594b14, 0xdfce00bc, 0x474a9c8c, 0x30130182);
    Turn(60, 4, 6, 0xf7537e82, 0x474a9c8c, 0x30130182, 0x36594b14, 0xdfce00bc, 0x7246fad3);
    Turn(61, 11, 10, 0xbd3af235, 0xdfce00bc, 0x7246fad3, 0x30130182, 0x36594b14, 0x6e10a476);
    Turn(62, 2, 15, 0x2ad7d2bb, 0x36594b14, 0x6e10a476, 0x7246fad3, 0x30130182, 0xff4ea3eb);
    Turn(63, 9, 21, 0xeb86d391, 0x30130182, 0xff4ea3eb, 0x6e10a476, 0x7246fad3, 0x14e45506);
  }

  lemma NoSteps()
    ensures Steps(0, START, WORDS) == START
  {
  }

  lemma AllSteps()
    ensures Steps(64, START, WORDS) == Regs(0x7246fad3, 0x14e45506, 0xff4ea3eb, 0x6e10a476)
  {
    hide Steps;
    Round1();
    Round2();
    Round3();
    Round4();
  }

  lemma EmptyBlock(block: seq<byte>)
    requires block == [0x80] + Zeros(63)
    ensures Md5Block(INIT, block) == [0xd98c1dd4, 0x04b2008f, 0x980980e9, 0x7e42f8ec]
  {
    AllSteps();
    BlockWords(block);
    hide Steps, Decode;
  }

  lemma BlockWords(block: seq<byte>)
    requires block == [0x80] + Zeros(63)
    ensures Decode(block) == WORDS
  {
    ZeroWords(block[4..]);
    assert WordOf(0x80, 0, 0, 0) == 0x80;
    hide WordOf;
  }

  lemma {:induction false} ZeroWords(block: seq<byte>)
    requires |block| % 4 == 0 && forall i :: 0 <= i < |block| ==> block[i] == 0
    ensures Decode(block) == seq(|block| / 4, _ => 0)
    decreases |block|
  {
    if block != [] {
      ZeroWords(block[4..]);
      assert WordOf(0, 0, 0, 0) == 0;
    }
  }

  lemma EmptyPad()
    ensures Pad(0) == [0x80] + Zeros(63)
  {
    hide LittleEndian;
    ZeroLength(8);
    assert PadZeros(0) == 55;
    TwoRuns([0x80], 55, 8);
  }

  lemma TwoRuns(a: seq<byte>, m: nat, n: nat)
    ensures a + Zeros(m) + Zeros(n) == a + Zeros(m + n)
  {
  }

  lemma {:induction false} ZeroLength(k: nat)
    ensures LittleEndian(0, k) == Zeros(k)
    decreases k
  {
    if k != 0 { ZeroLength(k - 1); }
  }

  /** The digest of the empty message. */
  lemma EmptyDigest()
    ensures Digest([]) == [0xd4, 0x1d, 0x8c, 0xd9, 0x8f, 0x00, 0xb2, 0x04, 0xe9, 0x80, 0x09, 0x98, 0xec, 0xf8, 0x42, 0x7e]
  {
    hide Md5Block, Pad, Fold, Encode;
    EmptyPad();
    var block: seq<byte> := [0x80] + Zeros(63);
    EmptyBlock(block);
    OneBlock(Md5Block, INIT, block);
    assert [] + block == block;
    EmptyEncoded();
  }

  lemma EmptyEncoded()
    ensures Encode([0xd98c1dd4, 0x04b2008f, 0x980980e9, 0x7e42f8ec])
         == [0xd4, 0x1d, 0x8c, 0xd9, 0x8f, 0x00, 0xb2, 0x04, 0xe9, 0x80, 0x09, 0x98, 0xec, 0xf8, 0x42, 0x7e]
  {
    hide ByteOf;
    var w: seq<Word> := [0xd98c1dd4, 0x04b2008f, 0x980980e9, 0x7e42f8ec];
    assert w[1..] == [0x04b2008f, 0x980980e9, 0x7e42f8ec] && w[1..][1..] == [0x980980e9, 0x7e42f8ec];
    assert w[1..][1..][1..] == [0x7e42f8ec] && w[1..][1..][1..][1..] == [];
    EmptyBytes();
  }

  lemma EmptyBytes()
    ensures ByteOf(0xd98c1dd4, 0) == 0xd4 && ByteOf(0xd98c1dd4, 1) == 0x1d && ByteOf(0xd98c1dd4, 2) == 0x8c && ByteOf(0xd98c1dd4, 3) == 0xd9
    ensures ByteOf(0x04b2008f, 0) == 0x8f && ByteOf(0x04b2008f, 1) == 0x00 && ByteOf(0x04b2008f, 2) == 0xb2 && ByteOf(0x04b2008f, 3) == 0x04
    ensures ByteOf(0x980980e9, 0) == 0xe9 && ByteOf(0x980980e9, 1) == 0x80 && ByteOf(0x980980e9, 2) == 0x09 && ByteOf(0x980980e9, 3) == 0x98
    ensures ByteOf(0x7e42f8ec, 0) == 0xec && ByteOf(0x7e42f8ec, 1) == 0xf8 && ByteOf(0x7e42f8ec, 2) == 0x42 && ByteOf(0x7e42f8ec, 3) == 0x7e
  {
  }

  /** The length in bits, low-order word and byte first (section 3.2). */
  lemma LengthOrder()
    ensures Pad(3) == [0x80] + Zeros(52) + [24, 0, 0, 0, 0, 0, 0, 0]
    ensures LittleEndian(0x1_0000_0000, 8) == [0, 0, 0, 0, 1, 0, 0, 0]
  {
    LowLength();
    HighLength();
    hide LittleEndian;
  }

  lemma LowLength()
    ensures LittleEndian(24, 8) == [24, 0, 0, 0, 0, 0, 0, 0]
  {
    hide LittleEndian;
    LowByte(24, 8);
    ZeroLength(7);
  }

  lemma HighLength()
    ensures LittleEndian(0x1_0000_0000, 8) == [0, 0, 0, 0, 1, 0, 0, 0]
  {
    hide LittleEndian;
    LowByte(0x1_0000_0000, 8);
    LowByte(0x100_0000, 7);
    LowByte(0x1_0000, 6);
    LowByte(0x100, 5);
    LowByte(1, 4);
    ZeroLength(3);
  }

  lemma LowByte(v: nat, k: nat)
    requires k > 0
    ensures LittleEndian(v, k) == [v % 256] + LittleEndian(v / 256, k - 1)
  {
  }

  /** The first of four bytes is the least significant (section 2). */
  lemma ByteOrder()
    ensures WordOf(0x01, 0x02, 0x03, 0x04) == 0x04030201
  {
  }
}
