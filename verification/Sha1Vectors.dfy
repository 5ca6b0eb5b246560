/** The value that RFC 3174 gives for SHA-1 (section 7.3, TEST1): the digest of "abc",
    the expansion word by word and the rounds step by step. */
module Sha1Vectors {
  import opened DigestStream
  import opened Lz77
  import opened Bytes
  import opened Sha1

  /** The only block: "abc", 0x80, zeros, and 24 as the length in bits. */
  const ABC: seq<byte> := [0x61, 0x62, 0x63, 0x80] + Zeros(59) + [24]

  // ---- the expansion ----

  predicate IsWord(t: nat, w: Word) {
    Expanded(ABC, t) == w
  }

  lemma FirstWords()
    ensures IsWord(0, 0x61626380) && IsWord(15, 0x00000018)
    ensures forall t :: 1 <= t < 15 ==> IsWord(t, 0)
  {
    assert ABC[0] == 0x61 && ABC[1] == 0x62 && ABC[2] == 0x63 && ABC[3] == 0x80;
    assert ABC[60] == ABC[61] == ABC[62] == 0 && ABC[63] == 24;
    assert forall i :: 4 <= i < 63 ==> ABC[i] == 0;
    OfBytes();
    WordsOf(0);
    WordsOf(15);
    hide WordOf;
    forall t | 1 <= t < 15 ensures IsWord(t, 0) {
      ZeroWord(t);
    }
  }

  lemma WordsOf(t: nat)
    requires t < 16
    ensures Expanded(ABC, t) == WordFrom(ABC[4 * t], ABC[4 * t + 1], ABC[4 * t + 2], ABC[4 * t + 3])
  {
  }

  function WordFrom(a: byte, b: byte, c: byte, d: byte): Word {
    ((a as Word) << 24) | ((b as Word) << 16) | ((c as Word) << 8) | (d as Word)
  }

  lemma OfBytes()
    ensures WordFrom(0x61, 0x62, 0x63, 0x80) == 0x61626380 && WordFrom(0, 0, 0, 24) == 0x18 && WordFrom(0, 0, 0, 0) == 0
  {
  }

  lemma ZeroWord(t: nat)
    requires 1 <= t < 15
    ensures IsWord(t, 0)
  {
    assert forall i :: 4 <= i < 63 ==> ABC[i] == 0;
    OfBytes();
    WordsOf(t);
    hide WordOf, WordFrom;
  }

  lemma NextWord(t: nat, w3: Word, w8: Word, w14: Word, w16: Word, w: Word)
    requires t >= 16 && IsWord(t - 3, w3) && IsWord(t - 8, w8) && IsWord(t - 14, w14) && IsWord(t - 16, w16)
    requires w == RotateLeft(Xor4(w3, w8, w14, w16), 1)
    ensures IsWord(t, w)
  {
    hide RotateLeft, Xor4;
  }

  lemma Words1()
    ensures IsWord(16, 0xc2c4c700) && IsWord(17, 0x00000000) && IsWord(18, 0x00000030) && IsWord(19, 0x85898e01)
    ensures IsWord(20, 0x00000000) && IsWord(21, 0x00000060) && IsWord(22, 0x0b131c03) && IsWord(23, 0x00000030)
    ensures IsWord(24, 0x85898ec1) && IsWord(25, 0x16263806) && IsWord(26, 0x00000000) && IsWord(27, 0x00000180)
    ensures IsWord(28, 0x2c4c700c) && IsWord(29, 0x000000f0) && IsWord(30, 0x93afb507) && IsWord(31, 0x5898e048)
  {
    hide IsWord;
    FirstWords();
    NextWord(16, 0x00000000, 0x00000000, 0x00000000, 0x61626380, 0xc2c4c700);
    NextWord(17, 0x00000000, 0x00000000, 0x00000000, 0x00000000, 0x00000000);
    NextWord(18, 0x00000018, 0x00000000, 0x00000000, 0x00000000, 0x00000030);
    NextWord(19, 0xc2c4c700, 0x00000000, 0x00000000, 0x00000000, 0x85898e01);
    NextWord(20, 0x00000000, 0x00000000, 0x00000000, 0x00000000, 0x00000000);
    NextWord(21, 0x00000030, 0x00000000, 0x00000000, 0x00000000, 0x00000060);
    NextWord(22, 0x85898e01, 0x00000000, 0x00000000, 0x00000000, 0x0b131c03);
    NextWord(23, 0x00000000, 0x00000018, 0x00000000, 0x00000000, 0x00000030);
    NextWord(24, 0x00000060, 0xc2c4c700, 0x00000000, 0x00000000, 0x85898ec1);
    NextWord(25, 0x0b131c03, 0x00000000, 0x00000000, 0x00000000, 0x16263806);
    NextWord(26, 0x00000030, 0x00000030, 0x00000000, 0x00000000, 0x00000000);
    NextWord(27, 0x85898ec1, 0x85898e01, 0x00000000, 0x00000000, 0x00000180);
    NextWord(28, 0x16263806, 0x00000000, 0x00000000, 0x00000000, 0x2c4c700c);
    NextWord(29, 0x00000000, 0x00000060, 0x00000018, 0x00000000, 0x000000f0);
    NextWord(30, 0x00000180, 0x0b131c03, 0xc2c4c700, 0x00000000, 0x93afb507);
    NextWord(31, 0x2c4c700c, 0x00000030, 0x00000000, 0x00000018, 0x5898e048);
  }

  lemma Words2()
    ensures IsWord(32, 0x8e9a9202) && IsWord(33, 0x00000600) && IsWord(34, 0xb131c0f0) && IsWord(35, 0x16263bc6)
    ensures IsWord(36, 0x4ebed41e) && IsWord(37, 0x626380a1) && IsWord(38, 0x16263806) && IsWord(39, 0x000018c0)
    ensures IsWord(40, 0xd2e138c4) && IsWord(41, 0x00000f00) && IsWord(42, 0x3afb5079) && IsWord(43, 0x898e04e5)
    ensures IsWord(44, 0xe2ba3c2b) && IsWord(45, 0x000060c0) && IsWord(46, 0x053a37cd) && IsWord(47, 0x74458547)
  {
    hide IsWord;
    Words1();
    NextWord(32, 0x000000f0, 0x85898ec1, 0x00000030, 0xc2c4c700, 0x8e9a9202);
    NextWord(33, 0x93afb507, 0x16263806, 0x85898e01, 0x00000000, 0x00000600);
    NextWord(34, 0x5898e048, 0x00000000, 0x00000000, 0x00000030, 0xb131c0f0);
    NextWord(35, 0x8e9a9202, 0x00000180, 0x00000060, 0x85898e01, 0x16263bc6);
    NextWord(36, 0x00000600, 0x2c4c700c, 0x0b131c03, 0x00000000, 0x4ebed41e);
    NextWord(37, 0xb131c0f0, 0x000000f0, 0x00000030, 0x00000060, 0x626380a1);
    NextWord(38, 0x16263bc6, 0x93afb507, 0x85898ec1, 0x0b131c03, 0x16263806);
    NextWord(39, 0x4ebed41e, 0x5898e048, 0x16263806, 0x00000030, 0x000018c0);
    NextWord(40, 0x626380a1, 0x8e9a9202, 0x00000000, 0x85898ec1, 0xd2e138c4);
    NextWord(41, 0x16263806, 0x00000600, 0x00000180, 0x16263806, 0x00000f00);
    NextWord(42, 0x000018c0, 0xb131c0f0, 0x2c4c700c, 0x00000000, 0x3afb5079);
    NextWord(43, 0xd2e138c4, 0x16263bc6, 0x000000f0, 0x00000180, 0x898e04e5);
    NextWord(44, 0x00000f00, 0x4ebed41e, 0x93afb507, 0x2c4c700c, 0xe2ba3c2b);
    NextWord(45, 0x3afb5079, 0x626380a1, 0x5898e048, 0x000000f0, 0x000060c0);
    NextWord(46, 0x898e04e5, 0x16263806, 0x8e9a9202, 0x93afb507, 0x053a37cd);
    NextWord(47, 0xe2ba3c2b, 0x000018c0, 0x00000600, 0x5898e048, 0x74458547);
  }

  lemma Words3()
    ensures IsWord(48, 0xda9415ed) && IsWord(49, 0x26380a16) && IsWord(50, 0x626383a1) && IsWord(51, 0x4ebf54de)
    ensures IsWord(52, 0x3835b44b) && IsWord(53, 0x0000f600) && IsWord(54, 0x1e84c7a3) && IsWord(55, 0x98e04d98)
    ensures IsWord(56, 0x651d16a0) && IsWord(57, 0x62658ca1) && IsWord(58, 0x458544d6) && IsWord(59, 0x44584cb7)
    ensures IsWord(60, 0x7ba06619) && IsWord(61, 0x6380aea2) && IsWord(62, 0x0ae55269) && IsWord(63, 0x627b49a1)
  {
    hide IsWord;
    Words2();
    NextWord(48, 0x000060c0, 0xd2e138c4, 0xb131c0f0, 0x8e9a9202, 0xda9415ed);
    NextWord(49, 0x053a37cd, 0x00000f00, 0x16263bc6, 0x00000600, 0x26380a16);
    NextWord(50, 0x74458547, 0x3afb5079, 0x4ebed41e, 0xb131c0f0, 0x626383a1);
    NextWord(51, 0xda9415ed, 0x898e04e5, 0x626380a1, 0x16263bc6, 0x4ebf54de);
    NextWord(52, 0x26380a16, 0xe2ba3c2b, 0x16263806, 0x4ebed41e, 0x3835b44b);
    NextWord(53, 0x626383a1, 0x000060c0, 0x000018c0, 0x626380a1, 0x0000f600);
    NextWord(54, 0x4ebf54de, 0x053a37cd, 0xd2e138c4, 0x16263806, 0x1e84c7a3);
    NextWord(55, 0x3835b44b, 0x74458547, 0x00000f00, 0x000018c0, 0x98e04d98);
    NextWord(56, 0x0000f600, 0xda9415ed, 0x3afb5079, 0xd2e138c4, 0x651d16a0);
    NextWord(57, 0x1e84c7a3, 0x26380a16, 0x898e04e5, 0x00000f00, 0x62658ca1);
    NextWord(58, 0x98e04d98, 0x626383a1, 0xe2ba3c2b, 0x3afb5079, 0x458544d6);
    NextWord(59, 0x651d16a0, 0x4ebf54de, 0x000060c0, 0x898e04e5, 0x44584cb7);
    NextWord(60, 0x62658ca1, 0x3835b44b, 0x053a37cd, 0xe2ba3c2b, 0x7ba06619);
    NextWord(61, 0x458544d6, 0x0000f600, 0x74458547, 0x000060c0, 0x6380aea2);
    NextWord(62, 0x44584cb7, 0x1e84c7a3, 0xda9415ed, 0x053a37cd, 0x0ae55269);
    NextWord(63, 0x7ba06619, 0x98e04d98, 0x26380a16, 0x74458547, 0x627b49a1);
  }

  lemma Words4()
    ensures IsWord(64, 0x7cd45c9d) && IsWord(65, 0x000f0000) && IsWord(66, 0xfb50753a) && IsWord(67, 0xec6765e8)
    ensures IsWord(68, 0xba3c2be2) && IsWord(69, 0x0060c000) && IsWord(70, 0x3a37cd05) && IsWord(71, 0x458546f4)
    ensures IsWord(72, 0xb8599dd6) && IsWord(73, 0x380a1a26) && IsWord(74, 0x01e02203) && IsWord(75, 0xe7cc3456)
    ensures IsWord(76, 0xe6e60b69) && IsWord(77, 0x00f60a00) && IsWord(78, 0x5795ef4f) && IsWord(79, 0x822e0879)
  {
    hide IsWord;
    Words3();
    NextWord(64, 0x6380aea2, 0x651d16a0, 0x626383a1, 0xda9415ed, 0x7cd45c9d);
    NextWord(65, 0x0ae55269, 0x62658ca1, 0x4ebf54de, 0x26380a16, 0x000f0000);
    NextWord(66, 0x627b49a1, 0x458544d6, 0x3835b44b, 0x626383a1, 0xfb50753a);
    NextWord(67, 0x7cd45c9d, 0x44584cb7, 0x0000f600, 0x4ebf54de, 0xec6765e8);
    NextWord(68, 0x000f0000, 0x7ba06619, 0x1e84c7a3, 0x3835b44b, 0xba3c2be2);
    NextWord(69, 0xfb50753a, 0x6380aea2, 0x98e04d98, 0x0000f600, 0x0060c000);
    NextWord(70, 0xec6765e8, 0x0ae55269, 0x651d16a0, 0x1e84c7a3, 0x3a37cd05);
    NextWord(71, 0xba3c2be2, 0x627b49a1, 0x62658ca1, 0x98e04d98, 0x458546f4);
    NextWord(72, 0x0060c000, 0x7cd45c9d, 0x458544d6, 0x651d16a0, 0xb8599dd6);
    NextWord(73, 0x3a37cd05, 0x000f0000, 0x44584cb7, 0x62658ca1, 0x380a1a26);
    NextWord(74, 0x458546f4, 0xfb50753a, 0x7ba06619, 0x458544d6, 0x01e02203);
    NextWord(75, 0xb8599dd6, 0xec6765e8, 0x6380aea2, 0x44584cb7, 0xe7cc3456);
    NextWord(76, 0x380a1a26, 0xba3c2be2, 0x0ae55269, 0x7ba06619, 0xe6e60b69);
    NextWord(77, 0x01e02203, 0x0060c000, 0x627b49a1, 0x6380aea2, 0x00f60a00);
    NextWord(78, 0xe7cc3456, 0x3a37cd05, 0x7cd45c9d, 0x0ae55269, 0x5795ef4f);
    NextWord(79, 0xe6e60b69, 0x458546f4, 0x000f0000, 0x627b49a1, 0x822e0879);
  }

  // ---- the rounds ----

  const START := Regs(0x67452301, 0xefcdab89, 0x98badcfe, 0x10325476, 0xc3d2e1f0)

  /** One step, from registers to registers. */
  lemma Turn(t: nat, k: Word, w: Word, a: Word, b: Word, c: Word, d: Word, e: Word, n: Word, r: Word)
    requires IsWord(t, w) && Constant(t) == k && Steps(t, START, ABC) == Regs(a, b, c, d, e)
    requires n == Sum(RotateLeft(a, 5), Mix(t, b, c, d), e, w, k) && r == RotateLeft(b, 30)
    ensures Steps(t + 1, START, ABC) == Regs(n, a, r, c, d)
  {
    hide Sum, Mix, RotateLeft, Constant;
  }

  lemma Steps10()
    ensures Steps(10, START, ABC) == Regs(0x8351f929, 0x4b6ae328, 0x27a301f5, 0x664f8c30, 0x0ff1f290)
  {
    hide Steps, IsWord;
    NoSteps();
    FirstWords();
    Turn(0, 0x5a827999, 0x61626380, 0x67452301, 0xefcdab89, 0x98badcfe, 0x10325476, 0xc3d2e1f0, 0x0116fc33, 0x7bf36ae2);
    Turn(1, 0x5a827999, 0x00000000, 0x0116fc33, 0x67452301, 0x7bf36ae2, 0x98badcfe, 0x10325476, 0x8990536d, 0x59d148c0);
    Turn(2, 0x5a827999, 0x00000000, 0x8990536d, 0x0116fc33, 0x59d148c0, 0x7bf36ae2, 0x98badcfe, 0xa1390f08, 0xc045bf0c);
    Turn(3, 0x5a827999, 0x00000000, 0xa1390f08, 0x8990536d, 0xc045bf0c, 0x59d148c0, 0x7bf36ae2, 0xcdd8e11b, 0x626414db);
    Turn(4, 0x5a827999, 0x00000000, 0xcdd8e11b, 0xa1390f08, 0x626414db, 0xc045bf0c, 0x59d148c0, 0xcfd499de, 0x284e43c2);
    Turn(5, 0x5a827999, 0x00000000, 0xcfd499de, 0xcdd8e11b, 0x284e43c2, 0x626414db, 0xc045bf0c, 0x3fc7ca40, 0xf3763846);
    Turn(6, 0x5a827999, 0x00000000, 0x3fc7ca40, 0xcfd499de, 0xf3763846, 0x284e43c2, 0x626414db, 0x993e30c1, 0xb3f52677);
    Turn(7, 0x5a827999, 0x00000000, 0x993e30c1, 0x3fc7ca40, 0xb3f52677, 0xf3763846, 0x284e43c2, 0x9e8c07d4, 0x0ff1f290);
    Turn(8, 0x5a827999, 0x00000000, 0x9e8c07d4, 0x993e30c1, 0x0ff1f290, 0xb3f52677, 0xf3763846, 0x4b6ae328, 0x664f8c30);
    Turn(9, 0x5a827999, 0x00000000, 0x4b6ae328, 0x9e8c07d4, 0x664f8c30, 0x0ff1f290, 0xb3f52677, 0x8351f929, 0x27a301f5);
  }

  lemma Steps20()
    ensures Steps(20, START, ABC) == Regs(0xfd9e1d7d, 0xdc64901d, 0x20aa99ca, 0xd3a49608, 0xc82f758b)
  {
    hide Steps, IsWord;
    Steps10();
    FirstWords();
    Words1();
    Turn(10, 0x5a827999, 0x00000000, 0x8351f929, 0x4b6ae328, 0x27a301f5, 0x664f8c30, 0x0ff1f290, 0xfbda9e89, 0x12dab8ca);
    Turn(11, 0x5a827999, 0x00000000, 0xfbda9e89, 0x8351f929, 0x12dab8ca, 0x27a301f5, 0x664f8c30, 0x63188fe4, 0x60d47e4a);
    Turn(12, 0x5a827999, 0x00000000, 0x63188fe4, 0xfbda9e89, 0x60d47e4a, 0x12dab8ca, 0x27a301f5, 0x4607b664, 0x7ef6a7a2);
    Turn(13, 0x5a827999, 0x00000000, 0x4607b664, 0x63188fe4, 0x7ef6a7a2, 0x60d47e4a, 0x12dab8ca, 0x9128f695, 0x18c623f9);
    Turn(14, 0x5a827999, 0x00000000, 0x9128f695, 0x4607b664, 0x18c623f9, 0x7ef6a7a2, 0x60d47e4a, 0x196bee77, 0x1181ed99);
    Turn(15, 0x5a827999, 0x00000018, 0x196bee77, 0x9128f695, 0x1181ed99, 0x18c623f9, 0x7ef6a7a2, 0x20bdd62f, 0x644a3da5);
    Turn(16, 0x5a827999, 0xc2c4c700, 0x20bdd62f, 0x196bee77, 0x644a3da5, 0x1181ed99, 0x18c623f9, 0x4e925823, 0xc65afb9d);
    Turn(17, 0x5a827999, 0x00000000, 0x4e925823, 0x20bdd62f, 0xc65afb9d, 0x644a3da5, 0x1181ed99, 0x82aa6728, 0xc82f758b);
    Turn(18, 0x5a827999, 0x00000030, 0x82aa6728, 0x4e925823, 0xc82f758b, 0xc65afb9d, 0x644a3da5, 0xdc64901d, 0xd3a49608);
    Turn(19, 0x5a827999, 0x85898e01, 0xdc64901d, 0x82aa6728, 0xd3a49608, 0xc82f758b, 0xc65afb9d, 0xfd9e1d7d, 0x20aa99ca);
  }

  lemma Steps30()
    ensures Steps(30, START, ABC) == Regs(0xc5fbaf5d, 0x8370b52e, 0xd2aa1365, 0x6f8d7ef5, 0x12104ee9)
  {
    hide Steps, IsWord;
    Steps20();
    Words1();
    Turn(20, 0x6ed9eba1, 0x00000000, 0xfd9e1d7d, 0xdc64901d, 0x20aa99ca, 0xd3a49608, 0xc82f758b, 0x1a37b0ca, 0x77192407);
    Turn(21, 0x6ed9eba1, 0x00000060, 0x1a37b0ca, 0xfd9e1d7d, 0x77192407, 0x20aa99ca, 0xd3a49608, 0x33a23bfc, 0x7f67875f);
    Turn(22, 0x6ed9eba1, 0x0b131c03, 0x33a23bfc, 0x1a37b0ca, 0x7f67875f, 0x77192407, 0x20aa99ca, 0x21283486, 0x868dec32);
    Turn(23, 0x6ed9eba1, 0x00000030, 0x21283486, 0x33a23bfc, 0x868dec32, 0x7f67875f, 0x77192407, 0xd541f12d, 0x0ce88eff);
    Turn(24, 0x6ed9eba1, 0x85898ec1, 0xd541f12d, 0x21283486, 0x0ce88eff, 0x868dec32, 0x7f67875f, 0xc7567dc6, 0x884a0d21);
    Turn(25, 0x6ed9eba1, 0x16263806, 0xc7567dc6, 0xd541f12d, 0x884a0d21, 0x0ce88eff, 0x868dec32, 0x48413ba4, 0x75507c4b);
    Turn(26, 0x6ed9eba1, 0x00000000, 0x48413ba4, 0xc7567dc6, 0x75507c4b, 0x884a0d21, 0x0ce88eff, 0xbe35fbd5, 0xb1d59f71);
    Turn(27, 0x6ed9eba1, 0x00000180, 0xbe35fbd5, 0x48413ba4, 0xb1d59f71, 0x75507c4b, 0x884a0d21, 0x4aa84d97, 0x12104ee9);
    Turn(28, 0x6ed9eba1, 0x2c4c700c, 0x4aa84d97, 0xbe35fbd5, 0x12104ee9, 0xb1d59f71, 0x75507c4b, 0x8370b52e, 0x6f8d7ef5);
    Turn(29, 0x6ed9eba1, 0x000000f0, 0x8370b52e, 0x4aa84d97, 0x6f8d7ef5, 0x12104ee9, 0xb1d59f71, 0xc5fbaf5d, 0xd2aa1365);
  }

  lemma Steps40()
    ensures Steps(40, START, ABC) == Regs(0x32de1cba, 0x4c986405, 0xf718e5cf, 0x03d447f6, 0xf72eec32)
  {
    hide Steps, IsWord;
    Steps30();
    Words1();
    Words2();
    Turn(30, 0x6ed9eba1, 0x93afb507, 0xc5fbaf5d, 0x8370b52e, 0xd2aa1365, 0x6f8d7ef5, 0x12104ee9, 0x1267b407, 0xa0dc2d4b);
    Turn(31, 0x6ed9eba1, 0x5898e048, 0x1267b407, 0xc5fbaf5d, 0xa0dc2d4b, 0xd2aa1365, 0x6f8d7ef5, 0x3b845d33, 0x717eebd7);
    Turn(32, 0x6ed9eba1, 0x8e9a9202, 0x3b845d33, 0x1267b407, 0x717eebd7, 0xa0dc2d4b, 0xd2aa1365, 0x046faa0a, 0xc499ed01);
    Turn(33, 0x6ed9eba1, 0x00000600, 0x046faa0a, 0x3b845d33, 0xc499ed01, 0x717eebd7, 0xa0dc2d4b, 0x2c0ebc11, 0xcee1174c);
    Turn(34, 0x6ed9eba1, 0xb131c0f0, 0x2c0ebc11, 0x046faa0a, 0xcee1174c, 0xc499ed01, 0x717eebd7, 0x21796ad4, 0x811bea82);
    Turn(35, 0x6ed9eba1, 0x16263bc6, 0x21796ad4, 0x2c0ebc11, 0x811bea82, 0xcee1174c, 0xc499ed01, 0xdcbbb0cb, 0x4b03af04);
    Turn(36, 0x6ed9eba1, 0x4ebed41e, 0xdcbbb0cb, 0x21796ad4, 0x4b03af04, 0x811bea82, 0xcee1174c, 0x0f511fd8, 0x085e5ab5);
    Turn(37, 0x6ed9eba1, 0x626380a1, 0x0f511fd8, 0xdcbbb0cb, 0x085e5ab5, 0x4b03af04, 0x811bea82, 0xdc63973f, 0xf72eec32);
    Turn(38, 0x6ed9eba1, 0x16263806, 0xdc63973f, 0x0f511fd8, 0xf72eec32, 0x085e5ab5, 0x4b03af04, 0x4c986405, 0x03d447f6);
    Turn(39, 0x6ed9eba1, 0x000018c0, 0x4c986405, 0xdc63973f, 0x03d447f6, 0xf72eec32, 0x085e5ab5, 0x32de1cba, 0xf718e5cf);
  }

  lemma Steps50()
    ensures Steps(50, START, ABC) == Regs(0x120731c5, 0xbaf39337, 0xafab40b2, 0x2806e11b, 0x8714787c)
  {
    hide Steps, IsWord;
    Steps40();
    Words2();
    Words3();
    Turn(40, 0x8f1bbcdc, 0xd2e138c4, 0x32de1cba, 0x4c986405, 0xf718e5cf, 0x03d447f6, 0xf72eec32, 0xfc87dedf, 0x53261901);
    Turn(41, 0x8f1bbcdc, 0x00000f00, 0xfc87dedf, 0x32de1cba, 0x53261901, 0xf718e5cf, 0x03d447f6, 0x970a0d5c, 0x8cb7872e);
    Turn(42, 0x8f1bbcdc, 0x3afb5079, 0x970a0d5c, 0xfc87dedf, 0x8cb7872e, 0x53261901, 0xf718e5cf, 0x7f193dc5, 0xff21f7b7);
    Turn(43, 0x8f1bbcdc, 0x898e04e5, 0x7f193dc5, 0x970a0d5c, 0xff21f7b7, 0x8cb7872e, 0x53261901, 0xee1b1aaf, 0x25c28357);
    Turn(44, 0x8f1bbcdc, 0xe2ba3c2b, 0xee1b1aaf, 0x7f193dc5, 0x25c28357, 0xff21f7b7, 0x8cb7872e, 0x40f28e09, 0x5fc64f71);
    Turn(45, 0x8f1bbcdc, 0x000060c0, 0x40f28e09, 0xee1b1aaf, 0x5fc64f71, 0x25c28357, 0xff21f7b7, 0x1c51e1f2, 0xfb86c6ab);
    Turn(46, 0x8f1bbcdc, 0x053a37cd, 0x1c51e1f2, 0x40f28e09, 0xfb86c6ab, 0x5fc64f71, 0x25c28357, 0xa01b846c, 0x503ca382);
    Turn(47, 0x8f1bbcdc, 0x74458547, 0xa01b846c, 0x1c51e1f2, 0x503ca382, 0xfb86c6ab, 0x5fc64f71, 0xbead02ca, 0x8714787c);
    Turn(48, 0x8f1bbcdc, 0xda9415ed, 0xbead02ca, 0xa01b846c, 0x8714787c, 0x503ca382, 0xfb86c6ab, 0xbaf39337, 0x2806e11b);
    Turn(49, 0x8f1bbcdc, 0x26380a16, 0xbaf39337, 0xbead02ca, 0x2806e11b, 0x8714787c, 0x503ca382, 0x120731c5, 0xafab40b2);
  }

  lemma Steps60()
    ensures Steps(60, START, ABC) == Regs(0x3f52de5a, 0x09d785fd, 0x3498bfd4, 0xf211824f, 0xd79915ab)
  {
    hide Steps, IsWord;
    Steps50();
    Words3();
    Turn(50, 0x8f1bbcdc, 0x626383a1, 0x120731c5, 0xbaf39337, 0xafab40b2, 0x2806e11b, 0x8714787c, 0x641db2ce, 0xeebce4cd);
    Turn(51, 0x8f1bbcdc, 0x4ebf54de, 0x641db2ce, 0x120731c5, 0xeebce4cd, 0xafab40b2, 0x2806e11b, 0x3847ad66, 0x4481cc71);
    Turn(52, 0x8f1bbcdc, 0x3835b44b, 0x3847ad66, 0x641db2ce, 0x4481cc71, 0xeebce4cd, 0xafab40b2, 0xe490436d, 0x99076cb3);
    Turn(53, 0x8f1bbcdc, 0x0000f600, 0xe490436d, 0x3847ad66, 0x99076cb3, 0x4481cc71, 0xeebce4cd, 0x27e9f1d8, 0x8e11eb59);
    Turn(54, 0x8f1bbcdc, 0x1e84c7a3, 0x27e9f1d8, 0xe490436d, 0x8e11eb59, 0x99076cb3, 0x4481cc71, 0x7b71f76d, 0x792410db);
    Turn(55, 0x8f1bbcdc, 0x98e04d98, 0x7b71f76d, 0x27e9f1d8, 0x792410db, 0x8e11eb59, 0x99076cb3, 0x5e6456af, 0x09fa7c76);
    Turn(56, 0x8f1bbcdc, 0x651d16a0, 0x5e6456af, 0x7b71f76d, 0x09fa7c76, 0x792410db, 0x8e11eb59, 0xc846093f, 0x5edc7ddb);
    Turn(57, 0x8f1bbcdc, 0x62658ca1, 0xc846093f, 0x5e6456af, 0x5edc7ddb, 0x09fa7c76, 0x792410db, 0xd262ff50, 0xd79915ab);
    Turn(58, 0x8f1bbcdc, 0x458544d6, 0xd262ff50, 0xc846093f, 0xd79915ab, 0x5edc7ddb, 0x09fa7c76, 0x09d785fd, 0xf211824f);
    Turn(59, 0x8f1bbcdc, 0x44584cb7, 0x09d785fd, 0xd262ff50, 0xf211824f, 0xd79915ab, 0x5edc7ddb, 0x3f52de5a, 0x3498bfd4);
  }

  lemma Steps70()
    ensures Steps(70, START, ABC) == Regs(0x3f2588c2, 0x497093c0, 0xde37534a, 0x030f7cad, 0x4405957e)
  {
    hide Steps, IsWord;
    Steps60();
    Words3();
    Words4();
    Turn(60, 0xca62c1d6, 0x7ba06619, 0x3f52de5a, 0x09d785fd, 0x3498bfd4, 0xf211824f, 0xd79915ab, 0xd756c147, 0x4275e17f);
    Turn(61, 0xca62c1d6, 0x6380aea2, 0xd756c147, 0x3f52de5a, 0x4275e17f, 0x3498bfd4, 0xf211824f, 0x548c9cb2, 0x8fd4b796);
    Turn(62, 0xca62c1d6, 0x0ae55269, 0x548c9cb2, 0xd756c147, 0x8fd4b796, 0x4275e17f, 0x3498bfd4, 0xb66c020b, 0xf5d5b051);
    Turn(63, 0xca62c1d6, 0x627b49a1, 0xb66c020b, 0x548c9cb2, 0xf5d5b051, 0x8fd4b796, 0x4275e17f, 0x6b61c9e1, 0x9523272c);
    Turn(64, 0xca62c1d6, 0x7cd45c9d, 0x6b61c9e1, 0xb66c020b, 0x9523272c, 0xf5d5b051, 0x8fd4b796, 0x19dfa7ac, 0xed9b0082);
    Turn(65, 0xca62c1d6, 0x000f0000, 0x19dfa7ac, 0x6b61c9e1, 0xed9b0082, 0x9523272c, 0xf5d5b051, 0x101655f9, 0x5ad87278);
    Turn(66, 0xca62c1d6, 0xfb50753a, 0x101655f9, 0x19dfa7ac, 0x5ad87278, 0xed9b0082, 0x9523272c, 0x0c3df2b4, 0x0677e9eb);
    Turn(67, 0xca62c1d6, 0xec6765e8, 0x0c3df2b4, 0x101655f9, 0x0677e9eb, 0x5ad87278, 0xed9b0082, 0x78dd4d2b, 0x4405957e);
    Turn(68, 0xca62c1d6, 0xba3c2be2, 0x78dd4d2b, 0x0c3df2b4, 0x4405957e, 0x0677e9eb, 0x5ad87278, 0x497093c0, 0x030f7cad);
    Turn(69, 0xca62c1d6, 0x0060c000, 0x497093c0, 0x78dd4d2b, 0x030f7cad, 0x4405957e, 0x0677e9eb, 0x3f2588c2, 0xde37534a);
  }

  lemma Steps80()
    ensures Steps(80, START, ABC) == Regs(0x42541b35, 0x5738d5e1, 0x21834873, 0x681e6df6, 0xd8fdf6ad)
  {
    hide Steps, IsWord;
    Steps70();
    Words4();
    Turn(70, 0xca62c1d6, 0x3a37cd05, 0x3f2588c2, 0x497093c0, 0xde37534a, 0x030f7cad, 0x4405957e, 0xc199f8c7, 0x125c24f0);
    Turn(71, 0xca62c1d6, 0x458546f4, 0xc199f8c7, 0x3f2588c2, 0x125c24f0, 0xde37534a, 0x030f7cad, 0x39859de7, 0x8fc96230);
    Turn(72, 0xca62c1d6, 0xb8599dd6, 0x39859de7, 0xc199f8c7, 0x8fc96230, 0x125c24f0, 0xde37534a, 0xedb42de4, 0xf0667e31);
    Turn(73, 0xca62c1d6, 0x380a1a26, 0xedb42de4, 0x39859de7, 0xf0667e31, 0x8fc96230, 0x125c24f0, 0x11793f6f, 0xce616779);
    Turn(74, 0xca62c1d6, 0x01e02203, 0x11793f6f, 0xedb42de4, 0xce616779, 0xf0667e31, 0x8fc96230, 0x5ee76897, 0x3b6d0b79);
    Turn(75, 0xca62c1d6, 0xe7cc3456, 0x5ee76897, 0x11793f6f, 0x3b6d0b79, 0xce616779, 0xf0667e31, 0x63f7dab7, 0xc45e4fdb);
    Turn(76, 0xca62c1d6, 0xe6e60b69, 0x63f7dab7, 0x5ee76897, 0xc45e4fdb, 0x3b6d0b79, 0xce616779, 0xa079b7d9, 0xd7b9da25);
    Turn(77, 0xca62c1d6, 0x00f60a00, 0xa079b7d9, 0x63f7dab7, 0xd7b9da25, 0xc45e4fdb, 0x3b6d0b79, 0x860d21cc, 0xd8fdf6ad);
    Turn(78, 0xca62c1d6, 0x5795ef4f, 0x860d21cc, 0xa079b7d9, 0xd8fdf6ad, 0xd7b9da25, 0xc45e4fdb, 0x5738d5e1, 0x681e6df6);
    Turn(79, 0xca62c1d6, 0x822e0879, 0x5738d5e1, 0x860d21cc, 0x681e6df6, 0xd8fdf6ad, 0xd7b9da25, 0x42541b35, 0x21834873);
  }

  lemma NoSteps()
    ensures Steps(0, START, ABC) == START
  {
  }

  lemma AbcBlock()
    ensures Sha1Block(INIT, ABC) == [0xa9993e36, 0x4706816a, 0xba3e2571, 0x7850c26c, 0x9cd0d89d]
  {
    Steps80();
    hide Steps;
  }

  lemma AbcPad()
    ensures [0x61, 0x62, 0x63] + Pad(3) == ABC
  {
    AbcLength();
    hide BigEndian;
    assert PadZeros(3) == 52;
    Around([0x61, 0x62, 0x63], [0x80], 52, 7, [24]);
    assert [0x61, 0x62, 0x63] + [0x80] == [0x61, 0x62, 0x63, 0x80];
  }

  lemma Around(a: seq<byte>, b: seq<byte>, m: nat, n: nat, c: seq<byte>)
    ensures a + (b + Zeros(m) + (Zeros(n) + c)) == (a + b) + Zeros(m + n) + c
  {
  }

  lemma AbcLength()
    ensures BigEndian(24, 8) == Zeros(7) + [24]
  {
    BigStep(24, 8);
    ZeroBytes(7);
    hide BigEndian;
  }

  lemma {:induction false} ZeroBytes(k: nat)
    ensures BigEndian(0, k) == Zeros(k)
    decreases k
  {
    if k != 0 { ZeroBytes(k - 1); }
  }

  /** The digest of "abc". */
  lemma AbcDigest()
    ensures Digest([0x61, 0x62, 0x63])
         == [0xa9, 0x99, 0x3e, 0x36, 0x47, 0x06, 0x81, 0x6a, 0xba, 0x3e,
             0x25, 0x71, 0x78, 0x50, 0xc2, 0x6c, 0x9c, 0xd0, 0xd8, 0x9d]
  {
    hide Sha1Block, Pad, Fold, Encode;
    AbcPad();
    AbcBlock();
    OneBlock(Sha1Block, INIT, ABC);
    AbcEncoded();
  }

  lemma AbcEncoded()
    ensures Encode([0xa9993e36, 0x4706816a, 0xba3e2571, 0x7850c26c, 0x9cd0d89d])
         == [0xa9, 0x99, 0x3e, 0x36, 0x47, 0x06, 0x81, 0x6a, 0xba, 0x3e,
             0x25, 0x71, 0x78, 0x50, 0xc2, 0x6c, 0x9c, 0xd0, 0xd8, 0x9d]
  {
    hide ByteOf;
    var w: seq<Word> := [0xa9993e36, 0x4706816a, 0xba3e2571, 0x7850c26c, 0x9cd0d89d];
    assert w[1..] == [0x4706816a, 0xba3e2571, 0x7850c26c, 0x9cd0d89d] && w[1..][1..] == [0xba3e2571, 0x7850c26c, 0x9cd0d89d];
    assert w[1..][1..][1..] == [0x7850c26c, 0x9cd0d89d] && w[1..][1..][1..][1..] == [0x9cd0d89d];
    assert w[1..][1..][1..][1..][1..] == [];
    AbcBytes();
  }

  lemma AbcBytes()
    ensures ByteOf(0xa9993e36, 3) == 0xa9 && ByteOf(0xa9993e36, 2) == 0x99 && ByteOf(0xa9993e36, 1) == 0x3e && ByteOf(0xa9993e36, 0) == 0x36
    ensures ByteOf(0x4706816a, 3) == 0x47 && ByteOf(0x4706816a, 2) == 0x06 && ByteOf(0x4706816a, 1) == 0x81 && ByteOf(0x4706816a, 0) == 0x6a
    ensures ByteOf(0xba3e2571, 3) == 0xba && ByteOf(0xba3e2571, 2) == 0x3e && ByteOf(0xba3e2571, 1) == 0x25 && ByteOf(0xba3e2571, 0) == 0x71
    ensures ByteOf(0x7850c26c, 3) == 0x78 && ByteOf(0x7850c26c, 2) == 0x50 && ByteOf(0x7850c26c, 1) == 0xc2 && ByteOf(0x7850c26c, 0) == 0x6c
    ensures ByteOf(0x9cd0d89d, 3) == 0x9c && ByteOf(0x9cd0d89d, 2) == 0xd0 && ByteOf(0x9cd0d89d, 1) == 0xd8 && ByteOf(0x9cd0d89d, 0) == 0x9d
  {
  }
}
