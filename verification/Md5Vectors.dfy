/** Two values of the test suite in appendix A.5 of RFC 1321, computed step by step: the digest
    of the empty message, and that of a message of 62 bytes, which takes two blocks and fills
    every word of the first.  And what the padding is, for messages of any length. */
module Md5Vectors {
  import opened Md5Spec
  import opened Md5Stream
  import opened Arith

  // ---------- The empty message ----------

  const EMPTY_BLOCK: seq<bv8> := [0x80] + Zeros(55) + [0, 0, 0, 0, 0, 0, 0, 0]

  predicate EmptyWords(block: seq<bv8>) {
    && |block| == 64
    && Word(block, 0) == 0x00000080 && Word(block, 1) == 0x00000000
    && Word(block, 2) == 0x00000000 && Word(block, 3) == 0x00000000
    && Word(block, 4) == 0x00000000 && Word(block, 5) == 0x00000000
    && Word(block, 6) == 0x00000000 && Word(block, 7) == 0x00000000
    && Word(block, 8) == 0x00000000 && Word(block, 9) == 0x00000000
    && Word(block, 10) == 0x00000000 && Word(block, 11) == 0x00000000
    && Word(block, 12) == 0x00000000 && Word(block, 13) == 0x00000000
    && Word(block, 14) == 0x00000000 && Word(block, 15) == 0x00000000
  }

  lemma EmptySteps1()
    ensures Mix(F(0xefcdab89, 0x98badcfe, 0x10325476), 0x67452301, 0xefcdab89, 0x00000080, 0xd76aa478, 7) == 0xa5202774
    ensures Mix(F(0xa5202774, 0xefcdab89, 0x98badcfe), 0x10325476, 0xa5202774, 0x00000000, 0xe8c7b756, 12) == 0xf59592dd
    ensures Mix(F(0xf59592dd, 0xa5202774, 0xefcdab89), 0x98badcfe, 0xf59592dd, 0x00000000, 0x242070db, 17) == 0xe7f06b23
    ensures Mix(F(0xe7f06b23, 0xf59592dd, 0xa5202774), 0xefcdab89, 0xe7f06b23, 0x00000000, 0xc1bdceee, 22) == 0x1b163203
    ensures Mix(F(0x1b163203, 0xe7f06b23, 0xf59592dd), 0xa5202774, 0x1b163203, 0x00000000, 0xf57c0faf, 7) == 0x32033344
    ensures Mix(F(0x32033344, 0x1b163203, 0xe7f06b23), 0xf59592dd, 0x32033344, 0x00000000, 0x4787c62a, 12) == 0x2f35d494
    ensures Mix(F(0x2f35d494, 0x32033344, 0x1b163203), 0xe7f06b23, 0x2f35d494, 0x00000000, 0xa8304613, 17) == 0xf5b158db
    ensures Mix(F(0xf5b158db, 0x2f35d494, 0x32033344), 0x1b163203, 0xf5b158db, 0x00000000, 0xfd469501, 22) == 0x9bc13ce9
    ensures Mix(F(0x9bc13ce9, 0xf5b158db, 0x2f35d494), 0x32033344, 0x9bc13ce9, 0x00000000, 0x698098d8, 7) == 0x3893b991
    ensures Mix(F(0x3893b991, 0x9bc13ce9, 0xf5b158db), 0x2f35d494, 0x3893b991, 0x00000000, 0x8b44f7af, 12) == 0xfce4a312
    ensures Mix(F(0xfce4a312, 0x3893b991, 0x9bc13ce9), 0xf5b158db, 0xfce4a312, 0x00000000, 0xffff5bb1, 17) == 0xe1ef0576
    ensures Mix(F(0xe1ef0576, 0xfce4a312, 0x3893b991), 0x9bc13ce9, 0xe1ef0576, 0x00000000, 0x895cd7be, 22) == 0x70768a29
    ensures Mix(F(0x70768a29, 0xe1ef0576, 0xfce4a312), 0x3893b991, 0x70768a29, 0x00000000, 0x6b901122, 7) == 0xf56c7cf1
    ensures Mix(F(0xf56c7cf1, 0x70768a29, 0xe1ef0576), 0xfce4a312, 0xf56c7cf1, 0x00000000, 0xfd987193, 12) == 0x374943a7
    ensures Mix(F(0x374943a7, 0xf56c7cf1, 0x70768a29), 0xe1ef0576, 0x374943a7, 0x00000000, 0xa679438e, 17) == 0x5aa53f75
    ensures Mix(F(0x5aa53f75, 0x374943a7, 0xf56c7cf1), 0x70768a29, 0x5aa53f75, 0x00000000, 0x49b40821, 22) == 0xd6819c6a
  {
  }

  lemma EmptyRound1(block: seq<bv8>)
    requires EmptyWords(block)
    ensures Round(0, block, Regs(0x67452301, 0xefcdab89, 0x98badcfe, 0x10325476))
            == Regs(0xf56c7cf1, 0xd6819c6a, 0x5aa53f75, 0x374943a7)
  {
    hide Mix, F, G, H, I, Word, Four, Op, K, S, T;
    Table1();
    EmptySteps1();
    FourOps(0, block, Regs(0x67452301, 0xefcdab89, 0x98badcfe, 0x10325476));
    assert Four(0, block, Regs(0x67452301, 0xefcdab89, 0x98badcfe, 0x10325476))
           == Regs(0xa5202774, 0x1b163203, 0xe7f06b23, 0xf59592dd);
    FourOps(4, block, Regs(0xa5202774, 0x1b163203, 0xe7f06b23, 0xf59592dd));
    assert Four(4, block, Regs(0xa5202774, 0x1b163203, 0xe7f06b23, 0xf59592dd))
           == Regs(0x32033344, 0x9bc13ce9, 0xf5b158db, 0x2f35d494);
    FourOps(8, block, Regs(0x32033344, 0x9bc13ce9, 0xf5b158db, 0x2f35d494));
    assert Four(8, block, Regs(0x32033344, 0x9bc13ce9, 0xf5b158db, 0x2f35d494))
           == Regs(0x3893b991, 0x70768a29, 0xe1ef0576, 0xfce4a312);
    FourOps(12, block, Regs(0x3893b991, 0x70768a29, 0xe1ef0576, 0xfce4a312));
    assert Four(12, block, Regs(0x3893b991, 0x70768a29, 0xe1ef0576, 0xfce4a312))
           == Regs(0xf56c7cf1, 0xd6819c6a, 0x5aa53f75, 0x374943a7);
  }

  lemma EmptySteps2()
    ensures Mix(G(0xd6819c6a, 0x5aa53f75, 0x374943a7), 0xf56c7cf1, 0xd6819c6a, 0x00000000, 0xf61e2562, 5) == 0x1c7d7513
    ensures Mix(G(0x1c7d7513, 0xd6819c6a, 0x5aa53f75), 0x374943a7, 0x1c7d7513, 0x00000000, 0xc040b340, 9) == 0x7bd57a3a
    ensures Mix(G(0x7bd57a3a, 0x1c7d7513, 0xd6819c6a), 0x5aa53f75, 0x7bd57a3a, 0x00000000, 0x265e5a51, 14) == 0xc095f13a
    ensures Mix(G(0xc095f13a, 0x7bd57a3a, 0x1c7d7513), 0xd6819c6a, 0xc095f13a, 0x00000080, 0xe9b6c7aa, 20) == 0xbd782e17
    ensures Mix(G(0xbd782e17, 0xc095f13a, 0x7bd57a3a), 0x1c7d7513, 0xbd782e17, 0x00000000, 0xd62f105d, 5) == 0x3d1e3e6c
    ensures Mix(G(0x3d1e3e6c, 0xbd782e17, 0xc095f13a), 0x7bd57a3a, 0x3d1e3e6c, 0x00000000, 0x02441453, 9) == 0x68b7b3e3
    ensures Mix(G(0x68b7b3e3, 0x3d1e3e6c, 0xbd782e17), 0xc095f13a, 0x68b7b3e3, 0x00000000, 0xd8a1e681, 14) == 0xeb41643e
    ensures Mix(G(0xeb41643e, 0x68b7b3e3, 0x3d1e3e6c), 0xbd782e17, 0xeb41643e, 0x00000000, 0xe7d3fbc8, 20) == 0xe422531a
    ensures Mix(G(0xe422531a, 0xeb41643e, 0x68b7b3e3), 0x3d1e3e6c, 0xe422531a, 0x00000000, 0x21e1cde6, 5) == 0x306ec122
    ensures Mix(G(0x306ec122, 0xe422531a, 0xeb41643e), 0x68b7b3e3, 0x306ec122, 0x00000000, 0xc33707d6, 9) == 0xd28c77c2
    ensures Mix(G(0xd28c77c2, 0x306ec122, 0xe422531a), 0xeb41643e, 0xd28c77c2, 0x00000000, 0xf4d50d87, 14) == 0xa3c663da
    ensures Mix(G(0xa3c663da, 0xd28c77c2, 0x306ec122), 0xe422531a, 0xa3c663da, 0x00000000, 0x455a14ed, 20) == 0xa0572807
    ensures Mix(G(0xa0572807, 0xa3c663da, 0xd28c77c2), 0x306ec122, 0xa0572807, 0x00000000, 0xa9e3e905, 5) == 0x13707036
    ensures Mix(G(0x13707036, 0xa0572807, 0xa3c663da), 0xd28c77c2, 0x13707036, 0x00000000, 0xfcefa3f8, 9) == 0xae7813db
    ensures Mix(G(0xae7813db, 0x13707036, 0xa0572807), 0xa3c663da, 0xae7813db, 0x00000000, 0x676f02d9, 14) == 0x1c31c384
    ensures Mix(G(0x1c31c384, 0xae7813db, 0x13707036), 0xa0572807, 0x1c31c384, 0x00000000, 0x8d2a4c8a, 20) == 0xa2205f1f
  {
  }

  lemma EmptyRound2(block: seq<bv8>)
    requires EmptyWords(block)
    ensures Round(1, block, Regs(0xf56c7cf1, 0xd6819c6a, 0x5aa53f75, 0x374943a7))
            == Regs(0x13707036, 0xa2205f1f, 0x1c31c384, 0xae7813db)
  {
    hide Mix, F, G, H, I, Word, Four, Op, K, S, T;
    Table2();
    EmptySteps2();
    FourOps(16, block, Regs(0xf56c7cf1, 0xd6819c6a, 0x5aa53f75, 0x374943a7));
    assert Four(16, block, Regs(0xf56c7cf1, 0xd6819c6a, 0x5aa53f75, 0x374943a7))
           == Regs(0x1c7d7513, 0xbd782e17, 0xc095f13a, 0x7bd57a3a);
    FourOps(20, block, Regs(0x1c7d7513, 0xbd782e17, 0xc095f13a, 0x7bd57a3a));
    assert Four(20, block, Regs(0x1c7d7513, 0xbd782e17, 0xc095f13a, 0x7bd57a3a))
           == Regs(0x3d1e3e6c, 0xe422531a, 0xeb41643e, 0x68b7b3e3);
    FourOps(24, block, Regs(0x3d1e3e6c, 0xe422531a, 0xeb41643e, 0x68b7b3e3));
    assert Four(24, block, Regs(0x3d1e3e6c, 0xe422531a, 0xeb41643e, 0x68b7b3e3))
           == Regs(0x306ec122, 0xa0572807, 0xa3c663da, 0xd28c77c2);
    FourOps(28, block, Regs(0x306ec122, 0xa0572807, 0xa3c663da, 0xd28c77c2));
    assert Four(28, block, Regs(0x306ec122, 0xa0572807, 0xa3c663da, 0xd28c77c2))
           == Regs(0x13707036, 0xa2205f1f, 0x1c31c384, 0xae7813db);
  }

  lemma EmptySteps3()
    ensures Mix(H(0xa2205f1f, 0x1c31c384, 0xae7813db), 0x13707036, 0xa2205f1f, 0x00000000, 0xfffa3942, 4) == 0xdf63eaa1
    ensures Mix(H(0xdf63eaa1, 0xa2205f1f, 0x1c31c384), 0xae7813db, 0xdf63eaa1, 0x00000000, 0x8771f681, 11) == 0xc3689f5b
    ensures Mix(H(0xc3689f5b, 0xdf63eaa1, 0xa2205f1f), 0x1c31c384, 0xc3689f5b, 0x00000000, 0x6d9d6122, 16) == 0x12f3e755
    ensures Mix(H(0x12f3e755, 0xc3689f5b, 0xdf63eaa1), 0xa2205f1f, 0x12f3e755, 0x00000000, 0xfde5380c, 23) == 0x004b6669
    ensures Mix(H(0x004b6669, 0x12f3e755, 0xc3689f5b), 0xdf63eaa1, 0x004b6669, 0x00000000, 0xa4beea44, 4) == 0x5f7a9b2e
    ensures Mix(H(0x5f7a9b2e, 0x004b6669, 0x12f3e755), 0xc3689f5b, 0x5f7a9b2e, 0x00000000, 0x4bdecfa9, 11) == 0xabc34e16
    ensures Mix(H(0xabc34e16, 0x5f7a9b2e, 0x004b6669), 0x12f3e755, 0xabc34e16, 0x00000000, 0xf6bb4b60, 16) == 0x91ca4cb7
    ensures Mix(H(0x91ca4cb7, 0xabc34e16, 0x5f7a9b2e), 0x004b6669, 0x91ca4cb7, 0x00000000, 0xbebfbc70, 23) == 0xc5dc8c15
    ensures Mix(H(0xc5dc8c15, 0x91ca4cb7, 0xabc34e16), 0x5f7a9b2e, 0xc5dc8c15, 0x00000000, 0x289b7ec6, 4) == 0x4497169d
    ensures Mix(H(0x4497169d, 0xc5dc8c15, 0x91ca4cb7), 0xabc34e16, 0x4497169d, 0x00000080, 0xeaa127fa, 11) == 0x76fd93d4
    ensures Mix(H(0x76fd93d4, 0x4497169d, 0xc5dc8c15), 0x91ca4cb7, 0x76fd93d4, 0x00000000, 0xd4ef3085, 16) == 0xfd95f243
    ensures Mix(H(0xfd95f243, 0x76fd93d4, 0x4497169d), 0xc5dc8c15, 0xfd95f243, 0x00000000, 0x04881d05, 23) == 0x0fe32453
    ensures Mix(H(0x0fe32453, 0xfd95f243, 0x76fd93d4), 0x4497169d, 0x0fe32453, 0x00000000, 0xd9d4d039, 4) == 0x3f55edfd
    ensures Mix(H(0x3f55edfd, 0x0fe32453, 0xfd95f243), 0x76fd93d4, 0x3f55edfd, 0x00000000, 0xe6db99e5, 11) == 0x22a31f54
    ensures Mix(H(0x22a31f54, 0x3f55edfd, 0x0fe32453), 0xfd95f243, 0x22a31f54, 0x00000000, 0x1fa27cf8, 16) == 0x68d84ea2
    ensures Mix(H(0x68d84ea2, 0x22a31f54, 0x3f55edfd), 0x0fe32453, 0x68d84ea2, 0x00000000, 0xc4ac5665, 23) == 0xca7d2dbd
  {
  }

  lemma EmptyRound3(block: seq<bv8>)
    requires EmptyWords(block)
    ensures Round(2, block, Regs(0x13707036, 0xa2205f1f, 0x1c31c384, 0xae7813db))
            == Regs(0x3f55edfd, 0xca7d2dbd, 0x68d84ea2, 0x22a31f54)
  {
    hide Mix, F, G, H, I, Word, Four, Op, K, S, T;
    Table3();
    EmptySteps3();
    FourOps(32, block, Regs(0x13707036, 0xa2205f1f, 0x1c31c384, 0xae7813db));
    assert Four(32, block, Regs(0x13707036, 0xa2205f1f, 0x1c31c384, 0xae7813db))
           == Regs(0xdf63eaa1, 0x004b6669, 0x12f3e755, 0xc3689f5b);
    FourOps(36, block, Regs(0xdf63eaa1, 0x004b6669, 0x12f3e755, 0xc3689f5b));
    assert Four(36, block, Regs(0xdf63eaa1, 0x004b6669, 0x12f3e755, 0xc3689f5b))
           == Regs(0x5f7a9b2e, 0xc5dc8c15, 0x91ca4cb7, 0xabc34e16);
    FourOps(40, block, Regs(0x5f7a9b2e, 0xc5dc8c15, 0x91ca4cb7, 0xabc34e16));
    assert Four(40, block, Regs(0x5f7a9b2e, 0xc5dc8c15, 0x91ca4cb7, 0xabc34e16))
           == Regs(0x4497169d, 0x0fe32453, 0xfd95f243, 0x76fd93d4);
    FourOps(44, block, Regs(0x4497169d, 0x0fe32453, 0xfd95f243, 0x76fd93d4));
    assert Four(44, block, Regs(0x4497169d, 0x0fe32453, 0xfd95f243, 0x76fd93d4))
           == Regs(0x3f55edfd, 0xca7d2dbd, 0x68d84ea2, 0x22a31f54);
  }

  lemma EmptySteps4()
    ensures Mix(I(0xca7d2dbd, 0x68d84ea2, 0x22a31f54), 0x3f55edfd, 0xca7d2dbd, 0x00000080, 0xf4292244, 6) == 0x93aa2577
    ensures Mix(I(0x93aa2577, 0xca7d2dbd, 0x68d84ea2), 0x22a31f54, 0x93aa2577, 0x00000000, 0x432aff97, 10) == 0x1688dc85
    ensures Mix(I(0x1688dc85, 0x93aa2577, 0xca7d2dbd), 0x68d84ea2, 0x1688dc85, 0x00000000, 0xab9423a7, 15) == 0xcd85b8cb
    ensures Mix(I(0xcd85b8cb, 0x1688dc85, 0x93aa2577), 0xca7d2dbd, 0xcd85b8cb, 0x00000000, 0xfc93a039, 21) == 0x561e0689
    ensures Mix(I(0x561e0689, 0xcd85b8cb, 0x1688dc85), 0x93aa2577, 0x561e0689, 0x00000000, 0x655b59c3, 6) == 0x5625a114
    ensures Mix(I(0x5625a114, 0x561e0689, 0xcd85b8cb), 0x1688dc85, 0x5625a114, 0x00000000, 0x8f0ccc92, 10) == 0x3450f42b
    ensures Mix(I(0x3450f42b, 0x5625a114, 0x561e0689), 0xcd85b8cb, 0x3450f42b, 0x00000000, 0xffeff47d, 15) == 0x392ad0d0
    ensures Mix(I(0x392ad0d0, 0x3450f42b, 0x5625a114), 0x561e0689, 0x392ad0d0, 0x00000000, 0x85845dd1, 21) == 0x1e77fa61
    ensures Mix(I(0x1e77fa61, 0x392ad0d0, 0x3450f42b), 0x5625a114, 0x1e77fa61, 0x00000000, 0x6fa87e4f, 6) == 0x474a9c8c
    ensures Mix(I(0x474a9c8c, 0x1e77fa61, 0x392ad0d0), 0x3450f42b, 0x474a9c8c, 0x00000000, 0xfe2ce6e0, 10) == 0xdfce00bc
    ensures Mix(I(0xdfce00bc, 0x474a9c8c, 0x1e77fa61), 0x392ad0d0, 0xdfce00bc, 0x00000000, 0xa3014314, 15) == 0x36594b14
    ensures Mix(I(0x36594b14, 0xdfce00bc, 0x474a9c8c), 0x1e77fa61, 0x36594b14, 0x00000000, 0x4e0811a1, 21) == 0x30130182
    ensures Mix(I(0x30130182, 0x36594b14, 0xdfce00bc), 0x474a9c8c, 0x30130182, 0x00000000, 0xf7537e82, 6) == 0x7246fad3
    ensures Mix(I(0x7246fad3, 0x30130182, 0x36594b14), 0xdfce00bc, 0x7246fad3, 0x00000000, 0xbd3af235, 10) == 0x6e10a476
    ensures Mix(I(0x6e10a476, 0x7246fad3, 0x30130182), 0x36594b14, 0x6e10a476, 0x00000000, 0x2ad7d2bb, 15) == 0xff4ea3eb
    ensures Mix(I(0xff4ea3eb, 0x6e10a476, 0x7246fad3), 0x30130182, 0xff4ea3eb, 0x00000000, 0xeb86d391, 21) == 0x14e45506
  {
  }

  lemma EmptyRound4(block: seq<bv8>)
    requires EmptyWords(block)
    ensures Round(3, block, Regs(0x3f55edfd, 0xca7d2dbd, 0x68d84ea2, 0x22a31f54))
            == Regs(0x7246fad3, 0x14e45506, 0xff4ea3eb, 0x6e10a476)
  {
    hide Mix, F, G, H, I, Word, Four, Op, K, S, T;
    Table4();
    EmptySteps4();
    FourOps(48, block, Regs(0x3f55edfd, 0xca7d2dbd, 0x68d84ea2, 0x22a31f54));
    assert Four(48, block, Regs(0x3f55edfd, 0xca7d2dbd, 0x68d84ea2, 0x22a31f54))
           == Regs(0x93aa2577, 0x561e0689, 0xcd85b8cb, 0x1688dc85);
    FourOps(52, block, Regs(0x93aa2577, 0x561e0689, 0xcd85b8cb, 0x1688dc85));
    assert Four(52, block, Regs(0x93aa2577, 0x561e0689, 0xcd85b8cb, 0x1688dc85))
           == Regs(0x5625a114, 0x1e77fa61, 0x392ad0d0, 0x3450f42b);
    FourOps(56, block, Regs(0x5625a114, 0x1e77fa61, 0x392ad0d0, 0x3450f42b));
    assert Four(56, block, Regs(0x5625a114, 0x1e77fa61, 0x392ad0d0, 0x3450f42b))
           == Regs(0x474a9c8c, 0x30130182, 0x36594b14, 0xdfce00bc);
    FourOps(60, block, Regs(0x474a9c8c, 0x30130182, 0x36594b14, 0xdfce00bc));
    assert Four(60, block, Regs(0x474a9c8c, 0x30130182, 0x36594b14, 0xdfce00bc))
           == Regs(0x7246fad3, 0x14e45506, 0xff4ea3eb, 0x6e10a476);
  }

  lemma EmptyBlock(block: seq<bv8>)
    requires EmptyWords(block)
    ensures Compress(Regs(0x67452301, 0xefcdab89, 0x98badcfe, 0x10325476), block)
            == Regs(0xd98c1dd4, 0x04b2008f, 0x980980e9, 0x7e42f8ec)
  {
    hide Round, Word;
    EmptyRound1(block);
    EmptyRound2(block);
    EmptyRound3(block);
    EmptyRound4(block);
  }

  // ---------- The 62 letters and digits ----------

  const ROW0: seq<bv8> := [0x41, 0x42, 0x43, 0x44, 0x45, 0x46, 0x47, 0x48, 0x49, 0x4a, 0x4b, 0x4c, 0x4d, 0x4e, 0x4f, 0x50]
  const ROW1: seq<bv8> := [0x51, 0x52, 0x53, 0x54, 0x55, 0x56, 0x57, 0x58, 0x59, 0x5a, 0x61, 0x62, 0x63, 0x64, 0x65, 0x66]
  const ROW2: seq<bv8> := [0x67, 0x68, 0x69, 0x6a, 0x6b, 0x6c, 0x6d, 0x6e, 0x6f, 0x70, 0x71, 0x72, 0x73, 0x74, 0x75, 0x76]
  const ROW3: seq<bv8> := [0x77, 0x78, 0x79, 0x7a, 0x30, 0x31, 0x32, 0x33, 0x34, 0x35, 0x36, 0x37, 0x38, 0x39]

  /** A to Z, a to z, 0 to 9. */
  const ALPHANUMERIC: seq<bv8> := ROW0 + ROW1 + ROW2 + ROW3

  predicate FirstWords(block: seq<bv8>) {
    && |block| == 64
    && Word(block, 0) == 0x44434241 && Word(block, 1) == 0x48474645
    && Word(block, 2) == 0x4c4b4a49 && Word(block, 3) == 0x504f4e4d
    && Word(block, 4) == 0x54535251 && Word(block, 5) == 0x58575655
    && Word(block, 6) == 0x62615a59 && Word(block, 7) == 0x66656463
    && Word(block, 8) == 0x6a696867 && Word(block, 9) == 0x6e6d6c6b
    && Word(block, 10) == 0x7271706f && Word(block, 11) == 0x76757473
    && Word(block, 12) == 0x7a797877 && Word(block, 13) == 0x33323130
    && Word(block, 14) == 0x37363534 && Word(block, 15) == 0x00803938
  }

  lemma FirstSteps1()
    ensures Mix(F(0xefcdab89, 0x98badcfe, 0x10325476), 0x67452301, 0xefcdab89, 0x44434241, 0xd76aa478, 7) == 0xc6c10796
    ensures Mix(F(0xc6c10796, 0xefcdab89, 0x98badcfe), 0x10325476, 0xc6c10796, 0x48474645, 0xe8c7b756, 12) == 0x99a09999
    ensures Mix(F(0x99a09999, 0xc6c10796, 0xefcdab89), 0x98badcfe, 0x99a09999, 0x4c4b4a49, 0x242070db, 17) == 0x11067980
    ensures Mix(F(0x11067980, 0x99a09999, 0xc6c10796), 0xefcdab89, 0x11067980, 0x504f4e4d, 0xc1bdceee, 22) == 0x27bce07a
    ensures Mix(F(0x27bce07a, 0x11067980, 0x99a09999), 0xc6c10796, 0x27bce07a, 0x54535251, 0xf57c0faf, 7) == 0xf22e6c4e
    ensures Mix(F(0xf22e6c4e, 0x27bce07a, 0x11067980), 0x99a09999, 0xf22e6c4e, 0x58575655, 0x4787c62a, 12) == 0xb4ac9218
    ensures Mix(F(0xb4ac9218, 0xf22e6c4e, 0x27bce07a), 0x11067980, 0xb4ac9218, 0x62615a59, 0xa8304613, 17) == 0xa95a2fc0
    ensures Mix(F(0xa95a2fc0, 0xb4ac9218, 0xf22e6c4e), 0x27bce07a, 0xa95a2fc0, 0x66656463, 0xfd469501, 22) == 0xa4799506
    ensures Mix(F(0xa4799506, 0xa95a2fc0, 0xb4ac9218), 0xf22e6c4e, 0xa4799506, 0x6a696867, 0x698098d8, 7) == 0x1eb3e7c1
    ensures Mix(F(0x1eb3e7c1, 0xa4799506, 0xa95a2fc0), 0xb4ac9218, 0x1eb3e7c1, 0x6e6d6c6b, 0x8b44f7af, 12) == 0xa6e70cfe
    ensures Mix(F(0xa6e70cfe, 0x1eb3e7c1, 0xa4799506), 0xa95a2fc0, 0xa6e70cfe, 0x7271706f, 0xffff5bb1, 17) == 0xca27520b
    ensures Mix(F(0xca27520b, 0xa6e70cfe, 0x1eb3e7c1), 0xa4799506, 0xca27520b, 0x76757473, 0x895cd7be, 22) == 0x8a7612ec
    ensures Mix(F(0x8a7612ec, 0xca27520b, 0xa6e70cfe), 0x1eb3e7c1, 0x8a7612ec, 0x7a797877, 0x6b901122, 7) == 0x3cbdcd45
    ensures Mix(F(0x3cbdcd45, 0x8a7612ec, 0xca27520b), 0xa6e70cfe, 0x3cbdcd45, 0x33323130, 0xfd987193, 12) == 0xb8dec763
    ensures Mix(F(0xb8dec763, 0x3cbdcd45, 0x8a7612ec), 0xca27520b, 0xb8dec763, 0x37363534, 0xa679438e, 17) == 0xfa148c8a
    ensures Mix(F(0xfa148c8a, 0xb8dec763, 0x3cbdcd45), 0x8a7612ec, 0xfa148c8a, 0x00803938, 0x49b40821, 22) == 0x5d38e690
  {
  }

  lemma FirstRound1(block: seq<bv8>)
    requires FirstWords(block)
    ensures Round(0, block, Regs(0x67452301, 0xefcdab89, 0x98badcfe, 0x10325476))
            == Regs(0x3cbdcd45, 0x5d38e690, 0xfa148c8a, 0xb8dec763)
  {
    hide Mix, F, G, H, I, Word, Four, Op, K, S, T;
    Table1();
    FirstSteps1();
    FourOps(0, block, Regs(0x67452301, 0xefcdab89, 0x98badcfe, 0x10325476));
    assert Four(0, block, Regs(0x67452301, 0xefcdab89, 0x98badcfe, 0x10325476))
           == Regs(0xc6c10796, 0x27bce07a, 0x11067980, 0x99a09999);
    FourOps(4, block, Regs(0xc6c10796, 0x27bce07a, 0x11067980, 0x99a09999));
    assert Four(4, block, Regs(0xc6c10796, 0x27bce07a, 0x11067980, 0x99a09999))
           == Regs(0xf22e6c4e, 0xa4799506, 0xa95a2fc0, 0xb4ac9218);
    FourOps(8, block, Regs(0xf22e6c4e, 0xa4799506, 0xa95a2fc0, 0xb4ac9218));
    assert Four(8, block, Regs(0xf22e6c4e, 0xa4799506, 0xa95a2fc0, 0xb4ac9218))
           == Regs(0x1eb3e7c1, 0x8a7612ec, 0xca27520b, 0xa6e70cfe);
    FourOps(12, block, Regs(0x1eb3e7c1, 0x8a7612ec, 0xca27520b, 0xa6e70cfe));
    assert Four(12, block, Regs(0x1eb3e7c1, 0x8a7612ec, 0xca27520b, 0xa6e70cfe))
           == Regs(0x3cbdcd45, 0x5d38e690, 0xfa148c8a, 0xb8dec763);
  }

  lemma FirstSteps2()
    ensures Mix(G(0x5d38e690, 0xfa148c8a, 0xb8dec763), 0x3cbdcd45, 0x5d38e690, 0x48474645, 0xf61e2562, 5) == 0x04b9d52a
    ensures Mix(G(0x04b9d52a, 0x5d38e690, 0xfa148c8a), 0xb8dec763, 0x04b9d52a, 0x62615a59, 0xc040b340, 9) == 0x783002eb
    ensures Mix(G(0x783002eb, 0x04b9d52a, 0x5d38e690), 0xfa148c8a, 0x783002eb, 0x76757473, 0x265e5a51, 14) == 0xd3ee3ed1
    ensures Mix(G(0xd3ee3ed1, 0x783002eb, 0x04b9d52a), 0x5d38e690, 0xd3ee3ed1, 0x44434241, 0xe9b6c7aa, 20) == 0x47ae7c81
    ensures Mix(G(0x47ae7c81, 0xd3ee3ed1, 0x783002eb), 0x04b9d52a, 0x47ae7c81, 0x58575655, 0xd62f105d, 5) == 0x2d7d8a3f
    ensures Mix(G(0x2d7d8a3f, 0x47ae7c81, 0xd3ee3ed1), 0x783002eb, 0x2d7d8a3f, 0x7271706f, 0x02441453, 9) == 0xd1210823
    ensures Mix(G(0xd1210823, 0x2d7d8a3f, 0x47ae7c81), 0xd3ee3ed1, 0xd1210823, 0x00803938, 0xd8a1e681, 14) == 0x4b534dc3
    ensures Mix(G(0x4b534dc3, 0xd1210823, 0x2d7d8a3f), 0x47ae7c81, 0x4b534dc3, 0x54535251, 0xe7d3fbc8, 20) == 0x75292030
    ensures Mix(G(0x75292030, 0x4b534dc3, 0xd1210823), 0x2d7d8a3f, 0x75292030, 0x6e6d6c6b, 0x21e1cde6, 5) == 0x9d2a6e33
    ensures Mix(G(0x9d2a6e33, 0x75292030, 0x4b534dc3), 0xd1210823, 0x9d2a6e33, 0x37363534, 0xc33707d6, 9) == 0x0e8d2e44
    ensures Mix(G(0x0e8d2e44, 0x9d2a6e33, 0x75292030), 0x4b534dc3, 0x0e8d2e44, 0x504f4e4d, 0xf4d50d87, 14) == 0xd473b564
    ensures Mix(G(0xd473b564, 0x0e8d2e44, 0x9d2a6e33), 0x75292030, 0xd473b564, 0x6a696867, 0x455a14ed, 20) == 0xf2ff6ea0
    ensures Mix(G(0xf2ff6ea0, 0xd473b564, 0x0e8d2e44), 0x9d2a6e33, 0xf2ff6ea0, 0x33323130, 0xa9e3e905, 5) == 0x9b085fa9
    ensures Mix(G(0x9b085fa9, 0xf2ff6ea0, 0xd473b564), 0x0e8d2e44, 0x9b085fa9, 0x4c4b4a49, 0xfcefa3f8, 9) == 0x4400a9bd
    ensures Mix(G(0x4400a9bd, 0x9b085fa9, 0xf2ff6ea0), 0xd473b564, 0x4400a9bd, 0x66656463, 0x676f02d9, 14) == 0x5993248f
    ensures Mix(G(0x5993248f, 0x4400a9bd, 0x9b085fa9), 0xf2ff6ea0, 0x5993248f, 0x7a797877, 0x8d2a4c8a, 20) == 0xdd789ecc
  {
  }

  lemma FirstRound2(block: seq<bv8>)
    requires FirstWords(block)
    ensures Round(1, block, Regs(0x3cbdcd45, 0x5d38e690, 0xfa148c8a, 0xb8dec763))
            == Regs(0x9b085fa9, 0xdd789ecc, 0x5993248f, 0x4400a9bd)
  {
    hide Mix, F, G, H, I, Word, Four, Op, K, S, T;
    Table2();
    FirstSteps2();
    FourOps(16, block, Regs(0x3cbdcd45, 0x5d38e690, 0xfa148c8a, 0xb8dec763));
    assert Four(16, block, Regs(0x3cbdcd45, 0x5d38e690, 0xfa148c8a, 0xb8dec763))
           == Regs(0x04b9d52a, 0x47ae7c81, 0xd3ee3ed1, 0x783002eb);
    FourOps(20, block, Regs(0x04b9d52a, 0x47ae7c81, 0xd3ee3ed1, 0x783002eb));
    assert Four(20, block, Regs(0x04b9d52a, 0x47ae7c81, 0xd3ee3ed1, 0x783002eb))
           == Regs(0x2d7d8a3f, 0x75292030, 0x4b534dc3, 0xd1210823);
    FourOps(24, block, Regs(0x2d7d8a3f, 0x75292030, 0x4b534dc3, 0xd1210823));
    assert Four(24, block, Regs(0x2d7d8a3f, 0x75292030, 0x4b534dc3, 0xd1210823))
           == Regs(0x9d2a6e33, 0xf2ff6ea0, 0xd473b564, 0x0e8d2e44);
    FourOps(28, block, Regs(0x9d2a6e33, 0xf2ff6ea0, 0xd473b564, 0x0e8d2e44));
    assert Four(28, block, Regs(0x9d2a6e33, 0xf2ff6ea0, 0xd473b564, 0x0e8d2e44))
           == Regs(0x9b085fa9, 0xdd789ecc, 0x5993248f, 0x4400a9bd);
  }

  lemma FirstSteps3()
    ensures Mix(H(0xdd789ecc, 0x5993248f, 0x4400a9bd), 0x9b085fa9, 0xdd789ecc, 0x58575655, 0xfffa3942, 4) == 0x21c8d2b7
    ensures Mix(H(0x21c8d2b7, 0xdd789ecc, 0x5993248f), 0x4400a9bd, 0x21c8d2b7, 0x6a696867, 0x8771f681, 11) == 0x1d55a18e
    ensures Mix(H(0x1d55a18e, 0x21c8d2b7, 0xdd789ecc), 0x5993248f, 0x1d55a18e, 0x76757473, 0x6d9d6122, 16) == 0x056ec119
    ensures Mix(H(0x056ec119, 0x1d55a18e, 0x21c8d2b7), 0xdd789ecc, 0x056ec119, 0x37363534, 0xfde5380c, 23) == 0x1b9504f8
    ensures Mix(H(0x1b9504f8, 0x056ec119, 0x1d55a18e), 0x21c8d2b7, 0x1b9504f8, 0x48474645, 0xa4beea44, 4) == 0x436b7fe9
    ensures Mix(H(0x436b7fe9, 0x1b9504f8, 0x056ec119), 0x1d55a18e, 0x436b7fe9, 0x54535251, 0x4bdecfa9, 11) == 0x075800c1
    ensures Mix(H(0x075800c1, 0x436b7fe9, 0x1b9504f8), 0x056ec119, 0x075800c1, 0x66656463, 0xf6bb4b60, 16) == 0xf404c2f6
    ensures Mix(H(0xf404c2f6, 0x075800c1, 0x436b7fe9), 0x1b9504f8, 0xf404c2f6, 0x7271706f, 0xbebfbc70, 23) == 0xcf0341ed
    ensures Mix(H(0xcf0341ed, 0xf404c2f6, 0x075800c1), 0x436b7fe9, 0xcf0341ed, 0x33323130, 0x289b7ec6, 4) == 0x888e7d8a
    ensures Mix(H(0x888e7d8a, 0xcf0341ed, 0xf404c2f6), 0x075800c1, 0x888e7d8a, 0x44434241, 0xeaa127fa, 11) == 0xbbdaecd8
    ensures Mix(H(0xbbdaecd8, 0x888e7d8a, 0xcf0341ed), 0xf404c2f6, 0xbbdaecd8, 0x504f4e4d, 0xd4ef3085, 16) == 0xce620273
    ensures Mix(H(0xce620273, 0xbbdaecd8, 0x888e7d8a), 0xcf0341ed, 0xce620273, 0x62615a59, 0x04881d05, 23) == 0x047b9419
    ensures Mix(H(0x047b9419, 0xce620273, 0xbbdaecd8), 0x888e7d8a, 0x047b9419, 0x6e6d6c6b, 0xd9d4d039, 4) == 0x2dbee21d
    ensures Mix(H(0x2dbee21d, 0x047b9419, 0xce620273), 0xbbdaecd8, 0x2dbee21d, 0x7a797877, 0xe6db99e5, 11) == 0xe95c3a43
    ensures Mix(H(0xe95c3a43, 0x2dbee21d, 0x047b9419), 0xce620273, 0xe95c3a43, 0x00803938, 0x1fa27cf8, 16) == 0xee46e961
    ensures Mix(H(0xee46e961, 0xe95c3a43, 0x2dbee21d), 0x047b9419, 0xee46e961, 0x4c4b4a49, 0xc4ac5665, 23) == 0xf166f514
  {
  }

  lemma FirstRound3(block: seq<bv8>)
    requires FirstWords(block)
    ensures Round(2, block, Regs(0x9b085fa9, 0xdd789ecc, 0x5993248f, 0x4400a9bd))
            == Regs(0x2dbee21d, 0xf166f514, 0xee46e961, 0xe95c3a43)
  {
    hide Mix, F, G, H, I, Word, Four, Op, K, S, T;
    Table3();
    FirstSteps3();
    FourOps(32, block, Regs(0x9b085fa9, 0xdd789ecc, 0x5993248f, 0x4400a9bd));
    assert Four(32, block, Regs(0x9b085fa9, 0xdd789ecc, 0x5993248f, 0x4400a9bd))
           == Regs(0x21c8d2b7, 0x1b9504f8, 0x056ec119, 0x1d55a18e);
    FourOps(36, block, Regs(0x21c8d2b7, 0x1b9504f8, 0x056ec119, 0x1d55a18e));
    assert Four(36, block, Regs(0x21c8d2b7, 0x1b9504f8, 0x056ec119, 0x1d55a18e))
           == Regs(0x436b7fe9, 0xcf0341ed, 0xf404c2f6, 0x075800c1);
    FourOps(40, block, Regs(0x436b7fe9, 0xcf0341ed, 0xf404c2f6, 0x075800c1));
    assert Four(40, block, Regs(0x436b7fe9, 0xcf0341ed, 0xf404c2f6, 0x075800c1))
           == Regs(0x888e7d8a, 0x047b9419, 0xce620273, 0xbbdaecd8);
    FourOps(44, block, Regs(0x888e7d8a, 0x047b9419, 0xce620273, 0xbbdaecd8));
    assert Four(44, block, Regs(0x888e7d8a, 0x047b9419, 0xce620273, 0xbbdaecd8))
           == Regs(0x2dbee21d, 0xf166f514, 0xee46e961, 0xe95c3a43);
  }

  lemma FirstSteps4()
    ensures Mix(I(0xf166f514, 0xee46e961, 0xe95c3a43), 0x2dbee21d, 0xf166f514, 0x44434241, 0xf4292244, 6) == 0xe47fd4f3
    ensures Mix(I(0xe47fd4f3, 0xf166f514, 0xee46e961), 0xe95c3a43, 0xe47fd4f3, 0x66656463, 0x432aff97, 10) == 0xfb887751
    ensures Mix(I(0xfb887751, 0xe47fd4f3, 0xf166f514), 0xee46e961, 0xfb887751, 0x37363534, 0xab9423a7, 15) == 0xf22aedcc
    ensures Mix(I(0xf22aedcc, 0xfb887751, 0xe47fd4f3), 0xf166f514, 0xf22aedcc, 0x58575655, 0xfc93a039, 21) == 0x7a13bc5c
    ensures Mix(I(0x7a13bc5c, 0xf22aedcc, 0xfb887751), 0xe47fd4f3, 0x7a13bc5c, 0x7a797877, 0x655b59c3, 6) == 0xa691d430
    ensures Mix(I(0xa691d430, 0x7a13bc5c, 0xf22aedcc), 0xfb887751, 0xa691d430, 0x504f4e4d, 0x8f0ccc92, 10) == 0x528452f2
    ensures Mix(I(0x528452f2, 0xa691d430, 0x7a13bc5c), 0xf22aedcc, 0x528452f2, 0x7271706f, 0xffeff47d, 15) == 0x3fc23df6
    ensures Mix(I(0x3fc23df6, 0x528452f2, 0xa691d430), 0x7a13bc5c, 0x3fc23df6, 0x48474645, 0x85845dd1, 21) == 0xefb0e72f
    ensures Mix(I(0xefb0e72f, 0x3fc23df6, 0x528452f2), 0xa691d430, 0xefb0e72f, 0x6a696867, 0x6fa87e4f, 6) == 0x27145703
    ensures Mix(I(0x27145703, 0xefb0e72f, 0x3fc23df6), 0x528452f2, 0x27145703, 0x00803938, 0xfe2ce6e0, 10) == 0x21a11069
    ensures Mix(I(0x21a11069, 0x27145703, 0xefb0e72f), 0x3fc23df6, 0x21a11069, 0x62615a59, 0xa3014314, 15) == 0x374fbe79
    ensures Mix(I(0x374fbe79, 0x21a11069, 0x27145703), 0xefb0e72f, 0x374fbe79, 0x33323130, 0x4e0811a1, 21) == 0x49d9a5b4
    ensures Mix(I(0x49d9a5b4, 0x374fbe79, 0x21a11069), 0x27145703, 0x49d9a5b4, 0x54535251, 0xf7537e82, 6) == 0x1cb80f0a
    ensures Mix(I(0x1cb80f0a, 0x49d9a5b4, 0x374fbe79), 0x21a11069, 0x1cb80f0a, 0x76757473, 0xbd3af235, 10) == 0xea3d3eb4
    ensures Mix(I(0xea3d3eb4, 0x1cb80f0a, 0x49d9a5b4), 0x374fbe79, 0xea3d3eb4, 0x4c4b4a49, 0x2ad7d2bb, 15) == 0x10f68731
    ensures Mix(I(0x10f68731, 0xea3d3eb4, 0x1cb80f0a), 0x49d9a5b4, 0x10f68731, 0x6e6d6c6b, 0xeb86d391, 21) == 0xef2e3a46
  {
  }

  lemma FirstRound4(block: seq<bv8>)
    requires FirstWords(block)
    ensures Round(3, block, Regs(0x2dbee21d, 0xf166f514, 0xee46e961, 0xe95c3a43))
            == Regs(0x1cb80f0a, 0xef2e3a46, 0x10f68731, 0xea3d3eb4)
  {
    hide Mix, F, G, H, I, Word, Four, Op, K, S, T;
    Table4();
    FirstSteps4();
    FourOps(48, block, Regs(0x2dbee21d, 0xf166f514, 0xee46e961, 0xe95c3a43));
    assert Four(48, block, Regs(0x2dbee21d, 0xf166f514, 0xee46e961, 0xe95c3a43))
           == Regs(0xe47fd4f3, 0x7a13bc5c, 0xf22aedcc, 0xfb887751);
    FourOps(52, block, Regs(0xe47fd4f3, 0x7a13bc5c, 0xf22aedcc, 0xfb887751));
    assert Four(52, block, Regs(0xe47fd4f3, 0x7a13bc5c, 0xf22aedcc, 0xfb887751))
           == Regs(0xa691d430, 0xefb0e72f, 0x3fc23df6, 0x528452f2);
    FourOps(56, block, Regs(0xa691d430, 0xefb0e72f, 0x3fc23df6, 0x528452f2));
    assert Four(56, block, Regs(0xa691d430, 0xefb0e72f, 0x3fc23df6, 0x528452f2))
           == Regs(0x27145703, 0x49d9a5b4, 0x374fbe79, 0x21a11069);
    FourOps(60, block, Regs(0x27145703, 0x49d9a5b4, 0x374fbe79, 0x21a11069));
    assert Four(60, block, Regs(0x27145703, 0x49d9a5b4, 0x374fbe79, 0x21a11069))
           == Regs(0x1cb80f0a, 0xef2e3a46, 0x10f68731, 0xea3d3eb4);
  }

  lemma FirstBlock(block: seq<bv8>)
    requires FirstWords(block)
    ensures Compress(Regs(0x67452301, 0xefcdab89, 0x98badcfe, 0x10325476), block)
            == Regs(0x83fd320b, 0xdefbe5cf, 0xa9b1642f, 0xfa6f932a)
  {
    hide Round, Word;
    FirstRound1(block);
    FirstRound2(block);
    FirstRound3(block);
    FirstRound4(block);
  }

  predicate SecondWords(block: seq<bv8>) {
    && |block| == 64
    && Word(block, 0) == 0x00000000 && Word(block, 1) == 0x00000000
    && Word(block, 2) == 0x00000000 && Word(block, 3) == 0x00000000
    && Word(block, 4) == 0x00000000 && Word(block, 5) == 0x00000000
    && Word(block, 6) == 0x00000000 && Word(block, 7) == 0x00000000
    && Word(block, 8) == 0x00000000 && Word(block, 9) == 0x00000000
    && Word(block, 10) == 0x00000000 && Word(block, 11) == 0x00000000
    && Word(block, 12) == 0x00000000 && Word(block, 13) == 0x00000000
    && Word(block, 14) == 0x000001f0 && Word(block, 15) == 0x00000000
  }

  lemma SecondSteps1()
    ensures Mix(F(0xdefbe5cf, 0xa9b1642f, 0xfa6f932a), 0x83fd320b, 0xdefbe5cf, 0x00000000, 0xd76aa478, 7) == 0xeda23ed1
    ensures Mix(F(0xeda23ed1, 0xdefbe5cf, 0xa9b1642f), 0xfa6f932a, 0xeda23ed1, 0x00000000, 0xe8c7b756, 12) == 0x989939cf
    ensures Mix(F(0x989939cf, 0xeda23ed1, 0xdefbe5cf), 0xa9b1642f, 0x989939cf, 0x00000000, 0x242070db, 17) == 0x3c307338
    ensures Mix(F(0x3c307338, 0x989939cf, 0xeda23ed1), 0xdefbe5cf, 0x3c307338, 0x00000000, 0xc1bdceee, 22) == 0xddcf0634
    ensures Mix(F(0xddcf0634, 0x3c307338, 0x989939cf), 0xeda23ed1, 0xddcf0634, 0x00000000, 0xf57c0faf, 7) == 0x75144433
    ensures Mix(F(0x75144433, 0xddcf0634, 0x3c307338), 0x989939cf, 0x75144433, 0x00000000, 0x4787c62a, 12) == 0xc8875807
    ensures Mix(F(0xc8875807, 0x75144433, 0xddcf0634), 0x3c307338, 0xc8875807, 0x00000000, 0xa8304613, 17) == 0xc783cb60
    ensures Mix(F(0xc783cb60, 0xc8875807, 0x75144433), 0xddcf0634, 0xc783cb60, 0x00000000, 0xfd469501, 22) == 0x99b6b699
    ensures Mix(F(0x99b6b699, 0xc783cb60, 0xc8875807), 0x75144433, 0x99b6b699, 0x00000000, 0x698098d8, 7) == 0xa60a3f69
    ensures Mix(F(0xa60a3f69, 0x99b6b699, 0xc783cb60), 0xc8875807, 0xa60a3f69, 0x00000000, 0x8b44f7af, 12) == 0xaa6630be
    ensures Mix(F(0xaa6630be, 0xa60a3f69, 0x99b6b699), 0xc783cb60, 0xaa6630be, 0x00000000, 0xffff5bb1, 17) == 0x64db26e9
    ensures Mix(F(0x64db26e9, 0xaa6630be, 0xa60a3f69), 0x99b6b699, 0x64db26e9, 0x00000000, 0x895cd7be, 22) == 0x64cc7c5a
    ensures Mix(F(0x64cc7c5a, 0x64db26e9, 0xaa6630be), 0xa60a3f69, 0x64cc7c5a, 0x00000000, 0x6b901122, 7) == 0xa70737da
    ensures Mix(F(0xa70737da, 0x64cc7c5a, 0x64db26e9), 0xaa6630be, 0xa70737da, 0x00000000, 0xfd987193, 12) == 0x5473f8a7
    ensures Mix(F(0x5473f8a7, 0xa70737da, 0x64cc7c5a), 0x64db26e9, 0x5473f8a7, 0x000001f0, 0xa679438e, 17) == 0x96f6586e
    ensures Mix(F(0x96f6586e, 0x5473f8a7, 0xa70737da), 0x64cc7c5a, 0x96f6586e, 0x00000000, 0x49b40821, 22) == 0xa36f556f
  {
  }

  lemma SecondRound1(block: seq<bv8>)
    requires SecondWords(block)
    ensures Round(0, block, Regs(0x83fd320b, 0xdefbe5cf, 0xa9b1642f, 0xfa6f932a))
            == Regs(0xa70737da, 0xa36f556f, 0x96f6586e, 0x5473f8a7)
  {
    hide Mix, F, G, H, I, Word, Four, Op, K, S, T;
    Table1();
    SecondSteps1();
    FourOps(0, block, Regs(0x83fd320b, 0xdefbe5cf, 0xa9b1642f, 0xfa6f932a));
    assert Four(0, block, Regs(0x83fd320b, 0xdefbe5cf, 0xa9b1642f, 0xfa6f932a))
           == Regs(0xeda23ed1, 0xddcf0634, 0x3c307338, 0x989939cf);
    FourOps(4, block, Regs(0xeda23ed1, 0xddcf0634, 0x3c307338, 0x989939cf));
    assert Four(4, block, Regs(0xeda23ed1, 0xddcf0634, 0x3c307338, 0x989939cf))
           == Regs(0x75144433, 0x99b6b699, 0xc783cb60, 0xc8875807);
    FourOps(8, block, Regs(0x75144433, 0x99b6b699, 0xc783cb60, 0xc8875807));
    assert Four(8, block, Regs(0x75144433, 0x99b6b699, 0xc783cb60, 0xc8875807))
           == Regs(0xa60a3f69, 0x64cc7c5a, 0x64db26e9, 0xaa6630be);
    FourOps(12, block, Regs(0xa60a3f69, 0x64cc7c5a, 0x64db26e9, 0xaa6630be));
    assert Four(12, block, Regs(0xa60a3f69, 0x64cc7c5a, 0x64db26e9, 0xaa6630be))
           == Regs(0xa70737da, 0xa36f556f, 0x96f6586e, 0x5473f8a7);
  }

  lemma SecondSteps2()
    ensures Mix(G(0xa36f556f, 0x96f6586e, 0x5473f8a7), 0xa70737da, 0xa36f556f, 0x00000000, 0xf61e2562, 5) == 0xa5050ad3
    ensures Mix(G(0xa5050ad3, 0xa36f556f, 0x96f6586e), 0x5473f8a7, 0xa5050ad3, 0x00000000, 0xc040b340, 9) == 0x28776046
    ensures Mix(G(0x28776046, 0xa5050ad3, 0xa36f556f), 0x96f6586e, 0x28776046, 0x00000000, 0x265e5a51, 14) == 0x27dcd8b4
    ensures Mix(G(0x27dcd8b4, 0x28776046, 0xa5050ad3), 0xa36f556f, 0x27dcd8b4, 0x00000000, 0xe9b6c7aa, 20) == 0x82b8827c
    ensures Mix(G(0x82b8827c, 0x27dcd8b4, 0x28776046), 0xa5050ad3, 0x82b8827c, 0x00000000, 0xd62f105d, 5) == 0xe04f070c
    ensures Mix(G(0xe04f070c, 0x82b8827c, 0x27dcd8b4), 0x28776046, 0xe04f070c, 0x00000000, 0x02441453, 9) == 0x2f3cd2a2
    ensures Mix(G(0x2f3cd2a2, 0xe04f070c, 0x82b8827c), 0x27dcd8b4, 0x2f3cd2a2, 0x00000000, 0xd8a1e681, 14) == 0xc0d22b61
    ensures Mix(G(0xc0d22b61, 0x2f3cd2a2, 0xe04f070c), 0x82b8827c, 0xc0d22b61, 0x00000000, 0xe7d3fbc8, 20) == 0xdf35cb56
    ensures Mix(G(0xdf35cb56, 0xc0d22b61, 0x2f3cd2a2), 0xe04f070c, 0xdf35cb56, 0x00000000, 0x21e1cde6, 5) == 0x242dd210
    ensures Mix(G(0x242dd210, 0xdf35cb56, 0xc0d22b61), 0x2f3cd2a2, 0x242dd210, 0x000001f0, 0xc33707d6, 9) == 0x576ace33
    ensures Mix(G(0x576ace33, 0x242dd210, 0xdf35cb56), 0xc0d22b61, 0x576ace33, 0x00000000, 0xf4d50d87, 14) == 0x5c295967
    ensures Mix(G(0x5c295967, 0x576ace33, 0x242dd210), 0xdf35cb56, 0x5c295967, 0x00000000, 0x455a14ed, 20) == 0x2291191a
    ensures Mix(G(0x2291191a, 0x5c295967, 0x576ace33), 0x242dd210, 0x2291191a, 0x00000000, 0xa9e3e905, 5) == 0x24eba695
    ensures Mix(G(0x24eba695, 0x2291191a, 0x5c295967), 0x576ace33, 0x24eba695, 0x00000000, 0xfcefa3f8, 9) == 0x4bd0378b
    ensures Mix(G(0x4bd0378b, 0x24eba695, 0x2291191a), 0x5c295967, 0x4bd0378b, 0x00000000, 0x676f02d9, 14) == 0x10c42a2f
    ensures Mix(G(0x10c42a2f, 0x4bd0378b, 0x24eba695), 0x2291191a, 0x10c42a2f, 0x00000000, 0x8d2a4c8a, 20) == 0x9c03e2e8
  {
  }

  lemma SecondRound2(block: seq<bv8>)
    requires SecondWords(block)
    ensures Round(1, block, Regs(0xa70737da, 0xa36f556f, 0x96f6586e, 0x5473f8a7))
            == Regs(0x24eba695, 0x9c03e2e8, 0x10c42a2f, 0x4bd0378b)
  {
    hide Mix, F, G, H, I, Word, Four, Op, K, S, T;
    Table2();
    SecondSteps2();
    FourOps(16, block, Regs(0xa70737da, 0xa36f556f, 0x96f6586e, 0x5473f8a7));
    assert Four(16, block, Regs(0xa70737da, 0xa36f556f, 0x96f6586e, 0x5473f8a7))
           == Regs(0xa5050ad3, 0x82b8827c, 0x27dcd8b4, 0x28776046);
    FourOps(20, block, Regs(0xa5050ad3, 0x82b8827c, 0x27dcd8b4, 0x28776046));
    assert Four(20, block, Regs(0xa5050ad3, 0x82b8827c, 0x27dcd8b4, 0x28776046))
           == Regs(0xe04f070c, 0xdf35cb56, 0xc0d22b61, 0x2f3cd2a2);
    FourOps(24, block, Regs(0xe04f070c, 0xdf35cb56, 0xc0d22b61, 0x2f3cd2a2));
    assert Four(24, block, Regs(0xe04f070c, 0xdf35cb56, 0xc0d22b61, 0x2f3cd2a2))
           == Regs(0x242dd210, 0x2291191a, 0x5c295967, 0x576ace33);
    FourOps(28, block, Regs(0x242dd210, 0x2291191a, 0x5c295967, 0x576ace33));
    assert Four(28, block, Regs(0x242dd210, 0x2291191a, 0x5c295967, 0x576ace33))
           == Regs(0x24eba695, 0x9c03e2e8, 0x10c42a2f, 0x4bd0378b);
  }

  lemma SecondSteps3()
    ensures Mix(H(0x9c03e2e8, 0x10c42a2f, 0x4bd0378b), 0x24eba695, 0x9c03e2e8, 0x00000000, 0xfffa3942, 4) == 0x5be1d526
    ensures Mix(H(0x5be1d526, 0x9c03e2e8, 0x10c42a2f), 0x4bd0378b, 0x5be1d526, 0x00000000, 0x8771f681, 11) == 0x9e414279
    ensures Mix(H(0x9e414279, 0x5be1d526, 0x9c03e2e8), 0x10c42a2f, 0x9e414279, 0x00000000, 0x6d9d6122, 16) == 0x9f4a1a7e
    ensures Mix(H(0x9f4a1a7e, 0x9e414279, 0x5be1d526), 0x9c03e2e8, 0x9f4a1a7e, 0x000001f0, 0xfde5380c, 23) == 0xa2448453
    ensures Mix(H(0xa2448453, 0x9f4a1a7e, 0x9e414279), 0x5be1d526, 0xa2448453, 0x00000000, 0xa4beea44, 4) == 0xe14e403d
    ensures Mix(H(0xe14e403d, 0xa2448453, 0x9f4a1a7e), 0x9e414279, 0xe14e403d, 0x00000000, 0x4bdecfa9, 11) == 0xe8cfd670
    ensures Mix(H(0xe8cfd670, 0xe14e403d, 0xa2448453), 0x9f4a1a7e, 0xe8cfd670, 0x00000000, 0xf6bb4b60, 16) == 0x60cc183a
    ensures Mix(H(0x60cc183a, 0xe8cfd670, 0xe14e403d), 0xa2448453, 0x60cc183a, 0x00000000, 0xbebfbc70, 23) == 0xfe314121
    ensures Mix(H(0xfe314121, 0x60cc183a, 0xe8cfd670), 0xe14e403d, 0xfe314121, 0x00000000, 0x289b7ec6, 4) == 0xfff62809
    ensures Mix(H(0xfff62809, 0xfe314121, 0x60cc183a), 0xe8cfd670, 0xfff62809, 0x00000000, 0xeaa127fa, 11) == 0xe37209ac
    ensures Mix(H(0xe37209ac, 0xfff62809, 0xfe314121), 0x60cc183a, 0xe37209ac, 0x00000000, 0xd4ef3085, 16) == 0x8cb5221c
    ensures Mix(H(0x8cb5221c, 0xe37209ac, 0xfff62809), 0xfe314121, 0x8cb5221c, 0x00000000, 0x04881d05, 23) == 0x7c7e974c
    ensures Mix(H(0x7c7e974c, 0x8cb5221c, 0xe37209ac), 0xfff62809, 0x7c7e974c, 0x00000000, 0xd9d4d039, 4) == 0x54c9eb3a
    ensures Mix(H(0x54c9eb3a, 0x7c7e974c, 0x8cb5221c), 0xe37209ac, 0x54c9eb3a, 0x00000000, 0xe6db99e5, 11) == 0xd4d9c6ac
    ensures Mix(H(0xd4d9c6ac, 0x54c9eb3a, 0x7c7e974c), 0x8cb5221c, 0xd4d9c6ac, 0x00000000, 0x1fa27cf8, 16) == 0x2ec86f72
    ensures Mix(H(0x2ec86f72, 0xd4d9c6ac, 0x54c9eb3a), 0x7c7e974c, 0x2ec86f72, 0x00000000, 0xc4ac5665, 23) == 0x79c0710a
  {
  }

  lemma SecondRound3(block: seq<bv8>)
    requires SecondWords(block)
    ensures Round(2, block, Regs(0x24eba695, 0x9c03e2e8, 0x10c42a2f, 0x4bd0378b))
            == Regs(0x54c9eb3a, 0x79c0710a, 0x2ec86f72, 0xd4d9c6ac)
  {
    hide Mix, F, G, H, I, Word, Four, Op, K, S, T;
    Table3();
    SecondSteps3();
    FourOps(32, block, Regs(0x24eba695, 0x9c03e2e8, 0x10c42a2f, 0x4bd0378b));
    assert Four(32, block, Regs(0x24eba695, 0x9c03e2e8, 0x10c42a2f, 0x4bd0378b))
           == Regs(0x5be1d526, 0xa2448453, 0x9f4a1a7e, 0x9e414279);
    FourOps(36, block, Regs(0x5be1d526, 0xa2448453, 0x9f4a1a7e, 0x9e414279));
    assert Four(36, block, Regs(0x5be1d526, 0xa2448453, 0x9f4a1a7e, 0x9e414279))
           == Regs(0xe14e403d, 0xfe314121, 0x60cc183a, 0xe8cfd670);
    FourOps(40, block, Regs(0xe14e403d, 0xfe314121, 0x60cc183a, 0xe8cfd670));
    assert Four(40, block, Regs(0xe14e403d, 0xfe314121, 0x60cc183a, 0xe8cfd670))
           == Regs(0xfff62809, 0x7c7e974c, 0x8cb5221c, 0xe37209ac);
    FourOps(44, block, Regs(0xfff62809, 0x7c7e974c, 0x8cb5221c, 0xe37209ac));
    assert Four(44, block, Regs(0xfff62809, 0x7c7e974c, 0x8cb5221c, 0xe37209ac))
           == Regs(0x54c9eb3a, 0x79c0710a, 0x2ec86f72, 0xd4d9c6ac);
  }

  lemma SecondSteps4()
    ensures Mix(I(0x79c0710a, 0x2ec86f72, 0xd4d9c6ac), 0x54c9eb3a, 0x79c0710a, 0x00000000, 0xf4292244, 6) == 0x02095af1
    ensures Mix(I(0x02095af1, 0x79c0710a, 0x2ec86f72), 0xd4d9c6ac, 0x02095af1, 0x00000000, 0x432aff97, 10) == 0x13d245fd
    ensures Mix(I(0x13d245fd, 0x02095af1, 0x79c0710a), 0x2ec86f72, 0x13d245fd, 0x000001f0, 0xab9423a7, 15) == 0xa8dcfe26
    ensures Mix(I(0xa8dcfe26, 0x13d245fd, 0x02095af1), 0x79c0710a, 0xa8dcfe26, 0x00000000, 0xfc93a039, 21) == 0x2ba98e3f
    ensures Mix(I(0x2ba98e3f, 0xa8dcfe26, 0x13d245fd), 0x02095af1, 0x2ba98e3f, 0x00000000, 0x655b59c3, 6) == 0xe126c1aa
    ensures Mix(I(0xe126c1aa, 0x2ba98e3f, 0xa8dcfe26), 0x13d245fd, 0xe126c1aa, 0x00000000, 0x8f0ccc92, 10) == 0x96b00fa7
    ensures Mix(I(0x96b00fa7, 0xe126c1aa, 0x2ba98e3f), 0xa8dcfe26, 0x96b00fa7, 0x00000000, 0xffeff47d, 15) == 0x6f287ff5
    ensures Mix(I(0x6f287ff5, 0x96b00fa7, 0xe126c1aa), 0x2ba98e3f, 0x6f287ff5, 0x00000000, 0x85845dd1, 21) == 0xfb7bcee0
    ensures Mix(I(0xfb7bcee0, 0x6f287ff5, 0x96b00fa7), 0xe126c1aa, 0xfb7bcee0, 0x00000000, 0x6fa87e4f, 6) == 0x452c1099
    ensures Mix(I(0x452c1099, 0xfb7bcee0, 0x6f287ff5), 0x96b00fa7, 0x452c1099, 0x00000000, 0xfe2ce6e0, 10) == 0xca801ba6
    ensures Mix(I(0xca801ba6, 0x452c1099, 0xfb7bcee0), 0x6f287ff5, 0xca801ba6, 0x00000000, 0xa3014314, 15) == 0xc197ea8e
    ensures Mix(I(0xc197ea8e, 0xca801ba6, 0x452c1099), 0xfb7bcee0, 0xc197ea8e, 0x00000000, 0x4e0811a1, 21) == 0x5ac74608
    ensures Mix(I(0x5ac74608, 0xc197ea8e, 0xca801ba6), 0x452c1099, 0x5ac74608, 0x00000000, 0xf7537e82, 6) == 0x14ae42c6
    ensures Mix(I(0x14ae42c6, 0x5ac74608, 0xc197ea8e), 0xca801ba6, 0x14ae42c6, 0x00000000, 0xbd3af235, 10) == 0xa52dae75
    ensures Mix(I(0xa52dae75, 0x14ae42c6, 0x5ac74608), 0xc197ea8e, 0xa52dae75, 0x00000000, 0x2ad7d2bb, 15) == 0x826afd76
    ensures Mix(I(0x826afd76, 0xa52dae75, 0x14ae42c6), 0x5ac74608, 0x826afd76, 0x00000000, 0xeb86d391, 21) == 0x16dd9203
  {
  }

  lemma SecondRound4(block: seq<bv8>)
    requires SecondWords(block)
    ensures Round(3, block, Regs(0x54c9eb3a, 0x79c0710a, 0x2ec86f72, 0xd4d9c6ac))
            == Regs(0x14ae42c6, 0x16dd9203, 0x826afd76, 0xa52dae75)
  {
    hide Mix, F, G, H, I, Word, Four, Op, K, S, T;
    Table4();
    SecondSteps4();
    FourOps(48, block, Regs(0x54c9eb3a, 0x79c0710a, 0x2ec86f72, 0xd4d9c6ac));
    assert Four(48, block, Regs(0x54c9eb3a, 0x79c0710a, 0x2ec86f72, 0xd4d9c6ac))
           == Regs(0x02095af1, 0x2ba98e3f, 0xa8dcfe26, 0x13d245fd);
    FourOps(52, block, Regs(0x02095af1, 0x2ba98e3f, 0xa8dcfe26, 0x13d245fd));
    assert Four(52, block, Regs(0x02095af1, 0x2ba98e3f, 0xa8dcfe26, 0x13d245fd))
           == Regs(0xe126c1aa, 0xfb7bcee0, 0x6f287ff5, 0x96b00fa7);
    FourOps(56, block, Regs(0xe126c1aa, 0xfb7bcee0, 0x6f287ff5, 0x96b00fa7));
    assert Four(56, block, Regs(0xe126c1aa, 0xfb7bcee0, 0x6f287ff5, 0x96b00fa7))
           == Regs(0x452c1099, 0x5ac74608, 0xc197ea8e, 0xca801ba6);
    FourOps(60, block, Regs(0x452c1099, 0x5ac74608, 0xc197ea8e, 0xca801ba6));
    assert Four(60, block, Regs(0x452c1099, 0x5ac74608, 0xc197ea8e, 0xca801ba6))
           == Regs(0x14ae42c6, 0x16dd9203, 0x826afd76, 0xa52dae75);
  }

  lemma SecondBlock(block: seq<bv8>)
    requires SecondWords(block)
    ensures Compress(Regs(0x83fd320b, 0xdefbe5cf, 0xa9b1642f, 0xfa6f932a), block)
            == Regs(0x98ab74d1, 0xf5d977d2, 0x2c1c61a5, 0x9f9d419f)
  {
    hide Round, Word;
    SecondRound1(block);
    SecondRound2(block);
    SecondRound3(block);
    SecondRound4(block);
  }

  // ---------- Words, padding and output ----------

  /** Four bytes, low-order byte first. */
  function Joined(b0: bv8, b1: bv8, b2: bv8, b3: bv8): bv32 {
    (b0 as bv32) | ((b1 as bv32) << 8) | ((b2 as bv32) << 16) | ((b3 as bv32) << 24)
  }

  lemma WordIs(block: seq<bv8>, n: nat, b0: bv8, b1: bv8, b2: bv8, b3: bv8)
    requires 4 * n + 4 <= |block|
    requires block[4 * n] == b0 && block[4 * n + 1] == b1 && block[4 * n + 2] == b2 && block[4 * n + 3] == b3
    ensures Word(block, n) == Joined(b0, b1, b2, b3)
  {
  }

  lemma NoBits()
    ensures Joined(0, 0, 0, 0) == 0
  {
  }

  lemma ZeroWords(block: seq<bv8>, lo: nat, hi: nat)
    requires 4 * hi <= |block| && forall k :: 4 * lo <= k < 4 * hi ==> block[k] == 0
    ensures forall n :: lo <= n < hi ==> Word(block, n) == 0
  {
    hide Word, Joined;
    NoBits();
    forall n | lo <= n < hi
      ensures Word(block, n) == 0
    {
      WordIs(block, n, 0, 0, 0, 0);
    }
  }

  lemma EmptyWordsHold()
    ensures EmptyWords(EMPTY_BLOCK)
  {
    hide Word, Joined;
    EmptyValues();
    WordIs(EMPTY_BLOCK, 0, 0x80, 0, 0, 0);
    ZeroWords(EMPTY_BLOCK, 1, 16);
  }

  lemma EmptyValues()
    ensures Joined(0x80, 0, 0, 0) == 0x80
    ensures Joined(0xf0, 1, 0, 0) == 0x1f0
  {
  }

  lemma SecondWordsHold()
    ensures SecondWords(Zeros(56) + [0xf0, 1, 0, 0, 0, 0, 0, 0])
  {
    hide Word, Joined;
    EmptyValues();
    var block := Zeros(56) + [0xf0, 1, 0, 0, 0, 0, 0, 0];
    ZeroWords(block, 0, 14);
    WordIs(block, 14, 0xf0, 1, 0, 0);
    ZeroWords(block, 15, 16);
  }

  lemma FirstValues()
    ensures Joined(0x41, 0x42, 0x43, 0x44) == 0x44434241
    ensures Joined(0x45, 0x46, 0x47, 0x48) == 0x48474645
    ensures Joined(0x49, 0x4a, 0x4b, 0x4c) == 0x4c4b4a49
    ensures Joined(0x4d, 0x4e, 0x4f, 0x50) == 0x504f4e4d
    ensures Joined(0x51, 0x52, 0x53, 0x54) == 0x54535251
    ensures Joined(0x55, 0x56, 0x57, 0x58) == 0x58575655
    ensures Joined(0x59, 0x5a, 0x61, 0x62) == 0x62615a59
    ensures Joined(0x63, 0x64, 0x65, 0x66) == 0x66656463
    ensures Joined(0x67, 0x68, 0x69, 0x6a) == 0x6a696867
    ensures Joined(0x6b, 0x6c, 0x6d, 0x6e) == 0x6e6d6c6b
    ensures Joined(0x6f, 0x70, 0x71, 0x72) == 0x7271706f
    ensures Joined(0x73, 0x74, 0x75, 0x76) == 0x76757473
    ensures Joined(0x77, 0x78, 0x79, 0x7a) == 0x7a797877
    ensures Joined(0x30, 0x31, 0x32, 0x33) == 0x33323130
    ensures Joined(0x34, 0x35, 0x36, 0x37) == 0x37363534
    ensures Joined(0x38, 0x39, 0x80, 0x00) == 0x00803938
  {
  }

  /** The four words in bytes 16 * r to 16 * r + 15 of a block. */
  lemma RowWords(block: seq<bv8>, r: nat, row: seq<bv8>)
    requires 16 * r + 16 <= |block| && |row| == 16 && block[16 * r..16 * r + 16] == row
    ensures Word(block, 4 * r) == Joined(row[0], row[1], row[2], row[3])
    ensures Word(block, 4 * r + 1) == Joined(row[4], row[5], row[6], row[7])
    ensures Word(block, 4 * r + 2) == Joined(row[8], row[9], row[10], row[11])
    ensures Word(block, 4 * r + 3) == Joined(row[12], row[13], row[14], row[15])
  {
    hide Word, Joined;
    forall k | 0 <= k < 16
      ensures block[16 * r + k] == row[k]
    {
      assert block[16 * r..16 * r + 16][k] == block[16 * r + k];
    }
    WordIs(block, 4 * r, row[0], row[1], row[2], row[3]);
    WordIs(block, 4 * r + 1, row[4], row[5], row[6], row[7]);
    WordIs(block, 4 * r + 2, row[8], row[9], row[10], row[11]);
    WordIs(block, 4 * r + 3, row[12], row[13], row[14], row[15]);
  }

  lemma FirstWordsHold()
    ensures FirstWords(ALPHANUMERIC + [0x80, 0])
  {
    hide Word, Joined;
    FirstValues();
    var block := ALPHANUMERIC + [0x80, 0];
    assert block[0..16] == ROW0 && block[16..32] == ROW1 && block[32..48] == ROW2;
    var last := ROW3 + [0x80, 0];
    assert block[48..64] == last;
    RowWords(block, 0, ROW0);
    RowWords(block, 1, ROW1);
    RowWords(block, 2, ROW2);
    RowWords(block, 3, last);
  }

  function Power(k: nat): (p: nat)
    ensures p > 0
  {
    if k == 0 then 1 else 256 * Power(k - 1)
  }

  lemma {:induction false} PowerAdds(j: nat, k: nat)
    ensures Power(j + k) == Power(j) * Power(k)
    decreases j
  {
    if j > 0 {
      PowerAdds(j - 1, k);
      assert 256 * (Power(j - 1) * Power(k)) == 256 * Power(j - 1) * Power(k);
    } else {
      assert 1 * Power(k) == Power(k);
    }
  }

  lemma DivTwice(n: nat, p: nat)
    requires p > 0
    ensures n / 256 / p == n / (256 * p)
  {
    var q := n / 256;
    assert q == q / p * p + q % p;
    assert 256 * (q / p * p) == q / p * (256 * p);
    DivModIs(n, 256 * p, q / p, 256 * (q % p) + n % 256);
  }

  lemma {:induction false} ByteOfTells(n: nat, k: nat)
    ensures ByteOf(n, k) == ToByte(n / Power(k) % 256)
    decreases k
  {
    hide ToByte;
    if k > 0 {
      ByteOfTells(n / 256, k - 1);
      DivTwice(n, Power(k - 1));
    }
  }

  lemma TimesSwap(q: nat, p: nat, c: nat)
    ensures q * (p * c) == q * c * p
  {
  }

  lemma QuotientOf(n: nat, p: nat, c: nat, q: nat, t: nat, u: nat)
    requires u < p && n == q * (p * c) + (t * p + u)
    ensures n / p == q * c + t
  {
    TimesSwap(q, p, c);
    assert (q * c + t) * p == q * c * p + t * p;
    DivModIs(n, p, q * c + t, u);
  }

  lemma LowByteOf(q: nat, r: nat, t: nat)
    ensures (q * (256 * r) + t) % 256 == t % 256
  {
    TimesSwap(q, 256, r);
    DivModIs(q * (256 * r) + t, 256, q * r + t / 256, t % 256);
  }

  lemma Split(n: nat, m: nat)
    requires m > 0
    ensures n == n / m * m + n % m && n % m < m
  {
  }

  /** What is a multiple of 256 * p * r does not show in the byte at p. */
  lemma HighPartDrops(n: nat, m: nat, p: nat, r: nat, d: nat)
    requires p > 0 && m > 0 && m == p * (256 * r) && d == n % m
    ensures d / p % 256 == n / p % 256
  {
    var q := n / m;
    Split(n, m);
    Split(d, p);
    QuotientOf(n, p, 256 * r, q, d / p, d % p);
    LowByteOf(q, r, d / p);
  }

  /** Section 3.2 of RFC 1321: byte k of the last eight is byte k of the bit count, low-order first, for
      messages of any length. */
  lemma LengthBytesTell(len: nat, k: nat)
    requires k < 8
    ensures LengthBytes(len)[k] == ToByte(8 * len / Power(k) % 256)
  {
    hide ByteOf, Power, ToByte;
    var n := 8 * len % 0x1_0000_0000_0000_0000;
    assert LengthBytes(len)[k] == ByteOf(n, k);
    ByteOfTells(n, k);
    EightBytes(k);
    HighPartDrops(8 * len, 0x1_0000_0000_0000_0000, Power(k), Power(7 - k), n);
  }

  lemma EightBytes(k: nat)
    requires k < 8
    ensures Power(k) * (256 * Power(7 - k)) == 0x1_0000_0000_0000_0000
  {
    PowerAdds(k, 8 - k);
    assert Power(2) == 0x1_0000 && Power(4) == 0x1_0000_0000;
    assert Power(6) == 0x1_0000_0000_0000 && Power(8) == 0x1_0000_0000_0000_0000;
  }

  /** Section 3.1: a one bit, then the fewest zero bits that leave eight bytes of a block. */
  lemma PaddingIsShortest(len: nat)
    ensures (len + |Padding(len)|) % 64 == 0 && 9 <= |Padding(len)| < 9 + 64
    ensures Padding(len)[0] == 0x80 && Padding(len)[|Padding(len)| - 8..] == LengthBytes(len)
    ensures forall i :: 0 < i < |Padding(len)| - 8 ==> Padding(len)[i] == 0
  {
    hide LengthBytes;
  }


  lemma ByteValues()
    ensures ToByte(0) == 0 && ToByte(1) == 1 && ToByte(240) == 0xf0
  {
  }

  lemma {:induction false} ByteOfZero(k: nat)
    ensures ByteOf(0, k) == 0
  {
    hide ToByte;
    ByteValues();
    if k > 0 {
      ByteOfZero(k - 1);
    }
  }

  lemma LengthOfNothing()
    ensures LengthBytes(0) == [0, 0, 0, 0, 0, 0, 0, 0]
  {
    hide ByteOf;
    forall k: nat
      ensures ByteOf(0, k) == 0
    {
      ByteOfZero(k);
    }
  }

  lemma Bytes496(k: nat)
    ensures ByteOf(496, k) == if k == 0 then 0xf0 else if k == 1 then 1 else 0
  {
    hide ToByte;
    ByteValues();
    if k >= 2 {
      assert ByteOf(496, k) == ByteOf(1, k - 1) == ByteOf(0, k - 2);
      ByteOfZero(k - 2);
    } else if k == 1 {
      assert ByteOf(496, 1) == ByteOf(1, 0);
    }
  }

  /** 496 bits, low-order byte first. */
  lemma LengthOf62()
    ensures LengthBytes(62) == [0xf0, 1, 0, 0, 0, 0, 0, 0]
  {
    hide ByteOf;
    forall k: nat
      ensures ByteOf(496, k) == if k == 0 then 0xf0 else if k == 1 then 1 else 0
    {
      Bytes496(k);
    }
  }

  lemma EmptyPadded()
    ensures [] + Padding(0) == EMPTY_BLOCK
  {
    hide LengthBytes;
    LengthOfNothing();
  }

  lemma AlphanumericPadded()
    ensures ALPHANUMERIC + Padding(62)
            == (ALPHANUMERIC + [0x80, 0]) + (Zeros(56) + [0xf0, 1, 0, 0, 0, 0, 0, 0])
  {
    hide LengthBytes;
    LengthOf62();
  }

  lemma FoldOne(r: Regs, block: seq<bv8>)
    requires |block| == 64
    ensures Fold(r, block) == Compress(r, block)
  {
    hide Compress;
    assert block[..64] == block && block[64..] == [];
  }

  /** MD5 ("") = d41d8cd98f00b204e9800998ecf8427e */
  lemma EmptyDigest()
    ensures Digest([])
            == [0xd4, 0x1d, 0x8c, 0xd9, 0x8f, 0x00, 0xb2, 0x04,
                0xe9, 0x80, 0x09, 0x98, 0xec, 0xf8, 0x42, 0x7e]
  {
    hide Compress, Fold, Padding, WordBytes, EmptyWords;
    EmptyPadded();
    EmptyWordsHold();
    EmptyBlock(EMPTY_BLOCK);
    FoldOne(INIT_REGS, EMPTY_BLOCK);
    EmptyOutput();
  }

  lemma EmptyOutput()
    ensures WordBytes(0xd98c1dd4) == [0xd4, 0x1d, 0x8c, 0xd9]
    ensures WordBytes(0x04b2008f) == [0x8f, 0x00, 0xb2, 0x04]
    ensures WordBytes(0x980980e9) == [0xe9, 0x80, 0x09, 0x98]
    ensures WordBytes(0x7e42f8ec) == [0xec, 0xf8, 0x42, 0x7e]
  {
  }

  /** MD5 of the 62 letters and digits = d174ab98d277d9f5a5611c2c9f419d9f */
  lemma AlphanumericDigest()
    ensures Digest(ALPHANUMERIC)
            == [0xd1, 0x74, 0xab, 0x98, 0xd2, 0x77, 0xd9, 0xf5,
                0xa5, 0x61, 0x1c, 0x2c, 0x9f, 0x41, 0x9d, 0x9f]
  {
    hide Compress, Fold, Padding, WordBytes, FirstWords, SecondWords;
    AlphanumericPadded();
    var first, second := ALPHANUMERIC + [0x80, 0], Zeros(56) + [0xf0, 1, 0, 0, 0, 0, 0, 0];
    FirstWordsHold();
    SecondWordsHold();
    FirstBlock(first);
    SecondBlock(second);
    FoldOne(INIT_REGS, first);
    FoldOne(Regs(0x83fd320b, 0xdefbe5cf, 0xa9b1642f, 0xfa6f932a), second);
    FoldConcat(INIT_REGS, first, second);
    AlphanumericOutput();
  }

  lemma AlphanumericOutput()
    ensures WordBytes(0x98ab74d1) == [0xd1, 0x74, 0xab, 0x98]
    ensures WordBytes(0xf5d977d2) == [0xd2, 0x77, 0xd9, 0xf5]
    ensures WordBytes(0x2c1c61a5) == [0xa5, 0x61, 0x1c, 0x2c]
    ensures WordBytes(0x9f9d419f) == [0x9f, 0x41, 0x9d, 0x9f]
  {
  }
}
