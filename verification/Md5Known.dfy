/** Two digests of the test suite in appendix A.5 of RFC 1321, worked out operation by operation. */
module Md5Known {
  import opened Basics
  import opened Md5Rounds
  import opened Md5

  /** Operation i of round 1: w, t and n are its word, constant and shift, v is the new value. */
  lemma {:induction false} Do1(i: nat, x: seq<bv32>, a: State, w: bv32, t: bv32, n: bv32, v: bv32)
    requires i < 16 && |x| == 16 && Ops(0, i, INIT, x) == a
    requires x[K1(i)] == w && T1(i) == t && S1(i) == n && n < 32 && Sum(a, F(a.b, a.c, a.d), w, t, n) == v
    ensures Ops(0, i + 1, INIT, x) == State(a.d, v, a.b, a.c)
  {
    hide Sum, F, T1, S1, K1;
  }

  /** Operation i of round 2: w, t and n are its word, constant and shift, v is the new value. */
  lemma {:induction false} Do2(i: nat, x: seq<bv32>, a: State, w: bv32, t: bv32, n: bv32, v: bv32)
    requires i < 16 && |x| == 16 && Ops(0, 16 + i, INIT, x) == a
    requires x[K2(i)] == w && T2(i) == t && S2(i) == n && n < 32 && Sum(a, G(a.b, a.c, a.d), w, t, n) == v
    ensures Ops(0, 17 + i, INIT, x) == State(a.d, v, a.b, a.c)
  {
    hide Sum, G, T2, S2, K2;
  }

  /** Operation i of round 3: w, t and n are its word, constant and shift, v is the new value. */
  lemma {:induction false} Do3(i: nat, x: seq<bv32>, a: State, w: bv32, t: bv32, n: bv32, v: bv32)
    requires i < 16 && |x| == 16 && Ops(0, 32 + i, INIT, x) == a
    requires x[K3(i)] == w && T3(i) == t && S3(i) == n && n < 32 && Sum(a, H(a.b, a.c, a.d), w, t, n) == v
    ensures Ops(0, 33 + i, INIT, x) == State(a.d, v, a.b, a.c)
  {
    hide Sum, H, T3, S3, K3;
  }

  /** Operation i of round 4: w, t and n are its word, constant and shift, v is the new value. */
  lemma {:induction false} Do4(i: nat, x: seq<bv32>, a: State, w: bv32, t: bv32, n: bv32, v: bv32)
    requires i < 16 && |x| == 16 && Ops(0, 48 + i, INIT, x) == a
    requires x[K4(i)] == w && T4(i) == t && S4(i) == n && n < 32 && Sum(a, I(a.b, a.c, a.d), w, t, n) == v
    ensures Ops(0, 49 + i, INIT, x) == State(a.d, v, a.b, a.c)
  {
    hide Sum, I, T4, S4, K4;
  }

  // ----- MD5 ("") -----

  ghost predicate EmptyBlock(x: seq<bv32>) {
    && |x| == 16 && x[0] == 0x80
    && x[1] == x[2] == x[3] == x[4] == x[5] == x[6] == x[7] == 0
    && x[8] == x[9] == x[10] == x[11] == x[12] == x[13] == x[14] == x[15] == 0
  }

  lemma {:induction false} Empty1(x: seq<bv32>)
    requires EmptyBlock(x)
    ensures Ops(0, 16, INIT, x) == State(0xf56c7cf1, 0xd6819c6a, 0x5aa53f75, 0x374943a7)
  {
    hide Ops, T1, S1, K1;
    NoOps(0, INIT, x);
    Table1a();
    Table1b();
    Do1(0, x, State(0x67452301, 0xefcdab89, 0x98badcfe, 0x10325476), 0x80, 0xd76aa478, 7, 0xa5202774);
    Do1(1, x, State(0x10325476, 0xa5202774, 0xefcdab89, 0x98badcfe), 0x0, 0xe8c7b756, 12, 0xf59592dd);
    Do1(2, x, State(0x98badcfe, 0xf59592dd, 0xa5202774, 0xefcdab89), 0x0, 0x242070db, 17, 0xe7f06b23);
    Do1(3, x, State(0xefcdab89, 0xe7f06b23, 0xf59592dd, 0xa5202774), 0x0, 0xc1bdceee, 22, 0x1b163203);
    Do1(4, x, State(0xa5202774, 0x1b163203, 0xe7f06b23, 0xf59592dd), 0x0, 0xf57c0faf, 7, 0x32033344);
    Do1(5, x, State(0xf59592dd, 0x32033344, 0x1b163203, 0xe7f06b23), 0x0, 0x4787c62a, 12, 0x2f35d494);
    Do1(6, x, State(0xe7f06b23, 0x2f35d494, 0x32033344, 0x1b163203), 0x0, 0xa8304613, 17, 0xf5b158db);
    Do1(7, x, State(0x1b163203, 0xf5b158db, 0x2f35d494, 0x32033344), 0x0, 0xfd469501, 22, 0x9bc13ce9);
    Do1(8, x, State(0x32033344, 0x9bc13ce9, 0xf5b158db, 0x2f35d494), 0x0, 0x698098d8, 7, 0x3893b991);
    Do1(9, x, State(0x2f35d494, 0x3893b991, 0x9bc13ce9, 0xf5b158db), 0x0, 0x8b44f7af, 12, 0xfce4a312);
    Do1(10, x, State(0xf5b158db, 0xfce4a312, 0x3893b991, 0x9bc13ce9), 0x0, 0xffff5bb1, 17, 0xe1ef0576);
    Do1(11, x, State(0x9bc13ce9, 0xe1ef0576, 0xfce4a312, 0x3893b991), 0x0, 0x895cd7be, 22, 0x70768a29);
    Do1(12, x, State(0x3893b991, 0x70768a29, 0xe1ef0576, 0xfce4a312), 0x0, 0x6b901122, 7, 0xf56c7cf1);
    Do1(13, x, State(0xfce4a312, 0xf56c7cf1, 0x70768a29, 0xe1ef0576), 0x0, 0xfd987193, 12, 0x374943a7);
    Do1(14, x, State(0xe1ef0576, 0x374943a7, 0xf56c7cf1, 0x70768a29), 0x0, 0xa679438e, 17, 0x5aa53f75);
    Do1(15, x, State(0x70768a29, 0x5aa53f75, 0x374943a7, 0xf56c7cf1), 0x0, 0x49b40821, 22, 0xd6819c6a);
  }

  lemma {:induction false} Empty2(x: seq<bv32>)
    requires EmptyBlock(x)
    requires Ops(0, 16, INIT, x) == State(0xf56c7cf1, 0xd6819c6a, 0x5aa53f75, 0x374943a7)
    ensures Ops(0, 32, INIT, x) == State(0x13707036, 0xa2205f1f, 0x1c31c384, 0xae7813db)
  {
    hide Ops, T2, S2, K2;
    Table2a();
    Table2b();
    Do2(0, x, State(0xf56c7cf1, 0xd6819c6a, 0x5aa53f75, 0x374943a7), 0x0, 0xf61e2562, 5, 0x1c7d7513);
    Do2(1, x, State(0x374943a7, 0x1c7d7513, 0xd6819c6a, 0x5aa53f75), 0x0, 0xc040b340, 9, 0x7bd57a3a);
    Do2(2, x, State(0x5aa53f75, 0x7bd57a3a, 0x1c7d7513, 0xd6819c6a), 0x0, 0x265e5a51, 14, 0xc095f13a);
    Do2(3, x, State(0xd6819c6a, 0xc095f13a, 0x7bd57a3a, 0x1c7d7513), 0x80, 0xe9b6c7aa, 20, 0xbd782e17);
    Do2(4, x, State(0x1c7d7513, 0xbd782e17, 0xc095f13a, 0x7bd57a3a), 0x0, 0xd62f105d, 5, 0x3d1e3e6c);
    Do2(5, x, State(0x7bd57a3a, 0x3d1e3e6c, 0xbd782e17, 0xc095f13a), 0x0, 0x02441453, 9, 0x68b7b3e3);
    Do2(6, x, State(0xc095f13a, 0x68b7b3e3, 0x3d1e3e6c, 0xbd782e17), 0x0, 0xd8a1e681, 14, 0xeb41643e);
    Do2(7, x, State(0xbd782e17, 0xeb41643e, 0x68b7b3e3, 0x3d1e3e6c), 0x0, 0xe7d3fbc8, 20, 0xe422531a);
    Do2(8, x, State(0x3d1e3e6c, 0xe422531a, 0xeb41643e, 0x68b7b3e3), 0x0, 0x21e1cde6, 5, 0x306ec122);
    Do2(9, x, State(0x68b7b3e3, 0x306ec122, 0xe422531a, 0xeb41643e), 0x0, 0xc33707d6, 9, 0xd28c77c2);
    Do2(10, x, State(0xeb41643e, 0xd28c77c2, 0x306ec122, 0xe422531a), 0x0, 0xf4d50d87, 14, 0xa3c663da);
    Do2(11, x, State(0xe422531a, 0xa3c663da, 0xd28c77c2, 0x306ec122), 0x0, 0x455a14ed, 20, 0xa0572807);
    Do2(12, x, State(0x306ec122, 0xa0572807, 0xa3c663da, 0xd28c77c2), 0x0, 0xa9e3e905, 5, 0x13707036);
    Do2(13, x, State(0xd28c77c2, 0x13707036, 0xa0572807, 0xa3c663da), 0x0, 0xfcefa3f8, 9, 0xae7813db);
    Do2(14, x, State(0xa3c663da, 0xae7813db, 0x13707036, 0xa0572807), 0x0, 0x676f02d9, 14, 0x1c31c384);
    Do2(15, x, State(0xa0572807, 0x1c31c384, 0xae7813db, 0x13707036), 0x0, 0x8d2a4c8a, 20, 0xa2205f1f);
  }

  lemma {:induction false} Empty3(x: seq<bv32>)
    requires EmptyBlock(x)
    requires Ops(0, 32, INIT, x) == State(0x13707036, 0xa2205f1f, 0x1c31c384, 0xae7813db)
    ensures Ops(0, 48, INIT, x) == State(0x3f55edfd, 0xca7d2dbd, 0x68d84ea2, 0x22a31f54)
  {
    hide Ops, T3, S3, K3;
    Table3a();
    Table3b();
    Do3(0, x, State(0x13707036, 0xa2205f1f, 0x1c31c384, 0xae7813db), 0x0, 0xfffa3942, 4, 0xdf63eaa1);
    Do3(1, x, State(0xae7813db, 0xdf63eaa1, 0xa2205f1f, 0x1c31c384), 0x0, 0x8771f681, 11, 0xc3689f5b);
    Do3(2, x, State(0x1c31c384, 0xc3689f5b, 0xdf63eaa1, 0xa2205f1f), 0x0, 0x6d9d6122, 16, 0x12f3e755);
    Do3(3, x, State(0xa2205f1f, 0x12f3e755, 0xc3689f5b, 0xdf63eaa1), 0x0, 0xfde5380c, 23, 0x004b6669);
    Do3(4, x, State(0xdf63eaa1, 0x004b6669, 0x12f3e755, 0xc3689f5b), 0x0, 0xa4beea44, 4, 0x5f7a9b2e);
    Do3(5, x, State(0xc3689f5b, 0x5f7a9b2e, 0x004b6669, 0x12f3e755), 0x0, 0x4bdecfa9, 11, 0xabc34e16);
    Do3(6, x, State(0x12f3e755, 0xabc34e16, 0x5f7a9b2e, 0x004b6669), 0x0, 0xf6bb4b60, 16, 0x91ca4cb7);
    Do3(7, x, State(0x004b6669, 0x91ca4cb7, 0xabc34e16, 0x5f7a9b2e), 0x0, 0xbebfbc70, 23, 0xc5dc8c15);
    Do3(8, x, State(0x5f7a9b2e, 0xc5dc8c15, 0x91ca4cb7, 0xabc34e16), 0x0, 0x289b7ec6, 4, 0x4497169d);
    Do3(9, x, State(0xabc34e16, 0x4497169d, 0xc5dc8c15, 0x91ca4cb7), 0x80, 0xeaa127fa, 11, 0x76fd93d4);
    Do3(10, x, State(0x91ca4cb7, 0x76fd93d4, 0x4497169d, 0xc5dc8c15), 0x0, 0xd4ef3085, 16, 0xfd95f243);
    Do3(11, x, State(0xc5dc8c15, 0xfd95f243, 0x76fd93d4, 0x4497169d), 0x0, 0x04881d05, 23, 0x0fe32453);
    Do3(12, x, State(0x4497169d, 0x0fe32453, 0xfd95f243, 0x76fd93d4), 0x0, 0xd9d4d039, 4, 0x3f55edfd);
    Do3(13, x, State(0x76fd93d4, 0x3f55edfd, 0x0fe32453, 0xfd95f243), 0x0, 0xe6db99e5, 11, 0x22a31f54);
    Do3(14, x, State(0xfd95f243, 0x22a31f54, 0x3f55edfd, 0x0fe32453), 0x0, 0x1fa27cf8, 16, 0x68d84ea2);
    Do3(15, x, State(0x0fe32453, 0x68d84ea2, 0x22a31f54, 0x3f55edfd), 0x0, 0xc4ac5665, 23, 0xca7d2dbd);
  }

  lemma {:induction false} Empty4(x: seq<bv32>)
    requires EmptyBlock(x)
    requires Ops(0, 48, INIT, x) == State(0x3f55edfd, 0xca7d2dbd, 0x68d84ea2, 0x22a31f54)
    ensures Ops(0, 64, INIT, x) == State(0x7246fad3, 0x14e45506, 0xff4ea3eb, 0x6e10a476)
  {
    hide Ops, T4, S4, K4;
    Table4a();
    Table4b();
    Do4(0, x, State(0x3f55edfd, 0xca7d2dbd, 0x68d84ea2, 0x22a31f54), 0x80, 0xf4292244, 6, 0x93aa2577);
    Do4(1, x, State(0x22a31f54, 0x93aa2577, 0xca7d2dbd, 0x68d84ea2), 0x0, 0x432aff97, 10, 0x1688dc85);
    Do4(2, x, State(0x68d84ea2, 0x1688dc85, 0x93aa2577, 0xca7d2dbd), 0x0, 0xab9423a7, 15, 0xcd85b8cb);
    Do4(3, x, State(0xca7d2dbd, 0xcd85b8cb, 0x1688dc85, 0x93aa2577), 0x0, 0xfc93a039, 21, 0x561e0689);
    Do4(4, x, State(0x93aa2577, 0x561e0689, 0xcd85b8cb, 0x1688dc85), 0x0, 0x655b59c3, 6, 0x5625a114);
    Do4(5, x, State(0x1688dc85, 0x5625a114, 0x561e0689, 0xcd85b8cb), 0x0, 0x8f0ccc92, 10, 0x3450f42b);
    Do4(6, x, State(0xcd85b8cb, 0x3450f42b, 0x5625a114, 0x561e0689), 0x0, 0xffeff47d, 15, 0x392ad0d0);
    Do4(7, x, State(0x561e0689, 0x392ad0d0, 0x3450f42b, 0x5625a114), 0x0, 0x85845dd1, 21, 0x1e77fa61);
    Do4(8, x, State(0x5625a114, 0x1e77fa61, 0x392ad0d0, 0x3450f42b), 0x0, 0x6fa87e4f, 6, 0x474a9c8c);
    Do4(9, x, State(0x3450f42b, 0x474a9c8c, 0x1e77fa61, 0x392ad0d0), 0x0, 0xfe2ce6e0, 10, 0xdfce00bc);
    Do4(10, x, State(0x392ad0d0, 0xdfce00bc, 0x474a9c8c, 0x1e77fa61), 0x0, 0xa3014314, 15, 0x36594b14);
    Do4(11, x, State(0x1e77fa61, 0x36594b14, 0xdfce00bc, 0x474a9c8c), 0x0, 0x4e0811a1, 21, 0x30130182);
    Do4(12, x, State(0x474a9c8c, 0x30130182, 0x36594b14, 0xdfce00bc), 0x0, 0xf7537e82, 6, 0x7246fad3);
    Do4(13, x, State(0xdfce00bc, 0x7246fad3, 0x30130182, 0x36594b14), 0x0, 0xbd3af235, 10, 0x6e10a476);
    Do4(14, x, State(0x36594b14, 0x6e10a476, 0x7246fad3, 0x30130182), 0x0, 0x2ad7d2bb, 15, 0xff4ea3eb);
    Do4(15, x, State(0x30130182, 0xff4ea3eb, 0x6e10a476, 0x7246fad3), 0x0, 0xeb86d391, 21, 0x14e45506);
  }

  lemma EmptyFirst(b: seq<byte>)
    requires |b| == 64 && b[0] == 128 && b[1] == b[2] == b[3] == 0
    ensures Word(b, 0) == 0x80
  {
  }

  lemma {:induction false} EmptyPadded()
    ensures var b := Pad([]);
            |b| == 64 && b[0] == 128 && forall i :: 1 <= i < 64 ==> b[i] == 0
  {
    assert Bytes4(0) == [0, 0, 0, 0] && Bytes4(0) == [0, 0, 0, 0];
  }

  lemma {:induction false} EmptyWords(b: seq<byte>)
    requires |b| == 64 && b[0] == 128 && forall i :: 1 <= i < 64 ==> b[i] == 0
    ensures EmptyBlock(Words(b))
  {
    hide Word;
    EmptyFirst(b);
    forall n | 1 <= n < 16 ensures Word(b, n) == 0 { ZeroWord(b, n); }
  }

  lemma {:induction false} EmptyOut()
    ensures Out(Add(INIT, State(0x7246fad3, 0x14e45506, 0xff4ea3eb, 0x6e10a476)))
            == [0xd4, 0x1d, 0x8c, 0xd9, 0x8f, 0x00, 0xb2, 0x04, 0xe9, 0x80, 0x09, 0x98, 0xec, 0xf8, 0x42, 0x7e]
  {
    var s := Add(INIT, State(0x7246fad3, 0x14e45506, 0xff4ea3eb, 0x6e10a476));
    assert s == State(0xd98c1dd4, 0x04b2008f, 0x980980e9, 0x7e42f8ec);
    assert Bytes4(s.a as int) == [0xd4, 0x1d, 0x8c, 0xd9];
    assert Bytes4(s.b as int) == [0x8f, 0x00, 0xb2, 0x04];
    assert Bytes4(s.c as int) == [0xe9, 0x80, 0x09, 0x98];
    assert Bytes4(s.d as int) == [0xec, 0xf8, 0x42, 0x7e];
  }

  lemma {:induction false} Empty()
    ensures Digest([])
            == [0xd4, 0x1d, 0x8c, 0xd9, 0x8f, 0x00, 0xb2, 0x04, 0xe9, 0x80, 0x09, 0x98, 0xec, 0xf8, 0x42, 0x7e]
  {
    hide Ops, Pad, Out, Words, EmptyBlock;
    EmptyPadded();
    var x := Words(Pad([]));
    EmptyWords(Pad([]));
    Empty1(x);
    Empty2(x);
    Empty3(x);
    Empty4(x);
    OneBlock([]);
    EmptyOut();
  }

  // ----- MD5 ("abc") -----

  ghost predicate AbcBlock(x: seq<bv32>) {
    && |x| == 16 && x[0] == 0x80636261 && x[14] == 0x18
    && x[1] == x[2] == x[3] == x[4] == x[5] == x[6] == x[7] == 0
    && x[8] == x[9] == x[10] == x[11] == x[12] == x[13] == x[15] == 0
  }

  lemma {:induction false} Abc1(x: seq<bv32>)
    requires AbcBlock(x)
    ensures Ops(0, 16, INIT, x) == State(0xdda9b9a6, 0x72aff2e0, 0xe396856b, 0xa1051895)
  {
    hide Ops, T1, S1, K1;
    NoOps(0, INIT, x);
    Table1a();
    Table1b();
    Do1(0, x, State(0x67452301, 0xefcdab89, 0x98badcfe, 0x10325476), 0x80636261, 0xd76aa478, 7, 0xd6d117b4);
    Do1(1, x, State(0x10325476, 0xd6d117b4, 0xefcdab89, 0x98badcfe), 0x0, 0xe8c7b756, 12, 0x344a8432);
    Do1(2, x, State(0x98badcfe, 0x344a8432, 0xd6d117b4, 0xefcdab89), 0x0, 0x242070db, 17, 0x2f6fbd72);
    Do1(3, x, State(0xefcdab89, 0x2f6fbd72, 0x344a8432, 0xd6d117b4), 0x0, 0xc1bdceee, 22, 0x7ad956f2);
    Do1(4, x, State(0xd6d117b4, 0x7ad956f2, 0x2f6fbd72, 0x344a8432), 0x0, 0xf57c0faf, 7, 0xc73741ef);
    Do1(5, x, State(0x344a8432, 0xc73741ef, 0x7ad956f2, 0x2f6fbd72), 0x0, 0x4787c62a, 12, 0x8bac3051);
    Do1(6, x, State(0x2f6fbd72, 0x8bac3051, 0xc73741ef, 0x7ad956f2), 0x0, 0xa8304613, 17, 0x207dc67b);
    Do1(7, x, State(0x7ad956f2, 0x207dc67b, 0x8bac3051, 0xc73741ef), 0x0, 0xfd469501, 22, 0x928d99f6);
    Do1(8, x, State(0xc73741ef, 0x928d99f6, 0x207dc67b, 0x8bac3051), 0x0, 0x698098d8, 7, 0x854b3712);
    Do1(9, x, State(0x8bac3051, 0x854b3712, 0x928d99f6, 0x207dc67b), 0x0, 0x8b44f7af, 12, 0x74e2f284);
    Do1(10, x, State(0x207dc67b, 0x74e2f284, 0x854b3712, 0x928d99f6), 0x0, 0xffff5bb1, 17, 0x3020401c);
    Do1(11, x, State(0x928d99f6, 0x3020401c, 0x74e2f284, 0x854b3712), 0x0, 0x895cd7be, 22, 0x5ed49596);
    Do1(12, x, State(0x854b3712, 0x5ed49596, 0x3020401c, 0x74e2f284), 0x0, 0x6b901122, 7, 0xdda9b9a6);
    Do1(13, x, State(0x74e2f284, 0xdda9b9a6, 0x5ed49596, 0x3020401c), 0x0, 0xfd987193, 12, 0xa1051895);
    Do1(14, x, State(0x3020401c, 0xa1051895, 0xdda9b9a6, 0x5ed49596), 0x18, 0xa679438e, 17, 0xe396856b);
    Do1(15, x, State(0x5ed49596, 0xe396856b, 0xa1051895, 0xdda9b9a6), 0x0, 0x49b40821, 22, 0x72aff2e0);
  }

  lemma {:induction false} Abc2(x: seq<bv32>)
    requires AbcBlock(x)
    requires Ops(0, 16, INIT, x) == State(0xdda9b9a6, 0x72aff2e0, 0xe396856b, 0xa1051895)
    ensures Ops(0, 32, INIT, x) == State(0x790a77fb, 0x726342d3, 0xa62884aa, 0x9f47e4f8)
  {
    hide Ops, T2, S2, K2;
    Table2a();
    Table2b();
    Do2(0, x, State(0xdda9b9a6, 0x72aff2e0, 0xe396856b, 0xa1051895), 0x0, 0xf61e2562, 5, 0x3e9e9126);
    Do2(1, x, State(0xa1051895, 0x3e9e9126, 0x72aff2e0, 0xe396856b), 0x0, 0xc040b340, 9, 0x4a1d804e);
    Do2(2, x, State(0xe396856b, 0x4a1d804e, 0x3e9e9126, 0x72aff2e0), 0x0, 0x265e5a51, 14, 0xe25e1652);
    Do2(3, x, State(0x72aff2e0, 0xe25e1652, 0x4a1d804e, 0x3e9e9126), 0x80636261, 0xe9b6c7aa, 20, 0xb5b204e4);
    Do2(4, x, State(0x3e9e9126, 0xb5b204e4, 0xe25e1652, 0x4a1d804e), 0x0, 0xd62f105d, 5, 0x59a8ffda);
    Do2(5, x, State(0x4a1d804e, 0x59a8ffda, 0xb5b204e4, 0xe25e1652), 0x0, 0x02441453, 9, 0x6d002f1e);
    Do2(6, x, State(0xe25e1652, 0x6d002f1e, 0x59a8ffda, 0xb5b204e4), 0x0, 0xd8a1e681, 14, 0xabfc7920);
    Do2(7, x, State(0xb5b204e4, 0xabfc7920, 0x6d002f1e, 0x59a8ffda), 0x0, 0xe7d3fbc8, 20, 0x47092c07);
    Do2(8, x, State(0x59a8ffda, 0x47092c07, 0xabfc7920, 0x6d002f1e), 0x0, 0x21e1cde6, 5, 0xb7f268cf);
    Do2(9, x, State(0x6d002f1e, 0xb7f268cf, 0x47092c07, 0xabfc7920), 0x18, 0xc33707d6, 9, 0x09388eff);
    Do2(10, x, State(0xabfc7920, 0x09388eff, 0xb7f268cf, 0x47092c07), 0x0, 0xf4d50d87, 14, 0xfe1623b1);
    Do2(11, x, State(0x47092c07, 0xfe1623b1, 0x09388eff, 0xb7f268cf), 0x0, 0x455a14ed, 20, 0x786acb8f);
    Do2(12, x, State(0xb7f268cf, 0x786acb8f, 0xfe1623b1, 0x09388eff), 0x0, 0xa9e3e905, 5, 0x790a77fb);
    Do2(13, x, State(0x09388eff, 0x790a77fb, 0x786acb8f, 0xfe1623b1), 0x0, 0xfcefa3f8, 9, 0x9f47e4f8);
    Do2(14, x, State(0xfe1623b1, 0x9f47e4f8, 0x790a77fb, 0x786acb8f), 0x0, 0x676f02d9, 14, 0xa62884aa);
    Do2(15, x, State(0x786acb8f, 0xa62884aa, 0x9f47e4f8, 0x790a77fb), 0x0, 0x8d2a4c8a, 20, 0x726342d3);
  }

  lemma {:induction false} Abc3(x: seq<bv32>)
    requires AbcBlock(x)
    requires Ops(0, 32, INIT, x) == State(0x790a77fb, 0x726342d3, 0xa62884aa, 0x9f47e4f8)
    ensures Ops(0, 48, INIT, x) == State(0x7f2e507b, 0x7beb9700, 0x8fae6399, 0x99d9679d)
  {
    hide Ops, T3, S3, K3;
    Table3a();
    Table3b();
    Do3(0, x, State(0x790a77fb, 0x726342d3, 0xa62884aa, 0x9f47e4f8), 0x0, 0xfffa3942, 4, 0xb3707ebf);
    Do3(1, x, State(0x9f47e4f8, 0xb3707ebf, 0x726342d3, 0xa62884aa), 0x0, 0x8771f681, 11, 0x60127b2e);
    Do3(2, x, State(0xa62884aa, 0x60127b2e, 0xb3707ebf, 0x726342d3), 0x0, 0x6d9d6122, 16, 0x8d212ff5);
    Do3(3, x, State(0x726342d3, 0x8d212ff5, 0x60127b2e, 0xb3707ebf), 0x18, 0xfde5380c, 23, 0x3b0875c7);
    Do3(4, x, State(0xb3707ebf, 0x3b0875c7, 0x8d212ff5, 0x60127b2e), 0x0, 0xa4beea44, 4, 0x21b117b9);
    Do3(5, x, State(0x60127b2e, 0x21b117b9, 0x3b0875c7, 0x8d212ff5), 0x0, 0x4bdecfa9, 11, 0x6e7429d5);
    Do3(6, x, State(0x8d212ff5, 0x6e7429d5, 0x21b117b9, 0x3b0875c7), 0x0, 0xf6bb4b60, 16, 0x3575227e);
    Do3(7, x, State(0x3b0875c7, 0x3575227e, 0x6e7429d5, 0x21b117b9), 0x0, 0xbebfbc70, 23, 0x5a2f5ea5);
    Do3(8, x, State(0x21b117b9, 0x5a2f5ea5, 0x3575227e, 0x6e7429d5), 0x0, 0x289b7ec6, 4, 0x11de1779);
    Do3(9, x, State(0x6e7429d5, 0x11de1779, 0x5a2f5ea5, 0x3575227e), 0x80636261, 0xeaa127fa, 11, 0xfadcaa38);
    Do3(10, x, State(0x3575227e, 0xfadcaa38, 0x11de1779, 0x5a2f5ea5), 0x0, 0xd4ef3085, 16, 0x31c465ca);
    Do3(11, x, State(0x5a2f5ea5, 0x31c465ca, 0xfadcaa38, 0x11de1779), 0x0, 0x04881d05, 23, 0x4c6124f4);
    Do3(12, x, State(0x11de1779, 0x4c6124f4, 0x31c465ca, 0xfadcaa38), 0x0, 0xd9d4d039, 4, 0x7f2e507b);
    Do3(13, x, State(0xfadcaa38, 0x7f2e507b, 0x4c6124f4, 0x31c465ca), 0x0, 0xe6db99e5, 11, 0x99d9679d);
    Do3(14, x, State(0x31c465ca, 0x99d9679d, 0x7f2e507b, 0x4c6124f4), 0x0, 0x1fa27cf8, 16, 0x8fae6399);
    Do3(15, x, State(0x4c6124f4, 0x8fae6399, 0x99d9679d, 0x7f2e507b), 0x0, 0xc4ac5665, 23, 0x7beb9700);
  }

  lemma {:induction false} Abc4(x: seq<bv32>)
    requires AbcBlock(x)
    requires Ops(0, 48, INIT, x) == State(0x7f2e507b, 0x7beb9700, 0x8fae6399, 0x99d9679d)
    ensures Ops(0, 64, INIT, x) == State(0x310ade8f, 0xc08226b3, 0xe484b9d8, 0x624d8cb2)
  {
    hide Ops, T4, S4, K4;
    Table4a();
    Table4b();
    Do4(0, x, State(0x7f2e507b, 0x7beb9700, 0x8fae6399, 0x99d9679d), 0x80636261, 0xf4292244, 6, 0x7b201df8);
    Do4(1, x, State(0x99d9679d, 0x7b201df8, 0x7beb9700, 0x8fae6399), 0x0, 0x432aff97, 10, 0xf4e8e96e);
    Do4(2, x, State(0x8fae6399, 0xf4e8e96e, 0x7b201df8, 0x7beb9700), 0x18, 0xab9423a7, 15, 0xb298cefd);
    Do4(3, x, State(0x7beb9700, 0xb298cefd, 0xf4e8e96e, 0x7b201df8), 0x0, 0xfc93a039, 21, 0x8bf025c4);
    Do4(4, x, State(0x7b201df8, 0x8bf025c4, 0xb298cefd, 0xf4e8e96e), 0x0, 0x655b59c3, 6, 0x06cc5e8a);
    Do4(5, x, State(0xf4e8e96e, 0x06cc5e8a, 0x8bf025c4, 0xb298cefd), 0x0, 0x8f0ccc92, 10, 0x5b0d97aa);
    Do4(6, x, State(0xb298cefd, 0x5b0d97aa, 0x06cc5e8a, 0x8bf025c4), 0x0, 0xffeff47d, 15, 0x7d632dd0);
    Do4(7, x, State(0x8bf025c4, 0x7d632dd0, 0x5b0d97aa, 0x06cc5e8a), 0x0, 0x85845dd1, 21, 0x3bfa2c27);
    Do4(8, x, State(0x06cc5e8a, 0x3bfa2c27, 0x7d632dd0, 0x5b0d97aa), 0x0, 0x6fa87e4f, 6, 0x7f81cc35);
    Do4(9, x, State(0x5b0d97aa, 0x7f81cc35, 0x3bfa2c27, 0x7d632dd0), 0x0, 0xfe2ce6e0, 10, 0x094454ab);
    Do4(10, x, State(0x7d632dd0, 0x094454ab, 0x7f81cc35, 0x3bfa2c27), 0x0, 0xa3014314, 15, 0x4f9dbe3f);
    Do4(11, x, State(0x3bfa2c27, 0x4f9dbe3f, 0x094454ab, 0x7f81cc35), 0x0, 0x4e0811a1, 21, 0x7327d604);
    Do4(12, x, State(0x7f81cc35, 0x7327d604, 0x4f9dbe3f, 0x094454ab), 0x0, 0xf7537e82, 6, 0x310ade8f);
    Do4(13, x, State(0x094454ab, 0x310ade8f, 0x7327d604, 0x4f9dbe3f), 0x0, 0xbd3af235, 10, 0x624d8cb2);
    Do4(14, x, State(0x4f9dbe3f, 0x624d8cb2, 0x310ade8f, 0x7327d604), 0x0, 0x2ad7d2bb, 15, 0xe484b9d8);
    Do4(15, x, State(0x7327d604, 0xe484b9d8, 0x624d8cb2, 0x310ade8f), 0x0, 0xeb86d391, 21, 0xc08226b3);
  }

  lemma AbcFirst(b: seq<byte>)
    requires |b| == 64 && b[0] == 97 && b[1] == 98 && b[2] == 99 && b[3] == 128
    ensures Word(b, 0) == 0x80636261
  {
    hide Word;
    WordIs(b, 0, 0x80636261);
  }

  lemma WordIs(b: seq<byte>, n: nat, v: bv32)
    requires |b| == 64 && n < 16
    requires v as int == b[4 * n] as int + 0x100 * b[4 * n + 1] as int + 0x1_0000 * b[4 * n + 2] as int
                         + 0x100_0000 * b[4 * n + 3] as int
    ensures Word(b, n) == v
  {
    assert (v as int) as bv32 == v;
  }

  lemma AbcLength(b: seq<byte>)
    requires |b| == 64 && b[56] == 24 && b[57] == b[58] == b[59] == 0
    ensures Word(b, 14) == 0x18
  {
  }

  lemma {:induction false} AbcPadded()
    ensures var b := Pad([97, 98, 99]);
            |b| == 64 && b[0] == 97 && b[1] == 98 && b[2] == 99 && b[3] == 128 && b[56] == 24
            && forall i :: 4 <= i < 64 && i != 56 ==> b[i] == 0
  {
    assert Bytes4(24) == [24, 0, 0, 0] && Bytes4(0) == [0, 0, 0, 0];
  }

  lemma {:induction false} AbcWords(b: seq<byte>)
    requires |b| == 64 && b[0] == 97 && b[1] == 98 && b[2] == 99 && b[3] == 128 && b[56] == 24
            && forall i :: 4 <= i < 64 && i != 56 ==> b[i] == 0
    ensures AbcBlock(Words(b))
  {
    hide Word;
    AbcFirst(b);
    AbcLength(b);
    forall n | 1 <= n < 16 && n != 14 ensures Word(b, n) == 0 { ZeroWord(b, n); }
  }

  lemma {:induction false} AbcOut()
    ensures Out(Add(INIT, State(0x310ade8f, 0xc08226b3, 0xe484b9d8, 0x624d8cb2)))
            == [0x90, 0x01, 0x50, 0x98, 0x3c, 0xd2, 0x4f, 0xb0, 0xd6, 0x96, 0x3f, 0x7d, 0x28, 0xe1, 0x7f, 0x72]
  {
    var s := Add(INIT, State(0x310ade8f, 0xc08226b3, 0xe484b9d8, 0x624d8cb2));
    assert s == State(0x98500190, 0xb04fd23c, 0x7d3f96d6, 0x727fe128);
    assert Bytes4(s.a as int) == [0x90, 0x01, 0x50, 0x98];
    assert Bytes4(s.b as int) == [0x3c, 0xd2, 0x4f, 0xb0];
    assert Bytes4(s.c as int) == [0xd6, 0x96, 0x3f, 0x7d];
    assert Bytes4(s.d as int) == [0x28, 0xe1, 0x7f, 0x72];
  }

  lemma {:induction false} Abc()
    ensures Digest([97, 98, 99])
            == [0x90, 0x01, 0x50, 0x98, 0x3c, 0xd2, 0x4f, 0xb0, 0xd6, 0x96, 0x3f, 0x7d, 0x28, 0xe1, 0x7f, 0x72]
  {
    hide Ops, Pad, Out, Words, AbcBlock;
    AbcPadded();
    var x := Words(Pad([97, 98, 99]));
    AbcWords(Pad([97, 98, 99]));
    Abc1(x);
    Abc2(x);
    Abc3(x);
    Abc4(x);
    OneBlock([97, 98, 99]);
    AbcOut();
  }

  lemma ZeroWord(b: seq<byte>, n: nat)
    requires |b| == 64 && n < 16 && b[4 * n] == b[4 * n + 1] == b[4 * n + 2] == b[4 * n + 3] == 0
    ensures Word(b, n) == 0
  {
  }

  /** A message of one block */
  lemma {:induction false} OneBlock(m: seq<byte>)
    requires |Pad(m)| == 64
    ensures Digest(m) == Out(Add(INIT, Ops(0, 64, INIT, Words(Pad(m)))))
  {
    hide Ops, Pad, Out, Words, Add;
    var b := Pad(m);
    assert b[..64] == b && b[64..] == [];
    FoldNone(Compress(INIT, b));
  }
}
