/**
  Two values of the test suite in appendix A.5 of RFC 1321, worked out step by step.

  `Md5.Digest` gives them, so that its tables, auxiliary functions and byte orders are those of the
  standard; and `Md5.DigestOfPieces` takes them over to the code.
*/
module Md5Values {
  import opened Md5

  /** One step on known registers: the word of the block, the shift amount, and the new register. */
  lemma Follow(q: Quad, x: seq<bv32>, round: nat, n: nat, p: Quad, w: bv32, s: nat, b: bv32)
    requires |x| == 16 && round < 4 && n < 16 && s < 32 && Steps(q, x, round, n) == p
    requires Table(round, n).k < 16 && x[Table(round, n).k] == w && Table(round, n).s == s
    requires Operation(Auxiliary(round, p.b, p.c, p.d), p.a, p.b, w, s, Table(round, n).t) == b
    ensures Steps(q, x, round, n + 1) == Quad(p.d, b, p.b, p.c)
  {
    hide Table;
  }

  /** The padded block of a message of a few bytes. */
  lemma ShortPadded(m: seq<byte>)
    requires |m| < 4
    ensures var p := Padded(m);
      && |p| == 64 && p[..|m|] == m && p[|m|] == 0x80 && (forall i :: |m| < i < 56 ==> p[i] == 0)
      && p[56] == (8 * |m|) as byte && forall i :: 57 <= i < 64 ==> p[i] == 0
  {
    var n, padding := |m|, Padding(|m|);
    ShortLength(n);
    ShortPadding(n);
    hide Padding, Length;
    assert Padded(m) == m + padding + Length(n);
    Joined(m, padding, Length(n));
  }

  lemma Joined(a: seq<byte>, b: seq<byte>, c: seq<byte>)
    ensures var s := a + b + c;
      && |s| == |a| + |b| + |c| && s[..|a|] == a
      && (forall i :: |a| <= i < |a| + |b| ==> s[i] == b[i - |a|])
      && forall i :: |a| + |b| <= i < |s| ==> s[i] == c[i - |a| - |b|]
  {
  }

  lemma ShortPadding(n: nat)
    requires n < 4
    ensures |Padding(n)| == 56 - n && Padding(n)[0] == 0x80 && forall i :: 1 <= i < 56 - n ==> Padding(n)[i] == 0
  {
    assert n % 64 == n;
  }

  lemma ShortLength(n: nat)
    requires n < 4
    ensures Length(n) == [(8 * n) as byte, 0, 0, 0, 0, 0, 0, 0]
  {
    assert 8 * n % 0x1_0000_0000_0000_0000 == 8 * n;
    assert 8 * n / 0x1_0000_0000 == 0;
    hide Bytes, WordOfNumber;
    SmallBytes(8 * n);
    SmallBytes(0);
  }

  lemma WordsOfLengths()
    ensures WordOfNumber(0) == 0 && WordOfNumber(8) == 8 && WordOfNumber(16) == 16 && WordOfNumber(24) == 24
  {
  }

  lemma BytesOfLengths()
    ensures Bytes(0) == [0, 0, 0, 0] && Bytes(8) == [8, 0, 0, 0]
    ensures Bytes(16) == [16, 0, 0, 0] && Bytes(24) == [24, 0, 0, 0]
  {
  }

  lemma SmallBytes(n: nat)
    requires n in {0, 8, 16, 24}
    ensures Bytes(WordOfNumber(n)) == [n as byte, 0, 0, 0]
  {
    hide Bytes, WordOfNumber;
    WordsOfLengths();
    BytesOfLengths();
  }

  // ----- the empty message

  /** The one block of the empty message, padded. */
  const EMPTY: seq<bv32> := [0x80, 0x0, 0x0, 0x0, 0x0, 0x0, 0x0, 0x0, 0x0, 0x0, 0x0, 0x0, 0x0, 0x0, 0x0, 0x0]

  lemma EmptyRound1To4(q: Quad, x: seq<bv32>)
    requires q == Quad(0x67452301, 0xefcdab89, 0x98badcfe, 0x10325476) && x == EMPTY
    ensures Steps(q, x, 0, 4) == Quad(0xa5202774, 0x1b163203, 0xe7f06b23, 0xf59592dd)
  {
    hide Steps;
    NoSteps(q, x, 0);
    Follow(q, x, 0, 0, Quad(0x67452301, 0xefcdab89, 0x98badcfe, 0x10325476), 0x80, 7, 0xa5202774);
    Follow(q, x, 0, 1, Quad(0x10325476, 0xa5202774, 0xefcdab89, 0x98badcfe), 0x0, 12, 0xf59592dd);
    Follow(q, x, 0, 2, Quad(0x98badcfe, 0xf59592dd, 0xa5202774, 0xefcdab89), 0x0, 17, 0xe7f06b23);
    Follow(q, x, 0, 3, Quad(0xefcdab89, 0xe7f06b23, 0xf59592dd, 0xa5202774), 0x0, 22, 0x1b163203);
  }

  lemma EmptyRound1To8(q: Quad, x: seq<bv32>)
    requires q == Quad(0x67452301, 0xefcdab89, 0x98badcfe, 0x10325476) && x == EMPTY
    ensures Steps(q, x, 0, 8) == Quad(0x32033344, 0x9bc13ce9, 0xf5b158db, 0x2f35d494)
  {
    hide Steps;
    EmptyRound1To4(q, x);
    Follow(q, x, 0, 4, Quad(0xa5202774, 0x1b163203, 0xe7f06b23, 0xf59592dd), 0x0, 7, 0x32033344);
    Follow(q, x, 0, 5, Quad(0xf59592dd, 0x32033344, 0x1b163203, 0xe7f06b23), 0x0, 12, 0x2f35d494);
    Follow(q, x, 0, 6, Quad(0xe7f06b23, 0x2f35d494, 0x32033344, 0x1b163203), 0x0, 17, 0xf5b158db);
    Follow(q, x, 0, 7, Quad(0x1b163203, 0xf5b158db, 0x2f35d494, 0x32033344), 0x0, 22, 0x9bc13ce9);
  }

  lemma EmptyRound1To12(q: Quad, x: seq<bv32>)
    requires q == Quad(0x67452301, 0xefcdab89, 0x98badcfe, 0x10325476) && x == EMPTY
    ensures Steps(q, x, 0, 12) == Quad(0x3893b991, 0x70768a29, 0xe1ef0576, 0xfce4a312)
  {
    hide Steps;
    EmptyRound1To8(q, x);
    Follow(q, x, 0, 8, Quad(0x32033344, 0x9bc13ce9, 0xf5b158db, 0x2f35d494), 0x0, 7, 0x3893b991);
    Follow(q, x, 0, 9, Quad(0x2f35d494, 0x3893b991, 0x9bc13ce9, 0xf5b158db), 0x0, 12, 0xfce4a312);
    Follow(q, x, 0, 10, Quad(0xf5b158db, 0xfce4a312, 0x3893b991, 0x9bc13ce9), 0x0, 17, 0xe1ef0576);
    Follow(q, x, 0, 11, Quad(0x9bc13ce9, 0xe1ef0576, 0xfce4a312, 0x3893b991), 0x0, 22, 0x70768a29);
  }

  lemma EmptyRound1(q: Quad, x: seq<bv32>)
    requires q == Quad(0x67452301, 0xefcdab89, 0x98badcfe, 0x10325476) && x == EMPTY
    ensures Steps(q, x, 0, 16) == Quad(0xf56c7cf1, 0xd6819c6a, 0x5aa53f75, 0x374943a7)
  {
    hide Steps;
    EmptyRound1To12(q, x);
    Follow(q, x, 0, 12, Quad(0x3893b991, 0x70768a29, 0xe1ef0576, 0xfce4a312), 0x0, 7, 0xf56c7cf1);
    Follow(q, x, 0, 13, Quad(0xfce4a312, 0xf56c7cf1, 0x70768a29, 0xe1ef0576), 0x0, 12, 0x374943a7);
    Follow(q, x, 0, 14, Quad(0xe1ef0576, 0x374943a7, 0xf56c7cf1, 0x70768a29), 0x0, 17, 0x5aa53f75);
    Follow(q, x, 0, 15, Quad(0x70768a29, 0x5aa53f75, 0x374943a7, 0xf56c7cf1), 0x0, 22, 0xd6819c6a);
  }

  lemma EmptyRound2To4(q: Quad, x: seq<bv32>)
    requires q == Quad(0xf56c7cf1, 0xd6819c6a, 0x5aa53f75, 0x374943a7) && x == EMPTY
    ensures Steps(q, x, 1, 4) == Quad(0x1c7d7513, 0xbd782e17, 0xc095f13a, 0x7bd57a3a)
  {
    hide Steps;
    NoSteps(q, x, 1);
    Follow(q, x, 1, 0, Quad(0xf56c7cf1, 0xd6819c6a, 0x5aa53f75, 0x374943a7), 0x0, 5, 0x1c7d7513);
    Follow(q, x, 1, 1, Quad(0x374943a7, 0x1c7d7513, 0xd6819c6a, 0x5aa53f75), 0x0, 9, 0x7bd57a3a);
    Follow(q, x, 1, 2, Quad(0x5aa53f75, 0x7bd57a3a, 0x1c7d7513, 0xd6819c6a), 0x0, 14, 0xc095f13a);
    Follow(q, x, 1, 3, Quad(0xd6819c6a, 0xc095f13a, 0x7bd57a3a, 0x1c7d7513), 0x80, 20, 0xbd782e17);
  }

  lemma EmptyRound2To8(q: Quad, x: seq<bv32>)
    requires q == Quad(0xf56c7cf1, 0xd6819c6a, 0x5aa53f75, 0x374943a7) && x == EMPTY
    ensures Steps(q, x, 1, 8) == Quad(0x3d1e3e6c, 0xe422531a, 0xeb41643e, 0x68b7b3e3)
  {
    hide Steps;
    EmptyRound2To4(q, x);
    Follow(q, x, 1, 4, Quad(0x1c7d7513, 0xbd782e17, 0xc095f13a, 0x7bd57a3a), 0x0, 5, 0x3d1e3e6c);
    Follow(q, x, 1, 5, Quad(0x7bd57a3a, 0x3d1e3e6c, 0xbd782e17, 0xc095f13a), 0x0, 9, 0x68b7b3e3);
    Follow(q, x, 1, 6, Quad(0xc095f13a, 0x68b7b3e3, 0x3d1e3e6c, 0xbd782e17), 0x0, 14, 0xeb41643e);
    Follow(q, x, 1, 7, Quad(0xbd782e17, 0xeb41643e, 0x68b7b3e3, 0x3d1e3e6c), 0x0, 20, 0xe422531a);
  }

  lemma EmptyRound2To12(q: Quad, x: seq<bv32>)
    requires q == Quad(0xf56c7cf1, 0xd6819c6a, 0x5aa53f75, 0x374943a7) && x == EMPTY
    ensures Steps(q, x, 1, 12) == Quad(0x306ec122, 0xa0572807, 0xa3c663da, 0xd28c77c2)
  {
    hide Steps;
    EmptyRound2To8(q, x);
    Follow(q, x, 1, 8, Quad(0x3d1e3e6c, 0xe422531a, 0xeb41643e, 0x68b7b3e3), 0x0, 5, 0x306ec122);
    Follow(q, x, 1, 9, Quad(0x68b7b3e3, 0x306ec122, 0xe422531a, 0xeb41643e), 0x0, 9, 0xd28c77c2);
    Follow(q, x, 1, 10, Quad(0xeb41643e, 0xd28c77c2, 0x306ec122, 0xe422531a), 0x0, 14, 0xa3c663da);
    Follow(q, x, 1, 11, Quad(0xe422531a, 0xa3c663da, 0xd28c77c2, 0x306ec122), 0x0, 20, 0xa0572807);
  }

  lemma EmptyRound2(q: Quad, x: seq<bv32>)
    requires q == Quad(0xf56c7cf1, 0xd6819c6a, 0x5aa53f75, 0x374943a7) && x == EMPTY
    ensures Steps(q, x, 1, 16) == Quad(0x13707036, 0xa2205f1f, 0x1c31c384, 0xae7813db)
  {
    hide Steps;
    EmptyRound2To12(q, x);
    Follow(q, x, 1, 12, Quad(0x306ec122, 0xa0572807, 0xa3c663da, 0xd28c77c2), 0x0, 5, 0x13707036);
    Follow(q, x, 1, 13, Quad(0xd28c77c2, 0x13707036, 0xa0572807, 0xa3c663da), 0x0, 9, 0xae7813db);
    Follow(q, x, 1, 14, Quad(0xa3c663da, 0xae7813db, 0x13707036, 0xa0572807), 0x0, 14, 0x1c31c384);
    Follow(q, x, 1, 15, Quad(0xa0572807, 0x1c31c384, 0xae7813db, 0x13707036), 0x0, 20, 0xa2205f1f);
  }

  lemma EmptyRound3To4(q: Quad, x: seq<bv32>)
    requires q == Quad(0x13707036, 0xa2205f1f, 0x1c31c384, 0xae7813db) && x == EMPTY
    ensures Steps(q, x, 2, 4) == Quad(0xdf63eaa1, 0x004b6669, 0x12f3e755, 0xc3689f5b)
  {
    hide Steps;
    NoSteps(q, x, 2);
    Follow(q, x, 2, 0, Quad(0x13707036, 0xa2205f1f, 0x1c31c384, 0xae7813db), 0x0, 4, 0xdf63eaa1);
    Follow(q, x, 2, 1, Quad(0xae7813db, 0xdf63eaa1, 0xa2205f1f, 0x1c31c384), 0x0, 11, 0xc3689f5b);
    Follow(q, x, 2, 2, Quad(0x1c31c384, 0xc3689f5b, 0xdf63eaa1, 0xa2205f1f), 0x0, 16, 0x12f3e755);
    Follow(q, x, 2, 3, Quad(0xa2205f1f, 0x12f3e755, 0xc3689f5b, 0xdf63eaa1), 0x0, 23, 0x004b6669);
  }

  lemma EmptyRound3To8(q: Quad, x: seq<bv32>)
    requires q == Quad(0x13707036, 0xa2205f1f, 0x1c31c384, 0xae7813db) && x == EMPTY
    ensures Steps(q, x, 2, 8) == Quad(0x5f7a9b2e, 0xc5dc8c15, 0x91ca4cb7, 0xabc34e16)
  {
    hide Steps;
    EmptyRound3To4(q, x);
    Follow(q, x, 2, 4, Quad(0xdf63eaa1, 0x004b6669, 0x12f3e755, 0xc3689f5b), 0x0, 4, 0x5f7a9b2e);
    Follow(q, x, 2, 5, Quad(0xc3689f5b, 0x5f7a9b2e, 0x004b6669, 0x12f3e755), 0x0, 11, 0xabc34e16);
    Follow(q, x, 2, 6, Quad(0x12f3e755, 0xabc34e16, 0x5f7a9b2e, 0x004b6669), 0x0, 16, 0x91ca4cb7);
    Follow(q, x, 2, 7, Quad(0x004b6669, 0x91ca4cb7, 0xabc34e16, 0x5f7a9b2e), 0x0, 23, 0xc5dc8c15);
  }

  lemma EmptyRound3To12(q: Quad, x: seq<bv32>)
    requires q == Quad(0x13707036, 0xa2205f1f, 0x1c31c384, 0xae7813db) && x == EMPTY
    ensures Steps(q, x, 2, 12) == Quad(0x4497169d, 0x0fe32453, 0xfd95f243, 0x76fd93d4)
  {
    hide Steps;
    EmptyRound3To8(q, x);
    Follow(q, x, 2, 8, Quad(0x5f7a9b2e, 0xc5dc8c15, 0x91ca4cb7, 0xabc34e16), 0x0, 4, 0x4497169d);
    Follow(q, x, 2, 9, Quad(0xabc34e16, 0x4497169d, 0xc5dc8c15, 0x91ca4cb7), 0x80, 11, 0x76fd93d4);
    Follow(q, x, 2, 10, Quad(0x91ca4cb7, 0x76fd93d4, 0x4497169d, 0xc5dc8c15), 0x0, 16, 0xfd95f243);
    Follow(q, x, 2, 11, Quad(0xc5dc8c15, 0xfd95f243, 0x76fd93d4, 0x4497169d), 0x0, 23, 0x0fe32453);
  }

  lemma EmptyRound3(q: Quad, x: seq<bv32>)
    requires q == Quad(0x13707036, 0xa2205f1f, 0x1c31c384, 0xae7813db) && x == EMPTY
    ensures Steps(q, x, 2, 16) == Quad(0x3f55edfd, 0xca7d2dbd, 0x68d84ea2, 0x22a31f54)
  {
    hide Steps;
    EmptyRound3To12(q, x);
    Follow(q, x, 2, 12, Quad(0x4497169d, 0x0fe32453, 0xfd95f243, 0x76fd93d4), 0x0, 4, 0x3f55edfd);
    Follow(q, x, 2, 13, Quad(0x76fd93d4, 0x3f55edfd, 0x0fe32453, 0xfd95f243), 0x0, 11, 0x22a31f54);
    Follow(q, x, 2, 14, Quad(0xfd95f243, 0x22a31f54, 0x3f55edfd, 0x0fe32453), 0x0, 16, 0x68d84ea2);
    Follow(q, x, 2, 15, Quad(0x0fe32453, 0x68d84ea2, 0x22a31f54, 0x3f55edfd), 0x0, 23, 0xca7d2dbd);
  }

  lemma EmptyRound4To4(q: Quad, x: seq<bv32>)
    requires q == Quad(0x3f55edfd, 0xca7d2dbd, 0x68d84ea2, 0x22a31f54) && x == EMPTY
    ensures Steps(q, x, 3, 4) == Quad(0x93aa2577, 0x561e0689, 0xcd85b8cb, 0x1688dc85)
  {
    hide Steps;
    NoSteps(q, x, 3);
    Follow(q, x, 3, 0, Quad(0x3f55edfd, 0xca7d2dbd, 0x68d84ea2, 0x22a31f54), 0x80, 6, 0x93aa2577);
    Follow(q, x, 3, 1, Quad(0x22a31f54, 0x93aa2577, 0xca7d2dbd, 0x68d84ea2), 0x0, 10, 0x1688dc85);
    Follow(q, x, 3, 2, Quad(0x68d84ea2, 0x1688dc85, 0x93aa2577, 0xca7d2dbd), 0x0, 15, 0xcd85b8cb);
    Follow(q, x, 3, 3, Quad(0xca7d2dbd, 0xcd85b8cb, 0x1688dc85, 0x93aa2577), 0x0, 21, 0x561e0689);
  }

  lemma EmptyRound4To8(q: Quad, x: seq<bv32>)
    requires q == Quad(0x3f55edfd, 0xca7d2dbd, 0x68d84ea2, 0x22a31f54) && x == EMPTY
    ensures Steps(q, x, 3, 8) == Quad(0x5625a114, 0x1e77fa61, 0x392ad0d0, 0x3450f42b)
  {
    hide Steps;
    EmptyRound4To4(q, x);
    Follow(q, x, 3, 4, Quad(0x93aa2577, 0x561e0689, 0xcd85b8cb, 0x1688dc85), 0x0, 6, 0x5625a114);
    Follow(q, x, 3, 5, Quad(0x1688dc85, 0x5625a114, 0x561e0689, 0xcd85b8cb), 0x0, 10, 0x3450f42b);
    Follow(q, x, 3, 6, Quad(0xcd85b8cb, 0x3450f42b, 0x5625a114, 0x561e0689), 0x0, 15, 0x392ad0d0);
    Follow(q, x, 3, 7, Quad(0x561e0689, 0x392ad0d0, 0x3450f42b, 0x5625a114), 0x0, 21, 0x1e77fa61);
  }

  lemma EmptyRound4To12(q: Quad, x: seq<bv32>)
    requires q == Quad(0x3f55edfd, 0xca7d2dbd, 0x68d84ea2, 0x22a31f54) && x == EMPTY
    ensures Steps(q, x, 3, 12) == Quad(0x474a9c8c, 0x30130182, 0x36594b14, 0xdfce00bc)
  {
    hide Steps;
    EmptyRound4To8(q, x);
    Follow(q, x, 3, 8, Quad(0x5625a114, 0x1e77fa61, 0x392ad0d0, 0x3450f42b), 0x0, 6, 0x474a9c8c);
    Follow(q, x, 3, 9, Quad(0x3450f42b, 0x474a9c8c, 0x1e77fa61, 0x392ad0d0), 0x0, 10, 0xdfce00bc);
    Follow(q, x, 3, 10, Quad(0x392ad0d0, 0xdfce00bc, 0x474a9c8c, 0x1e77fa61), 0x0, 15, 0x36594b14);
    Follow(q, x, 3, 11, Quad(0x1e77fa61, 0x36594b14, 0xdfce00bc, 0x474a9c8c), 0x0, 21, 0x30130182);
  }

  lemma EmptyRound4(q: Quad, x: seq<bv32>)
    requires q == Quad(0x3f55edfd, 0xca7d2dbd, 0x68d84ea2, 0x22a31f54) && x == EMPTY
    ensures Steps(q, x, 3, 16) == Quad(0x7246fad3, 0x14e45506, 0xff4ea3eb, 0x6e10a476)
  {
    hide Steps;
    EmptyRound4To12(q, x);
    Follow(q, x, 3, 12, Quad(0x474a9c8c, 0x30130182, 0x36594b14, 0xdfce00bc), 0x0, 6, 0x7246fad3);
    Follow(q, x, 3, 13, Quad(0xdfce00bc, 0x7246fad3, 0x30130182, 0x36594b14), 0x0, 10, 0x6e10a476);
    Follow(q, x, 3, 14, Quad(0x36594b14, 0x6e10a476, 0x7246fad3, 0x30130182), 0x0, 15, 0xff4ea3eb);
    Follow(q, x, 3, 15, Quad(0x30130182, 0xff4ea3eb, 0x6e10a476, 0x7246fad3), 0x0, 21, 0x14e45506);
  }

  lemma EmptyCompressed()
    ensures Compress(INITIAL, EMPTY) == Quad(0xd98c1dd4, 0x04b2008f, 0x980980e9, 0x7e42f8ec)
  {
    hide Steps;
    EmptyRound1(Quad(0x67452301, 0xefcdab89, 0x98badcfe, 0x10325476), EMPTY);
    EmptyRound2(Quad(0xf56c7cf1, 0xd6819c6a, 0x5aa53f75, 0x374943a7), EMPTY);
    EmptyRound3(Quad(0x13707036, 0xa2205f1f, 0x1c31c384, 0xae7813db), EMPTY);
    EmptyRound4(Quad(0x3f55edfd, 0xca7d2dbd, 0x68d84ea2, 0x22a31f54), EMPTY);
  }

  lemma EmptyPadded()
    ensures |Padded([])| == 64 && Words(Padded([])) == EMPTY
  {
    hide Padded, Little;
    ShortPadded([]);
    var p := Padded([]);
    LittleValues();
    assert Word(p, 0) == 0x80 && Word(p, 56) == 0x0;
    assert forall i: nat :: 1 <= i < 16 && i != 14 ==> Word(p, 4 * i) == 0;
  }

  /** MD5 of the empty message. */
  lemma EmptyValue()
    ensures Digest([])
      == [0xd4, 0x1d, 0x8c, 0xd9, 0x8f, 0x00, 0xb2, 0x04, 0xe9, 0x80, 0x09, 0x98, 0xec, 0xf8, 0x42, 0x7e]
  {
    hide Compress, Words, Padded;
    EmptyPadded();
    EmptyCompressed();
    OneBlock(Padded([]));
  }

  // ----- "abc"

  /** The one block of "abc", padded. */
  const ABC: seq<bv32> := [0x80636261, 0x0, 0x0, 0x0, 0x0, 0x0, 0x0, 0x0, 0x0, 0x0, 0x0, 0x0, 0x0, 0x0, 0x18, 0x0]

  lemma AbcRound1To4(q: Quad, x: seq<bv32>)
    requires q == Quad(0x67452301, 0xefcdab89, 0x98badcfe, 0x10325476) && x == ABC
    ensures Steps(q, x, 0, 4) == Quad(0xd6d117b4, 0x7ad956f2, 0x2f6fbd72, 0x344a8432)
  {
    hide Steps;
    NoSteps(q, x, 0);
    Follow(q, x, 0, 0, Quad(0x67452301, 0xefcdab89, 0x98badcfe, 0x10325476), 0x80636261, 7, 0xd6d117b4);
    Follow(q, x, 0, 1, Quad(0x10325476, 0xd6d117b4, 0xefcdab89, 0x98badcfe), 0x0, 12, 0x344a8432);
    Follow(q, x, 0, 2, Quad(0x98badcfe, 0x344a8432, 0xd6d117b4, 0xefcdab89), 0x0, 17, 0x2f6fbd72);
    Follow(q, x, 0, 3, Quad(0xefcdab89, 0x2f6fbd72, 0x344a8432, 0xd6d117b4), 0x0, 22, 0x7ad956f2);
  }

  lemma AbcRound1To8(q: Quad, x: seq<bv32>)
    requires q == Quad(0x67452301, 0xefcdab89, 0x98badcfe, 0x10325476) && x == ABC
    ensures Steps(q, x, 0, 8) == Quad(0xc73741ef, 0x928d99f6, 0x207dc67b, 0x8bac3051)
  {
    hide Steps;
    AbcRound1To4(q, x);
    Follow(q, x, 0, 4, Quad(0xd6d117b4, 0x7ad956f2, 0x2f6fbd72, 0x344a8432), 0x0, 7, 0xc73741ef);
    Follow(q, x, 0, 5, Quad(0x344a8432, 0xc73741ef, 0x7ad956f2, 0x2f6fbd72), 0x0, 12, 0x8bac3051);
    Follow(q, x, 0, 6, Quad(0x2f6fbd72, 0x8bac3051, 0xc73741ef, 0x7ad956f2), 0x0, 17, 0x207dc67b);
    Follow(q, x, 0, 7, Quad(0x7ad956f2, 0x207dc67b, 0x8bac3051, 0xc73741ef), 0x0, 22, 0x928d99f6);
  }

  lemma AbcRound1To12(q: Quad, x: seq<bv32>)
    requires q == Quad(0x67452301, 0xefcdab89, 0x98badcfe, 0x10325476) && x == ABC
    ensures Steps(q, x, 0, 12) == Quad(0x854b3712, 0x5ed49596, 0x3020401c, 0x74e2f284)
  {
    hide Steps;
    AbcRound1To8(q, x);
    Follow(q, x, 0, 8, Quad(0xc73741ef, 0x928d99f6, 0x207dc67b, 0x8bac3051), 0x0, 7, 0x854b3712);
    Follow(q, x, 0, 9, Quad(0x8bac3051, 0x854b3712, 0x928d99f6, 0x207dc67b), 0x0, 12, 0x74e2f284);
    Follow(q, x, 0, 10, Quad(0x207dc67b, 0x74e2f284, 0x854b3712, 0x928d99f6), 0x0, 17, 0x3020401c);
    Follow(q, x, 0, 11, Quad(0x928d99f6, 0x3020401c, 0x74e2f284, 0x854b3712), 0x0, 22, 0x5ed49596);
  }

  lemma AbcRound1(q: Quad, x: seq<bv32>)
    requires q == Quad(0x67452301, 0xefcdab89, 0x98badcfe, 0x10325476) && x == ABC
    ensures Steps(q, x, 0, 16) == Quad(0xdda9b9a6, 0x72aff2e0, 0xe396856b, 0xa1051895)
  {
    hide Steps;
    AbcRound1To12(q, x);
    Follow(q, x, 0, 12, Quad(0x854b3712, 0x5ed49596, 0x3020401c, 0x74e2f284), 0x0, 7, 0xdda9b9a6);
    Follow(q, x, 0, 13, Quad(0x74e2f284, 0xdda9b9a6, 0x5ed49596, 0x3020401c), 0x0, 12, 0xa1051895);
    Follow(q, x, 0, 14, Quad(0x3020401c, 0xa1051895, 0xdda9b9a6, 0x5ed49596), 0x18, 17, 0xe396856b);
    Follow(q, x, 0, 15, Quad(0x5ed49596, 0xe396856b, 0xa1051895, 0xdda9b9a6), 0x0, 22, 0x72aff2e0);
  }

  lemma AbcRound2To4(q: Quad, x: seq<bv32>)
    requires q == Quad(0xdda9b9a6, 0x72aff2e0, 0xe396856b, 0xa1051895) && x == ABC
    ensures Steps(q, x, 1, 4) == Quad(0x3e9e9126, 0xb5b204e4, 0xe25e1652, 0x4a1d804e)
  {
    hide Steps;
    NoSteps(q, x, 1);
    Follow(q, x, 1, 0, Quad(0xdda9b9a6, 0x72aff2e0, 0xe396856b, 0xa1051895), 0x0, 5, 0x3e9e9126);
    Follow(q, x, 1, 1, Quad(0xa1051895, 0x3e9e9126, 0x72aff2e0, 0xe396856b), 0x0, 9, 0x4a1d804e);
    Follow(q, x, 1, 2, Quad(0xe396856b, 0x4a1d804e, 0x3e9e9126, 0x72aff2e0), 0x0, 14, 0xe25e1652);
    Follow(q, x, 1, 3, Quad(0x72aff2e0, 0xe25e1652, 0x4a1d804e, 0x3e9e9126), 0x80636261, 20, 0xb5b204e4);
  }

  lemma AbcRound2To8(q: Quad, x: seq<bv32>)
    requires q == Quad(0xdda9b9a6, 0x72aff2e0, 0xe396856b, 0xa1051895) && x == ABC
    ensures Steps(q, x, 1, 8) == Quad(0x59a8ffda, 0x47092c07, 0xabfc7920, 0x6d002f1e)
  {
    hide Steps;
    AbcRound2To4(q, x);
    Follow(q, x, 1, 4, Quad(0x3e9e9126, 0xb5b204e4, 0xe25e1652, 0x4a1d804e), 0x0, 5, 0x59a8ffda);
    Follow(q, x, 1, 5, Quad(0x4a1d804e, 0x59a8ffda, 0xb5b204e4, 0xe25e1652), 0x0, 9, 0x6d002f1e);
    Follow(q, x, 1, 6, Quad(0xe25e1652, 0x6d002f1e, 0x59a8ffda, 0xb5b204e4), 0x0, 14, 0xabfc7920);
    Follow(q, x, 1, 7, Quad(0xb5b204e4, 0xabfc7920, 0x6d002f1e, 0x59a8ffda), 0x0, 20, 0x47092c07);
  }

  lemma AbcRound2To12(q: Quad, x: seq<bv32>)
    requires q == Quad(0xdda9b9a6, 0x72aff2e0, 0xe396856b, 0xa1051895) && x == ABC
    ensures Steps(q, x, 1, 12) == Quad(0xb7f268cf, 0x786acb8f, 0xfe1623b1, 0x09388eff)
  {
    hide Steps;
    AbcRound2To8(q, x);
    Follow(q, x, 1, 8, Quad(0x59a8ffda, 0x47092c07, 0xabfc7920, 0x6d002f1e), 0x0, 5, 0xb7f268cf);
    Follow(q, x, 1, 9, Quad(0x6d002f1e, 0xb7f268cf, 0x47092c07, 0xabfc7920), 0x18, 9, 0x09388eff);
    Follow(q, x, 1, 10, Quad(0xabfc7920, 0x09388eff, 0xb7f268cf, 0x47092c07), 0x0, 14, 0xfe1623b1);
    Follow(q, x, 1, 11, Quad(0x47092c07, 0xfe1623b1, 0x09388eff, 0xb7f268cf), 0x0, 20, 0x786acb8f);
  }

  lemma AbcRound2(q: Quad, x: seq<bv32>)
    requires q == Quad(0xdda9b9a6, 0x72aff2e0, 0xe396856b, 0xa1051895) && x == ABC
    ensures Steps(q, x, 1, 16) == Quad(0x790a77fb, 0x726342d3, 0xa62884aa, 0x9f47e4f8)
  {
    hide Steps;
    AbcRound2To12(q, x);
    Follow(q, x, 1, 12, Quad(0xb7f268cf, 0x786acb8f, 0xfe1623b1, 0x09388eff), 0x0, 5, 0x790a77fb);
    Follow(q, x, 1, 13, Quad(0x09388eff, 0x790a77fb, 0x786acb8f, 0xfe1623b1), 0x0, 9, 0x9f47e4f8);
    Follow(q, x, 1, 14, Quad(0xfe1623b1, 0x9f47e4f8, 0x790a77fb, 0x786acb8f), 0x0, 14, 0xa62884aa);
    Follow(q, x, 1, 15, Quad(0x786acb8f, 0xa62884aa, 0x9f47e4f8, 0x790a77fb), 0x0, 20, 0x726342d3);
  }

  lemma AbcRound3To4(q: Quad, x: seq<bv32>)
    requires q == Quad(0x790a77fb, 0x726342d3, 0xa62884aa, 0x9f47e4f8) && x == ABC
    ensures Steps(q, x, 2, 4) == Quad(0xb3707ebf, 0x3b0875c7, 0x8d212ff5, 0x60127b2e)
  {
    hide Steps;
    NoSteps(q, x, 2);
    Follow(q, x, 2, 0, Quad(0x790a77fb, 0x726342d3, 0xa62884aa, 0x9f47e4f8), 0x0, 4, 0xb3707ebf);
    Follow(q, x, 2, 1, Quad(0x9f47e4f8, 0xb3707ebf, 0x726342d3, 0xa62884aa), 0x0, 11, 0x60127b2e);
    Follow(q, x, 2, 2, Quad(0xa62884aa, 0x60127b2e, 0xb3707ebf, 0x726342d3), 0x0, 16, 0x8d212ff5);
    Follow(q, x, 2, 3, Quad(0x726342d3, 0x8d212ff5, 0x60127b2e, 0xb3707ebf), 0x18, 23, 0x3b0875c7);
  }

  lemma AbcRound3To8(q: Quad, x: seq<bv32>)
    requires q == Quad(0x790a77fb, 0x726342d3, 0xa62884aa, 0x9f47e4f8) && x == ABC
    ensures Steps(q, x, 2, 8) == Quad(0x21b117b9, 0x5a2f5ea5, 0x3575227e, 0x6e7429d5)
  {
    hide Steps;
    AbcRound3To4(q, x);
    Follow(q, x, 2, 4, Quad(0xb3707ebf, 0x3b0875c7, 0x8d212ff5, 0x60127b2e), 0x0, 4, 0x21b117b9);
    Follow(q, x, 2, 5, Quad(0x60127b2e, 0x21b117b9, 0x3b0875c7, 0x8d212ff5), 0x0, 11, 0x6e7429d5);
    Follow(q, x, 2, 6, Quad(0x8d212ff5, 0x6e7429d5, 0x21b117b9, 0x3b0875c7), 0x0, 16, 0x3575227e);
    Follow(q, x, 2, 7, Quad(0x3b0875c7, 0x3575227e, 0x6e7429d5, 0x21b117b9), 0x0, 23, 0x5a2f5ea5);
  }

  lemma AbcRound3To12(q: Quad, x: seq<bv32>)
    requires q == Quad(0x790a77fb, 0x726342d3, 0xa62884aa, 0x9f47e4f8) && x == ABC
    ensures Steps(q, x, 2, 12) == Quad(0x11de1779, 0x4c6124f4, 0x31c465ca, 0xfadcaa38)
  {
    hide Steps;
    AbcRound3To8(q, x);
    Follow(q, x, 2, 8, Quad(0x21b117b9, 0x5a2f5ea5, 0x3575227e, 0x6e7429d5), 0x0, 4, 0x11de1779);
    Follow(q, x, 2, 9, Quad(0x6e7429d5, 0x11de1779, 0x5a2f5ea5, 0x3575227e), 0x80636261, 11, 0xfadcaa38);
    Follow(q, x, 2, 10, Quad(0x3575227e, 0xfadcaa38, 0x11de1779, 0x5a2f5ea5), 0x0, 16, 0x31c465ca);
    Follow(q, x, 2, 11, Quad(0x5a2f5ea5, 0x31c465ca, 0xfadcaa38, 0x11de1779), 0x0, 23, 0x4c6124f4);
  }

  lemma AbcRound3(q: Quad, x: seq<bv32>)
    requires q == Quad(0x790a77fb, 0x726342d3, 0xa62884aa, 0x9f47e4f8) && x == ABC
    ensures Steps(q, x, 2, 16) == Quad(0x7f2e507b, 0x7beb9700, 0x8fae6399, 0x99d9679d)
  {
    hide Steps;
    AbcRound3To12(q, x);
    Follow(q, x, 2, 12, Quad(0x11de1779, 0x4c6124f4, 0x31c465ca, 0xfadcaa38), 0x0, 4, 0x7f2e507b);
    Follow(q, x, 2, 13, Quad(0xfadcaa38, 0x7f2e507b, 0x4c6124f4, 0x31c465ca), 0x0, 11, 0x99d9679d);
    Follow(q, x, 2, 14, Quad(0x31c465ca, 0x99d9679d, 0x7f2e507b, 0x4c6124f4), 0x0, 16, 0x8fae6399);
    Follow(q, x, 2, 15, Quad(0x4c6124f4, 0x8fae6399, 0x99d9679d, 0x7f2e507b), 0x0, 23, 0x7beb9700);
  }

  lemma AbcRound4To4(q: Quad, x: seq<bv32>)
    requires q == Quad(0x7f2e507b, 0x7beb9700, 0x8fae6399, 0x99d9679d) && x == ABC
    ensures Steps(q, x, 3, 4) == Quad(0x7b201df8, 0x8bf025c4, 0xb298cefd, 0xf4e8e96e)
  {
    hide Steps;
    NoSteps(q, x, 3);
    Follow(q, x, 3, 0, Quad(0x7f2e507b, 0x7beb9700, 0x8fae6399, 0x99d9679d), 0x80636261, 6, 0x7b201df8);
    Follow(q, x, 3, 1, Quad(0x99d9679d, 0x7b201df8, 0x7beb9700, 0x8fae6399), 0x0, 10, 0xf4e8e96e);
    Follow(q, x, 3, 2, Quad(0x8fae6399, 0xf4e8e96e, 0x7b201df8, 0x7beb9700), 0x18, 15, 0xb298cefd);
    Follow(q, x, 3, 3, Quad(0x7beb9700, 0xb298cefd, 0xf4e8e96e, 0x7b201df8), 0x0, 21, 0x8bf025c4);
  }

  lemma AbcRound4To8(q: Quad, x: seq<bv32>)
    requires q == Quad(0x7f2e507b, 0x7beb9700, 0x8fae6399, 0x99d9679d) && x == ABC
    ensures Steps(q, x, 3, 8) == Quad(0x06cc5e8a, 0x3bfa2c27, 0x7d632dd0, 0x5b0d97aa)
  {
    hide Steps;
    AbcRound4To4(q, x);
    Follow(q, x, 3, 4, Quad(0x7b201df8, 0x8bf025c4, 0xb298cefd, 0xf4e8e96e), 0x0, 6, 0x06cc5e8a);
    Follow(q, x, 3, 5, Quad(0xf4e8e96e, 0x06cc5e8a, 0x8bf025c4, 0xb298cefd), 0x0, 10, 0x5b0d97aa);
    Follow(q, x, 3, 6, Quad(0xb298cefd, 0x5b0d97aa, 0x06cc5e8a, 0x8bf025c4), 0x0, 15, 0x7d632dd0);
    Follow(q, x, 3, 7, Quad(0x8bf025c4, 0x7d632dd0, 0x5b0d97aa, 0x06cc5e8a), 0x0, 21, 0x3bfa2c27);
  }

  lemma AbcRound4To12(q: Quad, x: seq<bv32>)
    requires q == Quad(0x7f2e507b, 0x7beb9700, 0x8fae6399, 0x99d9679d) && x == ABC
    ensures Steps(q, x, 3, 12) == Quad(0x7f81cc35, 0x7327d604, 0x4f9dbe3f, 0x094454ab)
  {
    hide Steps;
    AbcRound4To8(q, x);
    Follow(q, x, 3, 8, Quad(0x06cc5e8a, 0x3bfa2c27, 0x7d632dd0, 0x5b0d97aa), 0x0, 6, 0x7f81cc35);
    Follow(q, x, 3, 9, Quad(0x5b0d97aa, 0x7f81cc35, 0x3bfa2c27, 0x7d632dd0), 0x0, 10, 0x094454ab);
    Follow(q, x, 3, 10, Quad(0x7d632dd0, 0x094454ab, 0x7f81cc35, 0x3bfa2c27), 0x0, 15, 0x4f9dbe3f);
    Follow(q, x, 3, 11, Quad(0x3bfa2c27, 0x4f9dbe3f, 0x094454ab, 0x7f81cc35), 0x0, 21, 0x7327d604);
  }

  lemma AbcRound4(q: Quad, x: seq<bv32>)
    requires q == Quad(0x7f2e507b, 0x7beb9700, 0x8fae6399, 0x99d9679d) && x == ABC
    ensures Steps(q, x, 3, 16) == Quad(0x310ade8f, 0xc08226b3, 0xe484b9d8, 0x624d8cb2)
  {
    hide Steps;
    AbcRound4To12(q, x);
    Follow(q, x, 3, 12, Quad(0x7f81cc35, 0x7327d604, 0x4f9dbe3f, 0x094454ab), 0x0, 6, 0x310ade8f);
    Follow(q, x, 3, 13, Quad(0x094454ab, 0x310ade8f, 0x7327d604, 0x4f9dbe3f), 0x0, 10, 0x624d8cb2);
    Follow(q, x, 3, 14, Quad(0x4f9dbe3f, 0x624d8cb2, 0x310ade8f, 0x7327d604), 0x0, 15, 0xe484b9d8);
    Follow(q, x, 3, 15, Quad(0x7327d604, 0xe484b9d8, 0x624d8cb2, 0x310ade8f), 0x0, 21, 0xc08226b3);
  }

  lemma AbcCompressed()
    ensures Compress(INITIAL, ABC) == Quad(0x98500190, 0xb04fd23c, 0x7d3f96d6, 0x727fe128)
  {
    hide Steps;
    AbcRound1(Quad(0x67452301, 0xefcdab89, 0x98badcfe, 0x10325476), ABC);
    AbcRound2(Quad(0xdda9b9a6, 0x72aff2e0, 0xe396856b, 0xa1051895), ABC);
    AbcRound3(Quad(0x790a77fb, 0x726342d3, 0xa62884aa, 0x9f47e4f8), ABC);
    AbcRound4(Quad(0x7f2e507b, 0x7beb9700, 0x8fae6399, 0x99d9679d), ABC);
  }

  lemma AbcPadded()
    ensures |Padded([0x61, 0x62, 0x63])| == 64 && Words(Padded([0x61, 0x62, 0x63])) == ABC
  {
    hide Padded, Little;
    ShortPadded([0x61, 0x62, 0x63]);
    var p := Padded([0x61, 0x62, 0x63]);
    LittleValues();
    assert Word(p, 0) == 0x80636261 && Word(p, 56) == 0x18;
    assert forall i: nat :: 1 <= i < 16 && i != 14 ==> Word(p, 4 * i) == 0;
  }

  /** MD5 of "abc". */
  lemma AbcValue()
    ensures Digest([0x61, 0x62, 0x63])
      == [0x90, 0x01, 0x50, 0x98, 0x3c, 0xd2, 0x4f, 0xb0, 0xd6, 0x96, 0x3f, 0x7d, 0x28, 0xe1, 0x7f, 0x72]
  {
    hide Compress, Words, Padded;
    AbcPadded();
    AbcCompressed();
    OneBlock(Padded([0x61, 0x62, 0x63]));
  }

  lemma LittleValues()
    ensures Little(0x80, 0, 0, 0) == 0x80 && Little(0x61, 0x62, 0x63, 0x80) == 0x80636261
    ensures Little(0x18, 0, 0, 0) == 0x18 && Little(0, 0, 0, 0) == 0
  {
  }

  lemma OneBlock(m: seq<byte>)
    requires |m| == 64
    ensures Chain(m) == Compress(INITIAL, Words(m))
  {
    hide Compress, Words;
    assert m[..0] == [] && m[0..] == m;
    assert Chain([]) == INITIAL;
  }
}
